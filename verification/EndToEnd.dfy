/** From the bytes of a rotating log file to the rows in the store: the tailer among its
    writers and the delivery pipeline, in one run, sharing one checkpoint. */
module EndToEnd {
  import opened Basics
  import Delivery
  import Exactness
  import LineProtocol
  import Lines
  import Runs
  import Stamp
  import Tail
  import TailRuns
  import Wire

  datatype State = State(world: TailRuns.World, sys: Delivery.Sys)

  datatype Step =
    | Outside(change: TailRuns.Event) // the writer, or logrotate
    | Look(turn: TailRuns.Event)      // the tailer, as long as there is room for a line
    | Inside(event: Delivery.Event)   // the rest of the pipeline
    | Kill                            // the process dies and the next one resumes

  /** What the pipeline makes of each source line, on its own. */
  type Mapper = string -> Delivery.Line

  function Mapped(mapper: Mapper, lines: seq<string>): (input: seq<Delivery.Line>)
    ensures |input| == |lines| && forall i :: 0 <= i < |input| ==> input[i] == mapper(lines[i])
  {
    seq(|lines|, i requires 0 <= i < |lines| => mapper(lines[i]))
  }

  function Start(cfg: Delivery.Config, content: Option<string>, named: set<nat>): State {
    State(TailRuns.Boot(content, named), Delivery.Boot(cfg))
  }

  ghost predicate Enabled(cfg: Delivery.Config, s: State, step: Step) {
    match step
    case Outside(ev) =>
      (ev.Write? || ev.Rename? || ev.Recreate? || ev.Unlink?) && TailRuns.Enabled(s.world, ev)
    case Look(ev) =>
      && (ev.Drain? || ev.Check? || ev.Live? || ev.Poll?) && TailRuns.Enabled(s.world, ev)
      && !s.sys.full && |s.sys.batch| < cfg.batchLines
    case Inside(ev) => !ev.Read? && !ev.Crash? && Delivery.Enabled(cfg, s.sys, ev)
    case Kill => TailRuns.Enabled(s.world, TailRuns.Restart)
  }

  /** A line the tailer returns is the next line of the pipeline's input. */
  function Pull(cfg: Delivery.Config, s: Delivery.Sys): Delivery.Sys {
    if s.pos < |cfg.input| then Delivery.AfterRead(cfg, s) else s
  }

  predicate Saves(ev: Delivery.Event) {
    ev.Save? || ev.DrainSave?
  }

  /** A checkpoint holds the tailer's marks and the pipeline's progress, and a restart takes
      up both. */
  ghost function Do(cfg: Delivery.Config, s: State, step: Step): State
    requires Enabled(cfg, s, step)
  {
    match step
    case Outside(ev) => s.(world := TailRuns.Do(s.world, ev))
    case Look(ev) =>
      var world := TailRuns.Do(s.world, ev);
      State(world, if world.tail.emitted == s.world.tail.emitted then s.sys else Pull(cfg, s.sys))
    case Inside(ev) =>
      State(if Saves(ev) then TailRuns.Do(s.world, TailRuns.Save) else s.world, Delivery.Do(cfg, s.sys, ev))
    case Kill => State(TailRuns.Do(s.world, TailRuns.Restart), Delivery.Restart(cfg, s.sys))
  }

  ghost predicate Legal(cfg: Delivery.Config, s: State, steps: seq<Step>)
    decreases |steps|, 0
  {
    steps == [] || (Legal(cfg, s, steps[..|steps| - 1])
                    && Enabled(cfg, Play(cfg, s, steps[..|steps| - 1]), steps[|steps| - 1]))
  }

  ghost function Play(cfg: Delivery.Config, s: State, steps: seq<Step>): State
    requires Legal(cfg, s, steps)
    decreases |steps|, 1
  {
    if steps == [] then s else Do(cfg, Play(cfg, s, steps[..|steps| - 1]), steps[|steps| - 1])
  }

  /** Every death found the saved checkpoint safe. */
  ghost predicate SafeKills(cfg: Delivery.Config, s: State, steps: seq<Step>)
    requires Legal(cfg, s, steps)
  {
    steps == [] ||
    var (init, step) := (steps[..|steps| - 1], steps[|steps| - 1]);
    && SafeKills(cfg, s, init)
    && (step.Kill? ==> Delivery.CheckpointSafe(cfg, Play(cfg, s, init).sys))
  }

  /** Every save at the end of a queue drain found its pending rows durable. */
  ghost predicate Careful(cfg: Delivery.Config, s: State, steps: seq<Step>)
    requires Legal(cfg, s, steps)
  {
    steps == [] ||
    var (init, step) := (steps[..|steps| - 1], steps[|steps| - 1]);
    && Careful(cfg, s, init)
    && (step == Inside(Delivery.DrainSave) ==> Delivery.PendingDurable(cfg, Play(cfg, s, init).sys))
  }

  // ---- The lines there are only grow ----

  lemma {:induction false} CompleteLinesGrow(a: string, b: string)
    ensures Tail.CompleteLines(a) <= Tail.CompleteLines(a + b)
    decreases |a|
  {
    if '\n' in a {
      var n := Lines.FirstEnd(a);
      Tail.FirstEndOver(a, b);
      assert (a + b)[..n] == a[..n] && (a + b)[n..] == a[n..] + b;
      Tail.CompleteStep(a);
      Tail.CompleteStep(a + b);
      hide Tail.CompleteLines, Tail.Strip, Lines.FirstEnd;
      CompleteLinesGrow(a[n..], b);
    } else {
      TailRuns.NoNewlineNoLines(a);
    }
  }

  lemma AllGrows(w: TailRuns.World, ev: TailRuns.Event)
    requires !ev.WriteOld? && !ev.Overwrite?
    ensures Tail.All(w.fs.gens) <= Tail.All(TailRuns.Do(w, ev).fs.gens)
  {
    hide Tail.All, Tail.CompleteLines, Tail.NextLine, Tail.Drain, Tail.Check, Tail.Live, Tail.Resumed;
    if ev.Write? && w.fs.gens != [] {
      var n := |w.fs.gens| - 1;
      Tail.AllSnoc(w.fs.gens[..n], w.fs.gens[n]);
      Tail.AllSnoc(w.fs.gens[..n], w.fs.gens[n] + ev.bytes);
      assert w.fs.gens[..n] + [w.fs.gens[n]] == w.fs.gens;
      CompleteLinesGrow(w.fs.gens[n], ev.bytes);
    } else if ev.Recreate? {
      Tail.AllSnoc(w.fs.gens, []);
    }
  }

  // ---- A step of the tailer returns at most one line ----

  predicate OneMore(before: seq<string>, after: seq<string>) {
    after == before || (|after| == |before| + 1 && before <= after)
  }

  lemma {:induction false} DrainPendingOne(fs: Tail.Fs, s: Tail.State)
    ensures OneMore(s.emitted, Tail.DrainPending(fs, s).emitted)
    decreases |s.draining|
  {
    hide Tail.ReadLine;
    if s.draining != [] && Tail.ReadLine(fs, s.draining[0]).None? { DrainPendingOne(fs, Tail.Drain(fs, s)); }
  }

  lemma LookIsOne(w: TailRuns.World, ev: TailRuns.Event)
    requires ev.Drain? || ev.Check? || ev.Live? || ev.Poll?
    ensures var w' := TailRuns.Do(w, ev);
            OneMore(w.tail.emitted, w'.tail.emitted) && w'.fs == w.fs && w'.saved == w.saved
  {
    hide Tail.ReadLine, Tail.DrainPending;
    if ev.Poll? {
      var a := Tail.DrainPending(w.fs, w.tail);
      DrainPendingOne(w.fs, w.tail);
      DrainPendingOne(w.fs, Tail.Check(w.fs, a, ev.opens));
    }
  }

  // ---- The two machines stay in step ----

  /** The pipeline's position is the tailer's, now and in the checkpoint, and the pipeline is
      where some run of its own would be, a disciplined one if `safe`. */
  ghost predicate Linked(cfg: Delivery.Config, s: State, safe: bool) {
    && TailRuns.Good(s.world) && Runs.Reached(cfg, s.sys, safe)
    && s.sys.pos == |s.world.tail.emitted| && s.sys.cp.pos == |s.world.saved.emitted|
  }

  lemma StartIsLinked(cfg: Delivery.Config, content: Option<string>, named: set<nat>)
    ensures Linked(cfg, Start(cfg, content, named), true)
  {
    TailRuns.BootIsGood(content, named);
    Runs.BootIsReached(cfg, true);
    hide TailRuns.Good, Runs.Reached;
  }

  /** What a step does to the pipeline: one event of its own, or none. */
  function EventOf(s: State, step: Step): Option<Delivery.Event> {
    match step
    case Outside(_) => None
    case Look(ev) => if TailRuns.Do(s.world, ev).tail.emitted == s.world.tail.emitted then None else Some(Delivery.Read)
    case Inside(ev) => Some(ev)
    case Kill => Some(Delivery.Crash)
  }

  /** The pipeline's part of a step is that event. */
  lemma StepIsEvent(cfg: Delivery.Config, s: State, step: Step, safe: bool)
    requires Linked(cfg, s, safe) && Enabled(cfg, s, step) && |Tail.All(s.world.fs.gens)| <= |cfg.input|
    ensures match EventOf(s, step)
            case None => Do(cfg, s, step).sys == s.sys
            case Some(ev) => Delivery.Enabled(cfg, s.sys, ev) && Do(cfg, s, step).sys == Delivery.Do(cfg, s.sys, ev)
    ensures EventOf(s, step) == Some(Delivery.DrainSave) ==> step == Inside(Delivery.DrainSave)
    ensures EventOf(s, step) == Some(Delivery.Crash) ==> step.Kill?
  {
    hide TailRuns.Good, TailRuns.Enabled, TailRuns.Do, Runs.Reached, Tail.All;
    if step.Look? {
      var world := TailRuns.Do(s.world, step.turn);
      TailRuns.StepIsGood(s.world, step.turn);
      LookIsOne(s.world, step.turn);
      EmittedFits(world);
    }
  }

  lemma EmittedFits(w: TailRuns.World)
    requires TailRuns.Good(w)
    ensures w.tail.emitted <= Tail.All(w.fs.gens)
  {
    hide Tail.Core, Tail.All;
    Tail.EmittedIsPrefix(w.fs, w.tail);
  }

  lemma WorldKeeps(cfg: Delivery.Config, s: State, step: Step)
    requires TailRuns.Good(s.world) && Enabled(cfg, s, step)
    ensures TailRuns.Good(Do(cfg, s, step).world)
  {
    hide TailRuns.Good, TailRuns.Enabled, Delivery.Enabled, Delivery.Do, TailRuns.Do;
    match step {
      case Outside(ev) => TailRuns.StepIsGood(s.world, ev);
      case Look(ev) => TailRuns.StepIsGood(s.world, ev);
      case Inside(ev) => SaveEnabled(s.world); TailRuns.StepIsGood(s.world, TailRuns.Save);
      case Kill => TailRuns.StepIsGood(s.world, TailRuns.Restart);
    }
  }

  lemma SaveEnabled(w: TailRuns.World)
    ensures TailRuns.Enabled(w, TailRuns.Save)
  {
  }

  lemma PositionsKept(cfg: Delivery.Config, s: State, step: Step, safe: bool)
    requires Linked(cfg, s, safe) && Enabled(cfg, s, step) && |Tail.All(s.world.fs.gens)| <= |cfg.input|
    ensures var t := Do(cfg, s, step);
            t.sys.pos == |t.world.tail.emitted| && t.sys.cp.pos == |t.world.saved.emitted|
  {
    hide TailRuns.Good, Runs.Reached, Tail.All, Tail.Resume, Tail.NextLine, Tail.Drain, Tail.Check, Tail.Live,
      Delivery.Answered, Delivery.FateOf, Delivery.Total;
    if step.Look? {
      LookIsOne(s.world, step.turn);
      StepIsEvent(cfg, s, step, safe);
    }
  }

  lemma StepKeepsLinked(cfg: Delivery.Config, s: State, step: Step, safe: bool)
    requires Linked(cfg, s, safe) && Enabled(cfg, s, step) && |Tail.All(s.world.fs.gens)| <= |cfg.input|
    requires safe && step == Inside(Delivery.DrainSave) ==> Delivery.PendingDurable(cfg, s.sys)
    ensures Linked(cfg, Do(cfg, s, step), safe)
  {
    hide TailRuns.Good, Runs.Reached, Enabled, Do, Delivery.Enabled, Delivery.Do, EventOf, Tail.All;
    WorldKeeps(cfg, s, step);
    PositionsKept(cfg, s, step, safe);
    StepIsEvent(cfg, s, step, safe);
    if EventOf(s, step).Some? { Runs.ReachedStep(cfg, s.sys, EventOf(s, step).value, safe); }
  }

  lemma StepAllGrows(cfg: Delivery.Config, s: State, step: Step)
    requires Enabled(cfg, s, step)
    ensures Tail.All(s.world.fs.gens) <= Tail.All(Do(cfg, s, step).world.fs.gens)
  {
    hide TailRuns.Do, TailRuns.Enabled, Tail.All, Delivery.Enabled, Delivery.Do;
    match step {
      case Outside(ev) => AllGrows(s.world, ev);
      case Look(ev) => AllGrows(s.world, ev);
      case Inside(ev) => AllGrows(s.world, TailRuns.Save);
      case Kill => AllGrows(s.world, TailRuns.Restart);
    }
  }

  lemma {:induction false} AlwaysLinked(cfg: Delivery.Config, content: Option<string>, named: set<nat>,
                                        steps: seq<Step>)
    requires Legal(cfg, Start(cfg, content, named), steps)
    requires |Tail.All(Play(cfg, Start(cfg, content, named), steps).world.fs.gens)| <= |cfg.input|
    ensures var s := Start(cfg, content, named); Linked(cfg, Play(cfg, s, steps), Careful(cfg, s, steps))
  {
    var s0 := Start(cfg, content, named);
    hide Linked, Enabled, Do, Start, Delivery.PendingDurable;
    if steps == [] {
      StartIsLinked(cfg, content, named);
    } else {
      var (init, step) := (steps[..|steps| - 1], steps[|steps| - 1]);
      var (s, safe) := (Play(cfg, s0, init), Careful(cfg, s0, steps));
      StepAllGrows(cfg, s, step);
      AlwaysLinked(cfg, content, named, init);
      LinkedWeaken(cfg, s, Careful(cfg, s0, init), safe);
      StepKeepsLinked(cfg, s, step, safe);
    }
  }

  lemma LinkedWeaken(cfg: Delivery.Config, s: State, have: bool, safe: bool)
    requires Linked(cfg, s, have) && (safe ==> have)
    ensures Linked(cfg, s, safe)
  {
    hide TailRuns.Good, Runs.Reached;
    if have && !safe { Runs.ReachedWeaken(cfg, s.sys, have); }
  }

  // ---- Nothing taken is lost unless a death finds an unsafe checkpoint ----

  lemma StepCovers(cfg: Delivery.Config, s: State, step: Step, safe: bool)
    requires Delivery.WellFormed(cfg) && Linked(cfg, s, safe) && Enabled(cfg, s, step)
    requires |Tail.All(s.world.fs.gens)| <= |cfg.input|
    requires Delivery.Covered(cfg, s.sys) && (step.Kill? ==> Delivery.CheckpointSafe(cfg, s.sys))
    ensures Delivery.Covered(cfg, Do(cfg, s, step).sys)
  {
    hide TailRuns.Good, Enabled, Do, Delivery.WellFormed, Delivery.Enabled, Delivery.Do, Delivery.Covered,
      Delivery.CheckpointSafe, EventOf, Tail.All, Exactness.StampersFit, Exactness.Provenance;
    StepIsEvent(cfg, s, step, safe);
    Runs.ReachedWeaken(cfg, s.sys, safe);
    Runs.ReachableIsSane(cfg, s.sys);
    if EventOf(s, step).Some? {
      if EventOf(s, step).value.Crash? { Exactness.CoveredAfterCrash(cfg, s.sys); }
      else { Exactness.CoveredKept(cfg, s.sys, EventOf(s, step).value); }
    }
  }

  lemma {:induction false} AlwaysCovered(cfg: Delivery.Config, content: Option<string>, named: set<nat>,
                                         steps: seq<Step>)
    requires Delivery.WellFormed(cfg) && Legal(cfg, Start(cfg, content, named), steps)
    requires |Tail.All(Play(cfg, Start(cfg, content, named), steps).world.fs.gens)| <= |cfg.input|
    requires SafeKills(cfg, Start(cfg, content, named), steps)
    ensures Delivery.Covered(cfg, Play(cfg, Start(cfg, content, named), steps).sys)
  {
    var s0 := Start(cfg, content, named);
    hide Linked, Enabled, Do, Delivery.WellFormed, Delivery.Covered, Delivery.CheckpointSafe, TailRuns.Boot, Careful;
    if steps == [] {
      Exactness.BootIsCovered(cfg);
    } else {
      var (init, step) := (steps[..|steps| - 1], steps[|steps| - 1]);
      var s := Play(cfg, s0, init);
      StepAllGrows(cfg, s, step);
      AlwaysLinked(cfg, content, named, init);
      AlwaysCovered(cfg, content, named, init);
      StepCovers(cfg, s, step, Careful(cfg, s0, init));
    }
  }

  /** With every save at the end of a drain careful, every death finds a safe checkpoint. */
  lemma {:induction false} CarefulKills(cfg: Delivery.Config, content: Option<string>, named: set<nat>,
                                        steps: seq<Step>)
    requires Delivery.WellFormed(cfg) && Legal(cfg, Start(cfg, content, named), steps)
    requires |Tail.All(Play(cfg, Start(cfg, content, named), steps).world.fs.gens)| <= |cfg.input|
    requires Careful(cfg, Start(cfg, content, named), steps)
    ensures SafeKills(cfg, Start(cfg, content, named), steps)
  {
    var s0 := Start(cfg, content, named);
    hide Linked, Enabled, Do, Start, Delivery.WellFormed, Delivery.CheckpointSafe, Delivery.PendingDurable;
    if steps != [] {
      var (init, step) := (steps[..|steps| - 1], steps[|steps| - 1]);
      StepAllGrows(cfg, Play(cfg, s0, init), step);
      CarefulKills(cfg, content, named, init);
      AlwaysLinked(cfg, content, named, init);
      LinkedIsSafe(cfg, Play(cfg, s0, init));
    }
  }

  lemma LinkedIsSafe(cfg: Delivery.Config, s: State)
    requires Delivery.WellFormed(cfg) && Linked(cfg, s, true)
    ensures Delivery.CheckpointSafe(cfg, s.sys)
  {
    var evs :| Runs.ReachedBy(cfg, s.sys, evs, true);
    Exactness.DisciplinedIsSafe(cfg, evs);
  }

  // ---- End to end ----

  /** Whatever is written, rotated, read, shipped, checkpointed and killed, if the pipeline's
      input is what the files come to hold, then the lines it has taken are the lines the
      tailer returned, mapped one by one; the checkpoint's marks and its position stand for
      the same lines; and the pipeline took a run of its own machine. */
  lemma InStep(cfg: Delivery.Config, mapper: Mapper, content: Option<string>, named: set<nat>, steps: seq<Step>)
    requires Legal(cfg, Start(cfg, content, named), steps)
    requires cfg.input == Mapped(mapper, Tail.All(Play(cfg, Start(cfg, content, named), steps).world.fs.gens))
    ensures var s := Play(cfg, Start(cfg, content, named), steps);
            && s.sys.cp.pos == |s.world.saved.emitted| && s.sys.pos == |s.world.tail.emitted| <= |cfg.input|
            && cfg.input[..s.sys.pos] == Mapped(mapper, s.world.tail.emitted)
            && Runs.Reached(cfg, s.sys, Careful(cfg, Start(cfg, content, named), steps))
  {
    hide Legal, Play, Careful, Start, Tail.All, TailRuns.Good, Runs.Reached;
    AlwaysLinked(cfg, content, named, steps);
    var s := Play(cfg, Start(cfg, content, named), steps);
    EmittedFits(s.world);
  }

  /** Nothing more to read, ship or retry: a poll finds no line, and memory and queue are
      empty. */
  predicate Settled(s: State) {
    && (s.world.fs.path.Some? || s.world.tail.seen == |s.world.fs.gens|)
    && Tail.NextLine(s.world.fs, s.world.tail, true).emitted == s.world.tail.emitted
    && s.sys.batch == [] && s.sys.inflight == [] && s.sys.held == [] && s.sys.segments == []
  }

  /** Exactly once, from the files to the store: through any rotation the discipline allows,
      any outages and replays, and any deaths that find a safe checkpoint: once settled, the
      store holds the row of every complete line of every file, save those the server itself
      refused, and nothing else: line by line, its text under the stamp a fresh stamper issues
      it, and the dead-letter file has each line that gives none. */
  lemma FilesToStore(cfg: Delivery.Config, mapper: Mapper, content: Option<string>, named: set<nat>, steps: seq<Step>)
    requires Delivery.WellFormed(cfg) && Legal(cfg, Start(cfg, content, named), steps)
    requires cfg.input == Mapped(mapper, Tail.All(Play(cfg, Start(cfg, content, named), steps).world.fs.gens))
    requires SafeKills(cfg, Start(cfg, content, named), steps)
    requires Settled(Play(cfg, Start(cfg, content, named), steps))
    ensures Exactness.Exact(cfg, Play(cfg, Start(cfg, content, named), steps).sys)
    ensures Exactness.LineByLine(cfg, Play(cfg, Start(cfg, content, named), steps).sys)
  {
    hide *;
    AlwaysLinked(cfg, content, named, steps);
    AlwaysCovered(cfg, content, named, steps);
    var s0 := Start(cfg, content, named);
    LinkedIsExact(cfg, mapper, Play(cfg, s0, steps), Careful(cfg, s0, steps));
  }

  /** In particular when every save at the end of a drain was careful. */
  lemma FilesToStoreCarefully(cfg: Delivery.Config, mapper: Mapper, content: Option<string>, named: set<nat>,
                              steps: seq<Step>)
    requires Delivery.WellFormed(cfg) && Legal(cfg, Start(cfg, content, named), steps)
    requires cfg.input == Mapped(mapper, Tail.All(Play(cfg, Start(cfg, content, named), steps).world.fs.gens))
    requires Careful(cfg, Start(cfg, content, named), steps)
    requires Settled(Play(cfg, Start(cfg, content, named), steps))
    ensures Exactness.Exact(cfg, Play(cfg, Start(cfg, content, named), steps).sys)
    ensures Exactness.LineByLine(cfg, Play(cfg, Start(cfg, content, named), steps).sys)
  {
    hide *;
    CarefulKills(cfg, content, named, steps);
    FilesToStore(cfg, mapper, content, named, steps);
  }

  /** And where the lines map to encoded records, the store holds each record under its own
      stamp, as it reads back, and nothing else. */
  lemma FilesToRecords(cfg: Delivery.Config, records: seq<LineProtocol.Record>, mapper: Mapper,
                       content: Option<string>, named: set<nat>, steps: seq<Step>)
    requires Wire.Wired(cfg, records) && cfg.tickNs > 1
    requires Stamp.Nondecreasing(Delivery.History(cfg, |cfg.input|))
    requires Legal(cfg, Start(cfg, content, named), steps)
    requires cfg.input == Mapped(mapper, Tail.All(Play(cfg, Start(cfg, content, named), steps).world.fs.gens))
    requires SafeKills(cfg, Start(cfg, content, named), steps)
    requires Settled(Play(cfg, Start(cfg, content, named), steps))
    ensures Wire.RecordsExact(cfg, records, Play(cfg, Start(cfg, content, named), steps).sys)
  {
    hide Legal, Play, SafeKills, Settled, Start, Wire.Wired, Wire.RecordsExact, Exactness.Exact,
      Exactness.LineByLine, Mapped, Tail.All,
      Delivery.DistinctKeys, Delivery.History;
    Wire.WiredKeysDistinct(cfg, records);
    FilesToStore(cfg, mapper, content, named, steps);
    Wire.LineByLineIsRecordsExact(cfg, records, Play(cfg, Start(cfg, content, named), steps).sys);
  }

  lemma LinkedIsExact(cfg: Delivery.Config, mapper: Mapper, s: State, safe: bool)
    requires Delivery.WellFormed(cfg) && Linked(cfg, s, safe) && Settled(s) && Delivery.Covered(cfg, s.sys)
    requires cfg.input == Mapped(mapper, Tail.All(s.world.fs.gens))
    ensures Exactness.Exact(cfg, s.sys) && Exactness.LineByLine(cfg, s.sys)
  {
    hide Delivery.WellFormed, TailRuns.Good, Runs.Reached, Tail.All, Tail.NextLine, Exactness.Exact, Exactness.Sane,
      Exactness.LineByLine, Delivery.Covered;
    TailRuns.QuietPollIsComplete(s.world);
    Runs.ReachedWeaken(cfg, s.sys, safe);
    Runs.ReachableIsSane(cfg, s.sys);
    assert Exactness.Drained(cfg, s.sys);
    Exactness.DrainedIsExact(cfg, s.sys);
    Runs.ReachedDeadSound(cfg, s.sys, safe);
    Exactness.ExactLineByLine(cfg, s.sys);
  }
}
