/** The pipeline behind a framer (main.rs): records that span several source lines, the guard
    that keeps the timer's save off a half-assembled one, and the drain's save without it.
    The framer is any deterministic one, fed with items: source lines, timeouts that let a
    pending record go, and the drains of a shutdown. `Framers` has the agent's own. */
module Framed {
  import opened Basics
  import opened Delivery
  import opened Exactness
  import Lines
  import Stamp

  /** What one item brings: nothing yet, a record, or a line that cannot be framed. */
  datatype Outcome = Pending | Complete(text: string) | Refused(raw: string)

  datatype Framer<!F, !E> = Framer(empty: F, push: (F, E) -> (F, Outcome))

  /** How the loop treats an item: whether it comes even while the queue is full, as a timeout
      and a drain do, and whether a record it lets go is dropped without a word if it does
      not map or encode, as at the shutdown. */
  datatype Manner = Manner(anytime: bool, quiet: bool)

  /** `items` are the source's lines with the timeouts and drains among them. `cfg` is the
      delivery configuration whose input is what each item completes. */
  datatype Setup<!F, !E> = Setup(framer: Framer<F, E>, manner: E -> Manner, mapper: string -> Line, items: seq<E>,
                                 cfg: Config)

  datatype State<F> = State(sys: Sys, framer: F)

  function LineOf<F, E>(u: Setup<F, E>, out: Outcome): Line {
    match out
    case Pending => Blank
    case Complete(text) => u.mapper(text)
    case Refused(raw) => Unmapped(raw)
  }

  /** An uninterrupted framer after these items. */
  function After<F, E>(r: Framer<F, E>, items: seq<E>): F {
    if items == [] then r.empty else r.push(After(r, items[..|items| - 1]), items[|items| - 1]).0
  }

  /** What item `i` completes when nothing interrupts the framer. */
  function Completed<F, E>(u: Setup<F, E>, i: nat): Outcome
    requires i < |u.items|
  {
    u.framer.push(After(u.framer, u.items[..i]), u.items[i]).1
  }

  /** The input is what the items complete. A batch outgrows `batch_lines` while a record is
      pending, so the delivery machine gets no limit of its own. */
  ghost predicate Fits<F(!new), E(!new)>(u: Setup<F, E>) {
    && |u.cfg.input| == |u.items| && u.cfg.batchLines > |u.items|
    && forall i :: 0 <= i < |u.items| ==> u.cfg.input[i] == LineOf(u, Completed(u, i))
  }

  /** No record that a shutdown lets go fails to map or to encode. */
  ghost predicate Tidy<F(!new), E(!new)>(u: Setup<F, E>)
    requires Fits(u)
  {
    forall i :: 0 <= i < |u.items| && u.manner(u.items[i]).quiet ==> WellFormed(u.cfg) && !FateAt(u.cfg, i).Bury?
  }

  /** The source position is not inside a record. */
  ghost predicate Boundary<F(!new), E(!new)>(u: Setup<F, E>, p: nat) {
    p <= |u.items| && After(u.framer, u.items[..p]) == u.framer.empty
  }

  function Boot<F, E>(u: Setup<F, E>): State<F> {
    State(Delivery.Boot(u.cfg), u.framer.empty)
  }

  /** `flush` and the timer's save wait for the framer; the drain's save does not. */
  ghost predicate Enabled<F(!new), E(!new)>(u: Setup<F, E>, s: State<F>, ev: Event) {
    match ev
    case Read => s.sys.pos < |u.items| && (!s.sys.full || u.manner(u.items[s.sys.pos]).anytime)
    case Flush => Delivery.Enabled(u.cfg, s.sys, ev) && s.framer == u.framer.empty
    case Save => Delivery.Enabled(u.cfg, s.sys, ev) && s.framer == u.framer.empty
    case _ => Delivery.Enabled(u.cfg, s.sys, ev)
  }

  /** An item goes through the framer as it stands, whatever that makes of it. */
  function AfterRead<F, E>(u: Setup<F, E>, s: State<F>): State<F>
    requires s.sys.pos < |u.items| == |u.cfg.input|
  {
    var (f, out) := u.framer.push(s.framer, u.items[s.sys.pos]);
    var sys := Delivery.AfterRead(u.cfg.(input := u.cfg.input[s.sys.pos := LineOf(u, out)]), s.sys);
    State(if u.manner(u.items[s.sys.pos]).quiet then sys.(dead := s.sys.dead) else sys, f)
  }

  /** A crash empties the framer with the rest of the memory. */
  ghost function Do<F(!new), E(!new)>(u: Setup<F, E>, s: State<F>, ev: Event): State<F>
    requires Fits(u) && Enabled(u, s, ev)
  {
    match ev
    case Read => AfterRead(u, s)
    case Crash => State(Restart(u.cfg, s.sys), u.framer.empty)
    case _ => s.(sys := Delivery.Do(u.cfg, s.sys, ev))
  }

  ghost predicate Legal<F(!new), E(!new)>(u: Setup<F, E>, evs: seq<Event>)
    requires Fits(u)
    decreases |evs|, 0
  {
    evs == [] || (Legal(u, evs[..|evs| - 1]) && Enabled(u, Play(u, evs[..|evs| - 1]), evs[|evs| - 1]))
  }

  ghost function Play<F(!new), E(!new)>(u: Setup<F, E>, evs: seq<Event>): State<F>
    requires Fits(u) && Legal(u, evs)
    decreases |evs|, 1
  {
    if evs == [] then Boot(u) else Do(u, Play(u, evs[..|evs| - 1]), evs[|evs| - 1])
  }

  /** Every row below the checkpoint is durable, and the checkpoint is not inside a record. */
  ghost predicate Safe<F(!new), E(!new)>(u: Setup<F, E>, s: State<F>) {
    CheckpointSafe(u.cfg, s.sys) && Boundary(u, s.sys.cp.pos)
  }

  /** The records among the first `n` items that fail to map or encode and that a shutdown
      lets go, and so drops. */
  function Droppings<F, E>(u: Setup<F, E>, n: nat): seq<DeadEntry> {
    if n == 0 then [] else Droppings(u, n - 1) + DroppedAt(u, n - 1)
  }

  function DroppedAt<F, E>(u: Setup<F, E>, i: nat): seq<DeadEntry> {
    if i < |u.items| && i < |u.cfg.input| && u.manner(u.items[i]).quiet && FateAt(u.cfg, i).Bury? then
      [Unread(FateAt(u.cfg, i).raw)]
    else []
  }

  /** No shutdown has dropped a record, unless the dead-letter file has it all the same. */
  ghost predicate DrainsKept<F(!new), E(!new)>(u: Setup<F, E>, s: Sys) {
    forall e :: e in Droppings(u, s.pos) ==> e in s.dead
  }

  /** Every save found that, and every save at the end of a drain also found nothing pending
      in the framer and the rows in the batch and in flight durable. */
  ghost predicate Disciplined<F(!new), E(!new)>(u: Setup<F, E>, evs: seq<Event>)
    requires Fits(u) && Legal(u, evs)
  {
    evs == [] ||
    var (init, ev) := (evs[..|evs| - 1], evs[|evs| - 1]);
    && Disciplined(u, init)
    && (ev.Save? || ev.DrainSave? ==> DrainsKept(u, Play(u, init).sys))
    && (ev.DrainSave? ==> Play(u, init).framer == u.framer.empty && PendingDurable(u.cfg, Play(u, init).sys))
  }

  /** Every crash found a safe checkpoint. */
  ghost predicate SafeCrashes<F(!new), E(!new)>(u: Setup<F, E>, evs: seq<Event>)
    requires Fits(u) && Legal(u, evs)
  {
    evs == [] ||
    var (init, ev) := (evs[..|evs| - 1], evs[|evs| - 1]);
    SafeCrashes(u, init) && (ev.Crash? ==> Safe(u, Play(u, init)))
  }

  /** Nothing was taken while the queue was full, not even a timeout. */
  ghost predicate PausesHeld<F(!new), E(!new)>(u: Setup<F, E>, evs: seq<Event>)
    requires Fits(u) && Legal(u, evs)
  {
    evs == [] ||
    var (init, ev) := (evs[..|evs| - 1], evs[|evs| - 1]);
    PausesHeld(u, init) && (ev.Read? ==> !Play(u, init).sys.full)
  }

  // ---- What a full queue does not change ----

  /** The same state, not full. */
  function Unpaused(s: Sys): Sys {
    s.(full := false)
  }

  lemma PauseAside(cfg: Config, s: Sys, b: bool)
    ensures var t := s.(full := b);
            && (Sane(cfg, t) <==> Sane(cfg, s)) && (Covered(cfg, t) <==> Covered(cfg, s))
            && (CheckpointSafe(cfg, t) <==> CheckpointSafe(cfg, s))
  {
    var t := s.(full := b);
    assert forall l :: InMemory(t, l) <==> InMemory(s, l);
    assert forall l :: Durable(cfg, t, l) <==> Durable(cfg, s, l);
    hide InMemory, Durable, InAny, FateAt, IsRow, RowBelow, History, Stamp.Agrees, Stamp.Restored;
  }

  lemma ReadAside(cfg: Config, s: Sys)
    requires s.pos < |cfg.input|
    ensures Delivery.AfterRead(cfg, s) == Delivery.AfterRead(cfg, Unpaused(s)).(full := s.full)
  {
    hide Stamp.Issue, Stamp.After;
  }

  /** A line taken at any time, full or not, keeps what reading keeps. */
  lemma ReadKeeps(cfg: Config, s: Sys)
    requires WellFormed(cfg) && Sane(cfg, s) && s.pos < |cfg.input| && |s.batch| < cfg.batchLines
    ensures var t := Delivery.AfterRead(cfg, s);
            && Sane(cfg, t) && (Covered(cfg, s) ==> Covered(cfg, t))
            && (CheckpointSafe(cfg, s) ==> CheckpointSafe(cfg, t))
  {
    hide Sane, Covered, CheckpointSafe, WellFormed, Delivery.AfterRead;
    var v := Unpaused(s);
    PauseAside(cfg, s, false);
    ReadAside(cfg, s);
    UnpausedReads(cfg, v);
    PauseAside(cfg, Delivery.AfterRead(cfg, v), s.full);
  }

  lemma UnpausedReads(cfg: Config, s: Sys)
    requires WellFormed(cfg) && Sane(cfg, s) && !s.full && s.pos < |cfg.input| && |s.batch| < cfg.batchLines
    ensures var t := Delivery.AfterRead(cfg, s);
            && Sane(cfg, t) && (Covered(cfg, s) ==> Covered(cfg, t))
            && (CheckpointSafe(cfg, s) ==> CheckpointSafe(cfg, t))
  {
    hide StampersFit, Provenance, Covered, CheckpointSafe, WellFormed, Delivery.AfterRead;
    StampersKept(cfg, s, Read);
    ProvenanceKept(cfg, s, Read);
    if Covered(cfg, s) { CoveredKept(cfg, s, Read); }
    if CheckpointSafe(cfg, s) { CheckpointSafeKept(cfg, s, Read); }
  }

  // ---- A framed run against the plain one ----

  /** The framer stands where an uninterrupted one would. */
  ghost predicate Aligned<F(!new), E(!new)>(u: Setup<F, E>, s: State<F>) {
    && s.sys.pos <= |u.items| && s.framer == After(u.framer, u.items[..s.sys.pos])
    && |s.sys.batch| <= s.sys.pos
  }

  ghost predicate InStep<F(!new), E(!new)>(u: Setup<F, E>, s: State<F>) {
    Aligned(u, s) && s.sys.cp.pos <= s.sys.pos && (WellFormed(u.cfg) ==> Sane(u.cfg, s.sys))
  }

  /** A line read is what the plain pipeline makes of it, save for what a shutdown drops. */
  lemma ReadIsPlain<F(!new), E(!new)>(u: Setup<F, E>, s: State<F>)
    requires Fits(u) && Aligned(u, s) && Enabled(u, s, Read)
    ensures var t := Delivery.AfterRead(u.cfg, s.sys);
            AfterRead(u, s).sys == if u.manner(u.items[s.sys.pos]).quiet then t.(dead := s.sys.dead) else t
    ensures Aligned(u, AfterRead(u, s))
  {
    var p := s.sys.pos;
    assert u.items[..p + 1][..p] == u.items[..p];
    assert u.cfg.input[p] == LineOf(u, Completed(u, p));
    assert u.cfg.input[p := u.cfg.input[p]] == u.cfg.input;
    hide Stamp.Issue, Stamp.After, FateAt;
  }

  /** Entries of the dead-letter file that are no refused rows change nothing but coverage,
      and only for the better. */
  lemma MoreDead(cfg: Config, s: Sys, t: Sys)
    requires t == s.(dead := t.dead) && forall e :: e in s.dead ==> e in t.dead
    requires forall l :: Poison(l) in t.dead ==> Poison(l) in s.dead
    ensures (Sane(cfg, s) ==> Sane(cfg, t)) && (Covered(cfg, s) ==> Covered(cfg, t))
    ensures CheckpointSafe(cfg, s) ==> CheckpointSafe(cfg, t)
  {
    assert forall l :: InMemory(t, l) <==> InMemory(s, l);
    assert forall l :: Durable(cfg, t, l) <==> Durable(cfg, s, l);
    hide InMemory, Durable, InAny, FateAt, IsRow, RowBelow, History, Stamp.Agrees, Stamp.Restored;
  }

  lemma DropsNothingElse(cfg: Config, s: Sys, t: Sys)
    requires Sane(cfg, s) && Sane(cfg, t) && t.refused == s.refused && t.store == s.store
    requires t.segments == s.segments && t.cp == s.cp
    ensures var r := t.(dead := s.dead); Sane(cfg, r) && (CheckpointSafe(cfg, s) ==> CheckpointSafe(cfg, r))
  {
    var r := t.(dead := s.dead);
    assert forall l :: InMemory(r, l) <==> InMemory(t, l);
    assert forall l :: Durable(cfg, r, l) <==> Durable(cfg, s, l);
    hide InMemory, Durable, InAny, FateAt, IsRow, RowBelow, History, Stamp.Agrees, Stamp.Restored;
  }

  lemma ReadMoves(cfg: Config, s: Sys)
    requires s.pos < |cfg.input|
    ensures var t := Delivery.AfterRead(cfg, s);
            && t == s.(pos := s.pos + 1, stamper := t.stamper, batch := t.batch, dead := t.dead)
            && |t.batch| <= |s.batch| + 1
  {
    hide Stamp.Issue, Stamp.After, FateOf;
  }

  lemma ReadInStep<F(!new), E(!new)>(u: Setup<F, E>, s: State<F>)
    requires Fits(u) && InStep(u, s) && Enabled(u, s, Read)
    ensures InStep(u, AfterRead(u, s))
    ensures WellFormed(u.cfg) && CheckpointSafe(u.cfg, s.sys) ==> CheckpointSafe(u.cfg, AfterRead(u, s).sys)
  {
    hide WellFormed, Sane, CheckpointSafe, Delivery.AfterRead, After, FateAt;
    ReadIsPlain(u, s);
    ReadMoves(u.cfg, s.sys);
    if WellFormed(u.cfg) {
      ReadKeeps(u.cfg, s.sys);
      DropsNothingElse(u.cfg, s.sys, Delivery.AfterRead(u.cfg, s.sys));
    }
  }

  lemma StepInStep<F(!new), E(!new)>(u: Setup<F, E>, s: State<F>, ev: Event)
    requires Fits(u) && InStep(u, s) && Enabled(u, s, ev) && (ev.Crash? ==> Boundary(u, s.sys.cp.pos))
    ensures InStep(u, Do(u, s, ev)) && (!ev.Read? ==> Do(u, s, ev).sys == Delivery.Do(u.cfg, s.sys, ev))
  {
    hide After, Answered, Total, FateOf, Stamp.Issue, Stamp.After, WellFormed, StampersFit, Provenance, AfterRead;
    if ev.Read? {
      ReadInStep(u, s);
    } else if WellFormed(u.cfg) {
      StampersKept(u.cfg, s.sys, ev);
      ProvenanceKept(u.cfg, s.sys, ev);
    }
  }

  lemma TidyReadIsPlain<F(!new), E(!new)>(u: Setup<F, E>, s: State<F>)
    requires Fits(u) && Tidy(u) && InStep(u, s) && Enabled(u, s, Read)
    ensures AfterRead(u, s).sys == Delivery.AfterRead(u.cfg, s.sys)
  {
    ReadIsPlain(u, s);
    if u.manner(u.items[s.sys.pos]).quiet { ReadByFate(u.cfg, s.sys); }
    hide WellFormed, FateAt, Sane, Delivery.AfterRead;
  }

  /** With the queue not full and no record dropped a step is the plain pipeline's. */
  lemma StepIsPlain<F(!new), E(!new)>(u: Setup<F, E>, s: State<F>, ev: Event)
    requires Fits(u) && Tidy(u) && InStep(u, s) && Enabled(u, s, ev) && (ev.Read? ==> !s.sys.full)
    ensures Delivery.Enabled(u.cfg, s.sys, ev) && Do(u, s, ev).sys == Delivery.Do(u.cfg, s.sys, ev)
  {
    if ev.Read? { TidyReadIsPlain(u, s); }
    hide Tidy, WellFormed, FateAt, Sane, Delivery.AfterRead, AfterRead, After, Answered, Total;
  }

  lemma BootInStep<F(!new), E(!new)>(u: Setup<F, E>)
    requires Fits(u)
    ensures InStep(u, Boot(u)) && (WellFormed(u.cfg) ==> CoveredButDrains(u, Boot(u).sys)) && Safe(u, Boot(u))
  {
    assert u.items[..0] == [];
    if WellFormed(u.cfg) {
      BootIsCovered(u.cfg);
      CoveredIff(u, Boot(u).sys);
    }
    hide WellFormed, CoveredButDrains;
  }

  lemma BootIsPlain<F(!new), E(!new)>(u: Setup<F, E>)
    ensures Boot(u).sys == Delivery.Boot(u.cfg)
  {
  }

  /** While every crash finds a safe checkpoint the framer is never out of step. And unless a
      timeout fell into a pause, or a shutdown dropped a record, the pipeline behind it takes
      the same run as the plain one reading completed records. */
  lemma {:induction false} Follows<F(!new), E(!new)>(u: Setup<F, E>, evs: seq<Event>)
    requires Fits(u) && Legal(u, evs) && SafeCrashes(u, evs)
    ensures InStep(u, Play(u, evs))
    ensures PausesHeld(u, evs) && Tidy(u) ==>
              && Delivery.Legal(u.cfg, Delivery.Boot(u.cfg), evs)
              && Play(u, evs).sys == Delivery.Play(u.cfg, Delivery.Boot(u.cfg), evs)
              && Exactness.SafeCrashes(u.cfg, Delivery.Boot(u.cfg), evs)
  {
    hide Enabled, Do, InStep, Boundary, CheckpointSafe, Fits, Tidy, Delivery.Enabled, Delivery.Do, Boot;
    if evs == [] {
      BootInStep(u);
      BootIsPlain(u);
    } else {
      var (init, ev) := (evs[..|evs| - 1], evs[|evs| - 1]);
      Follows(u, init);
      StepInStep(u, Play(u, init), ev);
      if PausesHeld(u, evs) && Tidy(u) { StepIsPlain(u, Play(u, init), ev); }
    }
  }

  // ---- What a shutdown drops, set aside ----

  function WithDropped<F, E>(u: Setup<F, E>, s: Sys): Sys {
    s.(dead := Droppings(u, s.pos) + s.dead)
  }

  /** Covered, but for what shutdowns dropped. */
  ghost predicate CoveredButDrains<F(!new), E(!new)>(u: Setup<F, E>, s: Sys) {
    Covered(u.cfg, WithDropped(u, s))
  }

  lemma {:induction false} OnlyUnread<F, E>(u: Setup<F, E>, n: nat)
    ensures forall e :: e in Droppings(u, n) ==> e.Unread?
  {
    if n > 0 { OnlyUnread(u, n - 1); }
  }

  lemma {:induction false} DroppedCovered<F, E>(u: Setup<F, E>, s: Sys, n: nat)
    requires Covered(u.cfg, s) && n <= s.pos
    ensures forall e :: e in Droppings(u, n) ==> e in s.dead
  {
    if n > 0 { DroppedCovered(u, s, n - 1); }
    hide Durable, InMemory;
  }

  lemma DropAside<F, E>(u: Setup<F, E>, s: Sys)
    ensures var t := WithDropped(u, s);
            && (Sane(u.cfg, s) ==> Sane(u.cfg, t)) && (Covered(u.cfg, s) ==> Covered(u.cfg, t))
            && forall l :: Poison(l) in t.dead <==> Poison(l) in s.dead
  {
    OnlyUnread(u, s.pos);
    MoreDead(u.cfg, s, WithDropped(u, s));
    hide Sane, Covered, CheckpointSafe, Droppings;
  }

  lemma CoveredIff<F(!new), E(!new)>(u: Setup<F, E>, s: Sys)
    ensures Covered(u.cfg, s) <==> CoveredButDrains(u, s) && DrainsKept(u, s)
  {
    DropAside(u, s);
    if Covered(u.cfg, s) {
      DroppedCovered(u, s, s.pos);
    } else if CoveredButDrains(u, s) && DrainsKept(u, s) {
      MoreDead(u.cfg, WithDropped(u, s), s);
    }
    hide Sane, Covered, CheckpointSafe, Droppings;
  }

  /** What reading does, by the line's fate. */
  lemma ReadByFate(cfg: Config, s: Sys)
    requires WellFormed(cfg) && Sane(cfg, s) && s.pos < |cfg.input|
    ensures var (t, f) := (Delivery.AfterRead(cfg, s), FateAt(cfg, s.pos));
            && t.batch == (if f.Row? then s.batch + [f.line] else s.batch)
            && t.dead == (if f.Bury? then s.dead + [Unread(f.raw)] else s.dead)
  {
    hide FateAt, StampersFit, WellFormed;
    ReadIsIdeal(cfg, s);
  }

  lemma ReadBlindToDead(cfg: Config, s: Sys, t: Sys)
    requires s.pos < |cfg.input| && t == s.(dead := t.dead)
    ensures var (a, b) := (Delivery.AfterRead(cfg, s), Delivery.AfterRead(cfg, t)); b == a.(dead := b.dead)
  {
    hide Stamp.Issue, Stamp.After, FateOf;
  }

  lemma ReadDrops<F(!new), E(!new)>(u: Setup<F, E>, s: State<F>)
    requires Fits(u) && WellFormed(u.cfg) && InStep(u, s) && Enabled(u, s, Read)
    requires Sane(u.cfg, WithDropped(u, s.sys))
    ensures var (t, r) := (Delivery.AfterRead(u.cfg, WithDropped(u, s.sys)), WithDropped(u, Do(u, s, Read).sys));
            r == t.(dead := r.dead) && forall e :: e in t.dead <==> e in r.dead
  {
    hide *;
    var v := WithDropped(u, s.sys);
    ReadTaken(u, s);
    DroppedShape(u, s.sys);
    DroppedShape(u, Do(u, s, Read).sys);
    DroppedNext(u, s.sys.pos);
    ReadMoves(u.cfg, s.sys);
    ReadBlindToDead(u.cfg, s.sys, v);
    ReadByFate(u.cfg, s.sys);
    ReadByFate(u.cfg, v);
  }

  lemma DroppedShape<F, E>(u: Setup<F, E>, s: Sys)
    ensures WithDropped(u, s) == s.(dead := Droppings(u, s.pos) + s.dead)
  {
  }

  lemma DroppedNext<F, E>(u: Setup<F, E>, p: nat)
    requires p < |u.items| == |u.cfg.input|
    ensures Droppings(u, p + 1)
            == Droppings(u, p) +
               if u.manner(u.items[p]).quiet && FateAt(u.cfg, p).Bury? then [Unread(FateAt(u.cfg, p).raw)] else []
  {
    hide FateAt;
  }

  lemma ReadTaken<F(!new), E(!new)>(u: Setup<F, E>, s: State<F>)
    requires Fits(u) && WellFormed(u.cfg) && InStep(u, s) && Enabled(u, s, Read)
    ensures s.sys.pos < |u.items| == |u.cfg.input| && Sane(u.cfg, s.sys)
    ensures var t := Delivery.AfterRead(u.cfg, s.sys);
            Do(u, s, Read).sys == if u.manner(u.items[s.sys.pos]).quiet then t.(dead := s.sys.dead) else t
  {
    ReadIsPlain(u, s);
    hide WellFormed, Sane, After, AfterRead, Delivery.AfterRead;
  }

  lemma StepAside<F(!new), E(!new)>(u: Setup<F, E>, s: Sys, ev: Event)
    requires Delivery.Enabled(u.cfg, s, ev) && !ev.Read? && !ev.Crash?
    ensures Delivery.Enabled(u.cfg, WithDropped(u, s), ev)
    ensures Delivery.Do(u.cfg, WithDropped(u, s), ev) == WithDropped(u, Delivery.Do(u.cfg, s, ev))
  {
    DropAside(u, s);
    assert forall l :: Stored(u.cfg, WithDropped(u, s), l) <==> Stored(u.cfg, s, l);
    if ev.Quarantine? {
      var poison := seq(|ev.poison|, k requires 0 <= k < |ev.poison| => Poison(ev.poison[k]));
      assert Droppings(u, s.pos) + (s.dead + poison) == Droppings(u, s.pos) + s.dead + poison;
    }
    hide Droppings, Sane, Covered, Stored, Total;
  }

  lemma StepCovers<F(!new), E(!new)>(u: Setup<F, E>, s: State<F>, ev: Event)
    requires Fits(u) && WellFormed(u.cfg) && InStep(u, s) && Enabled(u, s, ev) && CoveredButDrains(u, s.sys)
    requires ev.Crash? ==> Safe(u, s)
    ensures CoveredButDrains(u, Do(u, s, ev).sys)
  {
    hide CheckpointSafe, Covered, WellFormed, StampersFit, Provenance, After, Answered, Total, Delivery.AfterRead,
      AfterRead, WithDropped, Boundary, DrainsKept;
    var v := WithDropped(u, s.sys);
    DropAside(u, s.sys);
    if ev.Read? {
      ReadDrops(u, s);
      DroppedShape(u, s.sys);
      ReadKeeps(u.cfg, v);
      MoreDead(u.cfg, Delivery.AfterRead(u.cfg, v), WithDropped(u, Do(u, s, Read).sys));
    } else if ev.Crash? {
      CoveredAfterCrash(u.cfg, s.sys);
      CoveredIff(u, Restart(u.cfg, s.sys));
    } else {
      StepAside(u, s.sys, ev);
      DroppedShape(u, s.sys);
      CoveredKept(u.cfg, v, ev);
    }
  }

  lemma {:induction false} AlwaysCovered<F(!new), E(!new)>(u: Setup<F, E>, evs: seq<Event>)
    requires Fits(u) && WellFormed(u.cfg) && Legal(u, evs) && SafeCrashes(u, evs)
    ensures InStep(u, Play(u, evs)) && CoveredButDrains(u, Play(u, evs).sys)
  {
    hide Enabled, Do, InStep, Safe, CoveredButDrains, Fits, WellFormed, Boot;
    Follows(u, evs);
    if evs == [] {
      BootInStep(u);
    } else {
      var (init, ev) := (evs[..|evs| - 1], evs[|evs| - 1]);
      AlwaysCovered(u, init);
      StepCovers(u, Play(u, init), ev);
    }
  }

  /** What item `i` completes maps, and `l` is its text under the stamp it is issued. */
  ghost predicate ItemWrites<F(!new), E(!new)>(u: Setup<F, E>, i: nat, l: string) {
    && i < |u.items| && i < |u.cfg.input| && u.cfg.input[i].Mapped? && Issued(u.cfg, i).Stamped?
    && Completed(u, i).Complete? && u.mapper(Completed(u, i).text).Mapped?
    && u.mapper(Completed(u, i).text).encode(Issued(u.cfg, i).ts) == Some(l)
  }

  /** Item `i` cannot be framed, or what it completes does not map, or has no text under its
      stamp, or no stamp. */
  ghost predicate ItemRefuses<F(!new), E(!new)>(u: Setup<F, E>, i: nat, raw: string) {
    && i < |u.items| && i < |u.cfg.input|
    && match Completed(u, i)
       case Pending => false
       case Refused(r) => raw == r
       case Complete(text) =>
         match u.mapper(text)
         case Unmapped(r) => raw == r
         case Mapped(r, _, encode) =>
           && raw == r && u.cfg.input[i].Mapped?
           && (Issued(u.cfg, i).Exhausted? || encode(Issued(u.cfg, i).ts).None?)
         case _ => false
  }

  lemma ItemIsLine<F(!new), E(!new)>(u: Setup<F, E>, i: nat)
    requires Fits(u) && i < |u.items|
    ensures forall l :: ItemWrites(u, i, l) <==> Writes(u.cfg, i, l)
    ensures forall raw :: ItemRefuses(u, i, raw) <==> Refuses(u.cfg, i, raw)
  {
    assert u.cfg.input[i] == LineOf(u, Completed(u, i));
    hide Completed, Issued;
  }

  /** Each record completed is stored as its text under its own stamp, or was turned down and
      is in the dead-letter file; nothing else is stored; and each line that gives no text is
      in the dead-letter file, unless a shutdown dropped that text. */
  ghost predicate ItemByItem<F(!new), E(!new)>(u: Setup<F, E>, s: Sys) {
    && (forall i: nat, l :: ItemWrites(u, i, l) ==> Stored(u.cfg, s, l) || (l in s.refused && Poison(l) in s.dead))
    && (forall k :: k in s.store ==> u.cfg.keyOf(s.store[k]) == k && exists i: nat :: ItemWrites(u, i, s.store[k]))
    && (forall i: nat, raw :: ItemRefuses(u, i, raw) ==> Unread(raw) in s.dead || Unread(raw) in Droppings(u, s.pos))
  }

  /** Exactly once, behind a framer: after any run of lines, timeouts and drains whose crashes
      found every row below the checkpoint durable and no record cut by it, once drained the
      store holds the row of every record completed, save those the server refused, and
      nothing else; and every line refused is in the dead-letter file, just when no shutdown
      dropped one. */
  lemma FramedExactlyOnce<F(!new), E(!new)>(u: Setup<F, E>, evs: seq<Event>)
    requires Fits(u) && WellFormed(u.cfg) && Legal(u, evs) && SafeCrashes(u, evs)
    requires Drained(u.cfg, Play(u, evs).sys)
    ensures var s := Play(u, evs).sys; ItemByItem(u, s) && (Exact(u.cfg, s) <==> DrainsKept(u, s))
  {
    hide *;
    var s := Play(u, evs).sys;
    AlwaysCovered(u, evs);
    InStepParts(u, Play(u, evs));
    DrainedButDrains(u, s);
  }

  lemma DrainedButDrains<F(!new), E(!new)>(u: Setup<F, E>, s: Sys)
    requires Fits(u) && WellFormed(u.cfg) && Sane(u.cfg, s) && CoveredButDrains(u, s) && Drained(u.cfg, s)
    ensures ItemByItem(u, s) && (Exact(u.cfg, s) <==> DrainsKept(u, s))
  {
    hide Fits, WellFormed, FateAt, IsRow, Sane, Covered, Droppings, ItemByItem;
    var t := WithDropped(u, s);
    DropAside(u, s);
    DrainedIsExact(u.cfg, t);
    CoveredIff(u, s);
    ExactItemByItem(u, s);
    if DrainsKept(u, s) {
      DrainedIsExact(u.cfg, s);
    } else if Exact(u.cfg, s) {
      ExactIsCovered(u.cfg, s);
    }
  }

  lemma ExactItemByItem<F(!new), E(!new)>(u: Setup<F, E>, s: Sys)
    requires Fits(u) && WellFormed(u.cfg) && Exact(u.cfg, WithDropped(u, s))
    ensures ItemByItem(u, s)
  {
    hide Fits, FateAt, WellFormed, Droppings, ItemWrites, ItemRefuses, Writes, Refuses;
    OnlyUnread(u, s.pos);
    var t := WithDropped(u, s);
    forall i: nat, l | ItemWrites(u, i, l) ensures Stored(u.cfg, s, l) || (l in s.refused && Poison(l) in s.dead) {
      ItemWritesBelow(u, i, l);
      ItemIsLine(u, i);
      FateIff(u.cfg, i);
      assert IsRow(u.cfg, l);
      assert Stored(u.cfg, t, l) || (l in t.refused && Poison(l) in t.dead);
    }
    forall k | k in s.store ensures exists i: nat :: ItemWrites(u, i, s.store[k]) {
      assert IsRow(u.cfg, t.store[k]);
      var i :| 0 <= i < |u.cfg.input| && FateAt(u.cfg, i) == Row(s.store[k]);
      FitsLength(u);
      ItemIsLine(u, i);
      FateIff(u.cfg, i);
    }
    forall i: nat, raw | ItemRefuses(u, i, raw) ensures Unread(raw) in s.dead || Unread(raw) in Droppings(u, s.pos) {
      ItemRefusesBelow(u, i, raw);
      ItemIsLine(u, i);
      FateIff(u.cfg, i);
      assert Unread(raw) in t.dead;
    }
  }

  lemma FitsLength<F(!new), E(!new)>(u: Setup<F, E>)
    requires Fits(u)
    ensures |u.items| == |u.cfg.input|
  {
  }

  lemma ItemWritesBelow<F(!new), E(!new)>(u: Setup<F, E>, i: nat, l: string)
    requires ItemWrites(u, i, l)
    ensures i < |u.items| && i < |u.cfg.input|
  {
  }

  lemma ItemRefusesBelow<F(!new), E(!new)>(u: Setup<F, E>, i: nat, raw: string)
    requires ItemRefuses(u, i, raw)
    ensures i < |u.items| && i < |u.cfg.input|
  {
  }

  lemma ExactIsCovered(cfg: Config, s: Sys)
    requires Exact(cfg, s)
    ensures Covered(cfg, s)
  {
    forall i | 0 <= i < s.pos && i < |cfg.input| && FateAt(cfg, i).Row? ensures Durable(cfg, s, FateAt(cfg, i).line) {
      assert RowBelow(cfg, FateAt(cfg, i).line, |cfg.input|);
    }
    hide FateAt, RowBelow, InMemory, InAny;
  }

  // ---- Checkpoint safety, exactly ----

  /** Saved, exactly: the checkpoint is safe just when everything read is durable. */
  lemma SavedIff(cfg: Config, s: Sys)
    requires CheckpointSafe(cfg, Saved(s))
    ensures Covered(cfg, s)
  {
    assert forall l :: Durable(cfg, Saved(s), l) <==> Durable(cfg, s, l);
    hide Durable, InMemory, FateAt;
  }

  /** The save at the end of a drain, exactly, with the framer in step: the checkpoint it
      leaves is safe just when no record is half assembled, every row in the batch or in
      flight is durable anyway, and no shutdown has dropped a record. */
  lemma FramedDrainSaveIff<F(!new), E(!new)>(u: Setup<F, E>, s: State<F>)
    requires Fits(u) && Aligned(u, s) && Enabled(u, s, DrainSave)
    requires CoveredButDrains(u, s.sys) && Provenance(u.cfg, s.sys)
    ensures Safe(u, Do(u, s, DrainSave))
            <==> s.framer == u.framer.empty && PendingDurable(u.cfg, s.sys) && DrainsKept(u, s.sys)
  {
    hide CheckpointSafe, PendingDurable, Covered, CoveredButDrains, DrainsKept, Provenance, After, Fits;
    CoveredIff(u, s.sys);
    if CheckpointSafe(u.cfg, Saved(s.sys)) { SavedIff(u.cfg, s.sys); }
    if Covered(u.cfg, s.sys) { DrainSaveIff(u.cfg, s.sys); }
  }

  /** The timer's save, and the shutdown's, have both guards. */
  lemma FramedSaveIff<F(!new), E(!new)>(u: Setup<F, E>, s: State<F>)
    requires Fits(u) && Aligned(u, s) && Enabled(u, s, Save) && CoveredButDrains(u, s.sys)
    ensures Safe(u, Do(u, s, Save)) <==> DrainsKept(u, s.sys)
  {
    hide CheckpointSafe, Covered, CoveredButDrains, DrainsKept, After, Fits;
    CoveredIff(u, s.sys);
    if CheckpointSafe(u.cfg, Saved(s.sys)) { SavedIff(u.cfg, s.sys); }
    if Covered(u.cfg, s.sys) { SaveIsSafe(u.cfg, s.sys); }
  }

  lemma StepSafe<F(!new), E(!new)>(u: Setup<F, E>, s: State<F>, ev: Event)
    requires Fits(u) && WellFormed(u.cfg) && InStep(u, s) && Enabled(u, s, ev)
    requires CoveredButDrains(u, s.sys) && Safe(u, s)
    requires ev.Save? || ev.DrainSave? ==> DrainsKept(u, s.sys)
    requires ev.DrainSave? ==> s.framer == u.framer.empty && PendingDurable(u.cfg, s.sys)
    ensures Safe(u, Do(u, s, ev))
  {
    hide CheckpointSafe, CoveredButDrains, DrainsKept, PendingDurable, WellFormed, Sane, After, Answered, Total,
      Delivery.AfterRead, AfterRead, Provenance;
    InStepParts(u, s);
    if ev.Read? {
      ReadInStep(u, s);
      ReadKeepsCheckpoint(u, s);
    } else if ev.Save? {
      FramedSaveIff(u, s);
    } else if ev.DrainSave? {
      FramedDrainSaveIff(u, s);
    } else {
      CheckpointSafeKept(u.cfg, s.sys, ev);
    }
  }

  lemma ReadKeepsCheckpoint<F(!new), E(!new)>(u: Setup<F, E>, s: State<F>)
    requires Fits(u) && Aligned(u, s) && Enabled(u, s, Read)
    ensures AfterRead(u, s).sys.cp == s.sys.cp
  {
    ReadIsPlain(u, s);
    ReadMoves(u.cfg, s.sys);
    hide Delivery.AfterRead, AfterRead, After;
  }

  /** A disciplined run is safe throughout. */
  lemma {:induction false} DisciplinedFollows<F(!new), E(!new)>(u: Setup<F, E>, evs: seq<Event>)
    requires Fits(u) && WellFormed(u.cfg) && Legal(u, evs) && Disciplined(u, evs)
    ensures SafeCrashes(u, evs) && InStep(u, Play(u, evs)) && CoveredButDrains(u, Play(u, evs).sys)
    ensures Safe(u, Play(u, evs))
  {
    hide Enabled, Do, InStep, Safe, CoveredButDrains, DrainsKept, PendingDurable, Fits, WellFormed, Boot;
    if evs == [] {
      BootInStep(u);
    } else {
      var (init, ev) := (evs[..|evs| - 1], evs[|evs| - 1]);
      DisciplinedFollows(u, init);
      StepSafe(u, Play(u, init), ev);
      AlwaysCovered(u, evs);
    }
  }

  /** Checkpoint safety over whole runs of the code, framer included, exactly: in every state
      of a run each row below the checkpoint is durable and the checkpoint cuts no record,
      just when no save came after a shutdown had dropped a record, and each save at the end
      of a drain found the framer empty and the rows of the batch and of the in-flight set
      durable. */
  lemma FramedSafetyIff<F(!new), E(!new)>(u: Setup<F, E>, evs: seq<Event>)
    requires Fits(u) && WellFormed(u.cfg) && Legal(u, evs)
    ensures (forall k :: 0 <= k <= |evs| ==> Legal(u, evs[..k]) && Safe(u, Play(u, evs[..k]))) <==> Disciplined(u, evs)
  {
    hide Enabled, Do, Safe, PendingDurable, DrainsKept, Fits, WellFormed, InStep, CoveredButDrains;
    if Disciplined(u, evs) {
      forall k | 0 <= k <= |evs| ensures Legal(u, evs[..k]) && Safe(u, Play(u, evs[..k])) {
        DisciplinedPrefix(u, evs, k);
        DisciplinedFollows(u, evs[..k]);
      }
    } else {
      var k := UnsafeMoment(u, evs);
    }
  }

  lemma {:induction false} DisciplinedPrefix<F(!new), E(!new)>(u: Setup<F, E>, evs: seq<Event>, k: int)
    requires Fits(u) && Legal(u, evs) && Disciplined(u, evs) && 0 <= k <= |evs|
    ensures Legal(u, evs[..k]) && Disciplined(u, evs[..k])
    decreases |evs|
  {
    if k < |evs| {
      DisciplinedPrefix(u, evs[..|evs| - 1], k);
      assert evs[..|evs| - 1][..k] == evs[..k];
    } else {
      assert evs[..k] == evs;
    }
  }

  lemma InStepParts<F(!new), E(!new)>(u: Setup<F, E>, s: State<F>)
    requires WellFormed(u.cfg) && InStep(u, s)
    ensures Aligned(u, s) && Sane(u.cfg, s.sys) && Provenance(u.cfg, s.sys)
  {
  }

  lemma {:induction false} UnsafeMoment<F(!new), E(!new)>(u: Setup<F, E>, evs: seq<Event>) returns (k: int)
    requires Fits(u) && WellFormed(u.cfg) && Legal(u, evs) && !Disciplined(u, evs)
    ensures 0 <= k <= |evs| && Legal(u, evs[..k]) && !Safe(u, Play(u, evs[..k]))
  {
    var n := |evs| - 1;
    hide Safe, PendingDurable, DrainsKept, Fits, WellFormed, InStep, Aligned, CoveredButDrains, Provenance;
    if Disciplined(u, evs[..n]) {
      DisciplinedFollows(u, evs[..n]);
      InStepParts(u, Play(u, evs[..n]));
      if evs[n].Save? {
        FramedSaveIff(u, Play(u, evs[..n]));
      } else {
        FramedDrainSaveIff(u, Play(u, evs[..n]));
      }
      k := |evs|;
      assert evs[..k] == evs;
    } else {
      k := UnsafeMoment(u, evs[..n]);
      assert evs[..n][..k] == evs[..k];
    }
  }

  // ---- The drain of a shutdown ----

  /** A record let go at the shutdown that does not map or encode is dropped, and nothing
      keeps it: what was read stays covered just when that record is no such one, or the
      dead-letter file has that text from before. */
  lemma ShutdownDrainIff<F(!new), E(!new)>(u: Setup<F, E>, s: State<F>)
    requires Fits(u) && WellFormed(u.cfg) && Aligned(u, s) && Sane(u.cfg, s.sys) && Covered(u.cfg, s.sys)
    requires Enabled(u, s, Read) && u.manner(u.items[s.sys.pos]).quiet
    ensures Covered(u.cfg, Do(u, s, Read).sys)
            <==> (FateAt(u.cfg, s.sys.pos).Bury? ==> Unread(FateAt(u.cfg, s.sys.pos).raw) in s.sys.dead)
  {
    var (p, t) := (s.sys.pos, Do(u, s, Read).sys);
    QuietRead(u, s);
    if FateAt(u.cfg, p).Bury? {
      hide FateAt, WellFormed, Sane, Delivery.AfterRead, Fits, Aligned, Enabled, Do;
      if Covered(u.cfg, t) {
        assert Unread(FateAt(u.cfg, p).raw) in t.dead;
      } else if Unread(FateAt(u.cfg, p).raw) in s.sys.dead {
        StillCovered(u.cfg, s.sys, t);
      }
    } else {
      hide FateAt, WellFormed, Covered, Enabled, Do, Fits;
      ReadByFate(u.cfg, s.sys);
      ReadKeeps(u.cfg, s.sys);
    }
  }

  lemma StillCovered(cfg: Config, s: Sys, t: Sys)
    requires Covered(cfg, s) && s.pos < |cfg.input| && FateAt(cfg, s.pos).Bury?
    requires Unread(FateAt(cfg, s.pos).raw) in s.dead
    requires t == s.(pos := s.pos + 1, stamper := t.stamper)
    ensures Covered(cfg, t)
  {
    assert forall l :: Durable(cfg, t, l) <==> Durable(cfg, s, l);
    assert forall l :: InMemory(t, l) <==> InMemory(s, l);
    hide FateAt, Durable, InMemory;
  }

  lemma QuietRead<F(!new), E(!new)>(u: Setup<F, E>, s: State<F>)
    requires Fits(u) && WellFormed(u.cfg) && Aligned(u, s) && Sane(u.cfg, s.sys)
    requires Enabled(u, s, Read) && u.manner(u.items[s.sys.pos]).quiet
    ensures Do(u, s, Read).sys == Delivery.AfterRead(u.cfg, s.sys).(dead := s.sys.dead)
    ensures FateAt(u.cfg, s.sys.pos).Bury? ==>
              Do(u, s, Read).sys == s.sys.(pos := s.sys.pos + 1, stamper := Do(u, s, Read).sys.stamper)
    ensures |s.sys.batch| < u.cfg.batchLines
  {
    var p := s.sys.pos;
    assert u.cfg.input[p] == LineOf(u, Completed(u, p));
    assert u.cfg.input[p := u.cfg.input[p]] == u.cfg.input;
    ReadIsIdeal(u.cfg, s.sys);
    hide Stamp.Issue, Stamp.After, WellFormed, FateAt, Sane;
  }

  // ---- Runs of the code behind a framer ----

  ghost predicate At<F(!new), E(!new)>(u: Setup<F, E>, evs: seq<Event>, s: State<F>)
    requires Fits(u)
  {
    Legal(u, evs) && Play(u, evs) == s && NoCrash(evs)
  }

  lemma AtMeans<F(!new), E(!new)>(u: Setup<F, E>, evs: seq<Event>, s: State<F>)
    requires Fits(u) && At(u, evs, s)
    ensures Legal(u, evs) && Play(u, evs) == s
  {
  }

  lemma Then<F(!new), E(!new)>(u: Setup<F, E>, evs: seq<Event>, s: State<F>, ev: Event)
    requires Fits(u) && At(u, evs, s) && Enabled(u, s, ev) && !ev.Crash?
    ensures At(u, evs + [ev], Do(u, s, ev))
  {
    assert (evs + [ev])[..|evs|] == evs;
    hide Enabled, Do, Fits;
  }

  lemma {:induction false} FirstLifeIsSafe<F(!new), E(!new)>(u: Setup<F, E>, evs: seq<Event>)
    requires Fits(u) && Legal(u, evs) && NoCrash(evs)
    ensures SafeCrashes(u, evs)
  {
    if evs != [] { FirstLifeIsSafe(u, evs[..|evs| - 1]); }
  }

  /** In a first life an item read gets the fate of the record it completes. */
  lemma ReadAt<F(!new), E(!new)>(u: Setup<F, E>, evs: seq<Event>, s: State<F>) returns (t: State<F>)
    requires Fits(u) && WellFormed(u.cfg) && At(u, evs, s) && Enabled(u, s, Read)
    ensures At(u, evs + [Read], t) && t.framer == After(u.framer, u.items[..s.sys.pos + 1])
    ensures t.sys == s.sys.(pos := s.sys.pos + 1, stamper := t.sys.stamper, batch := t.sys.batch, dead := t.sys.dead)
    ensures match FateAt(u.cfg, s.sys.pos)
            case Row(l) => t.sys.batch == s.sys.batch + [l] && t.sys.dead == s.sys.dead
            case Bury(raw) => t.sys.batch == s.sys.batch
            case Skip => t.sys.batch == s.sys.batch && t.sys.dead == s.sys.dead
  {
    hide Legal, Play, SafeCrashes, PausesHeld, WellFormed, Tidy, FateAt, After, StampersFit, Provenance, AfterRead,
      Delivery.AfterRead, Delivery.Legal, Delivery.Play;
    Then(u, evs, s, Read);
    AtIsInStep(u, evs, s);
    ReadIsPlain(u, s);
    ReadMoves(u.cfg, s.sys);
    ReadByFate(u.cfg, s.sys);
    t := Do(u, s, Read);
  }

  lemma AtIsInStep<F(!new), E(!new)>(u: Setup<F, E>, evs: seq<Event>, s: State<F>)
    requires Fits(u) && WellFormed(u.cfg) && At(u, evs, s)
    ensures InStep(u, s) && CoveredButDrains(u, s.sys)
  {
    FirstLifeIsSafe(u, evs);
    AlwaysCovered(u, evs);
    hide Fits, WellFormed, InStep, CoveredButDrains;
  }

  function Reads(n: nat): (evs: seq<Event>)
    ensures |evs| == n
  {
    seq(n, _ => Read)
  }

  /** The first `n` items make up one record, whole. */
  ghost predicate FirstRecord<F(!new), E(!new)>(u: Setup<F, E>, first: string, n: nat) {
    && Fits(u) && WellFormed(u.cfg) && u.cfg.maxInflight >= 1
    && 1 <= n <= |u.items| && Boundary(u, n) && FateAt(u.cfg, n - 1) == Row(first)
    && forall i :: 0 <= i < n - 1 ==> FateAt(u.cfg, i) == Skip
  }

  lemma {:induction false} ReadSome<F(!new), E(!new)>(u: Setup<F, E>, first: string, n: nat, k: nat)
    returns (s: State<F>)
    requires FirstRecord(u, first, n) && k <= n
    ensures At(u, Reads(k), s) && s.framer == After(u.framer, u.items[..k])
    ensures s.sys == Delivery.Boot(u.cfg).(pos := k, stamper := s.sys.stamper, batch := if k == n then [first] else [])
  {
    hide Legal, Play, WellFormed, Tidy, FateAt, After, At;
    if k == 0 {
      AtBoot(u);
      s := Boot(u);
      assert Reads(0) == [];
    } else {
      var r := ReadSome(u, first, n, k - 1);
      s := ReadAt(u, Reads(k - 1), r);
      assert Reads(k) == Reads(k - 1) + [Read];
      assert k < n ==> FateAt(u.cfg, k - 1) == Skip;
    }
  }

  lemma AtBoot<F(!new), E(!new)>(u: Setup<F, E>)
    requires Fits(u)
    ensures At(u, [], Boot(u)) && Boot(u).framer == After(u.framer, u.items[..0])
  {
    assert u.items[..0] == [];
  }

  /** The record is read and handed over. */
  lemma FirstHandedOver<F(!new), E(!new)>(u: Setup<F, E>, first: string, n: nat) returns (s: State<F>)
    requires FirstRecord(u, first, n)
    ensures At(u, Reads(n) + [Flush], s) && s.framer == u.framer.empty
    ensures s.sys == Delivery.Boot(u.cfg).(pos := n, stamper := s.sys.stamper, inflight := [[first]], sent := {first})
  {
    hide Legal, Play, WellFormed, Tidy, FateAt, After, At;
    var r := ReadSome(u, first, n, n);
    Then(u, Reads(n), r, Flush);
    s := Do(u, r, Flush);
    assert s.sys.inflight == [[first]] && s.sys.sent == {first};
  }

  function ShippingRun(first: string, n: nat): seq<Event> {
    Reads(n) + [Flush] + [Deliver(first)] + [ReapAcked(0)] + [Save]
  }

  /** A record completed is flushed, stored and checkpointed, however many items it took. */
  lemma FirstRecordShips<F(!new), E(!new)>(u: Setup<F, E>, first: string, n: nat)
    requires FirstRecord(u, first, n)
    ensures Legal(u, ShippingRun(first, n))
    ensures var s := Play(u, ShippingRun(first, n)); Stored(u.cfg, s.sys, first) && s.sys.cp.pos == n && Safe(u, s)
  {
    hide Legal, Play, WellFormed, Tidy, FateAt, After, At, Boundary, CheckpointSafe;
    var s1 := FirstHandedOver(u, first, n);
    var e1 := Reads(n) + [Flush];
    Then(u, e1, s1, Deliver(first));
    var s2 := Do(u, s1, Deliver(first));
    assert Stored(u.cfg, s2.sys, first);
    Then(u, e1 + [Deliver(first)], s2, ReapAcked(0));
    var s3 := Do(u, s2, ReapAcked(0));
    assert s3.sys.inflight == [];
    Then(u, e1 + [Deliver(first)] + [ReapAcked(0)], s3, Save);
    NothingDropped(u, first, n, n);
    SavedSafely(u, e1 + [Deliver(first)] + [ReapAcked(0)], s3);
    AtMeans(u, ShippingRun(first, n), Do(u, s3, Save));
  }

  lemma {:induction false} NothingDropped<F(!new), E(!new)>(u: Setup<F, E>, first: string, n: nat, k: nat)
    requires FirstRecord(u, first, n) && k <= n
    ensures Droppings(u, k) == []
  {
    hide WellFormed, FateAt, Boundary;
    if k > 0 {
      NothingDropped(u, first, n, k - 1);
      assert k < n ==> FateAt(u.cfg, k - 1) == Skip;
    }
  }

  lemma SavedSafely<F(!new), E(!new)>(u: Setup<F, E>, evs: seq<Event>, s: State<F>)
    requires Fits(u) && WellFormed(u.cfg) && At(u, evs, s) && Enabled(u, s, Save) && Droppings(u, s.sys.pos) == []
    ensures Safe(u, Do(u, s, Save))
  {
    hide Fits, WellFormed, At, Safe, CoveredButDrains, Enabled;
    AtIsInStep(u, evs, s);
    InStepParts(u, s);
    FramedSaveIff(u, s);
  }

  function OutageAfter(first: string, n: nat): seq<Event> {
    Reads(n) + [Flush] + [ReapSpooled(0, false)] + [Save] + [Read] + [Deliver(first)] + [SegmentAcked]
  }

  lemma FirstQueued<F(!new), E(!new)>(u: Setup<F, E>, first: string, n: nat) returns (s: State<F>)
    requires FirstRecord(u, first, n) && |first| <= u.cfg.maxBytes
    ensures At(u, Reads(n) + [Flush] + [ReapSpooled(0, false)] + [Save], s) && s.framer == u.framer.empty
    ensures s.sys.pos == n && s.sys.batch == [] && s.sys.inflight == [] && s.sys.held == [] && !s.sys.full
    ensures s.sys.segments == [[first]] && s.sys.sent == {first}
  {
    hide Legal, Play, WellFormed, FateAt, After, At, Boundary;
    var s2 := FirstHandedOver(u, first, n);
    assert Lines.Bytes([first]) == |first| by { assert [first][1..] == []; }
    var e2 := Reads(n) + [Flush];
    Then(u, e2, s2, ReapSpooled(0, false));
    var s3 := Do(u, s2, ReapSpooled(0, false));
    assert s3.sys.inflight == [] && s3.sys.segments == [[first]];
    Then(u, e2 + [ReapSpooled(0, false)], s3, Save);
    s := Do(u, s3, Save);
  }

  /** The first record is flushed by the timer, fails and is spooled, and its checkpoint saved;
      the next one's first line is read; the server comes back and the queue drains: the
      drain may save, with nothing in the batch, in flight, held or queued. */
  lemma OutageInsideRecord<F(!new), E(!new)>(u: Setup<F, E>, first: string, n: nat) returns (s: State<F>)
    requires FirstRecord(u, first, n) && |first| <= u.cfg.maxBytes && n < |u.items| && FateAt(u.cfg, n) == Skip
    ensures At(u, OutageAfter(first, n), s) && Enabled(u, s, DrainSave)
    ensures s.sys.pos == n + 1 && s.sys.batch == [] && s.sys.inflight == []
    ensures s.framer == After(u.framer, u.items[..n + 1])
  {
    hide Legal, Play, WellFormed, FateAt, After, At, Boundary;
    var s4 := FirstQueued(u, first, n);
    var e4 := Reads(n) + [Flush] + [ReapSpooled(0, false)] + [Save];
    var s5 := ReadAt(u, e4, s4);
    s := OutageEnds(u, first, e4 + [Read], s5);
    assert e4 + [Read] + [Deliver(first)] + [SegmentAcked] == OutageAfter(first, n);
  }

  lemma OutageEnds<F(!new), E(!new)>(u: Setup<F, E>, first: string, evs: seq<Event>, s5: State<F>) returns (s: State<F>)
    requires Fits(u) && At(u, evs, s5) && s5.sys.batch == [] && s5.sys.inflight == [] && s5.sys.held == []
    requires s5.sys.segments == [[first]] && first in s5.sys.sent
    ensures At(u, evs + [Deliver(first)] + [SegmentAcked], s) && Enabled(u, s, DrainSave)
    ensures s.sys.pos == s5.sys.pos && s.sys.batch == [] && s.sys.inflight == [] && s.framer == s5.framer
  {
    hide Legal, Play, At, Fits, Total;
    Then(u, evs, s5, Deliver(first));
    var s6 := Do(u, s5, Deliver(first));
    Then(u, evs + [Deliver(first)], s6, SegmentAcked);
    s := Do(u, s6, SegmentAcked);
  }

  /** And saving there, with the batch and the in-flight set empty, is not safe if the line
      left anything in the framer. */
  lemma SaveInsideRecord<F(!new), E(!new)>(u: Setup<F, E>, first: string, n: nat)
    requires FirstRecord(u, first, n) && |first| <= u.cfg.maxBytes && n < |u.items| && FateAt(u.cfg, n) == Skip
    requires After(u.framer, u.items[..n + 1]) != u.framer.empty
    ensures Legal(u, OutageAfter(first, n)) && Legal(u, OutageAfter(first, n) + [DrainSave])
    ensures PendingDurable(u.cfg, Play(u, OutageAfter(first, n)).sys)
    ensures !Safe(u, Play(u, OutageAfter(first, n) + [DrainSave]))
  {
    var run := OutageAfter(first, n);
    var s := OutageInsideRecord(u, first, n);
    hide OutageAfter, After, Enabled, FirstRecord;
    assert Fits(u) by { FirstRecordFits(u, first, n); }
    Then(u, run, s, DrainSave);
    assert Play(u, run + [DrainSave]) == Do(u, s, DrainSave);
    assert Do(u, s, DrainSave).sys.cp.pos == s.sys.pos;
  }

  lemma FirstRecordFits<F(!new), E(!new)>(u: Setup<F, E>, first: string, n: nat)
    requires FirstRecord(u, first, n)
    ensures Fits(u)
  {
  }
}
