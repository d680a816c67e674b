/** The delivery pipeline (main.rs) as a state machine on values: every step the tail
    loop, the in-flight tasks, the disk and the network can take, and a crash between any
    two of them. Single-line framing; the encoded row is a function of the line and its
    stamp. Module `Agent` is the imperative pipeline that takes these steps. */
module Delivery {
  import opened Basics
  import Stamp
  import Lines

  /** A row's primary key: the tag set and the stamped timestamp. */
  type Key = (string, int)

  /** What the deterministic front of the pipeline (decode, parse, map, filter, sample,
      redact) makes of a source line. `encode` gives the record's text once stamped, if
      it has one. */
  datatype Line =
    | Blank
    | Dropped
    | Unmapped(raw: string)
    | Mapped(raw: string, sourceTs: int, encode: int -> Option<string>)

  datatype Config = Config(input: seq<Line>, tickNs: Stamp.Tick, keyOf: string -> Key,
                           batchLines: nat, maxInflight: nat, maxBytes: nat)

  /** The dead-letter file holds refused source lines and rows the server refused. */
  datatype DeadEntry = Unread(raw: string) | Poison(line: string)

  datatype Checkpoint = Checkpoint(pos: nat, stamp: Option<(int, int)>)

  /** First what a crash leaves behind, then what it takes. `sent` is every row ever put on
      the network, `refused` every row the server has turned down on its own; `base` is what
      the queue held when this process adopted it, or its cap if that is larger. */
  datatype Sys = Sys(
    store: map<Key, string>, dead: seq<DeadEntry>, segments: seq<seq<string>>, cp: Checkpoint,
    sent: set<string>, refused: set<string>, base: nat,
    pos: nat, stamper: Stamp.State, batch: seq<string>,
    inflight: seq<seq<string>>, held: seq<seq<string>>, full: bool)

  function Boot(cfg: Config): Sys {
    Sys(map[], [], [], Checkpoint(0, None), {}, {}, cfg.maxBytes, 0, Stamp.FRESH, [], [], [], false)
  }

  datatype Event =
    | Read                            // the read loop takes one line
    | Flush                           // the batch becomes a task
    | Deliver(line: string)           // the server applies a sent row, however late
    | Refuse(line: string)            // the server turns a sent row down
    | Quarantine(poison: seq<string>) // rows the server refused reach the dead-letter file
    | ReapAcked(i: nat)               // a task came back: every row stored or refused
    | ReapSpooled(i: nat, forced: bool) // it failed and went to the queue
    | ReapHeld(i: nat)                // it failed and the disk is full too
    | HeldSpooled                     // drain_queue: a held batch found disk space
    | HeldAcked                       // drain_queue: or was shipped from memory
    | SegmentAcked                    // drain_queue: the oldest segment was shipped
    | Save                            // checkpoint_now
    | DrainSave                       // the save at the end of drain_queue
    | Crash                           // and restart

  // ---- Fates: what becomes of a line, in the code and ideally ----

  datatype Fate = Row(line: string) | Bury(raw: string) | Skip

  function FateOf(line: Line, issued: Stamp.Outcome): Fate {
    match line
    case Blank => Skip
    case Dropped => Skip
    case Unmapped(raw) => Bury(raw)
    case Mapped(raw, _, encode) =>
      if issued.Exhausted? || encode(issued.ts).None? then Bury(raw) else Row(encode(issued.ts).value)
  }

  /** The ticks of the mapped lines among the first `i`. */
  function History(cfg: Config, i: nat): seq<int>
    requires i <= |cfg.input|
  {
    if i == 0 then []
    else if cfg.input[i - 1].Mapped? then
      History(cfg, i - 1) + [Stamp.TickOf(cfg.tickNs, cfg.input[i - 1].sourceTs)]
    else History(cfg, i - 1)
  }

  /** The crash-free run: line `i` stamped by the windowless reference. */
  function FateAt(cfg: Config, i: nat): Fate
    requires i < |cfg.input|
  {
    FateOf(cfg.input[i],
           if cfg.input[i].Mapped? then Stamp.Reference(cfg.tickNs, History(cfg, i), cfg.input[i].sourceTs)
           else Stamp.Stamped(0))
  }

  ghost predicate RowBelow(cfg: Config, l: string, n: nat) {
    exists i :: 0 <= i < n && i < |cfg.input| && FateAt(cfg, i) == Row(l)
  }

  ghost predicate IsRow(cfg: Config, l: string) {
    RowBelow(cfg, l, |cfg.input|)
  }

  /** What the theorems ask of a configuration: source ticks that never step back (each
      line stamped from its own timestamp), and rows that are distinct primary keys. */
  ghost predicate WellFormed(cfg: Config) {
    && Stamp.Nondecreasing(History(cfg, |cfg.input|))
    && DistinctKeys(cfg)
  }

  ghost predicate DistinctKeys(cfg: Config) {
    forall i, j :: 0 <= i < j < |cfg.input| && FateAt(cfg, i).Row? && FateAt(cfg, j).Row? ==>
      cfg.keyOf(FateAt(cfg, i).line) != cfg.keyOf(FateAt(cfg, j).line)
  }

  // ---- Steps ----

  ghost predicate Stored(cfg: Config, s: Sys, l: string) {
    cfg.keyOf(l) in s.store && s.store[cfg.keyOf(l)] == l
  }

  ghost predicate Answered(cfg: Config, s: Sys, lines: seq<string>) {
    forall l :: l in lines ==> Stored(cfg, s, l) || Poison(l) in s.dead
  }

  function Total(bs: seq<seq<string>>): nat {
    if bs == [] then 0 else Total(bs[..|bs| - 1]) + Lines.Bytes(bs[|bs| - 1])
  }

  function RemoveAt(bs: seq<seq<string>>, i: nat): seq<seq<string>>
    requires i < |bs|
  {
    bs[..i] + bs[i + 1..]
  }

  ghost predicate Enabled(cfg: Config, s: Sys, ev: Event) {
    match ev
    case Read => !s.full && s.pos < |cfg.input| && |s.batch| < cfg.batchLines
    case Flush => s.batch != [] && |s.inflight| < cfg.maxInflight
    case Deliver(l) => l in s.sent
    case Refuse(l) => l in s.sent
    case Quarantine(poison) => forall l :: l in poison ==> l in s.refused
    case ReapAcked(i) => i < |s.inflight| && Answered(cfg, s, s.inflight[i])
    case ReapSpooled(i, forced) =>
      i < |s.inflight| && (!forced ==> Total(s.segments) + Lines.Bytes(s.inflight[i]) <= cfg.maxBytes)
    case ReapHeld(i) => i < |s.inflight|
    case HeldSpooled => s.held != []
    case HeldAcked => s.held != [] && Answered(cfg, s, s.held[0])
    case SegmentAcked => s.held == [] && s.segments != [] && Answered(cfg, s, s.segments[0])
    case Save => s.batch == [] && s.inflight == [] && s.held == []
    case DrainSave => s.held == [] && s.segments == []
    case Crash => true
  }

  function AfterRead(cfg: Config, s: Sys): Sys
    requires s.pos < |cfg.input|
  {
    var line := cfg.input[s.pos];
    var issued := if line.Mapped? then Stamp.Issue(cfg.tickNs, s.stamper, line.sourceTs) else Stamp.Stamped(0);
    var s1 := s.(pos := s.pos + 1,
                 stamper := if line.Mapped? then Stamp.After(cfg.tickNs, s.stamper, line.sourceTs) else s.stamper);
    match FateOf(line, issued)
    case Row(l) => s1.(batch := s.batch + [l])
    case Bury(raw) => s1.(dead := s.dead + [Unread(raw)])
    case Skip => s1
  }

  function Saved(s: Sys): Sys {
    s.(cp := Checkpoint(s.pos, Stamp.CheckpointOf(s.stamper)))
  }

  function Restart(cfg: Config, s: Sys): Sys {
    s.(base := Max(cfg.maxBytes, Total(s.segments)), pos := s.cp.pos,
       stamper := Stamp.Restored(cfg.tickNs, s.cp.stamp),
       batch := [], inflight := [], held := [], full := false)
  }

  ghost function Do(cfg: Config, s: Sys, ev: Event): Sys
    requires Enabled(cfg, s, ev)
  {
    match ev
    case Read => AfterRead(cfg, s)
    case Flush =>
      s.(inflight := s.inflight + [s.batch], sent := s.sent + (set l | l in s.batch), batch := [])
    case Deliver(l) => s.(store := s.store[cfg.keyOf(l) := l])
    case Refuse(l) => s.(refused := s.refused + {l})
    case Quarantine(poison) => s.(dead := s.dead + seq(|poison|, k requires 0 <= k < |poison| => Poison(poison[k])))
    case ReapAcked(i) => s.(inflight := RemoveAt(s.inflight, i))
    case ReapSpooled(i, forced) =>
      s.(inflight := RemoveAt(s.inflight, i), segments := s.segments + [s.inflight[i]], full := s.full || forced)
    case ReapHeld(i) =>
      s.(inflight := RemoveAt(s.inflight, i), held := s.held + [s.inflight[i]], full := true)
    case HeldSpooled => s.(held := s.held[1..], segments := s.segments + [s.held[0]], full := true)
    case HeldAcked => s.(held := s.held[1..])
    case SegmentAcked =>
      s.(segments := s.segments[1..], full := s.full && Total(s.segments[1..]) * 2 > cfg.maxBytes)
    case Save => Saved(s)
    case DrainSave => Saved(s)
    case Crash => Restart(cfg, s)
  }

  ghost predicate Legal(cfg: Config, s: Sys, evs: seq<Event>)
    decreases |evs|, 0
  {
    evs == [] || (Legal(cfg, s, evs[..|evs| - 1])
                  && Enabled(cfg, Play(cfg, s, evs[..|evs| - 1]), evs[|evs| - 1]))
  }

  /** The state a run of events ends in. */
  ghost function Play(cfg: Config, s: Sys, evs: seq<Event>): Sys
    requires Legal(cfg, s, evs)
    decreases |evs|, 1
  {
    if evs == [] then s else Do(cfg, Play(cfg, s, evs[..|evs| - 1]), evs[|evs| - 1])
  }

  // ---- Where a row can be ----

  ghost predicate InAny(bs: seq<seq<string>>, l: string) {
    exists k :: 0 <= k < |bs| && l in bs[k]
  }

  ghost predicate InMemory(s: Sys, l: string) {
    l in s.batch || InAny(s.inflight, l) || InAny(s.held, l)
  }

  ghost predicate Durable(cfg: Config, s: Sys, l: string) {
    Stored(cfg, s, l) || Poison(l) in s.dead || InAny(s.segments, l)
  }

  /** Every line below the checkpoint is in the store, in a queue segment, in the
      dead-letter file, or was dropped on purpose. */
  ghost predicate CheckpointSafe(cfg: Config, s: Sys)
  {
    forall i :: 0 <= i < s.cp.pos && i < |cfg.input| ==>
      match FateAt(cfg, i)
      case Row(l) => Durable(cfg, s, l)
      case Bury(raw) => Unread(raw) in s.dead
      case Skip => true
  }

  /** Every line already read is durable or still in memory. */
  ghost predicate Covered(cfg: Config, s: Sys) {
    forall i :: 0 <= i < s.pos && i < |cfg.input| ==>
      match FateAt(cfg, i)
      case Row(l) => Durable(cfg, s, l) || InMemory(s, l)
      case Bury(raw) => Unread(raw) in s.dead
      case Skip => true
  }

  /** The rows read but not yet handed over are durable all the same. Empty batch and
      in-flight set, the guard `checkpoint_now` has and `drain_queue` lacks, is the plain
      way for this to hold. */
  ghost predicate PendingDurable(cfg: Config, s: Sys) {
    forall l :: l in s.batch || InAny(s.inflight, l) ==> Durable(cfg, s, l)
  }

  lemma InAnyAppend(bs: seq<seq<string>>, b: seq<string>)
    ensures forall l :: InAny(bs + [b], l) <==> InAny(bs, l) || l in b
  {
    forall l ensures InAny(bs + [b], l) <==> InAny(bs, l) || l in b {
      if InAny(bs, l) {
        var k :| 0 <= k < |bs| && l in bs[k];
        assert l in (bs + [b])[k];
      }
      assert (bs + [b])[|bs|] == b;
    }
  }

  lemma InAnyRemove(bs: seq<seq<string>>, i: nat)
    requires i < |bs|
    ensures forall l :: InAny(bs, l) <==> InAny(RemoveAt(bs, i), l) || l in bs[i]
  {
    var r := RemoveAt(bs, i);
    forall l ensures InAny(bs, l) <==> InAny(r, l) || l in bs[i] {
      if InAny(bs, l) && l !in bs[i] {
        var k :| 0 <= k < |bs| && l in bs[k];
        assert l in r[if k < i then k else k - 1];
      }
      if InAny(r, l) {
        var k :| 0 <= k < |r| && l in r[k];
        assert l in bs[if k < i then k else k + 1];
      }
    }
  }

  lemma InAnyTail(bs: seq<seq<string>>)
    requires bs != []
    ensures forall l :: InAny(bs, l) <==> InAny(bs[1..], l) || l in bs[0]
  {
    InAnyRemove(bs, 0);
    assert RemoveAt(bs, 0) == bs[1..];
  }

  /** How the in-memory and on-disk collections move under one event. */
  lemma Moves(cfg: Config, s: Sys, ev: Event)
    requires Enabled(cfg, s, ev)
    ensures var s' := Do(cfg, s, ev);
            && (ev.Flush? ==> forall l :: InAny(s'.inflight, l) <==> InAny(s.inflight, l) || l in s.batch)
            && (ev.ReapAcked? || ev.ReapSpooled? || ev.ReapHeld? ==>
                  forall l :: InAny(s.inflight, l) <==> InAny(s'.inflight, l) || l in s.inflight[ev.i])
            && (ev.ReapSpooled? ==>
                  forall l :: InAny(s'.segments, l) <==> InAny(s.segments, l) || l in s.inflight[ev.i])
            && (ev.ReapHeld? ==> forall l :: InAny(s'.held, l) <==> InAny(s.held, l) || l in s.inflight[ev.i])
            && (ev.HeldSpooled? || ev.HeldAcked? ==>
                  forall l :: InAny(s.held, l) <==> InAny(s'.held, l) || l in s.held[0])
            && (ev.HeldSpooled? ==> forall l :: InAny(s'.segments, l) <==> InAny(s.segments, l) || l in s.held[0])
            && (ev.SegmentAcked? ==> forall l :: InAny(s.segments, l) <==> InAny(s'.segments, l) || l in s.segments[0])
  {
    match ev
    case Flush => InAnyAppend(s.inflight, s.batch);
    case ReapAcked(i) => InAnyRemove(s.inflight, i);
    case ReapSpooled(i, _) => InAnyRemove(s.inflight, i); InAnyAppend(s.segments, s.inflight[i]);
    case ReapHeld(i) => InAnyRemove(s.inflight, i); InAnyAppend(s.held, s.inflight[i]);
    case HeldSpooled => InAnyTail(s.held); InAnyAppend(s.segments, s.held[0]);
    case HeldAcked => InAnyTail(s.held);
    case SegmentAcked => InAnyTail(s.segments);
    case _ =>
  }
}
