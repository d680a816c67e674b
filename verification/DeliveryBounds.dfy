/** What the delivery pipeline keeps bounded: the unacknowledged window of DESIGN.md
    section 3.4 and the overshoot of the disk queue's soft cap. */
module DeliveryBounds {
  import opened Basics
  import opened Delivery
  import opened Exactness
  import Lines
  import Stamp

  function CountLines(bs: seq<seq<string>>): nat {
    if bs == [] then 0 else CountLines(bs[..|bs| - 1]) + |bs[|bs| - 1]|
  }

  /** Lines read off the source that only this process holds. */
  function Held(s: Sys): nat {
    |s.batch| + CountLines(s.inflight) + CountLines(s.held)
  }

  ghost predicate Windowed(cfg: Config, s: Sys) {
    && |s.batch| <= cfg.batchLines
    && (forall k :: 0 <= k < |s.inflight| ==> |s.inflight[k]| <= cfg.batchLines)
    && (forall k :: 0 <= k < |s.held| ==> |s.held[k]| <= cfg.batchLines)
    && |s.inflight| <= cfg.maxInflight
    && |s.inflight| + |s.held| + (if s.batch == [] then 0 else 1) <= cfg.maxInflight + 1
    && (s.held != [] ==> s.full)
  }

  lemma WindowKept(cfg: Config, s: Sys, ev: Event)
    requires Windowed(cfg, s) && Enabled(cfg, s, ev)
    ensures Windowed(cfg, Do(cfg, s, ev))
  {
    hide FateOf, Total, Answered, Stamp.Issue, Stamp.After, Stamp.CheckpointOf, Stamp.Restored;
  }

  lemma {:induction false} AlwaysWindowed(cfg: Config, evs: seq<Event>)
    requires Legal(cfg, Boot(cfg), evs)
    ensures Windowed(cfg, Play(cfg, Boot(cfg), evs))
  {
    if evs != [] {
      AlwaysWindowed(cfg, evs[..|evs| - 1]);
      WindowKept(cfg, Play(cfg, Boot(cfg), evs[..|evs| - 1]), evs[|evs| - 1]);
    }
  }

  lemma {:induction false} CountAtMost(bs: seq<seq<string>>, n: nat)
    requires forall k :: 0 <= k < |bs| ==> |bs[k]| <= n
    ensures CountLines(bs) <= |bs| * n
  {
    if bs != [] {
      CountAtMost(bs[..|bs| - 1], n);
      assert |bs| * n == (|bs| - 1) * n + n;
    }
  }

  lemma MulMono(a: nat, b: nat, n: nat)
    requires a <= b
    ensures a * n <= b * n
  {
    assert b * n == a * n + (b - a) * n;
  }

  lemma WindowBound(cfg: Config, s: Sys)
    requires Windowed(cfg, s)
    ensures Held(s) <= cfg.batchLines * (1 + cfg.maxInflight)
  {
    CountAtMost(s.inflight, cfg.batchLines);
    CountAtMost(s.held, cfg.batchLines);
    ThreeTerms(|s.batch|, if s.batch == [] then 0 else 1, CountLines(s.inflight), |s.inflight|,
               CountLines(s.held), |s.held|, cfg.batchLines, 1 + cfg.maxInflight);
  }

  lemma ThreeTerms(x: nat, b: nat, y: nat, c: nat, z: nat, d: nat, n: nat, m: nat)
    requires x <= n && (b == 0 ==> x == 0) && b <= 1 && y <= c * n && z <= d * n && b + c + d <= m
    ensures x + y + z <= n * m
  {
    assert x <= b * n;
    MulMono(b + c + d, m, n);
    assert (b + c + d) * n == b * n + c * n + d * n;
  }

  /** DESIGN.md section 3.4: in every reachable state the lines in the batch, in flight
      and held are at most batch_lines * (1 + max_inflight), and while anything is held
      reading is paused. */
  lemma MemoryWindow(cfg: Config, evs: seq<Event>)
    requires Legal(cfg, Boot(cfg), evs)
    ensures var s := Play(cfg, Boot(cfg), evs);
            Held(s) <= cfg.batchLines * (1 + cfg.maxInflight) && (s.held != [] ==> s.full)
  {
    AlwaysWindowed(cfg, evs);
    WindowBound(cfg, Play(cfg, Boot(cfg), evs));
  }

  // ---- The largest batch there can be ----

  /** No row of the crash-free run, and so none that occurs, is longer than `limit`. */
  ghost predicate RowsFit(cfg: Config, limit: nat) {
    forall i :: 0 <= i < |cfg.input| && FateAt(cfg, i).Row? ==> |FateAt(cfg, i).line| <= limit
  }

  ghost predicate LinesFit(lines: seq<string>, limit: nat) {
    forall k :: 0 <= k < |lines| ==> |lines[k]| <= limit
  }

  lemma {:induction false} BytesAtMost(lines: seq<string>, limit: nat)
    requires LinesFit(lines, limit)
    ensures Lines.Bytes(lines) <= limit * |lines|
  {
    if lines != [] {
      assert LinesFit(lines[1..], limit);
      BytesAtMost(lines[1..], limit);
      assert limit * |lines| == limit * (|lines| - 1) + limit;
    }
  }

  /** The rows of lines `i` to `j`, in order. */
  function RowsIn(cfg: Config, i: nat, j: nat): seq<string>
    requires i <= j <= |cfg.input|
    decreases j
  {
    if i == j then []
    else RowsIn(cfg, i, j - 1) + match FateAt(cfg, j - 1) case Row(l) => [l] case _ => []
  }

  /** A batch: at most `batchLines` consecutive rows. */
  ghost predicate IsBatch(cfg: Config, b: seq<string>) {
    |b| <= cfg.batchLines && exists i, j :: 0 <= i <= j <= |cfg.input| && b == RowsIn(cfg, i, j)
  }

  /** The rows of lines `i` to `j` are a batch of `n` bytes. */
  predicate BatchOf(cfg: Config, i: nat, j: nat, n: nat) {
    i <= j <= |cfg.input| && |RowsIn(cfg, i, j)| <= cfg.batchLines && Lines.Bytes(RowsIn(cfg, i, j)) == n
  }

  /** The bytes of the largest batch that ends at line `j` and starts before line `i`. */
  function LargestOf(cfg: Config, i: nat, j: nat): (m: nat)
    requires i <= j + 1 && j <= |cfg.input|
    ensures forall k, n: nat :: 0 <= k < i && BatchOf(cfg, k, j, n) ==> n <= m
    ensures m == 0 || exists k :: 0 <= k < i && BatchOf(cfg, k, j, m)
  {
    if i == 0 then 0
    else
      var (m, n) := (LargestOf(cfg, i - 1, j), Lines.Bytes(RowsIn(cfg, i - 1, j)));
      if BatchOf(cfg, i - 1, j, n) then Max(m, n) else m
  }

  function LargestTo(cfg: Config, j: nat): (m: nat)
    requires j <= |cfg.input|
    ensures forall i, k, n: nat :: 0 <= i <= k <= j && BatchOf(cfg, i, k, n) ==> n <= m
    ensures m == 0 || exists i, k :: 0 <= i <= k <= j && BatchOf(cfg, i, k, m)
  {
    var m := LargestOf(cfg, j + 1, j);
    if j == 0 then m else Max(m, LargestTo(cfg, j - 1))
  }

  /** The bytes of the largest batch the source can yield. */
  function LargestBatch(cfg: Config): nat {
    LargestTo(cfg, |cfg.input|)
  }

  lemma BatchFits(cfg: Config, b: seq<string>)
    requires IsBatch(cfg, b)
    ensures Lines.Bytes(b) <= LargestBatch(cfg)
  {
    var i, j :| 0 <= i <= j <= |cfg.input| && b == RowsIn(cfg, i, j);
    assert BatchOf(cfg, i, j, Lines.Bytes(b));
  }

  lemma {:induction false} RowsInFit(cfg: Config, i: nat, j: nat, limit: nat)
    requires i <= j <= |cfg.input| && RowsFit(cfg, limit)
    ensures LinesFit(RowsIn(cfg, i, j), limit)
    decreases j
  {
    if i < j { RowsInFit(cfg, i, j - 1, limit); }
  }

  /** It is no larger than a full batch of the longest rows. */
  lemma LargestBatchFits(cfg: Config, limit: nat)
    requires RowsFit(cfg, limit)
    ensures LargestBatch(cfg) <= limit * cfg.batchLines
  {
    var m := LargestBatch(cfg);
    if m > 0 {
      var i, k :| 0 <= i <= k <= |cfg.input| && BatchOf(cfg, i, k, m);
      hide RowsIn, LargestBatch;
      RowsInFit(cfg, i, k, limit);
      BytesAtMost(RowsIn(cfg, i, k), limit);
      LessMemory(limit, |RowsIn(cfg, i, k)|, cfg.batchLines);
    }
  }

  lemma LessMemory(limit: nat, less: nat, more: nat)
    requires less <= more
    ensures limit * less <= limit * more
  {
    assert limit * more == limit * less + limit * (more - less);
  }

  // ---- What is in memory are such batches ----

  ghost predicate Gathered(cfg: Config, s: Sys) {
    && s.pos <= |cfg.input| && (exists i :: 0 <= i <= s.pos && s.batch == RowsIn(cfg, i, s.pos))
    && (forall k :: 0 <= k < |s.inflight| ==> IsBatch(cfg, s.inflight[k]))
    && (forall k :: 0 <= k < |s.held| ==> IsBatch(cfg, s.held[k]))
  }

  lemma GatheredByRead(cfg: Config, s: Sys)
    requires WellFormed(cfg) && Sane(cfg, s) && Gathered(cfg, s) && Enabled(cfg, s, Read)
    ensures Gathered(cfg, Do(cfg, s, Read))
  {
    ReadIsIdeal(cfg, s);
    var i :| 0 <= i <= s.pos && s.batch == RowsIn(cfg, i, s.pos);
    var s' := AfterRead(cfg, s);
    assert s'.batch == RowsIn(cfg, i, s'.pos) by {
      assert s.batch + [] == s.batch;
      hide StampersFit, Provenance, IsBatch;
    }
    hide FateAt, StampersFit, Provenance, RowsIn, IsBatch;
  }

  lemma GatheredKept(cfg: Config, s: Sys, ev: Event)
    requires WellFormed(cfg) && Sane(cfg, s) && Windowed(cfg, s) && Gathered(cfg, s) && Enabled(cfg, s, ev)
    ensures Gathered(cfg, Do(cfg, s, ev))
  {
    hide FateAt, StampersFit, Provenance, WellFormed, RowsIn, Answered, Total;
    if ev.Read? {
      GatheredByRead(cfg, s);
    } else {
      var i :| 0 <= i <= s.pos && s.batch == RowsIn(cfg, i, s.pos);
      var s' := Do(cfg, s, ev);
      if ev.Flush? {
        assert IsBatch(cfg, s.batch);
        EmptyRows(cfg, s.pos);
      } else if ev.Crash? {
        SanePosition(cfg, s);
        EmptyRows(cfg, s'.pos);
      } else {
        assert s'.pos == s.pos && s'.batch == s.batch;
      }
    }
  }

  lemma SanePosition(cfg: Config, s: Sys)
    requires Sane(cfg, s)
    ensures s.cp.pos <= s.pos <= |cfg.input|
  {
  }

  lemma EmptyRows(cfg: Config, i: nat)
    requires i <= |cfg.input|
    ensures RowsIn(cfg, i, i) == []
  {
  }

  lemma {:induction false} AlwaysGathered(cfg: Config, evs: seq<Event>)
    requires WellFormed(cfg) && Legal(cfg, Boot(cfg), evs)
    ensures Gathered(cfg, Play(cfg, Boot(cfg), evs))
  {
    if evs != [] {
      var init := evs[..|evs| - 1];
      AlwaysGathered(cfg, init);
      AlwaysWindowed(cfg, init);
      AlwaysSane(cfg, init);
      hide Windowed, Gathered, Sane, WellFormed, Enabled, Do;
      GatheredKept(cfg, Play(cfg, Boot(cfg), init), evs[|evs| - 1]);
    } else {
      EmptyRows(cfg, 0);
    }
  }

  // ---- The queue's bytes ----

  lemma {:induction false} TotalAppend(a: seq<seq<string>>, b: seq<seq<string>>)
    ensures Total(a + b) == Total(a) + Total(b)
  {
    if b == [] {
      assert a + b == a;
    } else {
      var n := |b| - 1;
      TotalAppend(a, b[..n]);
      assert (a + b)[..|a + b| - 1] == a + b[..n];
    }
  }

  lemma TotalOne(b: seq<string>)
    ensures Total([b]) == Lines.Bytes(b)
  {
    assert [b][..0] == [];
  }

  lemma TotalTail(bs: seq<seq<string>>)
    requires bs != []
    ensures Total(bs) == Lines.Bytes(bs[0]) + Total(bs[1..])
  {
    assert bs == [bs[0]] + bs[1..];
    TotalAppend([bs[0]], bs[1..]);
    TotalOne(bs[0]);
  }

  /** Batches that only this process holds. */
  function Batches(s: Sys): nat {
    (if s.batch == [] then 0 else 1) + |s.inflight| + |s.held|
  }

  /** The bytes of `n` batches, each the largest there is. */
  function Room(cfg: Config, n: nat): nat {
    LargestBatch(cfg) * n
  }

  lemma RoomGrows(cfg: Config, m: nat, n: nat)
    requires m <= n
    ensures Room(cfg, m) <= Room(cfg, n)
  {
    hide LargestBatch;
    LessMemory(LargestBatch(cfg), m, n);
  }

  lemma RoomForOne(cfg: Config, n: nat)
    ensures Room(cfg, n + 1) == Room(cfg, n) + LargestBatch(cfg)
  {
    hide LargestBatch;
    OneMoreTime(LargestBatch(cfg), n);
  }

  lemma OneMoreTime(w: nat, n: nat)
    ensures w * (n + 1) == w * n + w
  {
  }

  /** One memory window of the largest batches. */
  function Overshoot(cfg: Config): nat {
    Room(cfg, 1 + cfg.maxInflight)
  }

  /** Below what was adopted, or the cap, unless full; and what the queue holds plus the room
      the batches in memory may still take never exceeds that by more than one window. */
  ghost predicate Budgeted(cfg: Config, s: Sys) {
    && cfg.maxBytes <= s.base
    && (!s.full ==> Total(s.segments) <= s.base)
    && Total(s.segments) + Room(cfg, Batches(s)) <= s.base + Overshoot(cfg)
  }

  /** How the accounts move under one event. */
  lemma Accounts(cfg: Config, s: Sys, ev: Event)
    requires Enabled(cfg, s, ev)
    ensures var s' := Do(cfg, s, ev);
            && (ev.ReapSpooled? ==> Batches(s') + 1 == Batches(s)
                                    && Total(s'.segments) == Total(s.segments) + Lines.Bytes(s.inflight[ev.i]))
            && (ev.HeldSpooled? ==> Batches(s') + 1 == Batches(s)
                                    && Total(s'.segments) == Total(s.segments) + Lines.Bytes(s.held[0]))
            && (ev.SegmentAcked? ==> Batches(s') == Batches(s) && Total(s'.segments) <= Total(s.segments))
            && (!ev.Read? && !ev.ReapSpooled? && !ev.HeldSpooled? && !ev.SegmentAcked? ==>
                  Batches(s') <= Batches(s) && s'.segments == s.segments)
  {
    hide Answered;
    match ev
    case ReapSpooled(i, _) => TotalAppend(s.segments, [s.inflight[i]]); TotalOne(s.inflight[i]);
    case HeldSpooled => TotalAppend(s.segments, [s.held[0]]); TotalOne(s.held[0]);
    case SegmentAcked => TotalTail(s.segments);
    case _ =>
  }

  lemma UnfullIsBudgeted(cfg: Config, s: Sys)
    requires Windowed(cfg, s) && Total(s.segments) <= s.base
    ensures Total(s.segments) + Room(cfg, Batches(s)) <= s.base + Overshoot(cfg)
  {
    hide Total, Room;
    RoomGrows(cfg, Batches(s), 1 + cfg.maxInflight);
  }

  lemma BudgetKept(cfg: Config, s: Sys, ev: Event)
    requires WellFormed(cfg) && Sane(cfg, s) && Windowed(cfg, s) && Gathered(cfg, s)
    requires Budgeted(cfg, s) && Enabled(cfg, s, ev)
    ensures Budgeted(cfg, Do(cfg, s, ev))
  {
    hide FateOf, Answered, StampersFit, Provenance, WellFormed, IsBatch, RowsIn, LargestBatch, Stamp.Issue, Stamp.After,
      Batches, Windowed, Overshoot, Room;
    var s' := Do(cfg, s, ev);
    Accounts(cfg, s, ev);
    WindowKept(cfg, s, ev);
    if !s'.full {
      assert Total(s'.segments) <= s'.base;
      UnfullIsBudgeted(cfg, s');
    } else if ev.ReapSpooled? {
      BatchFits(cfg, s.inflight[ev.i]);
      RoomForOne(cfg, Batches(s'));
    } else if ev.HeldSpooled? {
      BatchFits(cfg, s.held[0]);
      RoomForOne(cfg, Batches(s'));
    } else {
      RoomGrows(cfg, Batches(s'), Batches(s));
    }
  }

  lemma {:induction false} AlwaysBudgeted(cfg: Config, evs: seq<Event>)
    requires WellFormed(cfg) && Legal(cfg, Boot(cfg), evs)
    ensures Budgeted(cfg, Play(cfg, Boot(cfg), evs))
  {
    if evs != [] {
      var init := evs[..|evs| - 1];
      AlwaysBudgeted(cfg, init);
      AlwaysWindowed(cfg, init);
      AlwaysGathered(cfg, init);
      AlwaysSane(cfg, init);
      hide Windowed, Budgeted, Gathered, Sane, WellFormed, Enabled, Do;
      BudgetKept(cfg, Play(cfg, Boot(cfg), init), evs[|evs| - 1]);
    } else {
      UnfullIsBudgeted(cfg, Boot(cfg));
    }
  }

  // ---- Over restarts ----

  function Crashes(evs: seq<Event>): nat {
    if evs == [] then 0 else Crashes(evs[..|evs| - 1]) + if evs[|evs| - 1].Crash? then 1 else 0
  }

  /** What a process adopts grows by at most one window with each restart. */
  lemma {:induction false} BaseGrows(cfg: Config, evs: seq<Event>)
    requires WellFormed(cfg) && Legal(cfg, Boot(cfg), evs)
    ensures Play(cfg, Boot(cfg), evs).base <= cfg.maxBytes + Overshoot(cfg) * Crashes(evs)
  {
    hide *;
    CrashesStep(cfg, evs);
    if evs != [] {
      var (init, ev) := (evs[..|evs| - 1], evs[|evs| - 1]);
      BaseGrows(cfg, init);
      AlwaysBudgeted(cfg, init);
      BaseStep(cfg, Play(cfg, Boot(cfg), init), ev);
      OneMoreTime(Overshoot(cfg), Crashes(init));
    }
  }

  lemma CrashesStep(cfg: Config, evs: seq<Event>)
    requires Legal(cfg, Boot(cfg), evs)
    ensures evs == [] ==> Crashes(evs) == 0 && Play(cfg, Boot(cfg), evs).base == cfg.maxBytes
    ensures evs != [] ==>
              var (init, ev) := (evs[..|evs| - 1], evs[|evs| - 1]);
              && Crashes(evs) == Crashes(init) + (if ev.Crash? then 1 else 0)
              && Legal(cfg, Boot(cfg), init) && Enabled(cfg, Play(cfg, Boot(cfg), init), ev)
              && Play(cfg, Boot(cfg), evs) == Do(cfg, Play(cfg, Boot(cfg), init), ev)
  {
    hide Enabled, Do;
  }

  lemma BaseStep(cfg: Config, s: Sys, ev: Event)
    requires Budgeted(cfg, s) && Enabled(cfg, s, ev)
    ensures Do(cfg, s, ev).base <= s.base + if ev.Crash? then Overshoot(cfg) else 0
  {
    hide Room, Overshoot, Total, Answered, FateOf, Batches;
  }

  /** The queue in every reachable state: within its cap, or what this process adopted, while
      it is not full; never past that by more than one memory window of the largest batches
      the source yields; and what was adopted is past the cap by at most one such window for
      every restart there has been. */
  lemma QueueBound(cfg: Config, evs: seq<Event>)
    requires WellFormed(cfg) && Legal(cfg, Boot(cfg), evs)
    ensures var s := Play(cfg, Boot(cfg), evs);
            && (!s.full ==> Total(s.segments) <= s.base) && Total(s.segments) <= s.base + Overshoot(cfg)
            && s.base <= cfg.maxBytes + Overshoot(cfg) * Crashes(evs)
  {
    hide Legal, Play, Room, Overshoot, Total, Batches, Crashes;
    AlwaysBudgeted(cfg, evs);
    BaseGrows(cfg, evs);
  }

  /** The same in terms of any limit on the rows that occur. */
  lemma QueueBoundFor(cfg: Config, evs: seq<Event>, limit: nat)
    requires WellFormed(cfg) && Legal(cfg, Boot(cfg), evs) && RowsFit(cfg, limit)
    ensures var (s, window) := (Play(cfg, Boot(cfg), evs), limit * cfg.batchLines * (1 + cfg.maxInflight));
            && (!s.full ==> Total(s.segments) <= s.base) && Total(s.segments) <= s.base + window
            && s.base <= cfg.maxBytes + window * Crashes(evs)
  {
    hide *;
    QueueBound(cfg, evs);
    OvershootFits(cfg, limit, Crashes(evs));
  }

  lemma OvershootFits(cfg: Config, limit: nat, n: nat)
    requires RowsFit(cfg, limit)
    ensures var window := limit * cfg.batchLines * (1 + cfg.maxInflight);
            Overshoot(cfg) <= window && Overshoot(cfg) * n <= window * n
  {
    LargestBatchFits(cfg, limit);
    hide LargestBatch, RowsFit;
    MulMono(LargestBatch(cfg), limit * cfg.batchLines, 1 + cfg.maxInflight);
    MulMono(Overshoot(cfg), limit * cfg.batchLines * (1 + cfg.maxInflight), n);
  }
}
