/** Where the delivery code is narrower than its comments: the unguarded save at the end
    of a queue drain, and the pause that nothing ends. */
module DeliveryLimits {
  import opened Basics
  import opened Delivery
  import opened Exactness
  import Lines

  // ---- One event at a time ----

  lemma PlaySnoc(cfg: Config, s: Sys, evs: seq<Event>, ev: Event)
    requires Legal(cfg, s, evs) && Enabled(cfg, Play(cfg, s, evs), ev)
    ensures Legal(cfg, s, evs + [ev]) && Play(cfg, s, evs + [ev]) == Do(cfg, Play(cfg, s, evs), ev)
  {
    assert (evs + [ev])[..|evs|] == evs;
  }

  // ---- When the drain save is safe in a process that has not crashed ----

  /** Whatever is stored, queued, held, in flight or refused has been sent. */
  ghost predicate OnlySent(cfg: Config, s: Sys) {
    && (forall k :: k in s.store ==> s.store[k] in s.sent)
    && (forall l :: l in s.refused ==> l in s.sent)
    && (forall l :: Poison(l) in s.dead ==> l in s.refused)
    && (forall l :: InAny(s.segments, l) || InAny(s.inflight, l) || InAny(s.held, l) ==> l in s.sent)
  }

  lemma OnlySentKept(cfg: Config, s: Sys, ev: Event)
    requires OnlySent(cfg, s) && Enabled(cfg, s, ev)
    ensures OnlySent(cfg, Do(cfg, s, ev))
  {
    Moves(cfg, s, ev);
    if ev.Crash? {
      assert forall l :: !InAny([], l);
    }
  }

  lemma {:induction false} AlwaysOnlySent(cfg: Config, evs: seq<Event>)
    requires Legal(cfg, Boot(cfg), evs)
    ensures OnlySent(cfg, Play(cfg, Boot(cfg), evs))
  {
    if evs != [] {
      AlwaysOnlySent(cfg, evs[..|evs| - 1]);
      OnlySentKept(cfg, Play(cfg, Boot(cfg), evs[..|evs| - 1]), evs[|evs| - 1]);
    }
  }

  ghost predicate RowWithin(cfg: Config, l: string, lo: nat, hi: nat) {
    exists i :: lo <= i < hi && i < |cfg.input| && FateAt(cfg, i) == Row(l)
  }

  /** Line `cut` on is in the batch, everything sent came before it. */
  ghost predicate CutAt(cfg: Config, s: Sys, cut: nat) {
    && cut <= s.pos
    && (forall l :: l in s.sent ==> RowBelow(cfg, l, cut))
    && (forall l :: l in s.batch ==> RowWithin(cfg, l, cut, s.pos))
  }

  lemma CutKept(cfg: Config, s: Sys, ev: Event, cut: nat) returns (cut': nat)
    requires WellFormed(cfg) && Sane(cfg, s) && CutAt(cfg, s, cut) && Enabled(cfg, s, ev) && !ev.Crash?
    ensures CutAt(cfg, Do(cfg, s, ev), cut')
  {
    var s' := Do(cfg, s, ev);
    cut' := if ev.Flush? then s.pos else cut;
    if ev.Read? {
      ReadIsIdeal(cfg, s);
      forall l | l in s'.batch ensures RowWithin(cfg, l, cut, s'.pos) {
        if l in s.batch {
          var i :| cut <= i < s.pos && i < |cfg.input| && FateAt(cfg, i) == Row(l);
          assert cut <= i < s'.pos;
        } else {
          assert FateAt(cfg, s.pos) == Row(l) && cut <= s.pos < s'.pos;
        }
      }
    } else if ev.Flush? {
      forall l | l in s'.sent ensures RowBelow(cfg, l, s.pos) {
        if l in s.sent {
          RowBelowMore(cfg, l, cut, s.pos);
        } else {
          assert InMemory(s, l);
        }
      }
    }
  }

  lemma {:induction false} FirstLifeCut(cfg: Config, evs: seq<Event>) returns (cut: nat)
    requires WellFormed(cfg) && Legal(cfg, Boot(cfg), evs) && NoCrash(evs)
    ensures CutAt(cfg, Play(cfg, Boot(cfg), evs), cut)
  {
    if evs == [] {
      cut := 0;
    } else {
      var init := evs[..|evs| - 1];
      cut := FirstLifeCut(cfg, init);
      AlwaysSane(cfg, init);
      cut := CutKept(cfg, Play(cfg, Boot(cfg), init), evs[|evs| - 1], cut);
    }
  }

  /** In a process that has not crashed no row of the batch is durable, so the save at the
      end of a queue drain is safe only with an empty batch; with the in-flight set empty
      as well, the guard `checkpoint_now` establishes, it always is. */
  lemma FirstLifeDrainSave(cfg: Config, evs: seq<Event>)
    requires WellFormed(cfg) && Legal(cfg, Boot(cfg), evs) && NoCrash(evs)
    ensures var s := Play(cfg, Boot(cfg), evs);
            && (PendingDurable(cfg, s) ==> s.batch == [])
            && (s.inflight == [] ==> (PendingDurable(cfg, s) <==> s.batch == []))
  {
    var s := Play(cfg, Boot(cfg), evs);
    AlwaysOnlySent(cfg, evs);
    if s.batch != [] {
      assert s.batch[0] in s.batch;
      FirstLifeUnsent(cfg, evs, s.batch[0]);
      UnsentIsNowhere(cfg, s, s.batch[0]);
    }
  }

  lemma FirstLifeUnsent(cfg: Config, evs: seq<Event>, l: string)
    requires WellFormed(cfg) && Legal(cfg, Boot(cfg), evs) && NoCrash(evs) && l in Play(cfg, Boot(cfg), evs).batch
    ensures l !in Play(cfg, Boot(cfg), evs).sent
  {
    var cut := FirstLifeCut(cfg, evs);
    RowsAreOnce(cfg, l, cut, Play(cfg, Boot(cfg), evs).pos);
  }

  lemma RowsAreOnce(cfg: Config, l: string, cut: nat, pos: nat)
    requires DistinctKeys(cfg) && RowWithin(cfg, l, cut, pos)
    ensures !RowBelow(cfg, l, cut)
  {
    var j :| cut <= j < pos && j < |cfg.input| && FateAt(cfg, j) == Row(l);
    assert FateAt(cfg, j).Row?;
    assert forall i :: 0 <= i < cut && i < |cfg.input| && FateAt(cfg, i).Row? ==> FateAt(cfg, i).line != l;
  }

  // ---- A row the code loses ----

  /** The row is nowhere, was never sent, and the source will not be read there again. */
  ghost predicate Lost(cfg: Config, s: Sys, i: nat, l: string) {
    && i < |cfg.input| && FateAt(cfg, i) == Row(l)
    && i < s.cp.pos && !Durable(cfg, s, l) && !InMemory(s, l) && l !in s.sent
  }

  lemma LostStays(cfg: Config, s: Sys, ev: Event, i: nat, l: string)
    requires WellFormed(cfg) && Sane(cfg, s) && OnlySent(cfg, s) && Lost(cfg, s, i, l) && Enabled(cfg, s, ev)
    ensures Lost(cfg, Do(cfg, s, ev), i, l)
  {
    hide OnlySent, Durable, Stored, InAny;
    OnlySentKept(cfg, s, ev);
    if ev.Read? {
      ReadIsIdeal(cfg, s);
      assert FateAt(cfg, i).Row?;
    }
    UnsentIsNowhere(cfg, Do(cfg, s, ev), l);
  }

  lemma UnsentIsNowhere(cfg: Config, s: Sys, l: string)
    requires OnlySent(cfg, s) && l !in s.sent
    ensures !Durable(cfg, s, l) && !InAny(s.inflight, l) && !InAny(s.held, l)
  {
  }

  lemma {:induction false} LostForever(cfg: Config, s: Sys, evs: seq<Event>, i: nat, l: string)
    requires WellFormed(cfg) && Sane(cfg, s) && OnlySent(cfg, s) && Lost(cfg, s, i, l) && Legal(cfg, s, evs)
    ensures var s' := Play(cfg, s, evs); Sane(cfg, s') && OnlySent(cfg, s') && Lost(cfg, s', i, l)
  {
    if evs != [] {
      var (init, ev) := (evs[..|evs| - 1], evs[|evs| - 1]);
      LostForever(cfg, s, init, i, l);
      var t := Play(cfg, s, init);
      StampersKept(cfg, t, ev);
      ProvenanceKept(cfg, t, ev);
      OnlySentKept(cfg, t, ev);
      LostStays(cfg, t, ev, i, l);
    }
  }

  /** A row waiting in the batch when a `DrainSave` and then a crash overtake it, in any life of
      the agent: it is never stored again, whatever happens, exactly if it had never been sent. */
  lemma UnguardedSaveLosesIff(cfg: Config, evs: seq<Event>, l: string)
    requires WellFormed(cfg) && Legal(cfg, Boot(cfg), evs)
    requires var s := Play(cfg, Boot(cfg), evs); Enabled(cfg, s, DrainSave) && l in s.batch
    ensures Legal(cfg, Boot(cfg), evs + [DrainSave] + [Crash])
    ensures var t := Play(cfg, Boot(cfg), evs + [DrainSave] + [Crash]);
            (forall more :: Legal(cfg, t, more) ==> !Stored(cfg, Play(cfg, t, more), l))
            <==> l !in Play(cfg, Boot(cfg), evs).sent
  {
    var s := Play(cfg, Boot(cfg), evs);
    PlaySnoc(cfg, Boot(cfg), evs, DrainSave);
    PlaySnoc(cfg, Boot(cfg), evs + [DrainSave], Crash);
    var t := Play(cfg, Boot(cfg), evs + [DrainSave] + [Crash]);
    assert t == Restart(cfg, Saved(s));
    if l in s.sent {
      PlaySnoc(cfg, t, [], Deliver(l));
      assert Stored(cfg, Play(cfg, t, [] + [Deliver(l)]), l);
    } else {
      forall more | Legal(cfg, t, more) ensures !Stored(cfg, Play(cfg, t, more), l) {
        UnsentIsLost(cfg, evs, s, t, l, more);
      }
    }
  }

  lemma UnsentIsLost(cfg: Config, evs: seq<Event>, s: Sys, t: Sys, l: string, more: seq<Event>)
    requires WellFormed(cfg) && At(cfg, evs, s) && At(cfg, evs + [DrainSave] + [Crash], t)
    requires l in s.batch && l !in s.sent && t == Restart(cfg, Saved(s)) && Legal(cfg, t, more)
    ensures !Stored(cfg, Play(cfg, t, more), l)
  {
    AlwaysSane(cfg, evs);
    AlwaysSane(cfg, evs + [DrainSave] + [Crash]);
    AlwaysOnlySent(cfg, evs + [DrainSave] + [Crash]);
    assert InMemory(s, l);
    var i :| 0 <= i < s.pos && i < |cfg.input| && FateAt(cfg, i) == Row(l);
    UnsentIsNowhere(cfg, t, l);
    LostForever(cfg, t, more, i, l);
  }

  /** One batch short of full: the first line is flushed by the timer, fails and is
      spooled, and its checkpoint saved; the second is read and waits in the batch while
      the server comes back and the queue drains. */
  function OutageRun(first: string): seq<Event> {
    [Read] + [Flush] + [ReapSpooled(0, false)] + [Save] + [Read] + [Deliver(first)] + [SegmentAcked]
  }

  ghost predicate TwoRows(cfg: Config, first: string, second: string) {
    && WellFormed(cfg) && |cfg.input| >= 2 && FateAt(cfg, 0) == Row(first) && FateAt(cfg, 1) == Row(second)
    && cfg.batchLines >= 2 && cfg.maxInflight >= 1
  }

  ghost predicate At(cfg: Config, evs: seq<Event>, s: Sys) {
    Legal(cfg, Boot(cfg), evs) && Play(cfg, Boot(cfg), evs) == s
  }

  lemma Then(cfg: Config, evs: seq<Event>, s: Sys, ev: Event)
    requires At(cfg, evs, s) && Enabled(cfg, s, ev)
    ensures At(cfg, evs + [ev], Do(cfg, s, ev))
  {
    PlaySnoc(cfg, Boot(cfg), evs, ev);
  }

  lemma ReadRow(cfg: Config, evs: seq<Event>, s: Sys, l: string) returns (s': Sys)
    requires WellFormed(cfg) && At(cfg, evs, s) && Enabled(cfg, s, Read) && FateAt(cfg, s.pos) == Row(l)
    ensures At(cfg, evs + [Read], s')
    ensures s' == s.(pos := s.pos + 1, batch := s.batch + [l], stamper := s'.stamper)
  {
    Then(cfg, evs, s, Read);
    AlwaysSane(cfg, evs);
    hide Legal, Play;
    ReadIsIdeal(cfg, s);
    s' := Do(cfg, s, Read);
  }

  /** The first line is read and flushed. */
  lemma FirstInFlight(cfg: Config, first: string, second: string) returns (s: Sys)
    requires TwoRows(cfg, first, second)
    ensures At(cfg, [Read] + [Flush], s)
    ensures s == Boot(cfg).(pos := 1, stamper := s.stamper, inflight := [[first]], sent := {first})
  {
    hide Legal, Play, WellFormed, FateAt;
    assert At(cfg, [], Boot(cfg)) by { AtBoot(cfg); }
    s := ReadRow(cfg, [], Boot(cfg), first);
    assert [] + [Read] == [Read] && s.batch == [first];
    Then(cfg, [Read], s, Flush);
    var s' := Do(cfg, s, Flush);
    assert s'.inflight == [[first]];
    assert s'.sent == {first};
    s := s';
  }

  lemma AtBoot(cfg: Config)
    ensures At(cfg, [], Boot(cfg))
  {
  }

  /** It fails, is spooled, and the timer saves; the second line is read. */
  lemma SecondInBatch(cfg: Config, first: string, second: string) returns (s: Sys)
    requires TwoRows(cfg, first, second) && |first| <= cfg.maxBytes
    ensures At(cfg, [Read] + [Flush] + [ReapSpooled(0, false)] + [Save] + [Read], s)
    ensures s.batch == [second] && s.segments == [[first]] && s.inflight == [] && s.held == [] && first in s.sent
  {
    var s2 := FirstInFlight(cfg, first, second);
    hide Legal, Play, WellFormed, FateAt;
    var e2 := [Read] + [Flush];
    assert Lines.Bytes([first]) == |first| by { assert [first][1..] == []; }
    Then(cfg, e2, s2, ReapSpooled(0, false));
    var s3 := Do(cfg, s2, ReapSpooled(0, false));
    assert s3.inflight == [] && s3.segments == [[first]];
    var e3 := e2 + [ReapSpooled(0, false)];
    Then(cfg, e3, s3, Save);
    s := ReadRow(cfg, e3 + [Save], Do(cfg, s3, Save), second);
  }

  lemma OutageRunIsLegal(cfg: Config, first: string, second: string) returns (s: Sys)
    requires TwoRows(cfg, first, second) && |first| <= cfg.maxBytes
    ensures At(cfg, OutageRun(first), s) && NoCrash(OutageRun(first))
    ensures s.batch == [second] && Enabled(cfg, s, DrainSave)
    ensures At(cfg, OutageRun(first) + [DrainSave] + [Crash], Restart(cfg, Saved(s)))
  {
    var s5 := SecondInBatch(cfg, first, second);
    hide Legal, Play, WellFormed, FateAt, At;
    var e5 := [Read] + [Flush] + [ReapSpooled(0, false)] + [Save] + [Read];
    Then(cfg, e5, s5, Deliver(first));
    var s6 := Do(cfg, s5, Deliver(first));
    Then(cfg, e5 + [Deliver(first)], s6, SegmentAcked);
    s := Do(cfg, s6, SegmentAcked);
    assert e5 + [Deliver(first)] + [SegmentAcked] == OutageRun(first);
    Then(cfg, OutageRun(first), s, DrainSave);
    Then(cfg, OutageRun(first) + [DrainSave], Saved(s), Crash);
  }

  /** The same outage without the crash: the drain saves over the waiting row, which is not
      disciplined, and still whatever follows without a crash ends exact once drained. */
  lemma OutageWithoutCrash(cfg: Config, first: string, second: string, more: seq<Event>)
    requires TwoRows(cfg, first, second) && |first| <= cfg.maxBytes
    ensures var evs := OutageRun(first) + [DrainSave];
            && Legal(cfg, Boot(cfg), evs) && NoCrash(evs) && !Disciplined(cfg, Boot(cfg), evs)
            && (Legal(cfg, Boot(cfg), evs + more) && NoCrash(more) && Drained(cfg, Play(cfg, Boot(cfg), evs + more)) ==>
                  Exact(cfg, Play(cfg, Boot(cfg), evs + more)))
  {
    var s := OutageRunIsLegal(cfg, first, second);
    var (run, evs) := (OutageRun(first), OutageRun(first) + [DrainSave]);
    hide OutageRun, Drained, Exact, Enabled, TwoRows;
    assert WellFormed(cfg) by { TwoRowsFit(cfg, first, second); }
    FirstLifeDrainSave(cfg, run);
    assert evs[..|run|] == run && evs == run + [DrainSave];
    PlaySnoc(cfg, Boot(cfg), run, DrainSave);
    if Legal(cfg, Boot(cfg), evs + more) && NoCrash(more) && Drained(cfg, Play(cfg, Boot(cfg), evs + more)) {
      UninterruptedExactlyOnce(cfg, evs + more);
    }
  }

  lemma TwoRowsFit(cfg: Config, first: string, second: string)
    requires TwoRows(cfg, first, second)
    ensures WellFormed(cfg)
  {
  }

  /** In this run of the code, for any first two rows, the save after the drain and then a
      crash lose the second row for good. */
  lemma DrainSaveLosesARow(cfg: Config, first: string, second: string, more: seq<Event>)
    requires TwoRows(cfg, first, second) && |first| <= cfg.maxBytes
    ensures Legal(cfg, Boot(cfg), OutageRun(first) + [DrainSave] + [Crash])
    ensures var s := Play(cfg, Boot(cfg), OutageRun(first) + [DrainSave] + [Crash]);
            Legal(cfg, s, more) ==> !Stored(cfg, Play(cfg, s, more), second)
  {
    var s := OutageRunIsLegal(cfg, first, second);
    hide OutageRun;
    FirstLifeUnsent(cfg, OutageRun(first), second);
    UnguardedSaveLosesIff(cfg, OutageRun(first), second);
  }

  // ---- A queue that grows with every restart ----

  function Copies(first: string, n: nat): (bs: seq<seq<string>>)
    ensures |bs| == n
  {
    seq(n, _ => [first])
  }

  lemma {:induction false} CopiesTotal(first: string, n: nat)
    ensures Total(Copies(first, n)) == n * |first|
  {
    if n > 0 {
      CopiesTotal(first, n - 1);
      assert Copies(first, n)[..n - 1] == Copies(first, n - 1);
      assert Lines.Bytes([first]) == |first| by { assert [first][1..] == []; }
      assert n * |first| == (n - 1) * |first| + |first|;
    }
  }

  /** One life: the first line is read and handed over, fails, and is spooled, within the cap
      or forced past it; then the process dies before it saved anything. */
  function Relapse(cfg: Config, first: string, n: nat): seq<Event> {
    [Read] + [Flush] + [ReapSpooled(0, (n + 1) * |first| > cfg.maxBytes)] + [Crash]
  }

  function Relapses(cfg: Config, first: string, n: nat): seq<Event> {
    if n == 0 then [] else Relapses(cfg, first, n - 1) + Relapse(cfg, first, n - 1)
  }

  /** What `n` such lives leave. */
  function Spooled(cfg: Config, first: string, n: nat): Sys {
    if n == 0 then Boot(cfg)
    else Boot(cfg).(segments := Copies(first, n), sent := {first}, base := Max(cfg.maxBytes, n * |first|))
  }

  lemma OneRelapse(cfg: Config, evs: seq<Event>, first: string, n: nat)
    requires WellFormed(cfg) && |cfg.input| >= 1 && FateAt(cfg, 0) == Row(first)
    requires cfg.batchLines >= 1 && cfg.maxInflight >= 1 && At(cfg, evs, Spooled(cfg, first, n))
    ensures At(cfg, evs + Relapse(cfg, first, n), Spooled(cfg, first, n + 1))
  {
    hide Legal, Play, WellFormed, FateAt, At, Total;
    var forced := (n + 1) * |first| > cfg.maxBytes;
    CopiesTotal(first, n);
    CopiesTotal(first, n + 1);
    assert Total([]) == 0 by { EmptyTotal(); }
    var s2 := RelapseSent(cfg, evs, first, n);
    var e2 := evs + [Read] + [Flush];
    assert Lines.Bytes([first]) == |first| by { assert [first][1..] == []; }
    Then(cfg, e2, s2, ReapSpooled(0, forced));
    var s3 := Do(cfg, s2, ReapSpooled(0, forced));
    assert s3.segments == Copies(first, n + 1);
    Then(cfg, e2 + [ReapSpooled(0, forced)], s3, Crash);
    assert Do(cfg, s3, Crash) == Spooled(cfg, first, n + 1);
    assert e2 + [ReapSpooled(0, forced)] + [Crash] == evs + Relapse(cfg, first, n);
  }

  lemma RelapseSent(cfg: Config, evs: seq<Event>, first: string, n: nat) returns (s: Sys)
    requires WellFormed(cfg) && |cfg.input| >= 1 && FateAt(cfg, 0) == Row(first)
    requires cfg.batchLines >= 1 && cfg.maxInflight >= 1 && At(cfg, evs, Spooled(cfg, first, n))
    ensures At(cfg, evs + [Read] + [Flush], s)
    ensures s == Spooled(cfg, first, n).(pos := 1, stamper := s.stamper, inflight := [[first]], sent := {first})
  {
    hide Legal, Play, WellFormed, FateAt, At, Total;
    var s1 := ReadRow(cfg, evs, Spooled(cfg, first, n), first);
    assert s1.batch == [first];
    Then(cfg, evs + [Read], s1, Flush);
    s := Do(cfg, s1, Flush);
    assert s.inflight == [[first]] && s.sent == {first};
  }

  lemma EmptyTotal()
    ensures Total([]) == 0
  {
  }

  /** Each process starts not full whatever it adopted, so no bound on the queue survives
      restarts: for every `n` there is a run of the code, on the first line alone, that ends
      with `n` copies of it queued. */
  lemma {:induction false} QueueOutgrows(cfg: Config, first: string, n: nat)
    requires WellFormed(cfg) && |cfg.input| >= 1 && FateAt(cfg, 0) == Row(first)
    requires cfg.batchLines >= 1 && cfg.maxInflight >= 1
    ensures Legal(cfg, Boot(cfg), Relapses(cfg, first, n))
    ensures var s := Play(cfg, Boot(cfg), Relapses(cfg, first, n)); s == Spooled(cfg, first, n)
    ensures Total(Spooled(cfg, first, n).segments) == n * |first|
  {
    CopiesTotal(first, n);
    if n > 0 {
      QueueOutgrows(cfg, first, n - 1);
      hide Relapse, Spooled, Legal, Play;
      assert At(cfg, Relapses(cfg, first, n - 1), Spooled(cfg, first, n - 1));
      OneRelapse(cfg, Relapses(cfg, first, n - 1), first, n - 1);
    }
  }

  // ---- A pause that nothing ends ----

  /** Full, with nothing anywhere left to drain: no `pop` will ever clear the flag. */
  ghost predicate Stuck(s: Sys) {
    s.full && s.batch == [] && s.inflight == [] && s.held == [] && s.segments == []
  }

  /** Short of a restart, reading never resumes. */
  lemma {:induction false} StuckForever(cfg: Config, s: Sys, evs: seq<Event>)
    requires Stuck(s) && Legal(cfg, s, evs) && NoCrash(evs)
    ensures Stuck(Play(cfg, s, evs)) && Play(cfg, s, evs).pos == s.pos
  {
    if evs != [] {
      StuckForever(cfg, s, evs[..|evs| - 1]);
    }
  }

  /** The disk refuses the only segment, the held batch is then shipped from memory. */
  function FullDiskRun(first: string): seq<Event> {
    [Read] + [Flush] + [ReapHeld(0)] + [Deliver(first)] + [HeldAcked]
  }

  lemma StuckIsReachable(cfg: Config, first: string, second: string)
    requires TwoRows(cfg, first, second)
    ensures Legal(cfg, Boot(cfg), FullDiskRun(first))
    ensures var s := Play(cfg, Boot(cfg), FullDiskRun(first)); Stuck(s) && s.pos < |cfg.input|
  {
    var s2 := FirstInFlight(cfg, first, second);
    var e2 := [Read] + [Flush];
    Then(cfg, e2, s2, ReapHeld(0));
    var s3 := Do(cfg, s2, ReapHeld(0));
    assert s3.inflight == [] && s3.held == [[first]];
    Then(cfg, e2 + [ReapHeld(0)], s3, Deliver(first));
    var s4 := Do(cfg, s3, Deliver(first));
    Then(cfg, e2 + [ReapHeld(0)] + [Deliver(first)], s4, HeldAcked);
    assert e2 + [ReapHeld(0)] + [Deliver(first)] + [HeldAcked] == FullDiskRun(first);
  }

  /** With a segment to pop, shipping the last one always resumes reading; and no pop
      resumes it while the queue holds more than half its cap. */
  lemma LastPopResumes(cfg: Config, s: Sys)
    requires Enabled(cfg, s, SegmentAcked)
    ensures |s.segments| == 1 ==> !Do(cfg, s, SegmentAcked).full
    ensures s.full && !Do(cfg, s, SegmentAcked).full ==> Total(Do(cfg, s, SegmentAcked).segments) * 2 <= cfg.maxBytes
  {
  }
}
