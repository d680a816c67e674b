/** Whether reading goes on: from every reachable state with lines left, exactly when the
    pipeline is not full with nothing left anywhere; and while the server answers every
    request, exactly when it is not full with nothing on disk or held. */
module Resumption {
  import opened Delivery
  import opened DeliveryLimits
  import opened Exactness
  import opened Runs

  /** No crash, and a server that turns nothing down. */
  ghost predicate Calm(evs: seq<Event>) {
    forall k :: 0 <= k < |evs| ==> !evs[k].Crash? && !evs[k].Refuse?
  }

  /** No crash, and every task comes back answered. */
  ghost predicate Answering(evs: seq<Event>) {
    forall k :: 0 <= k < |evs| ==> !evs[k].Crash? && !evs[k].ReapSpooled? && !evs[k].ReapHeld?
  }

  /** Full, and nothing for a drain to ship. */
  predicate Parked(s: Sys) {
    s.full && s.held == [] && s.segments == []
  }

  ghost predicate ReadsOn(cfg: Config, s: Sys, evs: seq<Event>) {
    Legal(cfg, s, evs) && Play(cfg, s, evs).pos > s.pos
  }

  /** Batches that must still move before the batch has room and the queue is not full. */
  function Work(s: Sys): nat {
    (if s.batch == [] then 0 else 4) + 3 * |s.inflight| + 2 * |s.held| + |s.segments|
  }

  ghost predicate Waiting(cfg: Config, s: Sys) {
    && WellFormed(cfg) && cfg.batchLines >= 1 && cfg.maxInflight >= 1
    && Reached(cfg, s, false) && s.pos < |cfg.input| && !Stuck(s)
  }

  /** A calm run to a state no fuller than before, with less to do. */
  ghost predicate Nearer(cfg: Config, s: Sys, e: seq<Event>, t: Sys) {
    && LeadsBy(cfg, s, t, e, false) && Calm(e) && t.pos == s.pos
    && (t.full ==> s.full && !Stuck(t)) && (t.full == s.full ==> Work(t) < Work(s))
  }

  lemma OneStep(cfg: Config, s: Sys, ev: Event)
    requires Enabled(cfg, s, ev) && !ev.Crash?
    ensures LeadsBy(cfg, s, Do(cfg, s, ev), [ev], false)
  {
    PlaySnoc(cfg, s, [], ev);
    assert [] + [ev] == [ev];
  }

  function Deliveries(lines: seq<string>): seq<Event> {
    seq(|lines|, k requires 0 <= k < |lines| => Deliver(lines[k]))
  }

  lemma {:induction false} DeliveriesLead(cfg: Config, s: Sys, lines: seq<string>)
    requires forall l :: l in lines ==> l in s.sent
    ensures LeadsBy(cfg, s, s.(store := Applied(cfg, s.store, lines)), Deliveries(lines), false)
  {
    if lines != [] {
      var n := |lines| - 1;
      DeliveriesLead(cfg, s, lines[..n]);
      assert Deliveries(lines) == Deliveries(lines[..n]) + [Deliver(lines[n])];
      PlaySnoc(cfg, s, Deliveries(lines[..n]), Deliver(lines[n]));
    }
  }

  /** The server takes a whole batch, and the pipeline then takes `ev`. */
  lemma ShippedThen(cfg: Config, s: Sys, lines: seq<string>, ev: Event) returns (e: seq<Event>, u: Sys)
    requires DistinctKeys(cfg) && Shippable(cfg, s, lines) && !ev.Crash? && !ev.Refuse?
    requires forall u: Sys :: u == s.(store := u.store) && Answered(cfg, u, lines) ==> Enabled(cfg, u, ev)
    ensures u == s.(store := u.store) && Enabled(cfg, u, ev)
    ensures LeadsBy(cfg, s, Do(cfg, u, ev), e, false) && Calm(e)
    ensures !ev.ReapSpooled? && !ev.ReapHeld? ==> Answering(e)
  {
    u := s.(store := Applied(cfg, s.store, lines));
    DeliveriesLead(cfg, s, lines);
    forall l | l in lines ensures Stored(cfg, u, l) { AppliedStores(cfg, s, lines, l); }
    OneStep(cfg, u, ev);
    e := Deliveries(lines) + [ev];
    LeadsByConcat(cfg, s, u, Deliveries(lines), [ev], false);
  }

  /** Full: what is held goes to disk, and segments are shipped oldest first. */
  lemma NearerWhenQueued(cfg: Config, s: Sys) returns (e: seq<Event>, t: Sys)
    requires Waiting(cfg, s) && s.full && !Parked(s)
    ensures Nearer(cfg, s, e, t) && Answering(e) && !Parked(t)
  {
    if s.held != [] {
      OneStep(cfg, s, HeldSpooled);
      e, t := [HeldSpooled], Do(cfg, s, HeldSpooled);
    } else {
      InMemoryIsShippable(cfg, s, s.segments[0]);
      hide Leads, LeadsBy, Shippable, Answered, WellFormed;
      var u;
      e, u := ShippedThen(cfg, s, s.segments[0], SegmentAcked);
      t := Do(cfg, u, SegmentAcked);
    }
  }

  /** Full with neither: what is in flight has to fail and be spooled, once the batch has been
      handed over. */
  lemma NearerWhenParked(cfg: Config, s: Sys) returns (e: seq<Event>, t: Sys)
    requires Waiting(cfg, s) && Parked(s)
    ensures Nearer(cfg, s, e, t)
  {
    if s.inflight != [] {
      OneStep(cfg, s, ReapSpooled(0, true));
      e, t := [ReapSpooled(0, true)], Do(cfg, s, ReapSpooled(0, true));
    } else {
      OneStep(cfg, s, Flush);
      e, t := [Flush], Do(cfg, s, Flush);
    }
  }

  /** Not full, and the batch is: it is handed over, once a task has come back if need be. */
  lemma NearerWhenBatched(cfg: Config, s: Sys) returns (e: seq<Event>, t: Sys)
    requires Waiting(cfg, s) && !s.full && |s.batch| >= cfg.batchLines
    ensures Nearer(cfg, s, e, t) && Answering(e) && !t.full
  {
    if |s.inflight| < cfg.maxInflight {
      OneStep(cfg, s, Flush);
      e, t := [Flush], Do(cfg, s, Flush);
    } else {
      InMemoryIsShippable(cfg, s, s.inflight[0]);
      hide Leads, LeadsBy, Shippable, Answered, WellFormed;
      var u;
      e, u := ShippedThen(cfg, s, s.inflight[0], ReapAcked(0));
      t := Do(cfg, u, ReapAcked(0));
    }
  }

  lemma {:induction false} GoesOn(cfg: Config, s: Sys, answering: bool) returns (evs: seq<Event>)
    requires Waiting(cfg, s) && (answering ==> !Parked(s))
    ensures ReadsOn(cfg, s, evs) && Calm(evs) && !Play(cfg, s, evs).full
    ensures answering ==> Answering(evs)
    decreases s.full, Work(s)
  {
    if Enabled(cfg, s, Read) {
      OneStep(cfg, s, Read);
      evs := [Read];
    } else {
      var e, t;
      if Parked(s) { e, t := NearerWhenParked(cfg, s); }
      else if s.full { e, t := NearerWhenQueued(cfg, s); }
      else { e, t := NearerWhenBatched(cfg, s); }
      assert LeadsBy(cfg, s, t, e, false);
      assert Leads(cfg, s, t, false);
      ReachedLeads(cfg, s, t, false);
      var more := GoesOn(cfg, t, answering);
      LeadsByConcat(cfg, s, t, e, more, false);
      evs := e + more;
    }
  }

  /** From every state the pipeline can reach with lines left to read, in any life, some
      run short of a restart reads on, exactly if the pipeline is not stuck; and then one on
      which the server turns nothing down. */
  lemma ResumesIff(cfg: Config, evs: seq<Event>)
    requires WellFormed(cfg) && cfg.batchLines >= 1 && cfg.maxInflight >= 1
    requires Legal(cfg, Boot(cfg), evs) && Play(cfg, Boot(cfg), evs).pos < |cfg.input|
    ensures var s := Play(cfg, Boot(cfg), evs);
            && ((exists more :: ReadsOn(cfg, s, more) && NoCrash(more)) <==> !Stuck(s))
            && ((exists more :: ReadsOn(cfg, s, more) && Calm(more)) <==> !Stuck(s))
  {
    var s := Play(cfg, Boot(cfg), evs);
    assert ReachedBy(cfg, s, evs, false);
    if Stuck(s) {
      forall more | Legal(cfg, s, more) && NoCrash(more) ensures !ReadsOn(cfg, s, more) {
        StuckForever(cfg, s, more);
      }
      assert forall more :: Calm(more) ==> NoCrash(more);
    } else {
      var more := GoesOn(cfg, s, false);
      assert ReadsOn(cfg, s, more) && NoCrash(more) && Calm(more);
    }
  }

  /** While the server answers every request, rows in the batch or in flight do not help: a
      full pipeline with nothing held or queued stays so, whatever else happens. */
  lemma {:induction false} ParkedForever(cfg: Config, s: Sys, evs: seq<Event>)
    requires Parked(s) && Legal(cfg, s, evs) && Answering(evs)
    ensures Parked(Play(cfg, s, evs)) && Play(cfg, s, evs).pos == s.pos
  {
    if evs != [] {
      var init := evs[..|evs| - 1];
      ParkedForever(cfg, s, init);
    }
  }

  /** The disk refuses the first batch when the second is flushed; the held batch is then
      shipped from memory, and the second is still in flight. */
  function ParkingRun(first: string): seq<Event> {
    [Read] + [Flush] + [Read] + [ReapHeld(0)] + [Flush] + [Deliver(first)] + [HeldAcked]
  }

  lemma ParkedIsReachable(cfg: Config, first: string, second: string)
    requires TwoRows(cfg, first, second)
    ensures Legal(cfg, Boot(cfg), ParkingRun(first))
    ensures var s := Play(cfg, Boot(cfg), ParkingRun(first)); Parked(s) && !Stuck(s) && s.inflight == [[second]]
  {
    hide Legal, Play, WellFormed, FateAt;
    var s2 := FirstInFlight(cfg, first, second);
    var e2 := [Read] + [Flush];
    var s3 := ReadRow(cfg, e2, s2, second);
    assert s3.batch == [second];
    var e3 := e2 + [Read];
    Then(cfg, e3, s3, ReapHeld(0));
    var s4 := Do(cfg, s3, ReapHeld(0));
    assert s4.inflight == [] && s4.held == [[first]];
    var e4 := e3 + [ReapHeld(0)];
    Then(cfg, e4, s4, Flush);
    var s5 := Do(cfg, s4, Flush);
    assert s5.inflight == [[second]] && first in s5.sent;
    Then(cfg, e4 + [Flush], s5, Deliver(first));
    var s6 := Do(cfg, s5, Deliver(first));
    Then(cfg, e4 + [Flush] + [Deliver(first)], s6, HeldAcked);
    assert Do(cfg, s6, HeldAcked).held == [];
  }

  /** So from every reachable state with lines left to read, some run on which the server
      answers every request reads on, exactly if the pipeline is not full with nothing held
      or queued; and then one on which it takes every row. */
  lemma ResumesAnsweredIff(cfg: Config, evs: seq<Event>)
    requires WellFormed(cfg) && cfg.batchLines >= 1 && cfg.maxInflight >= 1
    requires Legal(cfg, Boot(cfg), evs) && Play(cfg, Boot(cfg), evs).pos < |cfg.input|
    ensures var s := Play(cfg, Boot(cfg), evs);
            && ((exists more :: ReadsOn(cfg, s, more) && Answering(more)) <==> !Parked(s))
            && ((exists more :: ReadsOn(cfg, s, more) && Answering(more) && Calm(more)) <==> !Parked(s))
  {
    var s := Play(cfg, Boot(cfg), evs);
    assert ReachedBy(cfg, s, evs, false);
    if Parked(s) {
      forall more | Legal(cfg, s, more) && Answering(more) ensures !ReadsOn(cfg, s, more) {
        ParkedForever(cfg, s, more);
      }
    } else {
      var more := GoesOn(cfg, s, true);
      assert ReadsOn(cfg, s, more) && Answering(more) && Calm(more);
    }
  }

  ghost predicate PoppedToHalf(cfg: Config, s: Sys, evs: seq<Event>, k: nat)
    requires Legal(cfg, s, evs)
  {
    && k < |evs| && evs[k].SegmentAcked?
    && Legal(cfg, s, evs[..k + 1]) && Total(Play(cfg, s, evs[..k + 1]).segments) * 2 <= cfg.maxBytes
  }

  /** Nothing but shipping a segment down to half the cap ends a pause within a life. */
  lemma {:induction false} PauseEndsAtHalf(cfg: Config, s: Sys, evs: seq<Event>) returns (k: nat)
    requires s.full && Legal(cfg, s, evs) && NoCrash(evs) && !Play(cfg, s, evs).full
    ensures PoppedToHalf(cfg, s, evs, k)
  {
    var n := |evs| - 1;
    var init := evs[..n];
    if Play(cfg, s, init).full {
      LastPopResumes(cfg, Play(cfg, s, init));
      k := n;
      assert evs[..k + 1] == evs;
    } else {
      k := PauseEndsAtHalf(cfg, s, init);
      assert init[..k + 1] == evs[..k + 1];
    }
  }
}
