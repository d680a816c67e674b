/** What can still be had: from which states some run drains everything, and after which
    crashes some run still ends exact. */
module Recovery {
  import opened Delivery
  import opened DeliveryLimits
  import opened Exactness
  import opened Resumption
  import opened Runs

  ghost predicate Supported(cfg: Config) {
    WellFormed(cfg) && cfg.batchLines >= 1 && cfg.maxInflight >= 1
  }

  ghost predicate Finishes(cfg: Config, s: Sys, evs: seq<Event>) {
    Legal(cfg, s, evs) && Drained(cfg, Play(cfg, s, evs))
  }

  // ---- Everything read, shipped ----

  /** A calm run to a state with less to do, at the same position. */
  ghost predicate Emptier(cfg: Config, s: Sys, e: seq<Event>, t: Sys) {
    LeadsBy(cfg, s, t, e, false) && Calm(e) && t.pos == s.pos && Work(t) < Work(s)
  }

  lemma ShipsOne(cfg: Config, s: Sys) returns (e: seq<Event>, t: Sys)
    requires Supported(cfg) && Reached(cfg, s, false) && Work(s) > 0
    ensures Emptier(cfg, s, e, t)
  {
    if s.inflight != [] {
      InMemoryIsShippable(cfg, s, s.inflight[0]);
      hide Reached, LeadsBy, Shippable, Answered, WellFormed;
      var u;
      e, u := ShippedThen(cfg, s, s.inflight[0], ReapAcked(0));
      t := Do(cfg, u, ReapAcked(0));
    } else if s.batch != [] {
      OneStep(cfg, s, Flush);
      e, t := [Flush], Do(cfg, s, Flush);
    } else if s.held != [] {
      InMemoryIsShippable(cfg, s, s.held[0]);
      hide Reached, LeadsBy, Shippable, Answered, WellFormed;
      var u;
      e, u := ShippedThen(cfg, s, s.held[0], HeldAcked);
      t := Do(cfg, u, HeldAcked);
    } else {
      InMemoryIsShippable(cfg, s, s.segments[0]);
      hide Reached, LeadsBy, Shippable, Answered, WellFormed;
      var u;
      e, u := ShippedThen(cfg, s, s.segments[0], SegmentAcked);
      t := Do(cfg, u, SegmentAcked);
    }
  }

  lemma {:induction false} ShipsAll(cfg: Config, s: Sys) returns (evs: seq<Event>)
    requires Supported(cfg) && Reached(cfg, s, false) && s.pos == |cfg.input|
    ensures Finishes(cfg, s, evs) && Calm(evs)
    decreases Work(s)
  {
    if Work(s) == 0 {
      evs := [];
    } else {
      var e, t := ShipsOne(cfg, s);
      hide Work, Reached, Supported, Drained;
      assert Leads(cfg, s, t, false);
      ReachedLeads(cfg, s, t, false);
      var more := ShipsAll(cfg, t);
      LeadsByConcat(cfg, s, t, e, more, false);
      evs := e + more;
    }
  }

  lemma {:induction false} ReadsAll(cfg: Config, s: Sys) returns (evs: seq<Event>)
    requires Supported(cfg) && Reached(cfg, s, false) && (s.pos >= |cfg.input| || !Stuck(s))
    ensures Finishes(cfg, s, evs) && Calm(evs)
    decreases |cfg.input| - s.pos
  {
    ReachableIsSane(cfg, s);
    assert s.pos <= |cfg.input|;
    if s.pos == |cfg.input| {
      evs := ShipsAll(cfg, s);
    } else {
      var e := GoesOn(cfg, s, false);
      hide Reached, Supported, Drained, Sane;
      var t := Play(cfg, s, e);
      assert LeadsBy(cfg, s, t, e, false) && Leads(cfg, s, t, false);
      ReachedLeads(cfg, s, t, false);
      var more := ReadsAll(cfg, t);
      LeadsByConcat(cfg, s, t, e, more, false);
      evs := e + more;
    }
  }

  /** From every state the pipeline can reach, some run short of a restart reads and ships
      everything, exactly unless it is stuck with lines unread. */
  lemma FinishesIff(cfg: Config, evs: seq<Event>)
    requires Supported(cfg) && Legal(cfg, Boot(cfg), evs)
    ensures var s := Play(cfg, Boot(cfg), evs);
            (exists more :: Finishes(cfg, s, more) && NoCrash(more)) <==> s.pos == |cfg.input| || !Stuck(s)
  {
    var s := Play(cfg, Boot(cfg), evs);
    assert ReachedBy(cfg, s, evs, false);
    if s.pos == |cfg.input| || !Stuck(s) {
      var more := ReadsAll(cfg, s);
      assert Finishes(cfg, s, more) && NoCrash(more);
    } else {
      forall more | Legal(cfg, s, more) && NoCrash(more) ensures !Finishes(cfg, s, more) {
        StuckForever(cfg, s, more);
      }
    }
  }

  // ---- After a crash ----

  /** A row below the checkpoint that is neither durable nor on the network. */
  ghost predicate Gone(cfg: Config, s: Sys, i: nat) {
    && i < s.cp.pos && i < |cfg.input| && FateAt(cfg, i).Row?
    && !Durable(cfg, s, FateAt(cfg, i).line) && FateAt(cfg, i).line !in s.sent
  }

  ghost predicate Recoverable(cfg: Config, s: Sys) {
    forall i :: !Gone(cfg, s, i)
  }

  /** Every line already read and refused is in the dead-letter file. */
  ghost predicate Buried(cfg: Config, s: Sys) {
    forall i :: 0 <= i < s.pos && i < |cfg.input| && FateAt(cfg, i).Bury? ==> Unread(FateAt(cfg, i).raw) in s.dead
  }

  lemma {:induction false} AlwaysBuried(cfg: Config, evs: seq<Event>)
    requires WellFormed(cfg) && Legal(cfg, Boot(cfg), evs)
    ensures Buried(cfg, Play(cfg, Boot(cfg), evs))
  {
    if evs != [] {
      var (init, ev) := (evs[..|evs| - 1], evs[|evs| - 1]);
      AlwaysBuried(cfg, init);
      AlwaysSane(cfg, init);
      BuriedKept(cfg, Play(cfg, Boot(cfg), init), ev);
    }
  }

  lemma BuriedKept(cfg: Config, s: Sys, ev: Event)
    requires WellFormed(cfg) && Sane(cfg, s) && Buried(cfg, s) && Enabled(cfg, s, ev)
    ensures Buried(cfg, Do(cfg, s, ev))
  {
    hide FateAt, WellFormed, Provenance, Answered, Total;
    if ev.Read? { ReadIsIdeal(cfg, s); }
  }

  /** The rows among the first `n` lines that were ever put on the network. */
  ghost function SentBelow(cfg: Config, s: Sys, n: nat): (lines: seq<string>)
    requires n <= |cfg.input|
    ensures forall l :: l in lines <==> l in s.sent && RowBelow(cfg, l, n)
  {
    if n == 0 then []
    else
      var before := SentBelow(cfg, s, n - 1);
      if FateAt(cfg, n - 1).Row? && FateAt(cfg, n - 1).line in s.sent then before + [FateAt(cfg, n - 1).line]
      else before
  }

  /** Once everything ever sent below the checkpoint has arrived, nothing there is missing. */
  lemma ArrivedIsCovered(cfg: Config, s: Sys) returns (t: Sys)
    requires Supported(cfg) && Reached(cfg, s, false) && Buried(cfg, s)
    requires s.cp.pos == s.pos <= |cfg.input| && forall i :: !Gone(cfg, s, i)
    ensures t == s.(store := t.store) && Covered(cfg, t)
    ensures Leads(cfg, s, t, false)
  {
    var lines := SentBelow(cfg, s, s.pos);
    DeliveriesLead(cfg, s, lines);
    t := s.(store := Applied(cfg, s.store, lines));
    assert LeadsBy(cfg, s, t, Deliveries(lines), false);
    forall l | l in lines ensures IsRow(cfg, l) { RowBelowMore(cfg, l, s.pos, |cfg.input|); }
    forall i | 0 <= i < s.pos && i < |cfg.input|
      ensures FateAt(cfg, i).Row? ==> Durable(cfg, t, FateAt(cfg, i).line)
    {
      if FateAt(cfg, i).Row? {
        assert !Gone(cfg, s, i);
        ArrivedRow(cfg, s, i, lines);
      }
    }
    hide Reached, Leads, LeadsBy, Durable, FateAt, Applied;
  }

  lemma ArrivedRow(cfg: Config, s: Sys, i: nat, lines: seq<string>)
    requires WellFormed(cfg) && i < s.pos <= |cfg.input| && FateAt(cfg, i).Row?
    requires lines == SentBelow(cfg, s, s.pos) && forall l :: l in lines ==> IsRow(cfg, l)
    requires Durable(cfg, s, FateAt(cfg, i).line) || FateAt(cfg, i).line in s.sent
    ensures Durable(cfg, s.(store := Applied(cfg, s.store, lines)), FateAt(cfg, i).line)
  {
    var l := FateAt(cfg, i).line;
    assert FateAt(cfg, i) == Row(l);
    assert RowBelow(cfg, l, s.pos) && IsRow(cfg, l);
    if Stored(cfg, s, l) || l in lines { AppliedStores(cfg, s, lines, l); }
    hide Applied, FateAt;
  }

  ghost predicate EndsExact(cfg: Config, s: Sys, evs: seq<Event>) {
    Legal(cfg, s, evs) && Exact(cfg, Play(cfg, s, evs))
  }

  ghost predicate FinishesExact(cfg: Config, s: Sys, evs: seq<Event>) {
    EndsExact(cfg, s, evs) && Finishes(cfg, s, evs) && NoCrash(evs)
  }

  /** Whether a crash was fatal, for every run of the code: some run from there on still
      ends with the database exact, drained even and without another crash, exactly if
      every row below the checkpoint was durable or on the network when it came. */
  lemma RecoverableIff(cfg: Config, evs: seq<Event>)
    requires Supported(cfg) && Legal(cfg, Boot(cfg), evs)
    ensures var t := Restart(cfg, Play(cfg, Boot(cfg), evs));
            (exists more :: EndsExact(cfg, t, more)) <==> Recoverable(cfg, Play(cfg, Boot(cfg), evs))
    ensures var t := Restart(cfg, Play(cfg, Boot(cfg), evs));
            (exists more :: FinishesExact(cfg, t, more)) <==> Recoverable(cfg, Play(cfg, Boot(cfg), evs))
  {
    hide *;
    var s := Play(cfg, Boot(cfg), evs);
    var t := Restart(cfg, s);
    if Recoverable(cfg, s) {
      var more := Recovers(cfg, evs);
      FinishesToo(cfg, t, more);
    } else {
      var i := SomeGone(cfg, s);
      forall more ensures !EndsExact(cfg, t, more) && !FinishesExact(cfg, t, more) {
        StaysGone(cfg, evs, i, more);
        FinishesToo(cfg, t, more);
      }
    }
  }

  lemma SomeGone(cfg: Config, s: Sys) returns (i: nat)
    requires !Recoverable(cfg, s)
    ensures Gone(cfg, s, i)
  {
    i :| Gone(cfg, s, i);
  }

  lemma FinishesToo(cfg: Config, s: Sys, evs: seq<Event>)
    ensures FinishesExact(cfg, s, evs) ==> EndsExact(cfg, s, evs)
  {
  }

  lemma Recovers(cfg: Config, evs: seq<Event>) returns (more: seq<Event>)
    requires Supported(cfg) && Legal(cfg, Boot(cfg), evs)
    requires Recoverable(cfg, Play(cfg, Boot(cfg), evs))
    ensures var t := Restart(cfg, Play(cfg, Boot(cfg), evs));
            FinishesExact(cfg, t, more)
  {
    var s := Play(cfg, Boot(cfg), evs);
    var (after, t) := (evs + [Crash], Restart(cfg, s));
    PlaySnoc(cfg, Boot(cfg), evs, Crash);
    assert ReachedBy(cfg, t, after, false);
    AlwaysBuried(cfg, after);
    AlwaysSane(cfg, after);
    assert forall l :: Durable(cfg, t, l) <==> Durable(cfg, s, l);
    assert forall i :: Gone(cfg, t, i) <==> Gone(cfg, s, i);
    assert t.cp.pos == t.pos <= |cfg.input|;
    var u := ArrivedIsCovered(cfg, t);
    hide Gone, Durable, Sane, Buried, Supported, Reached, Restart, Covered, FinishesExact, Leads;
    more := RunOn(cfg, t, u);
  }

  lemma RunOn(cfg: Config, t: Sys, u: Sys) returns (more: seq<Event>)
    requires Supported(cfg) && Reached(cfg, t, false) && Leads(cfg, t, u, false) && !u.full && Covered(cfg, u)
    ensures FinishesExact(cfg, t, more)
  {
    ReachedLeads(cfg, t, u, false);
    var e :| LeadsBy(cfg, t, u, e, false);
    var rest := ReadsAll(cfg, u);
    LeadsByConcat(cfg, t, u, e, rest, false);
    more := e + rest;
    hide Reached, Covered, Exact, Sane, Drained;
    var v := Play(cfg, u, rest);
    assert LeadsBy(cfg, u, v, rest, false);
    assert Leads(cfg, u, v, false);
    KeepsCovered(cfg, u, v, false);
    ReachedLeads(cfg, u, v, false);
    ReachableIsSane(cfg, v);
    DrainedIsExact(cfg, v);
  }

  /** A row gone when the crash came is in no later state stored or dead-lettered. */
  lemma StaysGone(cfg: Config, evs: seq<Event>, i: nat, more: seq<Event>)
    requires Supported(cfg) && Legal(cfg, Boot(cfg), evs) && Gone(cfg, Play(cfg, Boot(cfg), evs), i)
    ensures !EndsExact(cfg, Restart(cfg, Play(cfg, Boot(cfg), evs)), more)
  {
    var s := Play(cfg, Boot(cfg), evs);
    var (after, t, l) := (evs + [Crash], Restart(cfg, s), FateAt(cfg, i).line);
    PlaySnoc(cfg, Boot(cfg), evs, Crash);
    AlwaysSane(cfg, after);
    AlwaysOnlySent(cfg, after);
    UnsentIsNowhere(cfg, t, l);
    assert FateAt(cfg, i) == Row(l) && IsRow(cfg, l);
    assert Lost(cfg, t, i, l);
    if Legal(cfg, t, more) { LostForever(cfg, t, more, i, l); }
  }
}
