/** Composing runs of the delivery machine. */
module Runs {
  import opened Basics
  import opened Delivery
  import opened Exactness
  import DeliveryLimits
  import Lines

  /** Some legal run without a crash leads from `a` to `b`; if `safe`, one whose drain saves
      are all disciplined. */
  ghost predicate Leads(cfg: Config, a: Sys, b: Sys, safe: bool) {
    exists evs :: LeadsBy(cfg, a, b, evs, safe)
  }

  ghost predicate LeadsBy(cfg: Config, a: Sys, b: Sys, evs: seq<Event>, safe: bool) {
    Legal(cfg, a, evs) && NoCrash(evs) && Play(cfg, a, evs) == b && (safe ==> Disciplined(cfg, a, evs))
  }

  /** Some legal run from the start, crashes and all, ends in `s`. */
  ghost predicate Reached(cfg: Config, s: Sys, safe: bool) {
    exists evs :: ReachedBy(cfg, s, evs, safe)
  }

  ghost predicate ReachedBy(cfg: Config, s: Sys, evs: seq<Event>, safe: bool) {
    Legal(cfg, Boot(cfg), evs) && Play(cfg, Boot(cfg), evs) == s && (safe ==> Disciplined(cfg, Boot(cfg), evs))
  }

  lemma BootIsReached(cfg: Config, safe: bool)
    ensures Reached(cfg, Boot(cfg), safe)
  {
    assert ReachedBy(cfg, Boot(cfg), [], safe);
  }

  lemma ReachedStep(cfg: Config, s: Sys, ev: Event, safe: bool)
    requires Reached(cfg, s, safe) && Enabled(cfg, s, ev)
    requires safe && ev.DrainSave? ==> PendingDurable(cfg, s)
    ensures Reached(cfg, Do(cfg, s, ev), safe)
  {
    var evs :| ReachedBy(cfg, s, evs, safe);
    assert (evs + [ev])[..|evs|] == evs;
    assert ReachedBy(cfg, Do(cfg, s, ev), evs + [ev], safe);
  }

  lemma ReachedWeaken(cfg: Config, s: Sys, safe: bool)
    requires Reached(cfg, s, safe)
    ensures Reached(cfg, s, false)
  {
    var evs :| ReachedBy(cfg, s, evs, safe);
    assert ReachedBy(cfg, s, evs, false);
  }

  lemma {:induction false} ReachedOn(cfg: Config, s: Sys, evs: seq<Event>)
    requires Reached(cfg, s, false) && Legal(cfg, s, evs)
    ensures Reached(cfg, Play(cfg, s, evs), false)
  {
    if evs != [] {
      ReachedOn(cfg, s, evs[..|evs| - 1]);
      ReachedStep(cfg, Play(cfg, s, evs[..|evs| - 1]), evs[|evs| - 1], false);
    }
  }

  lemma ReachedLeads(cfg: Config, s: Sys, t: Sys, safe: bool)
    requires Reached(cfg, s, false) && Leads(cfg, s, t, safe)
    ensures Reached(cfg, t, false)
  {
    var evs :| LeadsBy(cfg, s, t, evs, safe);
    ReachedOn(cfg, s, evs);
  }

  lemma LeadsRefl(cfg: Config, a: Sys)
    ensures Leads(cfg, a, a, true)
  {
    assert LeadsBy(cfg, a, a, [], true);
  }

  lemma LeadsWeaken(cfg: Config, a: Sys, b: Sys)
    requires Leads(cfg, a, b, true)
    ensures Leads(cfg, a, b, false)
  {
    var evs :| LeadsBy(cfg, a, b, evs, true);
    assert LeadsBy(cfg, a, b, evs, false);
  }

  lemma LeadsStep(cfg: Config, a: Sys, b: Sys, ev: Event, safe: bool)
    requires Leads(cfg, a, b, safe) && Enabled(cfg, b, ev) && !ev.Crash?
    requires safe && ev.DrainSave? ==> PendingDurable(cfg, b)
    ensures Leads(cfg, a, Do(cfg, b, ev), safe)
  {
    var evs :| LeadsBy(cfg, a, b, evs, safe);
    assert (evs + [ev])[..|evs|] == evs;
    assert LeadsBy(cfg, a, Do(cfg, b, ev), evs + [ev], safe);
  }

  lemma {:induction false} LeadsByConcat(cfg: Config, a: Sys, b: Sys, evs: seq<Event>, more: seq<Event>, safe: bool)
    requires LeadsBy(cfg, a, b, evs, safe)
    requires Legal(cfg, b, more) && NoCrash(more) && (safe ==> Disciplined(cfg, b, more))
    ensures LeadsBy(cfg, a, Play(cfg, b, more), evs + more, safe)
  {
    hide *;
    PlayLast(cfg, b, more, safe);
    if more == [] {
      assert evs + more == evs;
    } else {
      var n := |more| - 1;
      LeadsByConcat(cfg, a, b, evs, more[..n], safe);
      LeadsBySnoc(cfg, a, Play(cfg, b, more[..n]), evs + more[..n], more[n], safe);
      assert evs + more[..n] + [more[n]] == evs + more;
    }
  }

  lemma PlayLast(cfg: Config, s: Sys, evs: seq<Event>, safe: bool)
    requires Legal(cfg, s, evs) && NoCrash(evs) && (safe ==> Disciplined(cfg, s, evs))
    ensures evs == [] ==> Play(cfg, s, evs) == s
    ensures evs != [] ==>
              var (init, ev) := (evs[..|evs| - 1], evs[|evs| - 1]);
              && Legal(cfg, s, init) && NoCrash(init) && !ev.Crash? && (safe ==> Disciplined(cfg, s, init))
              && Enabled(cfg, Play(cfg, s, init), ev) && Play(cfg, s, evs) == Do(cfg, Play(cfg, s, init), ev)
              && (safe && ev.DrainSave? ==> PendingDurable(cfg, Play(cfg, s, init)))
  {
    hide Enabled, Do, PendingDurable;
  }

  lemma LeadsBySnoc(cfg: Config, a: Sys, b: Sys, evs: seq<Event>, ev: Event, safe: bool)
    requires LeadsBy(cfg, a, b, evs, safe) && Enabled(cfg, b, ev) && !ev.Crash?
    requires safe && ev.DrainSave? ==> PendingDurable(cfg, b)
    ensures LeadsBy(cfg, a, Do(cfg, b, ev), evs + [ev], safe)
  {
    hide Enabled, Do, PendingDurable;
    assert (evs + [ev])[..|evs|] == evs;
  }

  lemma LeadsTrans(cfg: Config, a: Sys, b: Sys, c: Sys, safe: bool)
    requires Leads(cfg, a, b, safe) && Leads(cfg, b, c, safe)
    ensures Leads(cfg, a, c, safe)
  {
    var evs :| LeadsBy(cfg, a, b, evs, safe);
    var more :| LeadsBy(cfg, b, c, more, safe);
    LeadsByConcat(cfg, a, b, evs, more, safe);
  }

  /** Following a run with one that is at least as safe as asked. */
  lemma Onward(cfg: Config, a: Sys, b: Sys, c: Sys, have: bool, safe: bool)
    requires Leads(cfg, a, b, safe) && Leads(cfg, b, c, have) && (safe ==> have)
    ensures Leads(cfg, a, c, safe)
  {
    if have && !safe { LeadsWeaken(cfg, b, c); }
    LeadsTrans(cfg, a, b, c, safe);
  }

  /** Two runs in a row are safe if both are. */
  lemma Joined(cfg: Config, a: Sys, b: Sys, c: Sys, safe: bool, after: bool)
    requires Leads(cfg, a, b, safe) && Leads(cfg, b, c, after)
    ensures Leads(cfg, a, c, safe && after)
  {
    if safe && !after { LeadsWeaken(cfg, a, b); }
    if after && !safe { LeadsWeaken(cfg, b, c); }
    LeadsTrans(cfg, a, b, c, safe && after);
  }

  /** Reachable states are sane. */
  lemma ReachedDeadSound(cfg: Config, s: Sys, safe: bool)
    requires WellFormed(cfg) && Reached(cfg, s, safe)
    ensures DeadSound(cfg, s)
  {
    var evs :| ReachedBy(cfg, s, evs, safe);
    AlwaysDeadSound(cfg, evs);
    hide DeadSound, WellFormed;
  }

  lemma ReachableIsSane(cfg: Config, s: Sys)
    requires WellFormed(cfg) && Reached(cfg, s, false)
    ensures Sane(cfg, s)
  {
    var evs :| ReachedBy(cfg, s, evs, false);
    AlwaysSane(cfg, evs);
  }

  lemma {:induction false} PlayKeepsSafe(cfg: Config, s: Sys, evs: seq<Event>)
    requires WellFormed(cfg) && Sane(cfg, s) && CheckpointSafe(cfg, s) && Covered(cfg, s)
    requires Legal(cfg, s, evs) && Disciplined(cfg, s, evs)
    ensures var t := Play(cfg, s, evs); Sane(cfg, t) && CheckpointSafe(cfg, t) && Covered(cfg, t)
  {
    if evs != [] {
      var (init, ev) := (evs[..|evs| - 1], evs[|evs| - 1]);
      PlayKeepsSafe(cfg, s, init);
      var t := Play(cfg, s, init);
      hide Enabled, Do, StampersFit, Provenance, WellFormed, CheckpointSafe, Covered, PendingDurable;
      StampersKept(cfg, t, ev);
      ProvenanceKept(cfg, t, ev);
      StepIsSafe(cfg, t, ev);
    }
  }

  /** A safe run keeps the checkpoint safe. */
  lemma KeepsSafe(cfg: Config, s: Sys, t: Sys)
    requires WellFormed(cfg) && Reached(cfg, s, false) && Leads(cfg, s, t, true)
    requires CheckpointSafe(cfg, s) && Covered(cfg, s)
    ensures CheckpointSafe(cfg, t) && Covered(cfg, t)
  {
    ReachableIsSane(cfg, s);
    var evs :| LeadsBy(cfg, s, t, evs, true);
    PlayKeepsSafe(cfg, s, evs);
  }

  /** Any run within a life, safe or not, keeps what was read durable or in memory. */
  lemma KeepsCovered(cfg: Config, s: Sys, t: Sys, safe: bool)
    requires WellFormed(cfg) && Reached(cfg, s, false) && Leads(cfg, s, t, safe) && Covered(cfg, s)
    ensures Covered(cfg, t)
  {
    ReachableIsSane(cfg, s);
    var evs :| LeadsBy(cfg, s, t, evs, safe);
    NoCrashIsSafe(cfg, s, evs);
    CoveredAlong(cfg, s, evs);
  }

  // ---- What the network does to the store ----

  /** Last write wins, in order. */
  function Applied(cfg: Config, store: map<Key, string>, lines: seq<string>): map<Key, string> {
    if lines == [] then store
    else Applied(cfg, store, lines[..|lines| - 1])[cfg.keyOf(lines[|lines| - 1]) := lines[|lines| - 1]]
  }

  lemma {:induction false} AppliedLeads(cfg: Config, s: Sys, lines: seq<string>)
    requires forall l :: l in lines ==> l in s.sent
    ensures Leads(cfg, s, s.(store := Applied(cfg, s.store, lines)), true)
  {
    if lines == [] {
      LeadsRefl(cfg, s);
    } else {
      var n := |lines| - 1;
      AppliedLeads(cfg, s, lines[..n]);
      LeadsStep(cfg, s, s.(store := Applied(cfg, s.store, lines[..n])), Deliver(lines[n]), true);
    }
  }

  lemma {:induction false} AppliedStores(cfg: Config, s: Sys, lines: seq<string>, l: string)
    requires DistinctKeys(cfg) && (forall m :: m in lines ==> IsRow(cfg, m)) && IsRow(cfg, l)
    requires l in lines || Stored(cfg, s, l)
    ensures Stored(cfg, s.(store := Applied(cfg, s.store, lines)), l)
  {
    if lines != [] {
      var n := |lines| - 1;
      assert lines == lines[..n] + [lines[n]];
      if l != lines[n] {
        AppliedStores(cfg, s, lines[..n], l);
        if cfg.keyOf(l) == cfg.keyOf(lines[n]) { SameKeySameRow(cfg, l, lines[n]); }
      }
    }
  }

  function Poisons(lines: seq<string>): seq<DeadEntry> {
    seq(|lines|, k requires 0 <= k < |lines| => Poison(lines[k]))
  }

  function Rows(lines: seq<string>): set<string> {
    set l | l in lines
  }

  /** The state after a batch met the server: `applied` stored, `turned` refused... */
  function Touched(cfg: Config, s: Sys, applied: seq<string>, turned: seq<string>): Sys {
    s.(store := Applied(cfg, s.store, applied), refused := s.refused + Rows(turned))
  }

  /** ...and after the refused rows reached the dead-letter file too. */
  function DealtWith(cfg: Config, s: Sys, shipped: seq<string>, poison: seq<string>): Sys {
    Touched(cfg, s, shipped, poison).(dead := s.dead + Poisons(poison))
  }

  lemma TouchedLeads(cfg: Config, s: Sys, applied: seq<string>, turned: seq<string>)
    requires forall l :: l in applied || l in turned ==> l in s.sent
    ensures Leads(cfg, s, Touched(cfg, s, applied, turned), true)
  {
    AppliedLeads(cfg, s, applied);
    var s1 := s.(store := Applied(cfg, s.store, applied));
    RefusedLeads(cfg, s1, turned);
    LeadsTrans(cfg, s, s1, s1.(refused := s1.refused + Rows(turned)), true);
  }

  lemma {:induction false} RefusedLeads(cfg: Config, s: Sys, lines: seq<string>)
    requires forall l :: l in lines ==> l in s.sent
    ensures Leads(cfg, s, s.(refused := s.refused + Rows(lines)), true)
  {
    if lines == [] {
      LeadsRefl(cfg, s);
      assert s.refused + Rows(lines) == s.refused;
    } else {
      var n := |lines| - 1;
      RefusedLeads(cfg, s, lines[..n]);
      LeadsStep(cfg, s, s.(refused := s.refused + Rows(lines[..n])), Refuse(lines[n]), true);
      assert lines == lines[..n] + [lines[n]];
      assert s.refused + Rows(lines) == s.refused + Rows(lines[..n]) + {lines[n]};
    }
  }

  lemma DealtWithLeads(cfg: Config, s: Sys, shipped: seq<string>, poison: seq<string>)
    requires forall l :: l in shipped || l in poison ==> l in s.sent
    ensures Leads(cfg, s, DealtWith(cfg, s, shipped, poison), true)
  {
    TouchedLeads(cfg, s, shipped, poison);
    var s1 := Touched(cfg, s, shipped, poison);
    LeadsStep(cfg, s, s1, Quarantine(poison), true);
    assert Do(cfg, s1, Quarantine(poison)) == DealtWith(cfg, s, shipped, poison);
  }

  lemma DealtWithAnswers(cfg: Config, s: Sys, shipped: seq<string>, poison: seq<string>, lines: seq<string>)
    requires DistinctKeys(cfg) && (forall l :: l in lines ==> IsRow(cfg, l))
    requires multiset(lines) == multiset(shipped) + multiset(poison)
    ensures Answered(cfg, DealtWith(cfg, s, shipped, poison), lines)
  {
    var s' := DealtWith(cfg, s, shipped, poison);
    forall l | l in shipped || l in poison ensures l in lines {
      assert l in multiset(shipped) + multiset(poison);
      assert l in multiset(lines);
    }
    forall l | l in lines ensures Stored(cfg, s', l) || Poison(l) in s'.dead {
      assert l in multiset(lines);
      if l in shipped {
        AppliedStores(cfg, s, shipped, l);
      } else {
        assert l in poison;
        var k :| 0 <= k < |poison| && poison[k] == l;
        assert s'.dead[|s.dead| + k] == Poison(l);
      }
    }
  }

  // ---- Batches leaving memory ----

  /** What is known of a batch some task or `held` still has. */
  ghost predicate Shippable(cfg: Config, s: Sys, lines: seq<string>) {
    forall l :: l in lines ==> l in s.sent && IsRow(cfg, l)
  }

  lemma InMemoryIsShippable(cfg: Config, s: Sys, lines: seq<string>)
    requires WellFormed(cfg) && Reached(cfg, s, false)
    requires lines in s.inflight || lines in s.held || lines in s.segments
    ensures Shippable(cfg, s, lines)
  {
    var evs :| ReachedBy(cfg, s, evs, false);
    AlwaysSane(cfg, evs);
    DeliveryLimits.AlwaysOnlySent(cfg, evs);
    forall l | l in lines ensures l in s.sent && IsRow(cfg, l) {
      assert InAny(s.inflight, l) || InAny(s.held, l) || InAny(s.segments, l);
      if InMemory(s, l) { RowBelowMore(cfg, l, s.pos, s.pos); }
    }
  }

  /** The batch was dealt with: it leaves the in-flight set. */
  lemma ReapAckedLeads(cfg: Config, s: Sys, i: nat, shipped: seq<string>, poison: seq<string>)
    requires DistinctKeys(cfg) && i < |s.inflight| && Shippable(cfg, s, s.inflight[i])
    requires multiset(s.inflight[i]) == multiset(shipped) + multiset(poison)
    ensures Leads(cfg, s, DealtWith(cfg, s, shipped, poison).(inflight := RemoveAt(s.inflight, i)), true)
  {
    PartsAreIn(s.inflight[i], shipped, poison);
    DealtWithLeads(cfg, s, shipped, poison);
    DealtWithAnswers(cfg, s, shipped, poison, s.inflight[i]);
    LeadsStep(cfg, s, DealtWith(cfg, s, shipped, poison), ReapAcked(i), true);
  }

  lemma PartsAreIn(lines: seq<string>, shipped: seq<string>, poison: seq<string>)
    requires multiset(lines) == multiset(shipped) + multiset(poison)
    ensures forall l :: l in shipped || l in poison ==> l in lines
  {
    forall l | l in shipped || l in poison ensures l in lines {
      assert l in multiset(shipped) + multiset(poison);
      assert l in multiset(lines);
    }
  }

  /** The batch failed, some of it perhaps applied, and was spooled within the cap... */
  lemma ReapSpooledLeads(cfg: Config, s: Sys, i: nat, applied: seq<string>, turned: seq<string>, forced: bool)
    requires i < |s.inflight| && Shippable(cfg, s, s.inflight[i])
    requires forall l :: l in applied || l in turned ==> l in s.inflight[i]
    requires !forced ==> Total(s.segments) + Lines.Bytes(s.inflight[i]) <= cfg.maxBytes
    ensures Leads(cfg, s, Touched(cfg, s, applied, turned).(inflight := RemoveAt(s.inflight, i),
                             segments := s.segments + [s.inflight[i]], full := s.full || forced), true)
  {
    TouchedLeads(cfg, s, applied, turned);
    LeadsStep(cfg, s, Touched(cfg, s, applied, turned), ReapSpooled(i, forced), true);
  }

  /** ...or the disk is full too, and it stays in memory. */
  lemma ReapHeldLeads(cfg: Config, s: Sys, i: nat, applied: seq<string>, turned: seq<string>)
    requires i < |s.inflight| && Shippable(cfg, s, s.inflight[i])
    requires forall l :: l in applied || l in turned ==> l in s.inflight[i]
    ensures Leads(cfg, s, Touched(cfg, s, applied, turned).(inflight := RemoveAt(s.inflight, i),
                             held := s.held + [s.inflight[i]], full := true), true)
  {
    TouchedLeads(cfg, s, applied, turned);
    LeadsStep(cfg, s, Touched(cfg, s, applied, turned), ReapHeld(i), true);
  }

  lemma HeldAckedLeads(cfg: Config, s: Sys, shipped: seq<string>, poison: seq<string>)
    requires DistinctKeys(cfg) && s.held != [] && Shippable(cfg, s, s.held[0])
    requires multiset(s.held[0]) == multiset(shipped) + multiset(poison)
    ensures Leads(cfg, s, DealtWith(cfg, s, shipped, poison).(held := s.held[1..]), true)
  {
    PartsAreIn(s.held[0], shipped, poison);
    DealtWithLeads(cfg, s, shipped, poison);
    DealtWithAnswers(cfg, s, shipped, poison, s.held[0]);
    LeadsStep(cfg, s, DealtWith(cfg, s, shipped, poison), HeldAcked, true);
  }

  lemma SegmentAckedLeads(cfg: Config, s: Sys, shipped: seq<string>, poison: seq<string>)
    requires DistinctKeys(cfg) && s.held == [] && s.segments != [] && Shippable(cfg, s, s.segments[0])
    requires multiset(s.segments[0]) == multiset(shipped) + multiset(poison)
    ensures Leads(cfg, s, DealtWith(cfg, s, shipped, poison).(segments := s.segments[1..],
                             full := s.full && Total(s.segments[1..]) * 2 > cfg.maxBytes), true)
  {
    PartsAreIn(s.segments[0], shipped, poison);
    DealtWithLeads(cfg, s, shipped, poison);
    DealtWithAnswers(cfg, s, shipped, poison, s.segments[0]);
    LeadsStep(cfg, s, DealtWith(cfg, s, shipped, poison), SegmentAcked, true);
  }
}
