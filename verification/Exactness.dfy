/** What every step of the pipeline keeps, and what that comes to over whole runs:
    checkpoint safety, exactly when it holds, and exactly once. */
module Exactness {
  import opened Basics
  import opened Delivery
  import Stamp

  // ---- Provenance: nothing in the system that is not a row of the crash-free run ----

  ghost predicate Positions(cfg: Config, s: Sys) {
    s.cp.pos <= s.pos <= |cfg.input|
  }

  /** The live stamper and the checkpointed one both fit their positions. */
  ghost predicate StampersFit(cfg: Config, s: Sys) {
    && Positions(cfg, s)
    && Stamp.Agrees(cfg.tickNs, s.stamper, History(cfg, s.pos))
    && Stamp.Agrees(cfg.tickNs, Stamp.Restored(cfg.tickNs, s.cp.stamp), History(cfg, s.cp.pos))
  }

  ghost predicate Provenance(cfg: Config, s: Sys) {
    && (forall l :: InMemory(s, l) ==> RowBelow(cfg, l, s.pos))
    && (forall l :: InAny(s.segments, l) ==> IsRow(cfg, l))
    && (forall l :: l in s.sent ==> IsRow(cfg, l))
    && (forall l :: Poison(l) in s.dead ==> l in s.refused)
    && (forall k :: k in s.store ==> IsRow(cfg, s.store[k]) && cfg.keyOf(s.store[k]) == k)
  }

  lemma {:induction false} HistoryPrefix(cfg: Config, i: nat, j: nat)
    requires i <= j <= |cfg.input|
    ensures History(cfg, i) <= History(cfg, j)
    decreases j
  {
    if i < j { HistoryPrefix(cfg, i, j - 1); }
  }

  lemma OrderedPrefix(cfg: Config, i: nat)
    requires WellFormed(cfg) && i <= |cfg.input|
    ensures Stamp.Nondecreasing(History(cfg, i))
  {
    HistoryPrefix(cfg, i, |cfg.input|);
    var (h, g) := (History(cfg, i), History(cfg, |cfg.input|));
    assert forall k :: 0 <= k < |h| ==> h[k] == g[k];
  }

  lemma StampIsIdeal(cfg: Config, s: Sys)
    requires WellFormed(cfg) && StampersFit(cfg, s) && s.pos < |cfg.input| && cfg.input[s.pos].Mapped?
    ensures var ts := cfg.input[s.pos].sourceTs;
            && Stamp.Issue(cfg.tickNs, s.stamper, ts) == Stamp.Reference(cfg.tickNs, History(cfg, s.pos), ts)
            && Stamp.Agrees(cfg.tickNs, Stamp.After(cfg.tickNs, s.stamper, ts), History(cfg, s.pos + 1))
  {
    OrderedPrefix(cfg, s.pos + 1);
    Stamp.AgreesStep(cfg.tickNs, s.stamper, History(cfg, s.pos), cfg.input[s.pos].sourceTs);
  }

  /** Reading gives line `pos` its crash-free fate, whatever happened before; `FateIff` says
      what that is. */
  lemma ReadIsIdeal(cfg: Config, s: Sys)
    requires WellFormed(cfg) && StampersFit(cfg, s) && s.pos < |cfg.input|
    ensures StampersFit(cfg, AfterRead(cfg, s))
    ensures var s' := AfterRead(cfg, s);
            match FateAt(cfg, s.pos)
            case Row(l) => s'.batch == s.batch + [l] && s'.dead == s.dead
            case Bury(raw) => s'.batch == s.batch && s'.dead == s.dead + [Unread(raw)]
            case Skip => s'.batch == s.batch && s'.dead == s.dead
  {
    hide Stamp.Agrees, Stamp.Issue, Stamp.After, Stamp.Reference, Stamp.TickOf;
    if cfg.input[s.pos].Mapped? {
      StampIsIdeal(cfg, s);
    }
  }

  lemma StampersKept(cfg: Config, s: Sys, ev: Event)
    requires WellFormed(cfg) && StampersFit(cfg, s) && Enabled(cfg, s, ev)
    ensures StampersFit(cfg, Do(cfg, s, ev))
  {
    match ev
    case Read => ReadIsIdeal(cfg, s);
    case Save => Stamp.AgreesRestored(cfg.tickNs, s.stamper, History(cfg, s.pos));
    case DrainSave => Stamp.AgreesRestored(cfg.tickNs, s.stamper, History(cfg, s.pos));
    case _ =>
  }

  lemma RowBelowMore(cfg: Config, l: string, m: nat, n: nat)
    requires RowBelow(cfg, l, m) && m <= n
    ensures RowBelow(cfg, l, n) && IsRow(cfg, l)
  {
    var i :| 0 <= i < m && i < |cfg.input| && FateAt(cfg, i) == Row(l);
    assert 0 <= i < n && 0 <= i < |cfg.input|;
  }

  lemma ProvenanceKeptByRead(cfg: Config, s: Sys)
    requires WellFormed(cfg) && StampersFit(cfg, s) && Provenance(cfg, s) && Enabled(cfg, s, Read)
    ensures Provenance(cfg, Do(cfg, s, Read))
  {
    ReadIsIdeal(cfg, s);
    var s' := Do(cfg, s, Read);
    forall l | InMemory(s', l) ensures RowBelow(cfg, l, s'.pos) {
      if InMemory(s, l) {
        RowBelowMore(cfg, l, s.pos, s'.pos);
      } else {
        assert FateAt(cfg, s.pos) == Row(l);
      }
    }
  }

  lemma ProvenanceKept(cfg: Config, s: Sys, ev: Event)
    requires WellFormed(cfg) && StampersFit(cfg, s) && Provenance(cfg, s) && Enabled(cfg, s, ev)
    ensures Provenance(cfg, Do(cfg, s, ev))
  {
    if ev.Read? {
      ProvenanceKeptByRead(cfg, s);
    } else {
      Moves(cfg, s, ev);
      forall l | InMemory(s, l) ensures IsRow(cfg, l) { RowBelowMore(cfg, l, s.pos, s.pos); }
    }
  }

  // ---- The crash-free run, and why its keys are distinct ----

  function Sources(cfg: Config, i: nat): seq<int>
    requires i <= |cfg.input|
  {
    if i == 0 then []
    else if cfg.input[i - 1].Mapped? then Sources(cfg, i - 1) + [cfg.input[i - 1].sourceTs]
    else Sources(cfg, i - 1)
  }

  lemma {:induction false} FreshRunAgrees(cfg: Config, i: nat)
    requires WellFormed(cfg) && i <= |cfg.input|
    ensures Stamp.Agrees(cfg.tickNs, Stamp.Run(cfg.tickNs, Stamp.FRESH, Sources(cfg, i)).0, History(cfg, i))
  {
    if i > 0 {
      FreshRunAgrees(cfg, i - 1);
      if cfg.input[i - 1].Mapped? {
        OrderedPrefix(cfg, i);
        var (before, ts) := (Sources(cfg, i - 1), cfg.input[i - 1].sourceTs);
        assert Sources(cfg, i)[..|before|] == before;
        Stamp.AgreesStep(cfg.tickNs, Stamp.Run(cfg.tickNs, Stamp.FRESH, before).0, History(cfg, i - 1), ts);
      }
    }
  }

  lemma {:induction false} SourcesPrefix(cfg: Config, i: nat, j: nat)
    requires i <= j <= |cfg.input|
    ensures Sources(cfg, i) <= Sources(cfg, j)
    decreases j
  {
    if i < j { SourcesPrefix(cfg, i, j - 1); }
  }

  /** What a stamper that stamped the mapped lines before it answers for line `i`. */
  function Issued(cfg: Config, i: nat): Stamp.Outcome
    requires i < |cfg.input| && cfg.input[i].Mapped?
  {
    Stamp.Issue(cfg.tickNs, Stamp.Run(cfg.tickNs, Stamp.FRESH, Sources(cfg, i)).0, cfg.input[i].sourceTs)
  }

  /** Line `i` maps, and `l` is its text under the stamp it is issued. */
  predicate Writes(cfg: Config, i: nat, l: string) {
    && i < |cfg.input| && cfg.input[i].Mapped? && Issued(cfg, i).Stamped?
    && cfg.input[i].encode(Issued(cfg, i).ts) == Some(l)
  }

  /** Line `i` does not map, or its tick is exhausted, or it has no text under its stamp. */
  predicate Refuses(cfg: Config, i: nat, raw: string) {
    && i < |cfg.input|
    && match cfg.input[i]
       case Unmapped(r) => raw == r
       case Mapped(r, _, encode) =>
         raw == r && (Issued(cfg, i).Exhausted? || encode(Issued(cfg, i).ts).None?)
       case _ => false
  }

  /** `FateAt` is what one uninterrupted process, stamping the whole file with a fresh
      stamper, would do with line `i`: its outcome there is `Issued`. */
  lemma CrashFreeRun(cfg: Config, i: nat)
    requires WellFormed(cfg) && i < |cfg.input| && cfg.input[i].Mapped?
    ensures var out := Stamp.Run(cfg.tickNs, Stamp.FRESH, Sources(cfg, |cfg.input|)).1;
            |Sources(cfg, i)| < |out| && Issued(cfg, i) == out[|Sources(cfg, i)|]
    ensures Issued(cfg, i) == Stamp.Reference(cfg.tickNs, History(cfg, i), cfg.input[i].sourceTs)
  {
    var (all, k) := (Sources(cfg, |cfg.input|), |Sources(cfg, i)|);
    SourcesPrefix(cfg, i + 1, |cfg.input|);
    assert all[k] == cfg.input[i].sourceTs && all[..k] == Sources(cfg, i);
    Stamp.OutcomeAt(cfg.tickNs, Stamp.FRESH, all, k);
    FreshRunAgrees(cfg, i);
    OrderedPrefix(cfg, i + 1);
    var s := Stamp.Run(cfg.tickNs, Stamp.FRESH, Sources(cfg, i)).0;
    Stamp.AgreesStep(cfg.tickNs, s, History(cfg, i), cfg.input[i].sourceTs);
  }

  /** The fates, line by line: a row is the text under the issued stamp, and what gives none
      is dead-lettered. */
  lemma FateIff(cfg: Config, i: nat)
    requires WellFormed(cfg) && i < |cfg.input|
    ensures forall l :: FateAt(cfg, i) == Row(l) <==> Writes(cfg, i, l)
    ensures forall raw :: FateAt(cfg, i) == Bury(raw) <==> Refuses(cfg, i, raw)
    ensures FateAt(cfg, i).Skip? <==> cfg.input[i].Blank? || cfg.input[i].Dropped?
  {
    if cfg.input[i].Mapped? { CrashFreeRun(cfg, i); }
    hide Issued, Stamp.Reference, History, Sources, WellFormed;
  }

  /** The stamp is in the key: rows of one stream, at any resolution coarser than a
      nanosecond, are distinct primary keys whatever their tags. */
  lemma StampsMakeKeysDistinct(cfg: Config)
    requires cfg.tickNs > 1
    requires forall i, ts :: 0 <= i < |cfg.input| && cfg.input[i].Mapped? && cfg.input[i].encode(ts).Some? ==>
               cfg.keyOf(cfg.input[i].encode(ts).value).1 == ts
    ensures DistinctKeys(cfg)
  {
    forall i, j | 0 <= i < j < |cfg.input| && FateAt(cfg, i).Row? && FateAt(cfg, j).Row?
      ensures cfg.keyOf(FateAt(cfg, i).line) != cfg.keyOf(FateAt(cfg, j).line)
    {
      var (a, b) := (cfg.input[i].sourceTs, cfg.input[j].sourceTs);
      HistoryPrefix(cfg, i + 1, j);
      ReferencesDiffer(cfg.tickNs, History(cfg, i), History(cfg, j), a, b);
    }
  }

  lemma ReferencesDiffer(tickNs: Stamp.Tick, h: seq<int>, g: seq<int>, a: int, b: int)
    requires tickNs > 1 && h + [Stamp.TickOf(tickNs, a)] <= g
    requires Stamp.Reference(tickNs, h, a).Stamped? && Stamp.Reference(tickNs, g, b).Stamped?
    ensures Stamp.Reference(tickNs, h, a).ts != Stamp.Reference(tickNs, g, b).ts
  {
    var (t, u) := (Stamp.TickOf(tickNs, a), Stamp.TickOf(tickNs, b));
    Stamp.CountGrows(g, |h|, |g|);
    assert g[..|h|] == h && g[..|g|] == g;
    if t + multiset(h)[t] == u + multiset(g)[u] {
      Stamp.SlotsDisjoint(tickNs, a, b, multiset(h)[t], multiset(g)[u]);
    }
  }

  // ---- Nothing read is lost while the process lives ----

  lemma SameKeySameRow(cfg: Config, l: string, m: string)
    requires DistinctKeys(cfg) && IsRow(cfg, l) && IsRow(cfg, m) && cfg.keyOf(l) == cfg.keyOf(m)
    ensures l == m
  {
    var i :| 0 <= i < |cfg.input| && FateAt(cfg, i) == Row(l);
    var j :| 0 <= j < |cfg.input| && FateAt(cfg, j) == Row(m);
    assert FateAt(cfg, i).Row? && FateAt(cfg, j).Row?;
  }

  /** The store and the dead-letter file only ever gain. */
  lemma StoredStays(cfg: Config, s: Sys, ev: Event, l: string)
    requires DistinctKeys(cfg) && Provenance(cfg, s) && Enabled(cfg, s, ev) && IsRow(cfg, l)
    ensures Stored(cfg, s, l) ==> Stored(cfg, Do(cfg, s, ev), l)
    ensures Poison(l) in s.dead ==> Poison(l) in Do(cfg, s, ev).dead
  {
    if ev.Deliver? && cfg.keyOf(l) == cfg.keyOf(ev.line) {
      SameKeySameRow(cfg, l, ev.line);
    }
  }

  lemma DurableStays(cfg: Config, s: Sys, ev: Event, l: string)
    requires DistinctKeys(cfg) && Provenance(cfg, s) && Enabled(cfg, s, ev) && IsRow(cfg, l)
    requires Durable(cfg, s, l)
    ensures Durable(cfg, Do(cfg, s, ev), l)
  {
    StoredStays(cfg, s, ev, l);
    Moves(cfg, s, ev);
  }

  lemma KnownStays(cfg: Config, s: Sys, ev: Event, l: string)
    requires DistinctKeys(cfg) && Provenance(cfg, s) && Enabled(cfg, s, ev) && IsRow(cfg, l) && !ev.Crash?
    requires Durable(cfg, s, l) || InMemory(s, l)
    ensures Durable(cfg, Do(cfg, s, ev), l) || InMemory(Do(cfg, s, ev), l)
  {
    if Durable(cfg, s, l) {
      DurableStays(cfg, s, ev, l);
    } else {
      Moves(cfg, s, ev);
    }
  }

  lemma BuriedStays(cfg: Config, s: Sys, ev: Event, raw: string)
    requires Enabled(cfg, s, ev) && Unread(raw) in s.dead
    ensures Unread(raw) in Do(cfg, s, ev).dead
  {
  }

  lemma CheckpointSafeKept(cfg: Config, s: Sys, ev: Event)
    requires WellFormed(cfg) && Provenance(cfg, s) && Enabled(cfg, s, ev) && CheckpointSafe(cfg, s)
    requires !ev.Save? && !ev.DrainSave?
    ensures CheckpointSafe(cfg, Do(cfg, s, ev))
  {
    var s' := Do(cfg, s, ev);
    assert s'.cp == s.cp;
    forall i | 0 <= i < s.cp.pos && i < |cfg.input|
      ensures FateAt(cfg, i).Row? ==> Durable(cfg, s', FateAt(cfg, i).line)
      ensures FateAt(cfg, i).Bury? ==> Unread(FateAt(cfg, i).raw) in s'.dead
    {
      match FateAt(cfg, i)
      case Row(l) => DurableStays(cfg, s, ev, l);
      case Bury(raw) => BuriedStays(cfg, s, ev, raw);
      case Skip =>
    }
  }

  lemma CoveredKept(cfg: Config, s: Sys, ev: Event)
    requires WellFormed(cfg) && StampersFit(cfg, s) && Provenance(cfg, s) && Enabled(cfg, s, ev)
    requires Covered(cfg, s) && !ev.Crash?
    ensures Covered(cfg, Do(cfg, s, ev))
  {
    var s' := Do(cfg, s, ev);
    if ev.Read? { ReadIsIdeal(cfg, s); }
    forall i | 0 <= i < s'.pos && i < |cfg.input|
      ensures FateAt(cfg, i).Row? ==> Durable(cfg, s', FateAt(cfg, i).line) || InMemory(s', FateAt(cfg, i).line)
      ensures FateAt(cfg, i).Bury? ==> Unread(FateAt(cfg, i).raw) in s'.dead
    {
      if i < s.pos {
        match FateAt(cfg, i)
        case Row(l) => KnownStays(cfg, s, ev, l);
        case Bury(raw) => BuriedStays(cfg, s, ev, raw);
        case Skip =>
      }
    }
  }

  /** After a crash the source is read again from the checkpoint, and everything below it
      is already durable. */
  lemma CoveredAfterCrash(cfg: Config, s: Sys)
    requires CheckpointSafe(cfg, s)
    ensures Covered(cfg, Do(cfg, s, Crash))
  {
    var s' := Do(cfg, s, Crash);
    assert forall l :: Durable(cfg, s', l) <==> Durable(cfg, s, l);
  }

  /** `checkpoint_now`: with batch, in-flight and held all empty, what was read is durable. */
  lemma SaveIsSafe(cfg: Config, s: Sys)
    requires Enabled(cfg, s, Save) && Covered(cfg, s)
    ensures CheckpointSafe(cfg, Do(cfg, s, Save))
  {
    var s' := Do(cfg, s, Save);
    assert forall l :: Durable(cfg, s', l) <==> Durable(cfg, s, l);
  }

  /** The save inside `drain_queue`, exactly: it is safe just when every row in the batch
      or in flight is durable anyway. */
  lemma DrainSaveIff(cfg: Config, s: Sys)
    requires Enabled(cfg, s, DrainSave) && Covered(cfg, s) && Provenance(cfg, s)
    ensures CheckpointSafe(cfg, Do(cfg, s, DrainSave)) <==> PendingDurable(cfg, s)
  {
    var s' := Do(cfg, s, DrainSave);
    assert same: forall l :: Durable(cfg, s', l) <==> Durable(cfg, s, l);
    if CheckpointSafe(cfg, s') {
      forall l | l in s.batch || InAny(s.inflight, l) ensures Durable(cfg, s, l) {
        assert InMemory(s, l);
        var i :| 0 <= i < s.pos && i < |cfg.input| && FateAt(cfg, i) == Row(l);
        assert Durable(cfg, s', l);
      }
    } else {
    }
  }

  // ---- Whole runs ----

  /** All that holds in every state, whether or not the drain saves were safe. */
  ghost predicate Sane(cfg: Config, s: Sys) {
    StampersFit(cfg, s) && Provenance(cfg, s)
  }

  /** Every `DrainSave` of the run came at a moment when its pending rows were durable. */
  ghost predicate Disciplined(cfg: Config, s: Sys, evs: seq<Event>)
    requires Legal(cfg, s, evs)
  {
    evs == [] ||
    var (init, ev) := (evs[..|evs| - 1], evs[|evs| - 1]);
    Disciplined(cfg, s, init) && (ev.DrainSave? ==> PendingDurable(cfg, Play(cfg, s, init)))
  }

  lemma {:induction false} LegalPrefix(cfg: Config, s: Sys, evs: seq<Event>, k: int)
    requires Legal(cfg, s, evs) && 0 <= k <= |evs|
    ensures Legal(cfg, s, evs[..k])
    decreases |evs|
  {
    if k < |evs| {
      LegalPrefix(cfg, s, evs[..|evs| - 1], k);
      assert evs[..|evs| - 1][..k] == evs[..k];
    } else {
      assert evs[..k] == evs;
    }
  }

  lemma {:induction false} AlwaysSane(cfg: Config, evs: seq<Event>)
    requires WellFormed(cfg) && Legal(cfg, Boot(cfg), evs)
    ensures Sane(cfg, Play(cfg, Boot(cfg), evs))
  {
    if evs != [] {
      var (init, ev) := (evs[..|evs| - 1], evs[|evs| - 1]);
      AlwaysSane(cfg, init);
      var s := Play(cfg, Boot(cfg), init);
      hide Enabled, Do, StampersFit, Provenance, WellFormed;
      StampersKept(cfg, s, ev);
      ProvenanceKept(cfg, s, ev);
    }
  }

  /** The store never holds a row a crash-free run would not have written, whatever
      crashed, failed, was replayed or arrived late. */
  lemma StoreIsSound(cfg: Config, evs: seq<Event>, k: Key)
    requires WellFormed(cfg) && Legal(cfg, Boot(cfg), evs)
    requires k in Play(cfg, Boot(cfg), evs).store
    ensures var l := Play(cfg, Boot(cfg), evs).store[k]; IsRow(cfg, l) && cfg.keyOf(l) == k
  {
    AlwaysSane(cfg, evs);
  }

  lemma StepIsSafe(cfg: Config, s: Sys, ev: Event)
    requires WellFormed(cfg) && Sane(cfg, s) && Enabled(cfg, s, ev)
    requires CheckpointSafe(cfg, s) && Covered(cfg, s) && (ev.DrainSave? ==> PendingDurable(cfg, s))
    ensures CheckpointSafe(cfg, Do(cfg, s, ev)) && Covered(cfg, Do(cfg, s, ev))
  {
    if ev.Crash? { CoveredAfterCrash(cfg, s); } else { CoveredKept(cfg, s, ev); }
    if ev.Save? { SaveIsSafe(cfg, s); }
    else if ev.DrainSave? { DrainSaveIff(cfg, s); }
    else { CheckpointSafeKept(cfg, s, ev); }
  }

  lemma {:induction false} DisciplinedIsSafe(cfg: Config, evs: seq<Event>)
    requires WellFormed(cfg) && Legal(cfg, Boot(cfg), evs) && Disciplined(cfg, Boot(cfg), evs)
    ensures var s := Play(cfg, Boot(cfg), evs); CheckpointSafe(cfg, s) && Covered(cfg, s)
  {
    if evs != [] {
      var (init, ev) := (evs[..|evs| - 1], evs[|evs| - 1]);
      DisciplinedIsSafe(cfg, init);
      AlwaysSane(cfg, init);
      hide Enabled, Do, StampersFit, Provenance, WellFormed, CheckpointSafe, Covered, PendingDurable;
      StepIsSafe(cfg, Play(cfg, Boot(cfg), init), ev);
    }
  }

  /** Checkpoint safety over whole runs of the code as it is, exactly: it holds in every
      state of a run just when each save at the end of a queue drain found every row of
      the batch and of the in-flight set durable. */
  lemma {:induction false} CheckpointSafetyIff(cfg: Config, evs: seq<Event>)
    requires WellFormed(cfg) && Legal(cfg, Boot(cfg), evs)
    ensures (forall k :: 0 <= k <= |evs| ==>
               Legal(cfg, Boot(cfg), evs[..k]) && CheckpointSafe(cfg, Play(cfg, Boot(cfg), evs[..k])))
            <==> Disciplined(cfg, Boot(cfg), evs)
  {
    if Disciplined(cfg, Boot(cfg), evs) {
      forall k | 0 <= k <= |evs|
        ensures Legal(cfg, Boot(cfg), evs[..k]) && CheckpointSafe(cfg, Play(cfg, Boot(cfg), evs[..k]))
      {
        LegalPrefix(cfg, Boot(cfg), evs, k);
        DisciplinedPrefix(cfg, Boot(cfg), evs, k);
        DisciplinedIsSafe(cfg, evs[..k]);
      }
    } else {
      var k := UnsafeMoment(cfg, evs);
    }
  }

  lemma {:induction false} DisciplinedPrefix(cfg: Config, s: Sys, evs: seq<Event>, k: int)
    requires Legal(cfg, s, evs) && Disciplined(cfg, s, evs) && 0 <= k <= |evs|
    ensures Legal(cfg, s, evs[..k]) && Disciplined(cfg, s, evs[..k])
    decreases |evs|
  {
    if k < |evs| {
      DisciplinedPrefix(cfg, s, evs[..|evs| - 1], k);
      assert evs[..|evs| - 1][..k] == evs[..k];
    } else {
      assert evs[..k] == evs;
    }
  }

  lemma SaneHasProvenance(cfg: Config, s: Sys)
    requires Sane(cfg, s)
    ensures Provenance(cfg, s)
  {
  }

  lemma {:induction false} UnsafeMoment(cfg: Config, evs: seq<Event>) returns (k: int)
    requires WellFormed(cfg) && Legal(cfg, Boot(cfg), evs) && !Disciplined(cfg, Boot(cfg), evs)
    ensures 0 <= k <= |evs| && Legal(cfg, Boot(cfg), evs[..k])
    ensures !CheckpointSafe(cfg, Play(cfg, Boot(cfg), evs[..k]))
  {
    var n := |evs| - 1;
    hide CheckpointSafe, Covered, PendingDurable, Sane, WellFormed, StampersFit, Provenance;
    if Disciplined(cfg, Boot(cfg), evs[..n]) {
      DisciplinedIsSafe(cfg, evs[..n]);
      AlwaysSane(cfg, evs[..n]);
      SaneHasProvenance(cfg, Play(cfg, Boot(cfg), evs[..n]));
      DrainSaveIff(cfg, Play(cfg, Boot(cfg), evs[..n]));
      k := |evs|;
      assert evs[..k] == evs;
    } else {
      k := UnsafeMoment(cfg, evs[..n]);
      assert evs[..n][..k] == evs[..k];
    }
  }

  ghost predicate Drained(cfg: Config, s: Sys) {
    s.pos == |cfg.input| && s.batch == [] && s.inflight == [] && s.held == [] && s.segments == []
  }

  /** Every row of the crash-free run is stored, save some the server itself refused, which
      are in the dead-letter file; the store holds nothing else; and every refused source
      line is in the dead-letter file too. */
  ghost predicate Exact(cfg: Config, s: Sys) {
    && (forall l :: IsRow(cfg, l) ==> Stored(cfg, s, l) || (l in s.refused && Poison(l) in s.dead))
    && (forall k :: k in s.store ==> IsRow(cfg, s.store[k]) && cfg.keyOf(s.store[k]) == k)
    && (forall i :: 0 <= i < |cfg.input| && FateAt(cfg, i).Bury? ==> Unread(FateAt(cfg, i).raw) in s.dead)
  }

  lemma DrainedIsExact(cfg: Config, s: Sys)
    requires Sane(cfg, s) && Covered(cfg, s) && Drained(cfg, s)
    ensures Exact(cfg, s)
  {
    forall l | IsRow(cfg, l) ensures Stored(cfg, s, l) || (l in s.refused && Poison(l) in s.dead) {
      var i :| 0 <= i < |cfg.input| && FateAt(cfg, i) == Row(l);
      assert Durable(cfg, s, l) || InMemory(s, l);
    }
  }

  // ---- The same, line by line ----

  /** Nothing is dead-lettered that some line would not be. */
  ghost predicate DeadSound(cfg: Config, s: Sys) {
    forall raw :: Unread(raw) in s.dead ==> exists i :: 0 <= i < |cfg.input| && FateAt(cfg, i) == Bury(raw)
  }

  lemma DeadKept(cfg: Config, s: Sys, ev: Event)
    requires WellFormed(cfg) && StampersFit(cfg, s) && Enabled(cfg, s, ev) && DeadSound(cfg, s)
    ensures DeadSound(cfg, Do(cfg, s, ev))
  {
    hide FateAt, StampersFit, WellFormed, AfterRead;
    if ev.Read? { hide Enabled; ReadIsIdeal(cfg, s); }
  }

  lemma {:induction false} AlwaysDeadSound(cfg: Config, evs: seq<Event>)
    requires WellFormed(cfg) && Legal(cfg, Boot(cfg), evs)
    ensures DeadSound(cfg, Play(cfg, Boot(cfg), evs))
  {
    if evs != [] {
      var (init, ev) := (evs[..|evs| - 1], evs[|evs| - 1]);
      AlwaysDeadSound(cfg, init);
      AlwaysSane(cfg, init);
      hide Enabled, Do, StampersFit, Provenance, WellFormed, DeadSound;
      DeadKept(cfg, Play(cfg, Boot(cfg), init), ev);
    }
  }

  /** Each mapped line's text under its own stamp is stored, or was turned down and is in the
      dead-letter file; each line that gives no text is in the dead-letter file; and neither
      place holds anything else. */
  ghost predicate LineByLine(cfg: Config, s: Sys) {
    && (forall i: nat, l :: Writes(cfg, i, l) ==> Stored(cfg, s, l) || (l in s.refused && Poison(l) in s.dead))
    && (forall i: nat, raw :: Refuses(cfg, i, raw) ==> Unread(raw) in s.dead)
    && (forall k :: k in s.store ==> cfg.keyOf(s.store[k]) == k && exists i: nat :: Writes(cfg, i, s.store[k]))
    && (forall raw :: Unread(raw) in s.dead ==> exists i: nat :: Refuses(cfg, i, raw))
  }

  lemma ExactLineByLine(cfg: Config, s: Sys)
    requires WellFormed(cfg) && Exact(cfg, s) && DeadSound(cfg, s)
    ensures LineByLine(cfg, s)
  {
    hide FateAt, Writes, Refuses, WellFormed;
    forall i: nat, l | Writes(cfg, i, l) ensures Stored(cfg, s, l) || (l in s.refused && Poison(l) in s.dead) {
      WritesBelow(cfg, i, l);
      FateIff(cfg, i);
      assert IsRow(cfg, l);
    }
    forall i: nat, raw | Refuses(cfg, i, raw) ensures Unread(raw) in s.dead {
      RefusesBelow(cfg, i, raw);
      FateIff(cfg, i);
    }
    forall k | k in s.store ensures exists i: nat :: Writes(cfg, i, s.store[k]) {
      assert IsRow(cfg, s.store[k]);
      var i :| 0 <= i < |cfg.input| && FateAt(cfg, i) == Row(s.store[k]);
      FateIff(cfg, i);
    }
    forall raw | Unread(raw) in s.dead ensures exists i: nat :: Refuses(cfg, i, raw) {
      var i :| 0 <= i < |cfg.input| && FateAt(cfg, i) == Bury(raw);
      FateIff(cfg, i);
    }
  }

  lemma WritesBelow(cfg: Config, i: nat, l: string)
    requires Writes(cfg, i, l)
    ensures i < |cfg.input|
  {
  }

  lemma RefusesBelow(cfg: Config, i: nat, raw: string)
    requires Refuses(cfg, i, raw)
    ensures i < |cfg.input|
  {
  }

  // ---- Exactly once ----

  ghost predicate NoCrash(evs: seq<Event>) {
    forall k :: 0 <= k < |evs| ==> !evs[k].Crash?
  }

  /** Every crash of the run found the saved checkpoint safe. What was saved in between, and
      over what, does not matter: only a crash reads the checkpoint back. */
  ghost predicate SafeCrashes(cfg: Config, s: Sys, evs: seq<Event>)
    requires Legal(cfg, s, evs)
  {
    evs == [] ||
    var (init, ev) := (evs[..|evs| - 1], evs[|evs| - 1]);
    SafeCrashes(cfg, s, init) && (ev.Crash? ==> CheckpointSafe(cfg, Play(cfg, s, init)))
  }

  /** Through such a run nothing read is ever lost. */
  lemma {:induction false} CoveredAlong(cfg: Config, s: Sys, evs: seq<Event>)
    requires WellFormed(cfg) && Sane(cfg, s) && Covered(cfg, s) && Legal(cfg, s, evs) && SafeCrashes(cfg, s, evs)
    ensures Sane(cfg, Play(cfg, s, evs)) && Covered(cfg, Play(cfg, s, evs))
  {
    if evs != [] {
      var (init, ev) := (evs[..|evs| - 1], evs[|evs| - 1]);
      CoveredAlong(cfg, s, init);
      var t := Play(cfg, s, init);
      hide Enabled, Do, StampersFit, Provenance, WellFormed, CheckpointSafe, Covered;
      StampersKept(cfg, t, ev);
      ProvenanceKept(cfg, t, ev);
      if ev.Crash? { CoveredAfterCrash(cfg, t); } else { CoveredKept(cfg, t, ev); }
    }
  }

  /** Exactly once: after any run of reads, flushes, acks, ambiguous failures, late
      deliveries, spools, drains, saves and crashes whose crashes found a safe checkpoint,
      once everything has drained the store holds the crash-free run's rows and nothing
      else, save those the server itself refused; and if it refused none, it is that run's
      store, key for key. Line by line, those rows are the texts of the mapped lines under
      the stamps a fresh stamper issues them. */
  lemma ExactlyOnce(cfg: Config, evs: seq<Event>)
    requires WellFormed(cfg) && Legal(cfg, Boot(cfg), evs) && SafeCrashes(cfg, Boot(cfg), evs)
    requires Drained(cfg, Play(cfg, Boot(cfg), evs))
    ensures Exact(cfg, Play(cfg, Boot(cfg), evs)) && LineByLine(cfg, Play(cfg, Boot(cfg), evs))
    ensures var s := Play(cfg, Boot(cfg), evs);
            (forall l :: IsRow(cfg, l) ==> l !in s.refused) ==>
              forall k, l :: (k in s.store && s.store[k] == l) <==> (IsRow(cfg, l) && cfg.keyOf(l) == k)
  {
    hide LineByLine, DeadSound, Covered, Sane, WellFormed;
    BootIsCovered(cfg);
    CoveredAlong(cfg, Boot(cfg), evs);
    DrainedIsExact(cfg, Play(cfg, Boot(cfg), evs));
    AlwaysDeadSound(cfg, evs);
    ExactLineByLine(cfg, Play(cfg, Boot(cfg), evs));
  }

  lemma BootIsCovered(cfg: Config)
    requires WellFormed(cfg)
    ensures Sane(cfg, Boot(cfg)) && Covered(cfg, Boot(cfg)) && CheckpointSafe(cfg, Boot(cfg))
  {
    AlwaysSane(cfg, []);
  }

  /** In particular a run without a crash, whatever its drains saved over... */
  lemma {:induction false} NoCrashIsSafe(cfg: Config, s: Sys, evs: seq<Event>)
    requires Legal(cfg, s, evs) && NoCrash(evs)
    ensures SafeCrashes(cfg, s, evs)
  {
    if evs != [] { NoCrashIsSafe(cfg, s, evs[..|evs| - 1]); }
  }

  /** ...and a run, with any crashes, whose drain saves were all disciplined. */
  lemma {:induction false} DisciplinedCrashes(cfg: Config, evs: seq<Event>)
    requires WellFormed(cfg) && Legal(cfg, Boot(cfg), evs) && Disciplined(cfg, Boot(cfg), evs)
    ensures SafeCrashes(cfg, Boot(cfg), evs)
  {
    if evs != [] {
      DisciplinedCrashes(cfg, evs[..|evs| - 1]);
      DisciplinedIsSafe(cfg, evs[..|evs| - 1]);
    }
  }

  lemma DisciplinedExactlyOnce(cfg: Config, evs: seq<Event>)
    requires WellFormed(cfg) && Legal(cfg, Boot(cfg), evs) && Disciplined(cfg, Boot(cfg), evs)
    requires Drained(cfg, Play(cfg, Boot(cfg), evs))
    ensures Exact(cfg, Play(cfg, Boot(cfg), evs)) && LineByLine(cfg, Play(cfg, Boot(cfg), evs))
  {
    DisciplinedCrashes(cfg, evs);
    ExactlyOnce(cfg, evs);
  }

  lemma UninterruptedExactlyOnce(cfg: Config, evs: seq<Event>)
    requires WellFormed(cfg) && Legal(cfg, Boot(cfg), evs) && NoCrash(evs)
    requires Drained(cfg, Play(cfg, Boot(cfg), evs))
    ensures Exact(cfg, Play(cfg, Boot(cfg), evs)) && LineByLine(cfg, Play(cfg, Boot(cfg), evs))
  {
    NoCrashIsSafe(cfg, Boot(cfg), evs);
    ExactlyOnce(cfg, evs);
  }
}
