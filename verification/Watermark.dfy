/** The watermark (watermark.rs): an observed lateness, a published claim that never goes
    back, and a count of the lines that contradict it. */
module Watermark {
  import opened Basics

  const WINDOW: nat := 4096
  const MIN_SAMPLES: nat := 256
  const I64_MIN: int := -0x8000_0000_0000_0000
  const I64_MAX: int := 0x7fff_ffff_ffff_ffff

  /** `i64::saturating_sub`. */
  function SaturatingSub(a: int, b: int): (d: int)
    ensures I64_MIN <= a - b <= I64_MAX ==> d == a - b
    ensures (a - b < I64_MIN ==> d == I64_MIN) && (a - b > I64_MAX ==> d == I64_MAX)
  {
    Max(I64_MIN, Min(I64_MAX, a - b))
  }

  function Clamp(x: int, lo: int, hi: int): (r: int)
    requires lo <= hi
    ensures lo <= x <= hi ==> r == x
    ensures (x < lo ==> r == lo) && (x > hi ==> r == hi)
  {
    Max(lo, Min(hi, x))
  }

  // ---- Sorting, and what the picked sample is ----

  function Insert(x: int, s: seq<int>): (r: seq<int>)
    ensures |r| == |s| + 1
  {
    if s == [] || x <= s[0] then [x] + s else [s[0]] + Insert(x, s[1..])
  }

  /** The sorted copy. */
  function Sort(s: seq<int>): (r: seq<int>)
    ensures |r| == |s|
  {
    if s == [] then [] else Insert(s[0], Sort(s[1..]))
  }

  predicate Ascending(s: seq<int>) {
    forall i, j :: 0 <= i < j < |s| ==> s[i] <= s[j]
  }

  /** How many samples exceed `x`, and how many fall short of it. */
  function Above(s: seq<int>, x: int): nat {
    if s == [] then 0 else (if s[0] > x then 1 else 0) + Above(s[1..], x)
  }

  function Below(s: seq<int>, x: int): nat {
    if s == [] then 0 else (if s[0] < x then 1 else 0) + Below(s[1..], x)
  }

  lemma {:induction false} InsertKeeps(x: int, s: seq<int>, y: int)
    requires Ascending(s)
    ensures Ascending(Insert(x, s)) && (forall z :: z in Insert(x, s) <==> z == x || z in s)
    ensures Above(Insert(x, s), y) == Above(s, y) + if x > y then 1 else 0
    ensures Below(Insert(x, s), y) == Below(s, y) + if x < y then 1 else 0
  {
    if s == [] || x <= s[0] {
      assert ([x] + s)[1..] == s;
    } else {
      var rest := Insert(x, s[1..]);
      InsertKeeps(x, s[1..], y);
      assert ([s[0]] + rest)[1..] == rest;
      assert forall z :: z in s <==> z == s[0] || z in s[1..];
      forall j | 0 <= j < |rest| ensures s[0] <= rest[j] { assert rest[j] in rest; }
    }
  }

  lemma {:induction false} SortKeeps(s: seq<int>, y: int)
    ensures Ascending(Sort(s)) && (forall z :: z in Sort(s) <==> z in s)
    ensures Above(Sort(s), y) == Above(s, y) && Below(Sort(s), y) == Below(s, y)
  {
    if s != [] {
      SortKeeps(s[1..], y);
      InsertKeeps(s[0], Sort(s[1..]), y);
      assert forall z :: z in s <==> z == s[0] || z in s[1..];
    }
  }

  lemma {:induction false} FewAbove(s: seq<int>, i: nat)
    requires Ascending(s) && i < |s|
    ensures Above(s, s[i]) <= |s| - 1 - i && Below(s, s[i]) <= i
  {
    if i > 0 {
      FewAbove(s[1..], i - 1);
    } else {
      AboveAtMost(s[1..], s[0]);
      NoneBelow(s, s[0]);
    }
  }

  lemma {:induction false} AboveAtMost(s: seq<int>, x: int)
    ensures Above(s, x) <= |s|
  {
    if s != [] { AboveAtMost(s[1..], x); }
  }

  lemma {:induction false} NoneBelow(s: seq<int>, x: int)
    requires forall k :: 0 <= k < |s| ==> x <= s[k]
    ensures Below(s, x) == 0
  {
    if s != [] { NoneBelow(s[1..], x); }
  }

  /** `((n - 1) * 0.999).round()`, exactly: the nearest index, half away from zero. */
  function QuantileIndex(n: nat): (i: nat)
    requires n >= 1
    ensures i < n && 999 * (n - 1) - 500 < 1000 * i <= 999 * (n - 1) + 500
  {
    ((n - 1) * 1998 + 1000) / 2000
  }

  function Quantile(samples: seq<int>): int
    requires samples != []
  {
    Sort(samples)[QuantileIndex(|samples|)]
  }

  /** The quantile is the sample of that rank: at most four exceed it, and no more than the
      index fall short of it. */
  lemma QuantileRank(samples: seq<int>)
    requires MIN_SAMPLES <= |samples| <= WINDOW
    ensures Quantile(samples) in samples
    ensures Above(samples, Quantile(samples)) <= |samples| - 1 - QuantileIndex(|samples|) <= 4
    ensures Below(samples, Quantile(samples)) <= QuantileIndex(|samples|)
  {
    var i := QuantileIndex(|samples|);
    SortKeeps(samples, Quantile(samples));
    FewAbove(Sort(samples), i);
    assert Sort(samples)[i] in Sort(samples);
  }

  /** `x` is a sample at place `i` in order: so many are no larger, so many no smaller. */
  predicate Ranked(samples: seq<int>, x: int, i: int) {
    x in samples && Below(samples, x) <= i && Above(samples, x) <= |samples| - 1 - i
  }

  // ---- The state and its steps ----

  datatype Config = Config(floor: int, ceiling: int)

  /** `i64::MIN` stands for nothing seen and nothing published. */
  datatype State = State(samples: seq<int>, maxSeen: int, lateness: int, published: int, violations: nat)

  predicate Sensible(c: Config) {
    c.floor <= c.ceiling
  }

  function Fresh(c: Config): State {
    State([], I64_MIN, c.ceiling, I64_MIN, 0)
  }

  datatype Event = Observe(ts: int) | Advance(acked: int) | Restore(lateness: int)

  /** The estimate drawn from the window: the ceiling until there is enough to go on. */
  function Estimate(c: Config, samples: seq<int>): int
    requires Sensible(c)
  {
    if |samples| < MIN_SAMPLES then c.ceiling else Clamp(Quantile(samples), c.floor, c.ceiling)
  }

  /** What an estimate is: the ceiling below 256 samples, then the sample at the quantile's
      place, kept between floor and ceiling. */
  ghost predicate Estimated(c: Config, samples: seq<int>, lateness: int)
    requires Sensible(c)
  {
    if |samples| < 256 then lateness == c.ceiling
    else exists x :: Ranked(samples, x, QuantileIndex(|samples|)) && lateness == Clamp(x, c.floor, c.ceiling)
  }

  lemma EstimateIs(c: Config, samples: seq<int>)
    requires Sensible(c) && |samples| <= WINDOW
    ensures Estimated(c, samples, Estimate(c, samples))
  {
    if |samples| >= MIN_SAMPLES {
      QuantileRank(samples);
      assert Ranked(samples, Quantile(samples), QuantileIndex(|samples|));
    }
    hide Above, Below, Quantile, QuantileIndex;
  }

  /** And it is only one. */
  lemma OneEstimate(c: Config, samples: seq<int>, a: int, b: int)
    requires Sensible(c) && Estimated(c, samples, a) && Estimated(c, samples, b)
    ensures a == b
  {
    if |samples| >= 256 {
      var i := QuantileIndex(|samples|);
      var x :| Ranked(samples, x, i) && a == Clamp(x, c.floor, c.ceiling);
      var y :| Ranked(samples, y, i) && b == Clamp(y, c.floor, c.ceiling);
      if x < y { Crossed(samples, x, y); } else if y < x { Crossed(samples, y, x); }
    }
    hide Above, Below, QuantileIndex;
  }

  lemma {:induction false} Crossed(s: seq<int>, x: int, y: int)
    requires x < y
    ensures Above(s, x) + Below(s, y) >= |s|
  {
    if s != [] { Crossed(s[1..], x, y); }
  }

  function Push(samples: seq<int>, x: int): seq<int> {
    (if |samples| == WINDOW then samples[1..] else samples) + [x]
  }

  function Do(c: Config, s: State, ev: Event): State
    requires Sensible(c)
  {
    match ev
    case Observe(ts) =>
      State(if s.maxSeen != I64_MIN then Push(s.samples, Max(s.maxSeen - ts, 0)) else s.samples,
            Max(s.maxSeen, ts), s.lateness, s.published,
            s.violations + if s.published != I64_MIN && ts < s.published then 1 else 0)
    case Advance(acked) =>
      var lateness := Estimate(c, s.samples);
      s.(lateness := lateness, published := Max(s.published, SaturatingSub(acked, lateness)))
    case Restore(lateness) => s.(lateness := Clamp(lateness, c.floor, c.ceiling))
  }

  class Watermark {
    const c: Config
    var samples: seq<int>
    var maxTsSeen: int
    var lateness: int
    var published: int
    var violations: nat

    ghost predicate Valid()
      reads this
    {
      Sensible(c) && |samples| <= WINDOW && published >= I64_MIN
    }

    ghost function Now(): State
      reads this
    {
      State(samples, maxTsSeen, lateness, published, violations)
    }

    constructor (floor: int, ceiling: int)
      ensures Valid() && c == Config(floor, Max(ceiling, floor)) && Now() == Fresh(c)
    {
      c := Config(floor, Max(ceiling, floor));
      samples, maxTsSeen, lateness, published, violations := [], I64_MIN, Max(ceiling, floor), I64_MIN, 0;
    }

    method Restored(estimate: int)
      requires Valid()
      modifies this`lateness
      ensures Valid() && Now() == Do(c, old(Now()), Restore(estimate))
    {
      lateness := Clamp(estimate, c.floor, c.ceiling);
    }

    method Observed(sourceTs: int)
      requires Valid()
      modifies this`samples, this`maxTsSeen, this`violations
      ensures Valid() && Now() == Do(c, old(Now()), Observe(sourceTs))
    {
      if maxTsSeen != I64_MIN {
        var late := Max(maxTsSeen - sourceTs, 0);
        if |samples| == WINDOW {
          samples := samples[1..];
        }
        samples := samples + [late];
      }
      maxTsSeen := Max(maxTsSeen, sourceTs);
      if published != I64_MIN && sourceTs < published {
        violations := violations + 1;
      }
    }

    method Advanced(ackedMax: int)
      requires Valid()
      modifies this`lateness, this`published
      ensures Valid() && Now() == Do(c, old(Now()), Advance(ackedMax))
      ensures Estimated(c, samples, lateness) && published == Max(old(published), SaturatingSub(ackedMax, lateness))
    {
      EstimateIs(c, samples);
      lateness := Estimate(c, samples);
      var candidate := SaturatingSub(ackedMax, lateness);
      if candidate > published {
        published := candidate;
      }
    }
  }

  // ---- Whole runs ----

  function Play(c: Config, evs: seq<Event>): State
    requires Sensible(c)
  {
    if evs == [] then Fresh(c) else Do(c, Play(c, evs[..|evs| - 1]), evs[|evs| - 1])
  }

  lemma {:induction false} LatenessWithinBounds(c: Config, evs: seq<Event>)
    requires Sensible(c)
    ensures c.floor <= Play(c, evs).lateness <= c.ceiling
  {
    if evs != [] { LatenessWithinBounds(c, evs[..|evs| - 1]); }
  }

  /** A published claim is never taken back. */
  lemma {:induction false} NeverRegresses(c: Config, evs: seq<Event>, n: nat)
    requires Sensible(c) && n <= |evs|
    ensures Play(c, evs[..n]).published <= Play(c, evs).published
  {
    if n < |evs| {
      NeverRegresses(c, evs[..|evs| - 1], n);
      assert evs[..|evs| - 1][..n] == evs[..n];
    } else {
      assert evs[..n] == evs;
    }
  }

  /** Nor does it outrun what was acknowledged, less the floor. */
  lemma {:induction false} NeverOverclaims(c: Config, evs: seq<Event>, bound: int)
    requires Sensible(c) && forall k :: 0 <= k < |evs| && evs[k].Advance? ==> evs[k].acked <= bound
    ensures Play(c, evs).published <= SaturatingSub(bound, c.floor)
  {
    if evs != [] {
      NeverOverclaims(c, evs[..|evs| - 1], bound);
      LatenessWithinBounds(c, evs);
    }
  }

  /** Whether line `k` of the run contradicted what was published when it was read. */
  predicate Contradicts(c: Config, evs: seq<Event>, k: nat)
    requires Sensible(c) && k < |evs|
  {
    var claim := Play(c, evs[..k]).published;
    evs[k].Observe? && claim != I64_MIN && evs[k].ts < claim
  }

  function Contradictions(c: Config, evs: seq<Event>, n: nat): set<nat>
    requires Sensible(c) && n <= |evs|
  {
    set k: nat | k < n && Contradicts(c, evs, k)
  }

  /** `violations` is exactly the number of lines below the claim of their moment. */
  lemma {:induction false} ViolationsExact(c: Config, evs: seq<Event>, n: nat)
    requires Sensible(c) && n <= |evs|
    ensures Play(c, evs[..n]).violations == |Contradictions(c, evs, n)|
  {
    if n == 0 {
      assert Contradictions(c, evs, 0) == {};
    } else {
      ViolationsExact(c, evs, n - 1);
      assert evs[..n][..n - 1] == evs[..n - 1];
      OneMoreContradiction(c, evs, n);
      assert Play(c, evs[..n]) == Do(c, Play(c, evs[..n - 1]), evs[n - 1]);
      hide Play, Contradictions, Estimate, Push;
    }
  }

  lemma OneMoreContradiction(c: Config, evs: seq<Event>, n: nat)
    requires Sensible(c) && 0 < n <= |evs|
    ensures |Contradictions(c, evs, n)| == |Contradictions(c, evs, n - 1)| + if Contradicts(c, evs, n - 1) then 1 else 0
  {
    hide Contradicts;
    var (before, after) := (Contradictions(c, evs, n - 1), Contradictions(c, evs, n));
    assert n - 1 !in before;
    assert after == if Contradicts(c, evs, n - 1) then before + {n - 1} else before;
  }

  // ---- The window ----

  function Observed(evs: seq<Event>): seq<int> {
    if evs == [] then []
    else
      var ev := evs[|evs| - 1];
      Observed(evs[..|evs| - 1]) + if ev.Observe? then [ev.ts] else []
  }

  predicate Highest(s: seq<int>, m: int) {
    m in s && forall k :: 0 <= k < |s| ==> s[k] <= m
  }

  function MaxOf(s: seq<int>): (m: int)
    requires s != []
    ensures Highest(s, m)
  {
    if |s| == 1 then s[0]
    else
      var m := MaxOf(s[..|s| - 1]);
      assert s == s[..|s| - 1] + [s[|s| - 1]];
      Max(m, s[|s| - 1])
  }

  /** How far behind the latest seen before it each line but the first was. */
  function LatenessOf(s: seq<int>): (l: seq<int>)
    ensures |l| == if s == [] then 0 else |s| - 1
  {
    if |s| <= 1 then []
    else LatenessOf(s[..|s| - 1]) + [Max(MaxOf(s[..|s| - 1]) - s[|s| - 1], 0)]
  }

  function LastOf(s: seq<int>, n: nat): seq<int> {
    if |s| <= n then s else s[|s| - n..]
  }

  lemma LastPush(l: seq<int>, x: int)
    ensures LastOf(l + [x], WINDOW) == Push(LastOf(l, WINDOW), x)
  {
  }

  lemma LatenessStep(all: seq<int>)
    requires |all| > 1
    ensures var seen := all[..|all| - 1];
            LatenessOf(all) == LatenessOf(seen) + [Max(MaxOf(seen) - all[|all| - 1], 0)]
  {
    hide MaxOf, Max, Highest;
  }

  lemma LatenessSnoc(seen: seq<int>, ts: int)
    requires seen != []
    ensures LatenessOf(seen + [ts]) == LatenessOf(seen) + [Max(MaxOf(seen) - ts, 0)]
  {
    hide *;
    var all := seen + [ts];
    LatenessStep(all);
    assert all[..|all| - 1] == seen && all[|all| - 1] == ts;
  }

  lemma MaxSnoc(seen: seq<int>, ts: int)
    ensures MaxOf(seen + [ts]) == if seen == [] then ts else Max(MaxOf(seen), ts)
  {
    assert (seen + [ts])[..|seen|] == seen;
    assert [ts][..0] == [];
  }

  lemma ObservedStep(evs: seq<Event>)
    requires evs != []
    ensures var ev := evs[|evs| - 1];
            Observed(evs) == if ev.Observe? then Observed(evs[..|evs| - 1]) + [ev.ts] else Observed(evs[..|evs| - 1])
  {
    assert Observed(evs[..|evs| - 1]) + [] == Observed(evs[..|evs| - 1]);
  }

  /** The window is the lateness of the last 4096 lines. */
  lemma {:induction false} WindowExact(c: Config, evs: seq<Event>)
    requires Sensible(c) && forall k :: 0 <= k < |Observed(evs)| ==> Observed(evs)[k] > I64_MIN
    ensures Play(c, evs).samples == LastOf(LatenessOf(Observed(evs)), WINDOW)
    ensures Play(c, evs).maxSeen == if Observed(evs) == [] then I64_MIN else MaxOf(Observed(evs))
  {
    if evs != [] {
      var (before, ev) := (evs[..|evs| - 1], evs[|evs| - 1]);
      ObservedStep(evs);
      forall k | 0 <= k < |Observed(before)| ensures Observed(before)[k] > I64_MIN {
        assert Observed(evs)[k] == Observed(before)[k];
      }
      WindowExact(c, before);
      if ev.Observe? { ObservedOne(c, Play(c, before), Observed(before), ev.ts); }
      hide LatenessOf, MaxOf, Estimate, Push, LastOf, Observed;
    }
  }

  lemma ObservedOne(c: Config, s: State, seen: seq<int>, ts: int)
    requires Sensible(c) && ts > I64_MIN && forall k :: 0 <= k < |seen| ==> seen[k] > I64_MIN
    requires s.samples == LastOf(LatenessOf(seen), WINDOW)
    requires s.maxSeen == if seen == [] then I64_MIN else MaxOf(seen)
    ensures var s' := Do(c, s, Observe(ts));
            s'.samples == LastOf(LatenessOf(seen + [ts]), WINDOW) && s'.maxSeen == MaxOf(seen + [ts])
  {
    if seen == [] {
      ObservedFirst(c, s, ts);
      assert seen + [ts] == [ts];
    } else {
      MaxIsSeen(seen);
      ObservedNext(c, s, seen, ts);
    }
    hide *;
  }

  lemma ObservedFirst(c: Config, s: State, ts: int)
    requires Sensible(c) && ts > I64_MIN && s.samples == [] && s.maxSeen == I64_MIN
    ensures var s' := Do(c, s, Observe(ts));
            s'.samples == [] == LastOf(LatenessOf([ts]), WINDOW) && s'.maxSeen == ts == MaxOf([ts])
  {
  }

  lemma ObservedNext(c: Config, s: State, seen: seq<int>, ts: int)
    requires Sensible(c) && seen != [] && MaxOf(seen) != I64_MIN
    requires s.samples == LastOf(LatenessOf(seen), WINDOW) && s.maxSeen == MaxOf(seen)
    ensures var s' := Do(c, s, Observe(ts));
            s'.samples == LastOf(LatenessOf(seen + [ts]), WINDOW) && s'.maxSeen == MaxOf(seen + [ts])
  {
    hide *;
    var late := Max(MaxOf(seen) - ts, 0);
    DoObserve(c, s, ts);
    MaxSnoc(seen, ts);
    LatenessSnoc(seen, ts);
    LastPush(LatenessOf(seen), late);
  }

  lemma DoObserve(c: Config, s: State, ts: int)
    requires Sensible(c)
    ensures var s' := Do(c, s, Observe(ts));
            && s'.maxSeen == Max(s.maxSeen, ts)
            && s'.samples == if s.maxSeen != I64_MIN then Push(s.samples, Max(s.maxSeen - ts, 0)) else s.samples
  {
    hide Push;
  }

  lemma MaxIsSeen(seen: seq<int>)
    requires seen != []
    ensures MaxOf(seen) in seen
  {
    assert Highest(seen, MaxOf(seen));
  }

  // ---- What is published ----

  /** Every advance draws its estimate from the lateness of the last 4096 lines. */
  lemma LatenessExact(c: Config, evs: seq<Event>)
    requires Sensible(c) && forall k :: 0 <= k < |Observed(evs)| ==> Observed(evs)[k] > I64_MIN
    requires evs != [] && evs[|evs| - 1].Advance?
    ensures Estimated(c, LastOf(LatenessOf(Observed(evs)), WINDOW), Play(c, evs).lateness)
  {
    WindowExact(c, evs);
    EstimateIs(c, Play(c, evs).samples);
    hide LatenessOf, Estimate, Estimated, Observed;
  }

  /** What the advance at `k` claims: what was acknowledged, less the estimate of the moment. */
  function Claim(c: Config, evs: seq<Event>, k: nat): int
    requires Sensible(c) && k < |evs| && evs[k].Advance?
  {
    SaturatingSub(evs[k].acked, Play(c, evs[..k + 1]).lateness)
  }

  /** What is published is the highest of these claims, and nothing before the first. */
  lemma {:induction false} PublishedExact(c: Config, evs: seq<Event>)
    requires Sensible(c)
    ensures forall k: nat :: k < |evs| && evs[k].Advance? ==> Claim(c, evs, k) <= Play(c, evs).published
    ensures if forall k :: 0 <= k < |evs| ==> !evs[k].Advance? then Play(c, evs).published == I64_MIN
            else exists k: nat :: k < |evs| && evs[k].Advance? && Play(c, evs).published == Claim(c, evs, k)
  {
    if evs != [] {
      var (before, ev) := (evs[..|evs| - 1], evs[|evs| - 1]);
      PublishedExact(c, before);
      assert evs[..|evs|] == evs;
      forall k: nat | k < |before| && evs[k].Advance? ensures Claim(c, evs, k) == Claim(c, before, k) {
        assert before[..k + 1] == evs[..k + 1];
      }
      PublishedStep(c, Play(c, before), ev);
      if ev.Advance? {
        assert Claim(c, evs, |evs| - 1) == SaturatingSub(ev.acked, Play(c, evs).lateness);
      }
      hide Play, Do, Claim, SaturatingSub;
    }
  }

  lemma PublishedStep(c: Config, s: State, ev: Event)
    requires Sensible(c)
    ensures var t := Do(c, s, ev);
            t.published == if ev.Advance? then Max(s.published, SaturatingSub(ev.acked, t.lateness)) else s.published
  {
  }

  // ---- A restored estimate ----

  predicate Unadvanced(evs: seq<Event>) {
    forall k :: 0 <= k < |evs| ==> !evs[k].Advance?
  }

  predicate NoRestore(evs: seq<Event>) {
    forall k :: 0 <= k < |evs| ==> !evs[k].Restore?
  }

  function From(c: Config, s: State, evs: seq<Event>): State
    requires Sensible(c)
  {
    if evs == [] then s else Do(c, From(c, s, evs[..|evs| - 1]), evs[|evs| - 1])
  }

  /** Resuming a converged estimate changes nothing that is ever published: the first advance
      draws a new one. Its only trace is the reading taken before that. */
  lemma {:induction false} RestoreIsInert(c: Config, s: State, x: int, evs: seq<Event>)
    requires Sensible(c) && NoRestore(evs)
    ensures var (with, without) := (From(c, Do(c, s, Restore(x)), evs), From(c, s, evs));
            && with == without.(lateness := with.lateness)
            && (with == without <==> !Unadvanced(evs) || Clamp(x, c.floor, c.ceiling) == s.lateness)
    ensures Unadvanced(evs) ==> From(c, Do(c, s, Restore(x)), evs).lateness == Clamp(x, c.floor, c.ceiling)
    ensures Unadvanced(evs) ==> From(c, s, evs).lateness == s.lateness
  {
    if evs != [] {
      var before := evs[..|evs| - 1];
      assert evs == before + [evs[|evs| - 1]];
      RestoreIsInert(c, s, x, before);
      assert Unadvanced(evs) <==> Unadvanced(before) && !evs[|evs| - 1].Advance?;
      hide Estimate;
    }
  }
}
