/** Timestamp assignment (stamp.rs): sub-tick sequence numbers in a window of the 64
    most recently opened ticks, with the one-tick checkpoint and its restore. */
module Stamp {
  import opened Basics

  const WINDOW: nat := 64

  /** Nanoseconds per source tick, from a billion for seconds down to one. */
  type Tick = t: int | 1 <= t witness 1

  datatype Outcome = Stamped(ts: int) | Exhausted(tickNs: int, sourceTs: int)

  /** The stamper's fields as a value. */
  datatype State = State(next: map<int, int>, order: seq<int>, outOfWindow: nat)

  const FRESH := State(map[], [], 0)

  function TickOf(tickNs: Tick, sourceTs: int): int {
    sourceTs - sourceTs % tickNs
  }

  /** The last `WINDOW` elements. */
  function Recent(s: seq<int>): (r: seq<int>)
    ensures |r| <= WINDOW
    ensures forall x :: x in r ==> x in s
    ensures s != [] ==> r != [] && r[|r| - 1] == s[|s| - 1]
  {
    s[|s| - Min(|s|, WINDOW)..]
  }

  /** Everything before the last `WINDOW` elements. */
  function Evicted(s: seq<int>): seq<int> {
    s[..|s| - Min(|s|, WINDOW)]
  }

  // ---- What one call answers and leaves behind ----

  function Issue(tickNs: Tick, s: State, sourceTs: int): Outcome {
    var tick := TickOf(tickNs, sourceTs);
    if tickNs == 1 then Stamped(sourceTs)
    else if tick !in s.next then Stamped(tick)
    else if s.next[tick] < tickNs then Stamped(tick + s.next[tick])
    else Exhausted(tickNs, sourceTs)
  }

  function After(tickNs: Tick, s: State, sourceTs: int): State {
    var tick := TickOf(tickNs, sourceTs);
    if tickNs == 1 || (tick in s.next && s.next[tick] >= tickNs) then s
    else if tick in s.next then s.(next := s.next[tick := s.next[tick] + 1])
    else Opened(s, tick)
  }

  /** A tick entering the window with its first line. */
  function Opened(s: State, tick: int): State {
    var order := s.order + [tick];
    State(s.next[tick := 1] - (set x | x in Evicted(order)), Recent(order),
          s.outOfWindow + if s.order != [] && tick < s.order[0] then 1 else 0)
  }

  /** What a checkpoint carries: the last opened tick and its next sequence number. */
  function CheckpointOf(s: State): Option<(int, int)> {
    if s.order != [] && s.order[|s.order| - 1] in s.next
    then Some((s.order[|s.order| - 1], s.next[s.order[|s.order| - 1]]))
    else None
  }

  /** A fresh stamper after `restore`, if the checkpoint carried anything. */
  function Restored(tickNs: Tick, cp: Option<(int, int)>): State {
    if tickNs == 1 || cp.None? then FRESH
    else State(map[cp.value.0 := cp.value.1], [cp.value.0], 0)
  }

  class Stamper {
    const tickNs: Tick
    var next: map<int, int>
    var order: seq<int>
    var outOfWindow: nat

    function View(): State
      reads this
    {
      State(next, order, outOfWindow)
    }

    constructor (resolution: Tick)
      ensures tickNs == resolution && View() == FRESH
    {
      tickNs := resolution;
      next, order, outOfWindow := map[], [], 0;
    }

    method Stamp(sourceTs: int) returns (r: Outcome)
      modifies this
      ensures r == Issue(tickNs, old(View()), sourceTs)
      ensures View() == After(tickNs, old(View()), sourceTs)
    {
      if tickNs == 1 {
        return Stamped(sourceTs);
      }
      var tick := sourceTs - sourceTs % tickNs;
      var seqNo := 0;
      if tick in next {
        seqNo := next[tick];
        if seqNo >= tickNs {
          return Exhausted(tickNs, sourceTs);
        }
        next := next[tick := seqNo + 1];
      } else {
        if order != [] && tick < order[0] {
          outOfWindow := outOfWindow + 1;
        }
        next := next[tick := 1];
        order := order + [tick];
        Evict();
      }
      r := Stamped(tick + seqNo);
    }

    /** The pruning loop: oldest insertion first until the window fits. */
    method Evict()
      modifies this`next, this`order
      ensures order == Recent(old(order))
      ensures next == old(next) - (set x | x in Evicted(old(order)))
    {
      ghost var gone := 0;
      while |order| > WINDOW
        invariant 0 <= gone <= |old(order)| - Min(|old(order)|, WINDOW)
        invariant order == old(order)[gone..]
        invariant next == old(next) - (set x | x in old(order)[..gone])
      {
        assert old(order)[..gone + 1] == old(order)[..gone] + [order[0]];
        next := next - {order[0]};
        order := order[1..];
        gone := gone + 1;
      }
    }

    method Restore(tick: int, nextSeq: int)
      modifies this
      ensures old(View()) == FRESH ==> View() == Restored(tickNs, Some((tick, nextSeq)))
      ensures tickNs == 1 ==> View() == old(View())
      ensures tickNs != 1 ==> View() == State(old(next)[tick := nextSeq], old(order) + [tick], old(outOfWindow))
    {
      if tickNs == 1 {
        return;
      }
      next := next[tick := nextSeq];
      order := order + [tick];
    }

    method Checkpoint() returns (r: Option<(int, int)>)
      ensures r == CheckpointOf(View())
    {
      if order == [] {
        return None;
      }
      var tick := order[|order| - 1];
      r := if tick in next then Some((tick, next[tick])) else None;
    }
  }

  // ---- Whole runs ----

  /** The outcomes of stamping `sources` in order from `s`. */
  function Run(tickNs: Tick, s: State, sources: seq<int>): (State, seq<Outcome>) {
    if sources == [] then (s, [])
    else
      var n := |sources| - 1;
      var before := Run(tickNs, s, sources[..n]);
      (After(tickNs, before.0, sources[n]), before.1 + [Issue(tickNs, before.0, sources[n])])
  }

  function Ticks(tickNs: Tick, sources: seq<int>): (h: seq<int>)
    ensures |h| == |sources|
    ensures forall i :: 0 <= i < |h| ==> h[i] == TickOf(tickNs, sources[i])
  {
    seq(|sources|, i requires 0 <= i < |sources| => TickOf(tickNs, sources[i]))
  }

  /** DESIGN.md section 3.1, with no window in it: the sequence number is how many
      earlier lines share the tick. */
  function Reference(tickNs: Tick, earlier: seq<int>, sourceTs: int): Outcome {
    var tick := TickOf(tickNs, sourceTs);
    if tickNs == 1 then Stamped(sourceTs)
    else if multiset(earlier)[tick] < tickNs then Stamped(tick + multiset(earlier)[tick])
    else Exhausted(tickNs, sourceTs)
  }

  predicate Distinct(f: seq<int>) {
    forall i, j :: 0 <= i < j < |f| ==> f[i] != f[j]
  }

  ghost predicate PairwiseDistinct(out: seq<Outcome>) {
    forall i, j :: 0 <= i < j < |out| && out[i].Stamped? && out[j].Stamped? ==> out[i].ts != out[j].ts
  }

  // ---- Any stream: what is remembered, and what is counted ----

  /** The ticks opened over a history, in order: every tick that came while it was not
      among the 64 last opened, so a tick that comes back late opens again. */
  function Opens(h: seq<int>): (f: seq<int>)
    ensures forall x :: x in f <==> x in h
    ensures h != [] ==> f != []
  {
    if h == [] then []
    else
      var (before, t) := (h[..|h| - 1], h[|h| - 1]);
      assert h == before + [t];
      if t in Recent(Opens(before)) then Opens(before) else Opens(before) + [t]
  }

  predicate Remembered(h: seq<int>, t: int) {
    t in Recent(Opens(h))
  }

  /** The lines of tick `t` since it last opened. */
  function Count(h: seq<int>, t: int): nat {
    if h == [] then 0
    else
      var (before, u) := (h[..|h| - 1], h[|h| - 1]);
      if u != t then Count(before, t) else if Remembered(before, t) then Count(before, t) + 1 else 1
  }

  /** The sequence number a line of tick `t` gets after history `h`. */
  function Slot(h: seq<int>, t: int): nat {
    if Remembered(h, t) then Count(h, t) else 0
  }

  /** The stamp on any stream, from the history alone. */
  function Windowed(tickNs: Tick, h: seq<int>, sourceTs: int): Outcome {
    var t := TickOf(tickNs, sourceTs);
    if tickNs == 1 then Stamped(sourceTs)
    else if Slot(h, t) < tickNs then Stamped(t + Slot(h, t))
    else Exhausted(tickNs, sourceTs)
  }

  lemma OpensSnoc(h: seq<int>, t: int)
    ensures Opens(h + [t]) == if Remembered(h, t) then Opens(h) else Opens(h) + [t]
  {
    assert (h + [t])[..|h|] == h;
  }

  lemma CountSnoc(h: seq<int>, t: int, x: int)
    ensures Count(h + [t], x) == if x != t then Count(h, x) else if Remembered(h, t) then Count(h, t) + 1 else 1
  {
    assert (h + [t])[..|h|] == h;
  }

  /** The stamper remembers the newest of the ticks `f`, counted over history `h`. */
  ghost predicate Tracks(tickNs: Tick, s: State, f: seq<int>, h: seq<int>) {
    Distinct(Recent(f)) && s.order == Recent(f) && Counts(tickNs, s.next, s.order, h)
  }

  /** Each remembered tick is mapped to its line count, up to a full tick. */
  ghost predicate Counts(tickNs: Tick, next: map<int, int>, order: seq<int>, h: seq<int>) {
    && (forall t :: t in next <==> t in order)
    && (forall t :: t in order ==> next[t] == Min(Count(h, t), tickNs))
  }

  lemma RecentDropsOne(f: seq<int>, t: int)
    requires Distinct(Recent(f)) && t !in Recent(f)
    ensures Recent(f + [t]) == Recent(Recent(f) + [t]) && Distinct(Recent(f + [t]))
    ensures forall x :: x in Recent(f + [t]) <==> x == t || (x in Recent(f) && x !in Evicted(Recent(f) + [t]))
    ensures t !in Evicted(Recent(f) + [t])
  {
    var r := Recent(f);
    if |r| == WINDOW {
      assert Evicted(r + [t]) == [r[0]];
      assert Recent(f + [t]) == r[1..] + [t];
      assert r == [r[0]] + r[1..];
    } else {
      assert Evicted(r + [t]) == [];
      assert Recent(f + [t]) == r + [t];
    }
  }

  /** The stamper and the history agree whether tick `t` is remembered. */
  predicate SameMemory(f: seq<int>, h: seq<int>, t: int) {
    t in Recent(f) <==> Remembered(h, t)
  }

  function Opening(f: seq<int>, t: int): seq<int> {
    if t in Recent(f) then f else f + [t]
  }

  /** One call on a tick that is remembered... */
  lemma StepKnown(tickNs: Tick, s: State, f: seq<int>, h: seq<int>, ts: int, t: int)
    requires tickNs > 1 && Tracks(tickNs, s, f, h) && t == TickOf(tickNs, ts)
    requires t in Recent(f) && Remembered(h, t)
    ensures Issue(tickNs, s, ts) == Windowed(tickNs, h, ts)
    ensures Tracks(tickNs, After(tickNs, s, ts), f, h + [t])
  {
    hide TickOf, Recent, Remembered, Count;
    forall x ensures Count(h + [t], x) == Count(h, x) + if x == t then 1 else 0 { CountSnoc(h, t, x); }
  }

  /** ...and on one that is not. */
  lemma StepNew(tickNs: Tick, s: State, f: seq<int>, h: seq<int>, ts: int, t: int)
    requires tickNs > 1 && Tracks(tickNs, s, f, h) && t == TickOf(tickNs, ts)
    requires t !in Recent(f) && !Remembered(h, t)
    ensures Issue(tickNs, s, ts) == Windowed(tickNs, h, ts)
    ensures Tracks(tickNs, After(tickNs, s, ts), f + [t], h + [t])
  {
    hide TickOf, Recent, Remembered, Count, Evicted;
    RecentDropsOne(f, t);
    OpenedCounts(tickNs, s.next, s.order, Recent(f + [t]), Evicted(s.order + [t]), h, t);
  }

  lemma OpenedCounts(tickNs: Tick, next: map<int, int>, order: seq<int>, order': seq<int>,
                     evicted: seq<int>, h: seq<int>, t: int)
    requires tickNs > 1 && Counts(tickNs, next, order, h) && !Remembered(h, t) && t !in evicted
    requires forall x :: x in order' <==> x == t || (x in order && x !in evicted)
    ensures Counts(tickNs, next[t := 1] - (set x | x in evicted), order', h + [t])
  {
    hide Remembered, Count;
    forall x ensures Count(h + [t], x) == if x == t then 1 else Count(h, x) { CountSnoc(h, t, x); }
  }

  /** One line on any stream. */
  lemma Step(tickNs: Tick, s: State, f: seq<int>, h: seq<int>, ts: int, t: int)
    requires tickNs > 1 && Tracks(tickNs, s, f, h) && t == TickOf(tickNs, ts) && SameMemory(f, h, t)
    ensures Issue(tickNs, s, ts) == Windowed(tickNs, h, ts)
    ensures Tracks(tickNs, After(tickNs, s, ts), Opening(f, t), h + [t])
  {
    hide TickOf, Issue, After, Windowed, Tracks, Recent, Remembered;
    if t in Recent(f) {
      StepKnown(tickNs, s, f, h, ts, t);
    } else {
      StepNew(tickNs, s, f, h, ts, t);
    }
  }

  lemma TicksSnoc(tickNs: Tick, sources: seq<int>)
    requires sources != []
    ensures var n := |sources| - 1;
            Ticks(tickNs, sources) == Ticks(tickNs, sources[..n]) + [TickOf(tickNs, sources[n])]
            && Ticks(tickNs, sources)[..n] == Ticks(tickNs, sources[..n])
  {
  }

  lemma RunSnoc(tickNs: Tick, s: State, sources: seq<int>)
    requires sources != []
    ensures var n := |sources| - 1;
            Run(tickNs, s, sources).0 == After(tickNs, Run(tickNs, s, sources[..n]).0, sources[n])
  {
  }

  lemma NothingTracks(tickNs: Tick)
    ensures Tracks(tickNs, FRESH, Opens([]), [])
  {
  }

  lemma RunNothing(tickNs: Tick, s: State)
    ensures Run(tickNs, s, []).0 == s
  {
  }

  lemma OwnMemory(h: seq<int>, t: int)
    ensures SameMemory(Opens(h), h, t) && Opening(Opens(h), t) == Opens(h + [t])
  {
    OpensSnoc(h, t);
  }

  lemma {:induction false} RunTracks(tickNs: Tick, sources: seq<int>)
    requires tickNs > 1
    ensures var h := Ticks(tickNs, sources); Tracks(tickNs, Run(tickNs, FRESH, sources).0, Opens(h), h)
  {
    hide *;
    var h := Ticks(tickNs, sources);
    if sources == [] {
      assert h == [];
      NothingTracks(tickNs);
      RunNothing(tickNs, FRESH);
    } else {
      var n := |sources| - 1;
      TicksSnoc(tickNs, sources);
      RunTracks(tickNs, sources[..n]);
      OwnMemory(h[..n], h[n]);
      Step(tickNs, Run(tickNs, FRESH, sources[..n]).0, Opens(h[..n]), h[..n], sources[n], h[n]);
      RunSnoc(tickNs, FRESH, sources);
    }
  }

  lemma {:induction false} RunPrefix(tickNs: Tick, s: State, sources: seq<int>, k: int)
    requires 0 <= k <= |sources|
    ensures |Run(tickNs, s, sources).1| == |sources|
    ensures Run(tickNs, s, sources).1[..k] == Run(tickNs, s, sources[..k]).1
    decreases |sources|
  {
    if sources != [] {
      var n := |sources| - 1;
      RunPrefix(tickNs, s, sources[..n], Min(k, n));
      if k <= n {
        assert sources[..n][..k] == sources[..k];
      } else {
        assert sources[..k] == sources;
      }
    } else {
      assert sources[..k] == sources;
    }
  }

  /** What the run answers at position `k`. */
  lemma OutcomeAt(tickNs: Tick, s: State, sources: seq<int>, k: int)
    requires 0 <= k < |sources|
    ensures |Run(tickNs, s, sources).1| == |sources|
    ensures Run(tickNs, s, sources).1[k] == Issue(tickNs, Run(tickNs, s, sources[..k]).0, sources[k])
  {
    RunPrefix(tickNs, s, sources, k + 1);
    RunPrefix(tickNs, s, sources[..k], k);
    assert sources[..k + 1][..k] == sources[..k];
    assert Run(tickNs, s, sources).1[k] == Run(tickNs, s, sources).1[..k + 1][k];
  }

  /** Every stream, however disordered: each outcome is the slot of the line's tick since
      that tick last opened, and what is left is the 64 last opened ticks with their
      counts. */
  lemma StreamRun(tickNs: Tick, sources: seq<int>)
    requires tickNs > 1
    ensures |Run(tickNs, FRESH, sources).1| == |sources|
    ensures forall i :: 0 <= i < |sources| ==>
              Run(tickNs, FRESH, sources).1[i] == Windowed(tickNs, Ticks(tickNs, sources)[..i], sources[i])
    ensures var h := Ticks(tickNs, sources); Tracks(tickNs, Run(tickNs, FRESH, sources).0, Opens(h), h)
  {
    hide *;
    RunTracks(tickNs, sources);
    RunPrefix(tickNs, FRESH, sources, 0);
    forall i | 0 <= i < |sources|
      ensures Run(tickNs, FRESH, sources).1[i] == Windowed(tickNs, Ticks(tickNs, sources)[..i], sources[i])
    {
      StreamOutcome(tickNs, sources, i);
    }
  }

  lemma StreamOutcome(tickNs: Tick, sources: seq<int>, i: int)
    requires tickNs > 1 && 0 <= i < |sources|
    ensures |Run(tickNs, FRESH, sources).1| == |sources|
    ensures Run(tickNs, FRESH, sources).1[i] == Windowed(tickNs, Ticks(tickNs, sources)[..i], sources[i])
  {
    hide TickOf, Run, Opens, Tracks, Issue, Windowed, After;
    var h := Ticks(tickNs, sources);
    assert Ticks(tickNs, sources[..i]) == h[..i];
    RunTracks(tickNs, sources[..i]);
    OwnMemory(h[..i], h[i]);
    Step(tickNs, Run(tickNs, FRESH, sources[..i]).0, Opens(h[..i]), h[..i], sources[i], h[i]);
    OutcomeAt(tickNs, FRESH, sources, i);
  }

  /** Every stamp lies in its own tick, and a full tick errs instead of spilling over, on
      every stream. */
  lemma InsideTick(tickNs: Tick, sources: seq<int>, i: int)
    requires tickNs > 1 && 0 <= i < |sources|
    ensures var (h, out) := (Ticks(tickNs, sources), Run(tickNs, FRESH, sources).1);
            && |out| == |sources|
            && (out[i].Stamped? ==> h[i] <= out[i].ts < h[i] + tickNs && out[i].ts / tickNs == sources[i] / tickNs)
            && (out[i].Exhausted? <==> Slot(h[..i], h[i]) >= tickNs)
  {
    StreamRun(tickNs, sources);
    var out := Run(tickNs, FRESH, sources).1;
    if out[i].Stamped? { SameTick(tickNs, sources[i], out[i].ts); }
    hide TickOf, Run, Slot, Tracks;
  }

  /** A tick is the span of source times with one quotient. */
  lemma SameTick(tickNs: Tick, sourceTs: int, ts: int)
    ensures TickOf(tickNs, sourceTs) <= ts < TickOf(tickNs, sourceTs) + tickNs <==> ts / tickNs == sourceTs / tickNs
  {
    var (q, r) := (sourceTs / tickNs, ts / tickNs);
    assert sourceTs == q * tickNs + sourceTs % tickNs && ts == r * tickNs + ts % tickNs;
    assert TickOf(tickNs, sourceTs) == q * tickNs;
    if r < q {
      assert r * tickNs + tickNs == (r + 1) * tickNs <= q * tickNs;
    } else if r > q {
      assert q * tickNs + tickNs == (q + 1) * tickNs <= r * tickNs;
    }
  }

  // ---- Uniqueness ----

  lemma TickIsMultiple(tickNs: Tick, a: int)
    ensures TickOf(tickNs, a) == (a / tickNs) * tickNs
  {
  }

  lemma MulAtLeast(k: int, n: int)
    requires k >= 1 && n >= 1
    ensures k * n >= n
  {
    assert k * n == n + (k - 1) * n;
  }

  lemma SameQuotient(p: int, q: int, n: int, c: int, d: int)
    requires 0 <= c < n && 0 <= d < n && p * n + c == q * n + d
    ensures p == q
  {
    if p > q {
      assert (p - q) * n == d - c;
      MulAtLeast(p - q, n);
    } else if q > p {
      assert (q - p) * n == c - d;
      MulAtLeast(q - p, n);
    }
  }

  /** Ticks are whole multiples, so slots of different ticks never meet. */
  lemma SlotsDisjoint(tickNs: Tick, a: int, b: int, c: int, d: int)
    requires 0 <= c < tickNs && 0 <= d < tickNs
    requires TickOf(tickNs, a) + c == TickOf(tickNs, b) + d
    ensures TickOf(tickNs, a) == TickOf(tickNs, b)
  {
    TickIsMultiple(tickNs, a);
    TickIsMultiple(tickNs, b);
    hide TickOf;
    SameQuotient(a / tickNs, b / tickNs, tickNs, c, d);
  }

  lemma CountGrows(h: seq<int>, i: int, j: int)
    requires 0 <= i < j <= |h|
    ensures multiset(h[..i])[h[i]] < multiset(h[..j])[h[i]]
  {
    assert h[..j] == h[..i] + [h[i]] + h[i + 1..j];
    assert multiset(h[..j]) == multiset(h[..i]) + multiset{h[i]} + multiset(h[i + 1..j]);
  }

  lemma {:induction false} FirstOccurrence(h: seq<int>, t: int) returns (i: int)
    requires t in h
    ensures 0 <= i < |h| && h[i] == t && t !in h[..i]
  {
    if t in h[..|h| - 1] {
      i := FirstOccurrence(h[..|h| - 1], t);
      assert h[..|h| - 1][..i] == h[..i];
    } else {
      i := |h| - 1;
    }
  }

  /** Line `k` brings back a tick that 64 others have pushed out. */
  predicate Late(h: seq<int>, k: int)
    requires 0 <= k < |h|
  {
    h[k] in h[..k] && !Remembered(h[..k], h[k])
  }

  /** No tick comes back after 64 others have opened. */
  predicate WithinWindow(h: seq<int>) {
    forall k :: 0 <= k < |h| ==> !Late(h, k)
  }

  lemma UnseenSlot(h: seq<int>, t: int)
    requires t !in h || !Remembered(h, t)
    ensures Slot(h, t) == 0 && !Remembered(h, t)
  {
  }

  /** On every stream, a tick coming back after its eviction is issued the stamp its first
      line got. */
  lemma LateTickCollides(tickNs: Tick, sources: seq<int>, k: int) returns (i: int)
    requires tickNs > 1 && 0 <= k < |sources| && Late(Ticks(tickNs, sources), k)
    ensures 0 <= i < k
    ensures var out := Run(tickNs, FRESH, sources).1;
            |out| == |sources| && out[i].Stamped? && out[k] == out[i]
  {
    hide TickOf, Run, Opens, Remembered, Slot, Tracks;
    var h := Ticks(tickNs, sources);
    i := FirstOccurrence(h[..k], h[k]);
    assert h[..k][..i] == h[..i];
    StreamRun(tickNs, sources);
    UnseenSlot(h[..i], h[i]);
    UnseenSlot(h[..k], h[k]);
  }

  /** Between two lines of one tick, unless it came back late, the count has gone up. */
  lemma {:induction false} SlotGrows(h: seq<int>, i: int, j: int)
    requires 0 <= i < j <= |h| && forall k :: i < k < j ==> h[k] == h[i] ==> !Late(h, k)
    ensures Count(h[..j], h[i]) > Slot(h[..i], h[i])
    decreases j
  {
    hide Count, Opens, Remembered;
    assert h[..j] == h[..j - 1] + [h[j - 1]];
    CountSnoc(h[..j - 1], h[j - 1], h[i]);
    if j > i + 1 {
      SlotGrows(h, i, j - 1);
      assert h[j - 1] == h[i] ==> h[..j - 1][i] == h[i];
    }
  }

  /** On every stream, two lines with one stamp: the later one came at or after a late
      return of their tick. */
  lemma CollisionIsLate(tickNs: Tick, sources: seq<int>, i: int, j: int) returns (k: int)
    requires tickNs > 1 && 0 <= i < j < |sources| && |Run(tickNs, FRESH, sources).1| == |sources|
    requires var out := Run(tickNs, FRESH, sources).1; out[i].Stamped? && out[j] == out[i]
    ensures var h := Ticks(tickNs, sources); i < k <= j && h[k] == h[i] == h[j] && Late(h, k)
  {
    hide TickOf, Run, Opens, Remembered, Tracks, Count;
    var h := Ticks(tickNs, sources);
    StreamRun(tickNs, sources);
    SlotsDisjoint(tickNs, sources[i], sources[j], Slot(h[..i], h[i]), Slot(h[..j], h[j]));
    if m :| i < m < j && h[m] == h[i] && Late(h, m) {
      k := m;
    } else {
      k := j;
      SlotGrows(h, i, j);
      assert h[..j][i] == h[j];
    }
  }

  /** Exactly when a stream's stamps are pairwise distinct, for every stream: no tick
      comes back after 64 others have opened. */
  lemma UniqueIff(tickNs: Tick, sources: seq<int>)
    requires tickNs > 1
    ensures PairwiseDistinct(Run(tickNs, FRESH, sources).1) <==> WithinWindow(Ticks(tickNs, sources))
  {
    hide TickOf, Run, Opens, Late, Ticks;
    var (h, out) := (Ticks(tickNs, sources), Run(tickNs, FRESH, sources).1);
    RunPrefix(tickNs, FRESH, sources, 0);
    if WithinWindow(h) {
      forall i, j | 0 <= i < j < |out| && out[i].Stamped? && out[j].Stamped? ensures out[i].ts != out[j].ts {
        if out[i].ts == out[j].ts { var k := CollisionIsLate(tickNs, sources, i, j); }
      }
    } else {
      var k :| 0 <= k < |h| && Late(h, k);
      var i := LateTickCollides(tickNs, sources, k);
    }
  }

  // ---- Within the window ----

  lemma {:induction false} WithinWindowPrefix(h: seq<int>, n: int)
    requires 0 <= n <= |h| && WithinWindow(h)
    ensures WithinWindow(h[..n])
  {
    forall k | 0 <= k < n ensures !Late(h[..n], k) {
      assert h[..n][..k] == h[..k] && !Late(h, k);
    }
  }

  /** Then every count is the number of lines the tick ever had. */
  lemma {:induction false} CountIsAll(h: seq<int>, t: int)
    requires WithinWindow(h)
    ensures Count(h, t) == multiset(h)[t] && Slot(h, t) <= multiset(h)[t]
  {
    hide Remembered, Opens;
    if h != [] {
      var n := |h| - 1;
      WithinWindowPrefix(h, n);
      CountIsAll(h[..n], t);
      assert h == h[..n] + [h[n]] && !Late(h, n);
    }
  }

  /** While no tick comes back too late, a run from fresh is the windowless reference. */
  lemma WindowRun(tickNs: Tick, sources: seq<int>)
    requires tickNs > 1 && WithinWindow(Ticks(tickNs, sources))
    ensures |Run(tickNs, FRESH, sources).1| == |sources|
    ensures forall i :: 0 <= i < |sources| ==>
              Run(tickNs, FRESH, sources).1[i] == Reference(tickNs, Ticks(tickNs, sources)[..i], sources[i])
  {
    hide TickOf, Run, Opens, Remembered, Tracks, Count, WithinWindow;
    var h := Ticks(tickNs, sources);
    StreamRun(tickNs, sources);
    forall i | 0 <= i < |sources|
      ensures Run(tickNs, FRESH, sources).1[i] == Reference(tickNs, h[..i], sources[i])
    {
      WithinWindowPrefix(h, i);
      CountIsAll(h[..i], h[i]);
      InWindowSlot(h, i);
    }
  }

  lemma InWindowSlot(h: seq<int>, i: int)
    requires 0 <= i < |h| && WithinWindow(h)
    ensures Slot(h[..i], h[i]) == if h[i] in h[..i] then Count(h[..i], h[i]) else 0
    ensures h[i] !in h[..i] ==> multiset(h[..i])[h[i]] == 0
  {
    assert !Late(h, i);
  }

  // ---- Ordered streams ----

  predicate Nondecreasing(h: seq<int>) {
    forall i, j :: 0 <= i < j < |h| ==> h[i] <= h[j]
  }

  /** Each new tick is later than everything before it; old ones may still come back. */
  predicate OpensInOrder(h: seq<int>) {
    forall k, i :: 0 <= i < k < |h| && h[k] !in h[..k] ==> h[i] < h[k]
  }

  lemma {:induction false} LastOpened(h: seq<int>)
    requires Nondecreasing(h) && h != []
    ensures Opens(h)[|Opens(h)| - 1] == h[|h| - 1]
  {
    var n := |h| - 1;
    hide Recent;
    if Remembered(h[..n], h[n]) {
      LastRepeats(h);
      LastOpened(h[..n]);
    }
  }

  lemma OrderedIsWithin(h: seq<int>)
    requires Nondecreasing(h)
    ensures WithinWindow(h)
  {
    hide Opens;
    forall k | 0 <= k < |h| ensures !Late(h, k) {
      if h[k] in h[..k] {
        var g := h[..k + 1];
        assert g[..|g| - 1] == h[..k];
        LastRepeats(g);
        LastOpened(h[..k]);
      }
    }
  }

  lemma LastRepeats(h: seq<int>)
    requires Nondecreasing(h) && h != [] && h[|h| - 1] in h[..|h| - 1]
    ensures |h| >= 2 && h[|h| - 2] == h[|h| - 1]
  {
    var n := |h| - 1;
    var i :| 0 <= i < n && h[i] == h[n];
    assert i < n - 1 ==> h[i] <= h[n - 1];
  }

  /** For source timestamps that never step back, stamps follow the file order strictly. */
  lemma StrictlyIncreasing(tickNs: Tick, sources: seq<int>, i: int, j: int)
    requires tickNs > 1 && Nondecreasing(Ticks(tickNs, sources)) && 0 <= i < j < |sources|
    ensures var out := Run(tickNs, FRESH, sources).1;
            |out| == |sources| && (out[i].Stamped? && out[j].Stamped? ==> out[i].ts < out[j].ts)
  {
    hide TickOf, Run, Opens, WithinWindow;
    var h := Ticks(tickNs, sources);
    OrderedIsWithin(h);
    WindowRun(tickNs, sources);
    if h[i] == h[j] {
      CountGrows(h, i, j);
    } else {
      var out := Run(tickNs, FRESH, sources).1;
      if out[i].Stamped? && out[j].Stamped? && out[i].ts >= out[j].ts {
        TickGap(tickNs, sources[i], sources[j]);
      }
    }
  }

  lemma TickGap(tickNs: Tick, a: int, b: int)
    requires TickOf(tickNs, a) < TickOf(tickNs, b)
    ensures TickOf(tickNs, a) + tickNs <= TickOf(tickNs, b)
  {
    var d := TickOf(tickNs, b) - TickOf(tickNs, a);
    if d < tickNs {
      SlotsDisjoint(tickNs, a, b, d, 0);
    }
  }

  // ---- What the out-of-window counter is worth ----

  /** Line `k` opens a tick older than the oldest one still remembered. */
  predicate Below(h: seq<int>, k: int)
    requires 0 <= k < |h|
  {
    h[..k] != [] && !Remembered(h[..k], h[k]) && h[k] < Recent(Opens(h[..k]))[0]
  }

  function Counted(h: seq<int>, n: int): set<int>
    requires 0 <= n <= |h|
  {
    set k | 0 <= k < n && Below(h, k)
  }

  lemma CounterStep(tickNs: Tick, s: State, ts: int)
    requires tickNs > 1
    ensures After(tickNs, s, ts).outOfWindow
            == s.outOfWindow
               + if TickOf(tickNs, ts) !in s.next && s.order != [] && TickOf(tickNs, ts) < s.order[0] then 1 else 0
  {
  }

  /** The line after `before` moves the counter exactly if it opens a tick older than the
      oldest remembered; one that comes back late, exactly if it is older than that. */
  lemma CountedIff(tickNs: Tick, before: seq<int>, ts: int)
    requires tickNs > 1
    ensures var (s, h, t) := (Run(tickNs, FRESH, before).0, Ticks(tickNs, before), TickOf(tickNs, ts));
            && After(tickNs, s, ts).outOfWindow == s.outOfWindow + (if Below(h + [t], |h|) then 1 else 0)
            && (Late(h + [t], |h|) ==> (After(tickNs, s, ts).outOfWindow > s.outOfWindow <==> t < Recent(Opens(h))[0]))
  {
    hide TickOf, Run, After, Opens;
    var (s, h, t) := (Run(tickNs, FRESH, before).0, Ticks(tickNs, before), TickOf(tickNs, ts));
    assert (h + [t])[..|h|] == h;
    RunTracks(tickNs, before);
    NothingRemembered(h);
    CounterStep(tickNs, s, ts);
  }

  lemma NothingRemembered(h: seq<int>)
    ensures Recent(Opens(h)) == [] <==> h == []
  {
  }

  lemma CountedNext(h: seq<int>, n: int)
    requires 0 < n <= |h|
    ensures |Counted(h, n)| == |Counted(h, n - 1)| + if Below(h, n - 1) then 1 else 0
  {
    hide Below;
    assert n - 1 !in Counted(h, n - 1);
    assert Counted(h, n) == if Below(h, n - 1) then Counted(h, n - 1) + {n - 1} else Counted(h, n - 1);
  }

  lemma CountedPrefix(h: seq<int>, n: int)
    requires 0 <= n <= |h|
    ensures Counted(h[..n], n) == Counted(h, n)
  {
    forall k | 0 <= k < n ensures Below(h[..n], k) <==> Below(h, k) {
      assert h[..n][..k] == h[..k];
    }
    hide Below;
  }

  /** `out_of_window` at the end of any stream is the number of lines that opened a tick
      older than the oldest one remembered, new or coming back. */
  lemma {:induction false} CounterIs(tickNs: Tick, sources: seq<int>)
    requires tickNs > 1
    ensures var h := Ticks(tickNs, sources); Run(tickNs, FRESH, sources).0.outOfWindow == |Counted(h, |h|)|
  {
    hide TickOf, Run, After, Opens, Below, Counted;
    var h := Ticks(tickNs, sources);
    if sources == [] {
      CounterAtStart(tickNs);
    } else {
      var n := |sources| - 1;
      TicksSnoc(tickNs, sources);
      CounterIs(tickNs, sources[..n]);
      CountedPrefix(h, n);
      CountedNext(h, |h|);
      CountedIff(tickNs, sources[..n], sources[n]);
      RunSnoc(tickNs, FRESH, sources);
    }
  }

  lemma CounterAtStart(tickNs: Tick)
    ensures Run(tickNs, FRESH, []).0.outOfWindow == 0 && Counted([], 0) == {} && Ticks(tickNs, []) == []
  {
  }

  /** When the counter misses a collision, on every stream: it ends at zero over a repeated
      stamp exactly if some tick came back late and no line opened a tick older than the
      oldest remembered. */
  lemma SilentIff(tickNs: Tick, sources: seq<int>)
    requires tickNs > 1
    ensures var (s, out) := Run(tickNs, FRESH, sources);
            var h := Ticks(tickNs, sources);
            && (s.outOfWindow == 0 <==> forall k :: 0 <= k < |h| ==> !Below(h, k))
            && (s.outOfWindow == 0 && !PairwiseDistinct(out)
                <==> (exists k :: 0 <= k < |h| && Late(h, k)) && (forall k :: 0 <= k < |h| ==> !Below(h, k)))
  {
    hide TickOf, Run, Opens, Below, Late, PairwiseDistinct, Ticks;
    var h := Ticks(tickNs, sources);
    CounterIs(tickNs, sources);
    UniqueIff(tickNs, sources);
    if |Counted(h, |h|)| == 0 {
      assert Counted(h, |h|) == {};
      forall k | 0 <= k < |h| ensures !Below(h, k) { assert k !in Counted(h, |h|); }
    } else {
      var k :| k in Counted(h, |h|);
    }
  }

  /** While ticks open in increasing order, what opens does so in that order. */
  lemma {:induction false} OpensIncrease(h: seq<int>, i: int, j: int)
    requires OpensInOrder(h) && WithinWindow(h) && 0 <= i < j < |Opens(h)|
    ensures Opens(h)[i] < Opens(h)[j]
  {
    hide Recent;
    var n := |h| - 1;
    OpensInOrderPrefix(h, n);
    WithinWindowPrefix(h, n);
    if j < |Opens(h[..n])| {
      OpensIncrease(h[..n], i, j);
    } else {
      assert !Late(h, n) && Opens(h)[j] == h[n] && Opens(h)[i] in h[..n];
    }
  }

  lemma OpensInOrderPrefix(h: seq<int>, n: int)
    requires OpensInOrder(h) && 0 <= n <= |h|
    ensures OpensInOrder(h[..n])
  {
    forall k, m | 0 <= m < k < n && h[..n][k] !in h[..n][..k] ensures h[..n][m] < h[..n][k] {
      assert h[..n][..k] == h[..k];
    }
  }

  lemma {:induction false} FirstLate(h: seq<int>) returns (k: int)
    requires !WithinWindow(h)
    ensures 0 <= k < |h| && WithinWindow(h[..k]) && Late(h, k)
  {
    hide Remembered;
    k :| 0 <= k < |h| && Late(h, k);
    if !WithinWindow(h[..k]) {
      var m := FirstLate(h[..k]);
      assert h[..k][..m] == h[..m];
      k := m;
    }
  }

  /** With ticks opening in order the first late return is below the front... */
  lemma FirstLateIsBelow(h: seq<int>, k: int)
    requires OpensInOrder(h) && 0 <= k < |h| && WithinWindow(h[..k]) && Late(h, k)
    ensures Below(h, k)
  {
    hide Opens, WithinWindow;
    OpensInOrderPrefix(h, k);
    var f := Opens(h[..k]);
    assert h[k] in f;
    var i :| 0 <= i < |f| && f[i] == h[k];
    var j := |f| - |Recent(f)|;
    assert forall m :: j <= m < |f| ==> f[m] == Recent(f)[m - j];
    assert f[j] == Recent(f)[0];
    OpensIncrease(h[..k], i, j);
  }

  /** ...and whatever is below the front is late. */
  lemma BelowIsLate(h: seq<int>, k: int)
    requires OpensInOrder(h) && 0 <= k < |h| && Below(h, k)
    ensures Late(h, k)
  {
    var front := Recent(Opens(h[..k]))[0];
    assert front in h[..k];
    hide Opens, Recent;
    var i :| 0 <= i < k && h[..k][i] == front;
    assert h[i] == front;
  }

  /** So when ticks open in increasing order `out_of_window` is an exact witness: zero at
      the end just when every stamp issued is unique. */
  lemma CounterExact(tickNs: Tick, sources: seq<int>)
    requires tickNs > 1 && OpensInOrder(Ticks(tickNs, sources))
    ensures Run(tickNs, FRESH, sources).0.outOfWindow == 0 <==> PairwiseDistinct(Run(tickNs, FRESH, sources).1)
  {
    hide TickOf, Run, Below, Late, PairwiseDistinct, OpensInOrder, Ticks;
    var h := Ticks(tickNs, sources);
    UniqueIff(tickNs, sources);
    SilentIff(tickNs, sources);
    if WithinWindow(h) {
      forall k | 0 <= k < |h| ensures !Below(h, k) { if Below(h, k) { BelowIsLate(h, k); } }
    } else {
      var k := FirstLate(h);
      FirstLateIsBelow(h, k);
    }
  }

  lemma {:induction false} DistinctHistory(h: seq<int>)
    requires Distinct(h)
    ensures Opens(h) == h
  {
    hide Recent;
    if h != [] {
      var n := |h| - 1;
      DistinctHistory(h[..n]);
      assert h == h[..n] + [h[n]];
    }
  }

  /** Each opening tick is only compared with the oldest one still in the window. */
  lemma CounterSeesOnlyTheFront(tickNs: Tick, sources: seq<int>)
    requires tickNs > 1 && Distinct(Ticks(tickNs, sources))
    requires var h := Ticks(tickNs, sources); forall k :: 0 <= k < |h| ==> h[k - Min(k, WINDOW)] <= h[k]
    ensures Run(tickNs, FRESH, sources).0.outOfWindow == 0
  {
    hide TickOf, Run, Opens, PairwiseDistinct, Late;
    var h := Ticks(tickNs, sources);
    SilentIff(tickNs, sources);
    forall k | 0 <= k < |h| ensures !Below(h, k) {
      DistinctHistory(h[..k]);
      assert h[..k] != [] ==> Recent(h[..k])[0] == h[k - Min(k, WINDOW)];
    }
  }

  /** Without that order the counter can stay at zero over a real collision: microsecond
      ticks 1, 3, 2, 4, 5, ..., 66 and then 3 again. */
  function Jumbled(): (sources: seq<int>)
  {
    seq(67, i => 1000 * Jumble(i))
  }

  function Jumble(i: int): int {
    if i == 1 || i == 66 then 3 else if i == 2 then 2 else i + 1
  }

  lemma JumbledBefore()
    ensures var h := Ticks(1000, Jumbled());
            |h| == 67 && Distinct(h[..66]) && h[66] == h[1] == 3000 && Recent(h[..66]) == h[2..66] && h[2] == 2000
            && (forall k :: 0 <= k < 66 ==> h[k - Min(k, WINDOW)] <= h[k]) && h[66] !in h[2..66]
  {
    var h := Ticks(1000, Jumbled());
    assert forall i :: 0 <= i < 67 ==> h[i] == 1000 * Jumble(i) by {
      forall i | 0 <= i < 67 ensures h[i] == 1000 * Jumble(i) { WholeTick(Jumble(i)); }
    }
    hide Ticks, TickOf, Jumbled;
    assert Distinct(h[..66]);
    assert Recent(h[..66]) == h[2..66];
    assert forall i :: 2 <= i < 66 ==> h[i] != 3000;
    assert forall k :: 0 <= k < 66 ==> Jumble(k - Min(k, WINDOW)) <= Jumble(k);
  }

  lemma WholeTick(x: int)
    ensures TickOf(1000, 1000 * x) == 1000 * x
  {
  }

  lemma SilentCollision()
    ensures var (s, out) := Run(1000, FRESH, Jumbled());
            s.outOfWindow == 0 && !PairwiseDistinct(out)
  {
    hide TickOf, Run, Opens, PairwiseDistinct, Jumbled, Ticks;
    JumbledBefore();
    var h := Ticks(1000, Jumbled());
    SilentIff(1000, Jumbled());
    DistinctHistory(h[..66]);
    assert Late(h, 66) by { assert h[..66][1] == h[66]; }
    forall k | 0 <= k < |h| ensures !Below(h, k) {
      assert h[..66][..k] == h[..k] || k == 66;
      DistinctHistory(h[..k]);
      if k < 66 { assert h[..k] != [] ==> Recent(h[..k])[0] == h[k - Min(k, WINDOW)]; }
    }
  }

  // ---- Checkpoint, restore, replay ----

  lemma TicksConcat(tickNs: Tick, a: seq<int>, b: seq<int>)
    ensures Ticks(tickNs, a + b) == Ticks(tickNs, a) + Ticks(tickNs, b)
  {
  }

  /** The state a checkpoint of the prefix restores to. */
  function Resumed(tickNs: Tick, a: seq<int>): State {
    Restored(tickNs, CheckpointOf(Run(tickNs, FRESH, a).0))
  }

  /** Where the checkpointed tick stands among those opened. */
  function From(a: seq<int>): nat {
    if Opens(a) == [] then 0 else |Opens(a)| - 1
  }

  lemma {:induction false} OpensGrow(a: seq<int>, b: seq<int>)
    ensures Opens(a) <= Opens(a + b) && From(a) <= |Opens(a + b)|
  {
    hide Recent;
    if b == [] {
      assert a + b == a;
    } else {
      OpensGrow(a, b[..|b| - 1]);
      assert (a + b)[..|a + b| - 1] == a + b[..|b| - 1];
    }
  }

  /** The ticks opened since, and including, the checkpointed one. */
  function Since(a: seq<int>, b: seq<int>): seq<int> {
    OpensGrow(a, b);
    Opens(a + b)[From(a)..]
  }

  /** Line `k` of the suffix falls in a tick the uninterrupted run still remembers, but
      opened before the one the checkpoint saved. */
  predicate Forgotten(a: seq<int>, b: seq<int>, k: int)
    requires 0 <= k < |b|
  {
    Remembered(a + b[..k], b[k]) && b[k] !in Since(a, b[..k])
  }

  lemma {:induction false} RecentIsDistinct(h: seq<int>)
    ensures Distinct(Recent(Opens(h)))
  {
    hide Recent;
    if h == [] {
      NothingTracks(2);
    } else {
      var n := |h| - 1;
      RecentIsDistinct(h[..n]);
      if !Remembered(h[..n], h[n]) { RecentDropsOne(Opens(h[..n]), h[n]); }
    }
  }

  /** What is remembered of a suffix `g` is what is remembered and in it. */
  lemma RecentOfSuffix(f: seq<int>, g: seq<int>, x: int)
    requires |g| <= |f| && g == f[|f| - |g|..] && Distinct(Recent(f))
    ensures Distinct(Recent(g)) && (x in Recent(g) <==> x in Recent(f) && x in g)
  {
    hide *;
    if |g| >= WINDOW {
      LongSuffix(f, g);
    } else {
      ShortSuffix(f, g);
      DistinctSuffix(Recent(f), g, x);
    }
  }

  lemma RecentAt(f: seq<int>)
    ensures |Recent(f)| == Min(|f|, WINDOW)
    ensures forall i :: 0 <= i < |Recent(f)| ==> Recent(f)[i] == f[|f| - |Recent(f)| + i]
  {
  }

  lemma LongSuffix(f: seq<int>, g: seq<int>)
    requires |g| <= |f| && g == f[|f| - |g|..] && |g| >= WINDOW
    ensures Recent(g) == Recent(f)
  {
    hide *;
    RecentAt(f);
    RecentAt(g);
  }

  lemma ShortSuffix(f: seq<int>, g: seq<int>)
    requires |g| <= |f| && g == f[|f| - |g|..] && |g| < WINDOW
    ensures var r := Recent(f); Recent(g) == g && |g| <= |r| && g == r[|r| - |g|..]
  {
    hide *;
    RecentAt(f);
    RecentAt(g);
    var r := Recent(f);
    assert forall i :: 0 <= i < |g| ==> g[i] == r[|r| - |g| + i];
  }

  lemma DistinctSuffix(r: seq<int>, g: seq<int>, x: int)
    requires Distinct(r) && |g| <= |r| && g == r[|r| - |g|..]
    ensures Distinct(g) && (x in g ==> x in r)
  {
    var n := |r| - |g|;
    assert forall i :: 0 <= i < |g| ==> g[i] == r[n + i];
  }

  lemma ResumedTracks(tickNs: Tick, a: seq<int>)
    requires tickNs > 1
    ensures var h := Ticks(tickNs, a); Tracks(tickNs, Resumed(tickNs, a), Since(h, []), h)
  {
    hide TickOf, Run, Opens, Ticks;
    var h := Ticks(tickNs, a);
    RunTracks(tickNs, a);
    assert h + [] == h;
    CheckpointTracks(tickNs, Run(tickNs, FRESH, a).0, Opens(h), h);
  }

  lemma CheckpointTracks(tickNs: Tick, s: State, f: seq<int>, h: seq<int>)
    requires tickNs > 1 && Tracks(tickNs, s, f, h)
    ensures Tracks(tickNs, Restored(tickNs, CheckpointOf(s)), if f == [] then [] else f[|f| - 1..], h)
  {
    hide Count, Tracks, CheckpointOf;
    CheckpointIs(tickNs, s, f, h);
    if f != [] {
      var last := f[|f| - 1];
      OneTickTracks(tickNs, last, Min(Count(h, last), tickNs), h);
      assert f[|f| - 1..] == [last];
    } else {
      NoTicksTrack(tickNs, h);
    }
  }

  lemma CheckpointIs(tickNs: Tick, s: State, f: seq<int>, h: seq<int>)
    requires Tracks(tickNs, s, f, h)
    ensures CheckpointOf(s) == if f == [] then None else Some((f[|f| - 1], Min(Count(h, f[|f| - 1]), tickNs)))
  {
    hide Count, Distinct;
    if f != [] {
      assert s.order[|s.order| - 1] == f[|f| - 1] && f[|f| - 1] in s.order;
    }
  }

  lemma NoTicksTrack(tickNs: Tick, h: seq<int>)
    ensures Tracks(tickNs, FRESH, [], h)
  {
    hide Count, Recent;
    NoneRecent();
  }

  lemma NoneRecent()
    ensures Recent([]) == []
  {
  }

  lemma OneTickTracks(tickNs: Tick, t: int, count: int, h: seq<int>)
    requires count == Min(Count(h, t), tickNs)
    ensures Tracks(tickNs, State(map[t := count], [t], 0), [t], h)
  {
    assert Recent([t]) == [t];
    hide Count;
  }

  lemma SinceNext(a: seq<int>, b: seq<int>, t: int)
    requires SameMemory(Since(a, b), a + b, t)
    ensures Since(a, b + [t]) == Opening(Since(a, b), t)
  {
    hide Recent;
    assert a + (b + [t]) == (a + b) + [t];
    OpensSnoc(a + b, t);
    OpensGrow(a, b);
  }

  /** As long as the suffix meets no forgotten tick, the resumed stamper tracks the whole
      history in what it has opened since. */
  lemma {:induction false} ReplayTracks(tickNs: Tick, a: seq<int>, b: seq<int>)
    requires tickNs > 1
    requires forall k :: 0 <= k < |b| ==> !Forgotten(Ticks(tickNs, a), Ticks(tickNs, b), k)
    ensures var (ha, hb) := (Ticks(tickNs, a), Ticks(tickNs, b));
            Tracks(tickNs, Run(tickNs, Resumed(tickNs, a), b).0, Since(ha, hb), ha + hb)
  {
    hide *;
    var (ha, hb, s) := (Ticks(tickNs, a), Ticks(tickNs, b), Resumed(tickNs, a));
    if b == [] {
      assert hb == [] && ha + hb == ha;
      ResumedTracks(tickNs, a);
      RunNothing(tickNs, s);
    } else {
      var n := |b| - 1;
      TicksSnoc(tickNs, b);
      ForgottenBefore(ha, hb, n);
      assert Ticks(tickNs, b[..n]) == hb[..n];
      ReplayTracks(tickNs, a, b[..n]);
      Remembers(ha, hb, n);
      Step(tickNs, Run(tickNs, s, b[..n]).0, Since(ha, hb[..n]), ha + hb[..n], b[n], hb[n]);
      SinceNext(ha, hb[..n], hb[n]);
      assert ha + hb[..n] + [hb[n]] == ha + hb;
      RunSnoc(tickNs, s, b);
    }
  }

  /** The resumed stamper remembers what the other does, except what is forgotten. */
  lemma Remembers(a: seq<int>, b: seq<int>, k: int)
    requires 0 <= k < |b|
    ensures SameMemory(Since(a, b[..k]), a + b[..k], b[k]) <==> !Forgotten(a, b, k)
    ensures Forgotten(a, b, k) ==> b[k] !in Recent(Since(a, b[..k]))
  {
    hide Recent;
    OpensGrow(a, b[..k]);
    RecentIsDistinct(a + b[..k]);
    RecentOfSuffix(Opens(a + b[..k]), Since(a, b[..k]), b[k]);
  }

  /** What an uninterrupted run answers for the suffix. */
  function Uninterrupted(tickNs: Tick, a: seq<int>, b: seq<int>): (out: seq<Outcome>)
    ensures |out| == |b|
  {
    RunPrefix(tickNs, FRESH, a + b, 0);
    Run(tickNs, FRESH, a + b).1[|a|..]
  }

  lemma UninterruptedAt(tickNs: Tick, a: seq<int>, b: seq<int>, k: int)
    requires tickNs > 1 && 0 <= k < |b|
    ensures Uninterrupted(tickNs, a, b)[k] == Windowed(tickNs, Ticks(tickNs, a) + Ticks(tickNs, b)[..k], b[k])
  {
    hide TickOf, Run, Windowed, Opens, Tracks, Ticks;
    TicksConcat(tickNs, a, b);
    StreamRun(tickNs, a + b);
    assert (a + b)[|a| + k] == b[k];
    assert Ticks(tickNs, a + b)[..|a| + k] == Ticks(tickNs, a) + Ticks(tickNs, b)[..k];
  }

  /** Up to the first forgotten tick the two runs agree, and there they part. */
  lemma ReplayAt(tickNs: Tick, a: seq<int>, b: seq<int>, k: int)
    requires tickNs > 1 && 0 <= k < |b|
    requires forall m :: 0 <= m < k ==> !Forgotten(Ticks(tickNs, a), Ticks(tickNs, b), m)
    ensures |Run(tickNs, Resumed(tickNs, a), b).1| == |b|
    ensures Run(tickNs, Resumed(tickNs, a), b).1[k] == Uninterrupted(tickNs, a, b)[k]
            <==> !Forgotten(Ticks(tickNs, a), Ticks(tickNs, b), k)
  {
    hide *;
    var (ha, hb, s) := (Ticks(tickNs, a), Ticks(tickNs, b), Resumed(tickNs, a));
    var s' := Run(tickNs, s, b[..k]).0;
    assert Ticks(tickNs, b[..k]) == hb[..k];
    ForgottenBefore(ha, hb, k);
    ReplayTracks(tickNs, a, b[..k]);
    OutcomeAt(tickNs, s, b, k);
    UninterruptedAt(tickNs, a, b, k);
    Remembers(ha, hb, k);
    if Forgotten(ha, hb, k) {
      ForgottenParts(tickNs, s', ha, hb, k, b[k]);
    } else {
      Step(tickNs, s', Since(ha, hb[..k]), ha + hb[..k], b[k], hb[k]);
    }
  }

  lemma ForgottenBefore(a: seq<int>, b: seq<int>, n: int)
    requires 0 <= n < |b| && forall k :: 0 <= k < n ==> !Forgotten(a, b, k)
    ensures forall k :: 0 <= k < n ==> !Forgotten(a, b[..n], k)
  {
    hide Recent, Opens, Remembered, Since;
    forall k | 0 <= k < n ensures !Forgotten(a, b[..n], k) { assert b[..n][..k] == b[..k] && !Forgotten(a, b, k); }
  }

  /** A remembered tick has a line already, so its next stamp is not its first. */
  lemma {:induction false} RememberedCounts(h: seq<int>, t: int)
    requires t in h
    ensures Count(h, t) >= 1
  {
    hide Remembered, Opens;
    var n := |h| - 1;
    assert h == h[..n] + [h[n]];
    if h[n] != t { RememberedCounts(h[..n], t); }
  }

  lemma ForgottenParts(tickNs: Tick, s: State, a: seq<int>, b: seq<int>, k: int, ts: int)
    requires tickNs > 1 && 0 <= k < |b| && b[k] == TickOf(tickNs, ts) && Forgotten(a, b, k)
    requires Tracks(tickNs, s, Since(a, b[..k]), a + b[..k]) && b[k] !in Recent(Since(a, b[..k]))
    ensures Issue(tickNs, s, ts) != Windowed(tickNs, a + b[..k], ts)
  {
    RememberedCounts(a + b[..k], b[k]);
    hide Count, Opens, Recent, TickOf;
  }

  /** Checkpoint, restore, replay, for every stream and every split: the resumed stamper
      reissues exactly the stamps of the uninterrupted run just when no line of the suffix
      falls in a tick still remembered from before the one the checkpoint saves. */
  lemma ReplayIff(tickNs: Tick, a: seq<int>, b: seq<int>)
    requires tickNs > 1
    ensures Run(tickNs, Resumed(tickNs, a), b).1 == Uninterrupted(tickNs, a, b)
            <==> forall k :: 0 <= k < |b| ==> !Forgotten(Ticks(tickNs, a), Ticks(tickNs, b), k)
  {
    hide *;
    var (ha, hb) := (Ticks(tickNs, a), Ticks(tickNs, b));
    RunPrefix(tickNs, Resumed(tickNs, a), b, 0);
    if k :| 0 <= k < |b| && Forgotten(ha, hb, k) {
      var m := FirstForgotten(ha, hb, k);
      ReplayAt(tickNs, a, b, m);
    } else {
      forall k | 0 <= k < |b| ensures Run(tickNs, Resumed(tickNs, a), b).1[k] == Uninterrupted(tickNs, a, b)[k] {
        ReplayAt(tickNs, a, b, k);
      }
    }
  }

  lemma {:induction false} FirstForgotten(a: seq<int>, b: seq<int>, k: int) returns (m: int)
    requires 0 <= k < |b| && Forgotten(a, b, k)
    ensures 0 <= m < |b| && Forgotten(a, b, m) && forall i :: 0 <= i < m ==> !Forgotten(a, b, i)
    decreases k
  {
    hide *;
    if i :| 0 <= i < k && Forgotten(a, b, i) {
      m := FirstForgotten(a, b, i);
    } else {
      m := k;
    }
  }

  /** While nothing comes back late, that is: the suffix comes back to no earlier tick but
      the last one opened. */
  lemma ReplayWithinWindow(tickNs: Tick, a: seq<int>, b: seq<int>)
    requires tickNs > 1 && a != [] && WithinWindow(Ticks(tickNs, a + b))
    ensures var (ha, hb) := (Ticks(tickNs, a), Ticks(tickNs, b));
            Run(tickNs, Resumed(tickNs, a), b).1 == Uninterrupted(tickNs, a, b)
            <==> forall t :: t in hb && t in ha ==> t == Opens(ha)[|Opens(ha)| - 1]
  {
    hide TickOf, Run, Opens, Ticks, Late, Remembered, Since, Resumed, Uninterrupted;
    var (ha, hb) := (Ticks(tickNs, a), Ticks(tickNs, b));
    TicksConcat(tickNs, a, b);
    ReplayIff(tickNs, a, b);
    forall k | 0 <= k < |b|
      ensures Forgotten(ha, hb, k) <==> hb[k] in ha && hb[k] != Opens(ha)[|Opens(ha)| - 1]
    {
      ForgottenWithinWindow(ha, hb, k);
    }
  }

  lemma {:induction false} OpensOnce(h: seq<int>)
    requires WithinWindow(h)
    ensures Distinct(Opens(h))
  {
    hide Recent;
    if h != [] {
      var n := |h| - 1;
      WithinWindowPrefix(h, n);
      OpensOnce(h[..n]);
      assert !Late(h, n);
    }
  }

  lemma ForgottenWithinWindow(a: seq<int>, b: seq<int>, k: int)
    requires a != [] && 0 <= k < |b| && WithinWindow(a + b)
    ensures Forgotten(a, b, k) <==> b[k] in a && b[k] != Opens(a)[|Opens(a)| - 1]
  {
    hide *;
    var (h, t) := (a + b[..k], b[k]);
    assert (a + b)[..|a| + k] == h && (a + b)[|a| + k] == t;
    WithinWindowPrefix(a + b, |a| + k);
    OpensOnce(h);
    OpensGrow(a, b[..k]);
    SeenIsRemembered(a + b, |a| + k);
    FromIsLast(a);
    SuffixMembers(Opens(h), Opens(a), t);
    ForgottenIs(a, b, k);
  }

  lemma SeenIsRemembered(h: seq<int>, k: int)
    requires WithinWindow(h) && 0 <= k < |h|
    ensures Remembered(h[..k], h[k]) <==> h[k] in h[..k]
  {
    assert !Late(h, k);
    hide Recent;
  }

  lemma FromIsLast(a: seq<int>)
    requires a != []
    ensures Opens(a) != [] && From(a) == |Opens(a)| - 1
  {
    hide Opens;
  }

  lemma ForgottenIs(a: seq<int>, b: seq<int>, k: int)
    requires 0 <= k < |b|
    ensures From(a) <= |Opens(a + b[..k])|
    ensures Forgotten(a, b, k) <==> Remembered(a + b[..k], b[k]) && b[k] !in Opens(a + b[..k])[From(a)..]
  {
    OpensGrow(a, b[..k]);
    hide Opens, Remembered, From;
  }

  /** Past the last element of its prefix, a list of distinct elements has none of the rest of it. */
  lemma SuffixMembers(f: seq<int>, p: seq<int>, t: int)
    requires Distinct(f) && p != [] && p <= f
    ensures t in f && t !in f[|p| - 1..] <==> t in p && t != p[|p| - 1]
  {
    var n := |p| - 1;
    assert forall m :: 0 <= m <= n ==> p[m] == f[m];
    assert f[n..][0] == p[n];
    if t in p && t != p[n] {
      var i :| 0 <= i < |p| && p[i] == t;
      assert f[i] == t && forall j :: n <= j < |f| ==> f[j] != t;
    }
    if t in f && t !in f[n..] {
      var i :| 0 <= i < |f| && f[i] == t;
      assert forall j :: n <= j < |f| ==> f[j] == f[n..][j - n];
      assert p[i] == t;
    }
  }

  /** In particular for source timestamps that never step back, at any split point. */
  lemma OrderedReplay(tickNs: Tick, a: seq<int>, b: seq<int>)
    requires tickNs > 1 && Nondecreasing(Ticks(tickNs, a + b))
    ensures Run(tickNs, Resumed(tickNs, a), b).1 == Uninterrupted(tickNs, a, b)
  {
    hide TickOf, Run, Opens, Remembered, Since, Resumed, Uninterrupted;
    var (ha, hb) := (Ticks(tickNs, a), Ticks(tickNs, b));
    TicksConcat(tickNs, a, b);
    ReplayIff(tickNs, a, b);
    forall k | 0 <= k < |b| ensures !Forgotten(ha, hb, k) { OrderedNotForgotten(ha, hb, k); }
  }

  lemma OrderedNotForgotten(a: seq<int>, b: seq<int>, k: int)
    requires Nondecreasing(a + b) && 0 <= k < |b|
    ensures !Forgotten(a, b, k)
  {
    hide Recent, Opens;
    OrderedIsWithin(a + b);
    if a != [] && b[k] in a {
      ForgottenWithinWindow(a, b, k);
      var i :| 0 <= i < |a| && a[i] == b[k];
      assert (a + b)[i] == a[i] && (a + b)[|a| - 1] == a[|a| - 1] && (a + b)[|a| + k] == b[k];
      OrderedHead(a, b);
      LastOpened(a);
    } else if a != [] {
      ForgottenWithinWindow(a, b, k);
    } else {
      OpensGrow(a, b[..k]);
      assert a + b[..k] == b[..k];
      NothingOpened();
    }
  }

  lemma NothingOpened()
    ensures From([]) == 0
  {
  }

  lemma OrderedHead(a: seq<int>, b: seq<int>)
    requires Nondecreasing(a + b)
    ensures Nondecreasing(a)
  {
    forall i, j | 0 <= i < j < |a| ensures a[i] <= a[j] {
      assert (a + b)[i] == a[i] && (a + b)[j] == a[j];
    }
  }

  // ---- One ordered stream, followed step by step ----

  /** The stamper is fit to continue after the ordered history `h`. */
  ghost predicate Agrees(tickNs: Tick, s: State, h: seq<int>) {
    tickNs == 1 ||
    if h == [] then s.next == map[] && s.order == []
    else
      var last := h[|h| - 1];
      && s.order != [] && s.order[|s.order| - 1] == last
      && last in s.next && s.next[last] == Min(multiset(h)[last], tickNs)
      && (forall t :: t in s.next ==> t <= last)
      && (forall t :: t in s.order ==> t <= last)
  }

  lemma OpenedAgrees(tickNs: Tick, s: State, h: seq<int>, t: int)
    requires tickNs > 1 && Agrees(tickNs, s, h) && (h != [] ==> h[|h| - 1] < t) && t !in h
    ensures Agrees(tickNs, Opened(s, t), h + [t])
  {
    var order := s.order + [t];
    assert multiset(h + [t])[t] == multiset(h)[t] + 1;
    assert t !in s.order;
    assert Evicted(order) == s.order[..|Evicted(order)|];
    assert t !in Evicted(order);
  }

  /** Stamping the next line of an ordered stream: the reference stamp, and the stamper
      still fits. */
  lemma AgreesStep(tickNs: Tick, s: State, h: seq<int>, ts: int)
    requires Agrees(tickNs, s, h) && Nondecreasing(h + [TickOf(tickNs, ts)])
    ensures Issue(tickNs, s, ts) == Reference(tickNs, h, ts)
    ensures Agrees(tickNs, After(tickNs, s, ts), h + [TickOf(tickNs, ts)])
  {
    var t := TickOf(tickNs, ts);
    if tickNs > 1 {
      OrderedNext(h, t);
      if h != [] && h[|h| - 1] == t {
        KnownAgrees(tickNs, s, h, t);
      } else {
        assert multiset(h)[t] == 0;
        OpenedAgrees(tickNs, s, h, t);
      }
    }
  }

  lemma OrderedNext(h: seq<int>, t: int)
    requires Nondecreasing(h + [t])
    ensures h != [] ==> h[|h| - 1] <= t
    ensures t in h ==> h[|h| - 1] == t
  {
    var h' := h + [t];
    assert h != [] ==> h'[|h| - 1] <= h'[|h|];
    forall i | 0 <= i < |h| ensures h[i] <= h[|h| - 1] {
      assert i < |h| - 1 ==> h'[i] <= h'[|h| - 1];
    }
  }

  lemma KnownAgrees(tickNs: Tick, s: State, h: seq<int>, t: int)
    requires tickNs > 1 && Agrees(tickNs, s, h) && h != [] && h[|h| - 1] == t
    ensures Agrees(tickNs, if s.next[t] >= tickNs then s else s.(next := s.next[t := s.next[t] + 1]), h + [t])
  {
    assert multiset(h + [t])[t] == multiset(h)[t] + 1;
  }

  /** Saving and restoring keeps it fit. */
  lemma AgreesRestored(tickNs: Tick, s: State, h: seq<int>)
    requires Agrees(tickNs, s, h)
    ensures Agrees(tickNs, Restored(tickNs, CheckpointOf(s)), h)
  {
  }
}
