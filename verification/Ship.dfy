/** Shipping a batch (ship.rs): the explicit-stack bisection that isolates the lines a
    server rejects, against a server that may answer anything. */
module Ship {
  import opened Basics
  import Lines

  /** One response. `applied` says whether a request that failed was carried out all the
      same: the outcome of a timeout or a 5xx is unknown to the sender. */
  datatype Reply = Acked | Rejected(msg: string) | Backpressure | Failed(error: string, applied: bool)

  /** An arbitrary server: its answer to the n-th request of the run, for this chunk. */
  type Server = (nat, seq<string>) -> Reply

  datatype Result = Ok(poison: seq<string>) | Err(error: string)

  /** What finally became of a stretch of the batch. */
  datatype Verdict = Shipped(lo: nat, hi: nat) | Refused(i: nat)

  /** The verdicts cover lines 0 to `n`, each line exactly once and in order. */
  ghost predicate Tiles(log: seq<Verdict>, n: nat) {
    if log == [] then n == 0
    else
      var (rest, last) := (log[..|log| - 1], log[|log| - 1]);
      match last
      case Shipped(lo, hi) => lo < hi == n && Tiles(rest, lo)
      case Refused(i) => i + 1 == n && Tiles(rest, i)
  }

  ghost predicate EmptyBody(chunk: seq<string>) {
    Lines.Concat(chunk) == []
  }

  /** The verdict rests on an answer of the server to exactly that chunk. */
  ghost predicate Backed(server: Server, lines: seq<string>, v: Verdict, start: nat, clock: nat) {
    match v
    case Shipped(lo, hi) =>
      && lo <= hi <= |lines|
      && (EmptyBody(lines[lo..hi]) || exists n :: start <= n < clock && server(n, lines[lo..hi]).Acked?)
    case Refused(i) =>
      i < |lines| && exists n :: start <= n < clock && server(n, [lines[i]]).Rejected?
  }

  ghost predicate Justified(server: Server, lines: seq<string>, log: seq<Verdict>, start: nat, clock: nat) {
    forall k :: 0 <= k < |log| ==> Backed(server, lines, log[k], start, clock)
  }

  /** The refused lines, in order. */
  function PoisonOf(lines: seq<string>, log: seq<Verdict>): seq<string> {
    if log == [] then []
    else
      var (rest, last) := (PoisonOf(lines, log[..|log| - 1]), log[|log| - 1]);
      if last.Refused? && last.i < |lines| then rest + [lines[last.i]] else rest
  }

  /** The acknowledged lines, in order. */
  function ShippedOf(lines: seq<string>, log: seq<Verdict>): seq<string> {
    if log == [] then []
    else
      var (rest, last) := (ShippedOf(lines, log[..|log| - 1]), log[|log| - 1]);
      if last.Shipped? && last.lo <= last.hi <= |lines| then rest + lines[last.lo..last.hi] else rest
  }

  /** The server turned this line down, alone, in one of the first `clock` requests. */
  ghost predicate RefusedAlone(server: Server, line: string, clock: nat) {
    exists n :: 0 <= n < clock && Turned(server, n, line)
  }

  lemma RefusedStill(server: Server, line: string, clock: nat, later: nat)
    requires RefusedAlone(server, line, clock) && clock <= later
    ensures RefusedAlone(server, line, later)
  {
    var n :| 0 <= n < clock && Turned(server, n, line);
    assert n < later;
  }

  predicate Turned(server: Server, n: nat, line: string) {
    server(n, [line]).Rejected?
  }

  /** What is called poison is what the server itself turned down. */
  lemma {:induction false} PoisonIsRefused(server: Server, lines: seq<string>, log: seq<Verdict>,
                                           start: nat, clock: nat)
    requires Justified(server, lines, log, start, clock)
    ensures forall p :: p in PoisonOf(lines, log) ==> RefusedAlone(server, p, clock)
  {
    if log != [] {
      var n := |log| - 1;
      PoisonIsRefused(server, lines, log[..n], start, clock);
      assert Backed(server, lines, log[n], start, clock);
      if log[n].Refused? && log[n].i < |lines| {
        var k :| start <= k < clock && server(k, [lines[log[n].i]]).Rejected?;
        assert Turned(server, k, lines[log[n].i]);
      }
    }
  }

  /** A tiling splits the batch: no line is lost, repeated, or on both sides. */
  lemma {:induction false} TilesPartition(lines: seq<string>, log: seq<Verdict>, n: nat)
    requires Tiles(log, n) && n <= |lines|
    ensures multiset(lines[..n]) == multiset(ShippedOf(lines, log)) + multiset(PoisonOf(lines, log))
  {
    if log != [] {
      var (rest, last) := (log[..|log| - 1], log[|log| - 1]);
      var m := if last.Shipped? then last.lo else last.i;
      assert Tiles(rest, m) && m < n && (last.Shipped? ==> last.hi == n) && (last.Refused? ==> m + 1 == n);
      hide Tiles;
      TilesPartition(lines, rest, m);
      TilesLast(lines, rest, last, m, n);
      assert log == rest + [last];
    }
  }

  lemma TilesLast(lines: seq<string>, rest: seq<Verdict>, last: Verdict, m: nat, n: nat)
    requires m < n <= |lines| && (last == Shipped(m, n) || (last == Refused(m) && n == m + 1))
    requires multiset(lines[..m]) == multiset(ShippedOf(lines, rest)) + multiset(PoisonOf(lines, rest))
    ensures multiset(lines[..n]) == multiset(ShippedOf(lines, rest + [last])) + multiset(PoisonOf(lines, rest + [last]))
  {
    LogStep(lines, rest, last);
    hide PoisonOf, ShippedOf;
    assert lines[..n] == lines[..m] + lines[m..n];
    Rejoin(lines[..n], lines[..m], lines[m..n], ShippedOf(lines, rest), PoisonOf(lines, rest));
    assert last.Refused? ==> lines[m..n] == [lines[m]];
  }

  lemma Rejoin(all: seq<string>, before: seq<string>, last: seq<string>, shipped: seq<string>, poison: seq<string>)
    requires all == before + last && multiset(before) == multiset(shipped) + multiset(poison)
    ensures multiset(all) == multiset(shipped + last) + multiset(poison)
    ensures multiset(all) == multiset(shipped) + multiset(poison + last)
  {
  }

  // ---- The stack ----

  /** Top of stack first, the stacked chunks are consecutive and cover `from` to `n`. */
  ghost predicate Stacked(stack: seq<(nat, nat)>, from: nat, n: nat) {
    if stack == [] then from == n
    else
      var top := stack[|stack| - 1];
      top.0 == from && top.0 <= top.1 && Stacked(stack[..|stack| - 1], top.1, n)
  }

  lemma {:induction false} StackedBelow(stack: seq<(nat, nat)>, from: nat, n: nat)
    requires Stacked(stack, from, n)
    ensures from <= n
  {
    if stack != [] {
      StackedBelow(stack[..|stack| - 1], stack[|stack| - 1].1, n);
    }
  }

  lemma StackedSplit(rest: seq<(nat, nat)>, lo: nat, mid: nat, hi: nat, n: nat)
    requires Stacked(rest, hi, n) && lo <= mid <= hi
    ensures Stacked(rest + [(mid, hi)] + [(lo, mid)], lo, n)
  {
    var s := rest + [(mid, hi)];
    assert s[..|s| - 1] == rest;
    assert (s + [(lo, mid)])[..|s|] == s;
  }

  /** How much work the stack still stands for. */
  function Weight(stack: seq<(nat, nat)>): nat {
    if stack == [] then 0
    else Weight(stack[..|stack| - 1]) + WeightOf(stack[|stack| - 1])
  }

  function WeightOf(c: (nat, nat)): nat {
    if c.1 <= c.0 then 1 else 2 * (c.1 - c.0) - 1
  }

  lemma WeightPush(stack: seq<(nat, nat)>, c: (nat, nat))
    ensures Weight(stack + [c]) == Weight(stack) + WeightOf(c)
  {
    assert (stack + [c])[..|stack|] == stack;
  }

  // ---- The cost when the server rejects exactly the chunks with a bad line ----

  ghost predicate HasBad(chunk: seq<string>, bad: string -> bool) {
    exists k :: 0 <= k < |chunk| && bad(chunk[k])
  }

  ghost predicate RejectsExactly(server: Server, bad: string -> bool) {
    forall n, chunk :: server(n, chunk).Acked? <==> !HasBad(chunk, bad)
  }

  ghost predicate OnlyVerdicts(server: Server) {
    forall n, chunk :: server(n, chunk).Acked? || server(n, chunk).Rejected?
  }

  function Bad(lines: seq<string>, bad: string -> bool): seq<string> {
    if lines == [] then []
    else Bad(lines[..|lines| - 1], bad) + if bad(lines[|lines| - 1]) then [lines[|lines| - 1]] else []
  }

  /** How many chunks are halved. */
  ghost function Halvings(chunk: seq<string>, bad: string -> bool): nat
    decreases |chunk|
  {
    if |chunk| <= 1 || !HasBad(chunk, bad) then 0
    else 1 + Halvings(chunk[..|chunk| / 2], bad) + Halvings(chunk[|chunk| / 2..], bad)
  }

  function CeilLog2(n: nat): nat {
    if n <= 1 then 0 else 1 + CeilLog2((n + 1) / 2)
  }

  lemma {:induction false} CeilLog2Grows(m: nat, n: nat)
    requires m <= n
    ensures CeilLog2(m) <= CeilLog2(n)
    decreases n
  {
    if m > 1 { CeilLog2Grows((m + 1) / 2, (n + 1) / 2); }
  }

  lemma {:induction false} BadConcat(a: seq<string>, b: seq<string>, bad: string -> bool)
    ensures Bad(a + b, bad) == Bad(a, bad) + Bad(b, bad)
  {
    if b == [] {
      assert a + b == a;
    } else {
      var n := |b| - 1;
      BadConcat(a, b[..n], bad);
      assert (a + b)[..|a + b| - 1] == a + b[..n];
    }
  }

  lemma {:induction false} HasBadCounts(chunk: seq<string>, bad: string -> bool)
    ensures HasBad(chunk, bad) <==> Bad(chunk, bad) != []
  {
    if chunk != [] {
      var n := |chunk| - 1;
      HasBadCounts(chunk[..n], bad);
      if HasBad(chunk[..n], bad) {
        var k :| 0 <= k < n && bad(chunk[..n][k]);
        assert bad(chunk[k]);
      }
      if HasBad(chunk, bad) && !bad(chunk[n]) {
        var k :| 0 <= k < |chunk| && bad(chunk[k]);
        assert bad(chunk[..n][k]);
      }
    }
  }

  lemma CostStep(p: nat, q: nat, x: nat, y: nat, b: nat, c: nat)
    requires p + q >= 1 && b <= c && x <= Product(p, b) && y <= Product(q, c)
    ensures 1 + x + y <= Product(p + q, c + 1)
  {
    ProductGrows(p, b, c);
    assert Product(p + q, c + 1) == Product(p, c) + Product(q, c) + (p + q);
  }

  lemma ProductGrows(p: nat, b: nat, c: nat)
    requires b <= c
    ensures Product(p, b) <= Product(p, c)
  {
    assert p * c == p * b + p * (c - b);
  }

  function Product(a: nat, b: nat): nat {
    a * b
  }

  /** At most p * ceil(log2 n) halvings for p bad lines out of n. */
  lemma {:induction false} HalvingsBound(chunk: seq<string>, bad: string -> bool)
    ensures Halvings(chunk, bad) <= Product(|Bad(chunk, bad)|, CeilLog2(|chunk|))
    decreases |chunk|
  {
    hide *;
    var m := |chunk| / 2;
    if |chunk| > 1 && HasBad(chunk, bad) {
      HalvingsBound(chunk[..m], bad);
      HalvingsBound(chunk[m..], bad);
      HalvingsFacts(chunk, bad);
      BadFacts(chunk, bad);
      LogFacts(|chunk|);
      CostStep(|Bad(chunk[..m], bad)|, |Bad(chunk[m..], bad)|, Halvings(chunk[..m], bad), Halvings(chunk[m..], bad),
               CeilLog2(m), CeilLog2(|chunk| - m));
    } else {
      NoHalvings(chunk, bad);
    }
  }

  lemma NoHalvings(chunk: seq<string>, bad: string -> bool)
    requires |chunk| <= 1 || !HasBad(chunk, bad)
    ensures Halvings(chunk, bad) == 0
  {
  }

  lemma HalvingsFacts(chunk: seq<string>, bad: string -> bool)
    requires |chunk| > 1 && HasBad(chunk, bad)
    ensures var m := |chunk| / 2; Halvings(chunk, bad) == 1 + Halvings(chunk[..m], bad) + Halvings(chunk[m..], bad)
  {
  }

  lemma BadFacts(chunk: seq<string>, bad: string -> bool)
    requires HasBad(chunk, bad)
    ensures var m := |chunk| / 2; 1 <= |Bad(chunk, bad)| == |Bad(chunk[..m], bad)| + |Bad(chunk[m..], bad)|
  {
    var m := |chunk| / 2;
    HasBadCounts(chunk, bad);
    BadConcat(chunk[..m], chunk[m..], bad);
    assert chunk == chunk[..m] + chunk[m..];
  }

  lemma LogFacts(n: nat)
    requires n > 1
    ensures var m := n / 2; CeilLog2(m) <= CeilLog2(n - m) && CeilLog2(n) == 1 + CeilLog2(n - m)
  {
    assert (n + 1) / 2 == n - n / 2;
    CeilLog2Grows(n / 2, n - n / 2);
  }

  /** The halvings the stacked chunks still cost, and the requests. */
  ghost function Ahead(lines: seq<string>, stack: seq<(nat, nat)>, bad: string -> bool): (int, int)
  {
    if stack == [] then (0, 0)
    else
      var (top, rest) := (stack[|stack| - 1], Ahead(lines, stack[..|stack| - 1], bad));
      if top.0 <= top.1 <= |lines| then
        var h := Halvings(lines[top.0..top.1], bad);
        (rest.0 + h, rest.1 + if top.0 == top.1 then 0 else 2 * h + 1)
      else rest
  }

  lemma AheadPush(lines: seq<string>, stack: seq<(nat, nat)>, c: (nat, nat), bad: string -> bool)
    requires c.0 <= c.1 <= |lines|
    ensures var (a, b, h) := (Ahead(lines, stack, bad), Ahead(lines, stack + [c], bad), Halvings(lines[c.0..c.1], bad));
            b.0 == a.0 + h && b.1 == a.1 + if c.0 == c.1 then 0 else 2 * h + 1
  {
    assert (stack + [c])[..|stack|] == stack;
  }

  /** Halving one rejected chunk moves one halving and one request from ahead to behind. */
  lemma AheadSplit(lines: seq<string>, rest: seq<(nat, nat)>, lo: nat, hi: nat, bad: string -> bool)
    requires lo + 1 < hi <= |lines| && HasBad(lines[lo..hi], bad)
    ensures var mid := lo + (hi - lo) / 2;
            var (a, b) := (Ahead(lines, rest + [(lo, hi)], bad), Ahead(lines, rest + [(mid, hi)] + [(lo, mid)], bad));
            b.0 == a.0 - 1 && b.1 == a.1 - 1
  {
    var mid := lo + (hi - lo) / 2;
    HalvingsSplit(lines, lo, hi, bad);
    hide Halvings, Ahead, HasBad;
    AheadPush(lines, rest, (lo, hi), bad);
    AheadPush(lines, rest, (mid, hi), bad);
    AheadPush(lines, rest + [(mid, hi)], (lo, mid), bad);
  }

  lemma HalvingsSplit(lines: seq<string>, lo: nat, hi: nat, bad: string -> bool)
    requires lo + 1 < hi <= |lines| && HasBad(lines[lo..hi], bad)
    ensures var mid := lo + (hi - lo) / 2;
            Halvings(lines[lo..hi], bad) == 1 + Halvings(lines[lo..mid], bad) + Halvings(lines[mid..hi], bad)
  {
    var (mid, chunk) := (lo + (hi - lo) / 2, lines[lo..hi]);
    assert chunk[..|chunk| / 2] == lines[lo..mid] && chunk[|chunk| / 2..] == lines[mid..hi];
  }

  // ---- The loop ----

  /** What the loop has settled (`log` tiles the lines before `f`) and what is stacked. */
  ghost predicate Settled(server: Server, lines: seq<string>, start: nat, clock: nat,
                          stack: seq<(nat, nat)>, log: seq<Verdict>, f: nat) {
    f <= |lines| && start <= clock && Tiles(log, f) && Stacked(stack, f, |lines|)
    && Justified(server, lines, log, start, clock)
  }

  /** Against a server that rejects exactly the chunks with a bad line, the accounts of
      halvings and requests so far. */
  ghost predicate OnBudget(lines: seq<string>, bad: string -> bool, asked: nat, bisects: nat,
                           stack: seq<(nat, nat)>, log: seq<Verdict>, f: nat)
  {
    f <= |lines| && PoisonOf(lines, log) == Bad(lines[..f], bad)
    && bisects + Ahead(lines, stack, bad).0 == Halvings(lines, bad)
    && asked + Ahead(lines, stack, bad).1 == if lines == [] then 0 else 2 * Halvings(lines, bad) + 1
  }

  lemma {:induction false} NonEmptyBody(lines: seq<string>, lo: nat, hi: nat)
    requires lo < hi <= |lines| && (forall k :: 0 <= k < |lines| ==> lines[k] != [])
    ensures !EmptyBody(lines[lo..hi])
  {
    assert lines[lo..hi][0] == lines[lo];
  }

  lemma JustifiedLonger(server: Server, lines: seq<string>, log: seq<Verdict>, start: nat, clock: nat, later: nat)
    requires Justified(server, lines, log, start, clock) && clock <= later
    ensures Justified(server, lines, log, start, later)
  {
    forall k | 0 <= k < |log| ensures Backed(server, lines, log[k], start, later) {
      assert Backed(server, lines, log[k], start, clock);
    }
  }

  lemma PopChunk(server: Server, lines: seq<string>, start: nat, clock: nat, stack: seq<(nat, nat)>,
                 log: seq<Verdict>, f: nat)
    requires Settled(server, lines, start, clock, stack, log, f) && stack != []
    ensures var top := stack[|stack| - 1];
            top.0 == f <= top.1 <= |lines| && Stacked(stack[..|stack| - 1], top.1, |lines|)
    ensures start <= clock && Tiles(log, f) && Justified(server, lines, log, start, clock)
    ensures WeightOf(stack[|stack| - 1]) >= 1
    ensures Weight(stack) == Weight(stack[..|stack| - 1]) + WeightOf(stack[|stack| - 1])
  {
    StackedBelow(stack[..|stack| - 1], stack[|stack| - 1].1, |lines|);
  }

  lemma ShipStep(server: Server, lines: seq<string>, start: nat, clock: nat, later: nat,
                 rest: seq<(nat, nat)>, log: seq<Verdict>, lo: nat, hi: nat)
    requires lo < hi <= |lines| && start <= clock <= later && Tiles(log, lo) && Stacked(rest, hi, |lines|)
    requires Justified(server, lines, log, start, clock)
    requires EmptyBody(lines[lo..hi]) || (clock < later && server(clock, lines[lo..hi]).Acked?)
    ensures Settled(server, lines, start, later, rest, log + [Shipped(lo, hi)], hi)
  {
    var log' := log + [Shipped(lo, hi)];
    assert log'[..|log|] == log;
    JustifiedLonger(server, lines, log, start, clock, later);
    assert Backed(server, lines, Shipped(lo, hi), start, later);
  }

  lemma RefuseStep(server: Server, lines: seq<string>, start: nat, clock: nat,
                   rest: seq<(nat, nat)>, log: seq<Verdict>, lo: nat)
    requires lo < |lines| && start <= clock && Tiles(log, lo) && Stacked(rest, lo + 1, |lines|)
    requires Justified(server, lines, log, start, clock) && server(clock, [lines[lo]]).Rejected?
    ensures Settled(server, lines, start, clock + 1, rest, log + [Refused(lo)], lo + 1)
  {
    var log' := log + [Refused(lo)];
    assert log'[..|log|] == log;
    JustifiedLonger(server, lines, log, start, clock, clock + 1);
    assert Backed(server, lines, Refused(lo), start, clock + 1);
  }

  lemma LogStep(lines: seq<string>, log: seq<Verdict>, v: Verdict)
    ensures PoisonOf(lines, log + [v])
            == PoisonOf(lines, log) + if v.Refused? && v.i < |lines| then [lines[v.i]] else []
    ensures ShippedOf(lines, log + [v])
            == ShippedOf(lines, log) + if v.Shipped? && v.lo <= v.hi <= |lines| then lines[v.lo..v.hi] else []
  {
    assert (log + [v])[..|log|] == log;
  }

  lemma BadStretch(lines: seq<string>, lo: nat, hi: nat, bad: string -> bool)
    requires lo <= hi <= |lines|
    ensures Bad(lines[..hi], bad) == Bad(lines[..lo], bad) + Bad(lines[lo..hi], bad)
  {
    assert lines[..hi] == lines[..lo] + lines[lo..hi];
    BadConcat(lines[..lo], lines[lo..hi], bad);
  }

  /** The accounts after an acknowledged chunk... */
  lemma ShipBudget(lines: seq<string>, bad: string -> bool, asked: nat, bisects: nat,
                   rest: seq<(nat, nat)>, log: seq<Verdict>, lo: nat, hi: nat)
    requires lo < hi <= |lines| && OnBudget(lines, bad, asked, bisects, rest + [(lo, hi)], log, lo)
    requires !HasBad(lines[lo..hi], bad)
    ensures OnBudget(lines, bad, asked + 1, bisects, rest, log + [Shipped(lo, hi)], hi)
  {
    LogStep(lines, log, Shipped(lo, hi));
    BadStretch(lines, lo, hi, bad);
    HasBadCounts(lines[lo..hi], bad);
    assert Halvings(lines[lo..hi], bad) == 0;
    hide Halvings, Ahead, HasBad, PoisonOf, Bad;
    AheadPush(lines, rest, (lo, hi), bad);
  }

  /** ...after a refused line... */
  lemma RefuseBudget(lines: seq<string>, bad: string -> bool, asked: nat, bisects: nat,
                     rest: seq<(nat, nat)>, log: seq<Verdict>, lo: nat)
    requires lo < |lines| && OnBudget(lines, bad, asked, bisects, rest + [(lo, lo + 1)], log, lo)
    requires HasBad(lines[lo..lo + 1], bad)
    ensures OnBudget(lines, bad, asked + 1, bisects, rest, log + [Refused(lo)], lo + 1)
  {
    hide Halvings, Ahead, HasBad, PoisonOf, Bad;
    assert lines[lo..lo + 1] == [lines[lo]];
    OneBad(lines[lo], bad);
    LogStep(lines, log, Refused(lo));
    BadStretch(lines, lo, lo + 1, bad);
    AheadPush(lines, rest, (lo, lo + 1), bad);
  }

  lemma OneBad(line: string, bad: string -> bool)
    ensures HasBad([line], bad) ==> Bad([line], bad) == [line]
    ensures Halvings([line], bad) == 0
  {
    assert [line][..0] == [];
  }

  /** ...and after a chunk was halved. */
  lemma SplitBudget(lines: seq<string>, bad: string -> bool, asked: nat, bisects: nat,
                    rest: seq<(nat, nat)>, log: seq<Verdict>, lo: nat, hi: nat)
    requires lo + 1 < hi <= |lines| && OnBudget(lines, bad, asked, bisects, rest + [(lo, hi)], log, lo)
    requires HasBad(lines[lo..hi], bad)
    ensures var mid := lo + (hi - lo) / 2;
            OnBudget(lines, bad, asked + 1, bisects + 1, rest + [(mid, hi)] + [(lo, mid)], log, lo)
  {
    AheadSplit(lines, rest, lo, hi, bad);
  }

  /** The server answers every request, rejecting exactly the chunks that hold a bad line;
      and no line is empty, so every chunk is a request. */
  ghost predicate Exact(server: Server, bad: string -> bool, lines: seq<string>) {
    OnlyVerdicts(server) && RejectsExactly(server, bad) && forall k :: 0 <= k < |lines| ==> lines[k] != []
  }

  lemma ExactReply(server: Server, bad: string -> bool, lines: seq<string>, n: nat, lo: nat, hi: nat)
    requires Exact(server, bad, lines) && lo < hi <= |lines|
    ensures !EmptyBody(lines[lo..hi])
    ensures server(n, lines[lo..hi]).Acked? <==> !HasBad(lines[lo..hi], bad)
    ensures server(n, lines[lo..hi]).Acked? || server(n, lines[lo..hi]).Rejected?
  {
    NonEmptyBody(lines, lo, hi);
  }

  lemma Opening(server: Server, lines: seq<string>, clock: nat, bad: string -> bool)
    ensures Settled(server, lines, clock, clock, [(0, |lines|)], [], 0)
    ensures OnBudget(lines, bad, 0, 0, [(0, |lines|)], [], 0)
    ensures PoisonOf(lines, []) == []
  {
    var top: (nat, nat) := (0, |lines|);
    assert [top][..0] == [];
    AheadPush(lines, [], top, bad);
    assert [] + [top] == [top] && lines[0..|lines|] == lines;
  }

  lemma SplitSettled(server: Server, lines: seq<string>, start: nat, clock: nat,
                     rest: seq<(nat, nat)>, log: seq<Verdict>, lo: nat, hi: nat)
    requires lo + 1 < hi <= |lines| && start <= clock && Tiles(log, lo) && Stacked(rest, hi, |lines|)
    requires Justified(server, lines, log, start, clock)
    ensures var mid := lo + (hi - lo) / 2; var stack := rest + [(mid, hi)] + [(lo, mid)];
            Settled(server, lines, start, clock + 1, stack, log, lo)
            && Weight(stack) < Weight(rest + [(lo, hi)])
  {
    var mid := lo + (hi - lo) / 2;
    StackedSplit(rest, lo, mid, hi, |lines|);
    JustifiedLonger(server, lines, log, start, clock, clock + 1);
    WeightPush(rest, (lo, hi));
    WeightPush(rest, (mid, hi));
    WeightPush(rest + [(mid, hi)], (lo, mid));
  }

  lemma Closing(server: Server, lines: seq<string>, start: nat, clock: nat, log: seq<Verdict>, f: nat)
    requires Settled(server, lines, start, clock, [], log, f)
    ensures Tiles(log, |lines|) && f == |lines| && Justified(server, lines, log, start, clock)
  {
  }

  lemma ClosingBudget(lines: seq<string>, bad: string -> bool, asked: nat, bisects: nat, log: seq<Verdict>)
    requires OnBudget(lines, bad, asked, bisects, [], log, |lines|)
    ensures PoisonOf(lines, log) == Bad(lines, bad) && bisects == Halvings(lines, bad)
    ensures lines != [] ==> asked == 2 * bisects + 1
  {
    assert lines[..|lines|] == lines;
  }

  /** The loop's invariant. */
  ghost predicate Going(server: Server, lines: seq<string>, bad: string -> bool, start: nat, clock: nat,
                        bisects: nat, stack: seq<(nat, nat)>, log: seq<Verdict>, poison: seq<string>) {
    var f := |lines| - Left(stack);
    && f >= 0 && Settled(server, lines, start, clock, stack, log, f) && poison == PoisonOf(lines, log)
    && (Exact(server, bad, lines) ==> OnBudget(lines, bad, clock - start, bisects, stack, log, f))
  }

  /** How many lines the stack still holds. */
  function Left(stack: seq<(nat, nat)>): int {
    if stack == [] then 0
    else Left(stack[..|stack| - 1]) + stack[|stack| - 1].1 - stack[|stack| - 1].0
  }

  lemma {:induction false} LeftIsRest(stack: seq<(nat, nat)>, from: nat, n: nat)
    requires Stacked(stack, from, n)
    ensures Left(stack) == n - from
  {
    if stack != [] { LeftIsRest(stack[..|stack| - 1], stack[|stack| - 1].1, n); }
  }

  lemma Goes(server: Server, lines: seq<string>, bad: string -> bool, start: nat, clock: nat,
             bisects: nat, stack: seq<(nat, nat)>, log: seq<Verdict>, poison: seq<string>, f: nat)
    requires Settled(server, lines, start, clock, stack, log, f) && poison == PoisonOf(lines, log)
    requires Exact(server, bad, lines) ==> OnBudget(lines, bad, clock - start, bisects, stack, log, f)
    ensures Going(server, lines, bad, start, clock, bisects, stack, log, poison)
  {
    LeftIsRest(stack, f, |lines|);
  }

  /** What is known when the top chunk has been popped. */
  lemma Popped(server: Server, lines: seq<string>, bad: string -> bool, start: nat, clock: nat,
               bisects: nat, rest: seq<(nat, nat)>, lo: nat, hi: nat, log: seq<Verdict>, poison: seq<string>)
    requires Going(server, lines, bad, start, clock, bisects, rest + [(lo, hi)], log, poison)
    ensures lo <= hi <= |lines| && start <= clock && Tiles(log, lo) && Stacked(rest, hi, |lines|)
    ensures Justified(server, lines, log, start, clock) && poison == PoisonOf(lines, log)
    ensures Settled(server, lines, start, clock, rest + [(lo, hi)], log, lo)
    ensures Exact(server, bad, lines) ==> OnBudget(lines, bad, clock - start, bisects, rest + [(lo, hi)], log, lo)
    ensures Weight(rest) < Weight(rest + [(lo, hi)])
  {
    var stack := rest + [(lo, hi)];
    assert stack[..|stack| - 1] == rest;
    PopChunk(server, lines, start, clock, stack, log, |lines| - Left(stack));
  }

  lemma EmptyBranch(server: Server, lines: seq<string>, bad: string -> bool, start: nat, clock: nat,
                    bisects: nat, rest: seq<(nat, nat)>, lo: nat, log: seq<Verdict>, poison: seq<string>)
    requires Going(server, lines, bad, start, clock, bisects, rest + [(lo, lo)], log, poison)
    ensures Going(server, lines, bad, start, clock, bisects, rest, log, poison)
  {
    hide Settled, OnBudget, PoisonOf, Tiles, Stacked, Justified, Exact, Going;
    Popped(server, lines, bad, start, clock, bisects, rest, lo, lo, log, poison);
    EmptyStep(server, lines, start, clock, rest, log, lo, bad, clock - start, bisects);
    Goes(server, lines, bad, start, clock, bisects, rest, log, poison, lo);
  }

  lemma AckedBranch(server: Server, lines: seq<string>, bad: string -> bool, start: nat, clock: nat, later: nat,
                    bisects: nat, rest: seq<(nat, nat)>, lo: nat, hi: nat, log: seq<Verdict>, poison: seq<string>)
    requires Going(server, lines, bad, start, clock, bisects, rest + [(lo, hi)], log, poison)
    requires lo < hi <= |lines| && clock <= later <= clock + 1
    requires if later == clock then EmptyBody(lines[lo..hi]) else server(clock, lines[lo..hi]).Acked?
    ensures Going(server, lines, bad, start, later, bisects, rest, log + [Shipped(lo, hi)], poison)
  {
    hide Settled, OnBudget, PoisonOf, Tiles, Stacked, Justified, HasBad, Exact, Going, EmptyBody;
    Popped(server, lines, bad, start, clock, bisects, rest, lo, hi, log, poison);
    ShipStep(server, lines, start, clock, later, rest, log, lo, hi);
    LogStep(lines, log, Shipped(lo, hi));
    if Exact(server, bad, lines) {
      ExactReply(server, bad, lines, clock, lo, hi);
      ShipBudget(lines, bad, clock - start, bisects, rest, log, lo, hi);
    }
    Goes(server, lines, bad, start, later, bisects, rest, log + [Shipped(lo, hi)], poison, hi);
  }

  lemma RefusedBranch(server: Server, lines: seq<string>, bad: string -> bool, start: nat, clock: nat,
                      bisects: nat, rest: seq<(nat, nat)>, lo: nat, log: seq<Verdict>, poison: seq<string>)
    requires Going(server, lines, bad, start, clock, bisects, rest + [(lo, lo + 1)], log, poison)
    requires lo < |lines| && server(clock, lines[lo..lo + 1]).Rejected?
    ensures Going(server, lines, bad, start, clock + 1, bisects, rest, log + [Refused(lo)], poison + [lines[lo]])
  {
    hide Settled, OnBudget, PoisonOf, Tiles, Stacked, Justified, HasBad, Exact, Going;
    Popped(server, lines, bad, start, clock, bisects, rest, lo, lo + 1, log, poison);
    assert lines[lo..lo + 1] == [lines[lo]];
    RefuseStep(server, lines, start, clock, rest, log, lo);
    LogStep(lines, log, Refused(lo));
    if Exact(server, bad, lines) {
      ExactReply(server, bad, lines, clock, lo, lo + 1);
      RefuseBudget(lines, bad, clock - start, bisects, rest, log, lo);
    }
    Goes(server, lines, bad, start, clock + 1, bisects, rest, log + [Refused(lo)], poison + [lines[lo]], lo + 1);
  }

  lemma HalvedBranch(server: Server, lines: seq<string>, bad: string -> bool, start: nat, clock: nat,
                     bisects: nat, rest: seq<(nat, nat)>, lo: nat, hi: nat, log: seq<Verdict>, poison: seq<string>)
    requires Going(server, lines, bad, start, clock, bisects, rest + [(lo, hi)], log, poison)
    requires lo + 1 < hi <= |lines| && server(clock, lines[lo..hi]).Rejected?
    ensures var mid := lo + (hi - lo) / 2; var stack := rest + [(mid, hi)] + [(lo, mid)];
            Going(server, lines, bad, start, clock + 1, bisects + 1, stack, log, poison)
            && Weight(stack) < Weight(rest + [(lo, hi)])
  {
    hide Settled, OnBudget, PoisonOf, Tiles, Stacked, Justified, HasBad, Exact, Weight, Going;
    Popped(server, lines, bad, start, clock, bisects, rest, lo, hi, log, poison);
    SplitSettled(server, lines, start, clock, rest, log, lo, hi);
    if Exact(server, bad, lines) {
      ExactReply(server, bad, lines, clock, lo, hi);
      SplitBudget(lines, bad, clock - start, bisects, rest, log, lo, hi);
    }
    var mid := lo + (hi - lo) / 2;
    Goes(server, lines, bad, start, clock + 1, bisects + 1, rest + [(mid, hi)] + [(lo, mid)], log, poison, lo);
  }

  lemma WaitBranch(server: Server, lines: seq<string>, bad: string -> bool, start: nat, clock: nat,
                   bisects: nat, rest: seq<(nat, nat)>, lo: nat, hi: nat, log: seq<Verdict>, poison: seq<string>)
    requires Going(server, lines, bad, start, clock, bisects, rest + [(lo, hi)], log, poison)
    requires lo < hi <= |lines| && (server(clock, lines[lo..hi]).Backpressure? || server(clock, lines[lo..hi]).Failed?)
    ensures Going(server, lines, bad, start, clock + 1, bisects, rest + [(lo, hi)], log, poison)
    ensures Tiles(log, lo) && Justified(server, lines, log, start, clock + 1) && !Exact(server, bad, lines)
  {
    hide Settled, OnBudget, PoisonOf, Tiles, Stacked, Justified, HasBad, Going;
    Popped(server, lines, bad, start, clock, bisects, rest, lo, hi, log, poison);
    SettledLonger(server, lines, start, clock, clock + 1, rest + [(lo, hi)], log, lo);
    if Exact(server, bad, lines) {
      ExactNeverFails(server, bad, lines, clock, lines[lo..hi]);
    }
    Goes(server, lines, bad, start, clock + 1, bisects, rest + [(lo, hi)], log, poison, lo);
  }

  lemma Finished(server: Server, lines: seq<string>, bad: string -> bool, start: nat, clock: nat,
                 bisects: nat, log: seq<Verdict>, poison: seq<string>)
    requires Going(server, lines, bad, start, clock, bisects, [], log, poison)
    ensures start <= clock && Tiles(log, |lines|) && Justified(server, lines, log, start, clock)
    ensures poison == PoisonOf(lines, log)
    ensures Exact(server, bad, lines) ==>
              && poison == Bad(lines, bad) && bisects == Halvings(lines, bad)
              && bisects <= Product(|Bad(lines, bad)|, CeilLog2(|lines|))
              && (lines != [] ==> clock == start + 2 * bisects + 1)
  {
    Closing(server, lines, start, clock, log, |lines|);
    if Exact(server, bad, lines) { ClosingBudget(lines, bad, clock - start, bisects, log); }
    HalvingsBound(lines, bad);
  }

  /** A server that rejects exactly the bad chunks never fails otherwise. */
  lemma ExactNeverFails(server: Server, bad: string -> bool, lines: seq<string>, n: nat, chunk: seq<string>)
    requires Exact(server, bad, lines)
    ensures server(n, chunk).Acked? || server(n, chunk).Rejected?
  {
  }

  /** The stack without its top. */
  function Rest(stack: seq<(nat, nat)>): seq<(nat, nat)>
    requires stack != []
  {
    stack[..|stack| - 1]
  }

  function Top(stack: seq<(nat, nat)>): (nat, nat)
    requires stack != []
  {
    stack[|stack| - 1]
  }

  /** The top chunk, and what each answer to it does to the loop's invariant. */
  lemma TopChunk(server: Server, lines: seq<string>, bad: string -> bool, start: nat, clock: nat,
                 bisects: nat, stack: seq<(nat, nat)>, log: seq<Verdict>, poison: seq<string>)
    requires stack != [] && Going(server, lines, bad, start, clock, bisects, stack, log, poison)
    ensures var (lo, hi) := Top(stack);
            lo <= hi <= |lines| && start <= clock && Weight(Rest(stack)) < Weight(stack)
    ensures var (lo, hi) := Top(stack);
            lo == hi ==> Going(server, lines, bad, start, clock, bisects, Rest(stack), log, poison)
  {
    var ((lo, hi), rest) := (Top(stack), Rest(stack));
    assert stack == rest + [(lo, hi)];
    hide *;
    Popped(server, lines, bad, start, clock, bisects, rest, lo, hi, log, poison);
    if lo == hi {
      EmptyBranch(server, lines, bad, start, clock, bisects, rest, lo, log, poison);
    }
  }

  /** `send`: an empty body is answered without a request. */
  function Send(server: Server, n: nat, chunk: seq<string>): (Reply, nat) {
    if Lines.Concat(chunk) == [] then (Acked, n) else (server(n, chunk), n + 1)
  }

  lemma AckedTop(server: Server, lines: seq<string>, bad: string -> bool, start: nat, clock: nat,
                 bisects: nat, stack: seq<(nat, nat)>, lo: nat, hi: nat, log: seq<Verdict>, poison: seq<string>)
    requires stack != [] && Going(server, lines, bad, start, clock, bisects, stack, log, poison)
    requires Top(stack) == (lo, hi)
    requires lo < hi <= |lines| && Send(server, clock, lines[lo..hi]).0.Acked?
    ensures clock <= Send(server, clock, lines[lo..hi]).1
    ensures Going(server, lines, bad, start, Send(server, clock, lines[lo..hi]).1, bisects, Rest(stack),
                  log + [Shipped(lo, hi)], poison)
  {
    var (rest, later) := (Rest(stack), Send(server, clock, lines[lo..hi]).1);
    assert stack == rest + [(lo, hi)];
    assert if later == clock then EmptyBody(lines[lo..hi])
           else later == clock + 1 && server(clock, lines[lo..hi]).Acked?;
    hide *;
    AckedBranch(server, lines, bad, start, clock, later, bisects, rest, lo, hi, log, poison);
  }

  lemma RefusedTop(server: Server, lines: seq<string>, bad: string -> bool, start: nat, clock: nat,
                   bisects: nat, stack: seq<(nat, nat)>, lo: nat, hi: nat, log: seq<Verdict>, poison: seq<string>)
    requires stack != [] && Going(server, lines, bad, start, clock, bisects, stack, log, poison)
    requires Top(stack) == (lo, hi)
    requires lo + 1 == hi <= |lines| && Send(server, clock, lines[lo..hi]).0.Rejected?
    ensures Send(server, clock, lines[lo..hi]).1 == clock + 1
    ensures Going(server, lines, bad, start, clock + 1, bisects, Rest(stack), log + [Refused(lo)], poison + [lines[lo]])
  {
    var rest := Rest(stack);
    assert stack == rest + [(lo, hi)];
    assert Send(server, clock, lines[lo..hi]) == (server(clock, lines[lo..hi]), clock + 1);
    hide *;
    RefusedBranch(server, lines, bad, start, clock, bisects, rest, lo, log, poison);
  }

  lemma HalvedTop(server: Server, lines: seq<string>, bad: string -> bool, start: nat, clock: nat,
                  bisects: nat, stack: seq<(nat, nat)>, lo: nat, hi: nat, log: seq<Verdict>, poison: seq<string>)
    requires stack != [] && Going(server, lines, bad, start, clock, bisects, stack, log, poison)
    requires Top(stack) == (lo, hi)
    requires lo + 1 < hi <= |lines| && Send(server, clock, lines[lo..hi]).0.Rejected?
    ensures Send(server, clock, lines[lo..hi]).1 == clock + 1
    ensures var mid := lo + (hi - lo) / 2;
            var halved := Rest(stack) + [(mid, hi)] + [(lo, mid)];
            && Going(server, lines, bad, start, clock + 1, bisects + 1, halved, log, poison)
            && Weight(halved) < Weight(stack)
  {
    var rest := Rest(stack);
    assert stack == rest + [(lo, hi)];
    assert Send(server, clock, lines[lo..hi]) == (server(clock, lines[lo..hi]), clock + 1);
    hide *;
    HalvedBranch(server, lines, bad, start, clock, bisects, rest, lo, hi, log, poison);
  }

  lemma WaitTop(server: Server, lines: seq<string>, bad: string -> bool, start: nat, clock: nat,
                bisects: nat, stack: seq<(nat, nat)>, lo: nat, hi: nat, log: seq<Verdict>, poison: seq<string>)
    requires stack != [] && Going(server, lines, bad, start, clock, bisects, stack, log, poison)
    requires Top(stack) == (lo, hi)
    requires lo < hi <= |lines|
    requires Send(server, clock, lines[lo..hi]).0.Backpressure? || Send(server, clock, lines[lo..hi]).0.Failed?
    ensures Send(server, clock, lines[lo..hi]) == (server(clock, lines[lo..hi]), clock + 1)
    ensures Going(server, lines, bad, start, clock + 1, bisects, stack, log, poison)
    ensures Rest(stack) + [(lo, hi)] == stack
    ensures Tiles(log, lo) && Justified(server, lines, log, start, clock + 1) && !Exact(server, bad, lines)
  {
    var rest := Rest(stack);
    assert stack == rest + [(lo, hi)];
    assert Send(server, clock, lines[lo..hi]) == (server(clock, lines[lo..hi]), clock + 1);
    hide *;
    WaitBranch(server, lines, bad, start, clock, bisects, rest, lo, hi, log, poison);
  }

  lemma Started(server: Server, lines: seq<string>, bad: string -> bool, clock: nat)
    ensures Going(server, lines, bad, clock, clock, 0, [(0, |lines|)], [], [])
  {
    Opening(server, lines, clock, bad);
    Goes(server, lines, bad, clock, clock, 0, [(0, |lines|)], [], [], 0);
    hide *;
  }

  predicate FailedLast(server: Server, clock: nat, chunk: seq<string>) {
    clock > 0 && server(clock - 1, chunk).Failed?
  }

  /** The last request was for lines `lo` to `hi`, and it failed, perhaps after the server
      had carried it out. */
  ghost predicate GaveUp(server: Server, lines: seq<string>, clock: nat, lo: nat, hi: nat, error: string,
                         doubt: (nat, nat))
    requires lo <= hi <= |lines|
  {
    && clock > 0
    && var reply := server(clock - 1, lines[lo..hi]);
    && reply.Failed? && reply.error == error && doubt == if reply.applied then (lo, hi) else (0, 0)
  }

  lemma GivesUp(server: Server, lines: seq<string>, clock: nat, lo: nat, hi: nat)
    requires lo < hi <= |lines| && server(clock, lines[lo..hi]).Failed?
    ensures var reply := server(clock, lines[lo..hi]);
            GaveUp(server, lines, clock + 1, lo, hi, reply.error, if reply.applied then (lo, hi) else (0, 0))
  {
  }

  /** `send_lines`. `clock` counts requests; `quiet` is a request number from which the
      server asks for no more patience. Against any such server the call ends; if it ends
      well, `log` puts every line either in one acknowledged chunk or among the poison, on
      the server's own word; if it fails, everything before the failing chunk was settled
      the same way, and `doubt` spans that chunk if the server carried it out all the same.
      Against a server that rejects exactly the chunks holding a `bad` line it returns
      the bad lines in order, at 2 * bisects + 1 requests. */
  method SendLines(server: Server, lines: seq<string>, clock: nat, ghost quiet: nat, ghost bad: string -> bool)
    returns (r: Result, clock': nat, bisects: nat, ghost log: seq<Verdict>, ghost doubt: (nat, nat))
    requires forall n, chunk :: n >= quiet ==> !server(n, chunk).Backpressure?
    ensures clock <= clock' && Justified(server, lines, log, clock, clock')
    ensures r.Ok? ==> Tiles(log, |lines|) && r.poison == PoisonOf(lines, log)
    ensures r.Err? ==>
              exists f, hi :: 0 <= f < hi <= |lines| && Tiles(log, f)
                              && GaveUp(server, lines, clock', f, hi, r.error, doubt)
    ensures doubt.0 <= doubt.1 <= |lines| && (r.Ok? ==> doubt == (0, 0))
    ensures Exact(server, bad, lines) ==>
              && r == Ok(Bad(lines, bad)) && bisects == Halvings(lines, bad)
              && bisects <= Product(|Bad(lines, bad)|, CeilLog2(|lines|))
              && (lines != [] ==> clock' == clock + 2 * bisects + 1)
  {
    hide *;
    var stack: seq<(nat, nat)> := [(0, |lines|)];
    var poison: seq<string> := [];
    clock', bisects, log, doubt := clock, 0, [], (0, 0);
    Started(server, lines, bad, clock);
    while stack != []
      invariant Going(server, lines, bad, clock, clock', bisects, stack, log, poison)
      invariant clock <= clock' && doubt == (0, 0)
      decreases if clock' < quiet then quiet - clock' else 0, Weight(stack)
    {
      TopChunk(server, lines, bad, clock, clock', bisects, stack, log, poison);
      ghost var before := stack;
      var (lo, hi) := Top(stack);
      stack := Rest(stack);
      if lo == hi {
        continue;
      }
      var (reply, asked) := Send(server, clock', lines[lo..hi]);
      match reply {
        case Acked =>
          AckedTop(server, lines, bad, clock, clock', bisects, before, lo, hi, log, poison);
          log := log + [Shipped(lo, hi)];
        case Rejected(_) =>
          if hi - lo == 1 {
            RefusedTop(server, lines, bad, clock, clock', bisects, before, lo, hi, log, poison);
            poison := poison + [lines[lo]];
            log := log + [Refused(lo)];
          } else {
            HalvedTop(server, lines, bad, clock, clock', bisects, before, lo, hi, log, poison);
            var mid := lo + (hi - lo) / 2;
            bisects := bisects + 1;
            stack := stack + [(mid, hi)] + [(lo, mid)];
          }
        case Backpressure =>
          WaitTop(server, lines, bad, clock, clock', bisects, before, lo, hi, log, poison);
          stack := stack + [(lo, hi)];
        case Failed(error, applied) =>
          WaitTop(server, lines, bad, clock, clock', bisects, before, lo, hi, log, poison);
          doubt := if applied then (lo, hi) else (0, 0);
          GivesUp(server, lines, clock', lo, hi);
          return Err(error), asked, bisects, log, doubt;
      }
      clock' := asked;
    }
    Finished(server, lines, bad, clock, clock', bisects, log, poison);
    r := Ok(poison);
  }

  lemma SettledLonger(server: Server, lines: seq<string>, start: nat, clock: nat, later: nat,
                      stack: seq<(nat, nat)>, log: seq<Verdict>, f: nat)
    requires Settled(server, lines, start, clock, stack, log, f) && clock <= later
    ensures Settled(server, lines, start, later, stack, log, f) && Justified(server, lines, log, start, later)
  {
    JustifiedLonger(server, lines, log, start, clock, later);
  }

  lemma EmptyStep(server: Server, lines: seq<string>, start: nat, clock: nat, rest: seq<(nat, nat)>, log: seq<Verdict>,
                  lo: nat, bad: string -> bool, asked: nat, bisects: nat)
    requires Settled(server, lines, start, clock, rest + [(lo, lo)], log, lo) && Stacked(rest, lo, |lines|)
    ensures Settled(server, lines, start, clock, rest, log, lo)
    ensures OnBudget(lines, bad, asked, bisects, rest + [(lo, lo)], log, lo) ==>
              OnBudget(lines, bad, asked, bisects, rest, log, lo)
  {
    AheadPush(lines, rest, (lo, lo), bad);
  }
}
