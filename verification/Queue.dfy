/** The disk queue (queue.rs): one segment file per failed batch, adopted in name order by
    whichever process opens the directory next. */
module Queue {
  import opened Basics
  import Decimal

  // ---- The directory ----

  datatype FileName = FileName(stem: string, ext: string)

  type Dir = map<FileName, string>

  const WIDTH: nat := 12

  function SegName(n: nat): FileName {
    FileName(Decimal.Pad(n, WIDTH), "lp")
  }

  function TmpName(n: nat): FileName {
    FileName(Decimal.Pad(n, WIDTH), "tmp")
  }

  function Text(f: FileName): string {
    f.stem + "." + f.ext
  }

  predicate Before(a: FileName, b: FileName) {
    Decimal.Less(Text(a), Text(b))
  }

  predicate SortedNames(s: seq<FileName>) {
    forall i, j :: 0 <= i < j < |s| ==> Before(s[i], s[j])
  }

  /** The sorted directory listing of the segments. */
  ghost predicate IsListing(dir: Dir, s: seq<FileName>) {
    SortedNames(s) && (forall f :: f in s <==> f in dir && f.ext == "lp")
  }

  predicate Increasing(ids: seq<nat>) {
    forall i, j :: 0 <= i < j < |ids| ==> ids[i] < ids[j]
  }

  /** The directory's segments are exactly `ids`, holding `bodies` in that order. */
  ghost predicate Holds(dir: Dir, ids: seq<nat>, bodies: seq<string>) {
    && |ids| == |bodies| && Increasing(ids)
    && (forall k :: 0 <= k < |ids| ==> SegName(ids[k]) in dir && dir[SegName(ids[k])] == bodies[k])
    && (forall f :: f in dir && f.ext == "lp" ==> exists k :: 0 <= k < |ids| && f == SegName(ids[k]))
  }

  function Sum(bodies: seq<string>): nat {
    if bodies == [] then 0 else Sum(bodies[..|bodies| - 1]) + |bodies[|bodies| - 1]|
  }

  lemma NamesDiffer(m: nat, n: nat)
    ensures SegName(m) == SegName(n) <==> m == n
  {
    Decimal.PadValue(m, WIDTH);
    Decimal.PadValue(n, WIDTH);
  }

  // ---- Twelve digits sort as numbers, thirteen do not ----

  lemma NamesSort(m: nat, n: nat)
    requires m < Decimal.Pow10(WIDTH) && n < Decimal.Pow10(WIDTH)
    ensures Before(SegName(m), SegName(n)) <==> m < n
  {
    var (a, b) := (Decimal.Pad(m, WIDTH), Decimal.Pad(n, WIDTH));
    Decimal.PadSorts(m, n, WIDTH);
    Decimal.PadWidth(m, WIDTH);
    Decimal.PadWidth(n, WIDTH);
    assert Text(SegName(m)) == a + ".lp" && Text(SegName(n)) == b + ".lp";
    if m != n {
      NamesDiffer(m, n);
      hide Decimal.Pad, Decimal.Pow10;
      Decimal.LessBeforeSuffix(a, b, ".lp", ".lp");
    } else {
      Decimal.LessIsTotal(a + ".lp", a + ".lp");
    }
  }

  /** Past 10^12 a name grows a digit and the order breaks: a twelve-digit segment sorts
      before a thirteen-digit one just when it is at most that one's first twelve digits. */
  lemma WideNameSorts(m: nat, n: nat)
    requires m < Decimal.Pow10(WIDTH) <= n < Decimal.Pow10(WIDTH + 1)
    ensures Before(SegName(m), SegName(n)) <==> m <= n / 10
  {
    var (a, b, d) := (Decimal.Pad(m, WIDTH), Decimal.Pad(n / 10, WIDTH), Decimal.Digit(n % 10));
    WideName(n);
    Decimal.PadWidth(m, WIDTH);
    Decimal.PadWidth(n / 10, WIDTH);
    assert Text(SegName(m)) == a + ".lp";
    assert Text(SegName(n)) == b + [d] + ".lp" == b + ([d] + ".lp");
    Decimal.PadSorts(m, n / 10, WIDTH);
    if m == n / 10 {
      hide Decimal.Pad, Decimal.Pow10;
      Decimal.LessAfterPrefix(a, ".lp", [d] + ".lp");
      assert ([d] + ".lp")[0] == d && ".lp"[0] < d;
    } else {
      NamesDiffer(m, n / 10);
      hide Decimal.Pad, Decimal.Pow10;
      Decimal.LessBeforeSuffix(a, b, ".lp", [d] + ".lp");
    }
  }

  lemma WideName(n: nat)
    requires Decimal.Pow10(WIDTH) <= n < Decimal.Pow10(WIDTH + 1)
    ensures Decimal.Pad(n, WIDTH) == Decimal.Pad(n / 10, WIDTH) + [Decimal.Digit(n % 10)]
    ensures n / 10 < Decimal.Pow10(WIDTH)
  {
    assert Decimal.Pow10(WIDTH + 1) == 10 * Decimal.Pow10(WIDTH);
    assert Decimal.Pow10(WIDTH) == 10 * Decimal.Pow10(WIDTH - 1) && Decimal.Pow10(WIDTH - 1) >= 1;
    Decimal.DigitsWidth(n, WIDTH);
    Decimal.DigitsWidth(n, WIDTH + 1);
    Decimal.DigitsWidth(n / 10, WIDTH);
    Decimal.DigitsWidth(n / 10, WIDTH - 1);
  }

  // ---- A sorted listing is determined by its members ----

  lemma FirstIsLeast(s: seq<FileName>, f: FileName)
    requires SortedNames(s) && f in s
    ensures f == s[0] || Before(s[0], f)
  {
  }

  lemma Member(s: seq<FileName>) returns (f: FileName)
    requires s != []
    ensures f in s
  {
    f := s[0];
  }

  lemma {:induction false} SortedUnique(a: seq<FileName>, b: seq<FileName>)
    requires SortedNames(a) && SortedNames(b) && (forall f :: f in a <==> f in b)
    ensures a == b
  {
    if a == [] {
      if b != [] { var f := Member(b); }
    } else {
      assert a[0] in a;
      assert b != [] by { assert a[0] in b; }
      assert b[0] in b;
      FirstIsLeast(a, b[0]);
      FirstIsLeast(b, a[0]);
      Decimal.LessIsTotal(Text(a[0]), Text(b[0]));
      SortedTail(a);
      SortedTail(b);
      SortedUnique(a[1..], b[1..]);
      assert a == [a[0]] + a[1..] && b == [b[0]] + b[1..];
    }
  }

  lemma SortedTail(s: seq<FileName>)
    requires SortedNames(s) && s != []
    ensures SortedNames(s[1..]) && (forall f :: f in s[1..] <==> f in s && f != s[0])
  {
    assert s == [s[0]] + s[1..];
    forall k | 1 <= k < |s| ensures s[k] != s[0] {
      Decimal.LessIsTotal(Text(s[0]), Text(s[k]));
    }
  }

  function Names(ids: seq<nat>): (s: seq<FileName>)
    ensures |s| == |ids| && forall k :: 0 <= k < |s| ==> s[k] == SegName(ids[k])
  {
    seq(|ids|, k requires 0 <= k < |ids| => SegName(ids[k]))
  }

  /** Below 10^12 segments, adoption is first in, first out. */
  lemma ListingIsFifo(dir: Dir, ids: seq<nat>, bodies: seq<string>, s: seq<FileName>)
    requires Holds(dir, ids, bodies) && IsListing(dir, s)
    requires Narrow(ids)
    ensures s == Names(ids)
  {
    forall i, j | 0 <= i < j < |ids| ensures Before(Names(ids)[i], Names(ids)[j]) {
      NamesSort(ids[i], ids[j]);
    }
    forall f | f in Names(ids) ensures f in s {
      var k :| 0 <= k < |ids| && Names(ids)[k] == f;
      assert f in dir && f.ext == "lp";
    }
    forall f | f in s ensures f in Names(ids) {
      var k :| 0 <= k < |ids| && f == SegName(ids[k]);
      assert Names(ids)[k] == f;
    }
    SortedUnique(s, Names(ids));
  }

  // ---- The disk's own steps, with a crash possible between any two ----

  function Scratched(dir: Dir, n: nat, text: string): Dir {
    dir[TmpName(n) := text]
  }

  function Discarded(dir: Dir, n: nat): Dir {
    dir - {TmpName(n)}
  }

  /** `rename`: the temporary file becomes the segment, atomically. */
  function Published(dir: Dir, n: nat): Dir
    requires TmpName(n) in dir
  {
    (dir - {TmpName(n)})[SegName(n) := dir[TmpName(n)]]
  }

  function Swept(dir: Dir): Dir {
    map f | f in dir && f.ext != "tmp" :: dir[f]
  }

  /** The number after the newest segment's. */
  function NextAfter(ids: seq<nat>): nat {
    if ids == [] then 0 else ids[|ids| - 1] + 1
  }

  /** How far a spool got before the process died: the temporary file created, partly
      written, written and synced, renamed. */
  datatype Reach = NotBegun | Created | Half(part: string) | Written | Renamed

  /** What a spool that got so far leaves on disk. */
  function Left(dir: Dir, n: nat, body: string, reach: Reach): Dir {
    match reach
    case NotBegun => dir
    case Created => Scratched(dir, n, [])
    case Half(part) => Scratched(dir, n, part)
    case Written => Scratched(dir, n, body)
    case Renamed => Published(Scratched(dir, n, body), n)
  }

  /** What the queue's callers and the kernel can do to it. */
  datatype Op =
    | Push(body: string)               // spooled
    | Fail(part: string)               // a write or a rename failed, the temporary file removed
    | Die(body: string, reach: Reach)  // killed inside a spool
    | Pop                              // the oldest segment shipped and removed
    | DiePopping(removed: bool)        // killed inside a pop, before or after the removal
    | Reopen                           // the next process adopts the directory

  /** The directory, the numbers of its segments, and the next number. */
  datatype Spool = Spool(dir: Dir, ids: seq<nat>, next: nat)

  /** Only a next process follows a death. */
  predicate Dead(ops: seq<Op>) {
    ops != [] && (ops[|ops| - 1].Die? || ops[|ops| - 1].DiePopping?)
  }

  function Retired(s: Spool): Spool {
    if s.ids == [] then s else s.(dir := s.dir - {SegName(s.ids[0])}, ids := s.ids[1..])
  }

  function Does(s: Spool, op: Op): Spool {
    match op
    case Push(body) => Spool(Left(s.dir, s.next, body, Renamed), s.ids + [s.next], s.next + 1)
    case Fail(part) => s.(dir := Discarded(Scratched(s.dir, s.next, part), s.next))
    case Die(body, reach) =>
      Spool(Left(s.dir, s.next, body, reach), if reach.Renamed? then s.ids + [s.next] else s.ids, s.next)
    case Pop => Retired(s)
    case DiePopping(removed) => if removed then Retired(s) else s
    case Reopen => s.(dir := Swept(s.dir), next := NextAfter(s.ids))
  }

  function After(ops: seq<Op>): Spool {
    if ops == [] then EMPTY_SPOOL else Does(After(ops[..|ops| - 1]), ops[|ops| - 1])
  }

  const EMPTY_SPOOL := Spool(map[], [], 0)

  predicate Possible(ops: seq<Op>) {
    ops == [] || (Possible(ops[..|ops| - 1]) && (Dead(ops[..|ops| - 1]) ==> ops[|ops| - 1].Reopen?))
  }

  /** The accepted batches: pushed, renamed into place, and not yet popped. */
  function Kept(ops: seq<Op>): seq<string> {
    if ops == [] then [] else KeptBy(Kept(ops[..|ops| - 1]), ops[|ops| - 1])
  }

  function KeptBy(bodies: seq<string>, op: Op): seq<string> {
    match op
    case Push(body) => bodies + [body]
    case Die(body, reach) => if reach.Renamed? then bodies + [body] else bodies
    case Pop => Oldest(bodies)
    case DiePopping(removed) => if removed then Oldest(bodies) else bodies
    case _ => bodies
  }

  /** All but the oldest. */
  function Oldest(bodies: seq<string>): seq<string> {
    if bodies == [] then [] else bodies[1..]
  }

  predicate NoTmp(dir: Dir) {
    forall f :: f in dir ==> f.ext != "tmp"
  }

  predicate Numbered(s: Spool) {
    forall k :: 0 <= k < |s.ids| ==> s.ids[k] < s.next
  }

  /** A live queue: its segments hold `bodies`, its next number is new, and no temporary
      file is about. */
  ghost predicate Sound(s: Spool, bodies: seq<string>) {
    Holds(s.dir, s.ids, bodies) && Numbered(s) && NoTmp(s.dir)
  }

  lemma SegIsNotTmp(m: nat, n: nat)
    ensures SegName(m) != TmpName(n)
  {
    assert "lp"[0] != "tmp"[0];
  }

  /** Only the temporary file differs. */
  lemma TmpHolds(dir: Dir, dir': Dir, ids: seq<nat>, bodies: seq<string>, n: nat)
    requires Holds(dir, ids, bodies)
    requires forall f :: f != TmpName(n) ==> (f in dir' <==> f in dir) && (f in dir ==> dir'[f] == dir[f])
    ensures Holds(dir', ids, bodies)
  {
    forall k | 0 <= k < |ids| ensures SegName(ids[k]) != TmpName(n) { SegIsNotTmp(ids[k], n); }
    assert "lp"[0] != "tmp"[0];
  }

  /** Renaming adds the pushed body, whole, at the end. */
  lemma RenamedHolds(s: Spool, bodies: seq<string>, body: string)
    requires Holds(s.dir, s.ids, bodies) && Numbered(s)
    ensures Holds(Left(s.dir, s.next, body, Renamed), s.ids + [s.next], bodies + [body])
  {
    var (dir, ids, all) := (Left(s.dir, s.next, body, Renamed), s.ids + [s.next], bodies + [body]);
    assert TmpName(s.next).ext == "tmp" && "lp"[0] != "tmp"[0];
    SegIsNotTmp(s.next, s.next);
    RenamedFiles(s.dir, s.next, body);
    hide SegName, TmpName, Left;
    forall k | 0 <= k < |s.ids| ensures SegName(s.ids[k]) != SegName(s.next) { NamesDiffer(s.ids[k], s.next); }
    forall k | 0 <= k < |ids| ensures SegName(ids[k]) in dir && dir[SegName(ids[k])] == all[k] {
      SegIsNotTmp(ids[k], s.next);
    }
    forall f | f in dir && f.ext == "lp" ensures exists k :: 0 <= k < |ids| && f == SegName(ids[k]) {
      if f == SegName(s.next) {
        assert ids[|s.ids|] == s.next;
      } else {
        var k :| 0 <= k < |s.ids| && f == SegName(s.ids[k]);
        assert ids[k] == s.ids[k];
      }
    }
  }

  lemma RenamedFiles(dir: Dir, n: nat, body: string)
    ensures var d := Left(dir, n, body, Renamed);
            && SegName(n) in d && d[SegName(n)] == body && TmpName(n) !in d
            && forall f :: f != SegName(n) && f != TmpName(n) ==>
                 (f in d <==> f in dir) && (f in dir ==> d[f] == dir[f])
  {
    SegIsNotTmp(n, n);
    hide SegName, TmpName;
  }

  lemma RetiredHolds(s: Spool, bodies: seq<string>)
    requires Holds(s.dir, s.ids, bodies)
    ensures Holds(Retired(s).dir, Retired(s).ids, Oldest(bodies))
  {
    hide SegName;
    if s.ids != [] {
      RetiredFiles(s, bodies);
      RetiredListed(s, bodies);
    }
  }

  lemma RetiredFiles(s: Spool, bodies: seq<string>)
    requires Holds(s.dir, s.ids, bodies) && s.ids != []
    ensures Increasing(s.ids[1..])
    ensures forall k :: 0 <= k < |s.ids| - 1 ==>
              var f := SegName(s.ids[1..][k]); f in Retired(s).dir && Retired(s).dir[f] == bodies[1..][k]
  {
    hide SegName;
    forall k | 1 <= k < |s.ids| ensures SegName(s.ids[k]) != SegName(s.ids[0]) { NamesDiffer(s.ids[k], s.ids[0]); }
    forall k | 0 <= k < |s.ids| - 1
      ensures var f := SegName(s.ids[1..][k]); f in Retired(s).dir && Retired(s).dir[f] == bodies[1..][k]
    {
      assert s.ids[1..][k] == s.ids[k + 1];
    }
  }

  lemma RetiredListed(s: Spool, bodies: seq<string>)
    requires Holds(s.dir, s.ids, bodies) && s.ids != []
    ensures forall f :: f in Retired(s).dir && f.ext == "lp" ==>
              exists k :: 0 <= k < |s.ids| - 1 && f == SegName(s.ids[1..][k])
  {
    hide SegName;
    forall f | f in Retired(s).dir && f.ext == "lp"
      ensures exists k :: 0 <= k < |s.ids| - 1 && f == SegName(s.ids[1..][k])
    {
      var k :| 0 <= k < |s.ids| && f == SegName(s.ids[k]);
      assert s.ids[1..][k - 1] == s.ids[k];
    }
  }

  lemma SweptHolds(dir: Dir, ids: seq<nat>, bodies: seq<string>)
    requires Holds(dir, ids, bodies)
    ensures Holds(Swept(dir), ids, bodies) && NoTmp(Swept(dir)) && Numbered(Spool(Swept(dir), ids, NextAfter(ids)))
  {
    assert "lp"[0] != "tmp"[0];
    BelowNext(ids);
  }

  /** What a death leaves is what was accepted, perhaps with a temporary file beside it. */
  lemma DeadHolds(s: Spool, bodies: seq<string>, op: Op)
    requires Holds(s.dir, s.ids, bodies) && Numbered(s) && (op.Die? || op.DiePopping?)
    ensures var t := Does(s, op); Holds(t.dir, t.ids, KeptBy(bodies, op))
  {
    match op
    case DiePopping(_) => RetiredHolds(s, bodies);
    case Die(body, reach) =>
      hide TmpName, SegName;
      if reach.Renamed? { RenamedHolds(s, bodies, body); }
      else { TmpHolds(s.dir, Left(s.dir, s.next, body, reach), s.ids, bodies, s.next); }
  }

  /** What everything else leaves is a live queue with what was accepted. */
  lemma LiveSound(s: Spool, bodies: seq<string>, op: Op)
    requires Holds(s.dir, s.ids, bodies) && (op.Reopen? || (Numbered(s) && NoTmp(s.dir)))
    requires !op.Die? && !op.DiePopping?
    ensures Sound(Does(s, op), KeptBy(bodies, op))
  {
    match op
    case Push(body) =>
      RenamedHolds(s, bodies, body);
      RenamedFiles(s.dir, s.next, body);
      assert SegName(s.next).ext == "lp" && "lp"[0] != "tmp"[0];
      hide Holds, SegName, TmpName, Left;
    case Fail(part) =>
      TmpHolds(s.dir, Does(s, op).dir, s.ids, bodies, s.next);
      hide Holds, TmpName;
    case Pop =>
      RetiredHolds(s, bodies);
      hide Holds, SegName;
    case Reopen =>
      SweptHolds(s.dir, s.ids, bodies);
      hide Holds, Swept;
  }

  lemma {:induction false} AlwaysSound(ops: seq<Op>)
    requires Possible(ops)
    ensures Holds(After(ops).dir, After(ops).ids, Kept(ops))
    ensures !Dead(ops) ==> Sound(After(ops), Kept(ops))
  {
    if ops != [] {
      var (before, op) := (ops[..|ops| - 1], ops[|ops| - 1]);
      AlwaysSound(before);
      hide Holds, Numbered, NoTmp, Does, KeptBy;
      if op.Die? || op.DiePopping? { DeadHolds(After(before), Kept(before), op); }
      else { LiveSound(After(before), Kept(before), op); }
    }
  }

  /** After any history of spools, full disks, pops and deaths at any point of either, the
      next process lists exactly the batches that were pushed and renamed and not yet
      popped, each whole, oldest first; and once it has swept there is no temporary file. */
  lemma CrashRefinement(ops: seq<Op>, listing: seq<FileName>)
    requires Possible(ops) && IsListing(After(ops).dir, listing) && Narrow(After(ops).ids)
    ensures var dir := After(ops).dir;
            && |listing| == |Kept(ops)|
            && forall k :: 0 <= k < |listing| ==> listing[k] in dir && dir[listing[k]] == Kept(ops)[k]
    ensures var dir := Does(After(ops), Reopen).dir;
            && IsListing(dir, listing) && NoTmp(dir)
            && forall k :: 0 <= k < |listing| ==> listing[k] in dir && dir[listing[k]] == Kept(ops)[k]
  {
    hide *;
    var s := After(ops);
    AlwaysSound(ops);
    ListedWhole(s.dir, s.ids, Kept(ops), listing);
    Reopened(s);
    SweptHolds(s.dir, s.ids, Kept(ops));
    SweptListing(s.dir, listing);
    ListedWhole(Swept(s.dir), s.ids, Kept(ops), listing);
  }

  lemma ListedWhole(dir: Dir, ids: seq<nat>, bodies: seq<string>, listing: seq<FileName>)
    requires Holds(dir, ids, bodies) && IsListing(dir, listing) && Narrow(ids)
    ensures |listing| == |bodies|
    ensures forall k :: 0 <= k < |listing| ==> listing[k] in dir && dir[listing[k]] == bodies[k]
  {
    ListingIsFifo(dir, ids, bodies, listing);
    hide SegName, IsListing, Narrow;
  }

  lemma Reopened(s: Spool)
    ensures Does(s, Reopen).dir == Swept(s.dir)
  {
  }

  lemma SweptListing(dir: Dir, listing: seq<FileName>)
    requires IsListing(dir, listing)
    ensures IsListing(Swept(dir), listing)
  {
    assert "lp"[0] != "tmp"[0];
    hide SortedNames;
  }

  // ---- The queue itself ----

  class Disk {
    var files: Dir

    constructor ()
      ensures files == map[]
    {
      files := map[];
    }
  }

  /** How the next write fares: `space` tells ENOSPC from every other error. */
  datatype Io = Works | WriteFails(written: string, space: bool) | RenameFails(space: bool) | Dies(reach: Reach)

  /** `Ok(true)`, `Ok(false)` and `Err`; or the process did not live to answer. */
  datatype Answer = Accepted | Refused | Broke | Killed

  function Verdict(io: Io): Answer {
    match io
    case Works => Accepted
    case Dies(_) => Killed
    case _ => if io.space then Refused else Broke
  }

  /** The step of the machine that spooling `body` is. */
  function SpoolOp(body: string, io: Io): Op {
    match io
    case Works => Push(body)
    case WriteFails(written, _) => Fail(written)
    case RenameFails(_) => Fail(body)
    case Dies(reach) => Die(body, reach)
  }

  /** How a pop ends. */
  datatype PopEnd = Lives | DiesBefore | DiesAfter

  function PopOp(end: PopEnd): Op {
    match end
    case Lives => Op.Pop
    case DiesBefore => DiePopping(false)
    case DiesAfter => DiePopping(true)
  }

  /** `file_stem().parse::<u64>().ok()`, for stems of plain digits. */
  function ParseStem(stem: string): Option<nat> {
    if stem != [] && Decimal.AllDigits(stem) then Some(Decimal.Value(stem)) else None
  }

  lemma ParseOwnName(n: nat)
    ensures ParseStem(SegName(n).stem) == Some(n)
  {
    Decimal.PadValue(n, WIDTH);
  }

  lemma {:induction false} SumTail(bodies: seq<string>)
    requires bodies != []
    ensures Sum(bodies) == |bodies[0]| + Sum(bodies[1..])
  {
    if |bodies| == 1 {
      assert bodies[..0] == [] == bodies[1..];
    } else {
      var n := |bodies| - 1;
      SumTail(bodies[..n]);
      assert bodies[..n][1..] == bodies[1..][..n - 1];
    }
  }

  function SaturatingSub(a: nat, b: nat): nat {
    if a >= b then a - b else 0
  }

  lemma RetireFront(s: Spool, bodies: seq<string>)
    requires Sound(s, bodies) && s.ids != []
    ensures |Names(s.ids)| == |s.ids| == |bodies|
    ensures var front := Names(s.ids)[0];
            && front in s.dir && s.dir[front] == bodies[0]
            && Retired(s) == Spool(s.dir - {front}, s.ids[1..], s.next)
            && Sound(Retired(s), bodies[1..]) && Holds(s.dir, s.ids, bodies)
            && Holds(Retired(s).dir, Retired(s).ids, bodies[1..])
    ensures Names(s.ids)[1..] == Names(s.ids[1..])
    ensures Sum(bodies) == |bodies[0]| + Sum(bodies[1..])
    ensures bodies[1..] == [] ==> Sum(bodies[1..]) == 0
  {
    hide SegName, Holds, Sum;
    FrontHeld(s, bodies);
    LiveSound(s, bodies, Op.Pop);
    SumTail(bodies);
    NoBytes();
  }

  lemma NoBytes()
    ensures Sum([]) == 0
  {
  }

  lemma FrontHeld(s: Spool, bodies: seq<string>)
    requires Sound(s, bodies) && s.ids != []
    ensures |s.ids| == |bodies| && SegName(s.ids[0]) in s.dir && s.dir[SegName(s.ids[0])] == bodies[0]
    ensures Oldest(bodies) == bodies[1..]
    ensures Holds(s.dir, s.ids, bodies) && Numbered(s) && NoTmp(s.dir)
  {
    hide SegName;
  }

  /** Every segment's number still fits its twelve digits. */
  predicate Narrow(ids: seq<nat>) {
    forall k :: 0 <= k < |ids| ==> ids[k] < Decimal.Pow10(WIDTH)
  }

  ghost predicate Adoptable(dir: Dir, ids: seq<nat>, bodies: seq<string>) {
    Holds(dir, ids, bodies) && Narrow(ids)
  }

  /** The bodies of a listing, in its order. */
  function Read(dir: Dir, s: seq<FileName>): (bodies: seq<string>)
    requires forall k :: 0 <= k < |s| ==> s[k] in dir
    ensures |bodies| == |s|
  {
    seq(|s|, k requires 0 <= k < |s| => dir[s[k]])
  }

  lemma Adopted(dir: Dir, ids: seq<nat>, bodies: seq<string>, s: seq<FileName>)
    requires Adoptable(dir, ids, bodies) && IsListing(dir, s)
    ensures s == Names(ids) && (forall k :: 0 <= k < |s| ==> s[k] in dir) && Read(dir, s) == bodies
    ensures s != [] ==> ParseStem(s[|s| - 1].stem) == Some(ids[|ids| - 1])
    ensures Sound(Spool(Swept(dir), ids, NextAfter(ids)), bodies)
  {
    ListingIsFifo(dir, ids, bodies, s);
    ReadNames(dir, ids, bodies);
    hide SegName, Decimal.Pow10, IsListing, ParseStem, Swept, Read, Names;
    if ids != [] { ParseOwnName(ids[|ids| - 1]); }
    SweptHolds(dir, ids, bodies);
  }

  lemma ReadNames(dir: Dir, ids: seq<nat>, bodies: seq<string>)
    requires Holds(dir, ids, bodies)
    ensures var s := Names(ids); (forall k :: 0 <= k < |s| ==> s[k] in dir) && Read(dir, s) == bodies
  {
    hide SegName;
  }

  lemma BelowNext(ids: seq<nat>)
    requires Increasing(ids)
    ensures forall k :: 0 <= k < |ids| ==> ids[k] < NextAfter(ids)
  {
    assert forall k :: 0 <= k < |ids| - 1 ==> ids[k] < ids[|ids| - 1];
  }

  /** The three ways a spool leaves the queue. */
  lemma SpoolLeaves(s: Spool, bodies: seq<string>, body: string, io: Io)
    requires Sound(s, bodies)
    ensures !io.Dies? ==> Sound(Does(s, SpoolOp(body, io)), KeptBy(bodies, SpoolOp(body, io)))
    ensures var t := Does(s, SpoolOp(body, io)); Holds(t.dir, t.ids, KeptBy(bodies, SpoolOp(body, io)))
  {
    hide Holds, Numbered, NoTmp, Does, KeptBy;
    if io.Dies? { DeadHolds(s, bodies, SpoolOp(body, io)); } else { LiveSound(s, bodies, SpoolOp(body, io)); }
  }

  /** A spool on disk, one primitive at a time. */
  lemma SpoolSteps(s: Spool, body: string, io: Io)
    ensures var (t, made) := (Does(s, SpoolOp(body, io)), Scratched(s.dir, s.next, []));
            match io
            case Works => t == Spool(Published(Scratched(made, s.next, body), s.next), s.ids + [s.next], s.next + 1)
            case WriteFails(written, _) => t == s.(dir := Discarded(Scratched(made, s.next, written), s.next))
            case RenameFails(_) => t == s.(dir := Discarded(Scratched(made, s.next, body), s.next))
            case Dies(reach) =>
              match reach
              case NotBegun => t == s
              case Created => t == s.(dir := made)
              case Half(part) => t == s.(dir := Scratched(made, s.next, part))
              case Written => t == s.(dir := Scratched(made, s.next, body))
              case Renamed => t == Spool(Published(Scratched(made, s.next, body), s.next), s.ids + [s.next], s.next)
    ensures TmpName(s.next) in Scratched(Scratched(s.dir, s.next, []), s.next, body)
  {
    hide TmpName, SegName;
    assert forall text :: Scratched(Scratched(s.dir, s.next, []), s.next, text) == Scratched(s.dir, s.next, text);
  }

  lemma SumAppend(bodies: seq<string>, body: string)
    ensures Sum(bodies + [body]) == Sum(bodies) + |body|
  {
    assert (bodies + [body])[..|bodies|] == bodies;
  }

  class Queue {
    const disk: Disk
    const maxBytes: nat
    var bytes: nat
    var nextSeq: nat
    var segments: seq<FileName>
    var full: bool
    var spilledTotal: nat
    var drainedTotal: nat
    ghost var ids: seq<nat>
    ghost var bodies: seq<string>  // the batches accepted and not yet retired

    ghost function AsSpool(): Spool
      reads this, disk
    {
      Spool(disk.files, ids, nextSeq)
    }

    ghost predicate Valid()
      reads this, disk
    {
      Sound(AsSpool(), bodies) && segments == Names(ids) && bytes == Sum(bodies)
    }

    /** Adopt a directory. `ids0` and `bodies0` are what a previous process left there;
        the method works on any directory. */
    constructor Open(disk: Disk, maxBytes: nat, ghost ids0: seq<nat>, ghost bodies0: seq<string>)
      modifies disk
      ensures this.disk == disk && this.maxBytes == maxBytes && !full
      ensures disk.files == Swept(old(disk.files))
      ensures IsListing(old(disk.files), segments)
      ensures Adoptable(old(disk.files), ids0, bodies0) ==>
                && Valid() && bodies == bodies0 && !full
                && forall n :: AsSpool() == Does(Spool(old(disk.files), ids0, n), Reopen)
    {
      this.disk := disk;
      this.maxBytes := maxBytes;
      bytes, nextSeq, segments := 0, 0, [];
      full, spilledTotal, drainedTotal := false, 0, 0;
      ids, bodies := ids0, bodies0;
      new;
      hide Holds, SegName, Sound, Names, Sum, Adoptable, IsListing, Swept;
      var found, size, next := Scan(disk.files, ids0, bodies0);
      segments, bytes, nextSeq := found, size, next;
      disk.files := Swept(disk.files);
    }

    static method Scan(dir: Dir, ghost ids0: seq<nat>, ghost bodies0: seq<string>)
      returns (found: seq<FileName>, size: nat, next: nat)
      ensures IsListing(dir, found)
      ensures Adoptable(dir, ids0, bodies0) ==>
                found == Names(ids0) && size == Sum(bodies0) && next == NextAfter(ids0)
                && Sound(Spool(Swept(dir), ids0, next), bodies0)
    {
      hide Holds, SegName, Sound, Names, Sum, Adoptable, IsListing, Swept, ParseStem;
      found := List(dir);
      size := Measure(dir, found);
      next := 0;
      if found != [] {
        var last := ParseStem(found[|found| - 1].stem);
        next := if last.Some? then last.value + 1 else 0;
      }
      if Adoptable(dir, ids0, bodies0) {
        Adopted(dir, ids0, bodies0, found);
      }
    }

    /** `read_dir`, filtered and sorted. */
    static method List(dir: Dir) returns (s: seq<FileName>)
      ensures IsListing(dir, s)
      ensures forall k :: 0 <= k < |s| ==> s[k] in dir
    {
      var rest := set f | f in dir && f.ext == "lp";
      s := [];
      while rest != {}
        invariant SortedNames(s)
        invariant forall f :: f in s || f in rest <==> f in dir && f.ext == "lp"
        invariant forall f, g :: f in s && g in rest ==> Before(f, g)
        decreases |rest|
      {
        ghost var least := Least(rest);
        var f :| f in rest && forall g :: g in rest && g != f ==> Before(f, g);
        rest := rest - {f};
        s := s + [f];
      }
    }

    static method Measure(dir: Dir, s: seq<FileName>) returns (n: nat)
      requires forall k :: 0 <= k < |s| ==> s[k] in dir
      ensures n == Sum(Read(dir, s))
    {
      n := 0;
      ghost var all := Read(dir, s);
      for i := 0 to |s|
        invariant n == Sum(all[..i])
      {
        assert all[..i + 1][..i] == all[..i];
        n := n + |dir[s[i]]|;
      }
      assert all[..|s|] == all;
    }

    /** The outcome of a spool for the list of accepted batches. */
    ghost predicate Spooled(before: Spool, kept: seq<string>, body: string, io: Io)
      reads this, disk
    {
      AsSpool() == Does(before, SpoolOp(body, io)) && bodies == KeptBy(kept, SpoolOp(body, io))
    }

    /** What the next process finds, whether or not this one lived. */
    ghost predicate OnDisk()
      reads this, disk
    {
      Holds(disk.files, ids, bodies)
    }

    lemma ValidIsOnDisk()
      requires Valid()
      ensures OnDisk()
    {
    }

    method Push(body: string, io: Io) returns (r: Answer)
      requires Valid()
      modifies this, disk
      ensures OnDisk() && (r != Killed ==> Valid())
      ensures r == if old(bytes) + |body| > maxBytes then Refused else Verdict(io)
      ensures var tried := old(bytes) + |body| <= maxBytes;
              && (r == Accepted <==> tried && io == Works)
              && (r == Refused <==> !tried || io == RenameFails(true) || (io.WriteFails? && io.space))
              && (r == Broke <==> tried && (io == RenameFails(false) || (io.WriteFails? && !io.space)))
              && (r == Killed <==> tried && io.Dies?)
              && bodies == if tried && (io == Works || io == Dies(Renamed)) then old(bodies) + [body] else old(bodies)
      ensures if old(bytes) + |body| > maxBytes then AsSpool() == old(AsSpool()) && bodies == old(bodies)
              else Spooled(old(AsSpool()), old(bodies), body, io)
      ensures spilledTotal == old(spilledTotal) + (if r == Accepted then 1 else 0)
      ensures r == Accepted ==> bytes <= maxBytes
      ensures full == (old(full) || r == Refused)
      ensures drainedTotal == old(drainedTotal)
    {
      ValidIsOnDisk();
      hide Sound, Names, Sum, Does, Holds;
      if bytes + |body| > maxBytes {
        full := true;
        return Refused;
      }
      r := SpoolBody(body, io);
      if r == Refused {
        full := true;
      }
    }

    method PushForced(body: string, io: Io) returns (r: Answer)
      requires Valid()
      modifies this, disk
      ensures OnDisk() && (r != Killed ==> Valid())
      ensures r == Verdict(io) && Spooled(old(AsSpool()), old(bodies), body, io)
      ensures r == Accepted <==> io == Works
      ensures r == Refused <==> io == RenameFails(true) || (io.WriteFails? && io.space)
      ensures r == Broke <==> io == RenameFails(false) || (io.WriteFails? && !io.space)
      ensures bodies == if io == Works || io == Dies(Renamed) then old(bodies) + [body] else old(bodies)
      ensures spilledTotal == old(spilledTotal) + (if r == Accepted then 1 else 0)
      ensures r != Killed ==> full == (old(full) || r != Broke)
      ensures drainedTotal == old(drainedTotal)
    {
      hide Sound, Names, Sum, Does, Holds;
      r := SpoolBody(body, io);
      if r == Broke || r == Killed {
        return;
      }
      full := true;
    }

    /** The temporary file, then the rename; cut short by a failure, which removes the
        temporary file again, or by a death, which does not. */
    method SpoolBody(body: string, io: Io) returns (r: Answer)
      requires Valid()
      modifies this`bytes, this`nextSeq, this`segments, this`spilledTotal, this`ids, this`bodies, disk
      ensures r == Verdict(io) && Spooled(old(AsSpool()), old(bodies), body, io)
      ensures OnDisk() && (r != Killed ==> Valid())
      ensures bytes == old(bytes) + (if r == Accepted then |body| else 0)
      ensures spilledTotal == old(spilledTotal) + (if r == Accepted then 1 else 0)
    {
      hide Sound, Holds, TmpName, SegName, Sum, Names, Does, Scratched, Discarded, Published;
      SpoolLeaves(AsSpool(), bodies, body, io);
      SpoolSteps(AsSpool(), body, io);
      r := Verdict(io);
      if io == Dies(NotBegun) {
        return;
      }
      disk.files := Scratched(disk.files, nextSeq, []);
      if io == Dies(Created) {
        return;
      }
      if io.WriteFails? {
        disk.files := Scratched(disk.files, nextSeq, io.written);
        disk.files := Discarded(disk.files, nextSeq);
        return;
      }
      if io.Dies? && io.reach.Half? {
        disk.files := Scratched(disk.files, nextSeq, io.reach.part);
        return;
      }
      disk.files := Scratched(disk.files, nextSeq, body);
      if io == Dies(Written) {
        return;
      }
      if io.RenameFails? {
        disk.files := Discarded(disk.files, nextSeq);
        return;
      }
      disk.files := Published(disk.files, nextSeq);
      ids, bodies := ids + [nextSeq], bodies + [body];
      if io == Dies(Renamed) {
        return;
      }
      SumAppend(old(bodies), body);
      segments := segments + [SegName(nextSeq)];
      assert segments == Names(ids);
      nextSeq := nextSeq + 1;
      bytes := bytes + |body|;
      spilledTotal := spilledTotal + 1;
    }

    method Front() returns (r: Option<FileName>)
      requires Valid()
      ensures bodies == [] <==> segments == []
      ensures r == if segments == [] then None else Some(segments[0])
      ensures r.Some? ==> r.value in disk.files && disk.files[r.value] == bodies[0]
    {
      r := if segments == [] then None else Some(segments[0]);
    }

    /** Retire a segment that shipped; the drain always retires the front. */
    method Pop(path: FileName, end: PopEnd)
      requires Valid() && segments != [] && path == segments[0]
      modifies this, disk
      ensures AsSpool() == Does(old(AsSpool()), PopOp(end))
      ensures OnDisk() && bodies == KeptBy(old(bodies), PopOp(end)) && old(bodies) != []
      ensures end.Lives? ==>
                && Valid() && full == (old(full) && bytes * 2 > maxBytes)
                && drainedTotal == old(drainedTotal) + 1 && spilledTotal == old(spilledTotal)
                && (bodies == [] ==> !full)
    {
      hide Sound, Holds, SegName, Sum, Names, Retired;
      RetireFront(AsSpool(), bodies);
      if end == DiesBefore {
        return;
      }
      var len := |disk.files[path]|;
      disk.files := disk.files - {path};
      ids, bodies := ids[1..], bodies[1..];
      if end == DiesAfter {
        return;
      }
      segments := segments[1..];
      bytes := SaturatingSub(bytes, len);
      drainedTotal := drainedTotal + 1;
      if full && bytes * 2 <= maxBytes {
        full := false;
      }
    }
  }

  lemma {:induction false} Least(s: set<FileName>) returns (f: FileName)
    requires s != {} && (forall g :: g in s ==> g.ext == "lp")
    ensures f in s && forall g :: g in s && g != f ==> Before(f, g)
    decreases |s|
  {
    f :| f in s;
    var rest := s - {f};
    assert forall g :: g in s && g != f ==> g in rest;
    if rest != {} {
      var m := Least(rest);
      TextDiffers(f, m);
      Decimal.LessIsTotal(Text(f), Text(m));
      if Before(m, f) {
        f := m;
        assert forall g :: g in s && g != f ==> g in rest || Before(f, g);
      } else {
        forall g | g in s && g != f && g != m ensures Before(f, g) {
          assert Before(m, g);
          Decimal.LessIsTransitive(Text(f), Text(m), Text(g));
        }
      }
    }
  }

  lemma TextDiffers(f: FileName, g: FileName)
    requires f.ext == g.ext == "lp" && f != g
    ensures Text(f) != Text(g)
  {
    assert |Text(f)| == |f.stem| + 3 && |Text(g)| == |g.stem| + 3;
    if |f.stem| == |g.stem| {
      var k :| 0 <= k < |f.stem| && f.stem[k] != g.stem[k];
      assert Text(f)[k] == f.stem[k] && Text(g)[k] == g.stem[k];
    }
  }
}
