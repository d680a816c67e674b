/** The multiline joiner (multiline.rs): lines grouped into records, none lost or repeated,
    cut where a line starts a record and, besides, only where a bound or a timeout forces it. */
module Multiline {
  import opened Basics

  /** `start` tells whether a line begins a record; none disables joining. */
  datatype Config = Config(start: Option<string -> bool>, maxLines: int, maxBytes: int)

  predicate Sensible(c: Config) {
    c.maxLines >= 1 && c.maxBytes >= 1
  }

  /** Why a record was emitted. */
  datatype Cause = Whole | Closed | Capped | Expired | Drained

  datatype Record = Record(lines: seq<string>, cause: Cause)

  datatype State = State(buf: seq<string>, truncated: nat)

  const EMPTY: State := State([], 0)

  function Size(lines: seq<string>): nat {
    if lines == [] then 0 else Size(lines[..|lines| - 1]) + |lines[|lines| - 1]| + 1
  }

  lemma SizeSnoc(lines: seq<string>, line: string)
    ensures Size([]) == 0 && Size(lines + [line]) == Size(lines) + |line| + 1
  {
    assert (lines + [line])[..|lines|] == lines;
  }

  /** `lines.join("\n")`. */
  function Join(lines: seq<string>): string {
    if lines == [] then []
    else if |lines| == 1 then lines[0]
    else lines[0] + "\n" + Join(lines[1..])
  }

  predicate AtCap(c: Config, lines: seq<string>) {
    |lines| >= c.maxLines || Size(lines) >= c.maxBytes
  }

  lemma {:induction false} SizeCons(line: string, lines: seq<string>)
    ensures Size([line] + lines) == |line| + 1 + Size(lines)
  {
    if lines == [] {
      assert [line] + lines == [] + [line];
      SizeSnoc([], line);
    } else {
      var n := |lines| - 1;
      SizeCons(line, lines[..n]);
      SizeSnoc([line] + lines[..n], lines[n]);
      assert [line] + lines == [line] + lines[..n] + [lines[n]];
    }
  }

  /** The bytes counted are those of the joined text and one newline more. */
  lemma {:induction false} JoinSize(lines: seq<string>)
    requires lines != []
    ensures Size(lines) == |Join(lines)| + 1
  {
    SizeCons(lines[0], lines[1..]);
    assert lines == [lines[0]] + lines[1..];
    if |lines| > 1 { JoinSize(lines[1..]); } else { SizeSnoc([], []); }
  }

  predicate Starts(c: Config, line: string) {
    c.start.None? || c.start.value(line)
  }

  // ---- What each call does ----

  function Offer(c: Config, s: State, line: string): (State, Option<Record>) {
    if c.start.None? then (s, Some(Record([line], Whole)))
    else
      var closing := Starts(c, line) && s.buf != [];
      var buf := (if closing then [] else s.buf) + [line];
      var done := if closing then Some(Record(s.buf, Closed)) else None;
      if !AtCap(c, buf) then (s.(buf := buf), done)
      else if closing then (State(buf, s.truncated + 1), done)
      else (State([], s.truncated + 1), Some(Record(buf, Capped)))
  }

  /** A line, in numbers: without a pattern it is a record; one that starts a record closes the
      pending one; and what is then pending goes out, or is counted, if it is overfull. */
  lemma OfferIs(c: Config, s: State, line: string)
    ensures var (t, r) := Offer(c, s, line);
            if c.start.None? then t == s && r == Some(Record([line], Whole))
            else
              var closing := c.start.value(line) && s.buf != [];
              var kept := if closing then [line] else s.buf + [line];
              var over := |kept| >= c.maxLines || |Join(kept)| + 1 >= c.maxBytes;
              && r == (if closing then Some(Record(s.buf, Closed))
                       else if over then Some(Record(kept, Capped))
                       else None)
              && t == State(if over && !closing then [] else kept, s.truncated + if over then 1 else 0)
  {
    JoinSize(s.buf + [line]);
    JoinSize([line]);
    assert [] + [line] == [line];
    hide Size, Join;
  }

  function Release(s: State, cause: Cause): (State, Option<Record>) {
    if s.buf == [] then (s, None) else (s.(buf := []), Some(Record(s.buf, cause)))
  }

  datatype Event = Push(line: string) | Expire(elapsed: bool) | Drain

  function Do(c: Config, s: State, ev: Event): (State, Option<Record>) {
    match ev
    case Push(line) => Offer(c, s, line)
    case Expire(elapsed) => if elapsed then Release(s, Expired) else (s, None)
    case Drain => Release(s, Drained)
  }

  class Joiner {
    const c: Config
    var buf: seq<string>
    var bytes: int
    var since: bool // whether a record is being timed
    var truncated: nat

    ghost predicate Valid()
      reads this
    {
      Sensible(c) && bytes == Size(buf) && (since <==> buf != [])
    }

    ghost function Now(): State
      reads this
    {
      State(buf, truncated)
    }

    constructor (start: Option<string -> bool>, maxLines: nat, maxBytes: nat)
      ensures Valid() && Now() == EMPTY
      ensures c == Config(start, Max(maxLines, 1), Max(maxBytes, 1))
    {
      c := Config(start, Max(maxLines, 1), Max(maxBytes, 1));
      buf, bytes, since, truncated := [], 0, false, 0;
    }

    predicate HasPending()
      reads this
    {
      buf != []
    }

    method Take() returns (joined: string)
      modifies this`buf, this`bytes, this`since
      ensures joined == Join(old(buf))
      ensures buf == [] && bytes == 0 && !since
    {
      joined := Join(buf);
      buf, bytes, since := [], 0, false;
    }

    method Offered(line: string) returns (r: Option<string>)
      requires Valid()
      modifies this`buf, this`bytes, this`since, this`truncated
      ensures Valid() && Now() == Offer(c, old(Now()), line).0
      ensures r == Text(Offer(c, old(Now()), line).1)
      ensures c.start.None? ==> r == Some(line) && buf == old(buf) && truncated == old(truncated)
      ensures c.start.Some? ==>
                var closing := c.start.value(line) && old(buf) != [];
                var kept := if closing then [line] else old(buf) + [line];
                var over := |kept| >= c.maxLines || |Join(kept)| + 1 >= c.maxBytes;
                && r == (if closing then Some(Join(old(buf))) else if over then Some(Join(kept)) else None)
                && buf == (if over && !closing then [] else kept)
                && truncated == old(truncated) + if over then 1 else 0
    {
      hide Size, Offer;
      OfferIs(c, Now(), line);
      JoinSize(buf + [line]);
      JoinSize([line]);
      if c.start.None? {
        return Some(line);
      }
      SizeSnoc([], line);
      SizeSnoc(buf, line);
      assert Join([line]) == line;
      hide Join;
      var startsNew := c.start.value(line);
      var done := None;
      if startsNew && buf != [] {
        var joined := Take();
        done := Some(joined);
      }
      bytes := bytes + |line| + 1;
      buf := buf + [line];
      if !since {
        since := true;
      }
      if |buf| >= c.maxLines || bytes >= c.maxBytes {
        truncated := truncated + 1;
        var forced := Take();
        if done.Some? {
          buf := buf + [forced];
          bytes := |buf[0]| + 1;
          since := true;
        } else {
          done := Some(forced);
        }
        return done;
      }
      return done;
    }

    method Expiring(elapsed: bool) returns (r: Option<string>)
      requires Valid()
      modifies this`buf, this`bytes, this`since
      ensures Valid() && Now() == Do(c, old(Now()), Expire(elapsed)).0
      ensures r == Text(Do(c, old(Now()), Expire(elapsed)).1)
    {
      if !since {
        return None;
      }
      if buf != [] && elapsed {
        var joined := Take();
        return Some(joined);
      }
      return None;
    }

    method Draining() returns (r: Option<string>)
      requires Valid()
      modifies this`buf, this`bytes, this`since
      ensures Valid() && Now() == Do(c, old(Now()), Drain).0
      ensures r == Text(Do(c, old(Now()), Drain).1)
    {
      if buf == [] {
        return None;
      }
      var joined := Take();
      return Some(joined);
    }
  }

  function Text(r: Option<Record>): Option<string> {
    match r
    case Some(rec) => Some(Join(rec.lines))
    case None => None
  }

  // ---- Runs ----

  /** The state after a run from a fresh joiner, and what it emitted. */
  function Play(c: Config, evs: seq<Event>): (State, seq<Record>) {
    if evs == [] then (EMPTY, [])
    else
      var (s, out) := Play(c, evs[..|evs| - 1]);
      var (s', r) := Do(c, s, evs[|evs| - 1]);
      (s', if r.Some? then out + [r.value] else out)
  }

  function Inputs(evs: seq<Event>): seq<string> {
    if evs == [] then []
    else
      var ev := evs[|evs| - 1];
      Inputs(evs[..|evs| - 1]) + if ev.Push? then [ev.line] else []
  }

  function Flatten(records: seq<Record>): seq<string> {
    if records == [] then [] else Flatten(records[..|records| - 1]) + records[|records| - 1].lines
  }

  lemma FlattenSnoc(records: seq<Record>, r: Record)
    ensures Flatten(records + [r]) == Flatten(records) + r.lines
  {
    assert (records + [r])[..|records|] == records;
  }

  /** Nothing is lost or repeated: what was emitted and what is buffered is what came in. */
  lemma {:induction false} Conserved(c: Config, evs: seq<Event>)
    ensures Flatten(Play(c, evs).1) + Play(c, evs).0.buf == Inputs(evs)
    ensures c.start.None? ==> Play(c, evs).0.buf == []
  {
    if evs != [] {
      var (before, ev) := (evs[..|evs| - 1], evs[|evs| - 1]);
      var (s, out) := Play(c, before);
      Conserved(c, before);
      StepConserves(c, s, ev);
      Extended(out, s.buf, Do(c, s, ev).1, Do(c, s, ev).0.buf, if ev.Push? then [ev.line] else []);
      hide Do, Flatten;
    } else {
      assert Flatten([]) == [];
    }
  }

  lemma Extended(out: seq<Record>, buf: seq<string>, r: Option<Record>, buf': seq<string>, fed: seq<string>)
    requires (if r.Some? then r.value.lines else []) + buf' == buf + fed
    ensures Flatten(if r.Some? then out + [r.value] else out) + buf' == Flatten(out) + buf + fed
  {
    if r.Some? { FlattenSnoc(out, r.value); }
    hide Flatten;
    assert Flatten(out) + (buf + fed) == Flatten(out) + buf + fed;
    assert r.Some? ==> Flatten(out) + (r.value.lines + buf') == Flatten(out) + r.value.lines + buf';
    assert r.None? ==> [] + buf' == buf';
  }

  lemma {:induction false} NoEmptyRecord(c: Config, evs: seq<Event>)
    ensures forall k :: 0 <= k < |Play(c, evs).1| ==> Play(c, evs).1[k].lines != []
  {
    if evs != [] {
      Conserved(c, evs[..|evs| - 1]);
      NoEmptyRecord(c, evs[..|evs| - 1]);
      StepConserves(c, Play(c, evs[..|evs| - 1]).0, evs[|evs| - 1]);
      hide Do, Flatten, Inputs;
    }
  }

  /** One call emits and keeps what was kept and what came in. */
  lemma StepConserves(c: Config, s: State, ev: Event)
    requires c.start.None? ==> s.buf == []
    ensures var (s', r) := Do(c, s, ev);
            && (if r.Some? then r.value.lines else []) + s'.buf == s.buf + (if ev.Push? then [ev.line] else [])
            && (r.Some? ==> r.value.lines != [])
            && (c.start.None? ==> s'.buf == [])
  {
    hide AtCap;
  }

  /** So progress may be recorded exactly when nothing is pending: that is when every line
      read so far is in a record that was emitted. */
  lemma NothingPendingIff(c: Config, evs: seq<Event>)
    ensures Play(c, evs).0.buf == [] <==> Flatten(Play(c, evs).1) == Inputs(evs)
  {
    Conserved(c, evs);
    var (s, out) := Play(c, evs);
    assert |Flatten(out) + s.buf| == |Flatten(out)| + |s.buf|;
  }

  predicate OneLine(s: string) {
    '\n' !in s
  }

  /** `text.split('\n')`. */
  function Unjoin(text: string): (lines: seq<string>)
    ensures lines != []
  {
    if text == [] then [[]]
    else
      var rest := Unjoin(text[1..]);
      if text[0] == '\n' then [[]] + rest else [[text[0]] + rest[0]] + rest[1..]
  }

  lemma {:induction false} UnjoinLine(line: string)
    requires OneLine(line)
    ensures Unjoin(line) == [line]
  {
    if line != [] {
      UnjoinLine(line[1..]);
      assert [line[0]] + line[1..] == line;
    }
  }

  lemma {:induction false} UnjoinOver(line: string, rest: string)
    requires OneLine(line)
    ensures Unjoin(line + "\n" + rest) == [line] + Unjoin(rest)
  {
    var text := line + "\n" + rest;
    if line == [] {
      assert text[1..] == rest;
    } else {
      assert text[1..] == line[1..] + "\n" + rest;
      UnjoinOver(line[1..], rest);
      assert [line[0]] + line[1..] == line;
    }
  }

  lemma {:induction false} UnjoinJoin(lines: seq<string>)
    requires lines != [] && forall k :: 0 <= k < |lines| ==> OneLine(lines[k])
    ensures Unjoin(Join(lines)) == lines
  {
    if |lines| == 1 {
      UnjoinLine(lines[0]);
    } else {
      UnjoinJoin(lines[1..]);
      UnjoinOver(lines[0], Join(lines[1..]));
    }
  }

  function Texts(records: seq<Record>): (texts: seq<string>)
    ensures |texts| == |records|
  {
    if records == [] then [] else Texts(records[..|records| - 1]) + [Join(records[|records| - 1].lines)]
  }

  function UnjoinAll(texts: seq<string>): seq<string> {
    if texts == [] then [] else UnjoinAll(texts[..|texts| - 1]) + Unjoin(texts[|texts| - 1])
  }

  lemma {:induction false} UnjoinTexts(records: seq<Record>)
    requires forall k :: 0 <= k < |records| ==> records[k].lines != []
    requires forall k :: 0 <= k < |Flatten(records)| ==> OneLine(Flatten(records)[k])
    ensures UnjoinAll(Texts(records)) == Flatten(records)
  {
    if records != [] {
      var (rest, last) := (records[..|records| - 1], records[|records| - 1]);
      assert Flatten(records) == Flatten(rest) + last.lines;
      assert forall k :: 0 <= k < |Flatten(rest)| ==> Flatten(rest)[k] == Flatten(records)[k];
      assert forall k :: 0 <= k < |last.lines| ==> last.lines[k] == Flatten(records)[|Flatten(rest)| + k];
      UnjoinTexts(rest);
      UnjoinJoin(last.lines);
      assert Texts(records)[..|records| - 1] == Texts(rest);
    }
  }

  /** The same of the texts that go on: split at their newlines they are the lines that came in. */
  lemma TextsConserved(c: Config, evs: seq<Event>)
    requires forall k :: 0 <= k < |Inputs(evs)| ==> OneLine(Inputs(evs)[k])
    ensures UnjoinAll(Texts(Play(c, evs).1)) + Play(c, evs).0.buf == Inputs(evs)
  {
    Conserved(c, evs);
    NoEmptyRecord(c, evs);
    var (s, out) := Play(c, evs);
    assert forall k :: 0 <= k < |Flatten(out)| ==> Flatten(out)[k] == Inputs(evs)[k];
    UnjoinTexts(out);
  }

  // ---- Bounds ----

  predicate Small(c: Config, buf: seq<string>) {
    |buf| < c.maxLines && (Size(buf) < c.maxBytes || |buf| == 1)
  }

  /** Fewer than `max_lines` are ever buffered, and fewer than `max_bytes` unless it is one
      start line too long on its own. */
  lemma {:induction false} Bounded(c: Config, evs: seq<Event>)
    requires Sensible(c)
    ensures Small(c, Play(c, evs).0.buf)
  {
    SizeSnoc([], []);
    if evs != [] {
      Bounded(c, evs[..|evs| - 1]);
      StepBounded(c, Play(c, evs[..|evs| - 1]).0, evs[|evs| - 1]);
      hide Do, Small;
    }
  }

  lemma StepBounded(c: Config, s: State, ev: Event)
    requires Sensible(c) && Small(c, s.buf)
    ensures Small(c, Do(c, s, ev).0.buf)
  {
    SizeSnoc([], []);
    hide Size, Starts;
  }

  /** A bound cuts a record only where it has to: with its last line it is overfull, and
      without it it was not, unless that is a single line. */
  lemma {:induction false} CutOnlyWhenFull(c: Config, evs: seq<Event>, k: nat)
    requires Sensible(c) && k < |Play(c, evs).1| && Play(c, evs).1[k].cause.Capped?
    ensures var lines := Play(c, evs).1[k].lines;
            && lines != [] && (|lines| >= c.maxLines || |Join(lines)| + 1 >= c.maxBytes)
            && var before := lines[..|lines| - 1];
            |before| < c.maxLines && (|before| <= 1 || |Join(before)| + 1 < c.maxBytes)
  {
    var n := |evs| - 1;
    var (s, out) := Play(c, evs[..n]);
    if k < |out| {
      CutOnlyWhenFull(c, evs[..n], k);
    } else {
      Bounded(c, evs[..n]);
      LastCutJustified(c, s, evs[n]);
      var r := Do(c, s, evs[n]).1.value;
      JoinSize(r.lines);
      assert r.lines[..|r.lines| - 1] == s.buf;
      if s.buf != [] { JoinSize(s.buf); }
    }
    hide Size, Join, Offer;
  }

  // ---- Where the cuts are ----

  predicate OnlyFirstStarts(c: Config, lines: seq<string>) {
    forall k :: 0 < k < |lines| ==> !Starts(c, lines[k])
  }

  /** No record swallows the beginning of another. */
  lemma {:induction false} NoStartInside(c: Config, evs: seq<Event>)
    ensures forall k :: 0 <= k < |Play(c, evs).1| ==> OnlyFirstStarts(c, Play(c, evs).1[k].lines)
    ensures OnlyFirstStarts(c, Play(c, evs).0.buf)
  {
    if evs != [] {
      NoStartInside(c, evs[..|evs| - 1]);
    }
  }

  /** How far into the input record `k` reaches. */
  function CutAfter(out: seq<Record>, k: nat): nat
    requires k < |out|
  {
    |Flatten(out[..k + 1])|
  }

  /** Which event emitted each record; no event emits two. */
  function Times(c: Config, evs: seq<Event>): (ts: seq<nat>)
    ensures |ts| == |Play(c, evs).1|
    ensures forall k :: 0 <= k < |ts| ==> ts[k] < |evs|
    ensures forall j, k :: 0 <= j < k < |ts| ==> ts[j] < ts[k]
  {
    if evs == [] then []
    else
      var n := |evs| - 1;
      Times(c, evs[..n]) + if Do(c, Play(c, evs[..n]).0, evs[n]).1.Some? then [n] else []
  }

  /** Record `k` was emitted by event `i`, and that event is the reason for it: it ended just
      before the line that event pushed, which starts the next, or with that line, at a
      bound; or just there a timeout or a drain let it go. There is no other cut. */
  predicate Justified(c: Config, evs: seq<Event>, out: seq<Record>, k: nat, i: nat)
    requires k < |out| && i < |evs|
  {
    var (ev, lines, before) := (evs[i], out[k].lines, |Inputs(evs[..i])|);
    match out[k].cause
    case Whole => c.start.None? && ev.Push? && lines == [ev.line] && CutAfter(out, k) == before + 1
    case Closed => ev.Push? && Starts(c, ev.line) && CutAfter(out, k) == before
    case Capped =>
      && ev.Push? && AtCap(c, lines) && lines != [] && lines[|lines| - 1] == ev.line
      && CutAfter(out, k) == before + 1
    case Expired => ev == Expire(true) && CutAfter(out, k) == before
    case Drained => ev == Drain && CutAfter(out, k) == before
  }

  lemma {:induction false} EveryCutJustified(c: Config, evs: seq<Event>, k: nat)
    requires k < |Play(c, evs).1|
    ensures Justified(c, evs, Play(c, evs).1, k, Times(c, evs)[k])
  {
    hide *;
    PlayStep(c, evs);
    var n := |evs| - 1;
    var (s, out) := Play(c, evs[..n]);
    if k < |out| {
      EveryCutJustified(c, evs[..n], k);
      StillJustified(c, evs, out, Play(c, evs).1, k, Times(c, evs[..n])[k]);
    } else {
      Conserved(c, evs[..n]);
      LastCutJustified(c, s, evs[n]);
      NewCutJustified(c, evs, s, out, Do(c, s, evs[n]).1.value);
    }
  }

  lemma PlayStep(c: Config, evs: seq<Event>)
    ensures evs == [] ==> Play(c, evs).1 == []
    ensures evs != [] ==>
              var n := |evs| - 1;
              var (s, out) := Play(c, evs[..n]);
              var (s', r) := Do(c, s, evs[n]);
              && Play(c, evs) == (s', if r.Some? then out + [r.value] else out)
              && Times(c, evs) == if r.Some? then Times(c, evs[..n]) + [n] else Times(c, evs[..n])
  {
    hide Do;
  }

  lemma StillJustified(c: Config, evs: seq<Event>, out: seq<Record>, all: seq<Record>, k: nat, i: nat)
    requires evs != [] && k < |out| && out <= all && i < |evs| - 1
    requires Justified(c, evs[..|evs| - 1], out, k, i)
    ensures Justified(c, evs, all, k, i)
  {
    assert all[..k + 1] == out[..k + 1];
    assert evs[..|evs| - 1][..i] == evs[..i];
    hide AtCap, Flatten, Starts, Inputs;
  }

  lemma NewCutJustified(c: Config, evs: seq<Event>, s: State, out: seq<Record>, r: Record)
    requires evs != [] && Flatten(out) + s.buf == Inputs(evs[..|evs| - 1])
    requires Caused(c, s, evs[|evs| - 1], r) && (c.start.None? ==> s.buf == [])
    ensures Justified(c, evs, out + [r], |out|, |evs| - 1)
  {
    hide AtCap, Flatten, Starts, Inputs, CutAfter;
    LastCut(out, r);
    assert |Inputs(evs[..|evs| - 1])| == |Flatten(out)| + |s.buf|;
  }

  lemma LastCut(out: seq<Record>, r: Record)
    ensures CutAfter(out + [r], |out|) == |Flatten(out)| + |r.lines|
  {
    var all := out + [r];
    assert all[..|out| + 1] == all;
    FlattenSnoc(out, r);
    hide Flatten;
  }

  /** What brought the call to emit. */
  predicate Caused(c: Config, s: State, ev: Event, r: Record) {
    match r.cause
    case Whole => c.start.None? && ev.Push? && r.lines == [ev.line]
    case Closed => r.lines == s.buf && ev.Push? && Starts(c, ev.line)
    case Capped => AtCap(c, r.lines) && ev.Push? && r.lines == s.buf + [ev.line]
    case Expired => ev == Expire(true) && r.lines == s.buf
    case Drained => ev == Drain && r.lines == s.buf
  }

  lemma LastCutJustified(c: Config, s: State, ev: Event)
    requires Do(c, s, ev).1.Some?
    ensures Caused(c, s, ev, Do(c, s, ev).1.value)
  {
    hide AtCap, Starts;
  }

  // ---- Without bounds or timeouts: cut at starts and nowhere else ----

  function AtStarts(c: Config, lines: seq<string>): seq<seq<string>> {
    if lines == [] then []
    else
      var (groups, line) := (AtStarts(c, lines[..|lines| - 1]), lines[|lines| - 1]);
      if groups == [] || Starts(c, line) then groups + [[line]]
      else groups[..|groups| - 1] + [groups[|groups| - 1] + [line]]
  }

  function Groups(out: seq<Record>): (g: seq<seq<string>>)
    ensures |g| == |out|
  {
    if out == [] then [] else Groups(out[..|out| - 1]) + [out[|out| - 1].lines]
  }

  /** What a run makes of its lines, the unfinished record included. */
  function Outcome(c: Config, evs: seq<Event>): seq<seq<string>> {
    var (s, out) := Play(c, evs);
    Groups(out) + if s.buf == [] then [] else [s.buf]
  }

  predicate PushesOnly(evs: seq<Event>) {
    forall k :: 0 <= k < |evs| ==> evs[k].Push?
  }

  predicate NoneAtCap(c: Config, groups: seq<seq<string>>) {
    forall k :: 0 <= k < |groups| ==> !AtCap(c, groups[k])
  }

  /** `truncated` stays zero exactly when no record, cut at starts alone, meets a bound; and
      then the joiner cuts at starts alone. */
  lemma {:induction false} UntruncatedIff(c: Config, evs: seq<Event>)
    requires Sensible(c) && c.start.Some? && PushesOnly(evs)
    ensures Play(c, evs).0.truncated == 0 <==> NoneAtCap(c, AtStarts(c, Inputs(evs)))
    ensures Play(c, evs).0.truncated == 0 ==> Outcome(c, evs) == AtStarts(c, Inputs(evs))
    ensures Play(c, evs).0.truncated == 0 && evs != [] ==> Play(c, evs).0.buf != []
  {
    if evs == [] {
      NothingYet(c);
    } else {
      var (before, line) := (evs[..|evs| - 1], evs[|evs| - 1].line);
      UntruncatedIff(c, before);
      OfferedLast(c, evs);
      hide *;
      var (s, out) := Play(c, before);
      if s.truncated == 0 {
        NextLine(c, s, out, line, AtStarts(c, Inputs(before)));
      } else {
        CapStays(c, Inputs(before), line);
      }
    }
  }

  lemma NothingYet(c: Config)
    ensures Play(c, []).0 == EMPTY && Outcome(c, []) == AtStarts(c, Inputs([])) && NoneAtCap(c, AtStarts(c, Inputs([])))
  {
  }

  /** What one more push makes of a run. */
  lemma OfferedLast(c: Config, evs: seq<Event>)
    requires evs != [] && PushesOnly(evs)
    ensures PushesOnly(evs[..|evs| - 1]) && evs[|evs| - 1].Push?
    ensures var (before, line) := (evs[..|evs| - 1], evs[|evs| - 1].line);
            var (s, out) := Play(c, before);
            var (t, r) := Offer(c, s, line);
            var groups := AtStarts(c, Inputs(before));
            && Inputs(evs) == Inputs(before) + [line]
            && Play(c, evs) == (t, if r.Some? then out + [r.value] else out)
            && t.truncated >= s.truncated
            && (before == [] ==> s.buf == [] && groups == [])
            && Outcome(c, before) == Groups(out) + (if s.buf == [] then [] else [s.buf])
            && Outcome(c, evs) == Groups(Play(c, evs).1) + (if t.buf == [] then [] else [t.buf])
            && AtStarts(c, Inputs(evs)) == if groups == [] || Starts(c, line) then groups + [[line]]
                                           else groups[..|groups| - 1] + [groups[|groups| - 1] + [line]]
  {
    var (before, line) := (evs[..|evs| - 1], evs[|evs| - 1].line);
    assert Inputs(evs)[..|Inputs(before)|] == Inputs(before);
    hide AtCap, Starts, Groups;
  }

  lemma CapStays(c: Config, lines: seq<string>, line: string)
    requires !NoneAtCap(c, AtStarts(c, lines))
    ensures !NoneAtCap(c, AtStarts(c, lines + [line]))
  {
    var (groups, after) := (AtStarts(c, lines), AtStarts(c, lines + [line]));
    assert (lines + [line])[..|lines|] == lines;
    var k :| 0 <= k < |groups| && AtCap(c, groups[k]);
    if k == |groups| - 1 && !Starts(c, line) {
      assert (groups[k] + [line])[..|groups[k]|] == groups[k];
      assert AtCap(c, after[k]);
    } else {
      assert AtCap(c, after[k]);
    }
  }

  lemma GroupsSnoc(out: seq<Record>, r: Record)
    ensures Groups(out + [r]) == Groups(out) + [r.lines]
  {
    assert (out + [r])[..|out|] == out;
  }

  lemma NextLine(c: Config, s: State, out: seq<Record>, line: string, groups: seq<seq<string>>)
    requires Sensible(c) && c.start.Some? && s.truncated == 0 && NoneAtCap(c, groups)
    requires groups == Groups(out) + if s.buf == [] then [] else [s.buf]
    requires s.buf == [] ==> groups == []
    ensures var (s', r) := Offer(c, s, line);
            var out' := if r.Some? then out + [r.value] else out;
            var groups' := if groups == [] || Starts(c, line) then groups + [[line]]
                           else groups[..|groups| - 1] + [groups[|groups| - 1] + [line]];
            && (s'.truncated == 0 <==> NoneAtCap(c, groups'))
            && (s'.truncated == 0 ==> s'.buf != [] && groups' == Groups(out') + [s'.buf])
  {
    hide Size, Groups;
    if s.buf == [] {
      assert [] + [line] == [line];
      assert groups + [[line]] == [[line]];
    } else {
      assert groups[..|groups| - 1] == Groups(out) && groups[|groups| - 1] == s.buf;
      GroupsSnoc(out, Record(s.buf, Closed));
      if Starts(c, line) {
        assert [] + [line] == [line];
        var groups' := groups + [[line]];
        assert groups'[|groups|] == [line];
        assert forall k :: 0 <= k < |groups| ==> groups'[k] == groups[k];
      } else {
        var groups' := Groups(out) + [s.buf + [line]];
        assert groups'[|groups| - 1] == s.buf + [line];
        assert forall k :: 0 <= k < |groups| - 1 ==> groups'[k] == groups[k];
      }
    }
  }

  /** The bound is checked too late for one line: a start line too long on its own that closes
      a record is kept back, and its continuation joins it all the same. */
  lemma LongStartIsHeld(c: Config, s: State, line: string, next: string)
    requires Sensible(c) && c.start.Some? && c.maxLines >= 2 && s.buf != [] && Starts(c, line) && !Starts(c, next)
    requires Size([line]) >= c.maxBytes
    ensures Offer(c, s, line) == (State([line], s.truncated + 1), Some(Record(s.buf, Closed)))
    ensures Offer(c, State([line], s.truncated + 1), next).1 == Some(Record([line, next], Capped))
  {
    assert [line, next][..1] == [line];
    assert [] + [line] == [line] && [line] + [next] == [line, next];
  }
}
