/** The container-log reassemblers (cri.rs, docker.rs): fragments of a long line joined per
    stream, whatever order the streams' fragments arrive in. */
module Reassembly {
  import opened Basics

  /** One line of the container log, decoded: `closes` marks the last fragment of a message,
      by its `F` tag or, for docker, by a newline at the end of its text. */
  datatype Fragment = Fragment(stream: string, time: string, text: string, closes: bool)

  datatype Envelope = Envelope(log: string, stream: string, time: string)

  datatype Config = Config(docker: bool, maxBytes: int)

  predicate Decoded(c: Config, f: Fragment) {
    c.docker ==> (f.closes <==> f.text != [] && f.text[|f.text| - 1] == '\n')
  }

  // ---- The CRI line format ----

  datatype Parsed = Ok(f: Fragment) | Refused(why: string)

  /** `splitn(2, ' ')`: up to the first space, and what follows it if there is one. */
  function Cut(s: string): (r: (string, Option<string>))
    ensures ' ' !in r.0
    ensures s == match r.1 case None => r.0 case Some(rest) => r.0 + " " + rest
  {
    if s == [] then ([], None)
    else if s[0] == ' ' then ([], Some(s[1..]))
    else
      var r := Cut(s[1..]);
      ([s[0]] + r.0, r.1)
  }

  /** The envelope fields of a CRI line: the message keeps its spaces, and may be missing. */
  function ParseCri(line: string): Parsed {
    var time := Cut(line);
    if time.0 == [] then Refused("empty CRI line")
    else if time.1.None? then Refused("no stream field")
    else
      var stream := Cut(time.1.value);
      if stream.1.None? then Refused("no F/P tag")
      else
        var tag := Cut(stream.1.value);
        var msg := match tag.1 case None => "" case Some(m) => m;
        if stream.0 != "stdout" && stream.0 != "stderr" then Refused("not stdout/stderr")
        else if tag.0 != "P" && tag.0 != "F" then Refused("not P or F")
        else Ok(Fragment(stream.0, time.0, msg, tag.0 == "F"))
  }

  /** How the runtime writes a fragment; a blank message may lack its separator. */
  ghost predicate CriLine(line: string, f: Fragment) {
    var fields := f.time + " " + f.stream + " " + (if f.closes then "F" else "P");
    && f.time != [] && ' ' !in f.time && (f.stream == "stdout" || f.stream == "stderr")
    && (line == fields + " " + f.text || (f.text == [] && line == fields))
  }

  lemma {:induction false} CutAt(a: string, b: string)
    requires ' ' !in a
    ensures Cut(a + " " + b) == (a, Some(b)) && Cut(a) == (a, None)
  {
    var s := a + " " + b;
    if a == [] {
      assert s[1..] == b;
    } else {
      assert s[1..] == a[1..] + " " + b;
      CutAt(a[1..], b);
      assert [a[0]] + a[1..] == a;
    }
  }

  lemma CriLineParses(line: string, f: Fragment)
    requires CriLine(line, f)
    ensures ParseCri(line) == Ok(f)
  {
    var tag := if f.closes then "F" else "P";
    var more := if line == f.time + " " + f.stream + " " + tag then tag else tag + " " + f.text;
    hide Cut;
    assert line == f.time + " " + (f.stream + " " + more);
    CutAt(f.time, f.stream + " " + more);
    CutAt(f.stream, more);
    CutAt(tag, f.text);
  }

  lemma ParsedIsCriLine(line: string)
    requires ParseCri(line).Ok?
    ensures CriLine(line, ParseCri(line).f)
  {
    hide Cut;
    var f := ParseCri(line).f;
    var stream := Cut(Cut(line).1.value);
    var tag := Cut(stream.1.value);
    assert line == f.time + " " + (f.stream + " " + stream.1.value);
    assert line == f.time + " " + f.stream + " " + stream.1.value;
    assert tag.1.Some? ==> line == f.time + " " + f.stream + " " + tag.0 + " " + f.text;
  }

  /** The decoder accepts exactly the lines a runtime writes, and reads back what it wrote. */
  lemma ParseCriIff(line: string, f: Fragment)
    ensures ParseCri(line) == Ok(f) <==> CriLine(line, f)
  {
    if ParseCri(line).Ok? { ParsedIsCriLine(line); }
    if CriLine(line, f) { CriLineParses(line, f); }
    hide *;
  }

  // ---- Messages ----

  function Concat(g: seq<Fragment>): string {
    if g == [] then [] else Concat(g[..|g| - 1]) + g[|g| - 1].text
  }

  function Last(g: seq<Fragment>): Fragment
    requires g != []
  {
    g[|g| - 1]
  }

  /** What a message's fragments are sent on as: the first one's time, and for docker
      without the newline that ended the last. */
  function Render(c: Config, g: seq<Fragment>): Envelope
    requires g != []
  {
    var log := Concat(g);
    var stripped := if c.docker && Last(g).closes && log != [] then log[..|log| - 1] else log;
    Envelope(stripped, g[0].stream, g[0].time)
  }

  type Pendings = map<string, seq<Fragment>>

  function Held(m: Pendings, stream: string): seq<Fragment> {
    if stream in m then m[stream] else []
  }

  function Accept(c: Config, m: Pendings, f: Fragment): (Pendings, Option<seq<Fragment>>) {
    var g := Held(m, f.stream) + [f];
    if f.closes || |Concat(g)| >= c.maxBytes then (m - {f.stream}, Some(g)) else (m[f.stream := g], None)
  }

  function Release(m: Pendings, stream: string): (Pendings, Option<seq<Fragment>>) {
    if stream in m then (m - {stream}, Some(m[stream])) else (m, None)
  }

  // ---- The class ----

  datatype Pending = Pending(log: string, time: string)

  class Reassembler {
    const c: Config
    var streams: map<string, Pending>
    var truncated: nat
    ghost var parts: Pendings // the fragments behind each pending log

    ghost predicate Valid()
      reads this
    {
      && c.maxBytes >= 1
      && parts.Keys == streams.Keys
      && (forall k :: k in parts ==>
            parts[k] != [] && parts[k][0].stream == k && !Last(parts[k]).closes
            && streams[k] == Pending(Concat(parts[k]), parts[k][0].time))
    }

    constructor (docker: bool, maxBytes: nat)
      ensures Valid() && parts == map[] && truncated == 0
      ensures c == Config(docker, Max(maxBytes, 1))
    {
      c := Config(docker, Max(maxBytes, 1));
      streams, truncated, parts := map[], 0, map[];
    }

    predicate HasPending()
      reads this
    {
      streams.Keys != {}
    }

    /** The common half of the two `push` methods, past decoding. */
    method Push(f: Fragment) returns (r: Option<Envelope>)
      requires Valid() && Decoded(c, f)
      modifies this
      ensures Valid() && parts == Accept(c, old(parts), f).0
      ensures r == match Accept(c, old(parts), f).1
                   case None => None
                   case Some(g) => Some(Render(c, g))
      ensures var over := |Concat(Held(old(parts), f.stream) + [f])| >= c.maxBytes;
              truncated == old(truncated) + if over && !f.closes then 1 else 0
    {
      ghost var g := Held(parts, f.stream) + [f];
      ConcatSnoc(Held(parts, f.stream), f);
      hide Concat;
      var p := if f.stream in streams then streams[f.stream] else Pending([], f.time);
      p := p.(log := p.log + f.text);
      var over := |p.log| >= c.maxBytes;
      if f.closes || over {
        if over && !f.closes {
          truncated := truncated + 1;
        }
        streams := streams - {f.stream};
        parts := parts - {f.stream};
        var log := p.log;
        if c.docker && f.closes && log != [] && log[|log| - 1] == '\n' {
          log := log[..|log| - 1];
        }
        return Some(Envelope(log, f.stream, p.time));
      }
      streams := streams[f.stream := p];
      parts := parts[f.stream := g];
      return None;
    }

    method PushCri(line: string) returns (r: Option<Envelope>, ok: bool)
      requires Valid() && !c.docker
      modifies this
      ensures Valid() && ok == ParseCri(line).Ok?
      ensures !ok ==> r.None? && parts == old(parts) && truncated == old(truncated)
      ensures ok ==> parts == Accept(c, old(parts), ParseCri(line).f).0
      ensures ok ==> r == match Accept(c, old(parts), ParseCri(line).f).1
                          case None => None
                          case Some(g) => Some(Render(c, g))
    {
      match ParseCri(line) {
        case Refused(_) =>
          return None, false;
        case Ok(f) =>
          var e := Push(f);
          return e, true;
      }
    }

    /** `expire`: some stream whose fragments have waited too long, whichever the map yields
        first. */
    method Expire(elapsed: set<string>) returns (r: Option<Envelope>, ghost stream: string)
      requires Valid()
      modifies this`streams, this`parts
      ensures Valid() && (r.None? <==> old(parts).Keys * elapsed == {})
      ensures r.None? ==> parts == old(parts)
      ensures r.Some? ==> stream in elapsed && stream in old(parts)
      ensures r.Some? ==> parts == Release(old(parts), stream).0 && r == Some(Render(c, old(parts)[stream]))
    {
      stream := "";
      if streams.Keys * elapsed == {} {
        return None, stream;
      }
      var key :| key in streams.Keys * elapsed;
      stream := key;
      var p := streams[key];
      streams := streams - {key};
      parts := parts - {key};
      return Some(Envelope(p.log, key, p.time)), stream;
    }

    /** `drain`: the same whatever the time, for shutdown. */
    method Drain() returns (r: Option<Envelope>, ghost stream: string)
      requires Valid()
      modifies this`streams, this`parts
      ensures Valid() && (r.None? <==> old(parts).Keys == {})
      ensures r.None? ==> parts == old(parts)
      ensures r.Some? ==> stream in old(parts)
      ensures r.Some? ==> parts == Release(old(parts), stream).0 && r == Some(Render(c, old(parts)[stream]))
    {
      assert streams.Keys * streams.Keys == streams.Keys;
      r, stream := Expire(streams.Keys);
    }
  }

  lemma ConcatSnoc(g: seq<Fragment>, f: Fragment)
    ensures Concat([]) == [] && Concat(g + [f]) == Concat(g) + f.text
  {
    assert (g + [f])[..|g|] == g;
  }

  // ---- Runs ----

  datatype Event = Feed(f: Fragment) | Let(s: string)

  function StreamOf(ev: Event): string {
    match ev
    case Feed(f) => f.stream
    case Let(s) => s
  }

  function Do(c: Config, m: Pendings, ev: Event): (Pendings, Option<seq<Fragment>>) {
    match ev
    case Feed(f) => Accept(c, m, f)
    case Let(s) => Release(m, s)
  }

  function Play(c: Config, evs: seq<Event>): (Pendings, seq<seq<Fragment>>) {
    if evs == [] then (map[], [])
    else
      var (m, out) := Play(c, evs[..|evs| - 1]);
      var (m', r) := Do(c, m, evs[|evs| - 1]);
      (m', if r.Some? then out + [r.value] else out)
  }

  /** What stream `x` alone sees of a run. */
  function Only(evs: seq<Event>, x: string): seq<Event> {
    if evs == [] then []
    else Only(evs[..|evs| - 1], x) + if StreamOf(evs[|evs| - 1]) == x then [evs[|evs| - 1]] else []
  }

  /** The messages of stream `x`. */
  function Of(out: seq<seq<Fragment>>, x: string): seq<seq<Fragment>> {
    if out == [] then []
    else
      var g := out[|out| - 1];
      Of(out[..|out| - 1], x) + if g != [] && g[0].stream == x then [g] else []
  }

  lemma OfSnoc(out: seq<seq<Fragment>>, g: seq<Fragment>, x: string)
    ensures Of(out + [g], x) == Of(out, x) + if g != [] && g[0].stream == x then [g] else []
  {
    assert (out + [g])[..|out|] == out;
  }

  lemma PlaySnoc(c: Config, evs: seq<Event>, ev: Event)
    ensures var (m, out) := Play(c, evs);
            var (m', r) := Do(c, m, ev);
            Play(c, evs + [ev]) == (m', if r.Some? then out + [r.value] else out)
  {
    assert (evs + [ev])[..|evs|] == evs;
  }

  /** Fragments are kept and emitted under the stream they came on. */
  ghost predicate Sorted(m: Pendings) {
    forall k :: k in m ==> m[k] != [] && forall i :: 0 <= i < |m[k]| ==> m[k][i].stream == k
  }

  lemma StepSorted(c: Config, m: Pendings, ev: Event)
    requires Sorted(m)
    ensures var (m', r) := Do(c, m, ev);
            && Sorted(m')
            && (r.Some? ==> r.value != [] && r.value[0].stream == StreamOf(ev))
            && (forall k :: k != StreamOf(ev) ==> (k in m' <==> k in m) && (k in m ==> m'[k] == m[k]))
  {
    hide Concat;
  }

  lemma {:induction false} AlwaysSorted(c: Config, evs: seq<Event>)
    ensures Sorted(Play(c, evs).0)
  {
    if evs != [] {
      AlwaysSorted(c, evs[..|evs| - 1]);
      StepSorted(c, Play(c, evs[..|evs| - 1]).0, evs[|evs| - 1]);
      hide Do, Sorted;
    }
  }

  lemma PlayStep(c: Config, evs: seq<Event>)
    requires evs != []
    ensures var (m, out) := Play(c, evs[..|evs| - 1]);
            var (m', r) := Do(c, m, evs[|evs| - 1]);
            Play(c, evs) == (m', if r.Some? then out + [r.value] else out)
  {
  }

  lemma OnlyStep(evs: seq<Event>, x: string)
    requires evs != []
    ensures Only(evs, x) ==
            Only(evs[..|evs| - 1], x) + if StreamOf(evs[|evs| - 1]) == x then [evs[|evs| - 1]] else []
  {
  }

  /** A step on one stream leaves every other's messages and fragments as they were. */
  lemma StepOf(c: Config, m: Pendings, out: seq<seq<Fragment>>, ev: Event, x: string)
    requires Sorted(m)
    ensures var (m', r) := Do(c, m, ev);
            var out' := if r.Some? then out + [r.value] else out;
            if StreamOf(ev) == x then Of(out', x) == if r.Some? then Of(out, x) + [r.value] else Of(out, x)
            else Of(out', x) == Of(out, x) && Held(m', x) == Held(m, x)
  {
    StepSorted(c, m, ev);
    var r := Do(c, m, ev).1;
    if r.Some? { OfSnoc(out, r.value, x); }
    hide Do, Of, Sorted;
  }

  /** Streams do not see each other: what stream `x` emits and keeps, in any interleaving, is
      what it would have alone. */
  lemma {:induction false} Projection(c: Config, evs: seq<Event>, x: string)
    ensures Of(Play(c, evs).1, x) == Play(c, Only(evs, x)).1
    ensures Held(Play(c, evs).0, x) == Held(Play(c, Only(evs, x)).0, x)
  {
    if evs != [] {
      hide *;
      var (before, ev) := (evs[..|evs| - 1], evs[|evs| - 1]);
      var ((m, out), n) := (Play(c, before), Play(c, Only(before, x)).0);
      Projection(c, before, x);
      AlwaysSorted(c, before);
      AlwaysSorted(c, Only(before, x));
      PlayStep(c, evs);
      OnlyStep(evs, x);
      StepOf(c, m, out, ev, x);
      if StreamOf(ev) == x {
        PlaySnoc(c, Only(before, x), ev);
        SameStep(c, m, n, ev);
      } else {
        assert Only(before, x) + [] == Only(before, x);
      }
    }
  }

  lemma SameStep(c: Config, m: Pendings, n: Pendings, ev: Event)
    requires Sorted(m) && Sorted(n) && Held(m, StreamOf(ev)) == Held(n, StreamOf(ev))
    ensures Do(c, m, ev).1 == Do(c, n, ev).1
    ensures Held(Do(c, m, ev).0, StreamOf(ev)) == Held(Do(c, n, ev).0, StreamOf(ev))
  {
    hide Concat;
  }

  // ---- Nothing lost, and why a message ended ----

  function Fed(evs: seq<Event>, x: string): seq<Fragment> {
    if evs == [] then []
    else
      var ev := evs[|evs| - 1];
      Fed(evs[..|evs| - 1], x) + if ev.Feed? && ev.f.stream == x then [ev.f] else []
  }

  function Flatten(out: seq<seq<Fragment>>): seq<Fragment> {
    if out == [] then [] else Flatten(out[..|out| - 1]) + out[|out| - 1]
  }

  lemma FlattenSnoc(out: seq<seq<Fragment>>, g: seq<Fragment>)
    ensures Flatten(out + [g]) == Flatten(out) + g
  {
    assert (out + [g])[..|out|] == out;
  }

  lemma FedStep(evs: seq<Event>, x: string)
    requires evs != []
    ensures var ev := evs[|evs| - 1];
            Fed(evs, x) == Fed(evs[..|evs| - 1], x) + if ev.Feed? && StreamOf(ev) == x then [ev.f] else []
  {
  }

  /** A stream's messages and what it still holds are its fragments, in order. */
  lemma {:induction false} Conserved(c: Config, evs: seq<Event>, x: string)
    ensures Flatten(Of(Play(c, evs).1, x)) + Held(Play(c, evs).0, x) == Fed(evs, x)
  {
    if evs != [] {
      hide *;
      var (before, ev) := (evs[..|evs| - 1], evs[|evs| - 1]);
      var (m, out) := Play(c, before);
      var (m', r) := Do(c, m, ev);
      Conserved(c, before, x);
      AlwaysSorted(c, before);
      PlayStep(c, evs);
      FedStep(evs, x);
      StepOf(c, m, out, ev, x);
      if StreamOf(ev) == x {
        StepConserves(c, m, ev);
        Extended(Of(out, x), Held(m, x), r, Held(m', x), if ev.Feed? then [ev.f] else []);
      } else {
        assert Fed(before, x) + [] == Fed(before, x);
      }
    }
  }

  lemma Extended(out: seq<seq<Fragment>>, held: seq<Fragment>, r: Option<seq<Fragment>>, held': seq<Fragment>,
                 fed: seq<Fragment>)
    requires (if r.Some? then r.value else []) + held' == held + fed
    ensures Flatten(if r.Some? then out + [r.value] else out) + held' == Flatten(out) + held + fed
  {
    if r.Some? { FlattenSnoc(out, r.value); }
    hide Flatten;
    assert Flatten(out) + (held + fed) == Flatten(out) + held + fed;
    assert r.Some? ==> Flatten(out) + (r.value + held') == Flatten(out) + r.value + held';
    assert r.None? ==> [] + held' == held';
  }

  lemma StepConserves(c: Config, m: Pendings, ev: Event)
    ensures var (m', r) := Do(c, m, ev);
            (if r.Some? then r.value else []) + Held(m', StreamOf(ev))
            == Held(m, StreamOf(ev)) + (if ev.Feed? then [ev.f] else [])
  {
    hide Concat;
  }

  /** Still open: no fragment closed it, and it is under the cap. */
  predicate Open(c: Config, g: seq<Fragment>) {
    (forall i :: 0 <= i < |g| ==> !g[i].closes) && |Concat(g)| < c.maxBytes
  }

  /** Complete: open until its last fragment, which closed it or reached the cap. */
  predicate Complete(c: Config, g: seq<Fragment>) {
    g != [] && Open(c, g[..|g| - 1]) && (Last(g).closes || |Concat(g)| >= c.maxBytes)
  }

  ghost predicate AllOpen(c: Config, m: Pendings) {
    forall k :: k in m ==> Open(c, m[k])
  }

  lemma StepOpen(c: Config, m: Pendings, ev: Event)
    requires c.maxBytes >= 1 && AllOpen(c, m)
    ensures var (m', r) := Do(c, m, ev);
            AllOpen(c, m') && (r.Some? ==> if ev.Feed? then Complete(c, r.value) else Open(c, r.value))
  {
    if ev.Feed? {
      var held := Held(m, ev.f.stream);
      ConcatSnoc(held, ev.f);
      hide Concat;
      assert Open(c, held);
      OneMore(c, held, ev.f);
      hide Open, Complete;
    }
  }

  lemma OneMore(c: Config, held: seq<Fragment>, f: Fragment)
    requires Open(c, held)
    ensures if f.closes || |Concat(held + [f])| >= c.maxBytes then Complete(c, held + [f]) else Open(c, held + [f])
  {
    assert (held + [f])[..|held|] == held;
    hide Concat;
  }

  /** Which event emitted each message; no event emits two. */
  function Times(c: Config, evs: seq<Event>): (ts: seq<nat>)
    ensures |ts| == |Play(c, evs).1|
    ensures forall k :: 0 <= k < |ts| ==> ts[k] < |evs|
    ensures forall j, k :: 0 <= j < k < |ts| ==> ts[j] < ts[k]
  {
    if evs == [] then []
    else
      var n := |evs| - 1;
      Times(c, evs[..n]) + if Do(c, Play(c, evs[..n]).0, evs[n]).1.Some? then [n] else []
  }

  /** Message `g` was emitted by event `i`: its last fragment, which closed or filled it, or
      the moment its own stream was let go; and it is all that stream had pending. */
  predicate Emission(c: Config, evs: seq<Event>, i: nat, g: seq<Fragment>)
    requires i < |evs|
  {
    var pending := Held(Play(c, evs[..i]).0, StreamOf(evs[i]));
    && g != [] && g[0].stream == StreamOf(evs[i])
    && match evs[i]
       case Feed(f) => Complete(c, g) && g == pending + [f]
       case Let(_) => Open(c, g) && g == pending
  }

  /** Every pending message is under the cap at all times, and a message is emitted exactly
      when a fragment closes it or fills it, or else when its stream is let go. */
  lemma {:induction false} AlwaysOpen(c: Config, evs: seq<Event>)
    requires c.maxBytes >= 1
    ensures AllOpen(c, Play(c, evs).0)
    ensures forall k :: 0 <= k < |Play(c, evs).1| ==> Emission(c, evs, Times(c, evs)[k], Play(c, evs).1[k])
  {
    hide *;
    if evs == [] {
      NothingOpen(c);
    } else {
      var n := |evs| - 1;
      var (m, out) := Play(c, evs[..n]);
      AlwaysOpen(c, evs[..n]);
      StepOpen(c, m, evs[n]);
      StepEmits(c, evs);
      PlayStep(c, evs);
      TimesStep(c, evs);
      forall k | 0 <= k < |out| ensures Emission(c, evs, Times(c, evs[..n])[k], out[k]) {
        EmissionLater(c, evs, Times(c, evs[..n])[k], out[k]);
      }
    }
  }

  lemma NothingOpen(c: Config)
    ensures AllOpen(c, Play(c, []).0) && Play(c, []).1 == []
  {
  }

  lemma TimesStep(c: Config, evs: seq<Event>)
    requires evs != []
    ensures var n := |evs| - 1;
            Times(c, evs) == Times(c, evs[..n]) + if Do(c, Play(c, evs[..n]).0, evs[n]).1.Some? then [n] else []
  {
    hide Do, Play;
  }

  lemma EmissionLater(c: Config, evs: seq<Event>, i: nat, g: seq<Fragment>)
    requires evs != [] && i < |evs| - 1 && Emission(c, evs[..|evs| - 1], i, g)
    ensures Emission(c, evs, i, g)
  {
    assert evs[..|evs| - 1][..i] == evs[..i];
    hide Play, Complete, Open, Held;
  }

  lemma StepEmits(c: Config, evs: seq<Event>)
    requires evs != [] && c.maxBytes >= 1 && AllOpen(c, Play(c, evs[..|evs| - 1]).0)
    ensures var r := Do(c, Play(c, evs[..|evs| - 1]).0, evs[|evs| - 1]).1;
            r.Some? ==> Emission(c, evs, |evs| - 1, r.value)
  {
    hide Play, Complete, Open, AllOpen, Concat;
    var (m, ev) := (Play(c, evs[..|evs| - 1]).0, evs[|evs| - 1]);
    AlwaysSorted(c, evs[..|evs| - 1]);
    StepSorted(c, m, ev);
    StepOpen(c, m, ev);
  }

  // ---- Text ----

  function Logs(c: Config, out: seq<seq<Fragment>>): string {
    if out == [] then []
    else
      var g := out[|out| - 1];
      Logs(c, out[..|out| - 1]) + if g == [] then [] else Restored(c, g)
  }

  /** An emitted log with the newline docker's end marker stood for. */
  function Restored(c: Config, g: seq<Fragment>): string
    requires g != []
  {
    Render(c, g).log + if c.docker && Last(g).closes then "\n" else ""
  }

  lemma {:induction false} ConcatSplit(a: seq<Fragment>, b: seq<Fragment>)
    ensures Concat(a + b) == Concat(a) + Concat(b)
  {
    hide Concat;
    if b == [] {
      ConcatSnoc(a, Fragment([], [], [], false));
      assert a + b == a;
    } else {
      var n := |b| - 1;
      ConcatSplit(a, b[..n]);
      ConcatSnoc(b[..n], b[n]);
      ConcatSnoc(a + b[..n], b[n]);
      assert b == b[..n] + [b[n]] && a + b == (a + b[..n]) + [b[n]];
    }
  }

  lemma RestoredIsConcat(c: Config, g: seq<Fragment>)
    requires g != [] && Decoded(c, Last(g))
    ensures Restored(c, g) == Concat(g)
  {
    ConcatSnoc(g[..|g| - 1], Last(g));
    assert g[..|g| - 1] + [Last(g)] == g;
    var log := Concat(g);
    if c.docker && Last(g).closes {
      assert log[|log| - 1] == '\n';
      assert log[..|log| - 1] + "\n" == log;
    }
  }

  /** A stream's text survives whole: its logs, their line ends restored, and what is pending
      are the text it was fed. */
  lemma {:induction false} TextConserved(c: Config, evs: seq<Event>, x: string)
    requires forall k :: 0 <= k < |evs| && evs[k].Feed? ==> Decoded(c, evs[k].f)
    ensures Logs(c, Of(Play(c, evs).1, x)) + Concat(Held(Play(c, evs).0, x)) == Concat(Fed(evs, x))
  {
    Conserved(c, evs, x);
    FedIsDecoded(c, evs, x);
    var out := Of(Play(c, evs).1, x);
    ConcatSplit(Flatten(out), Held(Play(c, evs).0, x));
    assert forall k :: 0 <= k < |Flatten(out)| ==> Flatten(out)[k] == Fed(evs, x)[k];
    LogsAreText(c, out);
  }

  lemma {:induction false} FedIsDecoded(c: Config, evs: seq<Event>, x: string)
    requires forall k :: 0 <= k < |evs| && evs[k].Feed? ==> Decoded(c, evs[k].f)
    ensures forall k :: 0 <= k < |Fed(evs, x)| ==> Decoded(c, Fed(evs, x)[k])
  {
    if evs != [] {
      FedIsDecoded(c, evs[..|evs| - 1], x);
    }
  }

  lemma {:induction false} LogsAreText(c: Config, out: seq<seq<Fragment>>)
    requires forall k :: 0 <= k < |Flatten(out)| ==> Decoded(c, Flatten(out)[k])
    ensures Logs(c, out) == Concat(Flatten(out))
  {
    if out != [] {
      var (rest, g) := (out[..|out| - 1], out[|out| - 1]);
      assert Flatten(out) == Flatten(rest) + g;
      assert forall k :: 0 <= k < |Flatten(rest)| ==> Flatten(rest)[k] == Flatten(out)[k];
      LogsAreText(c, rest);
      ConcatSplit(Flatten(rest), g);
      if g != [] {
        assert Last(g) == Flatten(out)[|Flatten(out)| - 1];
        RestoredIsConcat(c, g);
      } else {
        assert Concat(g) == [];
      }
      hide Decoded, Restored;
    }
  }

  // ---- A split line comes back ----

  predicate Chunks(c: Config, g: seq<Fragment>, x: string) {
    && g != [] && (forall i :: 0 <= i < |g| ==> g[i].stream == x)
    && (forall i :: 0 <= i < |g| - 1 ==> !g[i].closes) && Last(g).closes
    && |Concat(g[..|g| - 1])| < c.maxBytes
  }

  function Feeds(g: seq<Fragment>): (evs: seq<Event>)
    ensures |evs| == |g|
  {
    seq(|g|, i requires 0 <= i < |g| => Feed(g[i]))
  }

  lemma FeedLast(c: Config, g: seq<Fragment>)
    requires g != []
    ensures var (m, out) := Play(c, Feeds(g[..|g| - 1]));
            var (m', r) := Accept(c, m, Last(g));
            Play(c, Feeds(g)) == (m', if r.Some? then out + [r.value] else out)
  {
    FeedsSnoc(g);
    hide Feeds, Accept, Play;
    PlaySnoc(c, Feeds(g[..|g| - 1]), Feed(Last(g)));
  }

  lemma FeedsSnoc(g: seq<Fragment>)
    requires g != []
    ensures Feeds(g) == Feeds(g[..|g| - 1]) + [Feed(Last(g))]
  {
  }

  lemma {:induction false} OpenFeeds(c: Config, g: seq<Fragment>, x: string)
    requires Open(c, g) && forall i :: 0 <= i < |g| ==> g[i].stream == x
    ensures Play(c, Feeds(g)) == (if g == [] then map[] else map[x := g], [])
  {
    if g == [] {
      assert Feeds(g) == [];
    } else {
      var (n, f) := (|g| - 1, Last(g));
      assert g == g[..n] + [f];
      ConcatSplit(g[..n], [f]);
      OpenFeeds(c, g[..n], x);
      FeedLast(c, g);
      hide Concat, Feeds, Play;
      assert Held(Play(c, Feeds(g[..n])).0, x) == g[..n];
      assert map[x := g[..n]][x := g] == map[x := g] && map[][x := g] == map[x := g];
    }
  }

  /** A line split into fragments is put together again, in whatever interleaving its stream
      shares with others, as one envelope with the first fragment's time. */
  lemma SplitLineComesBack(c: Config, evs: seq<Event>, g: seq<Fragment>, x: string)
    requires Chunks(c, g, x) && Only(evs, x) == Feeds(g)
    ensures Of(Play(c, evs).1, x) == [g] && Held(Play(c, evs).0, x) == []
    ensures Render(c, g).time == g[0].time && Render(c, g).stream == x
  {
    var (n, f) := (|g| - 1, Last(g));
    Projection(c, evs, x);
    OpenFeeds(c, g[..n], x);
    FeedLast(c, g);
    assert g == g[..n] + [f];
    hide Concat, Only, Of, Feeds, Play;
    assert Held(Play(c, Feeds(g[..n])).0, x) == g[..n];
  }
}
