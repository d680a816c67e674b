/** The exec collector's tag injection (metrics/exec.rs): the first unescaped space of a
    line is where its tag set ends, and splicing tags in there is the same as having
    encoded them, exactly when the names before it leave no escape open. */
module Exec {
  import opened Basics
  import opened LineProtocol
  import LineParser

  /** `escape_tag`: unlike a record's names, control bytes are kept. */
  function EscTag(s: string): string {
    if s == [] then [] else (if Special(s[0]) then [BACKSLASH, s[0]] else [s[0]]) + EscTag(s[1..])
  }

  function Splice(tags: seq<(string, string)>): string {
    if tags == [] then [] else "," + EscTag(tags[0].0) + "=" + EscTag(tags[0].1) + Splice(tags[1..])
  }

  /** Reading a prefix of a line: none once an unescaped space has gone by, otherwise
      whether its last byte escapes the next. */
  function Walk(s: string): Option<bool> {
    if s == [] then Some(false)
    else
      var c := s[|s| - 1];
      match Walk(s[..|s| - 1])
      case None => None
      case Some(escaped) =>
        if escaped then Some(false) else if c == BACKSLASH then Some(true) else if c == ' ' then None else Some(false)
  }

  /** The first unescaped space. */
  predicate Boundary(line: string, p: nat) {
    p < |line| && line[p] == ' ' && Walk(line[..p]) == Some(false)
  }

  ghost predicate Injected(line: string, tags: seq<(string, string)>, out: string) {
    && (tags == [] || !(exists p: nat :: Boundary(line, p)) ==> out == line)
    && (tags != [] ==> forall p: nat :: Boundary(line, p) ==> out == line[..p] + Splice(tags) + line[p..])
  }

  lemma {:induction false} WalkIsOver(s: string, n: nat)
    requires n <= |s| && Walk(s[..n]).None?
    ensures Walk(s).None?
  {
    if n < |s| {
      assert s[..|s| - 1][..n] == s[..n];
      WalkIsOver(s[..|s| - 1], n);
    } else {
      assert s[..n] == s;
    }
  }

  lemma OneBoundary(line: string, p: nat, q: nat)
    requires Boundary(line, p) && Boundary(line, q)
    ensures p == q
  {
    var (a, b) := (Min(p, q), Max(p, q));
    if a < b {
      assert line[..a + 1][..a] == line[..a];
      assert line[..b][..a + 1] == line[..a + 1];
      WalkIsOver(line[..b], a + 1);
    }
  }

  lemma EscTagStep(s: string)
    requires s != []
    ensures EscTag(s) == (if Special(s[0]) then [BACKSLASH, s[0]] else [s[0]]) + EscTag(s[1..])
  {
  }

  method EscapeTag(s: string) returns (out: string)
    ensures out == EscTag(s)
  {
    out := [];
    for i := 0 to |s|
      invariant out + EscTag(s[i..]) == EscTag(s)
    {
      EscTagStep(s[i..]);
      hide EscTag;
      assert s[i..][0] == s[i] && s[i..][1..] == s[i + 1..];
      if s[i] == ',' || s[i] == ' ' || s[i] == '=' {
        out := out + [BACKSLASH];
      }
      out := out + [s[i]];
    }
  }

  method InjectTags(line: string, tags: seq<(string, string)>) returns (out: string)
    ensures Injected(line, tags, out)
  {
    if tags == [] {
      return line;
    }
    var boundary: Option<nat> := None;
    var escaped := false;
    var i := 0;
    while i < |line| && boundary.None?
      invariant 0 <= i <= |line|
      invariant boundary.None? ==> Walk(line[..i]) == Some(escaped)
      invariant boundary.Some? ==> Boundary(line, boundary.value)
      decreases |line| - i, if boundary.None? then 1 else 0
    {
      var c := line[i];
      assert line[..i + 1][..i] == line[..i];
      if escaped {
        escaped := false;
        i := i + 1;
      } else if c == BACKSLASH {
        escaped := true;
        i := i + 1;
      } else if c == ' ' {
        boundary := Some(i);
      } else {
        i := i + 1;
      }
    }
    if boundary.None? {
      assert line[..i] == line;
      forall p: nat | Boundary(line, p) ensures false { PastBoundary(line, p); }
      return line;
    }
    var pos := boundary.value;
    out := line[..pos];
    for j := 0 to |tags|
      invariant out + Splice(tags[j..]) == line[..pos] + Splice(tags)
    {
      assert tags[j..][0] == tags[j] && tags[j..][1..] == tags[j + 1..];
      out := AppendTag(out, tags[j], tags[j + 1..]);
    }
    out := out + line[pos..];
    forall p: nat | Boundary(line, p) ensures p == pos { OneBoundary(line, p, pos); }
  }

  method AppendTag(out: string, t: (string, string), ghost more: seq<(string, string)>) returns (out': string)
    ensures out' + Splice(more) == out + Splice([t] + more)
  {
    hide EscTag;
    var (k, v) := (t.0, t.1);
    out' := out + ",";
    var escaped := EscapeTag(k);
    out' := out' + escaped + "=";
    escaped := EscapeTag(v);
    out' := out' + escaped;
    assert ([t] + more)[1..] == more;
  }

  lemma PastBoundary(line: string, p: nat)
    requires Boundary(line, p)
    ensures Walk(line).None?
  {
    assert line[..p + 1][..p] == line[..p];
    WalkIsOver(line, p + 1);
  }

  // ---- Injecting is encoding with the tags appended ----

  predicate NoControl(s: string) {
    forall k :: 0 <= k < |s| ==> !Control(s[k])
  }

  predicate TagsNoControl(tags: seq<(string, string)>) {
    forall k :: 0 <= k < |tags| ==> NoControl(tags[k].0) && NoControl(tags[k].1)
  }

  /** The two escapes are equally long, and differ only in what they do with control bytes. */
  lemma {:induction false} SameEscape(s: string)
    ensures |EscTag(s)| == |EscKey(s)| && (EscTag(s) == EscKey(s) <==> NoControl(s))
  {
    if s != [] {
      var (c, d) := (if Special(s[0]) then [BACKSLASH, s[0]] else [s[0]], EscKeyChar(s[0]));
      SameEscape(s[1..]);
      EscTagStep(s);
      EscKeyStep(s);
      assert NoControl(s) <==> !Control(s[0]) && NoControl(s[1..]) by {
        assert forall k :: 1 <= k < |s| ==> s[k] == s[1..][k - 1];
      }
      hide EscTag, EscKey, NoControl;
      SameParts(c, EscTag(s[1..]), d, EscKey(s[1..]));
      assert c == d <==> !Control(s[0]);
    }
  }

  lemma SameParts(a: string, b: string, c: string, d: string)
    requires |a| == |c|
    ensures a + b == c + d <==> a == c && b == d
  {
    if a + b == c + d {
      assert (a + b)[..|a|] == a && (c + d)[..|a|] == c && (a + b)[|a|..] == b && (c + d)[|a|..] == d;
    }
  }

  lemma {:induction false} SpliceIsTagsText(tags: seq<(string, string)>)
    ensures |Splice(tags)| == |TagsText(tags)| && (Splice(tags) == TagsText(tags) <==> TagsNoControl(tags))
  {
    hide *;
    if tags == [] {
      NothingSpliced();
    } else {
      SpliceIsTagsText(tags[1..]);
      SpliceStep(tags);
      SameTag(tags[0]);
      SameParts(SpliceOne(tags[0]), Splice(tags[1..]), TagText(tags[0]), TagsText(tags[1..]));
    }
  }

  lemma NothingSpliced()
    ensures Splice([]) == TagsText([]) == [] && TagsNoControl([])
  {
  }

  function SpliceOne(t: (string, string)): string {
    "," + EscTag(t.0) + "=" + EscTag(t.1)
  }

  lemma SpliceStep(tags: seq<(string, string)>)
    requires tags != []
    ensures Splice(tags) == SpliceOne(tags[0]) + Splice(tags[1..])
    ensures TagsText(tags) == TagText(tags[0]) + TagsText(tags[1..])
    ensures TagsNoControl(tags) <==> NoControl(tags[0].0) && NoControl(tags[0].1) && TagsNoControl(tags[1..])
  {
    hide EscTag, EscKey, NoControl;
    assert forall k :: 1 <= k < |tags| ==> tags[k] == tags[1..][k - 1];
  }

  lemma SameTag(t: (string, string))
    ensures |SpliceOne(t)| == |TagText(t)| && (SpliceOne(t) == TagText(t) <==> NoControl(t.0) && NoControl(t.1))
  {
    SameEscape(t.0);
    SameEscape(t.1);
    hide EscTag, EscKey, NoControl;
    var (a, b) := ("," + EscTag(t.0), "," + EscKey(t.0));
    SameParts(",", EscTag(t.0), ",", EscKey(t.0));
    SameParts(a, "=", b, "=");
    SameParts(a + "=", EscTag(t.1), b + "=", EscKey(t.1));
  }

  /** Measurement and tag set, as encoded. */
  function Head(r: Record): string {
    EscKey(r.table) + TagsText(r.tags)
  }

  function Tail(r: Record): string {
    " " + FieldsText(r.fields) + " " + PrintInt(r.ts)
  }

  /** An encoded record as the collector reads it, without its newline. */
  function Line(r: Record): string {
    Head(r) + Tail(r)
  }

  lemma LineIsRecord(r: Record)
    ensures Line(r) + "\n" == RecordText(r)
  {
    hide EscKey, TagsText, FieldsText, PrintInt;
  }

  function Tagged(r: Record, tags: seq<(string, string)>): Record {
    r.(tags := r.tags + tags)
  }

  lemma TaggedLine(r: Record, tags: seq<(string, string)>)
    ensures Line(Tagged(r, tags)) == Head(r) + (TagsText(tags) + Tail(r))
  {
    TagsTextSplit(r.tags, tags);
    hide EscKey, TagsText, FieldsText, PrintInt;
    LineProtocol.Regroup(EscKey(r.table), TagsText(r.tags), TagsText(tags), Tail(r));
  }

  /** Injecting into an encoded record equals encoding it with the tags appended exactly
      when its measurement and tag set leave no escape open and no space bare, and the
      injected tags hold no control byte. */
  lemma InjectIff(r: Record, tags: seq<(string, string)>, out: string)
    requires tags != [] && Injected(Line(r), tags, out)
    ensures out == Line(Tagged(r, tags)) <==> Walk(Head(r)) == Some(false) && TagsNoControl(tags)
  {
    hide EscKey, TagsText, FieldsText, PrintInt, Walk, Splice, Head, Tail, Line, Tagged, TagsNoControl;
    var (line, h) := (Line(r), |Head(r)|);
    SpliceIsTagsText(tags);
    SpliceStarts(tags);
    TaggedLine(r, tags);
    LineParts(r);
    if Walk(Head(r)) == Some(false) {
      assert Boundary(line, h);
      assert out == Head(r) + (Splice(tags) + Tail(r));
      SameParts(Head(r), Splice(tags) + Tail(r), Head(r), TagsText(tags) + Tail(r));
      SameParts(Splice(tags), Tail(r), TagsText(tags), Tail(r));
    } else if p: nat :| Boundary(line, p) {
      assert p != h;
      SplicedElsewhere(line, h, p, Splice(tags), TagsText(tags));
    } else {
      assert |Head(r) + (TagsText(tags) + Tail(r))| > |Head(r) + Tail(r)|;
    }
  }

  lemma LineParts(r: Record)
    ensures var (line, h) := (Line(r), |Head(r)|);
            && line == Head(r) + Tail(r) && h < |line|
            && line[..h] == Head(r) && line[h] == ' ' && line[h..] == Tail(r)
  {
    hide EscKey, TagsText, FieldsText, PrintInt, Head;
    assert Tail(r)[0] == ' ';
  }

  lemma SpliceStarts(tags: seq<(string, string)>)
    requires tags != []
    ensures Splice(tags) != [] && Splice(tags)[0] == ','
    ensures TagsText(tags) != [] && TagsText(tags)[0] == ','
  {
    hide EscTag, EscKey;
  }

  /** Tags spliced in at another space do not give the same line. */
  lemma SplicedElsewhere(line: string, h: nat, p: nat, t: string, u: string)
    requires h < |line| && p < |line| && p != h && line[h] == ' ' && line[p] == ' '
    requires t != [] && u != [] && t[0] != ' ' && u[0] != ' '
    ensures line[..p] + t + line[p..] != line[..h] + (u + line[h..])
  {
    var (a, b) := (line[..p] + t + line[p..], line[..h] + (u + line[h..]));
    if p < h {
      assert a[p] == t[0] && b[p] == ' ';
    } else {
      assert a[h] == ' ' && b[h] == u[0];
    }
  }

  lemma {:induction false} WalkOn(a: string, b: string)
    requires Walk(a) == Some(false)
    ensures Walk(a + b) == Walk(b)
  {
    if b == [] {
      assert a + b == a;
    } else {
      WalkOn(a, b[..|b| - 1]);
      assert (a + b)[..|a + b| - 1] == a + b[..|b| - 1];
    }
  }

  /** A name free of control bytes and backslashes. */
  predicate PlainName(n: string) {
    forall k :: 0 <= k < |n| ==> !Control(n[k]) && n[k] != BACKSLASH
  }

  predicate PlainTags(tags: seq<(string, string)>) {
    forall k :: 0 <= k < |tags| ==> PlainName(tags[k].0) && PlainName(tags[k].1)
  }

  lemma WalkChar(c: char)
    requires !Control(c) && c != BACKSLASH
    ensures Walk(EscKeyChar(c)) == Some(false)
  {
    var s := EscKeyChar(c);
    assert s[..|s| - 1] == if Special(c) then [BACKSLASH] else [];
    assert [BACKSLASH][..0] == [];
    assert Walk([]) == Some(false) && Walk([BACKSLASH]) == Some(true);
  }

  lemma {:induction false} WalkName(n: string)
    requires PlainName(n)
    ensures Walk(EscKey(n)) == Some(false)
  {
    if n != [] {
      WalkChar(n[0]);
      WalkName(n[1..]);
      EscKeyStep(n);
      WalkOn(EscKeyChar(n[0]), EscKey(n[1..]));
    }
  }

  lemma {:induction false} WalkTags(tags: seq<(string, string)>)
    requires PlainTags(tags)
    ensures Walk(TagsText(tags)) == Some(false)
  {
    if tags != [] {
      var (k, v, more) := (EscKey(tags[0].0), EscKey(tags[0].1), TagsText(tags[1..]));
      assert "," [..0] == [] && "="[..0] == [];
      WalkName(tags[0].0);
      WalkName(tags[0].1);
      WalkTags(tags[1..]);
      assert TagsText(tags) == ((("," + k) + "=") + v) + more by { hide EscKey; }
      hide EscKey, TagsText;
      assert Walk(",") == Some(false) && Walk("=") == Some(false);
      hide Walk;
      WalkOn(",", k);
      WalkOn("," + k, "=");
      WalkOn("," + k + "=", v);
      WalkOn("," + k + "=" + v, more);
    }
  }

  /** So it always is for names free of backslash and control bytes. */
  lemma InjectPlain(r: Record, tags: seq<(string, string)>, out: string)
    requires PlainName(r.table) && PlainTags(r.tags) && TagsNoControl(tags) && Injected(Line(r), tags, out)
    ensures out == Line(Tagged(r, tags))
  {
    if tags == [] {
      assert r.tags + tags == r.tags;
    } else {
      WalkName(r.table);
      WalkTags(r.tags);
      hide Injected, EscKey, TagsText, Walk, Line;
      WalkOn(EscKey(r.table), TagsText(r.tags));
      InjectIff(r, tags, out);
    }
  }

  function Backslashes(n: nat): string {
    seq(n, _ => BACKSLASH)
  }

  lemma {:induction false} WalkBackslashes(name: string, n: nat)
    requires PlainName(name)
    ensures EscKey(name + Backslashes(n)) == EscKey(name) + Backslashes(n)
    ensures Walk(EscKey(name) + Backslashes(n)) == Some(n % 2 == 1)
  {
    hide *;
    WalkName(name);
    MoreBackslashes(n);
    if n == 0 {
      assert name + Backslashes(0) == name && EscKey(name) + Backslashes(0) == EscKey(name);
    } else {
      var s := EscKey(name) + Backslashes(n - 1);
      WalkBackslashes(name, n - 1);
      assert name + Backslashes(n) == name + Backslashes(n - 1) + [BACKSLASH];
      assert EscKey(name) + Backslashes(n) == s + [BACKSLASH];
      EscKeySnoc(name + Backslashes(n - 1), BACKSLASH);
      OneMoreBackslash(s);
    }
  }

  lemma MoreBackslashes(n: nat)
    ensures if n == 0 then Backslashes(n) == [] else Backslashes(n) == Backslashes(n - 1) + [BACKSLASH]
  {
  }

  lemma OneMoreBackslash(s: string)
    requires Walk(s).Some?
    ensures EscKeyChar(BACKSLASH) == [BACKSLASH] && Walk(s + [BACKSLASH]) == Some(!Walk(s).value)
  {
    assert (s + [BACKSLASH])[..|s|] == s;
  }

  /** A measurement without tags whose plain name ends in backslashes: an odd number hides
      the boundary, and the tags go elsewhere or nowhere; an even number does no harm. */
  lemma TableEndingInBackslash(r: Record, name: string, n: nat, tags: seq<(string, string)>, out: string)
    requires PlainName(name) && r.table == name + Backslashes(n) && r.tags == []
    requires tags != [] && TagsNoControl(tags) && Injected(Line(r), tags, out)
    ensures out == Line(Tagged(r, tags)) <==> n % 2 == 0
  {
    WalkBackslashes(name, n);
    assert Head(r) == EscKey(name) + Backslashes(n);
    hide *;
    InjectIff(r, tags, out);
  }

  /** End to end: the parser reads the injected line as the record with the tags added. */
  lemma InjectedParses(r: Record, tags: seq<(string, string)>, out: string)
    requires Encode(r).Ok? && FloatsPrinted(r.fields)
    requires PlainName(r.table) && PlainTags(r.tags) && PlainTags(tags) && LineParser.CleanFields(r.fields)
    requires Injected(Line(r), tags, out)
    ensures LineParser.Parse(out + "\n") == Some(LineParser.Normalised(Tagged(r, tags)))
  {
    var t := Tagged(r, tags);
    InjectPlain(r, tags, out);
    LineIsRecord(t);
    PlainIsClean(t);
    assert Encode(t) == Ok(RecordText(t));
    hide *;
    LineParser.RecordRoundTripIff(t);
  }

  lemma PlainIsClean(r: Record)
    requires PlainName(r.table) && PlainTags(r.tags) && LineParser.CleanFields(r.fields)
    ensures LineParser.CleanRecord(r)
  {
  }
}
