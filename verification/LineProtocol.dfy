/** Line-protocol encoding (lp.rs): names and string fields escaped, records refused or
    written whole, and exactly one newline each. Module `LineParser` reads them back. */
module LineProtocol {
  import opened Basics
  import Decimal
  import Lines

  /** A printed float is finite text; `finite` is false for NaN and the infinities. */
  datatype Value = Str(s: string) | Int(n: int) | Float(text: string, finite: bool) | Bool(b: bool)

  datatype Record = Record(table: string, tags: seq<(string, string)>, fields: seq<(string, Value)>, ts: int)

  datatype Encoded = Ok(text: string) | EmptyTable | NoFields | NonFinite(key: string)

  const BACKSLASH: char := '\\'
  const QUOTE: char := '"'

  predicate Control(c: char) {
    (c as int) < 0x20
  }

  /** The bytes a name must escape. */
  predicate Special(c: char) {
    c == ',' || c == '=' || c == ' '
  }

  // ---- Escaping ----

  function EscKeyChar(c: char): string {
    if Special(c) then [BACKSLASH, c] else if Control(c) then [' '] else [c]
  }

  function EscKey(s: string): string {
    if s == [] then [] else EscKeyChar(s[0]) + EscKey(s[1..])
  }

  function EscBodyChar(c: char): string {
    if c == QUOTE || c == BACKSLASH then [BACKSLASH, c]
    else if c == '\n' then "\\n"
    else if c == '\r' then []
    else if Control(c) then [' ']
    else [c]
  }

  function EscBody(s: string): string {
    if s == [] then [] else EscBodyChar(s[0]) + EscBody(s[1..])
  }

  function EscStr(s: string): string {
    [QUOTE] + EscBody(s) + [QUOTE]
  }

  lemma Regroup(a: string, b: string, c: string, d: string)
    ensures a + (b + c) + d == a + (b + (c + d))
  {
  }

  lemma EscKeyEmpty()
    ensures EscKey([]) == []
  {
  }

  lemma EscKeyStep(u: string)
    requires u != []
    ensures EscKey(u) == EscKeyChar(u[0]) + EscKey(u[1..])
  {
  }

  lemma {:induction false} EscKeySplit(a: string, b: string)
    ensures EscKey(a + b) == EscKey(a) + EscKey(b)
  {
    hide *;
    if a == [] {
      EscKeyEmpty();
      assert a + b == b && [] + EscKey(b) == EscKey(b);
    } else {
      EscKeyStep(a);
      EscKeyStep(a + b);
      EscKeySplit(a[1..], b);
      assert (a + b)[1..] == a[1..] + b;
    }
  }

  lemma EscKeyOne(c: char)
    ensures EscKey([c]) == EscKeyChar(c)
  {
    assert [c][1..] == [];
  }

  lemma EscKeySnoc(s: string, c: char)
    ensures EscKey(s + [c]) == EscKey(s) + EscKeyChar(c)
  {
    EscKeySplit(s, [c]);
    EscKeyOne(c);
  }

  lemma EscBodyEmpty()
    ensures EscBody([]) == []
  {
  }

  lemma {:induction false} EscBodySnoc(s: string, c: char)
    ensures EscBody(s + [c]) == EscBody(s) + EscBodyChar(c)
  {
    hide EscBodyChar;
    if s == [] {
      assert ([] + [c])[1..] == [];
    } else {
      EscBodySnoc(s[1..], c);
      assert (s + [c])[1..] == s[1..] + [c];
    }
  }

  method AppendKey(out: string, s: string) returns (out': string)
    ensures out' == out + EscKey(s)
  {
    hide EscKey;
    EscKeyEmpty();
    out' := out;
    for i := 0 to |s|
      invariant out' == out + EscKey(s[..i])
    {
      EscKeySnoc(s[..i], s[i]);
      assert s[..i + 1] == s[..i] + [s[i]];
      var c := s[i];
      if c == ',' || c == '=' || c == ' ' {
        out' := out' + [BACKSLASH];
        out' := out' + [c];
      } else if Control(c) {
        out' := out' + [' '];
      } else {
        out' := out' + [c];
      }
    }
    assert s[..|s|] == s;
  }

  method AppendStr(out: string, s: string) returns (out': string)
    ensures out' == out + EscStr(s)
  {
    hide EscBody;
    EscBodyEmpty();
    out' := out + [QUOTE];
    for i := 0 to |s|
      invariant out' == out + [QUOTE] + EscBody(s[..i])
    {
      EscBodySnoc(s[..i], s[i]);
      assert s[..i + 1] == s[..i] + [s[i]];
      var c := s[i];
      if c == QUOTE || c == BACKSLASH {
        out' := out' + [BACKSLASH];
        out' := out' + [c];
      } else if c == '\n' {
        out' := out' + "\\n";
      } else if c == '\r' {
      } else if Control(c) {
        out' := out' + [' '];
      } else {
        out' := out' + [c];
      }
    }
    assert s[..|s|] == s;
    out' := out' + [QUOTE];
  }

  // ---- Encoding ----

  function PrintInt(n: int): (s: string)
    ensures s != []
  {
    if n < 0 then "-" + Decimal.Digits(-n) else Decimal.Digits(n)
  }

  function ValueText(v: Value): string {
    match v
    case Str(s) => EscStr(s)
    case Int(n) => PrintInt(n) + "i"
    case Float(text, _) => text
    case Bool(b) => if b then "true" else "false"
  }

  function TagText(t: (string, string)): string {
    "," + EscKey(t.0) + "=" + EscKey(t.1)
  }

  function TagsText(tags: seq<(string, string)>): string {
    if tags == [] then [] else TagText(tags[0]) + TagsText(tags[1..])
  }

  function FieldText(f: (string, Value)): string {
    EscKey(f.0) + "=" + ValueText(f.1)
  }

  function FieldsText(fields: seq<(string, Value)>): string {
    if fields == [] then []
    else if |fields| == 1 then FieldText(fields[0])
    else FieldText(fields[0]) + "," + FieldsText(fields[1..])
  }

  function RecordText(r: Record): string {
    EscKey(r.table) + TagsText(r.tags) + " " + FieldsText(r.fields) + " " + PrintInt(r.ts) + "\n"
  }

  /** The first field that cannot be written. */
  function FirstNonFinite(fields: seq<(string, Value)>): Option<string> {
    if fields == [] then None
    else if fields[0].1.Float? && !fields[0].1.finite then Some(fields[0].0)
    else FirstNonFinite(fields[1..])
  }

  function Encode(r: Record): Encoded {
    if r.table == [] then EmptyTable
    else if r.fields == [] then NoFields
    else if FirstNonFinite(r.fields).Some? then NonFinite(FirstNonFinite(r.fields).value)
    else Ok(RecordText(r))
  }

  /** A NaN or an infinity, which has no text. */
  predicate Unwritable(v: Value) {
    v.Float? && !v.finite
  }

  /** The records that are written: a table, at least one field, and no field without text. */
  predicate Writable(r: Record) {
    r.table != [] && r.fields != [] && forall k :: 0 <= k < |r.fields| ==> !Unwritable(r.fields[k].1)
  }

  lemma {:induction false} FirstNonFiniteIs(fields: seq<(string, Value)>)
    ensures FirstNonFinite(fields).None? <==> forall k :: 0 <= k < |fields| ==> !Unwritable(fields[k].1)
    ensures FirstNonFinite(fields).Some? ==>
              exists k :: 0 <= k < |fields| && Unwritable(fields[k].1) && fields[k].0 == FirstNonFinite(fields).value
                          && forall j :: 0 <= j < k ==> !Unwritable(fields[j].1)
  {
    if fields != [] {
      var (first, rest) := (fields[0], fields[1..]);
      assert forall k :: 0 < k < |fields| ==> fields[k] == rest[k - 1];
      if !Unwritable(first.1) {
        FirstNonFiniteIs(rest);
        if FirstNonFinite(rest).Some? {
          var k :| 0 <= k < |rest| && Unwritable(rest[k].1) && rest[k].0 == FirstNonFinite(rest).value
                   && forall j :: 0 <= j < k ==> !Unwritable(rest[j].1);
          assert fields[k + 1] == rest[k];
        }
      }
    }
  }

  /** Which records are written, and why the others are not. */
  ghost predicate Verdict(r: Record, e: Encoded) {
    && (e.Ok? <==> Writable(r))
    && (e.EmptyTable? <==> r.table == [])
    && (e.NoFields? <==> r.table != [] && r.fields == [])
    && (e.NonFinite? ==>
          exists k :: 0 <= k < |r.fields| && Unwritable(r.fields[k].1) && r.fields[k].0 == e.key
                      && forall j :: 0 <= j < k ==> !Unwritable(r.fields[j].1))
  }

  lemma EncodeVerdict(r: Record)
    ensures Verdict(r, Encode(r))
  {
    FirstNonFiniteIs(r.fields);
    hide RecordText;
  }

  lemma {:induction false} TagsTextSplit(a: seq<(string, string)>, b: seq<(string, string)>)
    ensures TagsText(a + b) == TagsText(a) + TagsText(b)
  {
    hide *;
    TagsTextEmpty();
    if a == [] {
      assert a + b == b && [] + TagsText(b) == TagsText(b);
    } else {
      TagsTextStep(a);
      TagsTextStep(a + b);
      TagsTextSplit(a[1..], b);
      assert (a + b)[1..] == a[1..] + b;
    }
  }

  lemma TagsTextEmpty()
    ensures TagsText([]) == []
  {
  }

  lemma TagsTextStep(tags: seq<(string, string)>)
    requires tags != []
    ensures TagsText(tags) == TagText(tags[0]) + TagsText(tags[1..])
  {
  }

  lemma TagsTextSnoc(tags: seq<(string, string)>, t: (string, string))
    ensures TagsText(tags + [t]) == TagsText(tags) + TagText(t)
  {
    TagsTextSplit(tags, [t]);
    assert [t][1..] == [];
  }

  lemma {:induction false} FieldsTextSnoc(fields: seq<(string, Value)>, f: (string, Value))
    ensures FieldsText(fields + [f]) == (if fields == [] then [] else FieldsText(fields) + ",") + FieldText(f)
  {
    hide *;
    FieldsTextStep(fields);
    FieldsTextStep(fields + [f]);
    if fields == [] {
      assert fields + [f] == [f] && [] + FieldText(f) == FieldText(f);
    } else {
      assert (fields + [f])[1..] == fields[1..] + [f];
      FieldsTextSnoc(fields[1..], f);
      if |fields| > 1 {
        var first := FieldText(fields[0]) + ",";
        assert first + (FieldsText(fields[1..]) + "," + FieldText(f))
            == first + FieldsText(fields[1..]) + "," + FieldText(f);
      }
    }
  }

  lemma FieldsTextStep(fields: seq<(string, Value)>)
    ensures |fields| == 1 ==> FieldsText(fields) == FieldText(fields[0])
    ensures |fields| > 1 ==> FieldsText(fields) == FieldText(fields[0]) + "," + FieldsText(fields[1..])
  {
    hide FieldText;
  }

  /** `Record::encode`, appending to a batch: nothing is written unless all of it is. */
  method EncodeInto(r: Record, out: string) returns (e: Encoded, out': string)
    ensures e == Encode(r) && Verdict(r, e)
    ensures out' == if e.Ok? then out + e.text else out
  {
    EncodeVerdict(r);
    out' := out;
    if r.table == [] {
      return EmptyTable, out';
    }
    if r.fields == [] {
      return NoFields, out';
    }
    for i := 0 to |r.fields|
      invariant FirstNonFinite(r.fields) == FirstNonFinite(r.fields[i..])
    {
      if r.fields[i].1.Float? && !r.fields[i].1.finite {
        return NonFinite(r.fields[i].0), out';
      }
      assert r.fields[i..][1..] == r.fields[i + 1..];
    }
    var text := RecordTextOf(r);
    e := Ok(text);
    out' := out + text;
  }

  method RecordTextOf(r: Record) returns (text: string)
    ensures text == RecordText(r)
  {
    hide EscKey, TagsText, FieldsText, PrintInt;
    text := AppendKey([], r.table);
    text := AppendTags(text, r.tags);
    text := text + " ";
    text := AppendFields(text, r.fields);
    text := text + " " + PrintInt(r.ts);
    text := text + "\n";
  }

  method AppendTags(out: string, tags: seq<(string, string)>) returns (out': string)
    ensures out' == out + TagsText(tags)
  {
    hide *;
    TagsTextEmpty();
    out' := out;
    for i := 0 to |tags|
      invariant out' == out + TagsText(tags[..i])
    {
      TagsTextSnoc(tags[..i], tags[i]);
      assert tags[..i + 1] == tags[..i] + [tags[i]];
      out' := AppendTag(out', tags[i]);
    }
    assert tags[..|tags|] == tags;
  }

  method AppendTag(out: string, t: (string, string)) returns (out': string)
    ensures out' == out + TagText(t)
  {
    hide EscKey;
    out' := out + ",";
    out' := AppendKey(out', t.0);
    out' := out' + "=";
    out' := AppendKey(out', t.1);
  }

  lemma FieldsTextEmpty()
    ensures FieldsText([]) == []
  {
  }

  method AppendFields(out: string, fields: seq<(string, Value)>) returns (out': string)
    ensures out' == out + FieldsText(fields)
  {
    FieldsTextEmpty();
    hide *;
    out' := out;
    for i := 0 to |fields|
      invariant out' == out + FieldsText(fields[..i])
    {
      FieldsTextSnoc(fields[..i], fields[i]);
      assert fields[..i + 1] == fields[..i] + [fields[i]];
      if i > 0 {
        out' := out' + ",";
      }
      out' := AppendField(out', fields[i]);
    }
    assert fields[..|fields|] == fields;
  }

  method AppendField(out: string, f: (string, Value)) returns (out': string)
    ensures out' == out + FieldText(f)
  {
    hide EscKey, EscStr;
    out' := AppendKey(out, f.0);
    out' := out' + "=";
    match f.1 {
      case Str(s) => out' := AppendStr(out', s);
      case Int(n) => out' := out' + (PrintInt(n) + "i");
      case Float(text, _) => out' := out' + text;
      case Bool(b) => out' := out' + if b then "true" else "false";
    }
  }

  // ---- The documented shape ----

  /** A name with nothing to escape. */
  predicate PlainKey(s: string) {
    forall k :: 0 <= k < |s| ==> !Special(s[k]) && !Control(s[k])
  }

  /** A string with nothing to escape. */
  predicate PlainBody(s: string) {
    forall k :: 0 <= k < |s| ==> s[k] != '"' && s[k] != '\\' && !Control(s[k])
  }

  /** Names are written as they are exactly if there is nothing to escape. */
  lemma {:induction false} EscKeyPlainIff(s: string)
    ensures EscKey(s) == s <==> PlainKey(s)
  {
    if s != [] {
      EscKeyPlainIff(s[1..]);
      assert s == [s[0]] + s[1..];
      assert PlainKey(s) <==> !Special(s[0]) && !Control(s[0]) && PlainKey(s[1..]);
      if EscKeyChar(s[0]) == [s[0]] { assert EscKey(s)[1..] == EscKey(s[1..]); }
    }
  }

  /** Byte by byte: a comma, equals sign or space has a backslash before it, a control byte is
      a space, and every other byte is itself. */
  lemma EscKeyAt(a: string, c: char, b: string)
    ensures EscKey(a + [c] + b) == EscKey(a) + (if c == ',' || c == '=' || c == ' ' then ['\\', c]
                                                else if c < 32 as char then " "
                                                else [c]) + EscKey(b)
  {
    EscKeySplit(a + [c], b);
    EscKeySnoc(a, c);
    hide EscKey;
  }

  lemma {:induction false} EscBodyPlain(s: string)
    requires PlainBody(s)
    ensures EscBody(s) == s
  {
    if s != [] {
      EscBodyPlain(s[1..]);
      assert s == [s[0]] + s[1..];
    }
  }

  lemma PlainTag(t: (string, string))
    requires PlainKey(t.0) && PlainKey(t.1)
    ensures TagsText([t]) == "," + t.0 + "=" + t.1
  {
    EscKeyPlainIff(t.0);
    EscKeyPlainIff(t.1);
    TagsTextSnoc([], t);
    TagsTextEmpty();
    hide EscKey, TagsText;
    assert [] + [t] == [t] && [] + TagText(t) == TagText(t);
  }

  lemma PlainField(f: (string, Value))
    requires PlainKey(f.0) && (f.1.Str? ==> PlainBody(f.1.s))
    ensures FieldText(f) == f.0 + "=" + match f.1
                                        case Str(s) => "\"" + s + "\""
                                        case Int(n) => PrintInt(n) + "i"
                                        case Float(text, _) => text
                                        case Bool(b) => if b then "true" else "false"
  {
    EscKeyPlainIff(f.0);
    if f.1.Str? { EscBodyPlain(f.1.s); }
    hide EscKey, EscBody, PrintInt;
  }

  /** A record with nothing to escape, one tag, and a field of each kind: measurement and tags,
      the fields with a string in quotes, an integer with its `i`, a number and a truth value
      as they are, and the stamp, each part a space from the next, and a newline. */
  lemma DocumentedShape(table: string, tag: (string, string), a: (string, string), b: (string, int),
                        c: (string, string), d: (string, bool), ts: int)
    requires table != [] && PlainKey(table) && PlainKey(tag.0) && PlainKey(tag.1)
    requires PlainKey(a.0) && PlainBody(a.1) && PlainKey(b.0) && PlainKey(c.0) && PlainKey(d.0)
    ensures var fields := [(a.0, Str(a.1)), (b.0, Int(b.1)), (c.0, Float(c.1, true)), (d.0, Bool(d.1))];
            var texts := a.0 + "=" + ("\"" + a.1 + "\"") + "," + (b.0 + "=" + (PrintInt(b.1) + "i")) + "," +
                         (c.0 + "=" + c.1) + "," + (d.0 + "=" + if d.1 then "true" else "false");
            Encode(Record(table, [tag], fields, ts))
            == Ok(table + ("," + tag.0 + "=" + tag.1) + " " + texts + " " + PrintInt(ts) + "\n")
  {
    var fields := [(a.0, Str(a.1)), (b.0, Int(b.1)), (c.0, Float(c.1, true)), (d.0, Bool(d.1))];
    var r := Record(table, [tag], fields, ts);
    EncodesAll(r);
    hide *;
    EscKeyPlainIff(table);
    PlainTag(tag);
    PlainField(fields[0]);
    PlainField(fields[1]);
    PlainField(fields[2]);
    PlainField(fields[3]);
    FourFields(fields[0], fields[1], fields[2], fields[3]);
  }

  lemma EncodesAll(r: Record)
    requires Writable(r)
    ensures Encode(r)
            == Ok(EscKey(r.table) + TagsText(r.tags) + " " + FieldsText(r.fields) + " " + PrintInt(r.ts) + "\n")
  {
    EncodeVerdict(r);
    hide Writable, EscKey, TagsText, FieldsText, PrintInt;
  }

  lemma FourFields(a: (string, Value), b: (string, Value), c: (string, Value), d: (string, Value))
    ensures FieldsText([a, b, c, d]) == FieldText(a) + "," + FieldText(b) + "," + FieldText(c) + "," + FieldText(d)
  {
    hide FieldText;
    FieldsTextSnoc([], a);
    FieldsTextSnoc([a], b);
    FieldsTextSnoc([a, b], c);
    FieldsTextSnoc([a, b, c], d);
    hide *;
    assert [] + [a] == [a] && [a] + [b] == [a, b] && [a, b] + [c] == [a, b, c] && [a, b, c] + [d] == [a, b, c, d];
    assert [] + FieldText(a) == FieldText(a);
  }

  // ---- One newline, at the end ----

  /** What a finite float prints as: digits, a sign, a point. */
  predicate FloatText(t: string) {
    t != [] && forall k :: 0 <= k < |t| ==> Decimal.IsDigit(t[k]) || t[k] == '.' || t[k] == '-'
  }

  /** Nothing is asked of the text of a NaN or an infinity: it is never written. */
  predicate FloatsPrinted(fields: seq<(string, Value)>) {
    forall k :: 0 <= k < |fields| && fields[k].1.Float? && fields[k].1.finite ==> FloatText(fields[k].1.text)
  }

  lemma {:induction false} EscKeyNoNewline(s: string)
    ensures '\n' !in EscKey(s)
  {
    if s != [] { EscKeyNoNewline(s[1..]); }
  }

  lemma {:induction false} EscBodyNoNewline(s: string)
    ensures '\n' !in EscBody(s)
  {
    if s != [] { EscBodyNoNewline(s[1..]); }
  }

  lemma DigitsArePlain(n: nat)
    ensures forall c :: c in Decimal.Digits(n) ==> Decimal.IsDigit(c)
  {
  }

  lemma IntTextIsPlain(n: int)
    ensures forall c :: c in PrintInt(n) ==> Decimal.IsDigit(c) || c == '-'
  {
    DigitsArePlain(if n < 0 then -n else n);
  }

  lemma ValueNoNewline(v: Value)
    requires v.Float? ==> FloatText(v.text)
    ensures '\n' !in ValueText(v)
  {
    match v
    case Str(s) => EscBodyNoNewline(s);
    case Int(n) => IntTextIsPlain(n);
    case Float(text, _) => assert forall c :: c in text ==> Decimal.IsDigit(c) || c == '.' || c == '-';
    case Bool(b) =>
  }

  lemma {:induction false} TagsNoNewline(tags: seq<(string, string)>)
    ensures '\n' !in TagsText(tags)
  {
    if tags != [] {
      TagsNoNewline(tags[1..]);
      EscKeyNoNewline(tags[0].0);
      EscKeyNoNewline(tags[0].1);
    }
  }

  lemma {:induction false} FieldsNoNewline(fields: seq<(string, Value)>)
    requires FloatsPrinted(fields) && FirstNonFinite(fields).None?
    ensures '\n' !in FieldsText(fields)
  {
    if fields != [] {
      EscKeyNoNewline(fields[0].0);
      ValueNoNewline(fields[0].1);
      FieldsNoNewline(fields[1..]);
    }
  }

  /** Whatever a record holds, if it is written its text is one line: the batch splits where
      it was joined. */
  lemma EncodesOneLine(r: Record)
    requires Encode(r).Ok? && FloatsPrinted(r.fields)
    ensures Lines.IsLine(Encode(r).text)
  {
    EscKeyNoNewline(r.table);
    TagsNoNewline(r.tags);
    FieldsNoNewline(r.fields);
    IntTextIsPlain(r.ts);
    var body := EscKey(r.table) + TagsText(r.tags) + " " + FieldsText(r.fields) + " " + PrintInt(r.ts);
    assert RecordText(r) == body + "\n";
    assert '\n' !in body;
  }

  /** So a spooled segment comes back as the batch that went in. */
  lemma {:induction false} SegmentRoundTrip(records: seq<Record>, lines: seq<string>)
    requires |records| == |lines|
    requires forall k :: 0 <= k < |lines| ==> FloatsPrinted(records[k].fields) && Encode(records[k]) == Ok(lines[k])
    ensures Lines.Split(Lines.Concat(lines)) == lines
  {
    forall k | 0 <= k < |lines| ensures Lines.IsLine(lines[k]) { EncodesOneLine(records[k]); }
    Lines.SplitConcat(lines);
  }
}
