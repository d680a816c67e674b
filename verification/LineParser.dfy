/** A line-protocol parser, and exactly which records it gets back from the encoder. */
module LineParser {
  import opened Basics
  import opened LineProtocol
  import Decimal

  // ---- The parser ----

  /** An escaped name, up to the first unescaped comma, equals sign or space. A backslash
      escapes those three and is itself anywhere else. */
  function Token(s: string): (r: (string, string))
    ensures |r.1| <= |s|
  {
    if s == [] then ([], [])
    else if s[0] == BACKSLASH && |s| > 1 && Special(s[1]) then
      var (t, rest) := Token(s[2..]);
      ([s[1]] + t, rest)
    else if Special(s[0]) then ([], s)
    else
      var (t, rest) := Token(s[1..]);
      ([s[0]] + t, rest)
  }

  /** A quoted string, after its opening quote: a backslash escapes a quote or a backslash. */
  function Quoted(s: string): (r: (string, string))
    ensures |r.1| <= |s|
  {
    if s == [] then ([], [])
    else if s[0] == QUOTE then ([], s[1..])
    else if s[0] == BACKSLASH && |s| > 1 && (s[1] == QUOTE || s[1] == BACKSLASH) then
      var (t, rest) := Quoted(s[2..]);
      ([s[1]] + t, rest)
    else
      var (t, rest) := Quoted(s[1..]);
      ([s[0]] + t, rest)
  }

  predicate Stop(c: char) {
    c == ',' || c == ' ' || c == '\n'
  }

  /** An unquoted value. */
  function Bare(s: string): (r: (string, string))
    ensures |r.1| <= |s|
  {
    if s == [] || Stop(s[0]) then ([], s)
    else ([s[0]] + Bare(s[1..]).0, Bare(s[1..]).1)
  }

  function Natural(t: string): Option<int> {
    if t != [] && Decimal.AllDigits(t) then Some(Decimal.Value(t)) else None
  }

  function Number(t: string): Option<int> {
    if t != [] && t[0] == '-' then
      match Natural(t[1..])
      case Some(n) => Some(-n)
      case None => None
    else Natural(t)
  }

  function BareValue(t: string): Option<Value> {
    if t == [] then None
    else if t == "true" then Some(Bool(true))
    else if t == "false" then Some(Bool(false))
    else if t[|t| - 1] == 'i' then
      match Number(t[..|t| - 1])
      case Some(n) => Some(Int(n))
      case None => None
    else Some(Float(t, true))
  }

  function FieldValue(s: string): (r: Option<(Value, string)>)
    ensures r.Some? ==> |r.value.1| <= |s|
  {
    if s != [] && s[0] == QUOTE then
      Some((Str(Quoted(s[1..]).0), Quoted(s[1..]).1))
    else
      match BareValue(Bare(s).0)
      case Some(v) => Some((v, Bare(s).1))
      case None => None
  }

  /** A key and what follows its equals sign. */
  function Key(s: string): (r: Option<(string, string)>)
    ensures r.Some? ==> |r.value.1| < |s|
  {
    var (k, rest) := Token(s);
    if rest != [] && rest[0] == '=' then Some((k, rest[1..])) else None
  }

  function Tags(s: string): (r: Option<(seq<(string, string)>, string)>)
    ensures r.Some? ==> |r.value.1| <= |s|
    decreases |s|
  {
    if s == [] || s[0] != ',' then Some(([], s))
    else
      match Key(s[1..])
      case None => None
      case Some(k) =>
        var v := Token(k.1);
        match Tags(v.1)
        case None => None
        case Some(more) => Some(([(k.0, v.0)] + more.0, more.1))
  }

  function Fields(s: string): (r: Option<(seq<(string, Value)>, string)>)
    ensures r.Some? ==> |r.value.1| <= |s|
    decreases |s|
  {
    match Key(s)
    case None => None
    case Some(k) =>
      match FieldValue(k.1)
      case None => None
      case Some(v) =>
        if v.1 == [] || v.1[0] != ',' then Some(([(k.0, v.0)], v.1))
        else
          match Fields(v.1[1..])
          case None => None
          case Some(more) => Some(([(k.0, v.0)] + more.0, more.1))
  }

  /** The timestamp and the newline that ends the line. */
  function Ending(s: string): Option<int> {
    if s == [] || s[0] != ' ' || Bare(s[1..]).1 != "\n" then None else Number(Bare(s[1..]).0)
  }

  function Parse(line: string): Option<Record> {
    var (table, afterTable) := Token(line);
    match Tags(afterTable)
    case None => None
    case Some(tags) =>
      if tags.1 == [] || tags.1[0] != ' ' then None
      else
        match Fields(tags.1[1..])
        case None => None
        case Some(fields) =>
          match Ending(fields.1)
          case None => None
          case Some(ts) => Some(Record(table, tags.0, fields.0, ts))
  }

  // ---- Names ----

  /** The names that survive: no control byte, and no backslash at the end. */
  predicate CleanName(n: string) {
    (forall k :: 0 <= k < |n| ==> !Control(n[k])) && (n != [] ==> n[|n| - 1] != BACKSLASH)
  }

  lemma TokenEscaped(c: char, tail: string)
    requires Special(c)
    ensures Token([BACKSLASH, c] + tail) == ([c] + Token(tail).0, Token(tail).1)
  {
    assert ([BACKSLASH, c] + tail)[2..] == tail;
  }

  lemma TokenKept(c: char, tail: string)
    requires !Special(c) && (c == BACKSLASH ==> tail == [] || !Special(tail[0]))
    ensures Token([c] + tail) == ([c] + Token(tail).0, Token(tail).1)
  {
    assert ([c] + tail)[1..] == tail;
  }

  lemma TokenStops(rest: string)
    requires rest != [] && Special(rest[0])
    ensures Token(rest) == ([], rest)
  {
  }

  lemma EscKeyCharFirst(c: char)
    requires !Control(c)
    ensures if Special(c) then EscKeyChar(c) == [BACKSLASH, c] else EscKeyChar(c) == [c]
  {
  }

  lemma BackslashIsNotSpecial()
    ensures !Special(BACKSLASH)
  {
  }

  /** Decoding past a clean stretch that leaves no backslash before what follows. */
  lemma {:induction false} TokenOver(u: string, rest: string)
    requires forall k :: 0 <= k < |u| ==> !Control(u[k])
    requires u != [] && u[|u| - 1] == BACKSLASH ==> rest == [] || !Special(rest[0])
    ensures Token(EscKey(u) + rest) == (u + Token(rest).0, Token(rest).1)
  {
    hide *;
    EscKeyEmpty();
    BackslashIsNotSpecial();
    if u == [] {
      assert EscKey(u) + rest == rest && [] + Token(rest).0 == Token(rest).0;
    } else {
      var tail := EscKey(u[1..]) + rest;
      EscKeyStep(u);
      EscKeyCharFirst(u[0]);
      TokenOver(u[1..], rest);
      assert EscKey(u) + rest == EscKeyChar(u[0]) + tail;
      assert [u[0]] + (u[1..] + Token(rest).0) == u + Token(rest).0;
      if Special(u[0]) {
        TokenEscaped(u[0], tail);
      } else {
        if u[0] == BACKSLASH && tail != [] { NoSpecialAhead(u[1..], rest); }
        TokenKept(u[0], tail);
      }
    }
  }

  /** After a kept backslash no separator comes next. */
  lemma NoSpecialAhead(u: string, rest: string)
    requires forall k :: 0 <= k < |u| ==> !Control(u[k])
    requires u == [] && rest != [] ==> !Special(rest[0])
    requires EscKey(u) + rest != []
    ensures !Special((EscKey(u) + rest)[0])
  {
    hide *;
    EscKeyEmpty();
    BackslashIsNotSpecial();
    if u == [] {
      assert EscKey(u) + rest == rest;
    } else {
      EscKeyStep(u);
      EscKeyCharFirst(u[0]);
      assert (EscKey(u) + rest)[0] == EscKeyChar(u[0])[0];
    }
  }

  lemma CleanNameComesBack(n: string, rest: string)
    requires CleanName(n) && rest != [] && Special(rest[0])
    ensures Token(EscKey(n) + rest) == (n, rest)
  {
    TokenOver(n, rest);
    hide *;
    TokenStops(rest);
    assert n + [] == n;
  }

  /** Exactly which names come back, followed as they always are by a separator. */
  lemma NameRoundTripIff(n: string, rest: string)
    requires rest != [] && Special(rest[0])
    ensures Token(EscKey(n) + rest).0 == n <==> CleanName(n)
    ensures CleanName(n) ==> Token(EscKey(n) + rest).1 == rest
  {
    if CleanName(n) {
      CleanNameComesBack(n, rest);
    } else if k: int :| 0 <= k < |n| && Control(n[k]) && forall j :: 0 <= j < k ==> !Control(n[j]) {
      ControlIsLost(n, rest, k);
    } else {
      NoFirstControl(n);
      LastBackslashIsLost(n, rest);
    }
  }

  lemma {:induction false} NoFirstControl(n: string)
    requires forall k :: 0 <= k < |n| && Control(n[k]) ==> !(forall j :: 0 <= j < k ==> !Control(n[j]))
    ensures forall k :: 0 <= k < |n| ==> !Control(n[k])
  {
    for k := 0 to |n|
      invariant forall j :: 0 <= j < k ==> !Control(n[j])
    {
    }
  }

  lemma EscapedPrefix(n: string, k: int, rest: string)
    requires 0 <= k < |n|
    ensures EscKey(n) + rest == EscKey(n[..k]) + (EscKeyChar(n[k]) + (EscKey(n[k + 1..]) + rest))
  {
    hide *;
    EscapedAt(n, k);
    Regroup(EscKey(n[..k]), EscKeyChar(n[k]), EscKey(n[k + 1..]), rest);
  }

  lemma EscapedAt(n: string, k: int)
    requires 0 <= k < |n|
    ensures EscKey(n) == EscKey(n[..k]) + (EscKeyChar(n[k]) + EscKey(n[k + 1..]))
  {
    hide *;
    var (a, b) := (n[..k], n[k..]);
    assert n == a + b;
    EscKeySplit(a, b);
    EscKeyStep(b);
    assert b[0] == n[k] && b[1..] == n[k + 1..];
  }

  /** A control byte becomes a raw space, which ends the token there, or, after a
      backslash, is taken for an escaped one. */
  lemma ControlIsLost(n: string, rest: string, k: int)
    requires 0 <= k < |n| && Control(n[k]) && forall j :: 0 <= j < k ==> !Control(n[j])
    ensures Token(EscKey(n) + rest).0 != n
  {
    var tail := EscKey(n[k + 1..]) + rest;
    EscapedPrefix(n, k, rest);
    assert Special(' ') && !Control(' ') && EscKeyChar(n[k]) == [' '];
    if k > 0 && n[k - 1] == BACKSLASH {
      EscapedSpace(n, rest, k, tail);
    } else {
      TokenOver(n[..k], [' '] + tail);
      TokenStops([' '] + tail);
    }
  }

  lemma EscapedSpace(n: string, rest: string, k: int, tail: string)
    requires 0 < k < |n| && n[k - 1] == BACKSLASH && forall j :: 0 <= j < k ==> !Control(n[j])
    requires EscKey(n) + rest == EscKey(n[..k]) + ([' '] + tail)
    ensures var t := Token(EscKey(n) + rest).0; |t| >= k && t[k - 1] == ' '
  {
    hide EscKey, Token;
    var u := n[..k - 1];
    assert n[..k] == u + [BACKSLASH];
    EscKeySnoc(u, BACKSLASH);
    assert EscKeyChar(BACKSLASH) == [BACKSLASH];
    assert EscKey(u) + [BACKSLASH] + ([' '] + tail) == EscKey(u) + ([BACKSLASH, ' '] + tail);
    TokenOver(u, [BACKSLASH, ' '] + tail);
    TokenEscaped(' ', tail);
  }

  /** A backslash at the end escapes the separator that follows. */
  lemma LastBackslashIsLost(n: string, rest: string)
    requires rest != [] && Special(rest[0]) && n != [] && n[|n| - 1] == BACKSLASH
    requires forall k :: 0 <= k < |n| ==> !Control(n[k])
    ensures Token(EscKey(n) + rest).0 != n
  {
    hide EscKey, Token;
    var (u, tail) := (n[..|n| - 1], [BACKSLASH, rest[0]] + rest[1..]);
    assert n == u + [BACKSLASH];
    EscKeySnoc(u, BACKSLASH);
    assert EscKeyChar(BACKSLASH) == [BACKSLASH];
    assert EscKey(n) + rest == EscKey(u) + tail;
    TokenOver(u, tail);
    TokenEscaped(rest[0], rest[1..]);
    assert Token(EscKey(n) + rest).0[|u|] == rest[0];
  }

  // ---- Strings ----

  function NormalChar(c: char): string {
    if c == '\n' then "\\n" else if c == '\r' then [] else if Control(c) then [' '] else [c]
  }

  /** What a string field comes back as: a newline as backslash and n, a carriage return
      gone, any other control byte a space. */
  function Normal(s: string): string {
    if s == [] then [] else NormalChar(s[0]) + Normal(s[1..])
  }

  lemma QuotedChar(c: char, tail: string)
    ensures Quoted(EscBodyChar(c) + tail) == (NormalChar(c) + Quoted(tail).0, Quoted(tail).1)
  {
    var all := EscBodyChar(c) + tail;
    if c == QUOTE || c == BACKSLASH {
      assert all[2..] == tail;
    } else if c == '\n' {
      assert all[1..] == ['n'] + tail && (['n'] + tail)[1..] == tail;
      assert [BACKSLASH] + (['n'] + Quoted(tail).0) == "\\n" + Quoted(tail).0;
    } else if c == '\r' {
      assert all == tail && [] + Quoted(tail).0 == Quoted(tail).0;
    } else {
      assert all[1..] == tail;
    }
  }

  lemma {:induction false} StringRoundTrip(s: string, rest: string)
    ensures Quoted(EscBody(s) + [QUOTE] + rest) == (Normal(s), rest)
  {
    hide Quoted, EscBodyChar, NormalChar;
    if s == [] {
      assert EscBody(s) + [QUOTE] + rest == [QUOTE] + rest;
      QuotedEnd(rest);
    } else {
      StringRoundTrip(s[1..], rest);
      QuotedChar(s[0], EscBody(s[1..]) + [QUOTE] + rest);
      assert EscBody(s) + [QUOTE] + rest == EscBodyChar(s[0]) + (EscBody(s[1..]) + [QUOTE] + rest);
    }
  }

  lemma {:induction false} NormalHasNoControl(s: string)
    ensures forall k :: 0 <= k < |Normal(s)| ==> !Control(Normal(s)[k])
  {
    if s != [] {
      NormalHasNoControl(s[1..]);
      var first := NormalChar(s[0]);
      assert forall k :: 0 <= k < |first| ==> !Control(first[k]);
    }
  }

  lemma {:induction false} NormalKeeps(s: string)
    requires forall k :: 0 <= k < |s| ==> !Control(s[k])
    ensures Normal(s) == s
  {
    if s != [] {
      NormalKeeps(s[1..]);
      assert s == [s[0]] + s[1..];
    }
  }

  lemma {:induction false} NormalSplit(a: string, b: string)
    ensures Normal(a + b) == Normal(a) + Normal(b)
  {
    hide *;
    if a == [] {
      NormalEmpty();
      assert a + b == b && [] + Normal(b) == Normal(b);
    } else {
      NormalStep(a);
      NormalStep(a + b);
      NormalSplit(a[1..], b);
      assert (a + b)[1..] == a[1..] + b;
    }
  }

  lemma NormalEmpty()
    ensures Normal([]) == []
  {
  }

  lemma NormalStep(s: string)
    requires s != []
    ensures Normal(s) == NormalChar(s[0]) + Normal(s[1..])
  {
  }

  /** What comes back, byte by byte: backslash and n for a newline, nothing for a carriage
      return, a space for any other control byte, and every other byte as it was. */
  lemma StringAt(a: string, c: char, b: string, rest: string)
    ensures var r := (s: string) => Quoted(EscBody(s) + [QUOTE] + rest);
            && r(a + [c] + b).1 == rest
            && r(a + [c] + b).0 == r(a).0 + (if c == '\n' then "\\n"
                                             else if c == '\r' then ""
                                             else if c < 32 as char then " "
                                             else [c]) + r(b).0
  {
    StringRoundTrip(a, rest);
    StringRoundTrip(b, rest);
    StringRoundTrip(a + [c] + b, rest);
    NormalSplit(a + [c], b);
    NormalSplit(a, [c]);
    assert Normal([c]) == NormalChar(c) by { assert [c][1..] == []; }
    hide Quoted, EscBody, Normal;
  }

  /** A string field comes back as it was exactly if it holds no control byte. */
  lemma StringUnchangedIff(s: string, rest: string)
    ensures Quoted(EscBody(s) + [QUOTE] + rest) == (s, rest) <==> forall k :: 0 <= k < |s| ==> !Control(s[k])
  {
    StringRoundTrip(s, rest);
    NormalHasNoControl(s);
    if forall k :: 0 <= k < |s| ==> !Control(s[k]) { NormalKeeps(s); }
    hide Quoted, EscBody, Normal;
  }

  lemma QuotedEnd(rest: string)
    ensures Quoted([QUOTE] + rest) == ([], rest)
  {
    assert ([QUOTE] + rest)[1..] == rest;
  }

  // ---- Values ----

  predicate Plain(t: string) {
    forall k :: 0 <= k < |t| ==> !Stop(t[k])
  }

  lemma {:induction false} BareOver(t: string, rest: string)
    requires Plain(t) && (rest == [] || Stop(rest[0]))
    ensures Bare(t + rest) == (t, rest)
  {
    if t == [] {
      assert t + rest == rest;
    } else {
      assert (t + rest)[1..] == t[1..] + rest;
      BareOver(t[1..], rest);
      assert [t[0]] + t[1..] == t;
    }
  }

  lemma NumberRoundTrip(n: int)
    ensures Number(PrintInt(n)) == Some(n)
  {
    Decimal.DigitsValue(if n < 0 then -n else n);
    hide Decimal.Digits, Decimal.Value;
    if n < 0 {
      assert PrintInt(n)[1..] == Decimal.Digits(-n);
    } else {
      assert Decimal.IsDigit(PrintInt(n)[0]);
    }
  }

  lemma IntTextIsBare(n: int)
    ensures Plain(PrintInt(n)) && PrintInt(n)[0] != QUOTE
  {
    IntTextIsPlain(n);
    hide PrintInt;
    forall k | 0 <= k < |PrintInt(n)| ensures !Stop(PrintInt(n)[k]) && PrintInt(n)[k] != QUOTE {
      assert PrintInt(n)[k] in PrintInt(n);
    }
  }

  function NormalValue(v: Value): Value {
    match v
    case Str(s) => Str(Normal(s))
    case _ => v
  }

  lemma ValueRoundTrip(v: Value, rest: string)
    requires v.Float? ==> FloatText(v.text) && v.finite
    requires rest != [] && Stop(rest[0])
    ensures FieldValue(ValueText(v) + rest) == Some((NormalValue(v), rest))
  {
    match v {
      case Str(s) => StrRoundTrip(s, rest);
      case Int(n) => IntRoundTrip(n, rest);
      case Float(text, _) => BareRoundTrip(v, rest);
      case Bool(b) => BareRoundTrip(v, rest);
    }
    hide FieldValue, ValueText;
  }

  lemma StrRoundTrip(s: string, rest: string)
    ensures FieldValue(ValueText(Str(s)) + rest) == Some((NormalValue(Str(s)), rest))
  {
    hide Quoted, EscBody, Normal;
    StringRoundTrip(s, rest);
    assert (EscStr(s) + rest)[1..] == EscBody(s) + [QUOTE] + rest;
  }

  lemma BareRoundTrip(v: Value, rest: string)
    requires v.Bool? || (v.Float? && FloatText(v.text) && v.finite)
    requires rest != [] && Stop(rest[0])
    ensures FieldValue(ValueText(v) + rest) == Some((v, rest))
  {
    hide Bare;
    BareOver(ValueText(v), rest);
  }

  lemma IntRoundTrip(n: int, rest: string)
    requires rest != [] && Stop(rest[0])
    ensures FieldValue(PrintInt(n) + "i" + rest) == Some((Int(n), rest))
  {
    hide PrintInt, Number, Bare;
    var t := PrintInt(n) + "i";
    IntTextIsBare(n);
    assert Plain(t);
    BareOver(t, rest);
    NumberRoundTrip(n);
    assert t[..|t| - 1] == PrintInt(n);
  }

  // ---- Tags and fields ----

  predicate CleanTags(tags: seq<(string, string)>) {
    forall k :: 0 <= k < |tags| ==> CleanName(tags[k].0) && CleanName(tags[k].1)
  }

  predicate CleanFields(fields: seq<(string, Value)>) {
    forall k :: 0 <= k < |fields| ==> CleanName(fields[k].0)
  }

  function NormalFields(fields: seq<(string, Value)>): (r: seq<(string, Value)>)
    ensures |r| == |fields|
  {
    if fields == [] then [] else [(fields[0].0, NormalValue(fields[0].1))] + NormalFields(fields[1..])
  }

  /** A key followed by its equals sign. */
  lemma KeyRoundTripIff(n: string, rest: string)
    ensures CleanName(n) ==> Key(EscKey(n) + "=" + rest) == Some((n, rest))
    ensures !CleanName(n) ==> var k := Key(EscKey(n) + "=" + rest); k.None? || k.value.0 != n
  {
    hide EscKey, Token, CleanName;
    assert EscKey(n) + "=" + rest == EscKey(n) + ("=" + rest);
    NameRoundTripIff(n, "=" + rest);
    assert ("=" + rest)[1..] == rest;
  }

  /** A parse that gave back `items` and left `rest`, or one that did not even find them. */
  predicate Back<T(==)>(parsed: Option<(seq<T>, string)>, clean: bool, items: seq<T>, rest: string) {
    if clean then parsed == Some((items, rest)) else parsed.None? || parsed.value.0 != items
  }

  lemma TagsStep(s: string)
    requires s != [] && s[0] == ','
    ensures Tags(s) == match Key(s[1..])
                       case None => None
                       case Some(k) =>
                         match Tags(Token(k.1).1)
                         case None => None
                         case Some(more) => Some(([(k.0, Token(k.1).0)] + more.0, more.1))
  {
  }

  lemma {:induction false} TagsRoundTripIff(tags: seq<(string, string)>, rest: string)
    requires rest != [] && rest[0] == ' '
    ensures Back(Tags(TagsText(tags) + rest), CleanTags(tags), tags, rest)
  {
    if tags == [] {
      assert TagsText(tags) + rest == rest;
    } else {
      TagsRoundTripIff(tags[1..], rest);
      OneTag(tags[0], tags[1..], rest);
      assert tags == [tags[0]] + tags[1..];
    }
  }

  lemma TagsTextStarts(tags: seq<(string, string)>, rest: string)
    requires rest != [] && rest[0] == ' '
    ensures var s := TagsText(tags) + rest; s != [] && Special(s[0])
  {
  }

  lemma TagsTextCons(t: (string, string), more: seq<(string, string)>, rest: string)
    ensures TagsText([t] + more) + rest == "," + (EscKey(t.0) + "=" + (EscKey(t.1) + (TagsText(more) + rest)))
  {
    assert ([t] + more)[1..] == more;
    hide EscKey;
  }

  lemma ConsInjective<T>(x: T, a: seq<T>, y: T, b: seq<T>)
    ensures [x] + a == [y] + b <==> x == y && a == b
  {
    assert ([x] + a)[0] == x && ([y] + b)[0] == y;
    assert ([x] + a)[1..] == a && ([y] + b)[1..] == b;
  }

  lemma OneTag(t: (string, string), more: seq<(string, string)>, rest: string)
    requires rest != [] && rest[0] == ' ' && Back(Tags(TagsText(more) + rest), CleanTags(more), more, rest)
    ensures Back(Tags(TagsText([t] + more) + rest), CleanName(t.0) && CleanName(t.1) && CleanTags(more),
                 [t] + more, rest)
  {
    hide Tags, Token, Key, TagsText, EscKey, CleanName, CleanTags;
    var tail := TagsText(more) + rest;
    var s := TagsText([t] + more) + rest;
    TagsTextCons(t, more, rest);
    assert s[1..] == EscKey(t.0) + "=" + (EscKey(t.1) + tail);
    TagsStep(s);
    KeyRoundTripIff(t.0, EscKey(t.1) + tail);
    TagsTextStarts(more, rest);
    NameRoundTripIff(t.1, tail);
    var k := Key(s[1..]);
    if k.Some? && Tags(Token(k.value.1).1).Some? {
      ConsInjective((k.value.0, Token(k.value.1).0), Tags(Token(k.value.1).1).value.0, t, more);
    }
  }

  predicate Printable(fields: seq<(string, Value)>) {
    forall k :: 0 <= k < |fields| && fields[k].1.Float? ==> FloatText(fields[k].1.text) && fields[k].1.finite
  }

  lemma {:induction false} FieldsRoundTripIff(fields: seq<(string, Value)>, rest: string)
    requires fields != [] && Printable(fields) && rest != [] && rest[0] == ' '
    ensures Back(Fields(FieldsText(fields) + rest), CleanFields(fields), NormalFields(fields), rest)
  {
    var f := fields[0];
    if |fields| == 1 {
      LastField(f, rest);
      assert NormalFields(fields) == [(f.0, NormalValue(f.1))];
      assert FieldsText(fields) == FieldText(f);
    } else {
      FieldsRoundTripIff(fields[1..], rest);
      OneField(f, fields[1..], rest);
      assert fields == [f] + fields[1..];
    }
  }

  /** A first key read wrong is a first field read wrong. */
  lemma FieldsAstray(s: string, n: string)
    requires Key(s).None? || Key(s).value.0 != n
    ensures Fields(s).None? || (Fields(s).value.0 != [] && Fields(s).value.0[0].0 != n)
  {
    hide Key, FieldValue;
  }

  lemma FieldsOn(s: string, n: string, r: string, v: Value, tail: string)
    requires Key(s) == Some((n, r)) && FieldValue(r) == Some((v, tail))
    ensures tail == [] || tail[0] != ',' ==> Fields(s) == Some(([(n, v)], tail))
    ensures tail != [] && tail[0] == ',' ==>
              Fields(s) == match Fields(tail[1..])
                           case None => None
                           case Some(more) => Some(([(n, v)] + more.0, more.1))
  {
    hide Key, FieldValue;
  }

  lemma FieldHead(f: (string, Value), rest: string)
    requires f.1.Float? ==> FloatText(f.1.text) && f.1.finite
    requires rest != [] && Stop(rest[0])
    ensures FieldText(f) + rest == EscKey(f.0) + "=" + (ValueText(f.1) + rest)
    ensures FieldValue(ValueText(f.1) + rest) == Some((NormalValue(f.1), rest))
    ensures CleanName(f.0) ==> Key(FieldText(f) + rest) == Some((f.0, ValueText(f.1) + rest))
    ensures !CleanName(f.0) ==> var k := Key(FieldText(f) + rest); k.None? || k.value.0 != f.0
  {
    hide EscKey, ValueText, CleanName, Key, FieldValue;
    ValueRoundTrip(f.1, rest);
    KeyRoundTripIff(f.0, ValueText(f.1) + rest);
    assert FieldText(f) + rest == EscKey(f.0) + "=" + (ValueText(f.1) + rest);
  }

  lemma LastField(f: (string, Value), rest: string)
    requires f.1.Float? ==> FloatText(f.1.text) && f.1.finite
    requires rest != [] && rest[0] == ' '
    ensures Back(Fields(FieldText(f) + rest), CleanName(f.0), [(f.0, NormalValue(f.1))], rest)
  {
    hide Fields, FieldText, FieldValue, NormalValue, CleanName, Key, ValueText;
    FieldHead(f, rest);
    if CleanName(f.0) {
      FieldsOn(FieldText(f) + rest, f.0, ValueText(f.1) + rest, NormalValue(f.1), rest);
    } else {
      FieldsAstray(FieldText(f) + rest, f.0);
    }
  }

  lemma OneField(f: (string, Value), more: seq<(string, Value)>, rest: string)
    requires f.1.Float? ==> FloatText(f.1.text) && f.1.finite
    requires more != [] && rest != [] && rest[0] == ' '
    requires Back(Fields(FieldsText(more) + rest), CleanFields(more), NormalFields(more), rest)
    ensures Back(Fields(FieldsText([f] + more) + rest), CleanName(f.0) && CleanFields(more),
                 NormalFields([f] + more), rest)
  {
    var tail := "," + (FieldsText(more) + rest);
    FieldsTextCons(f, more, rest);
    hide Fields, FieldText, FieldsText, FieldValue, NormalValue, NormalFields, CleanName, CleanFields, Key, ValueText;
    assert tail[1..] == FieldsText(more) + rest;
    FieldHead(f, tail);
    if CleanName(f.0) {
      FieldsOn(FieldText(f) + tail, f.0, ValueText(f.1) + tail, NormalValue(f.1), tail);
      var parsed := Fields(FieldsText(more) + rest);
      if parsed.Some? {
        ConsInjective((f.0, NormalValue(f.1)), parsed.value.0, (f.0, NormalValue(f.1)), NormalFields(more));
      }
    } else {
      FieldsAstray(FieldText(f) + tail, f.0);
    }
  }

  lemma FieldsTextCons(f: (string, Value), more: seq<(string, Value)>, rest: string)
    requires more != []
    ensures NormalFields([f] + more) == [(f.0, NormalValue(f.1))] + NormalFields(more)
    ensures FieldsText([f] + more) + rest == FieldText(f) + ("," + (FieldsText(more) + rest))
  {
    assert ([f] + more)[1..] == more;
    assert NormalFields([f] + more) == [(f.0, NormalValue(f.1))] + NormalFields(more);
    assert FieldsText([f] + more) == FieldText(f) + ("," + FieldsText(more));
    hide *;
    Regroup(FieldText(f), ",", FieldsText(more), rest);
  }

  // ---- Records ----

  function Normalised(r: Record): Record {
    r.(fields := NormalFields(r.fields))
  }

  predicate CleanRecord(r: Record) {
    CleanName(r.table) && CleanTags(r.tags) && CleanFields(r.fields)
  }

  lemma EndingRoundTrip(ts: int)
    ensures Ending(" " + PrintInt(ts) + "\n") == Some(ts)
  {
    hide PrintInt, Number, Bare;
    var s := " " + PrintInt(ts) + "\n";
    assert s[1..] == PrintInt(ts) + "\n";
    IntTextIsBare(ts);
    BareOver(PrintInt(ts), "\n");
    NumberRoundTrip(ts);
  }

  lemma ParseStep(line: string)
    ensures Parse(line) ==
            match Tags(Token(line).1)
            case None => None
            case Some(tags) =>
              if tags.1 == [] || tags.1[0] != ' ' then None
              else
                match Fields(tags.1[1..])
                case None => None
                case Some(fields) =>
                  match Ending(fields.1)
                  case None => None
                  case Some(ts) => Some(Record(Token(line).0, tags.0, fields.0, ts))
  {
  }

  /** Exactly which records the encoder's text stands for: those whose every name is clean.
      String fields come back normalised, everything else as it was. */
  lemma RecordRoundTripIff(r: Record)
    requires Encode(r).Ok? && FloatsPrinted(r.fields)
    ensures Parse(Encode(r).text) == Some(Normalised(r)) <==> CleanRecord(r)
  {
    FiniteIsPrintable(r.fields);
    TextParts(r);
    assert CleanRecord(r) <==> CleanName(r.table) && CleanTags(r.tags) && CleanFields(r.fields);
    assert Normalised(r) == Record(r.table, r.tags, NormalFields(r.fields), r.ts);
    hide Encode, Parse, Token, Tags, Fields, Ending, EscKey, TagsText, FieldsText, PrintInt, CleanName, CleanTags,
      CleanFields, NormalFields, CleanRecord, Normalised, Printable;
    var ending := " " + PrintInt(r.ts) + "\n";
    var body := " " + (FieldsText(r.fields) + ending);
    ParseStep(Encode(r).text);
    assert body[1..] == FieldsText(r.fields) + ending;
    TagsTextStarts(r.tags, body);
    NameRoundTripIff(r.table, TagsText(r.tags) + body);
    if CleanName(r.table) {
      TagsRoundTripIff(r.tags, body);
      FieldsRoundTripIff(r.fields, ending);
      EndingRoundTrip(r.ts);
    }
  }

  lemma TextParts(r: Record)
    requires Encode(r).Ok?
    ensures r.fields != []
    ensures Encode(r).text ==
            EscKey(r.table) + (TagsText(r.tags) + (" " + (FieldsText(r.fields) + (" " + PrintInt(r.ts) + "\n"))))
  {
    hide EscKey, TagsText, FieldsText, PrintInt;
  }

  lemma {:induction false} FiniteIsPrintable(fields: seq<(string, Value)>)
    requires FirstNonFinite(fields).None? && FloatsPrinted(fields)
    ensures Printable(fields)
  {
    if fields != [] {
      FiniteIsPrintable(fields[1..]);
      assert forall k :: 0 < k < |fields| ==> fields[k] == fields[1..][k - 1];
    }
  }
}
