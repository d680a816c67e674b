/** Where the pipeline meets its wire format: rows that are encoded records meet what the
    delivery theorems ask of a configuration, and read back as the records they were. */
module Wire {
  import opened Basics
  import opened LineProtocol
  import LineParser
  import Decimal
  import Delivery
  import DeliveryBounds
  import Exactness
  import Agent
  import Lines
  import Stamp

  /** What follows the last space. */
  function AfterLastSpace(s: string): (t: string)
    ensures |t| <= |s| && ' ' !in t
  {
    if s == [] || s[|s| - 1] == ' ' then [] else AfterLastSpace(s[..|s| - 1]) + [s[|s| - 1]]
  }

  /** The row's primary key as the store takes it: measurement with tags, and timestamp. */
  function Series(line: string): string {
    var rest := LineParser.Token(line).1;
    match LineParser.Tags(rest)
    case Some(tags) => if |tags.1| <= |line| then line[..|line| - |tags.1|] else line
    case None => line
  }

  function Timestamp(line: string): int {
    var t := AfterLastSpace(line);
    match LineParser.Number(if t == [] then [] else t[..|t| - 1])
    case Some(n) => n
    case None => 0
  }

  function KeyOf(line: string): Delivery.Key {
    (Series(line), Timestamp(line))
  }

  lemma {:induction false} AfterSpace(a: string, t: string)
    requires ' ' !in t
    ensures AfterLastSpace(a + " " + t) == t
  {
    var s := a + " " + t;
    if t == [] {
      assert s == a + " ";
    } else {
      var n := |t| - 1;
      assert s[..|s| - 1] == a + " " + t[..n];
      AfterSpace(a, t[..n]);
      assert t == t[..n] + [t[n]];
      assert t[n] in t;
    }
  }

  /** Whatever the names hold, the stamp is read back from the end of the line. */
  lemma StampComesBack(r: Record)
    ensures KeyOf(RecordText(r)).1 == r.ts
  {
    var (a, t) := (EscKey(r.table) + TagsText(r.tags) + " " + FieldsText(r.fields), PrintInt(r.ts) + "\n");
    IntTextIsPlain(r.ts);
    LineParser.NumberRoundTrip(r.ts);
    hide EscKey, TagsText, FieldsText, PrintInt, LineParser.Number, Series, AfterLastSpace;
    assert RecordText(r) == a + " " + t;
    assert ' ' !in PrintInt(r.ts);
    AfterSpace(a, t);
    assert t[..|t| - 1] == PrintInt(r.ts);
  }

  /** For clean names the other half of the key is the measurement with its tags. */
  lemma SeriesComesBack(r: Record)
    requires LineParser.CleanName(r.table) && LineParser.CleanTags(r.tags)
    ensures KeyOf(RecordText(r)).0 == EscKey(r.table) + TagsText(r.tags)
  {
    var body := " " + (FieldsText(r.fields) + " " + PrintInt(r.ts) + "\n");
    var head := EscKey(r.table) + TagsText(r.tags);
    hide EscKey, TagsText, FieldsText, PrintInt, LineParser.Token, LineParser.Tags, LineParser.CleanName,
      LineParser.CleanTags, Timestamp;
    LineParser.TagsTextStarts(r.tags, body);
    LineParser.NameRoundTripIff(r.table, TagsText(r.tags) + body);
    LineParser.TagsRoundTripIff(r.tags, body);
    assert RecordText(r) == EscKey(r.table) + (TagsText(r.tags) + body);
    assert RecordText(r) == head + body;
    assert (head + body)[..|head + body| - |body|] == head;
  }

  /** Line `i` maps to record `records[i]`, stamped. */
  ghost predicate Wired(cfg: Delivery.Config, records: seq<Record>) {
    && |records| == |cfg.input|
    && (forall l :: cfg.keyOf(l) == KeyOf(l))
    && (forall i :: 0 <= i < |records| ==> FloatsPrinted(records[i].fields))
    && (forall i, ts :: 0 <= i < |cfg.input| && cfg.input[i].Mapped? ==>
          cfg.input[i].encode(ts) == Written(records[i].(ts := ts)))
  }

  function Written(r: Record): Option<string> {
    match Encode(r)
    case Ok(text) => Some(text)
    case _ => None
  }

  /** So the encoder discharges what the pipeline assumes of its rows: one line each, and,
      at any resolution coarser than a nanosecond, distinct primary keys. */
  lemma WiredIsSupported(cfg: Delivery.Config, records: seq<Record>)
    requires Wired(cfg, records) && cfg.tickNs > 1 && cfg.batchLines >= 1 && cfg.maxInflight >= 1
    requires Stamp.Nondecreasing(Delivery.History(cfg, |cfg.input|))
    ensures Agent.Supported(cfg)
  {
    forall i, ts | 0 <= i < |cfg.input| && cfg.input[i].Mapped? && cfg.input[i].encode(ts).Some?
      ensures Lines.IsLine(cfg.input[i].encode(ts).value)
      ensures cfg.keyOf(cfg.input[i].encode(ts).value).1 == ts
    {
      var r := records[i].(ts := ts);
      assert cfg.input[i].encode(ts) == Some(RecordText(r)) && Encode(r) == Ok(RecordText(r));
      hide *;
      EncodesOneLine(r);
      StampComesBack(r);
    }
    Exactness.StampsMakeKeysDistinct(cfg);
  }

  /** The stamped record a line becomes in the crash-free run: its tick is not exhausted, the
      stamp is the one issued there, and the record is one that is written. */
  ghost predicate RecordAt(cfg: Delivery.Config, records: seq<Record>, i: nat, r: Record) {
    && i < |cfg.input| && |records| == |cfg.input| && cfg.input[i].Mapped?
    && Exactness.Issued(cfg, i).Stamped? && r == records[i].(ts := Exactness.Issued(cfg, i).ts) && Writable(r)
  }

  /** Line `i` maps, to a record that is not written, or in a tick that is exhausted. */
  ghost predicate Unwritten(cfg: Delivery.Config, records: seq<Record>, i: nat) {
    && i < |cfg.input| && |records| == |cfg.input| && cfg.input[i].Mapped?
    && (Exactness.Issued(cfg, i).Exhausted? || !Writable(records[i]))
  }

  lemma WrittenIff(r: Record)
    ensures Written(r).Some? <==> Writable(r)
    ensures Written(r).Some? ==> Encode(r) == Ok(Written(r).value) && Written(r).value == RecordText(r)
  {
    EncodeVerdict(r);
    hide Writable, RecordText;
  }

  lemma Restamped(r: Record, ts: int)
    ensures Writable(r.(ts := ts)) <==> Writable(r)
  {
  }

  /** Every record that can be written in its tick has a row, its text under the stamp issued;
      and every other mapped line is dead-lettered. */
  lemma RecordFates(cfg: Delivery.Config, records: seq<Record>, i: nat)
    requires Wired(cfg, records) && i < |cfg.input| && cfg.input[i].Mapped?
    ensures forall l :: Exactness.Writes(cfg, i, l)
                        <==> exists r :: RecordAt(cfg, records, i, r) && Written(r) == Some(l)
    ensures forall raw :: Exactness.Refuses(cfg, i, raw) <==> Unwritten(cfg, records, i) && raw == cfg.input[i].raw
  {
    var issued := Exactness.Issued(cfg, i);
    if issued.Stamped? {
      var r := records[i].(ts := issued.ts);
      assert cfg.input[i].encode(issued.ts) == Written(r);
      WrittenIff(r);
      Restamped(records[i], issued.ts);
      if Writable(r) { assert RecordAt(cfg, records, i, r); }
    }
    hide Exactness.Issued, Written, Writable, KeyOf;
  }

  /** A record's line is in the store under its key, or the server refused it; and the line
      reads back as the record just when its names are clean. */
  ghost predicate Landed(s: Delivery.Sys, r: Record) {
    && Written(r).Some?
    && var line := Written(r).value;
    && (LineParser.Parse(line) == Some(LineParser.Normalised(r)) <==> LineParser.CleanRecord(r))
    && KeyOf(line).1 == r.ts
    && ((KeyOf(line) in s.store && s.store[KeyOf(line)] == line)
        || (line in s.refused && Delivery.Poison(line) in s.dead))
  }

  /** The store holds every record of the crash-free run, as it reads back, and nothing else;
      and the dead-letter file holds the source line of every other. */
  ghost predicate RecordsExact(cfg: Delivery.Config, records: seq<Record>, s: Delivery.Sys) {
    && (forall i: nat, r :: RecordAt(cfg, records, i, r) ==> Landed(s, r))
    && (forall i: nat :: Unwritten(cfg, records, i) ==> Delivery.Unread(cfg.input[i].raw) in s.dead)
    && (forall i: nat :: i < |cfg.input| && cfg.input[i].Unmapped? ==> Delivery.Unread(cfg.input[i].raw) in s.dead)
    && (forall k :: k in s.store ==> exists i: nat, r :: RecordAt(cfg, records, i, r) && Written(r) == Some(s.store[k]))
  }

  /** The shipper's claim, from records to records: after any run with failures, replays and
      crashes that found a safe checkpoint, once drained, every record that can be written is
      there under the stamp issued to its line, unless the server refused it, and reads back
      record for record where the names are clean; nothing else is there; and the lines of the
      other records are in the dead-letter file. */
  lemma RecordsExactlyOnce(cfg: Delivery.Config, records: seq<Record>, evs: seq<Delivery.Event>)
    requires Wired(cfg, records) && cfg.tickNs > 1
    requires Stamp.Nondecreasing(Delivery.History(cfg, |cfg.input|))
    requires Delivery.Legal(cfg, Delivery.Boot(cfg), evs) && Exactness.SafeCrashes(cfg, Delivery.Boot(cfg), evs)
    requires Exactness.Drained(cfg, Delivery.Play(cfg, Delivery.Boot(cfg), evs))
    ensures RecordsExact(cfg, records, Delivery.Play(cfg, Delivery.Boot(cfg), evs))
  {
    WiredKeysDistinct(cfg, records);
    assert Delivery.WellFormed(cfg);
    hide *;
    Exactness.ExactlyOnce(cfg, evs);
    LineByLineIsRecordsExact(cfg, records, Delivery.Play(cfg, Delivery.Boot(cfg), evs));
  }

  lemma LineByLineIsRecordsExact(cfg: Delivery.Config, records: seq<Record>, s: Delivery.Sys)
    requires Wired(cfg, records) && Exactness.LineByLine(cfg, s)
    ensures RecordsExact(cfg, records, s)
  {
    hide KeyOf, Written, Writable, Exactness.Issued, Exactness.Writes, Exactness.Refuses, LineParser.CleanRecord,
      LineParser.Parse, LineParser.Normalised, FloatsPrinted;
    forall i: nat, r | RecordAt(cfg, records, i, r) ensures Landed(s, r) {
      RecordFates(cfg, records, i);
      WrittenIff(r);
      RecordReadsBack(records[i], r);
      assert Exactness.Writes(cfg, i, Written(r).value);
    }
    forall i: nat | Unwritten(cfg, records, i) ensures Delivery.Unread(cfg.input[i].raw) in s.dead {
      RecordFates(cfg, records, i);
      assert Exactness.Refuses(cfg, i, cfg.input[i].raw);
    }
    forall i: nat | i < |cfg.input| && cfg.input[i].Unmapped? ensures Delivery.Unread(cfg.input[i].raw) in s.dead {
      UnmappedRefused(cfg, i);
    }
    forall k | k in s.store ensures exists i: nat, r :: RecordAt(cfg, records, i, r) && Written(r) == Some(s.store[k]) {
      var i: nat :| Exactness.Writes(cfg, i, s.store[k]);
      WritesMapped(cfg, i, s.store[k]);
      RecordFates(cfg, records, i);
    }
  }

  lemma UnmappedRefused(cfg: Delivery.Config, i: nat)
    requires i < |cfg.input| && cfg.input[i].Unmapped?
    ensures Exactness.Refuses(cfg, i, cfg.input[i].raw)
  {
  }

  lemma WritesMapped(cfg: Delivery.Config, i: nat, l: string)
    requires Exactness.Writes(cfg, i, l)
    ensures i < |cfg.input| && cfg.input[i].Mapped?
  {
  }

  lemma WiredKeysDistinct(cfg: Delivery.Config, records: seq<Record>)
    requires Wired(cfg, records) && cfg.tickNs > 1
    ensures Delivery.DistinctKeys(cfg)
  {
    forall i, ts | 0 <= i < |cfg.input| && cfg.input[i].Mapped? && cfg.input[i].encode(ts).Some?
      ensures cfg.keyOf(cfg.input[i].encode(ts).value).1 == ts
    {
      var r := records[i].(ts := ts);
      assert cfg.input[i].encode(ts) == Some(RecordText(r));
      hide *;
      StampComesBack(r);
    }
    Exactness.StampsMakeKeysDistinct(cfg);
  }

  lemma RecordReadsBack(a: Record, r: Record)
    requires r == a.(ts := r.ts) && FloatsPrinted(a.fields) && Written(r).Some?
    ensures LineParser.Parse(Written(r).value) == Some(LineParser.Normalised(r)) <==> LineParser.CleanRecord(r)
    ensures KeyOf(Written(r).value).1 == r.ts
  {
    assert Encode(r).text == RecordText(r) && FloatsPrinted(r.fields);
    hide *;
    LineParser.RecordRoundTripIff(r);
    StampComesBack(r);
  }

  // ---- The queue's bound, for encoded rows ----

  predicate FitsI64(n: int) {
    -0x8000_0000_0000_0000 <= n < 0x8000_0000_0000_0000
  }

  lemma I64Text(n: int)
    requires FitsI64(n)
    ensures |PrintInt(n)| <= 20
  {
    assert Decimal.Pow10(19) == 10_000_000_000_000_000_000 by { PowersOfTen(); }
    Decimal.DigitsWidth(if n < 0 then -n else n, 19);
  }

  lemma PowersOfTen()
    ensures Decimal.Pow10(19) == 10_000_000_000_000_000_000
  {
    assert Decimal.Pow10(5) == 100_000;
    assert Decimal.Pow10(10) == 10_000_000_000;
    assert Decimal.Pow10(15) == 1_000_000_000_000_000;
  }

  lemma RestampedLength(r: Record, ts: int)
    requires FitsI64(ts)
    ensures |RecordText(r.(ts := ts))| <= |RecordText(r.(ts := 0))| + 19
  {
    I64Text(ts);
    assert |PrintInt(0)| == 1;
    hide EscKey, TagsText, FieldsText, PrintInt;
  }

  /** The stamps are 64-bit, and each record's text, with room for any such stamp, within
      `limit`. */
  ghost predicate TextsFit(cfg: Delivery.Config, records: seq<Record>, limit: nat) {
    && (forall i: nat, r :: RecordAt(cfg, records, i, r) ==> FitsI64(r.ts))
    && (forall i :: 0 <= i < |records| ==> |RecordText(records[i].(ts := 0))| + 19 <= limit)
  }

  /** The queue bound in terms of the records: past what it adopted or may hold, the queue
      never grows by more than the unacknowledged window of encoded records, and what it
      adopted is past the cap by at most one such window for every restart. */
  lemma WiredQueueBound(cfg: Delivery.Config, records: seq<Record>, evs: seq<Delivery.Event>, limit: nat)
    requires Wired(cfg, records) && cfg.tickNs > 1 && TextsFit(cfg, records, limit)
    requires Stamp.Nondecreasing(Delivery.History(cfg, |cfg.input|)) && Delivery.Legal(cfg, Delivery.Boot(cfg), evs)
    ensures var s := Delivery.Play(cfg, Delivery.Boot(cfg), evs);
            var window := limit * cfg.batchLines * (1 + cfg.maxInflight);
            && (!s.full ==> Delivery.Total(s.segments) <= s.base)
            && Delivery.Total(s.segments) <= s.base + window
            && s.base <= cfg.maxBytes + window * DeliveryBounds.Crashes(evs)
  {
    WiredKeysDistinct(cfg, records);
    assert Delivery.WellFormed(cfg);
    WiredRowsFit(cfg, records, limit);
    hide *;
    DeliveryBounds.QueueBoundFor(cfg, evs, limit);
  }

  lemma WiredRowsFit(cfg: Delivery.Config, records: seq<Record>, limit: nat)
    requires Wired(cfg, records) && TextsFit(cfg, records, limit) && Delivery.WellFormed(cfg)
    ensures DeliveryBounds.RowsFit(cfg, limit)
  {
    hide KeyOf, Delivery.FateAt, Delivery.WellFormed, FloatsPrinted, Written, Writable, RecordText, Exactness.Issued,
      Exactness.Writes, Exactness.Refuses;
    forall i | 0 <= i < |cfg.input| && Delivery.FateAt(cfg, i).Row?
      ensures |Delivery.FateAt(cfg, i).line| <= limit
    {
      var l := Delivery.FateAt(cfg, i).line;
      Exactness.FateIff(cfg, i);
      assert Exactness.Writes(cfg, i, l);
      WritesMapped(cfg, i, l);
      RecordFates(cfg, records, i);
      var r :| RecordAt(cfg, records, i, r) && Written(r) == Some(l);
      WrittenIff(r);
      RestampedLength(records[i], r.ts);
    }
  }
}
