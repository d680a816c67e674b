/** The agent's framers behind the pipeline, with the timeouts and the drains that let their
    records go: what a checkpoint that cuts no record means for each, what a save over a
    half-assembled message loses, what only a timeout ships, and what one does to a replay. */
module Framers {
  import opened Basics
  import opened Framed
  import Delivery
  import Exactness
  import Multiline
  import Reassembly
  import Stamp

  // ---- Multiline ----

  function OutcomeOf(r: Option<string>): Outcome {
    match r
    case Some(text) => Complete(text)
    case None => Pending
  }

  /** The joiner, its count of truncated records aside. */
  function Joining(c: Multiline.Config): Framer<seq<string>, Multiline.Event> {
    Framer([], (buf: seq<string>, ev: Multiline.Event) =>
                 var (s, r) := Multiline.Do(c, Multiline.State(buf, 0), ev);
                 (s.buf, OutcomeOf(Multiline.Text(r))))
  }

  /** The loop pushes lines while the queue is not full and looks for a timeout in any case;
      only the drain of the shutdown is quiet. */
  function JoinerManner(ev: Multiline.Event): Manner {
    match ev
    case Push(_) => Manner(false, false)
    case Expire(_) => Manner(true, false)
    case Drain => Manner(true, true)
  }

  type JoinerSetup = Setup<seq<string>, Multiline.Event>

  ghost predicate Joins(u: JoinerSetup, c: Multiline.Config) {
    u.framer == Joining(c) && forall ev :: u.manner(ev) == JoinerManner(ev)
  }

  lemma {:induction false} JoiningHolds(c: Multiline.Config, evs: seq<Multiline.Event>)
    ensures After(Joining(c), evs) == Multiline.Play(c, evs).0.buf
  {
    if evs != [] {
      var n := |evs| - 1;
      JoiningHolds(c, evs[..n]);
      CountAside(c, Multiline.Play(c, evs[..n]).0, evs[n]);
    }
  }

  lemma CountAside(c: Multiline.Config, s: Multiline.State, ev: Multiline.Event)
    ensures var (a, b) := (Multiline.Do(c, s, ev), Multiline.Do(c, Multiline.State(s.buf, 0), ev));
            a.0.buf == b.0.buf && a.1 == b.1
  {
    hide Multiline.AtCap;
  }

  /** Item `i` completes just the record the joiner emits there, as its joined text. */
  lemma JoiningCompletes(u: JoinerSetup, c: Multiline.Config, i: nat)
    requires u.framer == Joining(c) && i < |u.items|
    ensures var (before, after) := (Multiline.Play(c, u.items[..i]).1, Multiline.Play(c, u.items[..i + 1]).1);
            match Completed(u, i)
            case Pending => after == before
            case Complete(text) =>
              |after| == |before| + 1 && before <= after && text == Multiline.Join(after[|before|].lines)
            case Refused(_) => false
  {
    JoiningHolds(c, u.items[..i]);
    CountAside(c, Multiline.Play(c, u.items[..i]).0, u.items[i]);
    assert u.items[..i + 1][..i] == u.items[..i];
    hide After, Multiline.Do, Multiline.Join;
  }

  /** For the joiner a position cuts no record exactly if every line before it is in a record
      already emitted. */
  lemma JoiningBoundary(c: Multiline.Config, evs: seq<Multiline.Event>)
    ensures After(Joining(c), evs) == Joining(c).empty
            <==> Multiline.Flatten(Multiline.Play(c, evs).1) == Multiline.Inputs(evs)
  {
    JoiningHolds(c, evs);
    Multiline.NothingPendingIff(c, evs);
    hide After, Multiline.Play, Multiline.Flatten, Multiline.Inputs;
  }

  /** The checkpoint-safety theorem with the joiner in the pipeline, over runs of lines,
      timeouts and drains: safe in every state, no record cut, exactly if no save followed a
      record that a shutdown dropped, and each save at the end of a drain came when every line
      read was in an emitted record and the rows in the batch and in flight were durable. */
  lemma JoiningSafetyIff(u: JoinerSetup, c: Multiline.Config, evs: seq<Delivery.Event>)
    requires Joins(u, c) && Fits(u) && Delivery.WellFormed(u.cfg) && Legal(u, evs)
    ensures (forall k :: 0 <= k <= |evs| ==> Legal(u, evs[..k]) && Safe(u, Play(u, evs[..k]))) <==> Disciplined(u, evs)
    ensures Disciplined(u, evs) ==>
              var s := Play(u, evs);
              && s.sys.pos <= |u.items|
              && var seen := u.items[..s.sys.pos];
              s.framer == [] <==> Multiline.Flatten(Multiline.Play(c, seen).1) == Multiline.Inputs(seen)
  {
    FramedSafetyIff(u, evs);
    if Disciplined(u, evs) {
      DisciplinedFollows(u, evs);
      JoiningBoundary(c, u.items[..Play(u, evs).sys.pos]);
    }
    hide Legal, Play, Safe, Disciplined, After, Multiline.Play, Multiline.Flatten, Multiline.Inputs;
  }

  // ---- What a timeout ships and a shutdown drops ----

  /** One line, then its timeout, at the head of the source. */
  ghost predicate TimedOut(u: JoinerSetup, c: Multiline.Config, a: string, first: string) {
    && Joins(u, c) && Fits(u) && Delivery.WellFormed(u.cfg) && u.cfg.maxInflight >= 1
    && c.start.Some? && !Multiline.AtCap(c, [a])
    && |u.items| >= 2 && u.items[0] == Multiline.Push(a) && u.items[1] == Multiline.Expire(true)
    && Delivery.FateAt(u.cfg, 1) == Delivery.Row(first)
  }

  /** The line stays in the joiner until the timeout, which makes it a record of its own. */
  lemma TimeoutCompletes(u: JoinerSetup, c: Multiline.Config, a: string, first: string)
    requires TimedOut(u, c, a, first)
    ensures FirstRecord(u, first, 2) && !Boundary(u, 1) && Completed(u, 1) == Complete(a)
  {
    hide Delivery.WellFormed, Multiline.AtCap;
    var items := u.items;
    assert items[..0] == [] && items[..1][..0] == [] && items[..2][..1] == items[..1];
    assert [] + [a] == [a];
    assert After(u.framer, items[..1]) == [a];
    assert After(u.framer, items[..2]) == [];
    assert u.cfg.input[0] == LineOf(u, Completed(u, 0));
  }

  /** A multiline record ships: pushed, let go by its timeout, flushed, stored and
      checkpointed. */
  lemma TimeoutShips(u: JoinerSetup, c: Multiline.Config, a: string, first: string)
    requires TimedOut(u, c, a, first)
    ensures Completed(u, 1) == Complete(a) && Legal(u, ShippingRun(first, 2))
    ensures var s := Play(u, ShippingRun(first, 2));
            Delivery.Stored(u.cfg, s.sys, first) && s.sys.cp.pos == 2 && Safe(u, s)
  {
    TimeoutCompletes(u, c, a, first);
    FirstRecordShips(u, first, 2);
  }

  /** And once such a record waits in the queue, a drain that ends after the next line saves
      inside the record that line begins. */
  lemma SaveInsideMultiline(u: JoinerSetup, c: Multiline.Config, a: string, first: string, b: string)
    requires TimedOut(u, c, a, first) && |first| <= u.cfg.maxBytes
    requires |u.items| >= 3 && u.items[2] == Multiline.Push(b) && !Multiline.AtCap(c, [b])
    ensures Legal(u, OutageAfter(first, 2)) && Legal(u, OutageAfter(first, 2) + [Delivery.DrainSave])
    ensures !Safe(u, Play(u, OutageAfter(first, 2) + [Delivery.DrainSave]))
  {
    TimeoutCompletes(u, c, a, first);
    SecondLineWaits(u, c, b);
    SaveInsideRecord(u, first, 2);
  }

  lemma SecondLineWaits(u: JoinerSetup, c: Multiline.Config, b: string)
    requires Joins(u, c) && Fits(u) && Boundary(u, 2) && c.start.Some? && !Multiline.AtCap(c, [b])
    requires |u.items| >= 3 && u.items[2] == Multiline.Push(b)
    ensures After(u.framer, u.items[..3]) != u.framer.empty && Delivery.FateAt(u.cfg, 2) == Delivery.Skip
  {
    hide Multiline.AtCap;
    assert u.items[..3][..2] == u.items[..2];
    assert [] + [b] == [b];
    assert u.cfg.input[2] == LineOf(u, Completed(u, 2));
  }

  /** One line, then the drain of a shutdown, whose record does not map or encode. */
  ghost predicate DrainedAway(u: JoinerSetup, c: Multiline.Config, a: string, raw: string) {
    && Joins(u, c) && Fits(u) && Delivery.WellFormed(u.cfg) && c.start.Some? && !Multiline.AtCap(c, [a])
    && |u.items| >= 2 && u.items[0] == Multiline.Push(a) && u.items[1] == Multiline.Drain
    && Delivery.FateAt(u.cfg, 1) == Delivery.Bury(raw)
  }

  /** The shutdown saves past that line, and nothing anywhere has it. */
  lemma ShutdownDropsRecord(u: JoinerSetup, c: Multiline.Config, a: string, raw: string)
    requires DrainedAway(u, c, a, raw)
    ensures Legal(u, [Delivery.Read, Delivery.Read, Delivery.Save])
    ensures var s := Play(u, [Delivery.Read, Delivery.Read, Delivery.Save]);
            && s.sys.cp.pos == 2 && s.sys.dead == [] && s.sys.batch == [] && s.sys.inflight == [] && !Safe(u, s)
  {
    hide Legal, Play, At, After, Delivery.FateAt, Delivery.WellFormed, Multiline.AtCap;
    AtBoot(u);
    DrainCompletes(u, c, a, raw);
    var s1 := ReadAt(u, [], Boot(u));
    AtIsInStep(u, [] + [Delivery.Read], s1);
    Then(u, [] + [Delivery.Read], s1, Delivery.Read);
    QuietRead(u, s1);
    var s2 := Do(u, s1, Delivery.Read);
    AtIsInStep(u, [] + [Delivery.Read] + [Delivery.Read], s2);
    Then(u, [] + [Delivery.Read] + [Delivery.Read], s2, Delivery.Save);
    var evs := [] + [Delivery.Read] + [Delivery.Read] + [Delivery.Save];
    assert evs == [Delivery.Read, Delivery.Read, Delivery.Save];
    AtMeans(u, evs, Do(u, s2, Delivery.Save));
  }

  lemma DrainCompletes(u: JoinerSetup, c: Multiline.Config, a: string, raw: string)
    requires DrainedAway(u, c, a, raw)
    ensures Delivery.FateAt(u.cfg, 0) == Delivery.Skip && Boundary(u, 2)
  {
    hide Delivery.WellFormed, Multiline.AtCap;
    var items := u.items;
    assert items[..0] == [] && items[..1][..0] == [] && items[..2][..1] == items[..1];
    assert [] + [a] == [a];
    assert After(u.framer, items[..1]) == [a];
    assert u.cfg.input[0] == LineOf(u, Completed(u, 0));
  }

  /** Lines only, none of whose records meets a bound: a source whose records follow one
      another within the timeout. */
  ghost predicate Busy(u: JoinerSetup, c: Multiline.Config) {
    && Joins(u, c) && Multiline.Sensible(c) && c.start.Some? && Multiline.PushesOnly(u.items)
    && Multiline.NoneAtCap(c, Multiline.AtStarts(c, Multiline.Inputs(u.items)))
  }

  lemma {:induction false} BusyPrefix(c: Multiline.Config, evs: seq<Multiline.Event>, p: nat)
    requires Multiline.PushesOnly(evs) && p <= |evs|
    requires Multiline.NoneAtCap(c, Multiline.AtStarts(c, Multiline.Inputs(evs)))
    ensures Multiline.NoneAtCap(c, Multiline.AtStarts(c, Multiline.Inputs(evs[..p])))
    decreases |evs|
  {
    hide Multiline.NoneAtCap, Multiline.AtStarts;
    if p < |evs| {
      var (init, ev) := (evs[..|evs| - 1], evs[|evs| - 1]);
      assert Multiline.Inputs(evs) == Multiline.Inputs(init) + [ev.line];
      if !Multiline.NoneAtCap(c, Multiline.AtStarts(c, Multiline.Inputs(init))) {
        Multiline.CapStays(c, Multiline.Inputs(init), ev.line);
      }
      BusyPrefix(c, init, p);
      assert init[..p] == evs[..p];
    } else {
      assert evs[..p] == evs;
    }
  }

  lemma BusyIsPending(u: JoinerSetup, c: Multiline.Config, p: nat)
    requires Busy(u, c) && 0 < p <= |u.items|
    ensures !Boundary(u, p)
  {
    BusyPrefix(c, u.items, p);
    Multiline.UntruncatedIff(c, u.items[..p]);
    JoiningHolds(c, u.items[..p]);
    hide Multiline.Play, Multiline.NoneAtCap, Multiline.AtStarts, After;
  }

  ghost predicate Nothing(s: Delivery.Sys) {
    && s.store == map[] && s.sent == {} && s.refused == {} && s.segments == [] && s.inflight == [] && s.held == []
    && forall l :: Delivery.Poison(l) !in s.dead
  }

  /** While a source is busy nothing of it ships, however long that lasts: the framer is
      pending after every line, so neither the loop nor the timer ever flushes, and every row
      read is still in the batch, whatever `batch_lines` is. */
  lemma {:induction false} BusySourceShipsNothing(u: JoinerSetup, c: Multiline.Config, evs: seq<Delivery.Event>)
    requires Busy(u, c) && Fits(u) && Delivery.WellFormed(u.cfg)
    requires Legal(u, evs) && SafeCrashes(u, evs)
    ensures var s := Play(u, evs);
            && s.sys.store == map[] && s.sys.sent == {} && s.sys.segments == []
            && !Enabled(u, s, Delivery.Flush) && (s.sys.pos > 0 ==> !Enabled(u, s, Delivery.Save))
            && forall i :: 0 <= i < s.sys.pos && i < |u.cfg.input| && Delivery.FateAt(u.cfg, i).Row? ==>
                             Delivery.FateAt(u.cfg, i).line in s.sys.batch
  {
    hide *;
    var s := Play(u, evs);
    NothingSent(u, c, evs);
    NothingMeans(s.sys);
    AlwaysCovered(u, evs);
    Waits(u, c, s);
    NeitherFlushNorSave(u, s);
    forall i | 0 <= i < s.sys.pos && i < |u.cfg.input| && Delivery.FateAt(u.cfg, i).Row?
      ensures Delivery.FateAt(u.cfg, i).line in s.sys.batch
    {
      HeldInBatch(u, s.sys, i);
    }
  }

  lemma NothingMeans(s: Delivery.Sys)
    requires Nothing(s)
    ensures s.store == map[] && s.sent == {} && s.segments == []
  {
  }

  /** In step and past the first line, a busy source's framer is pending. */
  lemma Waits(u: JoinerSetup, c: Multiline.Config, s: State<seq<string>>)
    requires Busy(u, c) && InStep(u, s)
    ensures s.sys.pos > 0 ==> s.framer != u.framer.empty
    ensures s.sys.pos == 0 ==> s.sys.batch == []
  {
    if s.sys.pos > 0 { BusyIsPending(u, c, s.sys.pos); }
    hide Busy, After, Exactness.Sane, Delivery.WellFormed;
  }

  lemma {:induction false} NothingSent(u: JoinerSetup, c: Multiline.Config, evs: seq<Delivery.Event>)
    requires Busy(u, c) && Fits(u) && Legal(u, evs) && SafeCrashes(u, evs)
    ensures Nothing(Play(u, evs).sys)
  {
    hide Busy, Fits, Enabled, Do, InStep, Nothing, Safe, Boot;
    if evs == [] {
      NothingAtFirst(u);
    } else {
      var (init, ev) := (evs[..|evs| - 1], evs[|evs| - 1]);
      NothingSent(u, c, init);
      Follows(u, init);
      Waits(u, c, Play(u, init));
      NothingKept(u, Play(u, init), ev);
    }
  }

  lemma NothingAtFirst<F(!new), E(!new)>(u: Setup<F, E>)
    ensures Nothing(Boot(u).sys)
  {
  }

  lemma NothingKept(u: JoinerSetup, s: State<seq<string>>, ev: Delivery.Event)
    requires Fits(u) && Enabled(u, s, ev) && Nothing(s.sys)
    requires s.framer == u.framer.empty ==> s.sys.batch == []
    ensures Nothing(Do(u, s, ev).sys)
  {
    hide Delivery.Answered, Delivery.Total, Delivery.FateOf, Stamp.Issue, Stamp.After, Nothing;
    if ev.Read? {
      ReadSendsNothing(u, s);
    } else {
      StillNothing(u.cfg, s.sys, ev);
    }
  }

  lemma ReadSendsNothing(u: JoinerSetup, s: State<seq<string>>)
    requires s.sys.pos < |u.items| == |u.cfg.input| && Nothing(s.sys)
    ensures Nothing(AfterRead(u, s).sys)
  {
    hide Stamp.Issue, Stamp.After, LineOf;
  }

  /** With nothing handed over no step but a flush sends or stores anything. */
  lemma StillNothing(cfg: Delivery.Config, s: Delivery.Sys, ev: Delivery.Event)
    requires Delivery.Enabled(cfg, s, ev) && Nothing(s) && !ev.Read? && !ev.Flush?
    ensures Nothing(Delivery.Do(cfg, s, ev))
  {
    if ev.Quarantine? { SomeRefused(ev.poison, s.refused); }
    hide Delivery.Answered, Delivery.Total;
  }

  lemma SomeRefused(poison: seq<string>, refused: set<string>)
    requires forall l :: l in poison ==> l in refused
    ensures poison != [] ==> refused != {}
  {
    if poison != [] { assert poison[0] in refused; }
  }

  lemma HeldInBatch(u: JoinerSetup, s: Delivery.Sys, i: nat)
    requires Nothing(s) && CoveredButDrains(u, s)
    requires i < s.pos && i < |u.cfg.input| && Delivery.FateAt(u.cfg, i).Row?
    ensures Delivery.FateAt(u.cfg, i).line in s.batch
  {
    OnlyUnread(u, s.pos);
    hide Delivery.FateAt, Droppings;
  }

  lemma NeitherFlushNorSave(u: JoinerSetup, s: State<seq<string>>)
    requires s.sys.pos > 0 ==> s.framer != u.framer.empty
    requires s.sys.pos == 0 ==> s.sys.batch == []
    ensures !Enabled(u, s, Delivery.Flush) && (s.sys.pos > 0 ==> !Enabled(u, s, Delivery.Save))
  {
  }

  // ---- Container logs ----

  /** A line of the log, or a stream let go, by its timeout or by the drain of the shutdown. */
  datatype Item = Line(raw: string) | Expired(s: string) | Drained(s: string)

  function ItemManner(item: Item): Manner {
    match item
    case Line(_) => Manner(false, false)
    case Expired(_) => Manner(true, false)
    case Drained(_) => Manner(true, true)
  }

  /** Either reassembler: `decode` reads a line, `write` puts an envelope as the text that
      goes on. A line that does not decode is refused and changes nothing. */
  function Reassembling(c: Reassembly.Config, decode: string -> Reassembly.Parsed,
                        write: Reassembly.Envelope -> string): Framer<Reassembly.Pendings, Item>
  {
    Framer(map[], (m: Reassembly.Pendings, item: Item) => PushItem(c, decode, write, m, item))
  }

  function PushItem(c: Reassembly.Config, decode: string -> Reassembly.Parsed, write: Reassembly.Envelope -> string,
                    m: Reassembly.Pendings, item: Item): (Reassembly.Pendings, Outcome)
  {
    match EventOf(decode, item)
    case None => (m, Outcome.Refused(item.raw))
    case Some(ev) =>
      var (m', r) := Reassembly.Do(c, m, ev);
      (m', if r.None? || r.value == [] then Pending else Complete(write(Reassembly.Render(c, r.value))))
  }

  function EventOf(decode: string -> Reassembly.Parsed, item: Item): (r: Option<Reassembly.Event>)
    ensures r.None? ==> item.Line?
  {
    match item
    case Line(raw) => (match decode(raw) case Ok(f) => Some(Reassembly.Feed(f)) case Refused(_) => None)
    case Expired(s) => Some(Reassembly.Let(s))
    case Drained(s) => Some(Reassembly.Let(s))
  }

  type ReassemblerSetup = Setup<Reassembly.Pendings, Item>

  ghost predicate Reassembles(u: ReassemblerSetup, c: Reassembly.Config, decode: string -> Reassembly.Parsed,
                              write: Reassembly.Envelope -> string)
  {
    u.framer == Reassembling(c, decode, write) && forall item :: u.manner(item) == ItemManner(item)
  }

  /** What the reassembler sees of the items. */
  function Events(decode: string -> Reassembly.Parsed, items: seq<Item>): seq<Reassembly.Event> {
    if items == [] then []
    else
      Events(decode, items[..|items| - 1]) +
      match EventOf(decode, items[|items| - 1]) case Some(ev) => [ev] case None => []
  }

  lemma {:induction false} ReassemblingHolds(c: Reassembly.Config, decode: string -> Reassembly.Parsed,
                                             write: Reassembly.Envelope -> string, items: seq<Item>)
    ensures After(Reassembling(c, decode, write), items) == Reassembly.Play(c, Events(decode, items)).0
  {
    hide *;
    AfterOne(c, decode, write, items);
    EventsOne(decode, items);
    if items == [] {
      NothingPlayed(c);
    } else {
      var n := |items| - 1;
      var (before, ev) := (Events(decode, items[..n]), EventOf(decode, items[n]));
      ReassemblingHolds(c, decode, write, items[..n]);
      if ev.Some? { Reassembly.PlaySnoc(c, before, ev.value); }
    }
  }

  lemma AfterOne(c: Reassembly.Config, decode: string -> Reassembly.Parsed, write: Reassembly.Envelope -> string,
                 items: seq<Item>)
    ensures var r := Reassembling(c, decode, write);
            if items == [] then After(r, items) == map[]
            else
              var (m, ev) := (After(r, items[..|items| - 1]), EventOf(decode, items[|items| - 1]));
              After(r, items) == if ev.None? then m else Reassembly.Do(c, m, ev.value).0
  {
    hide EventOf, Reassembly.Do, Reassembly.Render;
  }

  lemma EventsOne(decode: string -> Reassembly.Parsed, items: seq<Item>)
    ensures if items == [] then Events(decode, items) == []
            else
              var (before, ev) := (Events(decode, items[..|items| - 1]), EventOf(decode, items[|items| - 1]));
              Events(decode, items) == if ev.None? then before else before + [ev.value]
  {
    hide EventOf;
  }

  lemma NothingPlayed(c: Reassembly.Config)
    ensures Reassembly.Play(c, []).0 == map[]
  {
  }

  /** A line that does not decode is refused as it is. Any other item completes just the
      message the reassembler emits there, written out. */
  lemma ReassemblingCompletes(u: ReassemblerSetup, c: Reassembly.Config, decode: string -> Reassembly.Parsed,
                              write: Reassembly.Envelope -> string, i: nat)
    requires u.framer == Reassembling(c, decode, write) && i < |u.items|
    ensures u.items[i].Line? && decode(u.items[i].raw).Refused? <==> Completed(u, i).Refused?
    ensures var (before, after) := (Reassembly.Play(c, Events(decode, u.items[..i])).1,
                                    Reassembly.Play(c, Events(decode, u.items[..i + 1])).1);
            match Completed(u, i)
            case Pending => after == before
            case Complete(text) =>
              && |after| == |before| + 1 && before <= after && after[|before|] != []
              && text == write(Reassembly.Render(c, after[|before|]))
            case Refused(raw) => u.items[i] == Line(raw) && after == before
  {
    hide *;
    var seen := Events(decode, u.items[..i]);
    var ev := EventOf(decode, u.items[i]);
    ReassemblingHolds(c, decode, write, u.items[..i]);
    assert u.items[..i + 1][..i] == u.items[..i];
    EventsOne(decode, u.items[..i + 1]);
    CompletedOne(u, c, decode, write, i, Reassembly.Play(c, seen).0);
    Reassembly.AlwaysSorted(c, seen);
    if ev.Some? {
      Reassembly.PlaySnoc(c, seen, ev.value);
      Reassembly.StepSorted(c, Reassembly.Play(c, seen).0, ev.value);
    }
  }

  lemma CompletedOne(u: ReassemblerSetup, c: Reassembly.Config, decode: string -> Reassembly.Parsed,
                     write: Reassembly.Envelope -> string, i: nat, m: Reassembly.Pendings)
    requires u.framer == Reassembling(c, decode, write) && i < |u.items|
    requires After(Reassembling(c, decode, write), u.items[..i]) == m
    ensures u.items[i].Line? && decode(u.items[i].raw).Refused? <==> EventOf(decode, u.items[i]).None?
    ensures var ev := EventOf(decode, u.items[i]);
            if ev.None? then u.items[i].Line? && Completed(u, i) == Outcome.Refused(u.items[i].raw)
            else
              var r := Reassembly.Do(c, m, ev.value).1;
              Completed(u, i) == if r.None? || r.value == [] then Pending
                                 else Complete(write(Reassembly.Render(c, r.value)))
  {
    hide After, Reassembly.Do, Reassembly.Render;
  }

  /** Every fragment of stream `x` is in a message already emitted. */
  predicate AllSent(c: Reassembly.Config, evs: seq<Reassembly.Event>, x: string) {
    Reassembly.Flatten(Reassembly.Of(Reassembly.Play(c, evs).1, x)) == Reassembly.Fed(evs, x)
  }

  /** For a reassembler a position cuts no message exactly if of every stream each fragment
      before it is in a message already emitted. */
  lemma ReassemblingBoundary(c: Reassembly.Config, decode: string -> Reassembly.Parsed,
                             write: Reassembly.Envelope -> string, items: seq<Item>)
    ensures var evs := Events(decode, items);
            After(Reassembling(c, decode, write), items) == Reassembling(c, decode, write).empty
            <==> forall x :: AllSent(c, evs, x)
  {
    hide *;
    var evs := Events(decode, items);
    ReassemblingHolds(c, decode, write, items);
    NothingFirst(c, decode, write);
    var m := Reassembly.Play(c, evs).0;
    forall x
      ensures AllSent(c, evs, x) <==> x !in m
    {
      NothingOf(c, evs, x);
    }
    assert m == map[] <==> forall x :: x !in m;
  }

  lemma NothingFirst(c: Reassembly.Config, decode: string -> Reassembly.Parsed, write: Reassembly.Envelope -> string)
    ensures Reassembling(c, decode, write).empty == map[]
  {
  }

  lemma NothingOf(c: Reassembly.Config, evs: seq<Reassembly.Event>, x: string)
    ensures AllSent(c, evs, x) <==> x !in Reassembly.Play(c, evs).0
  {
    hide Reassembly.Play, Reassembly.Flatten, Reassembly.Of, Reassembly.Fed;
    Reassembly.AlwaysSorted(c, evs);
    Reassembly.Conserved(c, evs, x);
    var (m, out) := Reassembly.Play(c, evs);
    SuffixEmpty(Reassembly.Flatten(Reassembly.Of(out, x)), Reassembly.Held(m, x));
  }

  lemma SuffixEmpty(a: seq<Reassembly.Fragment>, b: seq<Reassembly.Fragment>)
    ensures a + b == a <==> b == []
  {
    assert |a + b| == |a| + |b|;
  }

  lemma ReassemblingSafetyIff(u: ReassemblerSetup, c: Reassembly.Config, decode: string -> Reassembly.Parsed,
                              write: Reassembly.Envelope -> string, evs: seq<Delivery.Event>)
    requires Reassembles(u, c, decode, write)
    requires Fits(u) && Delivery.WellFormed(u.cfg) && Legal(u, evs)
    ensures (forall k :: 0 <= k <= |evs| ==> Legal(u, evs[..k]) && Safe(u, Play(u, evs[..k]))) <==> Disciplined(u, evs)
    ensures Disciplined(u, evs) ==>
              var s := Play(u, evs);
              && s.sys.pos <= |u.items|
              && var seen := Events(decode, u.items[..s.sys.pos]);
              s.framer == map[] <==>
                forall x :: AllSent(c, seen, x)
  {
    FramedSafetyIff(u, evs);
    if Disciplined(u, evs) {
      DisciplinedFollows(u, evs);
      ReassemblingBoundary(c, decode, write, u.items[..Play(u, evs).sys.pos]);
    }
    hide Legal, Play, Safe, Disciplined, After, AllSent, Events;
  }

  /** What the missing guard costs: a drain saves while fragments of stream `x` are pending,
      nothing in the batch or in flight need be; the process dies; and the next one makes of
      the message's last line a message without them. */
  lemma HalfMessageIsLost(u: ReassemblerSetup, c: Reassembly.Config, decode: string -> Reassembly.Parsed,
                          write: Reassembly.Envelope -> string, s: State<Reassembly.Pendings>, raw: string,
                          f: Reassembly.Fragment)
    requires Reassembles(u, c, decode, write) && Fits(u) && Aligned(u, s)
    requires Enabled(u, s, Delivery.DrainSave) && s.sys.pos < |u.items| && u.items[s.sys.pos] == Line(raw)
    requires decode(raw) == Reassembly.Ok(f) && f.closes && Reassembly.Decoded(c, f)
    requires f.stream in s.framer && Reassembly.Concat(s.framer[f.stream]) != []
    ensures var t := Do(u, Do(u, s, Delivery.DrainSave), Delivery.Crash);
            && Enabled(u, t, Delivery.Read) && t.sys.pos == s.sys.pos
            && Completed(u, s.sys.pos) == Complete(write(Reassembly.Render(c, s.framer[f.stream] + [f])))
            && u.framer.push(t.framer, u.items[t.sys.pos]).1 == Complete(write(Reassembly.Render(c, [f])))
            && |Reassembly.Render(c, [f]).log| < |Reassembly.Render(c, s.framer[f.stream] + [f]).log|
  {
    var g := s.framer[f.stream];
    Reassembly.ConcatSnoc(g, f);
    Reassembly.ConcatSnoc([], f);
    assert [] + [f] == [f];
    assert (g + [f])[|g + [f]| - 1] == f;
    hide Reassembly.Concat, After;
  }

  // ---- Timeouts ----

  /** The lines a joiner has emitted and still holds, record by record. */
  function Cut(s: Multiline.State, out: seq<Multiline.Record>): seq<seq<string>> {
    Multiline.Groups(out) + if s.buf == [] then [] else [s.buf]
  }

  function Emitted(r: Option<Multiline.Record>): seq<Multiline.Record> {
    match r
    case Some(rec) => [rec]
    case None => []
  }

  /** What a timeout between two lines does to the records: a pending record is emitted there
      and then, and the records are those of a run without the timeout, as a replay is, if and
      only if the next line starts a record anyway. */
  lemma TimeoutHarmlessIff(c: Multiline.Config, s: Multiline.State, line: string)
    requires c.start.Some? && s.buf != []
    ensures var (expired, out) := Multiline.Do(c, s, Multiline.Expire(true));
            var (after, more) := Multiline.Do(c, expired, Multiline.Push(line));
            var (plain, once) := Multiline.Do(c, s, Multiline.Push(line));
            Cut(after, Emitted(out) + Emitted(more)) == Cut(plain, Emitted(once)) <==> Multiline.Starts(c, line)
  {
    hide Multiline.AtCap;
    var (expired, out) := Multiline.Do(c, s, Multiline.Expire(true));
    var (after, more) := Multiline.Do(c, expired, Multiline.Push(line));
    var (plain, once) := Multiline.Do(c, s, Multiline.Push(line));
    GroupsOf(Emitted(out) + Emitted(more));
    GroupsOf(Emitted(once));
    if Multiline.Starts(c, line) {
      var (a, b) := (Cut(after, Emitted(out) + Emitted(more)), Cut(plain, Emitted(once)));
      assert |a| == 2 && a[0] == s.buf && a[1] == [line];
      assert |b| == 2 && b[0] == s.buf && b[1] == [line];
    } else {
      assert |Cut(after, Emitted(out) + Emitted(more))| == 2;
      assert |Cut(plain, Emitted(once))| == 1;
    }
  }

  lemma {:induction false} GroupsOf(out: seq<Multiline.Record>)
    ensures forall k :: 0 <= k < |out| ==> Multiline.Groups(out)[k] == out[k].lines
  {
    if out != [] {
      var n := |out| - 1;
      GroupsOf(out[..n]);
      assert Multiline.Groups(out)[..n] == Multiline.Groups(out[..n]);
    }
  }

  /** A timeout between two fragments of one message always does: the message goes out in
      two, while a replay sends it in one. */
  lemma TimeoutSplitsMessage(c: Reassembly.Config, m: Reassembly.Pendings, f: Reassembly.Fragment)
    requires Reassembly.Sorted(m) && f.stream in m && f.closes
    ensures var (let_, out) := Reassembly.Release(m, f.stream);
            var (after, more) := Reassembly.Accept(c, let_, f);
            var (plain, once) := Reassembly.Accept(c, m, f);
            && out == Some(m[f.stream]) && more == Some([f]) && once == Some(m[f.stream] + [f]) && after == plain
            && once != more
  {
    assert |m[f.stream] + [f]| > |[f]|;
    assert [] + [f] == [f];
  }
}
