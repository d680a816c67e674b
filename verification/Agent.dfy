/** The pipeline itself (main.rs): the tail loop, the in-flight tasks and the queue drain,
    on real stamper and queue objects. Every method is shown to take only steps of the
    machine in `Delivery`, so what is proved there of every run holds here. */
module Agent {
  import opened Basics
  import opened Delivery
  import opened Exactness
  import opened Runs
  import Decimal
  import DeliveryBounds
  import Lines
  import Queue
  import Ship
  import Stamp

  function SplitAll(bodies: seq<string>): (bs: seq<seq<string>>)
    ensures |bs| == |bodies| && forall k :: 0 <= k < |bs| ==> bs[k] == Lines.Split(bodies[k])
  {
    seq(|bodies|, k requires 0 <= k < |bodies| => Lines.Split(bodies[k]))
  }

  lemma {:induction false} ConcatSplit(body: string)
    ensures Lines.Concat(Lines.Split(body)) == body
    decreases |body|
  {
    hide *;
    if body == [] {
      SplitNothing();
    } else {
      var n := Lines.FirstEnd(body);
      ConcatSplit(body[n..]);
      SplitFirst(body);
      Lines.ConcatCons(body[..n], Lines.Split(body[n..]));
      assert body[..n] + body[n..] == body;
    }
  }

  lemma SplitNothing()
    ensures Lines.Concat(Lines.Split([])) == []
  {
  }

  lemma SplitFirst(body: string)
    requires body != []
    ensures var n := Lines.FirstEnd(body); Lines.Split(body) == [body[..n]] + Lines.Split(body[n..])
  {
    hide Lines.FirstEnd;
  }

  /** The queue's byte count is the byte count of the lines in it. */
  lemma {:induction false} QueueBytes(bodies: seq<string>)
    ensures Queue.Sum(bodies) == Total(SplitAll(bodies))
  {
    if bodies != [] {
      var n := |bodies| - 1;
      QueueBytes(bodies[..n]);
      assert SplitAll(bodies)[..n] == SplitAll(bodies[..n]);
      ConcatSplit(bodies[n]);
      Lines.ConcatBytes(Lines.Split(bodies[n]));
    }
  }

  lemma SplitAllAppend(bodies: seq<string>, lines: seq<string>)
    requires Lines.AllLines(lines)
    ensures SplitAll(bodies + [Lines.Concat(lines)]) == SplitAll(bodies) + [lines]
  {
    Lines.SplitConcat(lines);
  }

  lemma SpoolFacts(bodies: seq<string>, lines: seq<string>)
    requires Lines.AllLines(lines)
    ensures SplitAll(bodies + [Lines.Concat(lines)]) == SplitAll(bodies) + [lines]
    ensures Queue.Sum(bodies + [Lines.Concat(lines)]) == Total(SplitAll(bodies)) + Lines.Bytes(lines)
  {
    SplitAllAppend(bodies, lines);
    QueueBytes(bodies);
    Queue.SumAppend(bodies, Lines.Concat(lines));
    Lines.ConcatBytes(lines);
  }

  lemma SplitAllMove(bodies: seq<string>, body: string)
    ensures SplitAll(bodies + [body]) == SplitAll(bodies) + [Lines.Split(body)]
  {
  }

  lemma SplitAllTail(bodies: seq<string>)
    requires bodies != []
    ensures SplitAll(bodies[1..]) == SplitAll(bodies)[1..] && SplitAll(bodies)[0] == Lines.Split(bodies[0])
  {
  }

  /** Encoded rows end in their only newline. */
  ghost predicate RowsAreLines(cfg: Config) {
    forall i, ts :: 0 <= i < |cfg.input| && cfg.input[i].Mapped? && cfg.input[i].encode(ts).Some? ==>
      Lines.IsLine(cfg.input[i].encode(ts).value)
  }

  lemma RowIsLine(cfg: Config, l: string)
    requires RowsAreLines(cfg) && IsRow(cfg, l)
    ensures Lines.IsLine(l)
  {
    var i :| 0 <= i < |cfg.input| && FateAt(cfg, i) == Row(l);
  }

  ghost predicate Supported(cfg: Config) {
    WellFormed(cfg) && RowsAreLines(cfg) && cfg.batchLines >= 1 && cfg.maxInflight >= 1
  }

  /** Where a batch that could not be shipped went. */
  datatype Kept = Queued | Forced | Pinned

  /** Every pass but the last ends with the timer's flush and save. */
  predicate Timely(passes: seq<(nat, bool)>) {
    forall k :: 0 <= k < |passes| - 1 ==> passes[k].1
  }

  /** Whether a spool comes to its second write: over the cap, or the first found no room. */
  predicate Retries(over: bool, first: Queue.Io) {
    over || Queue.Verdict(first) == Queue.Refused
  }

  /** The write a spool ends with, its first or, past the cap, its second. */
  function LastIo(over: bool, first: Queue.Io, second: Queue.Io): Queue.Io {
    if Retries(over, first) then second else first
  }

  /** The process does not outlive such a write: it is killed inside, or ends on its error. */
  predicate Fatal(io: Queue.Io) {
    Queue.Verdict(io) == Queue.Killed || Queue.Verdict(io) == Queue.Broke
  }

  predicate Over(cfg: Config, s: Sys, lines: seq<string>) {
    Total(s.segments) + Lines.Bytes(lines) > cfg.maxBytes
  }

  /** Batch `i` spooled or still in flight. */
  ghost function SpooledIf(cfg: Config, s: Sys, i: nat, forced: bool, spooled: bool): Sys
    requires i < |s.inflight| && (Over(cfg, s, s.inflight[i]) ==> forced)
  {
    if spooled then Do(cfg, s, ReapSpooled(i, forced)) else s
  }

  class Agent {
    const cfg: Config
    const server: Ship.Server
    const space: nat -> bool   // whether the n-th write to the state disk finds room
    const finishes: nat -> nat // which of the tasks in flight comes back next
    ghost const quiet: nat     // a request from which the server asks for no more patience

    var queue: Queue.Queue
    var stamper: Stamp.Stamper
    var pos: nat               // the tailer's position, in lines
    var batch: seq<string>
    var inflight: seq<seq<string>>
    var held: seq<string>
    var cp: Checkpoint         // the checkpoint file
    var dead: seq<DeadEntry>   // the dead-letter file
    var clock: nat             // requests made
    var writes: nat            // writes attempted

    ghost var store: map<Key, string>
    ghost var sent: set<string>
    ghost var refused: set<string>
    ghost var base: nat
    ghost var risky: nat       // drain saves that found rows in the batch or in flight

    ghost function Now(): Sys
      reads this, queue, stamper
    {
      Sys(store, dead, SplitAll(queue.bodies), cp, sent, refused, base,
          pos, stamper.View(), batch, inflight, SplitAll(held), queue.full)
    }

    /** From some request on the server asks for no more patience. */
    ghost predicate Patient() {
      forall n, chunk :: n >= quiet ==> !server(n, chunk).Backpressure?
    }

    /** The server itself turned down, on its own and in a request that was made, every row
        counted as refused. */
    ghost predicate Honest()
      reads this`refused, this`clock
    {
      forall l :: l in refused ==> Ship.RefusedAlone(server, l, clock)
    }

    ghost predicate Valid()
      reads this, queue, queue.disk, stamper
    {
      && Supported(cfg)
      && Patient() && queue.Valid() && queue.maxBytes == cfg.maxBytes && stamper.tickNs == cfg.tickNs
      && Honest() && Reached(cfg, Now(), false)
    }

    /** A new installation. */
    constructor (cfg: Config, server: Ship.Server, space: nat -> bool, finishes: nat -> nat, ghost quiet: nat)
      requires Supported(cfg) && (forall n, chunk :: n >= quiet ==> !server(n, chunk).Backpressure?)
      ensures Valid() && Now() == Boot(cfg) && this.cfg == cfg
      ensures fresh(queue) && fresh(queue.disk) && fresh(stamper)
    {
      this.cfg, this.server, this.space, this.finishes, this.quiet := cfg, server, space, finishes, quiet;
      var disk := new Queue.Disk();
      queue := new Queue.Queue.Open(disk, cfg.maxBytes, [], []);
      stamper := new Stamp.Stamper(cfg.tickNs);
      pos, batch, inflight, held := 0, [], [], [];
      cp, dead, clock, writes := Checkpoint(0, None), [], 0, 0;
      store, sent, refused, base, risky := map[], {}, {}, cfg.maxBytes, 0;
      new;
      assert SplitAll([]) == [];
      assert Now() == Boot(cfg);
      BootIsReached(cfg, false);
    }

    /** One turn of the read loop: the next line is built, stamped, encoded and batched, or
        sent to the dead-letter file, or dropped. */
    method ReadLine()
      requires Valid() && Enabled(cfg, Now(), Read)
      modifies this`pos, this`batch, this`dead, stamper
      ensures Valid() && Now() == Do(cfg, old(Now()), Read)
      ensures Leads(cfg, old(Now()), Now(), true)
      ensures pos == old(pos) + 1 && |batch| <= |old(batch)| + 1
      ensures match cfg.input[old(pos)]
              case Blank => batch == old(batch) && dead == old(dead)
              case Dropped => batch == old(batch) && dead == old(dead)
              case Unmapped(raw) => batch == old(batch) && dead == old(dead) + [Unread(raw)]
              case Mapped(raw, sourceTs, encode) =>
                var out := Stamp.Issue(cfg.tickNs, old(stamper.View()), sourceTs);
                if out.Stamped? && encode(out.ts).Some?
                then batch == old(batch) + [encode(out.ts).value] && dead == old(dead)
                else batch == old(batch) && dead == old(dead) + [Unread(raw)]
    {
      hide Leads, Reached, Supported, Honest, Patient, Queue.Queue.Valid, Stamp.Issue, Stamp.After, SplitAll,
        Enabled, Do;
      ghost var s := Now();
      ReadIs(s);
      var line := cfg.input[pos];
      pos := pos + 1;
      match line {
        case Blank =>
        case Dropped =>
        case Unmapped(raw) =>
          dead := dead + [Unread(raw)];
        case Mapped(raw, sourceTs, encode) =>
          var issued := stamper.Stamp(sourceTs);
          match issued {
            case Exhausted(_, _) =>
              dead := dead + [Unread(raw)];
            case Stamped(ts) =>
              var text := encode(ts);
              if text.Some? {
                batch := batch + [text.value];
              } else {
                dead := dead + [Unread(raw)];
              }
          }
      }
      assert Now() == AfterRead(cfg, s);
      Taken(s, Read);
    }

    lemma ReadIs(s: Sys)
      requires Enabled(cfg, s, Read)
      ensures s.pos < |cfg.input| && Do(cfg, s, Read) == AfterRead(cfg, s)
    {
    }

    /** One step taken: still reachable, and reached safely. */
    lemma Taken(s: Sys, ev: Event)
      requires Reached(cfg, s, false) && Enabled(cfg, s, ev) && !ev.DrainSave? && !ev.Crash?
      ensures Leads(cfg, s, Do(cfg, s, ev), true) && Reached(cfg, Do(cfg, s, ev), false)
    {
      ReachedStep(cfg, s, ev, false);
      LeadsRefl(cfg, s);
      LeadsStep(cfg, s, s, ev, true);
    }

    lemma Carried(s: Sys, t: Sys)
      requires Reached(cfg, s, false) && Leads(cfg, s, t, true)
      ensures Reached(cfg, t, false)
    {
      ReachedLeads(cfg, s, t, true);
    }

    /** Append what the server refused to the dead-letter file. */
    method Quarantine(poison: seq<string>)
      modifies this`dead
      ensures dead == old(dead) + Poisons(poison)
    {
      for i := 0 to |poison|
        invariant dead == old(dead) + Poisons(poison)[..i]
      {
        dead := dead + [Poison(poison[i])];
      }
    }

    /** How the next write to the state disk fares. */
    method NextWrite() returns (io: Queue.Io)
      modifies this`writes
      ensures io == if space(old(writes)) then Queue.Works else Queue.WriteFails([], true)
      ensures writes == old(writes) + 1
    {
      io := if space(writes) then Queue.Works else Queue.WriteFails([], true);
      writes := writes + 1;
    }

    /** The last request was for some of these lines, and went unanswered or was answered
        with an error. */
    ghost predicate DownOn(lines: seq<string>)
      reads this`clock
    {
      exists lo, hi :: 0 <= lo < hi <= |lines| && Ship.FailedLast(server, clock, lines[lo..hi])
    }

    /** The batch first in line to be shipped: the oldest held, or else the oldest queued. */
    ghost function FirstInLine(): seq<string>
      reads this`held, this`queue, queue
    {
      if held != [] then Lines.Split(held[0])
      else if queue.bodies != [] then Lines.Split(queue.bodies[0])
      else []
    }

    /** The last write to the state disk found no room. */
    ghost predicate DiskShut()
      reads this`writes
    {
      writes > 0 && !space(writes - 1)
    }

    /** Ship a batch and record what reached the server. */
    method ShipBatch(lines: seq<string>)
      returns (r: Ship.Result, ghost applied: seq<string>, ghost turned: seq<string>)
      requires Patient() && Honest()
      modifies this`clock, this`refused, this`store
      ensures Honest() && clock >= old(clock) && refused == old(refused) + Rows(turned)
      ensures store == Applied(cfg, old(store), applied)
      ensures r.Ok? ==> turned == r.poison && multiset(lines) == multiset(applied) + multiset(r.poison)
      ensures forall l :: l in applied || l in turned ==> l in lines
      ensures r.Err? ==> DownOn(lines)
    {
      Suspects();
      hide Valid, Applied, DownOn, Rows, Honest, Ship.Tiles, Ship.PoisonOf, Ship.ShippedOf, Ship.Justified, Ship.Exact,
        Ship.GaveUp, Ship.RefusedAlone;
      ghost var log: seq<Ship.Verdict>;
      ghost var doubt: (nat, nat);
      var bisects: nat;
      r, clock, bisects, log, doubt := Ship.SendLines(server, lines, clock, quiet, (l: string) => false);
      if r.Ok? {
        applied, turned := Ship.ShippedOf(lines, log), r.poison;
        Ship.TilesPartition(lines, log, |lines|);
        assert lines[..|lines|] == lines;
        PartsAreIn(lines, applied, r.poison);
      } else {
        ghost var f, hi :| 0 <= f < hi <= |lines| && Ship.Tiles(log, f)
          && Ship.GaveUp(server, lines, clock, f, hi, r.error, doubt);
        WentDown(lines, f, hi, r.error, doubt);
        SentBefore(lines, log, f);
        applied, turned := Ship.ShippedOf(lines, log) + lines[doubt.0..doubt.1], Ship.PoisonOf(lines, log);
      }
      TurnedDown(refused, lines, log, old(clock));
      store := Applied(cfg, store, applied);
      refused := refused + Rows(turned);
      StillHonest();
    }

    lemma Suspects()
      requires Honest()
      ensures forall l :: l in refused ==> Ship.RefusedAlone(server, l, clock)
    {
    }

    lemma StillHonest()
      requires forall l :: l in refused ==> Ship.RefusedAlone(server, l, clock)
      ensures Honest()
    {
    }

    /** What `ship` calls poison the server turned down on its own. */
    lemma TurnedDown(before: set<string>, lines: seq<string>, log: seq<Ship.Verdict>, start: nat)
      requires start <= clock && forall l :: l in before ==> Ship.RefusedAlone(server, l, start)
      requires Ship.Justified(server, lines, log, start, clock)
      ensures forall l :: l in before + Rows(Ship.PoisonOf(lines, log)) ==> Ship.RefusedAlone(server, l, clock)
    {
      Ship.PoisonIsRefused(server, lines, log, start, clock);
      hide Ship.RefusedAlone, Ship.PoisonOf, Ship.Justified;
      forall l | l in before ensures Ship.RefusedAlone(server, l, clock) {
        Ship.RefusedStill(server, l, start, clock);
      }
    }

    lemma WentDown(lines: seq<string>, lo: nat, hi: nat, error: string, doubt: (nat, nat))
      requires lo < hi <= |lines| && Ship.GaveUp(server, lines, clock, lo, hi, error, doubt)
      ensures DownOn(lines)
    {
      assert Ship.FailedLast(server, clock, lines[lo..hi]);
    }

    lemma SentBefore(lines: seq<string>, log: seq<Ship.Verdict>, f: nat)
      requires f <= |lines| && Ship.Tiles(log, f)
      ensures forall l :: l in Ship.ShippedOf(lines, log) || l in Ship.PoisonOf(lines, log) ==> l in lines
    {
      hide *;
      Ship.TilesPartition(lines, log, f);
      PartsAreIn(lines[..f], Ship.ShippedOf(lines, log), Ship.PoisonOf(lines, log));
    }

    /** A batch that could not be shipped: into the queue, past its cap if need be, and
        into memory if the disk is full as well. */
    method Keep(body: string) returns (kept: Kept)
      requires queue.Valid()
      modifies this`held, this`writes, queue, queue.disk
      ensures queue.Valid()
      ensures queue.bodies == if kept.Pinned? then old(queue.bodies) else old(queue.bodies) + [body]
      ensures held == if kept.Pinned? then old(held) + [body] else old(held)
      ensures queue.full == (old(queue.full) || !kept.Queued?)
      ensures kept.Queued? <==> old(queue.bytes) + |body| <= queue.maxBytes && space(old(writes))
      ensures kept.Pinned? <==> !kept.Queued? && !space(old(writes) + 1)
      ensures kept.Queued? ==> queue.bytes <= queue.maxBytes
    {
      hide Queue.Sound, Queue.Names, Queue.Sum, Queue.Does;
      var io := NextWrite();
      var took := queue.Push(body, io);
      if took == Queue.Accepted {
        return Queued;
      }
      io := NextWrite();
      took := queue.PushForced(body, io);
      if took == Queue.Accepted {
        return Forced;
      }
      held := held + [body];
      return Pinned;
    }

    /** Where a failed batch goes: under the cap and on disk, over it, or nowhere but memory. */
    function Keeping(segments: seq<seq<string>>, lines: seq<string>, n: nat): Kept {
      if Total(segments) + Lines.Bytes(lines) <= cfg.maxBytes && space(n) then Queued
      else if space(n + 1) then Forced
      else Pinned
    }

    /** Collect one finished batch, spooling it if it could not be shipped. */
    method ReapOne() returns (ghost i: nat, ghost acked: bool)
      requires Valid()
      modifies this`inflight, this`held, this`dead, this`clock, this`writes, this`refused, this`store,
               queue, queue.disk
      ensures Valid() && Leads(cfg, old(Now()), Now(), true)
      ensures old(inflight) == [] ==> Now() == old(Now())
      ensures |inflight| == if old(inflight) == [] then 0 else |old(inflight)| - 1
      ensures old(inflight) != [] ==>
                i == finishes(old(clock)) % |old(inflight)| && inflight == RemoveAt(old(inflight), i)
      ensures old(inflight) != [] && acked ==>
                Answered(cfg, Now(), old(inflight)[i]) && KeptAsIs(old(Now()), Now())
      ensures old(inflight) != [] && !acked ==>
                && DownOn(old(inflight)[i]) && dead == old(dead)
                && KeptAs(old(Now()), Now(), old(inflight)[i], old(writes))
    {
      hide *;
      i, acked := 0, true;
      if inflight == [] {
        LeadsRefl(cfg, Now());
        return;
      }
      var chosen := finishes(clock) % |inflight|;
      i := chosen;
      acked := Land(chosen);
    }

    /** The outcome of the batch in flight at place `i`. */
    method Land(i: nat) returns (ghost acked: bool)
      requires Valid() && i < |inflight|
      modifies this`inflight, this`held, this`dead, this`clock, this`writes, this`refused, this`store,
               queue, queue.disk
      ensures Valid() && Leads(cfg, old(Now()), Now(), true)
      ensures inflight == RemoveAt(old(inflight), i) && |inflight| == |old(inflight)| - 1
      ensures acked ==> Answered(cfg, Now(), old(inflight)[i]) && KeptAsIs(old(Now()), Now())
      ensures !acked ==>
                && DownOn(old(inflight)[i]) && dead == old(dead)
                && KeptAs(old(Now()), Now(), old(inflight)[i], old(writes))
    {
      hide Leads, Reached, Supported, Honest, Patient, Queue.Queue.Valid, SplitAll, Applied, Shippable, Total,
        Answered, Poisons, KeptAs, KeptAsIs, Keeping, DownOn, Rows;
      ghost var s := Now();
      var lines := inflight[i];
      BatchFacts(s, lines);
      inflight := RemoveAt(inflight, i);
      var r, applied, turned := ShipBatch(lines);
      acked := r.Ok?;
      if r.Ok? {
        Quarantine(r.poison);
        ReapedAcked(s, Now(), i, applied, r.poison);
      } else {
        ghost var (n, u) := (writes, Now());
        var kept := Spool(lines);
        KeptFrom(s, u, Now(), lines, n);
        ReapedFailed(s, Now(), i, applied, turned, n);
      }
      Carried(s, Now());
    }

    lemma ReapedAcked(s: Sys, t: Sys, i: nat, applied: seq<string>, poison: seq<string>)
      requires DistinctKeys(cfg) && i < |s.inflight| && Shippable(cfg, s, s.inflight[i])
      requires multiset(s.inflight[i]) == multiset(applied) + multiset(poison)
      requires t == s.(store := Applied(cfg, s.store, applied), refused := s.refused + Rows(poison),
                       dead := s.dead + Poisons(poison), inflight := RemoveAt(s.inflight, i))
      ensures Leads(cfg, s, t, true) && Answered(cfg, t, s.inflight[i]) && KeptAsIs(s, t)
    {
      ReapAckedLeads(cfg, s, i, applied, poison);
      AckedAnswers(s, t, applied, poison, s.inflight[i]);
      hide Leads, Reached, Applied, Rows, Poisons, RemoveAt, Answered, Shippable, DistinctKeys;
    }

    lemma ReapedFailed(s: Sys, t: Sys, i: nat, applied: seq<string>, turned: seq<string>, n: nat)
      requires i < |s.inflight| && Shippable(cfg, s, s.inflight[i])
      requires forall l :: l in applied || l in turned ==> l in s.inflight[i]
      requires KeptAs(s, t, s.inflight[i], n)
      requires t == s.(store := Applied(cfg, s.store, applied), refused := s.refused + Rows(turned),
                       inflight := RemoveAt(s.inflight, i),
                       segments := t.segments, held := t.held, full := t.full)
      ensures Leads(cfg, s, t, true)
    {
      hide Leads, Reached, Applied, Rows, RemoveAt, Shippable, Total;
      match Keeping(s.segments, s.inflight[i], n) {
        case Queued => ReapSpooledLeads(cfg, s, i, applied, turned, false);
        case Forced => ReapSpooledLeads(cfg, s, i, applied, turned, true);
        case Pinned => ReapHeldLeads(cfg, s, i, applied, turned);
      }
    }

    /** The queue and the held batches as they were. */
    ghost predicate KeptAsIs(s: Sys, t: Sys) {
      t.segments == s.segments && t.held == s.held && t.full == s.full
    }

    /** The batch added to the queue or to what is held, as the cap and the disk allow. */
    ghost predicate KeptAs(s: Sys, t: Sys, lines: seq<string>, n: nat) {
      var kept := Keeping(s.segments, lines, n);
      && t.segments == (if kept.Pinned? then s.segments else s.segments + [lines])
      && t.held == (if kept.Pinned? then s.held + [lines] else s.held)
      && t.full == (s.full || !kept.Queued?)
    }

    lemma KeptFrom(s: Sys, u: Sys, t: Sys, lines: seq<string>, n: nat)
      requires KeptAsIs(s, u) && KeptAs(u, t, lines, n)
      ensures KeptAs(s, t, lines, n)
    {
    }

    lemma AckedAnswers(s: Sys, t: Sys, applied: seq<string>, poison: seq<string>, lines: seq<string>)
      requires DistinctKeys(cfg) && Shippable(cfg, s, lines) && multiset(lines) == multiset(applied) + multiset(poison)
      requires s.(store := t.store, refused := t.refused, dead := t.dead) == DealtWith(cfg, s, applied, poison)
      ensures Answered(cfg, t, lines)
    {
      DealtWithAnswers(cfg, s, applied, poison, lines);
      hide DealtWith, Shippable, DistinctKeys;
    }

    /** Keep a failed batch, seen from the outside: at the end of the queue or of `held`. */
    method Spool(lines: seq<string>) returns (kept: Kept)
      requires queue.Valid() && queue.maxBytes == cfg.maxBytes && Lines.AllLines(lines)
      modifies this`held, this`writes, queue, queue.disk
      ensures queue.Valid() && queue.disk == old(queue.disk)
      ensures Now() == old(Now()).(
                         segments := if kept.Pinned? then old(Now()).segments else old(Now()).segments + [lines],
                         held := if kept.Pinned? then old(Now()).held + [lines] else old(Now()).held,
                         full := old(Now()).full || !kept.Queued?)
      ensures kept == Keeping(old(Now()).segments, lines, old(writes))
      ensures KeptAs(old(Now()), Now(), lines, old(writes))
    {
      hide Queue.Sound, Queue.Names, Queue.Sum, Queue.Does, SplitAll, Total;
      Lines.ConcatBytes(lines);
      QueueBytes(queue.bodies);
      SpoolFacts(queue.bodies, lines);
      SplitAllAppend(held, lines);
      kept := Keep(Lines.Concat(lines));
    }

    /** Submit the batch; block only while `maxInflight` are outstanding. */
    method Flush()
      requires Valid()
      modifies this`batch, this`inflight, this`sent, this`held, this`dead, this`clock, this`writes, this`refused,
               this`store, queue, queue.disk
      ensures Valid() && Leads(cfg, old(Now()), Now(), true)
      ensures batch == []
      ensures old(batch) == [] ==> Now() == old(Now())
      ensures old(batch) != [] ==>
                && 0 < |inflight| <= cfg.maxInflight && inflight[|inflight| - 1] == old(batch)
                && forall l :: l in old(batch) ==> l in sent
    {
      hide *;
      ghost var s := Now();
      LeadsRefl(cfg, s);
      if batch == [] {
        return;
      }
      SupportedNumbers();
      while |inflight| >= cfg.maxInflight
        invariant Valid() && Leads(cfg, s, Now(), true) && batch == old(batch)
        decreases |inflight|
      {
        ghost var t := Now();
        ghost var i, acked := ReapOne();
        LeadsTrans(cfg, s, t, Now(), true);
      }
      ghost var t := Now();
      Submit();
      LeadsTrans(cfg, s, t, Now(), true);
    }

    /** The batch becomes a task. */
    method Submit()
      requires Valid() && batch != [] && |inflight| < cfg.maxInflight
      modifies this`batch, this`inflight, this`sent
      ensures Valid() && Now() == Do(cfg, old(Now()), Event.Flush) && Leads(cfg, old(Now()), Now(), true)
      ensures batch == [] && inflight == old(inflight) + [old(batch)] && forall l :: l in old(batch) ==> l in sent
    {
      hide Leads, Reached, Supported, Honest, Patient, Queue.Queue.Valid, SplitAll;
      ghost var t := Now();
      inflight := inflight + [batch];
      sent := sent + (set l | l in batch);
      batch := [];
      assert Now() == Do(cfg, t, Event.Flush);
      Taken(t, Event.Flush);
    }

    lemma SupportedNumbers()
      requires Valid()
      ensures Supported(cfg) && cfg.maxInflight >= 1 && cfg.batchLines >= 1 && WellFormed(cfg)
    {
    }

    method DrainInflight()
      requires Valid()
      modifies this`inflight, this`held, this`dead, this`clock, this`writes, this`refused, this`store, queue, queue.disk
      ensures Valid() && Leads(cfg, old(Now()), Now(), true)
      ensures inflight == []
    {
      hide *;
      ghost var s := Now();
      LeadsRefl(cfg, s);
      while inflight != []
        invariant Valid() && Leads(cfg, s, Now(), true)
        decreases |inflight|
      {
        ghost var t := Now();
        ghost var i, acked := ReapOne();
        LeadsTrans(cfg, s, t, Now(), true);
      }
    }

    /** What a checkpoint saved now would carry. */
    ghost function Progress(): Checkpoint
      reads this, stamper
    {
      Checkpoint(pos, Stamp.CheckpointOf(stamper.View()))
    }

    /** Never past bytes that are not durable somewhere: nothing while a batch is held, and
        nothing when the disk has no room for the file. */
    method SaveCheckpoint()
      modifies this`cp, this`writes
      ensures cp == if held == [] && space(old(writes)) then Progress() else old(cp)
      ensures writes == old(writes) + if held == [] then 1 else 0
    {
      if held != [] {
        return;
      }
      var saved := stamper.Checkpoint();
      var io := NextWrite();
      if io == Queue.Works {
        cp := Checkpoint(pos, saved);
      }
    }

    /** Record progress, once everything in flight has landed. */
    method CheckpointNow()
      requires Valid() && batch == []
      modifies this`cp, this`inflight, this`held, this`dead, this`clock, this`writes, this`refused, this`store,
               queue, queue.disk
      ensures Valid() && Leads(cfg, old(Now()), Now(), true)
      ensures inflight == [] && batch == []
      ensures cp == if held == [] && writes > 0 && space(writes - 1) then Progress() else old(cp)
      ensures CheckpointSafe(cfg, old(Now())) && Covered(cfg, old(Now())) ==> CheckpointSafe(cfg, Now())
    {
      hide Leads, Reached, Supported, Honest, Patient, Queue.Queue.Valid, CheckpointSafe, Covered,
        SplitAll, Enabled, Do;
      ghost var s := Now();
      DrainInflight();
      ghost var t := Now();
      assert SplitAll(held) == [] <==> held == [];
      SaveCheckpoint();
      if cp != t.cp {
        TakenSave(t);
        LeadsTrans(cfg, s, t, Now(), true);
      }
      SafelyLed(s, Now());
    }

    lemma TakenSave(t: Sys)
      requires Reached(cfg, t, false) && t.batch == [] && t.inflight == [] && t.held == []
      ensures Leads(cfg, t, Saved(t), true) && Reached(cfg, Saved(t), false)
    {
      Taken(t, Save);
    }

    /** What a safe run keeps. */
    lemma SafelyLed(s: Sys, t: Sys)
      requires Supported(cfg) && Reached(cfg, s, false) && Leads(cfg, s, t, true)
      ensures CheckpointSafe(cfg, s) && Covered(cfg, s) ==> CheckpointSafe(cfg, t) && Covered(cfg, t)
    {
      if CheckpointSafe(cfg, s) && Covered(cfg, s) {
        KeepsSafe(cfg, s, t);
      }
    }

    /** Ship the oldest held batch straight from memory. */
    method ShipHeld() returns (ok: bool)
      requires Valid() && held != []
      modifies this`held, this`dead, this`clock, this`refused, this`store
      ensures Valid() && Leads(cfg, old(Now()), Now(), true)
      ensures held == if ok then old(held)[1..] else old(held)
      ensures !ok ==> DownOn(Lines.Split(held[0]))
    {
      hide Leads, Reached, Supported, Honest, Patient, Queue.Queue.Valid, SplitAll, Applied, Rows,
        Shippable, DownOn, Lines.Split;
      ghost var s := Now();
      SplitAllTail(held);
      var lines := Lines.Split(held[0]);
      BatchFacts(s, lines);
      var r, applied, turned := ShipBatch(lines);
      ok := r.Ok?;
      if ok {
        Quarantine(r.poison);
        HeldAckedLeads(cfg, s, applied, r.poison);
        held := held[1..];
      } else {
        TouchedLeads(cfg, s, applied, turned);
      }
      Carried(s, Now());
    }

    /** Put the oldest held batch on disk, if there is room. */
    lemma HeldSpoolIs(s: Sys)
      requires s.held != []
      ensures Enabled(cfg, s, HeldSpooled)
      ensures Do(cfg, s, HeldSpooled) == s.(held := s.held[1..], segments := s.segments + [s.held[0]], full := true)
    {
    }

    method SpoolHeld() returns (ok: bool)
      requires Valid() && held != []
      modifies this`held, this`writes, queue, queue.disk
      ensures Valid() && Leads(cfg, old(Now()), Now(), true)
      ensures held == if ok then old(held)[1..] else old(held)
      ensures ok <==> !DiskShut()
      ensures queue.full == old(queue.full) && queue.drainedTotal == old(queue.drainedTotal)
    {
      hide *;
      Parts();
      ghost var s := Now();
      NowHolds();
      HeldMeansFull(s);
      LeadsRefl(cfg, s);
      HeldSpoolIs(s);
      ok := MoveHeld();
      if ok { Taken(s, HeldSpooled); }
      Standing();
    }

    /** The write itself. */
    method MoveHeld() returns (ok: bool)
      requires queue.Valid() && held != []
      modifies this`held, this`writes, queue, queue.disk
      ensures queue.Valid() && queue.full && queue.drainedTotal == old(queue.drainedTotal)
      ensures held == (if ok then old(held)[1..] else old(held)) && (ok <==> !DiskShut())
      ensures Now() == if ok then old(Now()).(held := old(Now()).held[1..],
                                              segments := old(Now()).segments + [old(Now()).held[0]], full := true)
                       else old(Now()).(full := true)
    {
      hide Queue.Queue.Valid, Queue.Queue.OnDisk, Queue.Verdict, Queue.Queue.Spooled, SplitAll;
      SplitAllTail(held);
      SplitAllMove(queue.bodies, held[0]);
      var io := NextWrite();
      var took := queue.PushForced(held[0], io);
      ok := took == Queue.Accepted;
      if ok {
        held := held[1..];
      }
    }

    lemma NowHolds()
      ensures |Now().held| == |held| && Now().full == queue.full
    {
    }

    lemma Standing()
      requires Supported(cfg) && Patient() && Honest() && queue.Valid() && queue.maxBytes == cfg.maxBytes
      requires stamper.tickNs == cfg.tickNs && Reached(cfg, Now(), false)
      ensures Valid()
    {
    }

    /** `drain_queue`, first half: a held batch goes to disk if space came back, else it is
        shipped from memory; if both are shut it stays and the drain ends. */
    method DrainHeld() returns (shut: bool, shipped: bool)
      requires Valid()
      modifies this`held, this`dead, this`clock, this`writes, this`refused, this`store, queue, queue.disk
      ensures Valid() && Leads(cfg, old(Now()), Now(), true)
      ensures shut <==> held != []
      ensures shut ==> DiskShut() && DownOn(Lines.Split(held[0]))
      ensures old(held) == [] ==> !shipped && queue.bodies == old(queue.bodies)
      ensures queue.full == old(queue.full) && queue.drainedTotal == old(queue.drainedTotal)
    {
      hide *;
      ghost var s := Now();
      LeadsRefl(cfg, s);
      shut, shipped := false, false;
      while held != []
        invariant Valid() && Leads(cfg, s, Now(), true)
        invariant old(held) == [] ==> held == [] && !shipped && queue.bodies == old(queue.bodies)
        invariant queue.full == old(queue.full) && queue.drainedTotal == old(queue.drainedTotal)
        decreases |held|
      {
        ghost var t := Now();
        var ok := SpoolHeld();
        LeadsTrans(cfg, s, t, Now(), true);
        if ok {
          continue;
        }
        t := Now();
        ok := ShipHeld();
        LeadsTrans(cfg, s, t, Now(), true);
        if !ok {
          return true, shipped;
        }
        shipped := true;
      }
    }

    lemma HeldMeansFull(s: Sys)
      requires Reached(cfg, s, false)
      ensures s.held != [] ==> s.full
    {
      var evs :| ReachedBy(cfg, s, evs, false);
      DeliveryBounds.AlwaysWindowed(cfg, evs);
    }

    /** Ship the front segment and retire it. */
    method ShipFront(path: Queue.FileName) returns (ok: bool)
      requires Valid() && held == [] && queue.segments != [] && path == queue.segments[0]
      modifies this`dead, this`clock, this`refused, this`store, queue, queue.disk
      ensures Valid() && Leads(cfg, old(Now()), Now(), true)
      ensures queue.bodies == if ok then old(queue.bodies)[1..] else old(queue.bodies)
      ensures queue.drainedTotal == old(queue.drainedTotal) + if ok then 1 else 0
      ensures queue.full ==> old(queue.full)
      ensures ok && queue.bodies == [] ==> !queue.full
      ensures !ok ==> queue.full == old(queue.full) && queue.segments == old(queue.segments)
      ensures !ok ==> DownOn(Lines.Split(queue.bodies[0]))
    {
      hide Leads, Reached, Supported, Honest, Patient, Queue.Queue.Valid, SplitAll, Applied, Rows,
        Shippable, Total, DealtWith, DownOn, Lines.Split;
      ghost var s := Now();
      FrontFacts();
      var lines := Lines.Split(queue.disk.files[path]);
      BatchFacts(s, lines);
      var r, applied, turned := ShipBatch(lines);
      ok := r.Ok?;
      if !ok {
        TouchedLeads(cfg, s, applied, turned);
        Carried(s, Now());
        return;
      }
      Quarantine(r.poison);
      Dealt(s, Now(), applied, r.poison);
      Retire(path, Now());
      SegmentAckedLeads(cfg, s, applied, r.poison);
      Carried(s, Now());
    }

    method Retire(path: Queue.FileName, ghost t: Sys)
      requires queue.Valid() && queue.segments != [] && path == queue.segments[0] && queue.maxBytes == cfg.maxBytes
      requires Now() == t
      modifies queue, queue.disk
      ensures queue.Valid() && queue.bodies == old(queue.bodies)[1..] && queue.disk == old(queue.disk)
      ensures queue.drainedTotal == old(queue.drainedTotal) + 1
      ensures queue.full ==> old(queue.full)
      ensures queue.bodies == [] ==> !queue.full
      ensures Now() == t.(segments := t.segments[1..],
                          full := t.full && Total(t.segments[1..]) * 2 > cfg.maxBytes)
    {
      hide Queue.Sound, Queue.Holds, Queue.Names, Queue.Sum, Queue.Does, SplitAll, Total;
      FrontFacts();
      queue.Pop(path, Queue.Lives);
    }

    lemma Dealt(s: Sys, t: Sys, applied: seq<string>, poison: seq<string>)
      requires t == s.(store := Applied(cfg, s.store, applied), refused := s.refused + Rows(poison),
                       dead := s.dead + Poisons(poison))
      ensures t == DealtWith(cfg, s, applied, poison)
    {
    }

    lemma FrontFacts()
      requires queue.Valid() && queue.segments != []
      ensures queue.bodies != [] && queue.segments[0] in queue.disk.files
      ensures queue.disk.files[queue.segments[0]] == queue.bodies[0]
      ensures SplitAll(queue.bodies[1..]) == SplitAll(queue.bodies)[1..]
      ensures SplitAll(queue.bodies) != [] && SplitAll(queue.bodies)[0] == Lines.Split(queue.bodies[0])
      ensures Queue.Sum(queue.bodies[1..]) == Total(SplitAll(queue.bodies)[1..])
    {
      Queue.RetireFront(queue.AsSpool(), queue.bodies);
      SplitAllTail(queue.bodies);
      QueueBytes(queue.bodies[1..]);
    }

    /** `drain_queue`, second half: segments, oldest first, until none is left or the
        database refuses. */
    method DrainSegments() returns (drained: bool)
      requires Valid() && held == []
      modifies this`dead, this`clock, this`refused, this`store, queue, queue.disk
      ensures Valid() && Leads(cfg, old(Now()), Now(), true)
      ensures drained <==> queue.drainedTotal > old(queue.drainedTotal)
      ensures old(queue.bodies) == [] ==> !drained
      ensures !drained ==> queue.full == old(queue.full) && queue.drainedTotal == old(queue.drainedTotal)
      ensures drained && queue.bodies == [] ==> !queue.full
      ensures queue.full ==> old(queue.full)
      ensures queue.bodies == [] <==> queue.segments == []
      ensures queue.bodies != [] ==> DownOn(Lines.Split(queue.bodies[0]))
    {
      hide *;
      QueueIsValid();
      ghost var s := Now();
      LeadsRefl(cfg, s);
      drained := false;
      var front := queue.Front();
      while front.Some?
        invariant Valid() && Leads(cfg, s, Now(), true)
        invariant front == if queue.segments == [] then None else Some(queue.segments[0])
        invariant queue.bodies == [] <==> queue.segments == []
        invariant drained <==> queue.drainedTotal > old(queue.drainedTotal)
        invariant old(queue.bodies) == [] ==> queue.bodies == [] && !drained
        invariant !drained ==> queue.full == old(queue.full) && queue.drainedTotal == old(queue.drainedTotal)
        invariant drained && queue.bodies == [] ==> !queue.full
        invariant queue.full ==> old(queue.full)
        decreases |queue.bodies|
      {
        ghost var t := Now();
        var ok := ShipFront(front.value);
        LeadsTrans(cfg, s, t, Now(), true);
        if !ok {
          return;
        }
        drained := true;
        QueueIsValid();
        front := queue.Front();
      }
    }

    lemma QueueIsValid()
      requires Valid()
      ensures queue.Valid()
    {
    }

    /** Ship whatever is held and queued, oldest first, until it is gone or the database
        refuses again; then save, without asking what else is still in memory. The drain is
        safe unless it saved over rows in the batch or in flight. A drain that empties
        everything resumes reading just when it retired a segment. */
    method DrainQueue() returns (ghost saves: bool)
      requires Valid()
      modifies this`cp, this`held, this`dead, this`clock, this`writes, this`refused, this`store, this`risky,
               queue, queue.disk
      ensures queue.drainedTotal > old(queue.drainedTotal) && held == [] && queue.bodies == [] ==> saves
      ensures old(held) == [] && old(queue.bodies) == [] ==> !saves
      ensures saves ==> held == [] && queue.bodies == []
      ensures (held == [] && queue.bodies == []) || DownOn(FirstInLine())
      ensures cp == if saves && writes > 0 && space(writes - 1) then Progress() else old(cp)
      ensures Valid() && Leads(cfg, old(Now()), Now(), !saves || (batch == [] && inflight == []))
      ensures risky == old(risky) + if saves && (batch != [] || inflight != []) then 1 else 0
      ensures held == [] && queue.bodies == [] ==>
                (queue.full <==> old(queue.full) && queue.drainedTotal == old(queue.drainedTotal))
    {
      hide *;
      ghost var s := Now();
      var shut, shipped := DrainHeld();
      saves := false;
      if shut {
        FrontIs();
        return;
      }
      ghost var t := Now();
      var drained := DrainSegments();
      LeadsTrans(cfg, s, t, Now(), true);
      saves := queue.segments == [] && (shipped || drained);
      if queue.segments == [] && (shipped || drained) {
        ghost var safe := batch == [] && inflight == [];
        if !safe { LeadsWeaken(cfg, s, Now()); }
        DrainedSave(s, safe);
      }
      FrontIs();
    }

    lemma FrontIs()
      ensures held != [] ==> FirstInLine() == Lines.Split(held[0])
      ensures held == [] && queue.bodies != [] ==> FirstInLine() == Lines.Split(queue.bodies[0])
    {
    }

    /** The save at the end of the drain, with no look at what else is in memory. */
    method DrainedSave(ghost s: Sys, ghost safe: bool)
      requires Valid() && held == [] && queue.segments == []
      requires Leads(cfg, s, Now(), safe) && (safe <==> batch == [] && inflight == [])
      modifies this`cp, this`writes, this`risky
      ensures Valid() && Leads(cfg, s, Now(), safe)
      ensures queue.bodies == [] && writes == old(writes) + 1
      ensures risky == old(risky) + if safe then 0 else 1
      ensures cp == if space(old(writes)) then Progress() else old(cp)
    {
      ghost var u := Now();
      NoSegments();
      hide Leads, Reached, Supported, Honest, Patient, Queue.Queue.Valid, SplitAll, Enabled, Do;
      SaveCheckpoint();
      risky := risky + if safe then 0 else 1;
      if cp != u.cp {
        DrainSaved(s, u, safe);
      }
    }

    lemma DrainSaved(s: Sys, u: Sys, safe: bool)
      requires Leads(cfg, s, u, safe) && Reached(cfg, u, false) && u.held == [] && u.segments == []
      requires safe ==> u.batch == [] && u.inflight == []
      ensures Leads(cfg, s, Saved(u), safe) && Reached(cfg, Saved(u), false)
    {
      EmptyPending(u);
      hide Leads, Reached, PendingDurable;
      LeadsStep(cfg, s, u, DrainSave, safe);
      ReachedStep(cfg, u, DrainSave, false);
    }

    lemma NoSegments()
      requires queue.Valid() && queue.segments == [] && held == []
      ensures queue.bodies == [] && SplitAll(queue.bodies) == [] && SplitAll(held) == []
    {
    }

    lemma EmptyPending(s: Sys)
      ensures s.batch == [] && s.inflight == [] ==> PendingDurable(cfg, s)
    {
    }

    lemma CanRead()
      requires pos < |cfg.input| && !queue.full && |batch| < cfg.batchLines
      ensures Enabled(cfg, Now(), Read)
    {
    }

    /** The read loop: as many lines as there are for now, while the queue is not full. */
    method ReadAvailable(available: nat)
      requires Valid() && |batch| < cfg.batchLines
      modifies this`pos, this`batch, this`inflight, this`sent, this`held, this`dead, this`clock, this`writes,
               this`refused, this`store, stamper, queue, queue.disk
      ensures Valid() && Leads(cfg, old(Now()), Now(), true)
      ensures |batch| < cfg.batchLines
      ensures old(queue.full) ==> pos == old(pos) && batch == old(batch)
      ensures !queue.full ==> pos >= |cfg.input| || pos == old(pos) + available
      ensures var took := pos - old(pos);
              |old(batch)| + took < cfg.batchLines ==>
                && inflight == old(inflight) && sent == old(sent) && held == old(held) && store == old(store)
                && queue.bodies == old(queue.bodies) && queue.full == old(queue.full) && |batch| <= |old(batch)| + took
    {
      hide *;
      ghost var s := Now();
      LeadsRefl(cfg, s);
      SupportedNumbers();
      var taken := 0;
      while !queue.full && pos < |cfg.input| && taken < available
        invariant Valid() && Leads(cfg, s, Now(), true)
        invariant |batch| < cfg.batchLines && pos == old(pos) + taken && taken <= available
        invariant old(queue.full) ==> queue.full && pos == old(pos) && batch == old(batch)
        invariant |old(batch)| + taken < cfg.batchLines ==>
                    && inflight == old(inflight) && sent == old(sent) && held == old(held) && store == old(store)
                    && queue.bodies == old(queue.bodies) && queue.full == old(queue.full)
                    && |batch| <= |old(batch)| + taken
        decreases available - taken
      {
        ghost var t := Now();
        CanRead();
        ReadLine();
        LeadsTrans(cfg, s, t, Now(), true);
        taken := taken + 1;
        if |batch| >= cfg.batchLines {
          ghost var u := Now();
          Flush();
          LeadsTrans(cfg, s, u, Now(), true);
        }
      }
    }

    /** One turn of the main loop: drain, read, and on the half-second flush and save. */
    method Pass(available: nat, timer: bool) returns (ghost saves: bool)
      requires Valid() && |batch| < cfg.batchLines
      modifies this`pos, this`batch, this`inflight, this`sent, this`held, this`cp, this`dead, this`clock,
               this`writes, this`refused, this`store, this`risky, stamper, queue, queue.disk
      ensures Valid() && |batch| < cfg.batchLines
      ensures risky == old(risky) + if saves && (old(batch) != [] || old(inflight) != []) then 1 else 0
      ensures old(held) == [] && old(queue.bodies) == [] ==> !saves
      ensures Leads(cfg, old(Now()), Now(), risky == old(risky))
      ensures timer ==> batch == [] && inflight == []
      ensures timer && held == [] && writes > 0 && space(writes - 1) ==> cp == Progress()
    {
      hide *;
      ghost var s := Now();
      SupportedNumbers();
      saves := DrainQueue();
      ghost var safe := !saves || (batch == [] && inflight == []);
      ghost var t := Now();
      ReadAvailable(available);
      Onward(cfg, s, t, Now(), true, safe);
      if timer {
        t := Now();
        if batch != [] {
          Flush();
          Onward(cfg, s, t, Now(), true, safe);
        }
        t := Now();
        CheckpointNow();
        Onward(cfg, s, t, Now(), true, safe);
      }
    }

    /** The end of the loop: flush, save, drain once more. Everything is shipped, or the
        database is down. */
    method Shutdown()
      requires Valid()
      modifies this`batch, this`inflight, this`sent, this`held, this`cp, this`dead, this`clock,
               this`writes, this`refused, this`store, this`risky, queue, queue.disk
      ensures Valid() && Leads(cfg, old(Now()), Now(), true) && batch == [] && inflight == []
      ensures (held == [] && queue.bodies == []) || DownOn(FirstInLine())
      ensures risky == old(risky)
    {
      hide *;
      ghost var s := Now();
      Flush();
      ghost var t := Now();
      CheckpointNow();
      LeadsTrans(cfg, s, t, Now(), true);
      t := Now();
      ghost var saves := DrainQueue();
      LeadsTrans(cfg, s, t, Now(), true);
    }

    /** A crash, and the next process starting on what it left: the queue directory, the
        checkpoint and the dead-letter file. If the checkpoint was safe nothing is lost. */
    method CrashAndRestart()
      requires Valid() && Queue.Narrow(queue.ids)
      modifies this, queue.disk
      ensures Valid() && Now() == Restart(cfg, old(Now()))
      ensures CheckpointSafe(cfg, old(Now())) ==> CheckpointSafe(cfg, Now()) && Covered(cfg, Now())
      ensures fresh(queue) && fresh(stamper) && queue.disk == old(queue.disk)
    {
      hide Leads, Reached, Supported, Honest, Patient, Queue.Queue.Valid, Queue.Queue.OnDisk, Queue.Narrow,
        SplitAll, Restart, CheckpointSafe, Covered;
      LivesOnDisk();
      ghost var s := Now();
      Revive();
      Crashed(s, s);
    }

    lemma LivesOnDisk()
      requires Valid()
      ensures queue.OnDisk()
    {
      queue.ValidIsOnDisk();
    }

    /** The process gone inside the spool of a batch in flight that could not be shipped, at
        any point of either write, killed or on an error, and restarted: the crash step, after
        the spool if the rename had happened and without it if not. The second write comes
        when the batch is over the cap or the first found no room. */
    method CrashKeeping(i: nat, first: Queue.Io, second: Queue.Io)
      requires Valid() && i < |inflight| && Queue.Narrow(queue.ids + [queue.nextSeq])
      requires Fatal(LastIo(Over(cfg, Now(), inflight[i]), first, second))
      modifies this, queue, queue.disk
      ensures Valid()
      ensures var over := Over(cfg, old(Now()), old(inflight)[i]);
              Now() == Restart(cfg, SpooledIf(cfg, old(Now()), i, Retries(over, first),
                                              LastIo(over, first, second) == Queue.Dies(Queue.Renamed)))
    {
      hide *;
      Parts();
      ghost var s := Now();
      var lines := inflight[i];
      InFlightIs(i);
      BatchFacts(s, lines);
      DieSpooling(lines, first, second);
      ghost var t := Now();
      Revive();
      Alive(t);
      Kept(s, t, i, first, second);
    }

    method DieSpooling(lines: seq<string>, first: Queue.Io, second: Queue.Io)
      requires queue.Valid() && Lines.AllLines(lines) && Queue.Narrow(queue.ids + [queue.nextSeq])
      requires queue.maxBytes == cfg.maxBytes && Fatal(LastIo(Over(cfg, Now(), lines), first, second))
      modifies queue, queue.disk
      ensures queue.OnDisk() && queue.disk == old(queue.disk) && Queue.Narrow(queue.ids)
      ensures var renamed := LastIo(Over(cfg, old(Now()), lines), first, second) == Queue.Dies(Queue.Renamed);
              Now() == old(Now()).(
                         segments := if renamed then old(Now()).segments + [lines] else old(Now()).segments,
                         full := queue.full)
    {
      hide Queue.Queue.Valid, Queue.Queue.OnDisk, Queue.Narrow, SplitAll, Lines.Concat, Fatal, LastIo, Queue.Sum, Total;
      SplitAllAppend(queue.bodies, lines);
      StillNarrow(queue.ids, queue.nextSeq);
      OverIs(lines);
      DiePushing(Lines.Concat(lines), first, second);
    }

    lemma OverIs(lines: seq<string>)
      requires queue.Valid() && queue.maxBytes == cfg.maxBytes
      ensures Over(cfg, Now(), lines) <==> queue.bytes + |Lines.Concat(lines)| > queue.maxBytes
    {
      hide Queue.Sound, Queue.Names, Queue.Sum, SplitAll, Total;
      Lines.ConcatBytes(lines);
      QueueBytes(queue.bodies);
    }

    method DiePushing(body: string, first: Queue.Io, second: Queue.Io)
      requires queue.Valid() && Fatal(LastIo(queue.bytes + |body| > queue.maxBytes, first, second))
      modifies queue, queue.disk
      ensures queue.OnDisk()
      ensures var over := old(queue.bytes) + |body| > queue.maxBytes;
              var renamed := LastIo(over, first, second) == Queue.Dies(Queue.Renamed);
              && queue.ids == (if renamed then old(queue.ids) + [old(queue.nextSeq)] else old(queue.ids))
              && queue.bodies == if renamed then old(queue.bodies) + [body] else old(queue.bodies)
    {
      hide Queue.Queue.Valid, Queue.Queue.OnDisk, Queue.Queue.Spooled, Queue.Does;
      ghost var (before, kept) := (queue.AsSpool(), queue.bodies);
      ghost var over := queue.bytes + |body| > queue.maxBytes;
      var took := queue.Push(body, first);
      if !over { SpooledIds(queue, before, kept, body, first); }
      if took == Queue.Refused {
        before, kept := queue.AsSpool(), queue.bodies;
        took := queue.PushForced(body, second);
        SpooledIds(queue, before, kept, body, second);
      }
    }

    /** What a death inside the spool of batch `i` leaves is, for the next process, the state
        before it or the state after the spool. */
    lemma Kept(s: Sys, t: Sys, i: nat, first: Queue.Io, second: Queue.Io)
      requires Reached(cfg, s, false) && i < |s.inflight|
      requires var renamed := LastIo(Over(cfg, s, s.inflight[i]), first, second) == Queue.Dies(Queue.Renamed);
               t == s.(segments := if renamed then s.segments + [s.inflight[i]] else s.segments, full := t.full)
      ensures var over := Over(cfg, s, s.inflight[i]);
              var renamed := LastIo(over, first, second) == Queue.Dies(Queue.Renamed);
              Restart(cfg, t) == Restart(cfg, SpooledIf(cfg, s, i, Retries(over, first), renamed))
      ensures Reached(cfg, Restart(cfg, t), false)
    {
      hide LastIo, Total;
      var forced := Retries(Over(cfg, s, s.inflight[i]), first);
      var renamed := LastIo(Over(cfg, s, s.inflight[i]), first, second) == Queue.Dies(Queue.Renamed);
      if renamed { ReachedStep(cfg, s, ReapSpooled(i, forced), false); }
      Crashed(SpooledIf(cfg, s, i, forced, renamed), t);
    }

    /** A write that did not succeed leaves what was queued, unless it died past its rename. */
    lemma SpooledIds(q: Queue.Queue, before: Queue.Spool, kept: seq<string>, body: string, io: Queue.Io)
      requires q.Spooled(before, kept, body, io) && !io.Works?
      ensures q.ids == if io == Queue.Dies(Queue.Renamed) then before.ids + [before.next] else before.ids
      ensures q.bodies == if io == Queue.Dies(Queue.Renamed) then kept + [body] else kept
      ensures q.nextSeq == before.next
    {
    }

    lemma StillNarrow(ids: seq<nat>, n: nat)
      requires Queue.Narrow(ids + [n])
      ensures Queue.Narrow(ids)
    {
      forall k | 0 <= k < |ids| ensures ids[k] == (ids + [n])[k] {}
      hide Decimal.Pow10;
    }

    /** The process killed inside the removal of a segment that has shipped: the crash step,
        after the segment went if the file was gone and before if not. */
    method CrashRetiring(removed: bool)
      requires Valid() && Enabled(cfg, Now(), SegmentAcked) && Queue.Narrow(queue.ids)
      modifies this, queue, queue.disk
      ensures Valid()
      ensures Now() == Restart(cfg, if removed then Do(cfg, old(Now()), SegmentAcked) else old(Now()))
    {
      hide *;
      Parts();
      ghost var s := Now();
      DiePopping(removed);
      ghost var t := Now();
      Revive();
      Alive(t);
      RetiredOrNot(s, t, removed);
    }

    lemma FrontQueued()
      requires queue.Valid() && Enabled(cfg, Now(), SegmentAcked)
      ensures queue.segments != [] && queue.ids != [] && queue.AsSpool().ids == queue.ids && queue.bodies != []
      ensures Now().segments == SplitAll(queue.bodies) != []
      ensures SplitAll(queue.bodies[1..]) == SplitAll(queue.bodies)[1..]
    {
      SplitAllTail(queue.bodies);
      hide Answered;
    }

    lemma Parts()
      requires Valid()
      ensures Supported(cfg) && Patient() && Honest() && queue.Valid() && queue.maxBytes == cfg.maxBytes
      ensures stamper.tickNs == cfg.tickNs && Reached(cfg, Now(), false)
    {
    }

    lemma Alive(t: Sys)
      requires Supported(cfg) && Patient() && Honest() && queue.Valid() && queue.maxBytes == cfg.maxBytes
      requires stamper.tickNs == cfg.tickNs && Now() == Restart(cfg, t)
      ensures Reached(cfg, Restart(cfg, t), false) ==> Valid()
    {
    }

    lemma InFlightIs(i: nat)
      requires i < |inflight|
      ensures Now().inflight == inflight && inflight[i] in Now().inflight
    {
    }

    method DiePopping(removed: bool)
      requires queue.Valid() && Enabled(cfg, Now(), SegmentAcked) && Queue.Narrow(queue.ids)
      modifies queue, queue.disk
      ensures queue.OnDisk() && Queue.Narrow(queue.ids) && queue.disk == old(queue.disk) && old(Now()).segments != []
      ensures Now() == old(Now()).(
                         segments := if removed then old(Now()).segments[1..] else old(Now()).segments,
                         full := queue.full)
    {
      hide Queue.Queue.Valid, Queue.Queue.OnDisk, Queue.Queue.AsSpool, Queue.Does, Queue.KeptBy, Queue.PopOp,
        Queue.Narrow, SplitAll, Enabled;
      ghost var (ids, kept, s) := (queue.AsSpool(), queue.bodies, Now());
      FrontQueued();
      FewerNarrow(queue.ids);
      queue.Pop(queue.segments[0], if removed then Queue.DiesAfter else Queue.DiesBefore);
      Popped(removed, ids, kept, s);
    }

    lemma Popped(removed: bool, before: Queue.Spool, kept: seq<string>, s: Sys)
      requires queue.AsSpool() == Queue.Does(before, Queue.PopOp(if removed then Queue.DiesAfter else Queue.DiesBefore))
      requires kept != [] && before.ids != [] && SplitAll(kept[1..]) == SplitAll(kept)[1..]
      requires queue.bodies == Queue.KeptBy(kept, Queue.PopOp(if removed then Queue.DiesAfter else Queue.DiesBefore))
      requires Queue.Narrow(before.ids) && Queue.Narrow(before.ids[1..])
      requires s == Now().(segments := SplitAll(kept), full := s.full)
      ensures Queue.Narrow(queue.ids)
      ensures Now() == s.(segments := if removed then SplitAll(kept)[1..] else SplitAll(kept), full := queue.full)
    {
      hide Queue.Narrow, SplitAll;
    }

    lemma FewerNarrow(ids: seq<nat>)
      requires Queue.Narrow(ids)
      ensures ids != [] ==> Queue.Narrow(ids[1..])
    {
      hide Decimal.Pow10;
    }

    lemma RetiredOrNot(s: Sys, t: Sys, removed: bool)
      requires Reached(cfg, s, false) && Enabled(cfg, s, SegmentAcked)
      requires t == s.(segments := if removed then s.segments[1..] else s.segments, full := t.full)
      ensures Restart(cfg, t) == Restart(cfg, if removed then Do(cfg, s, SegmentAcked) else s)
      ensures Reached(cfg, Restart(cfg, t), false)
    {
      var u := if removed then Do(cfg, s, SegmentAcked) else s;
      if removed { ReachedStep(cfg, s, SegmentAcked, false); }
      Crashed(u, t);
    }

    /** The next process: the queue directory as it was left, the checkpoint, nothing else. */
    method Revive()
      requires queue.OnDisk() && Queue.Narrow(queue.ids)
      modifies this`queue, this`base, this`stamper, this`pos, this`batch, this`inflight, this`held, queue.disk
      ensures Now() == Restart(cfg, old(Now()))
      ensures queue.Valid() && queue.maxBytes == cfg.maxBytes && stamper.tickNs == cfg.tickNs
      ensures fresh(queue) && fresh(stamper) && queue.disk == old(queue.disk)
    {
      hide Queue.Queue.Valid, Queue.Queue.OnDisk, Queue.Narrow, SplitAll, Total, Max;
      Reopen();
      RestoreStamper();
      pos, batch, inflight, held := cp.pos, [], [], [];
      NothingHeld();
    }

    /** The queue directory, adopted by the new process. */
    method Reopen()
      requires queue.OnDisk() && Queue.Narrow(queue.ids)
      modifies this`queue, this`base, queue.disk
      ensures fresh(queue) && queue.disk == old(queue.disk)
      ensures queue.Valid() && queue.maxBytes == cfg.maxBytes && !queue.full && queue.bodies == old(queue.bodies)
      ensures base == Max(cfg.maxBytes, Total(SplitAll(old(queue.bodies))))
    {
      LeftOnDisk();
      hide Queue.Sound, Queue.Names, Queue.Sum, Queue.Does, Queue.Adoptable, Queue.Narrow, Queue.IsListing,
        Queue.Swept, SplitAll, Total;
      base := Max(cfg.maxBytes, Total(SplitAll(queue.bodies)));
      queue := new Queue.Queue.Open(queue.disk, cfg.maxBytes, queue.ids, queue.bodies);
    }

    lemma LeftOnDisk()
      requires queue.OnDisk() && Queue.Narrow(queue.ids)
      ensures Queue.Adoptable(queue.disk.files, queue.ids, queue.bodies)
    {
      hide Queue.Narrow, Queue.Holds;
    }

    /** A state `u` the machine can reach, and one that differs only in what a crash takes. */
    lemma Crashed(u: Sys, t: Sys)
      requires Reached(cfg, u, false) && Restart(cfg, t) == Restart(cfg, u)
      ensures Reached(cfg, Restart(cfg, t), false)
      ensures CheckpointSafe(cfg, u) ==> CheckpointSafe(cfg, Restart(cfg, u)) && Covered(cfg, Restart(cfg, u))
    {
      ReachedStep(cfg, u, Crash, false);
      if CheckpointSafe(cfg, u) {
        CoveredAfterCrash(cfg, u);
        assert forall l :: Durable(cfg, Restart(cfg, u), l) <==> Durable(cfg, u, l);
      }
      hide Reached, Covered, Durable;
    }

    method RestoreStamper()
      modifies this`stamper
      ensures fresh(stamper) && stamper.tickNs == cfg.tickNs
      ensures stamper.View() == Stamp.Restored(cfg.tickNs, cp.stamp)
    {
      var fitted := new Stamp.Stamper(cfg.tickNs);
      if cp.stamp.Some? {
        fitted.Restore(cp.stamp.value.0, cp.stamp.value.1);
      }
      stamper := fitted;
    }

    lemma NothingHeld()
      ensures SplitAll([]) == []
    {
    }

    /** A process from start to stop: passes, then the shutdown. Once it has read
        everything, it has shipped everything, or the last request, for some of the batch
        first in line, failed. Nothing it read is lost, and if it leaves nothing behind the
        database holds exactly the crash-free rows. Unless some drain saved while rows waited
        in the batch or in flight, the checkpoint it leaves is safe too; no drain does that
        if every pass before the last ended with the timer's flush and save. */
    method Run(passes: seq<(nat, bool)>)
      requires Valid() && batch == [] && inflight == []
      modifies this`pos, this`batch, this`inflight, this`sent, this`held, this`cp, this`dead, this`clock,
               this`writes, this`refused, this`store, this`risky, stamper, queue, queue.disk
      ensures Valid() && batch == [] && inflight == []
      ensures pos == |cfg.input| ==> Drained(cfg, Now()) || DownOn(FirstInLine())
      ensures Covered(cfg, old(Now())) ==> Covered(cfg, Now())
      ensures Covered(cfg, old(Now())) && Drained(cfg, Now()) ==> Exact(cfg, Now()) && LineByLine(cfg, Now())
      ensures risky >= old(risky) && Leads(cfg, old(Now()), Now(), risky == old(risky))
      ensures risky == old(risky) && CheckpointSafe(cfg, old(Now())) && Covered(cfg, old(Now())) ==>
                CheckpointSafe(cfg, Now())
      ensures Timely(passes) ==> risky == old(risky)
    {
      hide Leads, Reached, Supported, Honest, Patient, Queue.Sound, Queue.Names, Queue.Sum, Queue.Does, SplitAll,
        CheckpointSafe, Covered, Exact, LineByLine, Drained, DownOn;
      ghost var s := Now();
      LeadsRefl(cfg, s);
      SupportedNumbers();
      for i := 0 to |passes|
        invariant Valid() && |batch| < cfg.batchLines
        invariant risky >= old(risky) && Leads(cfg, s, Now(), risky == old(risky))
        invariant i == 0 || passes[i - 1].1 ==> batch == [] && inflight == []
        invariant Timely(passes) ==> risky == old(risky)
      {
        ghost var t := Now();
        ghost var r := risky;
        ghost var saves := Pass(passes[i].0, passes[i].1);
        Joined(cfg, s, t, Now(), r == old(risky), risky == r);
      }
      ghost var t := Now();
      Shutdown();
      Onward(cfg, s, t, Now(), true, risky == old(risky));
      NothingLeft();
      RunIsExact(s, Now(), risky == old(risky));
    }

    lemma NothingLeft()
      requires queue.Valid() && batch == [] && inflight == []
      ensures pos == |cfg.input| && held == [] && queue.bodies == [] ==> Drained(cfg, Now())
    {
    }

    lemma RunIsExact(s: Sys, t: Sys, safe: bool)
      requires Supported(cfg) && Reached(cfg, s, false) && Reached(cfg, t, false) && Leads(cfg, s, t, safe)
      ensures Covered(cfg, s) ==> Covered(cfg, t) && (Drained(cfg, t) ==> Exact(cfg, t) && LineByLine(cfg, t))
      ensures safe && CheckpointSafe(cfg, s) && Covered(cfg, s) ==> CheckpointSafe(cfg, t)
    {
      hide LineByLine, DeadSound, Exact, Drained, Covered, CheckpointSafe, Leads, Reached, StampersFit, Provenance;
      if Covered(cfg, s) {
        KeepsCovered(cfg, s, t, safe);
        ReachableIsSane(cfg, t);
        if Drained(cfg, t) {
          DrainedIsExact(cfg, t);
          ReachedDeadSound(cfg, t, false);
          ExactLineByLine(cfg, t);
        }
        if safe && CheckpointSafe(cfg, s) { KeepsSafe(cfg, s, t); }
      }
    }

    lemma BatchFacts(s: Sys, lines: seq<string>)
      requires Supported(cfg) && Reached(cfg, s, false)
      requires lines in s.inflight || lines in s.held || lines in s.segments
      ensures DistinctKeys(cfg) && Shippable(cfg, s, lines) && Lines.AllLines(lines)
    {
      InMemoryIsShippable(cfg, s, lines);
      forall k | 0 <= k < |lines| ensures Lines.IsLine(lines[k]) { RowIsLine(cfg, lines[k]); }
    }
  }
}
