/** Whole runs of a tailer among writers: appends, renames, re-creations, polls broken into
    the steps between which the file system can move, checkpoints and restarts. */
module TailRuns {
  import opened Basics
  import opened Tail
  import Lines

  /** `saved` is the tailer as its marks were last saved. */
  datatype World = World(fs: Fs, tail: State, saved: State)

  const UNOPENED: State := State([], None, 0, 0, [])

  datatype Event =
    | Write(bytes: string)  // the writer appends to the newest file
    | Rename                // logrotate moves it from the path
    | Recreate              // and a new, empty file takes its place
    | Unlink(ino: nat)      // an old one is deleted
    | WriteOld(ino: nat, bytes: string) // a writer still has an old one open
    | Overwrite(content: string) // the newest file is cut short, and perhaps written again
    | Drain                 // one turn of drain_pending
    | Check(opens: bool)    // check_rotation, winning or losing the race to open the path
    | Live                  // a read of the live file
    | Poll(opens: bool)     // a whole next_line at once
    | Save
    | Restart

  /** What rotation is asked to keep to. A file only grows, and only while it is the newest.
      It is created only once the tailer has opened the one before, at most one per rotation
      check, and that one has ended in a newline. A restart finds every marked file, at most one file was created since
      the marks were saved, and the one that was live is not left without a successor. */
  predicate Enabled(w: World, ev: Event) {
    match ev
    case Write(_) => w.fs.gens != []
    case Rename => w.fs.path.Some?
    case Recreate =>
      w.fs.path.None? && w.tail.seen == |w.fs.gens|
      && (w.fs.gens == [] || Terminated(w.fs.gens[|w.fs.gens| - 1]))
    case WriteOld(_, _) => false
    case Overwrite(_) => false
    case Check(_) => w.tail.draining == []
    case Live => w.tail.draining == []
    case Restart =>
      AllFound(w.fs, Opens(w.saved)) && |w.fs.gens| <= w.saved.seen + 1 && !Stranded(w.fs, w.saved)
    case _ => true
  }

  /** An event that cannot happen leaves the world as it is. */
  function Do(w: World, ev: Event): World {
    match ev
    case Write(b) => if w.fs.gens == [] then w else w.(fs := Append(w.fs, b))
    case Rename => w.(fs := Tail.Rename(w.fs))
    case Recreate => if w.fs.path.Some? then w else w.(fs := Create(w.fs))
    case Unlink(ino) => w.(fs := w.fs.(named := w.fs.named - {ino}))
    case WriteOld(ino, b) =>
      if ino < |w.fs.gens| then w.(fs := w.fs.(gens := w.fs.gens[ino := w.fs.gens[ino] + b])) else w
    case Overwrite(c) =>
      if w.fs.gens == [] then w else w.(fs := w.fs.(gens := w.fs.gens[..|w.fs.gens| - 1] + [c]))
    case Drain => w.(tail := Tail.Drain(w.fs, w.tail))
    case Check(opens) => if w.tail.draining == [] then w.(tail := Tail.Check(w.fs, w.tail, opens)) else w
    case Live => if w.tail.draining == [] then w.(tail := Tail.Live(w.fs, w.tail)) else w
    case Poll(opens) => w.(tail := NextLine(w.fs, w.tail, opens))
    case Save => w.(saved := w.tail)
    case Restart => w.(tail := Resumed(w.fs, w.saved))
  }

  function Play(w: World, evs: seq<Event>): World {
    if evs == [] then w else Do(Play(w, evs[..|evs| - 1]), evs[|evs| - 1])
  }

  /** A run that keeps to the discipline. */
  predicate Legal(w: World, evs: seq<Event>) {
    evs == [] || (Legal(w, evs[..|evs| - 1]) && Enabled(Play(w, evs[..|evs| - 1]), evs[|evs| - 1]))
  }

  /** A first start, with or without a file at the path. */
  function Boot(content: Option<string>, named: set<nat>): World {
    var fs := match content case Some(c) => Fs([c], Some(0), named) case None => Fs([], None, named);
    World(fs, Resumed(fs, UNOPENED), UNOPENED)
  }

  predicate Good(w: World) {
    Inv(w.fs, w.tail) && Core(w.fs, w.saved)
  }

  lemma UnopenedIsCore(fs: Fs)
    requires Disciplined(fs)
    ensures Core(fs, UNOPENED)
  {
    assert Opens(UNOPENED) == [];
    assert fs.gens[..0] == [] && All([]) == [] && CompleteLines([]) == [];
    assert Content(fs, 0)[..0] == [];
    assert 0 < |fs.gens| ==> fs.gens[0][..0] == [];
    hide All, CompleteLines, Terminated;
  }

  lemma BootIsGood(content: Option<string>, named: set<nat>)
    ensures Good(Boot(content, named))
  {
    var w := Boot(content, named);
    UnopenedIsCore(w.fs);
    assert Opens(UNOPENED) == [] && AllFound(w.fs, []);
    hide Core, Inv, Resumed;
    ResumeKeepsIff(w.fs, UNOPENED);
  }

  /** Nothing the tailer's position depends on is in the names. */
  lemma NamesDoNotMatter(fs: Fs, fs': Fs, s: State)
    requires Core(fs, s) && fs'.gens == fs.gens && (fs'.path == fs.path || fs'.path.None?)
    ensures Core(fs', s)
  {
    hide EmittedAt, Terminated, Opens;
  }

  lemma StepIsGood(w: World, ev: Event)
    requires Good(w) && Enabled(w, ev)
    ensures Good(Do(w, ev))
  {
    var (fs, tail, saved) := (w.fs, w.tail, w.saved);
    hide Core, Tail.Drain, Tail.Check, Tail.Live, NextLine, Resumed, Terminated, Stranded, AllFound;
    match ev {
      case Write(b) => AppendKeeps(fs, tail, b); AppendKeeps(fs, saved, b);
      case Rename => NamesDoNotMatter(fs, Tail.Rename(fs), tail); NamesDoNotMatter(fs, Tail.Rename(fs), saved);
      case Recreate => CreateKeeps(fs, tail); CreateKeeps(fs, saved);
      case Unlink(ino) =>
        NamesDoNotMatter(fs, fs.(named := fs.named - {ino}), tail);
        NamesDoNotMatter(fs, fs.(named := fs.named - {ino}), saved);
      case Drain => DrainKeeps(fs, tail);
      case Check(opens) => CheckKeeps(fs, tail, opens);
      case Live => LiveKeeps(fs, tail);
      case Poll(opens) => NextLineKeeps(fs, tail, opens);
      case Save =>
      case Restart => ResumeKeepsIff(fs, saved);
    }
  }

  lemma {:induction false} AlwaysGood(w: World, evs: seq<Event>)
    requires Good(w) && Legal(w, evs)
    ensures Good(Play(w, evs))
  {
    if evs != [] {
      AlwaysGood(w, evs[..|evs| - 1]);
      StepIsGood(Play(w, evs[..|evs| - 1]), evs[|evs| - 1]);
      hide Good, Do, Enabled;
    }
  }

  /** For any interleaving of writes, rotations, polls, checkpoints and restarts, the lines
      emitted are always a prefix of the complete lines of every file in rotation order. */
  lemma AlwaysPrefix(content: Option<string>, named: set<nat>, evs: seq<Event>)
    requires Legal(Boot(content, named), evs)
    ensures var w := Play(Boot(content, named), evs); w.tail.emitted <= All(w.fs.gens)
  {
    BootIsGood(content, named);
    AlwaysGood(Boot(content, named), evs);
    hide Core, All;
    EmittedIsPrefix(Play(Boot(content, named), evs).fs, Play(Boot(content, named), evs).tail);
  }

  /** And they are all of them once a poll finds nothing more. */
  lemma CompleteOncePollIsQuiet(content: Option<string>, named: set<nat>, evs: seq<Event>)
    requires Legal(Boot(content, named), evs)
    requires var w := Play(Boot(content, named), evs);
             (w.fs.path.Some? || w.tail.seen == |w.fs.gens|) && NextLine(w.fs, w.tail, true).emitted == w.tail.emitted
    ensures var w := Play(Boot(content, named), evs); w.tail.emitted == All(w.fs.gens)
  {
    hide *;
    BootIsGood(content, named);
    AlwaysGood(Boot(content, named), evs);
    QuietPollIsComplete(Play(Boot(content, named), evs));
  }

  lemma QuietPollIsComplete(w: World)
    requires Good(w) && (w.fs.path.Some? || w.tail.seen == |w.fs.gens|)
    requires NextLine(w.fs, w.tail, true).emitted == w.tail.emitted
    ensures w.tail.emitted == All(w.fs.gens)
  {
    hide Core, All, NextLine, Quiet;
    NextLineKeeps(w.fs, w.tail, true);
    NextLineSeen(w.fs, w.tail);
    QuietIsComplete(w.fs, NextLine(w.fs, w.tail, true));
  }

  lemma {:induction false} DrainPendingSeen(fs: Fs, s: State)
    ensures DrainPending(fs, s).seen == s.seen
    decreases |s.draining|
  {
    hide ReadLine;
    if s.draining != [] && ReadLine(fs, s.draining[0]).None? { DrainPendingSeen(fs, Tail.Drain(fs, s)); }
  }

  lemma NextLineSeen(fs: Fs, s: State)
    requires Inv(fs, s) && (fs.path.Some? || s.seen == |fs.gens|)
    ensures var r := NextLine(fs, s, true); fs.path.Some? || r.seen == |fs.gens|
  {
    if fs.path.None? {
      var a := DrainPending(fs, s);
      DrainPendingSeen(fs, s);
      DrainPendingKeeps(fs, s);
      if a.emitted == s.emitted {
        CheckKeeps(fs, a, true);
        CheckAway(fs, a);
        DrainPendingSeen(fs, Tail.Check(fs, a, true));
      }
      hide DrainPending, Inv, Tail.Check;
    }
  }

  lemma CheckAway(fs: Fs, s: State)
    requires Inv(fs, s) && fs.path.None? && s.draining == []
    ensures Tail.Check(fs, s, true).seen == s.seen
  {
  }

  /** A tailer restarted from saved marks emits exactly the lines the one that never stopped
      would still have emitted: among the same files, once both are quiet, neither has a
      line more, a line less or a line out of place. */
  lemma RestartEmitsTheSame(content: Option<string>, named: set<nat>, evs: seq<Event>, other: seq<Event>)
    requires Legal(Boot(content, named), evs) && Legal(Boot(content, named), other)
    requires var (w, v) := (Play(Boot(content, named), evs), Play(Boot(content, named), other));
             && w.fs.gens == v.fs.gens && w.fs.path.Some? && v.fs.path.Some?
             && NextLine(w.fs, w.tail, true).emitted == w.tail.emitted
             && NextLine(v.fs, v.tail, true).emitted == v.tail.emitted
    ensures Play(Boot(content, named), evs).tail.emitted == Play(Boot(content, named), other).tail.emitted
  {
    CompleteOncePollIsQuiet(content, named, evs);
    CompleteOncePollIsQuiet(content, named, other);
    hide *;
  }

  // ---- What the discipline is for ----

  /** The complete lines still to come from the files open. */
  function Left(fs: Fs, opens: seq<Open>): seq<string> {
    if opens == [] then [] else LeftIn(fs, opens[0]) + Left(fs, opens[1..])
  }

  function LeftIn(fs: Fs, o: Open): seq<string> {
    if o.offset <= Len(fs, o.ino) then CompleteLines(Content(fs, o.ino)[o.offset..]) else []
  }

  lemma LeftAfterRead(fs: Fs, o: Open)
    ensures ReadLine(fs, o).None? ==> LeftIn(fs, o) == []
    ensures ReadLine(fs, o).Some? ==>
              var (o', line) := ReadLine(fs, o).value; LeftIn(fs, o) == [line] + LeftIn(fs, o')
  {
    hide CompleteLines, Strip, Lines.FirstEnd;
    if o.offset <= Len(fs, o.ino) {
      var rest := Content(fs, o.ino)[o.offset..];
      LinesOf(rest);
      var n := Lines.FirstEnd(rest);
      if n > 0 && rest[n - 1] == '\n' {
        assert Content(fs, o.ino)[o.offset + n..] == rest[n..];
      }
    }
  }

  lemma LinesOf(s: string)
    ensures var n := Lines.FirstEnd(s);
            CompleteLines(s) == if n == 0 || s[n - 1] != '\n' then [] else [Strip(s[..n])] + CompleteLines(s[n..])
  {
    hide Strip, Lines.FirstEnd;
  }

  /** A tailer with files to drain, nothing live, and nothing at the path. */
  predicate Adrift(fs: Fs, s: State) {
    fs.path.None? && s.current.None?
  }

  /** What was emitted and what is left make up the lines `all`. */
  predicate Owes(fs: Fs, s: State, all: seq<string>) {
    Adrift(fs, s) && s.emitted + Left(fs, s.draining) == all
  }

  lemma LeftStep(fs: Fs, opens: seq<Open>)
    requires opens != []
    ensures Left(fs, opens) == LeftIn(fs, opens[0]) + Left(fs, opens[1..])
  {
  }

  lemma DrainOwes(fs: Fs, s: State, all: seq<string>)
    requires Owes(fs, s, all) && s.draining != []
    ensures var t := Tail.Drain(fs, s);
            && Owes(fs, t, all)
            && (if ReadLine(fs, s.draining[0]).Some? then |Left(fs, t.draining)| < |Left(fs, s.draining)|
                else Left(fs, t.draining) == Left(fs, s.draining) && |t.draining| < |s.draining|)
  {
    hide ReadLine, LeftIn, Left;
    var (o, rest) := (s.draining[0], s.draining[1..]);
    LeftAfterRead(fs, o);
    LeftStep(fs, s.draining);
    if ReadLine(fs, o).Some? {
      var (o', line) := ReadLine(fs, o).value;
      assert ([o'] + rest)[1..] == rest;
      LeftStep(fs, [o'] + rest);
      assert s.emitted + ([line] + LeftIn(fs, o') + Left(fs, rest))
          == s.emitted + [line] + (LeftIn(fs, o') + Left(fs, rest));
    } else {
      assert [] + Left(fs, rest) == Left(fs, rest);
    }
  }

  lemma DrainPendingCases(fs: Fs, s: State)
    ensures s.draining == [] ==> DrainPending(fs, s) == s
    ensures s.draining != [] && ReadLine(fs, s.draining[0]).Some? ==> DrainPending(fs, s) == Tail.Drain(fs, s)
    ensures s.draining != [] && ReadLine(fs, s.draining[0]).None? ==>
              DrainPending(fs, s) == DrainPending(fs, Tail.Drain(fs, s))
  {
    hide ReadLine;
  }

  lemma {:induction false} DrainPendingOwes(fs: Fs, s: State, all: seq<string>)
    requires Owes(fs, s, all)
    ensures var t := DrainPending(fs, s);
            Owes(fs, t, all) && (t.draining == [] || |Left(fs, t.draining)| < |Left(fs, s.draining)|)
    decreases |s.draining|
  {
    hide *;
    DrainPendingCases(fs, s);
    if s.draining != [] {
      DrainOwes(fs, s, all);
      if ReadLine(fs, s.draining[0]).None? { DrainPendingOwes(fs, Tail.Drain(fs, s), all); }
    }
  }

  lemma PollOwes(fs: Fs, s: State, opens: bool, all: seq<string>)
    requires Owes(fs, s, all)
    ensures var t := NextLine(fs, s, opens);
            Owes(fs, t, all) && (t.draining == [] || |Left(fs, t.draining)| < |Left(fs, s.draining)|)
  {
    hide DrainPending, Left, ReadLine;
    DrainPendingOwes(fs, s, all);
    var a := DrainPending(fs, s);
    if a.emitted == s.emitted {
      DrainPendingOwes(fs, a, all);
      assert Tail.Check(fs, a, opens) == a;
    }
  }

  /** `n` polls of a file system that stays put. */
  function Polled(fs: Fs, s: State, opens: bool, n: nat): State {
    if n == 0 then s else NextLine(fs, Polled(fs, s, opens, n - 1), opens)
  }

  lemma PolledStep(fs: Fs, s: State, opens: bool, n: nat)
    ensures Polled(fs, s, opens, 0) == s
    ensures n > 0 ==> Polled(fs, s, opens, n) == NextLine(fs, Polled(fs, s, opens, n - 1), opens)
  {
    hide NextLine;
  }

  lemma PollRests(fs: Fs, s: State, opens: bool)
    requires Adrift(fs, s) && s.draining == []
    ensures NextLine(fs, s, opens) == s
  {
  }

  lemma OwesIsAdrift(fs: Fs, s: State, all: seq<string>)
    requires Owes(fs, s, all)
    ensures Adrift(fs, s) && s.current.None? && (s.draining == [] ==> s.emitted == all)
  {
  }

  lemma {:induction false} PolledOwes(fs: Fs, s: State, opens: bool, n: nat, all: seq<string>)
    requires Owes(fs, s, all)
    ensures var t := Polled(fs, s, opens, n);
            Owes(fs, t, all) && (t.draining == [] || |Left(fs, t.draining)| + n <= |Left(fs, s.draining)|)
  {
    hide *;
    PolledStep(fs, s, opens, n);
    if n > 0 {
      PolledOwes(fs, s, opens, n - 1, all);
      var t := Polled(fs, s, opens, n - 1);
      PollOwes(fs, t, opens, all);
      OwesIsAdrift(fs, t, all);
      if t.draining == [] { PollRests(fs, t, opens); }
    }
  }

  /** The lines after file `g`'s start, when the files open are all from `g` on. */
  lemma {:induction false} LeftFrom(fs: Fs, opens: seq<Open>, g: nat)
    requires g + |opens| == |fs.gens| && forall j :: 0 <= j < |opens| ==> opens[j] == Open(g + j, 0)
    ensures All(fs.gens[..g]) + Left(fs, opens) == All(fs.gens)
    decreases |opens|
  {
    hide *;
    if opens == [] {
      assert fs.gens[..g] == fs.gens;
      NothingLeftIn(fs);
    } else {
      LeftFrom(fs, opens[1..], g + 1);
      LeftStep(fs, opens);
      WholeFile(fs, g);
      assert fs.gens[..g + 1] == fs.gens[..g] + [fs.gens[g]];
      AllSnoc(fs.gens[..g], fs.gens[g]);
    }
  }

  lemma NothingLeftIn(fs: Fs)
    ensures Left(fs, []) == []
  {
  }

  lemma WholeFile(fs: Fs, g: nat)
    requires g < |fs.gens|
    ensures LeftIn(fs, Open(g, 0)) == CompleteLines(fs.gens[g])
  {
    assert fs.gens[g][0..] == fs.gens[g];
    hide CompleteLines;
  }

  /** What a stranded tailer emitted, with what its files still hold, is every line there is. */
  lemma StrandedHolds(fs: Fs, s: State)
    requires Core(fs, s) && Stranded(fs, s)
    ensures s.emitted + Left(fs, Opens(s)) == All(fs.gens) && fs.gens != []
  {
    hide *;
    var opens := Opens(s);
    StrandedAt(fs, s);
    var (g, at) := (opens[0].ino, opens[0].offset);
    var c := fs.gens[g];
    LeftFrom(fs, opens[1..], g + 1);
    LeftStep(fs, opens);
    LinesSplit(c[..at], c[at..]);
    assert c == c[..at] + c[at..] && fs.gens[..g + 1] == fs.gens[..g] + [c];
    AllSnoc(fs.gens[..g], c);
  }

  lemma StrandedAt(fs: Fs, s: State)
    requires Core(fs, s) && Stranded(fs, s)
    ensures var opens := Opens(s);
            && opens != []
            && var (g, at) := (opens[0].ino, opens[0].offset);
            && g + |opens| == |fs.gens| && (forall j :: 0 <= j < |opens| - 1 ==> opens[1..][j] == Open(g + 1 + j, 0))
            && at <= |fs.gens[g]| && Terminated(fs.gens[g][..at])
            && s.emitted == All(fs.gens[..g]) + CompleteLines(fs.gens[g][..at])
            && LeftIn(fs, opens[0]) == CompleteLines(fs.gens[g][at..])
  {
    assert Opens(s)[|Opens(s)| - 1] == s.current.value;
    hide All, CompleteLines, Terminated, Opens;
  }

  /** Restarted between the rename and the re-creation, from any state, the tailer takes the
      live file for a rotated one: polling reads all there is so far and then drops it, and
      what is written to it after that is never read. */
  lemma StrandedFileIsLost(fs: Fs, s: State, opens: bool, n: nat, b: string)
    requires Core(fs, s) && Stranded(fs, s) && AllFound(fs, Opens(s))
    ensures fs.gens != []
    ensures var asleep := Polled(fs, Resumed(fs, s), opens, n);
            var fs' := Create(Append(fs, b));
            var awake := NextLine(fs', asleep, true);
            && (n > |Left(fs, Opens(s))| ==> asleep.draining == [])
            && (asleep.draining == [] ==>
                  && asleep.emitted == awake.emitted == All(fs.gens) && Quiet(fs', awake)
                  && ('\n' in b ==> |awake.emitted| < |All(fs'.gens)|))
  {
    hide *;
    StrandedHolds(fs, s);
    GrownAndReplaced(fs, b);
    ResumedAdrift(fs, s);
    PolledOwes(fs, Resumed(fs, s), opens, n, All(fs.gens));
    var asleep := Polled(fs, Resumed(fs, s), opens, n);
    OwesIsAdrift(fs, asleep, All(fs.gens));
    if asleep.draining == [] {
      var k := |fs.gens| - 1;
      PicksNew(Create(Append(fs, b)), asleep);
      if '\n' in b { MoreLines(fs.gens[..k], fs.gens[k], b); }
    }
  }

  lemma ResumedAdrift(fs: Fs, s: State)
    requires Core(fs, s) && AllFound(fs, Opens(s)) && Stranded(fs, s)
    requires s.emitted + Left(fs, Opens(s)) == All(fs.gens)
    ensures Owes(fs, Resumed(fs, s), All(fs.gens)) && Resumed(fs, s).draining == Opens(s)
  {
    ResumeAway(fs, s);
    hide Resumed, Core, Left, All, Opens;
  }

  lemma GrownAndReplaced(fs: Fs, b: string)
    requires fs.gens != []
    ensures var (fs', n) := (Create(Append(fs, b)), |fs.gens|);
            && fs'.gens == fs.gens[..n - 1] + [fs.gens[n - 1] + b] + [[]] && |fs'.gens| == n + 1
            && fs'.gens[n] == [] && fs'.path == Some(n)
            && fs.gens == fs.gens[..n - 1] + [fs.gens[n - 1]]
  {
  }

  lemma PicksNew(fs: Fs, s: State)
    requires fs.gens != [] && fs.path == Some(|fs.gens| - 1) && fs.gens[|fs.gens| - 1] == []
    requires s.draining == [] && s.current.None?
    ensures NextLine(fs, s, true).emitted == s.emitted && Quiet(fs, NextLine(fs, s, true))
  {
    assert ReadLine(fs, Open(|fs.gens| - 1, 0)).None?;
  }

  lemma MoreLines(before: seq<string>, last: string, b: string)
    requires '\n' in b
    ensures |All(before + [last])| < |All(before + [last + b] + [[]])|
  {
    hide All, CompleteLines;
    GrowsByNewline(last, b);
    AllSnoc(before, last);
    AllSnoc(before, last + b);
    AllSnoc(before + [last + b], []);
  }

  lemma {:induction false} GrowsByNewline(a: string, b: string)
    requires '\n' in b
    ensures |CompleteLines(a)| < |CompleteLines(a + b)|
    decreases |a|
  {
    if '\n' in a {
      var n := Lines.FirstEnd(a);
      FirstEndOver(a, b);
      assert (a + b)[..n] == a[..n] && (a + b)[n..] == a[n..] + b;
      CompleteStep(a);
      CompleteStep(a + b);
      hide CompleteLines, Strip, Lines.FirstEnd;
      GrowsByNewline(a[n..], b);
    } else {
      NoNewlineNoLines(a);
      assert '\n' in a + b;
      HasLine(a + b);
    }
  }

  lemma NoNewlineNoLines(s: string)
    requires '\n' !in s
    ensures CompleteLines(s) == []
  {
  }

  lemma HasLine(s: string)
    requires '\n' in s
    ensures CompleteLines(s) != []
  {
  }

  /** A file created, and moved away from the path, that neither the tailer nor the saved
      marks have. */
  predicate Skipped(w: World, ino: nat) {
    && ino < |w.fs.gens| && w.fs.path != Some(ino)
    && Without(Opens(w.tail), ino) && Without(Opens(w.saved), ino)
  }

  predicate Without(opens: seq<Open>, ino: nat) {
    forall k :: 0 <= k < |opens| ==> opens[k].ino != ino
  }

  lemma CheckOpens(fs: Fs, s: State, opens: bool, ino: nat)
    requires Without(Opens(s), ino) && fs.path != Some(ino)
    ensures Without(Opens(Tail.Check(fs, s, opens)), ino)
  {
    var t := Tail.Check(fs, s, opens);
    assert s.current.Some? ==> Opens(s)[|s.draining|] == s.current.value;
    assert forall k :: 0 <= k < |s.draining| ==> Opens(s)[k] == s.draining[k];
    assert t.draining == s.draining || (s.current.Some? && t.draining == s.draining + [s.current.value]);
    assert t.current == s.current || t.current.None? || (fs.path.Some? && t.current.value.ino == fs.path.value);
    hide Tail.Check, Pick;
  }

  lemma DrainOpens(fs: Fs, s: State, ino: nat)
    requires Without(Opens(s), ino)
    ensures Without(Opens(Tail.Drain(fs, s)), ino)
  {
    var t := Tail.Drain(fs, s);
    assert forall k :: 0 <= k < |s.draining| ==> Opens(s)[k] == s.draining[k];
    assert forall k :: |s.draining| <= k < |Opens(s)| ==> Opens(s)[k] == s.current.value;
    assert s.current.Some? ==> Opens(s)[|s.draining|] == s.current.value;
    assert t.current == s.current;
    if s.draining != [] && ReadLine(fs, s.draining[0]).Some? {
      var o' := ReadLine(fs, s.draining[0]).value.0;
      assert o'.ino == s.draining[0].ino && t.draining == [o'] + s.draining[1..];
    }
    hide Tail.Drain, ReadLine;
  }

  lemma {:induction false} DrainPendingOpens(fs: Fs, s: State, ino: nat)
    requires Without(Opens(s), ino)
    ensures Without(Opens(DrainPending(fs, s)), ino)
    decreases |s.draining|
  {
    hide Opens, Without, ReadLine;
    DrainOpens(fs, s, ino);
    if s.draining != [] && ReadLine(fs, s.draining[0]).None? { DrainPendingOpens(fs, Tail.Drain(fs, s), ino); }
  }

  lemma LiveOpens(fs: Fs, s: State, ino: nat)
    requires Without(Opens(s), ino)
    ensures Without(Opens(Tail.Live(fs, s)), ino)
  {
    var t := Tail.Live(fs, s);
    assert s.current.Some? ==> Opens(s)[|s.draining|] == s.current.value;
    assert forall k :: 0 <= k < |s.draining| ==> Opens(s)[k] == s.draining[k];
    assert t.draining == s.draining;
    assert t.current.Some? ==> s.current.Some? && t.current.value.ino == s.current.value.ino;
    hide Tail.Live;
  }

  lemma PollOpens(fs: Fs, s: State, opens: bool, ino: nat)
    requires Without(Opens(s), ino) && fs.path != Some(ino)
    ensures Without(Opens(NextLine(fs, s, opens)), ino)
  {
    hide Opens, Without, DrainPending, Tail.Check, Tail.Live;
    var a := DrainPending(fs, s);
    DrainPendingOpens(fs, s, ino);
    CheckOpens(fs, a, opens, ino);
    DrainPendingOpens(fs, Tail.Check(fs, a, opens), ino);
    LiveOpens(fs, DrainPending(fs, Tail.Check(fs, a, opens)), ino);
  }

  lemma ResumedOpensOnly(fs: Fs, s: State, ino: nat)
    requires Without(Opens(s), ino) && fs.path != Some(ino)
    ensures Without(Opens(Resumed(fs, s)), ino)
  {
    ReopenedAreMarks(fs, Opens(s), ino);
    hide Reopened, Position;
  }

  lemma {:induction false} ReopenedAreMarks(fs: Fs, marks: seq<Open>, ino: nat)
    requires forall k :: 0 <= k < |marks| ==> marks[k].ino != ino
    ensures forall k :: 0 <= k < |Reopened(fs, marks)| ==> Reopened(fs, marks)[k].ino != ino
  {
    if marks != [] { ReopenedAreMarks(fs, marks[..|marks| - 1], ino); }
  }

  /** Whatever happens, within the discipline or not, such a file stays unread. */
  lemma {:induction false} SkippedForever(w: World, evs: seq<Event>, ino: nat)
    requires Skipped(w, ino)
    ensures Skipped(Play(w, evs), ino)
  {
    if evs != [] {
      var (v, ev) := (Play(w, evs[..|evs| - 1]), evs[|evs| - 1]);
      SkippedForever(w, evs[..|evs| - 1], ino);
      hide Opens, Without, NextLine, Tail.Check, Tail.Drain, Tail.Live, Resumed, Play;
      match ev {
        case Drain => DrainOpens(v.fs, v.tail, ino);
        case Check(opens) => CheckOpens(v.fs, v.tail, opens, ino);
        case Live => LiveOpens(v.fs, v.tail, ino);
        case Poll(opens) => PollOpens(v.fs, v.tail, opens, ino);
        case Restart => ResumedOpensOnly(v.fs, v.saved, ino);
        case _ =>
      }
      SkippedBy(v, ev, ino);
      PlayLast(w, evs);
    }
  }

  lemma PlayLast(w: World, evs: seq<Event>)
    requires evs != []
    ensures Play(w, evs) == Do(Play(w, evs[..|evs| - 1]), evs[|evs| - 1])
  {
  }

  lemma SkippedBy(w: World, ev: Event, ino: nat)
    requires Skipped(w, ino) && Without(Opens(Do(w, ev).tail), ino)
    ensures Skipped(Do(w, ev), ino)
  {
    hide Opens, Without, NextLine, Tail.Check, Tail.Drain, Tail.Live, Resumed;
  }

  /** Two files created since the marks were saved are one too many: the first of them is
      neither marked nor at the path when the tailer restarts, and whatever happens from
      then on it is never opened. */
  lemma UnmarkedIsSkipped(w: World, ino: nat, evs: seq<Event>)
    requires Core(w.fs, w.saved) && w.saved.seen <= ino < |w.fs.gens| && w.fs.path != Some(ino)
    ensures Without(Opens(Play(Do(w, Restart), evs).tail), ino)
  {
    assert Without(Opens(w.saved), ino) by {
      assert forall k :: 0 <= k < |Opens(w.saved)| ==> Opens(w.saved)[k].ino < w.saved.seen;
    }
    ResumedOpensOnly(w.fs, w.saved, ino);
    hide Core, Resumed, Opens, Without;
    SkippedForever(Do(w, Restart), evs, ino);
  }

  /** A rotated file with no complete line left is dropped, and once the marks are saved it is
      never opened again: neither the unfinished line it ends in nor anything a writer that
      still has it open adds afterwards is ever read. */
  lemma DroppedIsSkipped(w: World, evs: seq<Event>)
    requires w.tail.draining != [] && ReadLine(w.fs, w.tail.draining[0]).None?
    requires var o := w.tail.draining[0];
             o.ino < |w.fs.gens| && w.fs.path != Some(o.ino) && Without(Opens(w.tail)[1..], o.ino)
    ensures var o := w.tail.draining[0];
            Without(Opens(Play(Do(Do(w, Drain), Save), evs).tail), o.ino)
  {
    var o := w.tail.draining[0];
    assert Opens(Tail.Drain(w.fs, w.tail)) == Opens(w.tail)[1..];
    hide Opens, Without, Tail.Drain;
    SkippedForever(Do(Do(w, Drain), Save), evs, o.ino);
  }

  /** The tailer on the live file, with nothing to drain. */
  predicate Following(fs: Fs, s: State) {
    && s.draining == [] && s.current.Some? && fs.path == Some(s.current.value.ino)
    && s.current.value.offset <= Len(fs, s.current.value.ino)
  }

  lemma PollFollowing(fs: Fs, s: State)
    requires Following(fs, s)
    ensures var (t, o) := (NextLine(fs, s, true), s.current.value);
            && Following(fs, t) && t.emitted + LeftIn(fs, t.current.value) == s.emitted + LeftIn(fs, o)
            && (LeftIn(fs, o) != [] ==> |LeftIn(fs, t.current.value)| < |LeftIn(fs, o)|)
            && (LeftIn(fs, o) == [] ==> t == s)
  {
    var o := s.current.value;
    assert DrainPending(fs, s) == s && Tail.Check(fs, s, true) == s;
    LeftAfterRead(fs, o);
    hide LeftIn, DrainPending, Tail.Check;
    if ReadLine(fs, o).Some? {
      var (o', line) := ReadLine(fs, o).value;
      ReadStays(fs, o);
      assert s.emitted + ([line] + LeftIn(fs, o')) == s.emitted + [line] + LeftIn(fs, o');
    }
    hide ReadLine;
  }

  lemma ReadStays(fs: Fs, o: Open)
    requires ReadLine(fs, o).Some?
    ensures var o' := ReadLine(fs, o).value.0; o'.ino == o.ino && o'.offset <= Len(fs, o.ino)
  {
    hide Strip;
  }

  lemma {:induction false} PolledFollowing(fs: Fs, s: State, n: nat)
    requires Following(fs, s)
    ensures var (t, o) := (Polled(fs, s, true, n), s.current.value);
            && Following(fs, t) && t.emitted + LeftIn(fs, t.current.value) == s.emitted + LeftIn(fs, o)
            && (n >= |LeftIn(fs, o)| ==> LeftIn(fs, t.current.value) == [])
            && |LeftIn(fs, t.current.value)| + n <= Max(|LeftIn(fs, o)|, n)
  {
    hide *;
    PolledStep(fs, s, true, n);
    if n > 0 {
      PolledFollowing(fs, s, n - 1);
      PollFollowing(fs, Polled(fs, s, true, n - 1));
      FollowsSome(fs, Polled(fs, s, true, n - 1));
    }
    FollowsSome(fs, s);
    MaxIs(|LeftIn(fs, s.current.value)|, n);
    if n > 0 { MaxIs(|LeftIn(fs, s.current.value)|, n - 1); }
  }

  lemma FollowsSome(fs: Fs, s: State)
    requires Following(fs, s)
    ensures s.current.Some?
  {
  }

  lemma MaxIs(a: nat, b: nat)
    ensures Max(a, b) == if a >= b then a else b
  {
  }

  /** Copy-and-truncate: the live file's content replaced while the tailer follows it. What
      polling then emits is the new content from its start if it is shorter than what was
      read, and otherwise only what lies past the old offset. */
  lemma OverwrittenFile(w: World, c: string, n: nat)
    requires Following(w.fs, w.tail) && w.tail.current.value.ino + 1 == |w.fs.gens|
    requires n > |c|
    ensures var (w', o) := (Do(w, Overwrite(c)), w.tail.current.value.offset);
            Polled(w'.fs, w.tail, true, n).emitted
            == w.tail.emitted + if |c| < o then CompleteLines(c) else CompleteLines(c[o..])
  {
    var (fs, s) := (Do(w, Overwrite(c)).fs, w.tail);
    var o := s.current.value;
    assert Content(fs, o.ino) == c && fs.path == Some(o.ino);
    if |c| < o.offset {
      NoticedFirst(fs, s, n);
      var t := s.(current := Some(Open(o.ino, 0)), rotations := s.rotations + 1, seen := o.ino + 1);
      assert c[0..] == c;
      LeftCount(c);
      PolledFollowing(fs, t, n);
      assert LeftIn(fs, Open(o.ino, 0)) == CompleteLines(c);
      hide Polled, CompleteLines, LeftIn;
      assert Polled(fs, t, true, n).emitted + [] == Polled(fs, t, true, n).emitted;
    } else {
      LeftCount(c[o.offset..]);
      PolledFollowing(fs, s, n);
      assert LeftIn(fs, o) == CompleteLines(c[o.offset..]);
      hide Polled, CompleteLines, LeftIn;
      assert Polled(fs, s, true, n).emitted + [] == Polled(fs, s, true, n).emitted;
    }
  }

  lemma {:induction false} LeftCount(c: string)
    ensures |CompleteLines(c)| <= |c|
    decreases |c|
  {
    LinesOf(c);
    hide CompleteLines, Strip, Lines.FirstEnd;
    var n := Lines.FirstEnd(c);
    if n > 0 && c[n - 1] == '\n' { LeftCount(c[n..]); }
  }

  /** The first poll notices the shorter file and starts it over; the rest is as if the
      tailer had stood there. */
  lemma {:induction false} NoticedFirst(fs: Fs, s: State, n: nat)
    requires n > 0 && s.draining == [] && s.current.Some? && fs.path == Some(s.current.value.ino)
    requires Len(fs, s.current.value.ino) < s.current.value.offset
    ensures var ino := s.current.value.ino;
            Polled(fs, s, true, n)
            == Polled(fs, s.(current := Some(Open(ino, 0)), rotations := s.rotations + 1, seen := ino + 1), true, n)
  {
    hide NextLine;
    if n == 1 {
      NoticedPoll(fs, s);
    } else {
      NoticedFirst(fs, s, n - 1);
    }
  }

  lemma NoticedPoll(fs: Fs, s: State)
    requires s.draining == [] && s.current.Some? && fs.path == Some(s.current.value.ino)
    requires Len(fs, s.current.value.ino) < s.current.value.offset
    ensures var ino := s.current.value.ino;
            NextLine(fs, s, true)
            == NextLine(fs, s.(current := Some(Open(ino, 0)), rotations := s.rotations + 1, seen := ino + 1), true)
  {
    hide ReadLine;
  }
}
