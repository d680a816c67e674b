/** Following a log file through rotation (tail.rs), over an abstract file system. Files are
    numbered in the order they were created at the path; the inode is that number. */
module Tail {
  import opened Basics
  import Lines

  /** `gens[i]` is all that was ever written to file `i`; `path` is the file now at the live
      path; `named` are the files a sibling name still leads to. */
  datatype Fs = Fs(gens: seq<string>, path: Option<nat>, named: set<nat>)

  datatype Open = Open(ino: nat, offset: nat)

  /** `seen` is one more than the newest file opened; `emitted` every line returned. */
  datatype State = State(draining: seq<Open>, current: Option<Open>, rotations: nat, seen: nat,
                         emitted: seq<string>)

  function Content(fs: Fs, ino: nat): string {
    if ino < |fs.gens| then fs.gens[ino] else []
  }

  function Len(fs: Fs, ino: nat): nat {
    |Content(fs, ino)|
  }

  // ---- Lines of a file ----

  /** The line without its newline and one carriage return. */
  function Strip(raw: string): string {
    var a := if raw != [] && raw[|raw| - 1] == '\n' then raw[..|raw| - 1] else raw;
    if a != [] && a[|a| - 1] == '\r' then a[..|a| - 1] else a
  }

  /** `piece` is `line` as a file has it: with a newline after it, or a carriage return and a
      newline. */
  predicate Ends(piece: string, line: string) {
    && '\n' !in line
    && (piece == line + "\r\n" || (piece == line + "\n" && (line == [] || line[|line| - 1] != '\r')))
  }

  predicate Terminated(s: string) {
    s == [] || s[|s| - 1] == '\n'
  }

  /** The complete lines: what follows the last newline is a line still being written. */
  function CompleteLines(s: string): seq<string>
    decreases |s|
  {
    var n := Lines.FirstEnd(s);
    if n == 0 || s[n - 1] != '\n' then [] else [Strip(s[..n])] + CompleteLines(s[n..])
  }

  /** The complete lines of every file, in rotation order. */
  function All(gens: seq<string>): seq<string> {
    if gens == [] then [] else All(gens[..|gens| - 1]) + CompleteLines(gens[|gens| - 1])
  }

  // ---- The tailer's steps ----

  function OpenAt(fs: Fs, ino: nat, offset: nat): Open {
    Open(ino, Min(offset, Len(fs, ino)))
  }

  /** `Open::next_line`: a whole line and the offset after it, or nothing yet. */
  function ReadLine(fs: Fs, o: Open): Option<(Open, string)> {
    if o.offset > Len(fs, o.ino) then None
    else
      var rest := Content(fs, o.ino)[o.offset..];
      var n := Lines.FirstEnd(rest);
      if n == 0 || rest[n - 1] != '\n' then None
      else Some((Open(o.ino, o.offset + n), Strip(rest[..n])))
  }

  /** One turn of `drain_pending`: a line of the oldest rotated file, or that file dropped. */
  function Drain(fs: Fs, s: State): State {
    if s.draining == [] then s
    else
      match ReadLine(fs, s.draining[0])
      case Some(r) => s.(draining := [r.0] + s.draining[1..], emitted := s.emitted + [r.1])
      case None => s.(draining := s.draining[1..])
  }

  /** Open whatever is at the path, if it is still there by then. */
  function Pick(fs: Fs, s: State, opens: bool): State {
    if fs.path.Some? && opens then s.(current := Some(OpenAt(fs, fs.path.value, 0)), seen := fs.path.value + 1)
    else s.(current := None)
  }

  function Check(fs: Fs, s: State, opens: bool): State {
    if s.current.None? then Pick(fs, s, opens)
    else
      var cur := s.current.value;
      if Len(fs, cur.ino) < cur.offset then Pick(fs, s.(rotations := s.rotations + 1), opens)
      else if fs.path.None? || fs.path.value == cur.ino then s
      else
        var draining := if cur.offset < Len(fs, cur.ino) then s.draining + [cur] else s.draining;
        Pick(fs, s.(rotations := s.rotations + 1, draining := draining), opens)
  }

  function Live(fs: Fs, s: State): State {
    if s.current.None? then s
    else
      match ReadLine(fs, s.current.value)
      case Some(r) => s.(current := Some(r.0), emitted := s.emitted + [r.1])
      case None => s
  }

  /** `drain_pending`: until a line comes or nothing is left. */
  function DrainPending(fs: Fs, s: State): State
    decreases |s.draining|
  {
    if s.draining == [] || ReadLine(fs, s.draining[0]).Some? then Drain(fs, s) else DrainPending(fs, Drain(fs, s))
  }

  /** `next_line`, on a file system that stays put meanwhile. */
  function NextLine(fs: Fs, s: State, opens: bool): State {
    var a := DrainPending(fs, s);
    if a.emitted != s.emitted then a
    else
      var b := DrainPending(fs, Check(fs, a, opens));
      if b.emitted != s.emitted then b else Live(fs, b)
  }

  /** Everything open, oldest first: what `marks` saves. */
  function Opens(s: State): seq<Open> {
    s.draining + match s.current case Some(c) => [c] case None => []
  }

  // ---- Resuming from marks ----

  predicate Found(fs: Fs, ino: nat) {
    ino in fs.named || fs.path == Some(ino)
  }

  /** The marks that go to `draining`: found, and unread or no longer at the path. */
  function Reopened(fs: Fs, marks: seq<Open>): seq<Open> {
    if marks == [] then []
    else
      var m := marks[|marks| - 1];
      var open := OpenAt(fs, m.ino, m.offset);
      Reopened(fs, marks[..|marks| - 1]) +
      if Found(fs, m.ino) && (open.offset < Len(fs, m.ino) || fs.path != Some(m.ino)) then [open] else []
  }

  function Lost(fs: Fs, marks: seq<Open>): nat {
    if marks == [] then 0
    else Lost(fs, marks[..|marks| - 1]) + if Found(fs, marks[|marks| - 1].ino) then 0 else 1
  }

  /** Which marks lead nowhere any more. */
  function Missing(fs: Fs, marks: seq<Open>): set<nat> {
    set k: nat | k < |marks| && marks[k].ino !in fs.named && fs.path != Some(marks[k].ino)
  }

  lemma {:induction false} LostCounts(fs: Fs, marks: seq<Open>)
    ensures Lost(fs, marks) == |Missing(fs, marks)|
  {
    hide *;
    LostStep(fs, marks);
    if marks != [] {
      var n := |marks| - 1;
      LostCounts(fs, marks[..n]);
      assert n !in Missing(fs, marks[..n]);
    }
  }

  lemma LostStep(fs: Fs, marks: seq<Open>)
    ensures if marks == [] then Missing(fs, marks) == {} && Lost(fs, marks) == 0
            else
              var n := |marks| - 1;
              && n !in Missing(fs, marks[..n])
              && Missing(fs, marks) == Missing(fs, marks[..n]) + (if Found(fs, marks[n].ino) then {} else {n})
              && Lost(fs, marks) == Lost(fs, marks[..n]) + if Found(fs, marks[n].ino) then 0 else 1
  {
  }

  /** The first of `opens` on this file. */
  function Position(opens: seq<Open>, ino: nat): (p: Option<nat>)
    ensures p.Some? ==> p.value < |opens| && opens[p.value].ino == ino
    ensures p.Some? ==> forall k :: 0 <= k < p.value ==> opens[k].ino != ino
    ensures p.None? ==> forall k :: 0 <= k < |opens| ==> opens[k].ino != ino
  {
    if opens == [] then None
    else if opens[0].ino == ino then Some(0)
    else
      match Position(opens[1..], ino)
      case Some(p) => Some(p + 1)
      case None => None
  }

  /** `Tailer::resume`: the rotated files, the live one, and where its reading starts. */
  function Resume(fs: Fs, marks: seq<Open>): (seq<Open>, Option<Open>) {
    var draining := Reopened(fs, marks);
    if fs.path.None? then (draining, None)
    else
      var ino := fs.path.value;
      match Position(draining, ino)
      case Some(i) => (draining[..i] + draining[i + 1..], Some(draining[i]))
      case None =>
        var start := match Position(marks, ino) case Some(i) => marks[i].offset case None => 0;
        (draining, Some(OpenAt(fs, ino, start)))
  }

  /** Each file opened stands at its mark, or at its end if it is shorter by now; a file without
      a mark stands at its start. */
  ghost predicate AtMark(fs: Fs, marks: seq<Open>, o: Open) {
    || (exists k :: 0 <= k < |marks| && marks[k].ino == o.ino && o.offset == Min(marks[k].offset, Len(fs, o.ino)))
    || (o.offset == 0 && forall k :: 0 <= k < |marks| ==> marks[k].ino != o.ino)
  }

  lemma {:induction false} ReopenedAtMarks(fs: Fs, marks: seq<Open>)
    ensures forall o :: o in Reopened(fs, marks) ==>
              exists k :: 0 <= k < |marks| && marks[k].ino == o.ino && o.offset == Min(marks[k].offset, Len(fs, o.ino))
  {
    if marks != [] {
      var n := |marks| - 1;
      ReopenedAtMarks(fs, marks[..n]);
      forall o | o in Reopened(fs, marks[..n])
        ensures exists k :: 0 <= k < |marks| && marks[k].ino == o.ino
                            && o.offset == Min(marks[k].offset, Len(fs, o.ino))
      {
        var k :| 0 <= k < n && marks[..n][k].ino == o.ino && o.offset == Min(marks[..n][k].offset, Len(fs, o.ino));
        assert marks[k] == marks[..n][k];
      }
    }
  }

  lemma ResumeAtMarks(fs: Fs, marks: seq<Open>)
    ensures var (draining, current) := Resume(fs, marks);
            && (forall o :: o in draining ==> AtMark(fs, marks, o))
            && (current.Some? ==> AtMark(fs, marks, current.value))
  {
    ReopenedAtMarks(fs, marks);
    hide Reopened, Found;
    if fs.path.Some? && Position(Reopened(fs, marks), fs.path.value).None? {
      var at := Position(marks, fs.path.value);
      if at.Some? { assert marks[at.value].ino == fs.path.value; }
    }
  }

  function Resumed(fs: Fs, s: State): State {
    var (draining, current) := Resume(fs, Opens(s));
    State(draining, current, 0, if fs.path.Some? then fs.path.value + 1 else s.seen, s.emitted)
  }

  /** `line` is what stands in its file between where `o` was and where `p` is. */
  predicate Took(fs: Fs, o: Open, p: Open, line: string) {
    && o.ino == p.ino && o.offset <= p.offset <= Len(fs, o.ino)
    && Ends(Content(fs, o.ino)[o.offset..p.offset], line)
  }

  /** `line` was taken from one of the files open before, or just opened. */
  ghost predicate Returned(fs: Fs, from: seq<Open>, to: seq<Open>, line: string) {
    exists o, p :: o in from && p in to && Took(fs, o, p, line)
  }

  /** What can be read next: the files open, and the one at the path from its start. */
  function Readable(fs: Fs, s: State, opens: bool): seq<Open> {
    Opens(s) + if opens && fs.path.Some? then [Open(fs.path.value, 0)] else []
  }

  class Tailer {
    var draining: seq<Open>
    var current: Option<Open>
    var filesLost: nat
    var rotations: nat
    ghost var seen: nat
    ghost var emitted: seq<string>

    ghost function Now(): State
      reads this
    {
      State(draining, current, rotations, seen, emitted)
    }

    constructor Resume(fs: Fs, marks: seq<Open>, ghost before: State)
      requires Opens(before) == marks
      ensures Now() == Resumed(fs, before) && filesLost == |Missing(fs, marks)|
    {
      draining, current, filesLost, rotations := [], None, 0, 0;
      seen, emitted := if fs.path.Some? then fs.path.value + 1 else before.seen, before.emitted;
      new;
      for i := 0 to |marks|
        invariant draining == Reopened(fs, marks[..i]) && filesLost == Lost(fs, marks[..i])
        invariant current.None? && rotations == 0
        invariant seen == (if fs.path.Some? then fs.path.value + 1 else before.seen) && emitted == before.emitted
      {
        assert marks[..i + 1][..i] == marks[..i];
        var mark := marks[i];
        if Found(fs, mark.ino) {
          var open := OpenAt(fs, mark.ino, mark.offset);
          if open.offset < Len(fs, mark.ino) || fs.path != Some(mark.ino) {
            draining := draining + [open];
          }
        } else {
          filesLost := filesLost + 1;
        }
      }
      assert marks[..|marks|] == marks;
      LostCounts(fs, marks);
      if fs.path.Some? {
        var ino := fs.path.value;
        match Position(draining, ino) {
          case Some(i) =>
            current := Some(draining[i]);
            draining := draining[..i] + draining[i + 1..];
          case None =>
            var start := 0;
            var at := Position(marks, ino);
            if at.Some? {
              start := marks[at.value].offset;
            }
            current := Some(OpenAt(fs, ino, start));
        }
      }
    }

    method Drained(fs: Fs) returns (line: Option<string>)
      modifies this`draining, this`emitted
      ensures Now() == DrainPending(fs, old(Now()))
      ensures emitted == match line case Some(l) => old(emitted) + [l] case None => old(emitted)
      ensures line.None? ==> draining == []
    {
      while draining != []
        invariant DrainPending(fs, Now()) == DrainPending(fs, old(Now())) && emitted == old(emitted)
        decreases |draining|
      {
        match ReadLine(fs, draining[0]) {
          case Some(r) =>
            draining := [r.0] + draining[1..];
            emitted := emitted + [r.1];
            return Some(r.1);
          case None =>
            draining := draining[1..];
        }
      }
      return None;
    }

    method CheckRotation(fs: Fs, opens: bool)
      modifies this`draining, this`current, this`rotations, this`seen
      ensures Now() == Check(fs, old(Now()), opens)
      ensures rotations == old(rotations) + match old(current)
                                            case None => 0
                                            case Some(cur) =>
                                              var gone := fs.path.Some? && fs.path.value != cur.ino;
                                              if Len(fs, cur.ino) < cur.offset || gone then 1 else 0
    {
      if current.None? {
        PickUp(fs, opens);
        return;
      }
      var cur := current.value;
      if Len(fs, cur.ino) < cur.offset {
        rotations := rotations + 1;
        PickUp(fs, opens);
        return;
      }
      if fs.path.None? {
        return;
      }
      if fs.path.value == cur.ino {
        return;
      }
      rotations := rotations + 1;
      var oldFile := cur;
      if oldFile.offset < Len(fs, oldFile.ino) {
        draining := draining + [oldFile];
      }
      PickUp(fs, opens);
    }

    method PickUp(fs: Fs, opens: bool)
      modifies this`current, this`seen
      ensures Now() == Pick(fs, old(Now()), opens)
    {
      current := None;
      if fs.path.Some? && opens {
        current := Some(OpenAt(fs, fs.path.value, 0));
        seen := fs.path.value + 1;
      }
    }

    method Next(fs: Fs, opens: bool) returns (line: Option<string>)
      modifies this`draining, this`current, this`rotations, this`seen, this`emitted
      ensures Now() == NextLine(fs, old(Now()), opens)
      ensures emitted == match line case Some(l) => old(emitted) + [l] case None => old(emitted)
      ensures line.Some? ==> Returned(fs, Readable(fs, old(Now()), opens), Opens(Now()), line.value)
    {
      NextTook(fs, Now(), opens);
      hide Took, Ends, Returned;
      line := Drained(fs);
      if line.Some? {
        return;
      }
      CheckRotation(fs, opens);
      line := Drained(fs);
      if line.Some? {
        return;
      }
      if current.Some? {
        match ReadLine(fs, current.value) {
          case Some(r) =>
            current := Some(r.0);
            emitted := emitted + [r.1];
            return Some(r.1);
          case None =>
        }
      }
      return None;
    }

    method Marks() returns (marks: seq<Open>)
      ensures marks == Opens(Now())
    {
      marks := draining;
      if current.Some? {
        marks := marks + [current.value];
      }
    }
  }

  // ---- Line arithmetic ----

  lemma FirstEndOver(a: string, b: string)
    requires '\n' in a
    ensures Lines.FirstEnd(a + b) == Lines.FirstEnd(a)
    decreases |a|
  {
    if a[0] != '\n' {
      assert (a + b)[1..] == a[1..] + b;
      assert a == [a[0]] + a[1..];
      FirstEndOver(a[1..], b);
    }
  }

  lemma TerminatedHasNewline(a: string)
    requires a != [] && Terminated(a)
    ensures '\n' in a
  {
  }

  lemma CompleteStep(s: string)
    requires var n := Lines.FirstEnd(s); n > 0 && s[n - 1] == '\n'
    ensures CompleteLines(s) == [Strip(s[..Lines.FirstEnd(s)])] + CompleteLines(s[Lines.FirstEnd(s)..])
  {
  }

  /** The first line of a finished stretch, with more after it. */
  lemma FirstLine(a: string, b: string)
    requires a != [] && Terminated(a)
    ensures var n := Lines.FirstEnd(a);
            && n > 0 && a[n - 1] == '\n' && Terminated(a[n..])
            && Lines.FirstEnd(a + b) == n && (a + b)[..n] == a[..n] && (a + b)[n..] == a[n..] + b
  {
    TerminatedHasNewline(a);
    FirstEndOver(a, b);
    hide Lines.FirstEnd;
  }

  lemma {:induction false} LinesSplit(a: string, b: string)
    requires Terminated(a)
    ensures CompleteLines(a + b) == CompleteLines(a) + CompleteLines(b)
    decreases |a|
  {
    hide CompleteLines, Strip, Lines.FirstEnd;
    NoLines();
    if a == [] {
      assert a + b == b && [] + CompleteLines(b) == CompleteLines(b);
    } else {
      var rest := a[Lines.FirstEnd(a)..];
      FirstLine(a, b);
      CompleteStep(a);
      CompleteStep(a + b);
      LinesSplit(rest, b);
      var line := [Strip(a[..Lines.FirstEnd(a)])];
      assert line + (CompleteLines(rest) + CompleteLines(b)) == line + CompleteLines(rest) + CompleteLines(b);
    }
  }

  lemma NoLines()
    ensures CompleteLines([]) == []
  {
  }

  /** A line that `ReadLine` returns is the next complete line of its file. */
  lemma ReadAdvances(fs: Fs, o: Open)
    requires o.offset <= Len(fs, o.ino) && Terminated(Content(fs, o.ino)[..o.offset]) && ReadLine(fs, o).Some?
    ensures var (o', line) := ReadLine(fs, o).value;
            var c := Content(fs, o.ino);
            && o'.ino == o.ino && o.offset < o'.offset <= |c| && Terminated(c[..o'.offset])
            && CompleteLines(c[..o'.offset]) == CompleteLines(c[..o.offset]) + [line]
  {
    hide CompleteLines, Strip, Terminated, Lines.FirstEnd;
    var (c, n) := (Content(fs, o.ino), Lines.FirstEnd(Content(fs, o.ino)[o.offset..]));
    PieceAfter(c[..o.offset], c[o.offset..]);
    assert c[..o.offset + n] == c[..o.offset] + c[o.offset..][..n];
  }

  lemma PieceAfter(before: string, rest: string)
    requires Terminated(before) && (var n := Lines.FirstEnd(rest); n > 0 && rest[n - 1] == '\n')
    ensures var piece := rest[..Lines.FirstEnd(rest)];
            Terminated(before + piece) && CompleteLines(before + piece) == CompleteLines(before) + [Strip(piece)]
  {
    hide CompleteLines, Strip, Lines.FirstEnd;
    OnePiece(rest);
    LinesSplit(before, rest[..Lines.FirstEnd(rest)]);
  }

  lemma OnePiece(rest: string)
    requires var n := Lines.FirstEnd(rest); n > 0 && rest[n - 1] == '\n'
    ensures CompleteLines(rest[..Lines.FirstEnd(rest)]) == [Strip(rest[..Lines.FirstEnd(rest)])]
  {
    hide CompleteLines, Strip, Lines.FirstEnd;
    var n := Lines.FirstEnd(rest);
    var piece := rest[..n];
    assert piece + rest[n..] == rest && piece[n - 1] == '\n';
    FirstEndOver(piece, rest[n..]);
    assert piece[..n] == piece && piece[n..] == [];
    CompleteStep(piece);
    NoLines();
  }

  // ---- What text a line is ----

  lemma StripEnds(piece: string)
    requires piece != [] && piece[|piece| - 1] == '\n' && '\n' !in piece[..|piece| - 1]
    ensures Ends(piece, Strip(piece))
  {
    var a := piece[..|piece| - 1];
    assert piece == a + "\n";
    if a != [] && a[|a| - 1] == '\r' {
      assert piece == a[..|a| - 1] + "\r\n";
    }
  }

  /** Text up to a newline is a line, less one carriage return at its end, and what follows is
      the rest of the lines. With no newline there is none (`TailRuns.NoNewlineNoLines`). */
  lemma LineText(a: string, b: string)
    requires '\n' !in a
    ensures CompleteLines(a + "\n" + b)
            == [if a != [] && a[|a| - 1] == '\r' then a[..|a| - 1] else a] + CompleteLines(b)
  {
    var (piece, s) := (a + "\n", a + "\n" + b);
    assert Lines.IsLine(piece) by { assert piece[..|piece| - 1] == a; }
    Lines.FirstEndOfLine(piece, b);
    assert s[..|piece|] == piece && s[|piece|..] == b && piece[..|piece| - 1] == a;
    CompleteStep(s);
    hide CompleteLines;
  }

  lemma ReadTook(fs: Fs, o: Open)
    requires ReadLine(fs, o).Some?
    ensures Took(fs, o, ReadLine(fs, o).value.0, ReadLine(fs, o).value.1)
  {
    hide Strip, Ends, Lines.FirstEnd;
    var rest := Content(fs, o.ino)[o.offset..];
    NextPiece(Content(fs, o.ino), o.offset);
    StripEnds(rest[..Lines.FirstEnd(rest)]);
  }

  lemma NextPiece(c: string, at: nat)
    requires at <= |c| && (var n := Lines.FirstEnd(c[at..]); n > 0 && c[at..][n - 1] == '\n')
    ensures var n := Lines.FirstEnd(c[at..]);
            && n <= |c[at..]| && at + n <= |c| && c[at..at + n] == c[at..][..n]
            && '\n' !in c[at..][..n][..n - 1]
  {
    hide Lines.FirstEnd;
    var (rest, n) := (c[at..], Lines.FirstEnd(c[at..]));
    assert rest[..n][..n - 1] == rest[..n - 1];
    assert rest[n - 1] in rest;
  }

  lemma {:induction false} DrainPendingTook(fs: Fs, s: State)
    ensures var t := DrainPending(fs, s);
            && t.current == s.current
            && if t.emitted == s.emitted then t.draining == []
               else t.emitted != [] && t.emitted == s.emitted + [t.emitted[|t.emitted| - 1]]
                    && Returned(fs, s.draining, t.draining, t.emitted[|t.emitted| - 1])
    decreases |s.draining|
  {
    hide ReadLine, Took;
    if s.draining != [] {
      if ReadLine(fs, s.draining[0]).Some? {
        ReadTook(fs, s.draining[0]);
      } else {
        DrainPendingTook(fs, Drain(fs, s));
        ReturnedMore(fs, s.draining[1..], s.draining, DrainPending(fs, s).draining, DrainPending(fs, s).draining);
      }
    }
  }

  lemma ReturnedMore(fs: Fs, from: seq<Open>, more: seq<Open>, to: seq<Open>, rest: seq<Open>)
    requires (forall o :: o in from ==> o in more) && forall p :: p in to ==> p in rest
    ensures forall line :: Returned(fs, from, to, line) ==> Returned(fs, more, rest, line)
  {
    hide Took;
  }

  lemma CheckOpens(fs: Fs, s: State, opens: bool)
    ensures var t := Check(fs, s, opens);
            t.emitted == s.emitted && forall o :: o in Opens(t) ==> o in Readable(fs, s, opens)
  {
  }

  lemma LiveTook(fs: Fs, s: State)
    ensures var t := Live(fs, s);
            t.emitted != s.emitted ==>
              && t.emitted != [] && t.emitted == s.emitted + [t.emitted[|t.emitted| - 1]]
              && Returned(fs, Opens(s), Opens(t), t.emitted[|t.emitted| - 1])
  {
    hide ReadLine, Took;
    if s.current.Some? && ReadLine(fs, s.current.value).Some? {
      ReadTook(fs, s.current.value);
      assert s.current.value in Opens(s) && Live(fs, s).current.value in Opens(Live(fs, s));
    }
  }

  /** A line that `next_line` returns is the text between the old and the new offset of the
      file it was read from, less its line ending. */
  lemma NextTook(fs: Fs, s: State, opens: bool)
    ensures var t := NextLine(fs, s, opens);
            t.emitted != s.emitted ==>
              && t.emitted != [] && t.emitted == s.emitted + [t.emitted[|t.emitted| - 1]]
              && Returned(fs, Readable(fs, s, opens), Opens(t), t.emitted[|t.emitted| - 1])
  {
    hide ReadLine, DrainPending, Check, Live, Took, Returned;
    var a := DrainPending(fs, s);
    DrainPendingTook(fs, s);
    if a.emitted != s.emitted {
      ReturnedMore(fs, s.draining, Readable(fs, s, opens), a.draining, Opens(a));
    } else {
      var c := Check(fs, a, opens);
      var b := DrainPending(fs, c);
      CheckOpens(fs, a, opens);
      DrainPendingTook(fs, c);
      assert Opens(a) == match s.current case Some(o) => [o] case None => [];
      assert forall o :: o in Readable(fs, a, opens) ==> o in Readable(fs, s, opens);
      if b.emitted != c.emitted {
        ReturnedMore(fs, c.draining, Readable(fs, s, opens), b.draining, Opens(b));
      } else {
        assert Opens(b) == match c.current case Some(o) => [o] case None => [];
        LiveTook(fs, b);
        ReturnedMore(fs, Opens(b), Readable(fs, s, opens), Opens(Live(fs, b)), Opens(Live(fs, b)));
      }
    }
  }

  /** Nothing to read: no complete line is left, and in a finished file nothing at all. */
  lemma ReadNothing(fs: Fs, o: Open)
    requires o.offset <= Len(fs, o.ino) && Terminated(Content(fs, o.ino)[..o.offset]) && ReadLine(fs, o).None?
    ensures CompleteLines(Content(fs, o.ino)) == CompleteLines(Content(fs, o.ino)[..o.offset])
    ensures Terminated(Content(fs, o.ino)) ==> o.offset == Len(fs, o.ino)
  {
    var c := Content(fs, o.ino);
    var rest := c[o.offset..];
    assert c == c[..o.offset] + rest;
    LinesSplit(c[..o.offset], rest);
    assert CompleteLines(rest) == [];
    if Terminated(c) { NothingLeft(rest); }
    hide CompleteLines;
  }

  lemma NothingLeft(rest: string)
    requires Terminated(rest) && (var n := Lines.FirstEnd(rest); n == 0 || rest[n - 1] != '\n')
    ensures rest == []
  {
    if rest != [] { TerminatedHasNewline(rest); }
  }

  lemma AllSnoc(gens: seq<string>, g: string)
    ensures All(gens + [g]) == All(gens) + CompleteLines(g)
  {
    assert (gens + [g])[..|gens|] == gens;
  }

  /** All lines of the files before `g`, and of the first `o` bytes of file `g`. */
  function EmittedAt(gens: seq<string>, g: nat, o: nat): seq<string>
    requires g <= |gens| && o <= if g < |gens| then |gens[g]| else 0
  {
    All(gens[..g]) + if g < |gens| then CompleteLines(gens[g][..o]) else []
  }

  lemma FileDone(gens: seq<string>, g: nat)
    requires g < |gens|
    ensures EmittedAt(gens, g, |gens[g]|) == EmittedAt(gens, g + 1, 0)
  {
    assert gens[..g + 1] == gens[..g] + [gens[g]] && gens[g][..|gens[g]|] == gens[g];
    AllSnoc(gens[..g], gens[g]);
    hide All;
    assert g + 1 < |gens| ==> gens[g + 1][..0] == [];
    assert CompleteLines([]) == [];
  }

  // ---- The invariant ----

  /** The rotation discipline: a file is finished, and ends in a newline, once a newer one
      exists, and only the newest is at the path. */
  predicate Disciplined(fs: Fs) {
    && (fs.path.Some? ==> fs.path.value + 1 == |fs.gens|)
    && (forall i :: 0 <= i < |fs.gens| - 1 ==> Terminated(fs.gens[i]))
  }

  function First(s: State): int {
    s.seen - |Opens(s)|
  }

  function At(s: State): nat {
    if Opens(s) == [] then 0 else Opens(s)[0].offset
  }

  /** What is open are consecutive files up to the last one seen, only the first of them
      partly read, and all but the live one are finished. */
  predicate Consecutive(fs: Fs, opens: seq<Open>, draining: nat, seen: nat) {
    && draining <= |opens| <= seen <= |fs.gens|
    && (forall j :: 0 <= j < |opens| ==> opens[j].ino == seen - |opens| + j)
    && (forall j :: 0 < j < |opens| ==> opens[j].offset == 0)
    && (draining > 0 ==> seen - |opens| + draining < |fs.gens|)
    && (|opens| == draining ==> fs.gens == [] || seen < |fs.gens|)
  }

  predicate Shape(fs: Fs, s: State) {
    Disciplined(fs) && Consecutive(fs, Opens(s), |s.draining|, s.seen)
  }

  /** What was emitted is every line before that point. */
  predicate Told(fs: Fs, first: nat, at: nat, emitted: seq<string>) {
    && first <= |fs.gens| && at <= Len(fs, first) && Terminated(Content(fs, first)[..at])
    && emitted == EmittedAt(fs.gens, first, at)
  }

  predicate Core(fs: Fs, s: State) {
    Shape(fs, s) && Told(fs, First(s), At(s), s.emitted)
  }

  /** And the tailer is at most one new file behind. */
  predicate Inv(fs: Fs, s: State) {
    Core(fs, s) && |fs.gens| <= s.seen + 1
  }

  // ---- Steps keep it ----

  lemma ToldRead(fs: Fs, o: Open, emitted: seq<string>)
    requires o.ino < |fs.gens| && Told(fs, o.ino, o.offset, emitted) && ReadLine(fs, o).Some?
    ensures var (o', line) := ReadLine(fs, o).value; o'.ino == o.ino && Told(fs, o.ino, o'.offset, emitted + [line])
  {
    hide ReadLine, CompleteLines, All, Terminated;
    ReadAdvances(fs, o);
  }

  /** A finished file read to its end is the next one at its start. */
  lemma ToldDone(fs: Fs, first: nat, emitted: seq<string>)
    requires first < |fs.gens| && Told(fs, first, |fs.gens[first]|, emitted)
    ensures Told(fs, first + 1, 0, emitted)
  {
    FileDone(fs.gens, first);
    hide EmittedAt;
  }

  lemma ToldEnd(fs: Fs, o: Open, emitted: seq<string>)
    requires o.ino < |fs.gens| && Told(fs, o.ino, o.offset, emitted) && ReadLine(fs, o).None?
    ensures Terminated(fs.gens[o.ino]) ==> Told(fs, o.ino + 1, 0, emitted)
  {
    ReadNothing(fs, o);
    if Terminated(fs.gens[o.ino]) { ToldDone(fs, o.ino, emitted); }
    hide *;
  }

  lemma ShapeMoves(fs: Fs, opens: seq<Open>, draining: nat, seen: nat, o: Open)
    requires Consecutive(fs, opens, draining, seen) && opens != [] && o.ino == opens[0].ino
    ensures Consecutive(fs, [o] + opens[1..], draining, seen)
  {
  }

  lemma ShapeDrops(fs: Fs, opens: seq<Open>, draining: nat, seen: nat)
    requires Consecutive(fs, opens, draining, seen) && draining > 0
    ensures Consecutive(fs, opens[1..], draining - 1, seen)
    ensures |opens| > 1 ==> opens[1].offset == 0
  {
  }

  /** The oldest open file is where the telling stands. */
  lemma FrontTells(fs: Fs, s: State)
    requires Inv(fs, s) && Opens(s) != []
    ensures var o := Opens(s)[0];
            && Disciplined(fs) && Consecutive(fs, Opens(s), |s.draining|, s.seen) && |fs.gens| <= s.seen + 1
            && o.ino == s.seen - |Opens(s)| && o.ino < |fs.gens| && Told(fs, o.ino, o.offset, s.emitted)
  {
    hide Told, Opens, Disciplined;
  }

  /** Reading the oldest open file, wherever it is. */
  lemma FrontRead(fs: Fs, s: State, s': State, o: Open)
    requires Inv(fs, s) && Opens(s) != [] && o == Opens(s)[0] && ReadLine(fs, o).Some?
    requires Opens(s') == [ReadLine(fs, o).value.0] + Opens(s)[1..] && |s'.draining| == |s.draining|
    requires s'.seen == s.seen && s'.emitted == s.emitted + [ReadLine(fs, o).value.1]
    ensures Inv(fs, s')
  {
    hide *;
    FrontTells(fs, s);
    ToldRead(fs, o, s.emitted);
    ShapeMoves(fs, Opens(s), |s.draining|, s.seen, ReadLine(fs, o).value.0);
    InvWhole(fs, s', ReadLine(fs, o).value.0.offset);
  }

  lemma FrontDropped(fs: Fs, s: State)
    requires Inv(fs, s) && s.draining != [] && ReadLine(fs, s.draining[0]).None?
    ensures Inv(fs, s.(draining := s.draining[1..]))
  {
    hide *;
    var (o, s') := (s.draining[0], s.(draining := s.draining[1..]));
    FrontIsFinished(fs, s);
    FrontTells(fs, s);
    ToldEnd(fs, o, s.emitted);
    ShapeDrops(fs, Opens(s), |s.draining|, s.seen);
    InvWhole(fs, s', 0);
  }

  lemma FrontIsFinished(fs: Fs, s: State)
    requires Inv(fs, s) && s.draining != []
    ensures var (o, s') := (s.draining[0], s.(draining := s.draining[1..]));
            && Opens(s) != [] && o == Opens(s)[0] && o.ino < |fs.gens| && Terminated(fs.gens[o.ino])
            && Opens(s') == Opens(s)[1..]
  {
    assert s.draining[0] == Opens(s)[0];
    hide Told, Terminated;
  }

  lemma DrainKeeps(fs: Fs, s: State)
    requires Inv(fs, s)
    ensures Inv(fs, Drain(fs, s))
  {
    hide ReadLine, Inv;
    if s.draining != [] {
      var (o, s') := (s.draining[0], Drain(fs, s));
      if ReadLine(fs, o).Some? {
        assert Opens(s') == [ReadLine(fs, o).value.0] + Opens(s)[1..];
        FrontRead(fs, s, s', o);
      } else {
        FrontDropped(fs, s);
      }
    }
  }

  lemma LiveKeeps(fs: Fs, s: State)
    requires Inv(fs, s) && s.draining == []
    ensures Inv(fs, Live(fs, s))
  {
    hide ReadLine, Inv;
    if s.current.Some? && ReadLine(fs, s.current.value).Some? {
      assert Opens(Live(fs, s)) == [ReadLine(fs, s.current.value).value.0] + Opens(s)[1..];
      FrontRead(fs, s, Live(fs, s), s.current.value);
    }
  }

  /** With nothing open, the file at the path is picked up from its start. */
  lemma PickKeeps(fs: Fs, s: State, opens: bool)
    requires Inv(fs, s) && Opens(s) == []
    ensures Inv(fs, Pick(fs, s, opens))
  {
    hide Told;
  }

  /** The new file has been created, and the old one will not grow. */
  lemma RotationShape(fs: Fs, s: State, s': State, opens: bool)
    requires Shape(fs, s) && |fs.gens| <= s.seen + 1
    requires s.draining == [] && s.current.Some? && fs.path.Some? && fs.path.value != s.current.value.ino
    requires s'.seen == s.seen && (s'.draining == [] || s'.draining == [s.current.value])
    ensures var t := Pick(fs, s', opens);
            var cur := s.current.value;
            && Shape(fs, t) && |fs.gens| <= t.seen + 1 && t.emitted == s'.emitted
            && cur.ino < |fs.gens| && Terminated(fs.gens[cur.ino]) && First(s) == cur.ino && At(s) == cur.offset
            && (if s'.draining == [] then First(t) == cur.ino + 1 && At(t) == 0
                else First(t) == cur.ino && At(t) == cur.offset)
  {
    var (cur, t) := (s.current.value, Pick(fs, s', opens));
    assert Opens(s) == [cur] && Opens(s)[0] == cur;
    assert cur.ino + 1 == s.seen && fs.path.value == s.seen;
    assert Opens(t) == s'.draining + if opens then [Open(cur.ino + 1, 0)] else [];
    hide Terminated;
  }

  /** The tailer with its live file rotated away: still to drain, unless it is done. */
  function Turned(fs: Fs, s: State): State
    requires s.current.Some?
  {
    var cur := s.current.value;
    s.(rotations := s.rotations + 1, draining := if cur.offset < Len(fs, cur.ino) then [cur] else [])
  }

  predicate Rotated(fs: Fs, s: State) {
    s.current.Some? && fs.path.Some? && fs.path.value != s.current.value.ino
  }

  lemma RotationKeeps(fs: Fs, s: State, opens: bool)
    requires Inv(fs, s) && s.draining == [] && Rotated(fs, s)
    ensures Inv(fs, Pick(fs, Turned(fs, s), opens))
  {
    hide *;
    RotatedFacts(fs, s);
    var (cur, s') := (s.current.value, Turned(fs, s));
    CurrentFits(fs, s);
    RotationShape(fs, s, s', opens);
    if s'.draining == [] { ToldDone(fs, cur.ino, s.emitted); }
    InvFrom(fs, Pick(fs, s', opens));
  }

  lemma RotatedFacts(fs: Fs, s: State)
    requires Inv(fs, s) && Rotated(fs, s)
    ensures Shape(fs, s) && |fs.gens| <= s.seen + 1
    ensures s.current.Some? && fs.path.Some? && fs.path.value != s.current.value.ino
    ensures var (cur, s') := (s.current.value, Turned(fs, s));
            && s'.draining == (if cur.offset < Len(fs, cur.ino) then [cur] else [])
            && s'.seen == s.seen && s'.emitted == s.emitted
  {
    hide Shape, Told;
  }

  lemma InvFrom(fs: Fs, t: State)
    requires Shape(fs, t) && |fs.gens| <= t.seen + 1 && 0 <= First(t) && Told(fs, First(t), At(t), t.emitted)
    ensures Inv(fs, t)
  {
    hide Shape, Told, First, At;
  }

  lemma CurrentFits(fs: Fs, s: State)
    requires Inv(fs, s) && s.draining == [] && s.current.Some?
    ensures var cur := s.current.value;
            cur.ino < |fs.gens| && cur.offset <= Len(fs, cur.ino) == |fs.gens[cur.ino]|
            && Told(fs, cur.ino, cur.offset, s.emitted)
  {
    assert Opens(s) == [s.current.value] && Opens(s)[0] == s.current.value;
    hide EmittedAt, Terminated;
  }

  lemma CheckCases(fs: Fs, s: State, opens: bool)
    requires s.draining == [] && (s.current.Some? ==> s.current.value.offset <= Len(fs, s.current.value.ino))
    ensures s.current.None? ==> Check(fs, s, opens) == Pick(fs, s, opens)
    ensures s.current.Some? && !Rotated(fs, s) ==> Check(fs, s, opens) == s
    ensures Rotated(fs, s) ==> Check(fs, s, opens) == Pick(fs, Turned(fs, s), opens)
  {
    hide Pick, Len;
    assert s.current.Some? ==> [] + [s.current.value] == [s.current.value];
  }

  lemma CheckKeeps(fs: Fs, s: State, opens: bool)
    requires Inv(fs, s) && s.draining == []
    ensures Inv(fs, Check(fs, s, opens))
  {
    if s.current.Some? { CurrentFits(fs, s); }
    CheckCases(fs, s, opens);
    if s.current.None? {
      assert Opens(s) == [];
      PickKeeps(fs, s, opens);
    } else if Rotated(fs, s) {
      RotationKeeps(fs, s, opens);
    }
    hide *;
  }

  // ---- One call, and what it means that it returns nothing ----

  lemma {:induction false} DrainPendingKeeps(fs: Fs, s: State)
    requires Inv(fs, s)
    ensures Inv(fs, DrainPending(fs, s))
    ensures DrainPending(fs, s).emitted == s.emitted ==> DrainPending(fs, s).draining == []
    decreases |s.draining|
  {
    hide Inv, ReadLine;
    DrainKeeps(fs, s);
    if s.draining != [] && ReadLine(fs, s.draining[0]).None? { DrainPendingKeeps(fs, Drain(fs, s)); }
  }

  /** Nothing is left to read: the live file is followed and has no complete line more. */
  predicate Quiet(fs: Fs, s: State) {
    && s.draining == []
    && (fs.path.Some? ==> s.current.Some? && s.current.value.ino == fs.path.value)
    && (s.current.Some? ==> ReadLine(fs, s.current.value).None?)
  }

  /** `next_line` keeps the invariant, and returns nothing only when there is nothing. */
  lemma NextLineKeeps(fs: Fs, s: State, opens: bool)
    requires Inv(fs, s)
    ensures Inv(fs, NextLine(fs, s, opens))
    ensures opens && NextLine(fs, s, opens).emitted == s.emitted ==> Quiet(fs, NextLine(fs, s, opens))
  {
    hide Inv, ReadLine, DrainPending;
    var a := DrainPending(fs, s);
    DrainPendingKeeps(fs, s);
    if a.emitted == s.emitted {
      var b := DrainPending(fs, Check(fs, a, opens));
      CheckKeeps(fs, a, opens);
      DrainPendingKeeps(fs, Check(fs, a, opens));
      if b.emitted == s.emitted {
        LiveKeeps(fs, b);
        if opens { CheckFollows(fs, a); }
      }
    }
  }

  lemma {:induction false} DrainPendingCurrent(fs: Fs, s: State)
    ensures DrainPending(fs, s).current == s.current
    decreases |s.draining|
  {
    hide ReadLine;
    if s.draining != [] && ReadLine(fs, s.draining[0]).None? { DrainPendingCurrent(fs, Drain(fs, s)); }
  }

  /** After a check that could open it, the file at the path is the one followed. */
  lemma CheckFollows(fs: Fs, s: State)
    ensures var c := DrainPending(fs, Check(fs, s, true)).current;
            fs.path.Some? ==> c.Some? && c.value.ino == fs.path.value
  {
    DrainPendingCurrent(fs, Check(fs, s, true));
    hide DrainPending;
  }

  // ---- What the invariant says of what was emitted ----

  lemma {:induction false} AllPrefix(gens: seq<string>, g: nat)
    requires g <= |gens|
    ensures All(gens[..g]) <= All(gens)
  {
    if g < |gens| {
      AllPrefix(gens[..|gens| - 1], g);
      assert gens[..|gens| - 1][..g] == gens[..g];
    } else {
      assert gens[..g] == gens;
    }
  }

  /** Always a prefix of the complete lines of every file in rotation order... */
  lemma EmittedIsPrefix(fs: Fs, s: State)
    requires Core(fs, s)
    ensures s.emitted <= All(fs.gens)
  {
    var g, o := First(s), At(s);
    assert Told(fs, g, o, s.emitted);
    hide Shape, Opens, Core;
    if g < |fs.gens| {
      UpToIsPrefix(fs.gens, g, o);
      hide All, CompleteLines, Terminated;
    } else {
      AllPrefix(fs.gens, g);
      hide All, CompleteLines, Terminated;
    }
  }

  lemma UpToIsPrefix(gens: seq<string>, g: nat, o: nat)
    requires g < |gens| && o <= |gens[g]| && Terminated(gens[g][..o])
    ensures All(gens[..g]) + CompleteLines(gens[g][..o]) <= All(gens)
  {
    hide All, CompleteLines, Terminated;
    var c := gens[g];
    LinesSplit(c[..o], c[o..]);
    assert c == c[..o] + c[o..] && gens[..g + 1] == gens[..g] + [c];
    AllSnoc(gens[..g], c);
    AllPrefix(gens, g + 1);
    var told := All(gens[..g]) + CompleteLines(c[..o]);
    assert All(gens[..g + 1]) == told + CompleteLines(c[o..]);
  }

  /** ...and all of them once polling finds nothing more. */
  lemma QuietIsComplete(fs: Fs, s: State)
    requires Inv(fs, s) && Quiet(fs, s) && (fs.path.Some? || s.seen == |fs.gens|)
    ensures s.emitted == All(fs.gens)
  {
    if s.current.Some? {
      var o := s.current.value;
      LiveTells(fs, s);
      hide *;
      ReadNothing(fs, o);
      var n := |fs.gens| - 1;
      assert fs.gens == fs.gens[..n] + [fs.gens[n]];
      AllSnoc(fs.gens[..n], fs.gens[n]);
    } else {
      assert Opens(s) == [] && fs.gens == [];
    }
  }

  lemma LiveTells(fs: Fs, s: State)
    requires Inv(fs, s) && s.draining == [] && s.current.Some?
    requires fs.path == Some(s.current.value.ino) || s.seen == |fs.gens|
    ensures var (o, n) := (s.current.value, |fs.gens| - 1);
            && n >= 0 && o.ino == n && Content(fs, n) == fs.gens[n] && o.offset <= Len(fs, n) == |fs.gens[n]|
            && Terminated(fs.gens[n][..o.offset])
            && s.emitted == All(fs.gens[..n]) + CompleteLines(fs.gens[n][..o.offset])
  {
    assert Opens(s) == [s.current.value] && Opens(s)[0] == s.current.value;
    hide All, CompleteLines, Terminated;
  }

  // ---- The file system moves on ----

  function Append(fs: Fs, b: string): Fs
    requires fs.gens != []
  {
    var n := |fs.gens| - 1;
    fs.(gens := fs.gens[..n] + [fs.gens[n] + b])
  }

  function Rename(fs: Fs): Fs {
    fs.(path := None, named := fs.named + if fs.path.Some? then {fs.path.value} else {})
  }

  function Create(fs: Fs): Fs {
    fs.(gens := fs.gens + [[]], path := Some(|fs.gens|))
  }

  lemma AppendKeeps(fs: Fs, s: State, b: string)
    requires Core(fs, s) && fs.gens != []
    ensures Core(Append(fs, b), s)
  {
    var (fs', g, n) := (Append(fs, b), First(s), |fs.gens| - 1);
    assert |s.draining| <= |Opens(s)| && g < |fs.gens|;
    assert fs'.gens[..g] == fs.gens[..g];
    assert fs'.gens[g][..At(s)] == fs.gens[g][..At(s)];
    hide All, CompleteLines, Terminated;
    assert forall i :: 0 <= i < n ==> fs'.gens[i] == fs.gens[i];
  }

  lemma CreateKeeps(fs: Fs, s: State)
    requires Core(fs, s) && fs.path.None? && (fs.gens == [] || Terminated(fs.gens[|fs.gens| - 1]))
    ensures Core(Create(fs), s)
  {
    hide Shape, Told;
    CreateShape(fs, s);
    CreateTold(fs, First(s), At(s), s.emitted);
  }

  lemma CreateShape(fs: Fs, s: State)
    requires Core(fs, s) && fs.path.None? && (fs.gens == [] || Terminated(fs.gens[|fs.gens| - 1]))
    ensures Shape(Create(fs), s) && 0 <= First(s) <= |fs.gens|
  {
    var fs' := Create(fs);
    hide All, CompleteLines, Terminated, Told;
    assert forall i :: 0 <= i < |fs.gens| ==> fs'.gens[i] == fs.gens[i];
  }

  lemma CreateTold(fs: Fs, g: nat, at: nat, emitted: seq<string>)
    requires Told(fs, g, at, emitted) && g <= |fs.gens|
    ensures Told(Create(fs), g, at, emitted)
  {
    hide All, CompleteLines, Terminated;
    var fs' := Create(fs);
    assert fs'.gens[..g] == fs.gens[..g];
    assert g < |fs.gens| ==> fs'.gens[g] == fs.gens[g];
    NoLines();
  }

  // ---- Resuming ----

  predicate AllFound(fs: Fs, marks: seq<Open>) {
    forall k :: 0 <= k < |marks| ==> Found(fs, marks[k].ino)
  }

  lemma ReopenedSnoc(fs: Fs, marks: seq<Open>, m: Open)
    requires Found(fs, m.ino) && m.offset <= Len(fs, m.ino)
    ensures Reopened(fs, marks + [m]) ==
            Reopened(fs, marks) + if m.offset < Len(fs, m.ino) || fs.path != Some(m.ino) then [m] else []
  {
    assert (marks + [m])[..|marks|] == marks;
  }

  /** Files no longer at the path are all taken up again where they were left. */
  lemma {:induction false} ReopenedAway(fs: Fs, marks: seq<Open>)
    requires AllFound(fs, marks)
    requires forall k :: 0 <= k < |marks| ==> marks[k].offset <= Len(fs, marks[k].ino) && fs.path != Some(marks[k].ino)
    ensures Reopened(fs, marks) == marks
  {
    if marks != [] {
      var n := |marks| - 1;
      assert marks == marks[..n] + [marks[n]];
      ReopenedAway(fs, marks[..n]);
      ReopenedSnoc(fs, marks[..n], marks[n]);
      hide Reopened, Len;
    }
  }

  lemma OffsetsFit(fs: Fs, s: State)
    requires Core(fs, s)
    ensures forall k :: 0 <= k < |Opens(s)| ==> Opens(s)[k].offset <= Len(fs, Opens(s)[k].ino)
    ensures forall k :: 0 <= k < |s.draining| ==> s.draining[k] == Opens(s)[k] && s.draining[k].ino + 1 < |fs.gens|
    ensures s.current.Some? ==> s.current.value == Opens(s)[|s.draining|] && s.current.value.ino + 1 == s.seen
    ensures |Opens(s)| == |s.draining| + if s.current.Some? then 1 else 0
  {
    hide Terminated, EmittedAt;
  }

  /** The file the tailer was following, which has since been renamed and not replaced. */
  predicate Stranded(fs: Fs, s: State) {
    fs.path.None? && s.current.Some? && s.seen == |fs.gens|
  }

  lemma {:induction false} PositionIs(opens: seq<Open>, ino: nat, k: nat)
    requires k < |opens| && opens[k].ino == ino && forall j :: 0 <= j < k ==> opens[j].ino != ino
    ensures Position(opens, ino) == Some(k)
  {
  }

  /** No live file to continue: everything marked drains, and the path is read from its start. */
  lemma ResumeNew(fs: Fs, marks: seq<Open>)
    requires fs.path.Some? && Reopened(fs, marks) == marks
    requires forall k :: 0 <= k < |marks| ==> marks[k].ino != fs.path.value
    ensures Resume(fs, marks) == (marks, Some(Open(fs.path.value, 0)))
  {
    hide Reopened;
  }

  /** The last mark is the live file: it is continued, read to its end or not. */
  lemma ResumeLive(fs: Fs, d: seq<Open>, c: Open)
    requires fs.path == Some(c.ino) && c.offset <= Len(fs, c.ino) && Found(fs, c.ino) && Reopened(fs, d) == d
    requires forall k :: 0 <= k < |d| ==> d[k].ino != c.ino
    ensures Resume(fs, d + [c]) == (d, Some(c))
  {
    ReopenedSnoc(fs, d, c);
    PositionIs(d + [c], c.ino, |d|);
    hide Reopened, Position, Len;
    assert Position(d, c.ino).None?;
    assert (d + [c])[..|d|] + (d + [c])[|d| + 1..] == d;
    assert d + [] == d;
  }

  /** What the marks of a tailer are worth when the path is there to resume at. */
  lemma MarksStand(fs: Fs, s: State)
    requires Core(fs, s) && |fs.gens| <= s.seen + 1 && AllFound(fs, Opens(s)) && fs.path.Some?
    ensures fs.path.value + 1 == |fs.gens| && Reopened(fs, s.draining) == s.draining
    ensures forall k :: 0 <= k < |s.draining| ==> s.draining[k].ino != fs.path.value
    ensures s.current.None? ==> Opens(s) == s.draining && s.seen == fs.path.value
    ensures s.current.Some? ==>
              var c := s.current.value;
              && Opens(s) == s.draining + [c] && c.offset <= Len(fs, c.ino) && Found(fs, c.ino)
              && (if c.ino == fs.path.value then s.seen == |fs.gens| else s.seen == fs.path.value)
  {
    OffsetsFit(fs, s);
    var (d, p) := (s.draining, fs.path.value);
    forall k | 0 <= k < |d| ensures d[k].offset <= Len(fs, d[k].ino) && Found(fs, d[k].ino) && d[k].ino != p {
      assert d[k] == Opens(s)[k];
    }
    hide Reopened, Len, Found, Told;
    ReopenedAway(fs, d);
    if s.current.Some? { assert Opens(s)[|d|] == s.current.value; }
  }

  lemma ResumedOpens(fs: Fs, s: State, d: seq<Open>, c: Open)
    requires fs.path.Some? && Resume(fs, Opens(s)) == (d, Some(c))
    ensures var r := Resumed(fs, s); r.current.Some? && r.seen == fs.path.value + 1 && Opens(r) == d + [c]
  {
    hide Resume;
  }

  /** Resuming opens what was open, where it was, and after it a file created meanwhile. */
  lemma ResumeOpens(fs: Fs, s: State)
    requires Core(fs, s) && |fs.gens| <= s.seen + 1 && AllFound(fs, Opens(s)) && fs.path.Some?
    ensures var r := Resumed(fs, s);
            && r.current.Some? && r.seen == |fs.gens|
            && Opens(r) == if s.seen < |fs.gens| then Opens(s) + [Open(s.seen, 0)] else Opens(s)
  {
    hide *;
    MarksStand(fs, s);
    var (d, p) := (s.draining, fs.path.value);
    if s.current.None? {
      ResumeNew(fs, d);
      ResumedOpens(fs, s, d, Open(p, 0));
    } else {
      var c := s.current.value;
      if c.ino == p {
        ResumeLive(fs, d, c);
        ResumedOpens(fs, s, d, c);
      } else {
        ReopenedSnoc(fs, d, c);
        assert forall k :: 0 <= k < |d + [c]| ==> (d + [c])[k].ino != p;
        ResumeNew(fs, d + [c]);
        ResumedOpens(fs, s, d + [c], Open(p, 0));
      }
    }
  }

  lemma ShapeExtends(fs: Fs, opens: seq<Open>, draining: nat, seen: nat)
    requires Consecutive(fs, opens, draining, seen) && fs.gens != [] && |fs.gens| <= seen + 1
    ensures seen < |fs.gens| ==> Consecutive(fs, opens + [Open(seen, 0)], |opens|, seen + 1)
    ensures seen < |fs.gens| ==> (opens + [Open(seen, 0)])[0] == if opens == [] then Open(seen, 0) else opens[0]
    ensures seen == |fs.gens| ==> |opens| > draining && Consecutive(fs, opens, |opens| - 1, seen)
  {
  }

  /** A tailer resumed from marks is where the marked one was, exactly unless the file it
      followed is away from the path and nothing has taken its place. */
  lemma ResumeKeepsIff(fs: Fs, s: State)
    requires Core(fs, s) && |fs.gens| <= s.seen + 1 && AllFound(fs, Opens(s))
    ensures Inv(fs, Resumed(fs, s)) <==> !Stranded(fs, s)
  {
    if fs.path.Some? {
      ResumeKeeps(fs, s);
    } else {
      ResumeAway(fs, s);
      OffsetsFit(fs, s);
      hide Resumed, Told, Opens, Disciplined, Len, Found, AllFound;
    }
  }

  lemma ResumeAway(fs: Fs, s: State)
    requires Core(fs, s) && AllFound(fs, Opens(s)) && fs.path.None?
    ensures Resumed(fs, s) == State(Opens(s), None, 0, s.seen, s.emitted) && Opens(Resumed(fs, s)) == Opens(s)
  {
    OffsetsFit(fs, s);
    hide Core, Reopened;
    ReopenedAway(fs, Opens(s));
  }

  lemma ResumeKeeps(fs: Fs, s: State)
    requires Core(fs, s) && |fs.gens| <= s.seen + 1 && AllFound(fs, Opens(s)) && fs.path.Some?
    ensures Inv(fs, Resumed(fs, s))
  {
    hide *;
    var r := Resumed(fs, s);
    CoreParts(fs, s);
    ResumeOpens(fs, s);
    ResumeCounts(fs, s);
    ShapeExtends(fs, Opens(s), |s.draining|, s.seen);
    InvWhole(fs, r, if Opens(s) == [] then 0 else Opens(s)[0].offset);
  }

  lemma ResumeCounts(fs: Fs, s: State)
    ensures var r := Resumed(fs, s);
            r.emitted == s.emitted && |Opens(r)| == |r.draining| + if r.current.Some? then 1 else 0
  {
    hide Resume;
  }

  lemma CoreParts(fs: Fs, s: State)
    requires Core(fs, s)
    ensures Disciplined(fs) && Consecutive(fs, Opens(s), |s.draining|, s.seen) && (fs.path.Some? ==> fs.gens != [])
    ensures |Opens(s)| <= s.seen <= |fs.gens|
    ensures Told(fs, s.seen - |Opens(s)|, if Opens(s) == [] then 0 else Opens(s)[0].offset, s.emitted)
  {
    hide Told, Opens;
  }

  lemma InvWhole(fs: Fs, s: State, at: nat)
    requires Disciplined(fs) && Consecutive(fs, Opens(s), |s.draining|, s.seen) && |fs.gens| <= s.seen + 1
    requires at == if Opens(s) == [] then 0 else Opens(s)[0].offset
    requires s.seen >= |Opens(s)| && Told(fs, s.seen - |Opens(s)|, at, s.emitted)
    ensures Inv(fs, s)
  {
    hide Told, Opens, Consecutive, Disciplined;
  }
}
