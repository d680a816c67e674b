/** The checkpoint file (checkpoint.rs): durable or absent, never torn, and refused rather
    than guessed at when a newer agent wrote it. This is what lets module `Delivery` take a
    save as one step. */
module Progress {
  import opened Basics

  datatype FileMark = FileMark(dev: nat, ino: nat, offset: nat)

  datatype Checkpoint = Checkpoint(format: nat, files: seq<FileMark>, lastTick: Option<int>, nextSeq: int)

  /** A file's bytes: a checkpoint written out in full, or anything else. */
  datatype Bytes = Json(cp: Checkpoint) | Torn(part: string)

  datatype Loaded = Absent | Found(cp: Checkpoint) | Unreadable | Newer

  type Dir = map<string, Bytes>

  const FORMAT: nat := 1

  /** `load`, by an agent that knows formats up to `version`. */
  function Load(dir: Dir, path: string, version: nat): Loaded {
    if path !in dir then Absent
    else
      match dir[path]
      case Torn(_) => Unreadable
      case Json(cp) => if cp.format > version then Newer else Found(cp)
  }

  /** How far a save got before the process died: the temporary file created, partly
      written, written and synced, renamed. */
  datatype Reach = NotBegun | Created | Half(part: string) | Synced | Published

  /** What a save that got so far leaves on disk. */
  function Left(dir: Dir, path: string, tmp: string, cp: Checkpoint, reach: Reach): Dir {
    match reach
    case NotBegun => dir
    case Created => dir[tmp := Torn([])]
    case Half(part) => dir[tmp := Torn(part)]
    case Synced => dir[tmp := Json(cp)]
    case Published => (dir - {tmp})[path := Json(cp)]
  }

  class State {
    var dir: Dir

    constructor ()
      ensures dir == map[]
    {
      dir := map[];
    }

    /** `save`, cut short by a crash anywhere in it. */
    method Save(path: string, tmp: string, cp: Checkpoint, reach: Reach)
      requires path != tmp
      modifies this
      ensures dir == Left(old(dir), path, tmp, cp, reach)
    {
      if reach.NotBegun? {
        return;
      }
      dir := dir[tmp := Torn([])];
      if reach.Created? {
        return;
      }
      if reach.Half? {
        dir := dir[tmp := Torn(reach.part)];
        return;
      }
      dir := dir[tmp := Json(cp)];
      if reach.Synced? {
        return;
      }
      var bytes := dir[tmp];
      dir := dir - {tmp};
      dir := dir[path := bytes];
    }
  }

  // ---- Whole histories ----

  datatype Attempt = Attempt(cp: Checkpoint, reach: Reach)

  function After(path: string, tmp: string, attempts: seq<Attempt>): Dir {
    if attempts == [] then map[]
    else
      var a := attempts[|attempts| - 1];
      Left(After(path, tmp, attempts[..|attempts| - 1]), path, tmp, a.cp, a.reach)
  }

  /** The newest checkpoint whose save was completed. */
  function LastSaved(attempts: seq<Attempt>): Option<Checkpoint> {
    if attempts == [] then None
    else
      var a := attempts[|attempts| - 1];
      if a.reach.Published? then Some(a.cp) else LastSaved(attempts[..|attempts| - 1])
  }

  lemma {:induction false} PathHoldsLastSaved(path: string, tmp: string, attempts: seq<Attempt>)
    requires path != tmp
    ensures var dir := After(path, tmp, attempts);
            match LastSaved(attempts)
            case None => path !in dir
            case Some(cp) => path in dir && dir[path] == Json(cp)
  {
    if attempts != [] { PathHoldsLastSaved(path, tmp, attempts[..|attempts| - 1]); }
  }

  /** Through any number of saves, each cut short anywhere: what is loaded is the last
      checkpoint published in full, never a torn one; and it is refused exactly when a newer
      agent wrote it. */
  lemma {:induction false} DurableOrAbsent(path: string, tmp: string, attempts: seq<Attempt>, version: nat)
    requires path != tmp
    ensures Load(After(path, tmp, attempts), path, version)
            == match LastSaved(attempts)
               case None => Absent
               case Some(cp) => if cp.format > version then Newer else Found(cp)
  {
    PathHoldsLastSaved(path, tmp, attempts);
  }

  /** A rollback: an agent never resumes from a format it does not know, and its own
      checkpoints it always reads back. */
  lemma {:induction false} OwnFormatIsRead(path: string, tmp: string, attempts: seq<Attempt>)
    requires path != tmp && forall k :: 0 <= k < |attempts| ==> attempts[k].cp.format == FORMAT
    ensures var l := Load(After(path, tmp, attempts), path, FORMAT);
            if LastSaved(attempts).None? then l == Absent else l == Found(LastSaved(attempts).value)
  {
    DurableOrAbsent(path, tmp, attempts, FORMAT);
    LastSavedIsOne(attempts);
  }

  lemma {:induction false} LastSavedIsOne(attempts: seq<Attempt>)
    ensures LastSaved(attempts).Some? ==>
              exists k :: 0 <= k < |attempts|
                          && attempts[k].reach.Published? && attempts[k].cp == LastSaved(attempts).value
  {
    if attempts != [] && !attempts[|attempts| - 1].reach.Published? {
      LastSavedIsOne(attempts[..|attempts| - 1]);
    }
  }
}
