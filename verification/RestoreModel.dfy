/** The file-system half of `backup restore`: a disk is a map from path to bytes, every call
    may be refused by the environment, and `commitRestore` is a function of both. */
module RestoreModel {

  datatype Path = Path(text: string)
  type Bytes = seq<bv8>
  type Files = map<Path, Bytes>

  const BAK := ".restore-bak-"
  const WAL := "-wal"
  const SHM := "-shm"
  const DB := ".db"

  /** One archive member already written to a temp file beside its destination. */
  datatype Staged = Staged(live: Path, temp: Path)

  /** A file moved out of the way during the commit. */
  datatype Aside = Aside(live: Path, backup: Path)

  /** The system calls of a restore. Calls of the rollback, of the final sweep and of the removal
      of temps are told apart from the forward ones because the program discards their errors. */
  datatype Call =
    | Mkdir(of: Path)
    | Stat(of: Path)
    | CreateTemp(of: Path)
    | Rename(src: Path, dst: Path)
    | UndoRemove(of: Path)
    | UndoRename(src: Path, dst: Path)
    | SweepRemove(of: Path)
    | ReadMember
    | StageDir(of: Path)
    | StageTemp(of: Path)
    | StageWrite(of: Path)
    | DropTemp(of: Path)

  /** The environment: whether a call made at a moment succeeds, and which suffix CreateTemp
      draws for a base name when these paths are already taken. */
  datatype Env = Env(ok: (Call, nat) -> bool, pick: (Path, set<Path>) -> string)

  /** A commit in flight. */
  datatype Txn = Txn(files: Files, clock: nat, aside: seq<Aside>, placed: seq<Path>, failed: bool)

  datatype Outcome = Outcome(files: Files, clock: nat, failed: bool)

  predicate EndsWith(s: string, suffix: string) {
    |suffix| <= |s| && s[|s| - |suffix|..] == suffix
  }

  predicate IsDb(p: Path) {
    EndsWith(p.text, DB)
  }

  function Wal(p: Path): Path {
    Path(p.text + WAL)
  }

  function Shm(p: Path): Path {
    Path(p.text + SHM)
  }

  function CopyOf(p: Path, suffix: string): Path {
    Path(p.text + BAK + suffix)
  }

  /** Move the file at p aside if Stat sees one there; used for a live file and for a sidecar. */
  function MoveAside(env: Env, x: Txn, p: Path): Txn {
    if x.failed then x
    else if !(env.ok(Stat(p), x.clock) && p in x.files) then x.(clock := x.clock + 1)
    else
      var backup := CopyOf(p, env.pick(p, x.files.Keys));
      if !env.ok(CreateTemp(p), x.clock + 1) || backup in x.files then
        x.(clock := x.clock + 2, failed := true)
      else if !env.ok(Rename(p, backup), x.clock + 2) then
        x.(files := x.files[backup := []], clock := x.clock + 3, failed := true)
      else
        x.(files := (x.files - {p})[backup := x.files[p]], clock := x.clock + 3,
           aside := x.aside + [Aside(p, backup)])
  }

  function MoveSidecars(env: Env, x: Txn, db: Path): Txn {
    MoveAside(env, MoveAside(env, x, Wal(db)), Shm(db))
  }

  function MakeDir(env: Env, x: Txn, p: Path): Txn {
    if x.failed then x else x.(clock := x.clock + 1, failed := !env.ok(Mkdir(p), x.clock))
  }

  function Place(env: Env, x: Txn, s: Staged): Txn {
    if x.failed then x
    else if !(env.ok(Rename(s.temp, s.live), x.clock) && s.temp in x.files) then
      x.(clock := x.clock + 1, failed := true)
    else
      x.(files := (x.files - {s.temp})[s.live := x.files[s.temp]], clock := x.clock + 1,
         placed := x.placed + [s.live])
  }

  /** Everything that happens to one entry before its temp file is renamed into place. */
  function Clear(env: Env, x: Txn, s: Staged): Txn {
    var y := MoveAside(env, MakeDir(env, x, s.live), s.live);
    if IsDb(s.live) then MoveSidecars(env, y, s.live) else y
  }

  function Entry(env: Env, x: Txn, s: Staged): Txn {
    Place(env, Clear(env, x, s), s)
  }

  function Forward(env: Env, x: Txn, staged: seq<Staged>): Txn {
    if staged == [] then x
    else Entry(env, Forward(env, x, staged[..|staged| - 1]), staged[|staged| - 1])
  }

  /** `os.Remove` over a list, errors discarded. */
  function RemoveEach(env: Env, files: Files, clock: nat, ps: seq<Path>, sweep: bool): Files {
    if ps == [] then files
    else
      var rest := RemoveEach(env, files, clock, ps[..|ps| - 1], sweep);
      var p := ps[|ps| - 1];
      var call := if sweep then SweepRemove(p) else UndoRemove(p);
      if env.ok(call, clock + |ps| - 1) then rest - {p} else rest
  }

  /** `os.Rename` of every moved-aside file back to where it was, in the order they were moved,
      errors discarded. */
  function RenameBack(env: Env, files: Files, clock: nat, aside: seq<Aside>): Files {
    if aside == [] then files
    else
      var rest := RenameBack(env, files, clock, aside[..|aside| - 1]);
      var m := aside[|aside| - 1];
      if env.ok(UndoRename(m.backup, m.live), clock + |aside| - 1) && m.backup in rest
      then (rest - {m.backup})[m.live := rest[m.backup]]
      else rest
  }

  function Backups(aside: seq<Aside>): (bs: seq<Path>)
    ensures |bs| == |aside|
    ensures forall i :: 0 <= i < |aside| ==> bs[i] == aside[i].backup
  {
    seq(|aside|, i requires 0 <= i < |aside| => aside[i].backup)
  }

  function Rollback(env: Env, x: Txn): Outcome {
    var files := RemoveEach(env, x.files, x.clock, x.placed, false);
    Outcome(RenameBack(env, files, x.clock + |x.placed|, x.aside),
            x.clock + |x.placed| + |x.aside|, true)
  }

  function Sweep(env: Env, x: Txn): Outcome {
    Outcome(RemoveEach(env, x.files, x.clock, Backups(x.aside), true), x.clock + |x.aside|, false)
  }

  function Start(files: Files, clock: nat): Txn {
    Txn(files, clock, [], [], false)
  }

  function Commit(env: Env, files: Files, clock: nat, staged: seq<Staged>): Outcome {
    var x := Forward(env, Start(files, clock), staged);
    if x.failed then Rollback(env, x) else Sweep(env, x)
  }
}
