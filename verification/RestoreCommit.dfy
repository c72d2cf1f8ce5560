/** `commitRestore` as it runs: a file system changed step by step, proved against RestoreModel. */
module RestoreCommit {
  import opened RestoreModel
  import opened RestoreProofs
  import opened RestoreSuccess
  import opened RestoreExact
  import opened RestoreNames

  class FileSystem {
    const env: Env
    var files: Files
    var clock: nat

    constructor (env: Env, files: Files)
      ensures this.env == env && this.files == files && clock == 0
    {
      this.env := env;
      this.files := files;
      clock := 0;
    }

    ghost function Now(aside: seq<Aside>, placed: seq<Path>, failed: bool): Txn
      reads this
    {
      Txn(files, clock, aside, placed, failed)
    }

    /** One call to the operating system: time passes, and the environment decides. */
    method Ask(call: Call) returns (ok: bool)
      modifies this`clock
      ensures ok == env.ok(call, old(clock)) && clock == old(clock) + 1
    {
      ok := env.ok(call, clock);
      clock := clock + 1;
    }

    /** `uniqueSidecar`: create a fresh, empty file to move the file at p onto. */
    method UniqueSidecar(p: Path) returns (failed: bool, backup: Path)
      modifies this
      ensures backup == CopyOf(p, env.pick(p, old(files).Keys))
      ensures backup.text == p.text + ".restore-bak-" + env.pick(p, old(files).Keys)
      ensures failed <==> !env.ok(CreateTemp(p), old(clock)) || backup in old(files)
      ensures files == if failed then old(files) else old(files)[backup := []]
      ensures clock == old(clock) + 1
    {
      backup := CopyOf(p, env.pick(p, files.Keys));
      var ok := Ask(CreateTemp(p));
      failed := !ok || backup in files;
      if !failed {
        files := files[backup := []];
      }
    }

    /** The stat, the fresh name and the rename that commitRestore makes for a live file and
        moveSidecarsAside for a sidecar. */
    method MoveOneAside(p: Path) returns (failed: bool, moved: seq<Aside>)
      modifies this
      ensures forall aside: seq<Aside>, placed: seq<Path> ::
                Now(aside + moved, placed, failed) == MoveAside(env, old(Now(aside, placed, false)), p)
    {
      failed, moved := false, [];
      var seen := Ask(Stat(p));
      if seen && p in files {
        var backup;
        failed, backup := UniqueSidecar(p);
        if !failed {
          var ok := Ask(Rename(p, backup));
          if ok {
            files := (files - {p})[backup := files[p]];
            moved := [Aside(p, backup)];
          } else {
            failed := true;
          }
        }
      }
      assert forall aside: seq<Aside> :: aside + [] == aside;
    }

    /** `moveSidecarsAside`: what was moved is returned even on failure. */
    method MoveSidecarsAside(db: Path) returns (failed: bool, moved: seq<Aside>)
      modifies this
      ensures forall aside: seq<Aside>, placed: seq<Path> ::
                Now(aside + moved, placed, failed) == MoveSidecars(env, old(Now(aside, placed, false)), db)
    {
      ghost var files0, clock0 := files, clock;
      failed, moved := MoveOneAside(Wal(db));
      ghost var files1, clock1, moved1 := files, clock, moved;
      if !failed {
        var more;
        failed, more := MoveOneAside(Shm(db));
        moved := moved + more;
        assert forall aside: seq<Aside> :: aside + moved == (aside + moved1) + more;
      }
    }

    /** The body of commitRestore's loop: the two lists grow even when the entry fails. */
    method CommitEntry(s: Staged, aside: seq<Aside>, placed: seq<Path>)
      returns (failed: bool, movedAside: seq<Aside>, nowPlaced: seq<Path>)
      modifies this
      ensures Now(movedAside, nowPlaced, failed) == Entry(env, old(Now(aside, placed, false)), s)
    {
      hide MoveAside, MoveSidecars;
      movedAside, nowPlaced := aside, placed;
      ghost var x := Now(aside, placed, false);
      ghost var x1 := MakeDir(env, x, s.live);
      ghost var x2 := MoveAside(env, x1, s.live);
      ghost var x3 := Clear(env, x, s);
      var ok := Ask(Mkdir(s.live));
      failed := !ok;
      assert Now(movedAside, nowPlaced, failed) == x1;
      if failed {
        Stuck(env, x1, s.live);
        return;
      }
      var moved;
      failed, moved := MoveOneAside(s.live);
      movedAside := movedAside + moved;
      assert Now(movedAside, nowPlaced, failed) == x2;
      if failed {
        Stuck(env, x2, s.live);
        return;
      }
      if IsDb(s.live) {
        failed, moved := MoveSidecarsAside(s.live);
        movedAside := movedAside + moved;
      }
      assert Now(movedAside, nowPlaced, failed) == x3;
      if failed {
        return;
      }
      ok := Ask(Rename(s.temp, s.live));
      if ok && s.temp in files {
        files := (files - {s.temp})[s.live := files[s.temp]];
        nowPlaced := nowPlaced + [s.live];
      } else {
        failed := true;
      }
    }

    method RemovePlaced(placed: seq<Path>)
      modifies this
      ensures files == RemoveEach(env, old(files), old(clock), placed, false) && clock == old(clock) + |placed|
    {
      for i := 0 to |placed|
        invariant files == RemoveEach(env, old(files), old(clock), placed[..i], false) && clock == old(clock) + i
      {
        var ok := Ask(UndoRemove(placed[i]));
        if ok {
          files := files - {placed[i]};
        }
        assert placed[..i + 1][..i] == placed[..i];
      }
      assert placed[..|placed|] == placed;
    }

    method PutBack(aside: seq<Aside>)
      modifies this
      ensures files == RenameBack(env, old(files), old(clock), aside) && clock == old(clock) + |aside|
    {
      for i := 0 to |aside|
        invariant files == RenameBack(env, old(files), old(clock), aside[..i]) && clock == old(clock) + i
      {
        var m := aside[i];
        var ok := Ask(UndoRename(m.backup, m.live));
        if ok && m.backup in files {
          files := (files - {m.backup})[m.live := files[m.backup]];
        }
        assert aside[..i + 1][..i] == aside[..i];
      }
      assert aside[..|aside|] == aside;
    }

    /** The rollback closure: placed files go, moved-aside ones come back, errors are discarded. */
    method Undo(aside: seq<Aside>, placed: seq<Path>)
      modifies this
      ensures Outcome(files, clock, true) == Rollback(env, old(Now(aside, placed, true)))
    {
      RemovePlaced(placed);
      PutBack(aside);
    }

    /** The cleanup closure: the moved-aside copies are removed, errors discarded. */
    method Discard(aside: seq<Aside>)
      modifies this
      ensures forall placed: seq<Path> :: Outcome(files, clock, false) == Sweep(env, old(Now(aside, placed, false)))
    {
      ghost var files0, clock0 := files, clock;
      ghost var copies := Backups(aside);
      for i := 0 to |aside|
        invariant files == RemoveEach(env, files0, clock0, copies[..i], true) && clock == clock0 + i
      {
        var ok := Ask(SweepRemove(aside[i].backup));
        if ok {
          files := files - {aside[i].backup};
        }
        assert copies[..i + 1][..i] == copies[..i];
      }
      assert copies[..|aside|] == copies;
    }

    /** Swap every staged temp file into place, or put everything back. */
    method CommitRestore(staged: seq<Staged>) returns (failed: bool)
      modifies this
      ensures Outcome(files, clock, failed) == Commit(env, old(files), old(clock), staged)
      ensures WellStaged(old(files), staged) && DrawsApart(env, staged) && Ordered(staged) ==>
                && (failed && UndoWorks(env) && (HonestStat(env) || OnlyLastReplaces(old(files), staged)) ==>
                      Untouched(old(files), staged, files) && Unharmed(old(files), staged, files))
                && (!failed && SweepWorks(env) && (HonestStat(env) || Leftover(old(files), staged) == {}) ==>
                      Swapped(old(files), staged, files) && Exchanged(old(files), staged, files))
    {
      hide Entry, Rollback, Sweep, WellStaged, DrawsApart, Ordered, HonestStat, UndoWorks, SweepWorks, Untouched, Swapped,
        OnlyLastReplaces, Leftover, Unharmed, Exchanged;
      ghost var files0, clock0 := files, clock;
      ghost var start := Start(files0, clock0);
      var movedAside, placed := [], [];
      failed := false;
      var i := 0;
      while i < |staged| && !failed
        invariant 0 <= i <= |staged|
        invariant Now(movedAside, placed, failed) == Forward(env, start, staged[..i])
      {
        failed, movedAside, placed := CommitEntry(staged[i], movedAside, placed);
        i := i + 1;
        assert staged[..i][..i - 1] == staged[..i - 1];
      }
      if failed {
        FailedForward(env, start, staged, i);
        Undo(movedAside, placed);
      } else {
        assert staged[..i] == staged;
        Discard(movedAside);
      }
      assert Outcome(files, clock, failed) == Commit(env, files0, clock0, staged);
      if WellStaged(files0, staged) && DrawsApart(env, staged) && Ordered(staged) {
        TempsThere(files0, staged);
        if failed && UndoWorks(env) && (HonestStat(env) || OnlyLastReplaces(files0, staged)) {
          AllOrNothing(env, files0, clock0, staged);
          UntouchedIsUnharmed(files0, staged, files);
        }
        if !failed && SweepWorks(env) && (HonestStat(env) || Leftover(files0, staged) == {}) {
          SuccessSwaps(env, files0, clock0, staged);
          SwappedIsExchanged(files0, staged, files);
        }
      }
    }
  }

  lemma Stuck(env: Env, x: Txn, p: Path)
    requires x.failed
    ensures MoveAside(env, x, p) == x && MoveSidecars(env, x, p) == x
  {
  }
}
