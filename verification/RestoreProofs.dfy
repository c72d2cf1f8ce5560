/** What a restore commit guarantees: all of the staged set or none of it, and exactly when. */
module RestoreProofs {
  import opened RestoreModel

  // ---------------------------------------------------------------------------------------
  // Vocabulary
  // ---------------------------------------------------------------------------------------

  ghost function Lives(staged: seq<Staged>): set<Path> {
    set s | s in staged :: s.live
  }

  ghost function Temps(staged: seq<Staged>): set<Path> {
    set s | s in staged :: s.temp
  }

  ghost function Sidecars(staged: seq<Staged>): set<Path> {
    (set s | s in staged && IsDb(s.live) :: Wal(s.live)) + (set s | s in staged && IsDb(s.live) :: Shm(s.live))
  }

  /** Every path the commit may move aside or overwrite. */
  ghost function Touched(staged: seq<Staged>): set<Path> {
    Lives(staged) + Sidecars(staged)
  }

  /** p has the shape of a moved-aside copy of a touched path. */
  ghost predicate CopyShaped(touched: set<Path>, p: Path) {
    exists q :: q in touched && q.text + BAK <= p.text
  }

  /** p is a free name CreateTemp may draw for the copy of a touched path. */
  ghost predicate Drawn(env: Env, touched: set<Path>, p: Path) {
    exists q: Path, taken: set<Path> :: q in touched && p == CopyOf(q, env.pick(q, taken)) && p !in taken
  }

  ghost predicate Same(before: Files, after: Files, p: Path) {
    (p in before <==> p in after) && (p in before ==> before[p] == after[p])
  }

  /** What staging leaves behind: distinct, existing temp files, none of them a path of the commit. */
  ghost predicate WellStaged(before: Files, staged: seq<Staged>) {
    && (forall s :: s in staged ==> s.temp in before)
    && (forall i, j :: 0 <= i < j < |staged| ==> staged[i].temp != staged[j].temp)
    && Temps(staged) !! Touched(staged)
  }

  /** No name drawn for a copy is a path of the commit or one of its temps. */
  ghost predicate DrawsApart(env: Env, staged: seq<Staged>) {
    forall p :: p in Touched(staged) + Temps(staged) ==> !Drawn(env, Touched(staged), p)
  }

  /** Restoring to the later path takes aside what was just put at the earlier one. */
  predicate Clobbers(later: Path, earlier: Path) {
    later == earlier || (IsDb(later) && (earlier == Wal(later) || earlier == Shm(later)))
  }

  predicate OrderedUpTo(staged: seq<Staged>, n: nat)
    requires n <= |staged|
  {
    forall i, j :: 0 <= i < j < n ==> !Clobbers(staged[j].live, staged[i].live)
  }

  predicate Ordered(staged: seq<Staged>) {
    OrderedUpTo(staged, |staged|)
  }

  ghost predicate HonestStat(env: Env) {
    forall p: Path, t: nat :: env.ok(Stat(p), t)
  }

  ghost predicate UndoWorks(env: Env) {
    && (forall p: Path, t: nat :: env.ok(UndoRemove(p), t))
    && (forall p: Path, q: Path, t: nat :: env.ok(UndoRename(p, q), t))
  }

  ghost predicate SweepWorks(env: Env) {
    forall p: Path, t: nat :: env.ok(SweepRemove(p), t)
  }

  /** Nothing has changed but that new files in the shape of a moved-aside copy may be there, and
      staged temps gone. */
  ghost predicate Untouched(before: Files, staged: seq<Staged>, after: Files) {
    && (forall p :: p !in Temps(staged) && (p in before || p in Touched(staged) || !CopyShaped(Touched(staged), p)) ==>
          Same(before, after, p))
    && (forall p :: p in Temps(staged) && p in after && p in before ==> after[p] == before[p])
  }

  /** The staged set is live, with no temp, stale sidecar or moved-aside copy left. */
  ghost predicate Swapped(before: Files, staged: seq<Staged>, after: Files) {
    && (forall s :: s in staged ==> s.temp in before && s.live in after && after[s.live] == before[s.temp])
    && (forall p :: p in Temps(staged) ==> p !in after)
    && (forall p :: p in Sidecars(staged) && p !in Lives(staged) ==> p !in after)
    && (forall p :: p !in Temps(staged) && p !in Touched(staged) ==> Same(before, after, p))
  }

  // ---------------------------------------------------------------------------------------
  // The invariant of a commit in flight. The lemmas see the touched paths as a plain set.
  // ---------------------------------------------------------------------------------------

  ghost predicate Names(env: Env, before: Files, staged: seq<Staged>, touched: set<Path>) {
    && (forall s :: s in staged ==> s.temp in before && s.live in touched && s.temp !in touched)
    && (forall i, j :: 0 <= i < j < |staged| ==> staged[i].temp != staged[j].temp)
    && (forall p :: p in touched ==> !Drawn(env, touched, p))
    && (forall s :: s in staged ==> !Drawn(env, touched, s.temp))
  }

  ghost predicate SidecarNames(s: Staged, touched: set<Path>) {
    IsDb(s.live) ==> Wal(s.live) in touched && Shm(s.live) in touched
  }

  ghost function Homes(aside: seq<Aside>): set<Path> {
    set m | m in aside :: m.live
  }

  ghost function Copies(aside: seq<Aside>): set<Path> {
    set m | m in aside :: m.backup
  }

  ghost predicate AsideOk(env: Env, before: Files, touched: set<Path>, x: Txn) {
    && (forall m :: m in x.aside ==>
          && m.live in before && m.live in touched
          && Drawn(env, touched, m.backup) && m.backup !in before
          && m.backup in x.files && x.files[m.backup] == before[m.live])
    && (forall i, j :: 0 <= i < j < |x.aside| ==>
          x.aside[i].live != x.aside[j].live && x.aside[i].backup != x.aside[j].backup)
  }

  ghost predicate PlacedOk(before: Files, staged: seq<Staged>, x: Txn) {
    && |x.placed| <= |staged|
    && (forall i :: 0 <= i < |x.placed| ==>
          && x.placed[i] == staged[i].live
          && staged[i].temp in before && staged[i].temp !in x.files
          && staged[i].live in x.files && x.files[staged[i].live] == before[staged[i].temp])
  }

  /** Whatever was overwritten so far is kept in a copy. */
  ghost predicate Saved(before: Files, staged: seq<Staged>, x: Txn)
    requires |x.placed| <= |staged|
  {
    forall i :: 0 <= i < |x.placed| && staged[i].live in before ==> staged[i].live in Homes(x.aside)
  }

  /** p plays no part in what the commit has done so far. */
  ghost predicate Bystander(staged: seq<Staged>, x: Txn, p: Path)
    requires |x.placed| <= |staged|
  {
    && p !in Homes(x.aside) && p !in Copies(x.aside) && p !in x.placed
    && (forall i :: 0 <= i < |x.placed| ==> staged[i].temp != p)
  }

  ghost predicate RestOk(env: Env, before: Files, staged: seq<Staged>, touched: set<Path>, x: Txn) {
    && |x.placed| <= |staged|
    && (forall p :: p in Homes(x.aside) && p !in x.placed ==> p !in x.files)
    && (forall p :: Bystander(staged, x, p) ==>
          && (p in before ==> p in x.files && x.files[p] == before[p])
          && (p in x.files && p !in before ==> x.failed && Drawn(env, touched, p)))
  }

  ghost predicate Tracks(env: Env, before: Files, staged: seq<Staged>, touched: set<Path>, x: Txn) {
    AsideOk(env, before, touched, x) && PlacedOk(before, staged, x) && RestOk(env, before, staged, touched, x)
  }

  /** A touched path that is on disk and was not just placed still holds its original bytes. */
  lemma StillOriginal(env: Env, before: Files, staged: seq<Staged>, touched: set<Path>, x: Txn, p: Path)
    requires Names(env, before, staged, touched) && Tracks(env, before, staged, touched, x)
    requires p in touched && p !in x.placed && p in x.files
    ensures p in before && x.files[p] == before[p]
    ensures p !in Homes(x.aside) && p !in Copies(x.aside)
  {
    assert !Drawn(env, touched, p);
    forall m | m in x.aside ensures m.backup != p {}
    assert Bystander(staged, x, p);
  }

  /** A name CreateTemp hands out is nobody else's. */
  lemma FreshCopy(env: Env, before: Files, staged: seq<Staged>, touched: set<Path>, x: Txn, p: Path, backup: Path)
    requires Names(env, before, staged, touched) && Tracks(env, before, staged, touched, x)
    requires p in touched && Drawn(env, touched, backup) && backup !in x.files
    ensures Drawn(env, touched, backup) && backup !in touched
    ensures forall s :: s in staged ==> s.temp != backup
    ensures backup !in Homes(x.aside) && backup !in Copies(x.aside) && backup !in x.placed && backup !in before
  {
    assert Drawn(env, touched, backup);
    forall m | m in x.aside ensures m.live != backup && m.backup != backup {}
    assert backup !in x.placed by {
      forall i | 0 <= i < |x.placed| ensures x.placed[i] != backup { assert staged[i] in staged; }
    }
    assert Bystander(staged, x, backup);
  }

  lemma MovedKeepsAside(env: Env, before: Files, touched: set<Path>, x: Txn, p: Path, backup: Path, y: Txn)
    requires AsideOk(env, before, touched, x)
    requires p in touched && p in x.files && p in before && x.files[p] == before[p]
    requires Drawn(env, touched, backup) && backup !in x.files && backup !in before
    requires p !in Homes(x.aside) && p !in Copies(x.aside)
    requires y.files == (x.files - {p})[backup := x.files[p]] && y.aside == x.aside + [Aside(p, backup)]
    ensures AsideOk(env, before, touched, y)
    ensures Homes(y.aside) == Homes(x.aside) + {p} && Copies(y.aside) == Copies(x.aside) + {backup}
  {
    assert Aside(p, backup) in y.aside;
    forall m | m in x.aside ensures m.live != p && m.backup != backup && m.backup != p && m in y.aside {
      assert m.live in Homes(x.aside) && m.backup in Copies(x.aside);
    }
  }

  lemma MovedKeepsPlaced(before: Files, staged: seq<Staged>, x: Txn, p: Path, backup: Path, y: Txn)
    requires PlacedOk(before, staged, x)
    requires p in x.files && p !in x.placed && backup !in x.files && forall s :: s in staged ==> s.temp != backup
    requires y.files == (x.files - {p})[backup := x.files[p]] && y.placed == x.placed
    requires Homes(x.aside) <= Homes(y.aside)
    ensures PlacedOk(before, staged, y)
  {
    forall i | 0 <= i < |x.placed|
      ensures staged[i].temp !in y.files && staged[i].live in y.files && y.files[staged[i].live] == x.files[staged[i].live]
    {
      assert staged[i].live in x.placed && staged[i] in staged;
    }
  }

  lemma MovedKeepsRest(env: Env, before: Files, staged: seq<Staged>, touched: set<Path>, x: Txn, p: Path, backup: Path, y: Txn)
    requires RestOk(env, before, staged, touched, x)
    requires p in x.files && p !in x.placed && backup !in x.files && backup != p
    requires y.files == (x.files - {p})[backup := x.files[p]] && y.placed == x.placed && y.failed == x.failed
    requires Homes(y.aside) == Homes(x.aside) + {p} && Copies(y.aside) == Copies(x.aside) + {backup}
    requires backup !in Homes(x.aside)
    ensures RestOk(env, before, staged, touched, y)
  {
    forall q | Bystander(staged, y, q) ensures Bystander(staged, x, q) {}
  }

  lemma StrayKeeps(env: Env, before: Files, staged: seq<Staged>, touched: set<Path>, x: Txn, backup: Path, y: Txn)
    requires Names(env, before, staged, touched) && Tracks(env, before, staged, touched, x)
    requires backup !in x.files && Drawn(env, touched, backup) && backup !in touched
    requires forall s :: s in staged ==> s.temp != backup
    requires backup !in before && backup !in Homes(x.aside)
    requires y == x.(files := x.files[backup := []], clock := y.clock, failed := true)
    ensures Tracks(env, before, staged, touched, y)
  {
    forall i | 0 <= i < |x.placed| ensures staged[i].temp != backup && staged[i].live != backup {
      assert staged[i] in staged;
    }
    forall q | Bystander(staged, y, q) ensures Bystander(staged, x, q) {}
  }

  lemma IdleKeeps(env: Env, before: Files, staged: seq<Staged>, touched: set<Path>, x: Txn, y: Txn)
    requires Tracks(env, before, staged, touched, x)
    requires y.files == x.files && y.aside == x.aside && y.placed == x.placed && (x.failed ==> y.failed)
    ensures Tracks(env, before, staged, touched, y)
  {
    assert forall q :: Bystander(staged, y, q) ==> Bystander(staged, x, q);
  }

  /** Moving a touched path aside keeps the invariant, whichever of its calls is refused; if Stat
      misses nothing, the path is free after a success. */
  lemma MoveAsideKeeps(env: Env, before: Files, staged: seq<Staged>, touched: set<Path>, x: Txn, p: Path)
    requires Names(env, before, staged, touched)
    requires Tracks(env, before, staged, touched, x)
    requires p in touched && p !in x.placed
    ensures var y := MoveAside(env, x, p);
            && Tracks(env, before, staged, touched, y) && y.placed == x.placed && (x.failed ==> y.failed)
            && Homes(x.aside) <= Homes(y.aside)
            && (!y.failed && HonestStat(env) ==> p !in y.files)
            && (!y.failed ==> forall q :: q in y.files && q in touched ==> q in x.files)
  {
    hide AsideOk, PlacedOk, RestOk, CopyOf, Drawn, Names;
    var y := MoveAside(env, x, p);
    var backup := CopyOf(p, env.pick(p, x.files.Keys));
    if x.failed || !env.ok(Stat(p), x.clock) || p !in x.files || !env.ok(CreateTemp(p), x.clock + 1) || backup in x.files {
      IdleKeeps(env, before, staged, touched, x, y);
    } else {
      CopyIsDrawn(env, touched, p, x.files.Keys);
      StillOriginal(env, before, staged, touched, x, p);
      FreshCopy(env, before, staged, touched, x, p, backup);
      if env.ok(Rename(p, backup), x.clock + 2) {
        MovedKeepsAside(env, before, touched, x, p, backup, y);
        MovedKeepsPlaced(before, staged, x, p, backup, y);
        MovedKeepsRest(env, before, staged, touched, x, p, backup, y);
      } else {
        StrayKeeps(env, before, staged, touched, x, backup, y);
      }
    }
  }

  lemma CopyIsDrawn(env: Env, touched: set<Path>, p: Path, taken: set<Path>)
    requires p in touched && CopyOf(p, env.pick(p, taken)) !in taken
    ensures Drawn(env, touched, CopyOf(p, env.pick(p, taken)))
  {
  }

  /** A drawn name has the shape of a copy. */
  lemma DrawnIsShaped(env: Env, touched: set<Path>, p: Path)
    requires Drawn(env, touched, p)
    ensures CopyShaped(touched, p)
  {
    var q: Path, taken: set<Path> :| q in touched && p == CopyOf(q, env.pick(q, taken));
    assert q.text + BAK <= p.text;
  }

  /** The next entry's live path and sidecars are not among the files already placed. */
  predicate WayUnplaced(x: Txn, s: Staged) {
    s.live !in x.placed && (IsDb(s.live) ==> Wal(s.live) !in x.placed && Shm(s.live) !in x.placed)
  }

  lemma ClearKeeps(env: Env, before: Files, staged: seq<Staged>, touched: set<Path>, x: Txn, s: Staged)
    requires Names(env, before, staged, touched)
    requires Tracks(env, before, staged, touched, x)
    requires s in staged && WayUnplaced(x, s) && s.live in touched && SidecarNames(s, touched)
    ensures var y := Clear(env, x, s);
            && Tracks(env, before, staged, touched, y) && y.placed == x.placed
            && Homes(x.aside) <= Homes(y.aside)
            && (!y.failed && HonestStat(env) ==> s.live !in y.files)
  {
    hide AsideOk, PlacedOk, RestOk, MoveAside, Names, Wal, Shm, HonestStat, Homes;
    var x1 := MakeDir(env, x, s.live);
    IdleKeeps(env, before, staged, touched, x, x1);
    assert Homes(x1.aside) == Homes(x.aside);
    MoveAsideKeeps(env, before, staged, touched, x1, s.live);
    var x2 := MoveAside(env, x1, s.live);
    if IsDb(s.live) {
      MoveAsideKeeps(env, before, staged, touched, x2, Wal(s.live));
      var x3 := MoveAside(env, x2, Wal(s.live));
      MoveAsideKeeps(env, before, staged, touched, x3, Shm(s.live));
    }
  }

  /** The temp of an entry not yet placed still holds the staged bytes. */
  lemma TempReady(env: Env, before: Files, staged: seq<Staged>, touched: set<Path>, x: Txn, k: nat)
    requires Names(env, before, staged, touched) && Tracks(env, before, staged, touched, x)
    requires |x.placed| <= k < |staged|
    ensures staged[k].temp in x.files && x.files[staged[k].temp] == before[staged[k].temp]
    ensures Bystander(staged, x, staged[k].temp)
  {
    var t := staged[k].temp;
    assert staged[k] in staged && t !in touched;
    forall m | m in x.aside ensures m.live != t && m.backup != t {
      assert !Drawn(env, touched, t);
    }
    forall i | 0 <= i < |x.placed| ensures x.placed[i] != t && staged[i].temp != t {
      assert staged[i] in staged;
    }
  }

  lemma PlaceKeeps(env: Env, before: Files, staged: seq<Staged>, touched: set<Path>, x: Txn)
    requires Names(env, before, staged, touched) && Tracks(env, before, staged, touched, x)
    requires !x.failed && |x.placed| < |staged| && staged[|x.placed|].live !in x.placed
    ensures var k := |x.placed|; var y := Place(env, x, staged[k]);
            && Tracks(env, before, staged, touched, y) && y.aside == x.aside
            && (y.failed <==> !env.ok(Rename(staged[k].temp, staged[k].live), x.clock))
            && y.placed == if y.failed then x.placed else x.placed + [staged[k].live]
  {
    var k := |x.placed|;
    var s := staged[k];
    assert s in staged;
    TempReady(env, before, staged, touched, x, k);
    var y := Place(env, x, s);
    if !y.failed {
      PlacedStays(env, before, staged, touched, x, s, y);
      forall q | Bystander(staged, y, q) ensures Bystander(staged, x, q) && q != s.live && q != s.temp {
        assert y.placed[k] == s.live;
      }
      forall m | m in x.aside ensures m.backup != s.live && m.backup != s.temp {
        assert !Drawn(env, touched, s.live) && !Drawn(env, touched, s.temp);
      }
    } else {
      IdleKeeps(env, before, staged, touched, x, y);
    }
  }

  /** A free live path that held a file before holds it in a copy now. */
  lemma MovedIfThere(env: Env, before: Files, staged: seq<Staged>, touched: set<Path>, x: Txn, s: Staged)
    requires Names(env, before, staged, touched) && Tracks(env, before, staged, touched, x)
    requires s in staged && s.live !in x.files && s.live !in x.placed
    ensures s.live in before ==> s.live in Homes(x.aside)
  {
    forall m | m in x.aside ensures m.backup != s.live { assert !Drawn(env, touched, s.live); }
    forall i | 0 <= i < |x.placed| ensures staged[i].temp != s.live { assert staged[i] in staged; }
    assert s.live !in Homes(x.aside) ==> Bystander(staged, x, s.live);
  }

  lemma PlacedStays(env: Env, before: Files, staged: seq<Staged>, touched: set<Path>, x: Txn, s: Staged, y: Txn)
    requires Names(env, before, staged, touched) && PlacedOk(before, staged, x)
    requires |x.placed| < |staged| && s == staged[|x.placed|]
    requires s.temp in x.files && x.files[s.temp] == before[s.temp]
    requires s.live !in x.placed
    requires y.files == (x.files - {s.temp})[s.live := x.files[s.temp]]
    requires y.placed == x.placed + [s.live] && y.aside == x.aside
    ensures PlacedOk(before, staged, y)
  {
    assert s in staged;
    forall i | 0 <= i < |x.placed|
      ensures staged[i].temp != s.temp && staged[i].live != s.temp && staged[i].temp != s.live && staged[i].live != s.live
    {
      assert staged[i] in staged && staged[i].live in x.placed;
    }
  }

  lemma EntryKeeps(env: Env, before: Files, staged: seq<Staged>, touched: set<Path>, x: Txn)
    requires Names(env, before, staged, touched)
    requires Tracks(env, before, staged, touched, x) && !x.failed
    requires |x.placed| < |staged| && WayUnplaced(x, staged[|x.placed|]) && SidecarNames(staged[|x.placed|], touched)
    ensures var k := |x.placed|; var y := Entry(env, x, staged[k]);
            && Tracks(env, before, staged, touched, y) && |y.placed| == (if y.failed then k else k + 1)
            && (HonestStat(env) && Saved(before, staged, x) ==> Saved(before, staged, y))
  {
    hide Tracks, Names, SidecarNames, HonestStat;
    var s := staged[|x.placed|];
    assert s in staged && s.live in touched by { LiveIsTouched(env, before, staged, touched, s); }
    ClearKeeps(env, before, staged, touched, x, s);
    var y := Clear(env, x, s);
    if !y.failed {
      PlaceKeeps(env, before, staged, touched, y);
      if HonestStat(env) {
        MovedIfThere(env, before, staged, touched, y, s);
      }
    }
  }

  lemma LiveIsTouched(env: Env, before: Files, staged: seq<Staged>, touched: set<Path>, s: Staged)
    requires Names(env, before, staged, touched) && s in staged
    ensures s.live in touched && s.temp !in touched
  {
  }

  /** Ordered entries never find their own paths among those already placed. */
  lemma OrderedIsClear(before: Files, staged: seq<Staged>, x: Txn)
    requires PlacedOk(before, staged, x) && |x.placed| < |staged| && OrderedUpTo(staged, |x.placed| + 1)
    ensures WayUnplaced(x, staged[|x.placed|])
  {
    var s := staged[|x.placed|];
    forall i | 0 <= i < |x.placed| ensures !Clobbers(s.live, staged[i].live) && x.placed[i] == staged[i].live {}
  }

  /** The invariant holds of every prefix of a commit, failed or not, as long as the prefix is
      ordered; and if Stat misses nothing, every file overwritten is kept in a copy. */
  lemma {:induction false} ForwardKeeps(env: Env, before: Files, clock: nat, staged: seq<Staged>,
                                        touched: set<Path>, n: nat)
    requires Names(env, before, staged, touched)
    requires forall s :: s in staged ==> SidecarNames(s, touched)
    requires n <= |staged| && OrderedUpTo(staged, n)
    ensures var x := Forward(env, Start(before, clock), staged[..n]);
            && Tracks(env, before, staged, touched, x)
            && (if x.failed then |x.placed| < n else |x.placed| == n)
            && (HonestStat(env) ==> Saved(before, staged, x))
  {
    hide Entry, Names, AsideOk, RestOk, PlacedOk, SidecarNames, Saved, HonestStat;
    if n == 0 {
      StartTracks(env, before, staged, touched, clock);
    } else {
      assert staged[..n][..n - 1] == staged[..n - 1];
      ForwardKeeps(env, before, clock, staged, touched, n - 1);
      var x := Forward(env, Start(before, clock), staged[..n - 1]);
      if !x.failed {
        OrderedIsClear(before, staged, x);
        assert staged[n - 1] in staged;
        EntryKeeps(env, before, staged, touched, x);
      } else {
        FailedStays(env, x, staged[n - 1]);
      }
    }
  }

  lemma FailedStays(env: Env, x: Txn, s: Staged)
    requires x.failed
    ensures Entry(env, x, s) == x
  {
  }

  lemma StartTracks(env: Env, before: Files, staged: seq<Staged>, touched: set<Path>, clock: nat)
    ensures Tracks(env, before, staged, touched, Start(before, clock)) && Saved(before, staged, Start(before, clock))
  {
  }

  // ---------------------------------------------------------------------------------------
  // Rolling back and sweeping
  // ---------------------------------------------------------------------------------------

  lemma {:induction false} RemoveEachRemoves(env: Env, files: Files, clock: nat, ps: seq<Path>, sweep: bool)
    requires if sweep then SweepWorks(env) else UndoWorks(env)
    ensures RemoveEach(env, files, clock, ps, sweep) == files - (set p | p in ps)
  {
    if ps != [] {
      var n := |ps| - 1;
      RemoveEachRemoves(env, files, clock, ps[..n], sweep);
      assert (set p | p in ps) == (set p | p in ps[..n]) + {ps[n]};
    }
  }

  ghost predicate LastCopy(aside: seq<Aside>, i: int, p: Path) {
    0 <= i < |aside| && aside[i].live == p && forall j :: i < j < |aside| ==> aside[j].live != p
  }

  ghost predicate BackAt(files: Files, aside: seq<Aside>, after: Files, p: Path)
    requires forall m :: m in aside ==> m.backup in files
  {
    && (forall i :: LastCopy(aside, i, p) ==> p in after && after[p] == files[aside[i].backup])
    && (p !in Homes(aside) && p !in Copies(aside) ==> Same(files, after, p))
    && (p in Copies(aside) ==> p !in after)
  }

  lemma BackStep(files: Files, rest: seq<Aside>, m: Aside, mid: Files, p: Path)
    requires forall e :: e in rest ==> e.backup in files
    requires m.backup in files && m.backup != m.live
    requires m.backup !in Homes(rest) && m.backup !in Copies(rest) && m.live !in Copies(rest)
    requires BackAt(files, rest, mid, p) && BackAt(files, rest, mid, m.backup)
    ensures m.backup in mid && BackAt(files, rest + [m], (mid - {m.backup})[m.live := mid[m.backup]], p)
  {
    var after := (mid - {m.backup})[m.live := mid[m.backup]];
    OneMore(rest, m);
    assert m.backup in mid && mid[m.backup] == files[m.backup];
    forall i | LastCopy(rest + [m], i, p) ensures p in after && after[p] == files[(rest + [m])[i].backup] {
      if i < |rest| {
        LastBefore(rest, m, i, p);
        CopyListed(rest, i);
      } else {
        hide Homes, Copies;
      }
    }
    hide LastCopy, Homes, Copies;
  }

  lemma OneMore(rest: seq<Aside>, m: Aside)
    ensures Homes(rest + [m]) == Homes(rest) + {m.live} && Copies(rest + [m]) == Copies(rest) + {m.backup}
  {
    assert forall e :: e in rest + [m] <==> e in rest || e == m;
  }

  lemma LastBefore(rest: seq<Aside>, m: Aside, i: nat, p: Path)
    requires i < |rest| && LastCopy(rest + [m], i, p)
    ensures LastCopy(rest, i, p) && m.live != p && (rest + [m])[i] == rest[i]
  {
    assert (rest + [m])[|rest|] == m;
    forall j | i <= j < |rest| ensures (rest + [m])[j] == rest[j] {}
  }

  lemma CopyListed(aside: seq<Aside>, i: nat)
    requires i < |aside|
    ensures aside[i].backup in Copies(aside) && aside[i].live in Homes(aside)
  {
    assert aside[i] in aside;
  }

  /** The copies exist, are distinct, and none is the home of another. */
  ghost predicate Separate(files: Files, aside: seq<Aside>) {
    && (forall i, j :: 0 <= i < j < |aside| ==> aside[i].backup != aside[j].backup)
    && (forall m :: m in aside ==> m.backup in files && m.backup !in Homes(aside))
  }

  lemma SeparatePrefix(files: Files, rest: seq<Aside>, m: Aside)
    requires Separate(files, rest + [m])
    ensures Separate(files, rest)
    ensures m.backup in files && m.backup != m.live
    ensures m.backup !in Homes(rest) && m.backup !in Copies(rest) && m.live !in Copies(rest)
  {
    var aside := rest + [m];
    assert Homes(aside) == Homes(rest) + {m.live};
    assert aside[|rest|] == m;
    forall e | e in rest ensures e in aside && e.backup != m.backup && e.backup !in Homes(rest) {
      var k :| 0 <= k < |rest| && rest[k] == e;
      assert aside[k] == e && aside[k].backup != aside[|rest|].backup;
    }
    forall i, j | 0 <= i < j < |rest| ensures rest[i].backup != rest[j].backup {
      assert aside[i].backup != aside[j].backup;
    }
  }

  /** The last copy taken of a path is what the rollback leaves there; a path that is neither
      a home nor a copy is left alone; no copy is left. */
  lemma {:induction false} RenameBackLast(env: Env, files: Files, clock: nat, aside: seq<Aside>, p: Path)
    requires UndoWorks(env) && Separate(files, aside)
    ensures BackAt(files, aside, RenameBack(env, files, clock, aside), p)
  {
    hide Separate;
    if aside == [] {
      hide UndoWorks;
    } else {
      var rest := aside[..|aside| - 1];
      var m := aside[|aside| - 1];
      assert rest + [m] == aside;
      SeparatePrefix(files, rest, m);
      RenameBackLast(env, files, clock, rest, m.backup);
      RenameBackLast(env, files, clock, rest, p);
      hide BackAt, Homes, Copies;
      BackStep(files, rest, m, RenameBack(env, files, clock, rest), p);
    }
  }

  lemma TouchedNames(env: Env, before: Files, staged: seq<Staged>)
    requires WellStaged(before, staged) && DrawsApart(env, staged)
    ensures Names(env, before, staged, Touched(staged))
    ensures forall s :: s in staged ==> SidecarNames(s, Touched(staged))
  {
    hide Drawn;
    forall s | s in staged
      ensures s.live in Touched(staged) && s.temp in Temps(staged) && SidecarNames(s, Touched(staged))
    {
      assert s.live in Lives(staged) && s.temp in Temps(staged);
    }
  }

  lemma OwnerOf(staged: seq<Staged>, p: Path) returns (s: Staged)
    requires p in Temps(staged)
    ensures s in staged && s.temp == p
  {
    s :| s in staged && s.temp == p;
  }

  lemma NotATemp(staged: seq<Staged>, p: Path)
    requires p !in Temps(staged)
    ensures forall s :: s in staged ==> s.temp != p
  {
  }

  lemma CopiesApart(env: Env, before: Files, staged: seq<Staged>, touched: set<Path>, x: Txn)
    requires Names(env, before, staged, touched) && Tracks(env, before, staged, touched, x)
    ensures Separate(x.files - (set q | q in x.placed), x.aside)
    ensures forall m :: m in x.aside ==> m.backup !in before && Drawn(env, touched, m.backup)
  {
    forall m | m in x.aside ensures m.backup !in x.placed && m.backup !in Homes(x.aside) && Drawn(env, touched, m.backup) {
      forall i | 0 <= i < |x.placed| ensures x.placed[i] != m.backup { assert staged[i] in staged; }
    }
  }

  /** Whatever was placed is gone, and every path holds its last copy if one was taken. */
  lemma RollbackBackAt(env: Env, x: Txn, p: Path)
    requires UndoWorks(env) && Separate(x.files - (set q | q in x.placed), x.aside)
    ensures BackAt(x.files - (set q | q in x.placed), x.aside, Rollback(env, x).files, p)
  {
    hide BackAt, RenameBack, RemoveEach, UndoWorks;
    RemoveEachRemoves(env, x.files, x.clock, x.placed, false);
    RenameBackLast(env, x.files - (set q | q in x.placed), x.clock + |x.placed|, x.aside, p);
  }

  lemma RollbackFacts(env: Env, before: Files, staged: seq<Staged>, touched: set<Path>, x: Txn, p: Path)
    requires Names(env, before, staged, touched) && Tracks(env, before, staged, touched, x) && UndoWorks(env)
    ensures var mid := x.files - (set q | q in x.placed);
            Separate(mid, x.aside) && BackAt(mid, x.aside, Rollback(env, x).files, p)
  {
    hide BackAt, Tracks, Names, Separate, UndoWorks, Rollback;
    CopiesApart(env, before, staged, touched, x);
    RollbackBackAt(env, x, p);
  }

  lemma RollbackAt(env: Env, before: Files, staged: seq<Staged>, touched: set<Path>, x: Txn, p: Path)
    requires Names(env, before, staged, touched) && Tracks(env, before, staged, touched, x) && UndoWorks(env)
    requires Saved(before, staged, x) && (forall s :: s in staged ==> s.temp != p) && (p in before || !Drawn(env, touched, p))
    ensures Same(before, Rollback(env, x).files, p)
  {
    RollbackFacts(env, before, staged, touched, x, p);
    CopiesApart(env, before, staged, touched, x);
    var after := Rollback(env, x).files;
    hide Rollback, Names, Drawn;
    if p in Homes(x.aside) {
      var i :| 0 <= i < |x.aside| && x.aside[i].live == p;
      assert LastCopy(x.aside, i, p);
      assert x.aside[i] in x.aside;
    } else if p !in x.placed {
      forall i | 0 <= i < |x.placed| ensures staged[i].temp != p { assert staged[i] in staged; }
      assert Bystander(staged, x, p);
    }
  }

  lemma TempApart(env: Env, before: Files, staged: seq<Staged>, touched: set<Path>, x: Txn, s: Staged)
    requires Names(env, before, staged, touched) && Tracks(env, before, staged, touched, x) && s in staged
    ensures s.temp !in Homes(x.aside) && s.temp !in Copies(x.aside)
  {
    assert !Drawn(env, touched, s.temp);
    forall m | m in x.aside ensures m.live != s.temp && m.backup != s.temp {
      assert m.live in touched;
    }
  }

  lemma RollbackTemp(env: Env, before: Files, staged: seq<Staged>, touched: set<Path>, x: Txn, s: Staged)
    requires Names(env, before, staged, touched) && Tracks(env, before, staged, touched, x) && UndoWorks(env)
    requires s in staged && s.temp in Rollback(env, x).files
    ensures Rollback(env, x).files[s.temp] == before[s.temp]
  {
    RollbackFacts(env, before, staged, touched, x, s.temp);
    TempApart(env, before, staged, touched, x, s);
    var k :| 0 <= k < |staged| && staged[k] == s;
    hide Rollback;
    if k < |x.placed| {
      assert false;
    } else {
      TempReady(env, before, staged, touched, x, k);
    }
  }

  /** Rolling back a commit that failed anywhere puts every original back, if each file overwritten
      is kept in a copy. */
  lemma RollbackRestores(env: Env, before: Files, staged: seq<Staged>, x: Txn)
    requires WellStaged(before, staged) && DrawsApart(env, staged) && UndoWorks(env)
    requires Tracks(env, before, staged, Touched(staged), x) && Saved(before, staged, x)
    ensures Untouched(before, staged, Rollback(env, x).files)
  {
    var touched := Touched(staged);
    TouchedNames(env, before, staged);
    hide Touched, WellStaged, Names, Tracks, Saved, UndoWorks, Rollback, Drawn, CopyShaped;
    forall p | p !in Temps(staged) && (p in before || p in touched || !CopyShaped(touched, p))
      ensures Same(before, Rollback(env, x).files, p) {
      NotATemp(staged, p);
      NotDrawn(env, before, staged, touched, p);
      RollbackAt(env, before, staged, touched, x, p);
    }
    forall p | p in Temps(staged) && p in Rollback(env, x).files && p in before
      ensures Rollback(env, x).files[p] == before[p]
    {
      var s := OwnerOf(staged, p);
      RollbackTemp(env, before, staged, touched, x, s);
    }
  }

  lemma NotDrawn(env: Env, before: Files, staged: seq<Staged>, touched: set<Path>, p: Path)
    requires Names(env, before, staged, touched) && (p in before || p in touched || !CopyShaped(touched, p))
    ensures p in before || !Drawn(env, touched, p)
  {
    if p !in touched && Drawn(env, touched, p) {
      DrawnIsShaped(env, touched, p);
    }
  }

  // ---------------------------------------------------------------------------------------
  // Main result
  // ---------------------------------------------------------------------------------------

  lemma WholeRun(env: Env, before: Files, clock: nat, staged: seq<Staged>)
    requires WellStaged(before, staged) && Ordered(staged) && DrawsApart(env, staged)
    ensures var x := Forward(env, Start(before, clock), staged);
            && Tracks(env, before, staged, Touched(staged), x)
            && (if x.failed then |x.placed| < |staged| else |x.placed| == |staged|)
            && (HonestStat(env) ==> Saved(before, staged, x))
  {
    TouchedNames(env, before, staged);
    assert staged[..|staged|] == staged;
    hide Touched, WellStaged, Names, Tracks, Saved, SidecarNames, HonestStat;
    ForwardKeeps(env, before, clock, staged, Touched(staged), |staged|);
  }

  /** Nothing that a failing commit may already have placed was on disk before. */
  predicate OnlyLastReplaces(before: Files, staged: seq<Staged>) {
    forall i :: 0 <= i < |staged| - 1 ==> staged[i].live !in before
  }

  /** A commit that fails anywhere leaves the disk as it was, if the staged set is ordered, the calls
      of the rollback succeed, and Stat does not miss files or none but the last staged file
      replaces one. */
  lemma AllOrNothing(env: Env, before: Files, clock: nat, staged: seq<Staged>)
    requires WellStaged(before, staged) && Ordered(staged) && DrawsApart(env, staged) && UndoWorks(env)
    requires HonestStat(env) || OnlyLastReplaces(before, staged)
    requires Commit(env, before, clock, staged).failed
    ensures Untouched(before, staged, Commit(env, before, clock, staged).files)
  {
    hide WellStaged, Ordered, DrawsApart, HonestStat, UndoWorks, Tracks, Touched, Untouched, Forward, Rollback;
    WholeRun(env, before, clock, staged);
    RollbackRestores(env, before, staged, Forward(env, Start(before, clock), staged));
  }

  // ---------------------------------------------------------------------------------------
  // When calls of the rollback fail too
  // ---------------------------------------------------------------------------------------

  /** The bytes are at p, or in a copy that is recorded for p. */
  ghost predicate HomeOrCopy(aside: seq<Aside>, files: Files, p: Path, data: Bytes) {
    (p in files && files[p] == data)
    || exists m :: m in aside && m.live == p && m.backup in files && files[m.backup] == data
  }

  lemma {:induction false} RemoveEachSpares(env: Env, files: Files, clock: nat, ps: seq<Path>, sweep: bool, q: Path)
    requires q !in ps
    ensures Same(files, RemoveEach(env, files, clock, ps, sweep), q)
  {
    if ps != [] {
      RemoveEachSpares(env, files, clock, ps[..|ps| - 1], sweep, q);
    }
  }

  lemma {:induction false} RenameBackSpares(env: Env, files: Files, clock: nat, aside: seq<Aside>, q: Path)
    requires q !in Homes(aside) && q !in Copies(aside)
    ensures Same(files, RenameBack(env, files, clock, aside), q)
  {
    if aside != [] {
      var n := |aside| - 1;
      assert aside == aside[..n] + [aside[n]];
      OneMore(aside[..n], aside[n]);
      hide Homes, Copies;
      RenameBackSpares(env, files, clock, aside[..n], q);
    }
  }

  ghost predicate DistinctHomes(aside: seq<Aside>) {
    forall i, j :: 0 <= i < j < |aside| ==> aside[i].live != aside[j].live
  }

  /** Whichever renames fail, the bytes of copy k are in it or at its home. */
  lemma {:induction false} RenameBackKeeps(env: Env, files: Files, clock: nat, aside: seq<Aside>, k: nat)
    requires Separate(files, aside) && DistinctHomes(aside) && k < |aside|
    ensures var after, m, data := RenameBack(env, files, clock, aside), aside[k], files[aside[k].backup];
            (m.live in after && after[m.live] == data) || (m.backup in after && after[m.backup] == data)
  {
    var n := |aside| - 1;
    var rest, m := aside[..n], aside[n];
    assert rest + [m] == aside;
    SeparatePrefix(files, rest, m);
    if k < n {
      RenameBackKeeps(env, files, clock, rest, k);
      CopyListed(rest, k);
      assert aside[k].live != m.live && aside[k] == rest[k];
    } else {
      RenameBackSpares(env, files, clock, rest, m.backup);
    }
    hide Separate, DistinctHomes, Homes, Copies;
  }

  lemma CopyKept(env: Env, x: Txn, k: nat)
    requires Separate(x.files - (set q | q in x.placed), x.aside) && DistinctHomes(x.aside) && k < |x.aside|
    ensures HomeOrCopy(x.aside, Rollback(env, x).files, x.aside[k].live, x.files[x.aside[k].backup])
  {
    var mid := RemoveEach(env, x.files, x.clock, x.placed, false);
    forall m | m in x.aside ensures m.backup in mid && mid[m.backup] == x.files[m.backup] {
      RemoveEachSpares(env, x.files, x.clock, x.placed, false, m.backup);
    }
    hide RemoveEach;
    assert x.aside[k] in x.aside;
    RenameBackKeeps(env, mid, x.clock + |x.placed|, x.aside, k);
    hide RenameBack;
  }

  /** A commit that fails loses nothing, even if calls of its rollback fail as well: each original is
      at its home or in the copy recorded for it, with its own bytes. */
  lemma NothingIsLost(env: Env, before: Files, clock: nat, staged: seq<Staged>, p: Path)
    requires WellStaged(before, staged) && Ordered(staged) && DrawsApart(env, staged)
    requires HonestStat(env) || OnlyLastReplaces(before, staged)
    requires Commit(env, before, clock, staged).failed && p in before && p !in Temps(staged)
    ensures HomeOrCopy(Forward(env, Start(before, clock), staged).aside, Commit(env, before, clock, staged).files, p, before[p])
  {
    hide WellStaged, Ordered, DrawsApart, HonestStat, Tracks, Touched, HomeOrCopy, Forward, Rollback, Temps;
    WholeRun(env, before, clock, staged);
    TouchedNames(env, before, staged);
    NotATemp(staged, p);
    KeptThroughRollback(env, before, staged, Touched(staged), Forward(env, Start(before, clock), staged), p);
  }

  lemma KeptThroughRollback(env: Env, before: Files, staged: seq<Staged>, touched: set<Path>, x: Txn, p: Path)
    requires Names(env, before, staged, touched) && Tracks(env, before, staged, touched, x) && Saved(before, staged, x)
    requires p in before && forall s :: s in staged ==> s.temp != p
    ensures HomeOrCopy(x.aside, Rollback(env, x).files, p, before[p])
  {
    hide HomeOrCopy, Rollback, Names, Saved, AsideOk, PlacedOk, RestOk, Separate, DistinctHomes, Homes, Copies, Drawn;
    CopiesApart(env, before, staged, touched, x);
    if p in Homes(x.aside) {
      var k := CopyOfHome(env, before, touched, x, p);
      CopyKept(env, x, k);
    } else {
      StillAtHome(env, before, staged, touched, x, p);
      RollbackSpares(env, x, p);
    }
  }

  lemma CopyOfHome(env: Env, before: Files, touched: set<Path>, x: Txn, p: Path) returns (k: nat)
    requires AsideOk(env, before, touched, x) && p in Homes(x.aside)
    ensures k < |x.aside| && x.aside[k].live == p && x.aside[k].backup in x.files
    ensures p in before && x.files[x.aside[k].backup] == before[p] && DistinctHomes(x.aside)
  {
    hide Drawn;
    k :| 0 <= k < |x.aside| && x.aside[k].live == p;
    assert x.aside[k] in x.aside;
  }

  lemma StillAtHome(env: Env, before: Files, staged: seq<Staged>, touched: set<Path>, x: Txn, p: Path)
    requires Tracks(env, before, staged, touched, x) && Saved(before, staged, x)
    requires p in before && p !in Homes(x.aside) && forall s :: s in staged ==> s.temp != p
    ensures p !in Copies(x.aside) && p !in x.placed && p in x.files && x.files[p] == before[p]
  {
    hide Drawn, Homes;
    assert p !in Copies(x.aside) && p !in x.placed;
    forall i | 0 <= i < |x.placed| ensures staged[i].temp != p { assert staged[i] in staged; }
    assert Bystander(staged, x, p);
  }

  lemma RollbackSpares(env: Env, x: Txn, p: Path)
    requires p !in Homes(x.aside) && p !in Copies(x.aside) && p !in x.placed && p in x.files
    ensures HomeOrCopy(x.aside, Rollback(env, x).files, p, x.files[p])
  {
    hide Homes, Copies, RemoveEach, RenameBack;
    RemoveEachSpares(env, x.files, x.clock, x.placed, false, p);
    RenameBackSpares(env, RemoveEach(env, x.files, x.clock, x.placed, false), x.clock + |x.placed|, x.aside, p);
  }
}
