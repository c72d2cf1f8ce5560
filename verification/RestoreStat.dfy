/** What a failing Stat does to the promises of a commit, exactly: a file it misses is overwritten
    without a copy, and a sidecar it misses survives. */
module RestoreStat {
  import opened RestoreModel
  import opened RestoreProofs
  import opened RestoreSuccess
  import opened RestoreExact

  // ---------------------------------------------------------------------------------------
  // A commit that fails
  // ---------------------------------------------------------------------------------------

  ghost predicate Misses(env: Env, p: Path) {
    forall t: nat :: !env.ok(Stat(p), t)
  }

  /** A path Stat always misses is never taken aside. */
  lemma {:induction false} BlindNeverMoves(env: Env, before: Files, clock: nat, staged: seq<Staged>, p: Path)
    requires Misses(env, p)
    ensures p !in Homes(Forward(env, Start(before, clock), staged).aside)
  {
    hide Place, IsDb, Wal, Shm;
    if staged != [] {
      var m := |staged| - 1;
      BlindNeverMoves(env, before, clock, staged[..m], p);
      var x := Forward(env, Start(before, clock), staged[..m]);
      BlindEntryKeeps(env, x, staged[m], p);
    }
  }

  lemma BlindEntryKeeps(env: Env, x: Txn, s: Staged, p: Path)
    requires Misses(env, p) && p !in Homes(x.aside)
    ensures p !in Homes(Entry(env, x, s).aside)
  {
    hide MoveAside, IsDb, Wal, Shm;
    var x1 := MakeDir(env, x, s.live);
    BlindMoveKeeps(env, x1, s.live, p);
    var x2 := MoveAside(env, x1, s.live);
    BlindMoveKeeps(env, x2, Wal(s.live), p);
    BlindMoveKeeps(env, MoveAside(env, x2, Wal(s.live)), Shm(s.live), p);
  }

  lemma BlindMoveKeeps(env: Env, x: Txn, q: Path, p: Path)
    requires Misses(env, p) && p !in Homes(x.aside)
    ensures p !in Homes(MoveAside(env, x, q).aside)
  {
    assert !env.ok(Stat(p), x.clock);
  }

  /** Stat misses the file entry i replaces, and entry i + 1 cannot be renamed into place. */
  ghost function Blinding(staged: seq<Staged>, i: nat): Env
    requires i + 1 < |staged|
  {
    var next := staged[i + 1];
    Refusing({Stat(staged[i].live), Rename(next.temp, next.live)}, Named(staged))
  }

  lemma BlindingServes(before: Files, staged: seq<Staged>, i: nat)
    requires WellStaged(before, staged) && i + 1 < |staged|
    ensures var env := Blinding(staged, i);
            && UndoWorks(env) && DrawsApart(env, staged)
            && (forall k :: 0 <= k <= i ==> Serves(env, Touched(staged), staged[k]))
            && Misses(env, staged[i].live)
            && Refuses(env, staged[i + 1])
  {
    var calls := {Stat(staged[i].live), Rename(staged[i + 1].temp, staged[i + 1].live)};
    RefusingDrawsApart(calls, staged);
    assert staged[i + 1].temp in Temps(staged);
    forall k | 0 <= k <= i ensures Clears(Blinding(staged, i), Touched(staged), staged[k].live) {
      RefusingClears(calls, Named(staged), Touched(staged), staged[k].live);
    }
  }

  /** The rollback removes a placed file of which no copy was taken. */
  lemma RollbackLoses(env: Env, before: Files, staged: seq<Staged>, touched: set<Path>, x: Txn, i: nat)
    requires Names(env, before, staged, touched) && Tracks(env, before, staged, touched, x) && UndoWorks(env)
    requires i < |x.placed| && staged[i].live !in Homes(x.aside)
    ensures staged[i].live !in Rollback(env, x).files
  {
    var p := staged[i].live;
    RollbackFacts(env, before, staged, touched, x, p);
    hide Rollback;
    assert staged[i] in staged && !Drawn(env, touched, p) && x.placed[i] == p;
    hide Drawn;
  }

  /** In any ordered set, a file replaced before the last entry is lost if Stat misses it and the next
      entry fails: it is overwritten without a copy, and the rollback removes what replaced it. */
  lemma StatMissLosesTheFile(before: Files, staged: seq<Staged>, i: nat)
    requires WellStaged(before, staged) && i + 1 < |staged| && OrderedUpTo(staged, i + 2)
    ensures var env := Blinding(staged, i);
            var end := Commit(env, before, 0, staged);
            UndoWorks(env) && DrawsApart(env, staged) && end.failed && staged[i].live !in end.files
  {
    var env, touched := Blinding(staged, i), Touched(staged);
    hide *;
    BlindingServes(before, staged, i);
    TouchedNames(env, before, staged);
    ForwardKeeps(env, before, 0, staged, touched, i + 2);
    assert OrderedUpTo(staged, i + 1) by { OrderedEarlier(staged, i + 1, i + 2); }
    PrefixPlaces(env, before, staged, touched, i + 1, i);
    var x0 := Forward(env, Start(before, 0), staged[..i + 1]);
    ForwardStep(env, Start(before, 0), staged, i + 1);
    var x := Forward(env, Start(before, 0), staged[..i + 2]);
    RefusedEntry(env, x0, staged[i + 1]);
    PlacedGrows(env, x0, staged[i + 1]);
    BlindNeverMoves(env, before, 0, staged[..i + 2], staged[i].live);
    RollbackLoses(env, before, staged, touched, x, i);
    FailedForward(env, Start(before, 0), staged, i + 2);
    CommitRollsBack(env, before, staged);
  }

  lemma OrderedEarlier(staged: seq<Staged>, m: nat, n: nat)
    requires m <= n <= |staged| && OrderedUpTo(staged, n)
    ensures OrderedUpTo(staged, m)
  {
  }

  lemma PlacedGrows(env: Env, x: Txn, s: Staged)
    ensures |x.placed| <= |Entry(env, x, s).placed|
  {
    hide IsDb, Wal, Shm;
  }

  lemma CommitRollsBack(env: Env, before: Files, staged: seq<Staged>)
    requires Forward(env, Start(before, 0), staged).failed
    ensures Commit(env, before, 0, staged) == Rollback(env, Forward(env, Start(before, 0), staged))
    ensures Commit(env, before, 0, staged).failed
  {
    hide Forward;
  }

  /** Whatever Stat says, no run of the commit can fail with the disk changed. */
  ghost predicate NeverHalfDoneBlind(before: Files, staged: seq<Staged>) {
    forall env: Env, clock: nat | UndoWorks(env) && DrawsApart(env, staged) && Commit(env, before, clock, staged).failed ::
      Untouched(before, staged, Commit(env, before, clock, staged).files)
  }

  /** The promise of `commitRestore` holds of a staged set for every environment with a working
      rollback, its Stat failing whenever it likes, exactly when the set is ordered and none but its
      last file replaces one. */
  lemma BlindIsExact(before: Files, staged: seq<Staged>)
    requires WellStaged(before, staged)
    requires forall s :: s in staged && s.live in before ==> before[s.live] != before[s.temp]
    ensures Ordered(staged) && OnlyLastReplaces(before, staged) <==> NeverHalfDoneBlind(before, staged)
  {
    hide WellStaged, Commit, Untouched, HonestStat, UndoWorks, DrawsApart, Stopping, Blinding, Serves, Clears;
    if !Ordered(staged) {
      var i, j := FirstClobber(staged, |staged|);
      HalfDone(before, staged, i, j);
    } else if !OnlyLastReplaces(before, staged) {
      var i :| 0 <= i < |staged| - 1 && staged[i].live in before;
      StatMissLosesTheFile(before, staged, i);
      var env := Blinding(staged, i);
      assert !Untouched(before, staged, Commit(env, before, 0, staged).files) by {
        LossIsAChange(before, staged, i, Commit(env, before, 0, staged).files);
      }
    } else {
      hide Ordered, OnlyLastReplaces;
      forall env: Env, clock: nat | UndoWorks(env) && DrawsApart(env, staged) && Commit(env, before, clock, staged).failed
        ensures Untouched(before, staged, Commit(env, before, clock, staged).files)
      {
        AllOrNothing(env, before, clock, staged);
      }
    }
  }

  lemma LossIsAChange(before: Files, staged: seq<Staged>, i: nat, after: Files)
    requires WellStaged(before, staged) && i < |staged| && staged[i].live in before && staged[i].live !in after
    ensures !Untouched(before, staged, after)
  {
    assert staged[i].live in Touched(staged) && staged[i].live !in Temps(staged);
    assert !Same(before, after, staged[i].live);
  }

  // ---------------------------------------------------------------------------------------
  // A commit that succeeds
  // ---------------------------------------------------------------------------------------

  /** p stands on disk as a sidecar when entry j, its database, is replaced, and none of the first n
      entries replaces it later. */
  predicate LeftAt(before: Files, staged: seq<Staged>, n: nat, p: Path, j: int)
    requires n <= |staged|
  {
    && 0 <= j < n && p in SidecarsOf(staged[j].live)
    && (p in before || exists i :: 0 <= i < j && staged[i].live == p)
    && (forall k :: j < k < n ==> staged[k].live != p)
  }

  /** Every sidecar there when its database is replaced is itself replaced later. */
  predicate SidecarsReplaced(before: Files, staged: seq<Staged>) {
    forall j, p :: 0 <= j < |staged| && p in SidecarsOf(staged[j].live) ==> !LeftAt(before, staged, |staged|, p, j)
  }

  ghost predicate Present(before: Files, staged: seq<Staged>, n: nat, p: Path)
    requires n <= |staged|
  {
    p in before || exists i :: 0 <= i < n && staged[i].live == p
  }

  /** What was there or was put there is in the effect, or left over, never both. */
  lemma {:induction false} EffectOrLeft(before: Files, staged: seq<Staged>, n: nat, p: Path)
    requires WellStaged(before, staged) && n <= |staged| && p !in Temps(staged)
    requires forall s :: s in staged ==> s.temp in before
    ensures p in Effect(before, staged[..n]) ==> p !in Leftover(before, staged[..n])
    ensures Present(before, staged, n, p) <==> p in Effect(before, staged[..n]) || p in Leftover(before, staged[..n])
    decreases n
  {
    hide *;
    if n == 0 {
      NothingLeft(before, staged, p);
    } else {
      var m := n - 1;
      assert staged[..n][..m] == staged[..m] && staged[m] in staged;
      EffectOrLeft(before, staged, m, p);
      TempListed(staged, staged[m]);
      EffectStep(before, staged[..n], p);
      PresentStep(before, staged, m, p);
    }
  }

  lemma NothingLeft(before: Files, staged: seq<Staged>, p: Path)
    requires forall s :: s in staged ==> s.temp in before
    ensures Effect(before, staged[..0]) == before && Leftover(before, staged[..0]) == {}
    ensures Present(before, staged, 0, p) <==> p in before
  {
  }

  lemma TempListed(staged: seq<Staged>, s: Staged)
    requires s in staged
    ensures s.temp in Temps(staged)
  {
  }

  lemma PresentStep(before: Files, staged: seq<Staged>, m: nat, p: Path)
    requires m < |staged|
    ensures Present(before, staged, m + 1, p) <==> Present(before, staged, m, p) || staged[m].live == p
  {
  }

  lemma EffectStep(before: Files, staged: seq<Staged>, p: Path)
    requires staged != [] && (forall s :: s in staged ==> s.temp in before) && p != staged[|staged| - 1].temp
    ensures var n := |staged| - 1; var rest, s := staged[..n], staged[n]; var there := p in Effect(before, rest);
      && (p in Effect(before, staged) <==> p == s.live || (there && p !in SidecarsOf(s.live)))
      && (p in Leftover(before, staged) <==> p != s.live && (p in Leftover(before, rest) || (there && p in SidecarsOf(s.live))))
  {
    hide SidecarsOf;
  }

  lemma {:induction false} LeftoverIs(before: Files, staged: seq<Staged>, n: nat, p: Path)
    requires WellStaged(before, staged) && n <= |staged| && p !in Temps(staged)
    requires forall s :: s in staged ==> s.temp in before
    ensures p in Leftover(before, staged[..n]) <==> exists j :: LeftAt(before, staged, n, p, j)
    decreases n
  {
    hide WellStaged, SidecarsOf;
    if n > 0 {
      var m := n - 1;
      assert staged[..n][..m] == staged[..m];
      LeftoverIs(before, staged, m, p);
      EffectOrLeft(before, staged, m, p);
      hide Effect;
      SidecarsNotLive(staged[m].live);
      if p in Leftover(before, staged[..n]) {
        if p in Leftover(before, staged[..m]) {
          var j :| LeftAt(before, staged, m, p, j);
          LeftLater(before, staged, m, p, j);
        } else {
          LeftLater(before, staged, m, p, m);
        }
      }
      if exists j :: LeftAt(before, staged, n, p, j) {
        var j :| LeftAt(before, staged, n, p, j);
        LeftLater(before, staged, m, p, j);
      }
      hide Leftover, LeftAt;
    }
  }

  lemma LeftLater(before: Files, staged: seq<Staged>, m: nat, p: Path, j: int)
    requires m < |staged|
    ensures LeftAt(before, staged, m + 1, p, j)
      <==> if j == m then p in SidecarsOf(staged[m].live) && Present(before, staged, m, p)
           else LeftAt(before, staged, m, p, j) && staged[m].live != p
  {
    hide SidecarsOf;
  }

  lemma SidecarsNotLive(p: Path)
    ensures p !in SidecarsOf(p)
  {
    SidecarsApart(p);
  }

  lemma NoneLeftAt(before: Files, staged: seq<Staged>, p: Path)
    requires SidecarsReplaced(before, staged)
    ensures !exists j :: LeftAt(before, staged, |staged|, p, j)
  {
  }

  lemma SidecarsReplacedIs(before: Files, staged: seq<Staged>)
    requires WellStaged(before, staged)
    requires forall s :: s in staged ==> s.temp in before
    ensures SidecarsReplaced(before, staged) <==> Leftover(before, staged) == {}
    ensures !SidecarsReplaced(before, staged) ==>
      exists p :: p in Touched(staged) && p in Leftover(before, staged) && p !in Effect(before, staged) && Present(before, staged, |staged|, p)
  {
    hide WellStaged, Leftover, Effect;
    assert staged[..|staged|] == staged;
    if SidecarsReplaced(before, staged) {
      if p :| p in Leftover(before, staged) {
        NoneLeftAt(before, staged, p);
        LeftoverTouched(before, staged, p);
        LeftoverIs(before, staged, |staged|, p);
        assert false;
      }
    } else {
      var j, p :| 0 <= j < |staged| && p in SidecarsOf(staged[j].live) && LeftAt(before, staged, |staged|, p, j);
      assert p in Touched(staged) && p !in Temps(staged) by { SidecarIsNoTemp(before, staged, staged[j], p); }
      LeftoverIs(before, staged, |staged|, p);
      EffectOrLeft(before, staged, |staged|, p);
    }
  }

  lemma SidecarIsNoTemp(before: Files, staged: seq<Staged>, s: Staged, p: Path)
    requires WellStaged(before, staged) && s in staged && p in SidecarsOf(s.live)
    ensures p in Touched(staged) && p !in Temps(staged)
  {
    SidecarsTouched(staged, s);
  }

  lemma {:induction false} LeftoverTouched(before: Files, staged: seq<Staged>, p: Path)
    requires WellStaged(before, staged) && p in Leftover(before, staged)
    requires forall s :: s in staged ==> s.temp in before
    ensures p !in Temps(staged)
  {
    hide WellStaged, Leftover, SidecarsOf;
    assert staged[..|staged|] == staged;
    var j := LeftoverSource(before, staged, |staged|, p);
    SidecarIsNoTemp(before, staged, staged[j], p);
  }

  lemma {:induction false} LeftoverSource(before: Files, staged: seq<Staged>, n: nat, p: Path) returns (j: nat)
    requires forall s :: s in staged ==> s.temp in before
    requires n <= |staged| && p in Leftover(before, staged[..n])
    ensures j < n && p in SidecarsOf(staged[j].live)
  {
    var m := n - 1;
    assert staged[..n][..m] == staged[..m];
    if p in Leftover(before, staged[..m]) {
      j := LeftoverSource(before, staged, m, p);
    } else {
      j := m;
    }
  }

  /** A path Stat always misses stays on disk once it is there. */
  lemma {:induction false} BlindStays(env: Env, before: Files, clock: nat, staged: seq<Staged>, touched: set<Path>, n: nat, p: Path)
    requires Names(env, before, staged, touched) && p in touched && Misses(env, p)
    requires n <= |staged| && Present(before, staged, n, p)
    requires !Forward(env, Start(before, clock), staged[..n]).failed
    ensures p in Forward(env, Start(before, clock), staged[..n]).files
    decreases n
  {
    hide Names, Misses, Entry;
    if n > 0 {
      var m := n - 1;
      ForwardStep(env, Start(before, clock), staged, m);
      var x := Forward(env, Start(before, clock), staged[..m]);
      if x.failed {
        FailedStays(env, x, staged[m]);
        assert false;
      }
      LiveIsTouched(env, before, staged, touched, staged[m]);
      BlindEntryStays(env, x, staged[m], p);
      if Present(before, staged, m, p) {
        BlindStays(env, before, clock, staged, touched, m, p);
      }
    }
  }

  lemma BlindEntryStays(env: Env, x: Txn, s: Staged, p: Path)
    requires Misses(env, p) && s.temp != p && !Entry(env, x, s).failed
    ensures p in x.files || p == s.live ==> p in Entry(env, x, s).files
  {
    hide MoveAside, IsDb, Wal, Shm;
    var x1 := MakeDir(env, x, s.live);
    BlindMoveStays(env, x1, s.live, p);
    var x2 := MoveAside(env, x1, s.live);
    BlindMoveStays(env, x2, Wal(s.live), p);
    BlindMoveStays(env, MoveAside(env, x2, Wal(s.live)), Shm(s.live), p);
  }

  lemma BlindMoveStays(env: Env, x: Txn, q: Path, p: Path)
    requires Misses(env, p)
    ensures p in x.files ==> p in MoveAside(env, x, q).files
  {
    assert !env.ok(Stat(p), x.clock);
  }

  /** Stat misses p; every other call succeeds. */
  ghost function Missing(staged: seq<Staged>, p: Path): Env {
    Refusing({Stat(p)}, Named(staged))
  }

  lemma MissingServes(staged: seq<Staged>, p: Path)
    ensures var env := Missing(staged, p);
            && Misses(env, p) && SweepWorks(env) && DrawsApart(env, staged)
            && (forall s :: s in staged ==> Serves(env, Touched(staged), s))
  {
    RefusingDrawsApart({Stat(p)}, staged);
    forall s | s in staged ensures Clears(Missing(staged, p), Touched(staged), s.live) {
      RefusingClears({Stat(p)}, Named(staged), Touched(staged), s.live);
    }
  }

  /** A sidecar that was there, and that Stat misses, is still there after a commit that succeeds. */
  lemma MissedSidecarSurvives(before: Files, staged: seq<Staged>, p: Path)
    requires WellStaged(before, staged) && p in Touched(staged) && Present(before, staged, |staged|, p)
    ensures var env := Missing(staged, p);
            var end := Commit(env, before, 0, staged);
            SweepWorks(env) && DrawsApart(env, staged) && !end.failed && p in end.files
  {
    var env, touched, n := Missing(staged, p), Touched(staged), |staged|;
    hide *;
    MissingServes(staged, p);
    TouchedNames(env, before, staged);
    assert staged[..n] == staged;
    forall s | s in staged ensures SidecarsOf(s.live) <= touched { SidecarsTouched(staged, s); }
    TempsThere(before, staged);
    ForwardGoes(env, before, 0, staged, touched, n);
    BlindStays(env, before, 0, staged, touched, n, p);
    ForwardNear(env, before, 0, staged, touched, n);
    NoneDrawn(env, before, staged, touched);
    var x := Forward(env, Start(before, 0), staged);
    SweepSpares(env, touched, Effect(before, staged), x, Leftover(before, staged), p);
    CommitSweeps(env, before, staged);
  }

  /** The sweep takes nothing but copies. */
  lemma SweepSpares(env: Env, touched: set<Path>, e: Files, x: Txn, odd: set<Path>, p: Path)
    requires Near(env, touched, e, x, odd) && SweepWorks(env) && p in x.files && !Drawn(env, touched, p)
    ensures p in Sweep(env, x).files
  {
    hide Drawn;
    RemoveEachRemoves(env, x.files, x.clock, Backups(x.aside), true);
    forall i | 0 <= i < |x.aside| ensures Backups(x.aside)[i] != p { assert x.aside[i] in x.aside; }
  }

  lemma CommitSweeps(env: Env, before: Files, staged: seq<Staged>)
    requires !Forward(env, Start(before, 0), staged).failed
    ensures Commit(env, before, 0, staged) == Sweep(env, Forward(env, Start(before, 0), staged))
    ensures !Commit(env, before, 0, staged).failed
  {
    hide Forward;
  }

  /** Whatever Stat says, every run that succeeds leaves just the staged files in place. */
  ghost predicate AlwaysEffect(before: Files, staged: seq<Staged>)
    requires forall s :: s in staged ==> s.temp in before
  {
    forall env: Env, clock: nat | DrawsApart(env, staged) && SweepWorks(env) && !Commit(env, before, clock, staged).failed ::
      Commit(env, before, clock, staged).files == Effect(before, staged)
  }

  /** Success means the staged files and nothing else of the old databases, for every Stat, exactly
      when each sidecar there when its database is replaced is itself replaced later. */
  lemma SuccessIsExact(before: Files, staged: seq<Staged>)
    requires WellStaged(before, staged)
    ensures SidecarsReplaced(before, staged) <==> AlwaysEffect(before, staged)
  {
    TempsThere(before, staged);
    hide WellStaged, SidecarsReplaced, Effect, Leftover, Commit, DrawsApart, SweepWorks, HonestStat, Missing, Touched, Present;
    SidecarsReplacedIs(before, staged);
    if SidecarsReplaced(before, staged) {
      forall env: Env, clock: nat | DrawsApart(env, staged) && SweepWorks(env) && !Commit(env, before, clock, staged).failed
        ensures Commit(env, before, clock, staged).files == Effect(before, staged)
      {
        SuccessIsEffect(env, before, clock, staged);
      }
    } else {
      var p :| p in Touched(staged) && p !in Effect(before, staged) && Present(before, staged, |staged|, p);
      MissedSidecarSurvives(before, staged, p);
      assert Commit(Missing(staged, p), before, 0, staged).files != Effect(before, staged);
    }
  }

  /** Whatever Stat says, every run that succeeds swaps the set into place. */
  ghost predicate AlwaysSwaps(before: Files, staged: seq<Staged>) {
    forall env: Env, clock: nat | DrawsApart(env, staged) && SweepWorks(env) && !Commit(env, before, clock, staged).failed ::
      Swapped(before, staged, Commit(env, before, clock, staged).files)
  }

  /** An ordered set is swapped into place by every run that succeeds, for every Stat, exactly when
      no database of the set has a sidecar on disk that the set does not replace as well. */
  lemma SwapIsExact(before: Files, staged: seq<Staged>)
    requires WellStaged(before, staged) && Ordered(staged)
    ensures (forall p :: p in Sidecars(staged) && p in before ==> p in Lives(staged)) <==> AlwaysSwaps(before, staged)
  {
    TempsThere(before, staged);
    SidecarsReplacedIs(before, staged);
    OrderedReplaced(before, staged);
    hide WellStaged, Ordered, DrawsApart, SweepWorks, Commit, Effect, Leftover, Swapped, SidecarsReplaced, Sidecars, Missing;
    if SidecarsReplaced(before, staged) {
      forall env: Env, clock: nat | DrawsApart(env, staged) && SweepWorks(env) && !Commit(env, before, clock, staged).failed
        ensures Swapped(before, staged, Commit(env, before, clock, staged).files)
      {
        SuccessSwaps(env, before, clock, staged);
      }
    } else {
      var p :| p in Sidecars(staged) && p in before && p !in Lives(staged);
      MissedSidecarSurvives(before, staged, p);
      NotSwapped(before, staged, p, Commit(Missing(staged, p), before, 0, staged).files);
    }
  }

  lemma NotSwapped(before: Files, staged: seq<Staged>, p: Path, after: Files)
    requires p in Sidecars(staged) && p !in Lives(staged) && p in after
    ensures !Swapped(before, staged, after)
  {
  }

  lemma OrderedReplaced(before: Files, staged: seq<Staged>)
    requires Ordered(staged)
    ensures SidecarsReplaced(before, staged) <==> forall p :: p in Sidecars(staged) && p in before ==> p in Lives(staged)
  {
    hide Sidecars, Lives, SidecarsOf, LeftAt, Ordered;
    forall j, p | 0 <= j < |staged| && p in SidecarsOf(staged[j].live)
      ensures p in Sidecars(staged) && (LeftAt(before, staged, |staged|, p, j) <==> p in before && p !in Lives(staged))
    {
      OrderedLeft(before, staged, p, j);
    }
    forall p | p in Sidecars(staged) ensures exists j :: 0 <= j < |staged| && p in SidecarsOf(staged[j].live) {
      var j := SidecarAt(staged, p);
    }
  }

  lemma SidecarAt(staged: seq<Staged>, p: Path) returns (j: nat)
    requires p in Sidecars(staged)
    ensures j < |staged| && p in SidecarsOf(staged[j].live)
  {
    var s :| s in staged && IsDb(s.live) && (p == Wal(s.live) || p == Shm(s.live));
    j :| j < |staged| && staged[j] == s;
  }

  lemma OrderedLeft(before: Files, staged: seq<Staged>, p: Path, j: nat)
    requires Ordered(staged) && j < |staged| && p in SidecarsOf(staged[j].live)
    ensures p in Sidecars(staged) && (LeftAt(before, staged, |staged|, p, j) <==> p in before && p !in Lives(staged))
  {
    hide Ordered, Lives, Sidecars, SidecarsOf, Touched;
    assert staged[j] in staged;
    SidecarsTouched(staged, staged[j]);
    SidecarsNotLive(staged[j].live);
    forall k | 0 <= k < j ensures staged[k].live != p { EarlierIsOther(staged, p, j, k); }
    LiveAt(staged, p);
  }

  /** In an ordered set no earlier live path is a sidecar of a later one. */
  lemma EarlierIsOther(staged: seq<Staged>, p: Path, j: nat, k: nat)
    requires Ordered(staged) && k < j < |staged| && p in SidecarsOf(staged[j].live)
    ensures staged[k].live != p
  {
    hide Wal, Shm, IsDb;
    assert !Clobbers(staged[j].live, staged[k].live);
  }

  lemma LiveAt(staged: seq<Staged>, p: Path)
    ensures p in Lives(staged) <==> exists k :: 0 <= k < |staged| && staged[k].live == p
  {
    if p in Lives(staged) {
      var s :| s in staged && s.live == p;
      var k :| 0 <= k < |staged| && staged[k] == s;
    }
  }
}
