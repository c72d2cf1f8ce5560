/** What a commit that succeeds leaves, for every staged set, and when it cannot fail. */
module RestoreSuccess {
  import opened RestoreModel
  import opened RestoreProofs

  // ---------------------------------------------------------------------------------------
  // The commit without its precautions: each entry in turn, the later one wins
  // ---------------------------------------------------------------------------------------

  function SidecarsOf(p: Path): set<Path> {
    if IsDb(p) then {Wal(p), Shm(p)} else {}
  }

  /** One file put in place of whatever was there, with the sidecars of a database dropped. */
  function Swap(files: Files, s: Staged, data: Bytes): Files {
    (files - SidecarsOf(s.live) - {s.temp})[s.live := data]
  }

  function Effect(before: Files, staged: seq<Staged>): Files
    requires forall s :: s in staged ==> s.temp in before
  {
    if staged == [] then before
    else
      var n := |staged| - 1;
      Swap(Effect(before, staged[..n]), staged[n], before[staged[n].temp])
  }

  /** The sidecars that stay behind if Stat misses each: there when their database is replaced, and
      not themselves replaced later. */
  function Leftover(before: Files, staged: seq<Staged>): set<Path>
    requires forall s :: s in staged ==> s.temp in before
  {
    if staged == [] then {}
    else
      var n := |staged| - 1;
      var s, e := staged[n], Effect(before, staged[..n]);
      Leftover(before, staged[..n]) + (set p | p in SidecarsOf(s.live) && p in e) - {s.live}
  }

  /** x holds the files e, besides copies and, if Stat misses files, some of odd. */
  ghost predicate Near(env: Env, touched: set<Path>, e: Files, x: Txn, odd: set<Path>) {
    && (forall p :: p in e ==> p in x.files && x.files[p] == e[p])
    && (forall p :: p in x.files && p !in e ==> p in Copies(x.aside) || (p in odd && !HonestStat(env)))
    && (forall p :: p in Copies(x.aside) ==> Drawn(env, touched, p) && p !in e)
  }

  lemma MoveNear(env: Env, touched: set<Path>, e: Files, x: Txn, odd: set<Path>, p: Path)
    requires Near(env, touched, e, x, odd) && p in touched && !Drawn(env, touched, p)
    requires !x.failed && !MoveAside(env, x, p).failed
    ensures Near(env, touched, e - {p}, MoveAside(env, x, p), if p in e then odd + {p} else odd)
  {
    hide Drawn, CopyOf;
    var y := MoveAside(env, x, p);
    if env.ok(Stat(p), x.clock) && p in x.files {
      CopyIsDrawn(env, touched, p, x.files.Keys);
      var backup := CopyOf(p, env.pick(p, x.files.Keys));
      assert Copies(y.aside) == Copies(x.aside) + {backup} by { CopiesGrow(x.aside, Aside(p, backup)); }
    }
  }

  lemma CopiesGrow(aside: seq<Aside>, m: Aside)
    ensures Copies(aside + [m]) == Copies(aside) + {m.backup}
  {
    assert m in aside + [m];
  }

  lemma PlaceNear(env: Env, touched: set<Path>, e: Files, x: Txn, odd: set<Path>, s: Staged)
    requires Near(env, touched, e, x, odd) && !Drawn(env, touched, s.live) && !Drawn(env, touched, s.temp)
    requires s.temp != s.live && s.temp in e && !x.failed && !Place(env, x, s).failed
    ensures Near(env, touched, (e - {s.temp})[s.live := e[s.temp]], Place(env, x, s), odd - {s.live})
  {
    hide Drawn;
  }

  lemma MkdirNear(env: Env, touched: set<Path>, e: Files, x: Txn, odd: set<Path>, p: Path)
    requires Near(env, touched, e, x, odd) && !x.failed && !MakeDir(env, x, p).failed
    ensures Near(env, touched, e, MakeDir(env, x, p), odd)
  {
  }

  lemma OddGrows(env: Env, touched: set<Path>, e: Files, x: Txn, odd: set<Path>, more: set<Path>)
    requires Near(env, touched, e, x, odd) && odd <= more
    ensures Near(env, touched, e, x, more)
  {
  }

  lemma EntryNear(env: Env, touched: set<Path>, e: Files, x: Txn, odd: set<Path>, s: Staged)
    requires Near(env, touched, e, x, odd) && !x.failed && !Entry(env, x, s).failed
    requires s.live in touched && SidecarNames(s, touched) && s.temp !in touched && s.temp in e
    requires !Drawn(env, touched, s.temp) && forall p :: p in touched ==> !Drawn(env, touched, p)
    ensures Near(env, touched, Swap(e, s, e[s.temp]), Entry(env, x, s), odd + (set p | p in SidecarsOf(s.live) && p in e) - {s.live})
  {
    hide Near, Drawn, MoveAside, Place, MakeDir, Wal, Shm, IsDb;
    StagesGo(env, x, s);
    var x1 := MakeDir(env, x, s.live);
    MkdirNear(env, touched, e, x, odd, s.live);
    var x2 := MoveAside(env, x1, s.live);
    MoveNear(env, touched, e, x1, odd, s.live);
    var e2, odd2 := e - {s.live}, odd + {s.live};
    OddGrows(env, touched, e2, x2, if s.live in e then odd + {s.live} else odd, odd2);
    if IsDb(s.live) {
      var w, h := Wal(s.live), Shm(s.live);
      var x3 := MoveAside(env, x2, w);
      MoveNear(env, touched, e2, x2, odd2, w);
      var e3, odd3 := e2 - {w}, if w in e2 then odd2 + {w} else odd2;
      MoveNear(env, touched, e3, x3, odd3, h);
      var e4, odd4 := e3 - {h}, if h in e3 then odd3 + {h} else odd3;
      PlaceNear(env, touched, e4, MoveAside(env, x3, h), odd4, s);
      assert (e4 - {s.temp})[s.live := e4[s.temp]] == Swap(e, s, e[s.temp]);
      OddGrows(env, touched, Swap(e, s, e[s.temp]), Entry(env, x, s), odd4 - {s.live}, odd + (set p | p in SidecarsOf(s.live) && p in e) - {s.live});
    } else {
      PlaceNear(env, touched, e2, x2, odd2, s);
      assert (e2 - {s.temp})[s.live := e2[s.temp]] == Swap(e, s, e[s.temp]);
      OddGrows(env, touched, Swap(e, s, e[s.temp]), Entry(env, x, s), odd2 - {s.live}, odd + (set p | p in SidecarsOf(s.live) && p in e) - {s.live});
    }
  }

  /** An entry that does not fail does not fail on the way. */
  lemma StagesGo(env: Env, x: Txn, s: Staged)
    requires !x.failed && !Entry(env, x, s).failed
    ensures var x1 := MakeDir(env, x, s.live); var x2 := MoveAside(env, x1, s.live);
      && !x1.failed && !x2.failed
      && (IsDb(s.live) ==>
            var x3 := MoveAside(env, x2, Wal(s.live)); var x4 := MoveAside(env, x3, Shm(s.live));
            !x3.failed && !x4.failed && Entry(env, x, s) == Place(env, x4, s))
      && (!IsDb(s.live) ==> Entry(env, x, s) == Place(env, x2, s))
  {
    hide Wal, Shm, IsDb;
  }

  lemma {:induction false} EffectTemp(env: Env, before: Files, staged: seq<Staged>, touched: set<Path>, n: nat, k: nat)
    requires Names(env, before, staged, touched) && n <= k < |staged|
    requires forall s :: s in staged ==> SidecarsOf(s.live) <= touched
    ensures staged[k].temp in Effect(before, staged[..n]) && Effect(before, staged[..n])[staged[k].temp] == before[staged[k].temp]
    decreases n
  {
    assert staged[k] in staged;
    if n > 0 {
      var m := n - 1;
      assert staged[..n][..m] == staged[..m] && staged[m] in staged;
      EffectTemp(env, before, staged, touched, m, k);
      assert staged[m].temp != staged[k].temp && staged[k].temp !in SidecarsOf(staged[m].live);
    }
  }

  lemma {:induction false} ForwardNear(env: Env, before: Files, clock: nat, staged: seq<Staged>, touched: set<Path>, n: nat)
    requires Names(env, before, staged, touched) && forall s :: s in staged ==> SidecarNames(s, touched) && SidecarsOf(s.live) <= touched
    requires n <= |staged| && !Forward(env, Start(before, clock), staged[..n]).failed
    ensures Near(env, touched, Effect(before, staged[..n]), Forward(env, Start(before, clock), staged[..n]), Leftover(before, staged[..n]))
    decreases n
  {
    hide Near, Entry, SidecarNames, SidecarsOf, Drawn;
    if n == 0 {
      StartNear(env, touched, before, clock);
    } else {
      var m := n - 1;
      assert staged[..n][..m] == staged[..m] && staged[m] in staged;
      var x := Forward(env, Start(before, clock), staged[..m]);
      if x.failed {
        FailedStays(env, x, staged[m]);
        assert false;
      }
      ForwardNear(env, before, clock, staged, touched, m);
      EffectTemp(env, before, staged, touched, m, m);
      EntryNear(env, touched, Effect(before, staged[..m]), x, Leftover(before, staged[..m]), staged[m]);
    }
  }

  lemma StartNear(env: Env, touched: set<Path>, before: Files, clock: nat)
    ensures Near(env, touched, before, Start(before, clock), {})
  {
  }

  /** Sweeping the copies away leaves the effect, and leftovers if Stat misses files. */
  lemma SweepNear(env: Env, touched: set<Path>, e: Files, x: Txn, odd: set<Path>)
    requires Near(env, touched, e, x, odd) && SweepWorks(env)
    ensures var after := Sweep(env, x).files;
      && (forall p :: p in e ==> p in after && after[p] == e[p])
      && (forall p :: p in after && p !in e ==> p in odd && !HonestStat(env))
  {
    RemoveEachRemoves(env, x.files, x.clock, Backups(x.aside), true);
    assert forall p :: p in Backups(x.aside) <==> p in Copies(x.aside) by {
      forall m | m in x.aside ensures m.backup in Backups(x.aside) {
        var i :| 0 <= i < |x.aside| && x.aside[i] == m;
        assert Backups(x.aside)[i] == m.backup;
      }
    }
  }

  /** A commit that succeeds, in whatever order its set is, leaves each entry in place, the later one
      of two winning; if Stat misses files some of the leftovers may stay, and nothing else. */
  lemma SuccessIsEffect(env: Env, before: Files, clock: nat, staged: seq<Staged>)
    requires WellStaged(before, staged) && DrawsApart(env, staged) && SweepWorks(env)
    requires !Commit(env, before, clock, staged).failed
    ensures var after := Commit(env, before, clock, staged).files;
      && (forall p :: p in Effect(before, staged) ==> p in after && after[p] == Effect(before, staged)[p])
      && (forall p :: p in after && p !in Effect(before, staged) ==> p in Leftover(before, staged) && !HonestStat(env))
    ensures HonestStat(env) || Leftover(before, staged) == {} ==> Commit(env, before, clock, staged).files == Effect(before, staged)
  {
    hide WellStaged, DrawsApart, SweepWorks, HonestStat, Near, Forward, Effect, Leftover, Touched, Names, Sweep, Rollback;
    TouchedNames(env, before, staged);
    assert staged[..|staged|] == staged;
    assert forall s :: s in staged ==> s.temp in before by { TempsThere(before, staged); }
    forall s | s in staged ensures SidecarsOf(s.live) <= Touched(staged) {
      SidecarsTouched(staged, s);
    }
    var x := Forward(env, Start(before, clock), staged);
    SuccessIsSwept(env, before, clock, staged);
    ForwardNear(env, before, clock, staged, Touched(staged), |staged|);
    SweepNear(env, Touched(staged), Effect(before, staged), x, Leftover(before, staged));
    var after := Commit(env, before, clock, staged).files;
    assert forall p :: p in Effect(before, staged) ==> p in after && after[p] == Effect(before, staged)[p];
  }

  lemma SuccessIsSwept(env: Env, before: Files, clock: nat, staged: seq<Staged>)
    requires !Commit(env, before, clock, staged).failed
    ensures var x := Forward(env, Start(before, clock), staged);
      !x.failed && Commit(env, before, clock, staged) == Sweep(env, x)
  {
    hide Forward;
  }

  lemma TempsThere(before: Files, staged: seq<Staged>)
    requires WellStaged(before, staged)
    ensures forall s :: s in staged ==> s.temp in before
  {
  }

  lemma SidecarsTouched(staged: seq<Staged>, s: Staged)
    requires s in staged
    ensures SidecarsOf(s.live) <= Sidecars(staged) <= Touched(staged)
  {
  }

  // ---------------------------------------------------------------------------------------
  // An ordered set
  // ---------------------------------------------------------------------------------------

  ghost predicate AtHome(before: Files, staged: seq<Staged>, n: nat, e: Files)
    requires n <= |staged| && forall s :: s in staged ==> s.temp in before
  {
    forall i :: 0 <= i < n ==>
      && staged[i].live in e && e[staged[i].live] == before[staged[i].temp] && staged[i].temp !in e
  }

  ghost predicate SidecarsDropped(staged: seq<Staged>, n: nat, e: Files)
    requires n <= |staged|
  {
    forall i, p :: 0 <= i < n && p in SidecarsOf(staged[i].live) && p in e ==> exists k :: 0 <= k < n && staged[k].live == p
  }

  ghost predicate Foreign(staged: seq<Staged>, n: nat, p: Path)
    requires n <= |staged|
  {
    forall i :: 0 <= i < n ==> p != staged[i].live && p != staged[i].temp && p !in SidecarsOf(staged[i].live)
  }

  /** After the first n entries of an ordered set each of them is in place. */
  ghost predicate InPlace(before: Files, staged: seq<Staged>, n: nat, e: Files)
    requires n <= |staged| && forall s :: s in staged ==> s.temp in before
  {
    && AtHome(before, staged, n, e) && SidecarsDropped(staged, n, e)
    && forall p :: Foreign(staged, n, p) ==> Same(before, e, p)
  }

  lemma {:induction false} EffectInPlace(before: Files, staged: seq<Staged>, n: nat)
    requires WellStaged(before, staged) && Ordered(staged) && n <= |staged|
    requires forall s :: s in staged ==> s.temp in before
    ensures InPlace(before, staged, n, Effect(before, staged[..n]))
    decreases n
  {
    if n == 0 {
      hide WellStaged, Ordered, SidecarsOf;
    } else {
      hide *;
      var m := n - 1;
      EffectInPlace(before, staged, m);
      SwapInPlace(before, staged, m, Effect(before, staged[..m]));
      EffectLater(before, staged, m);
    }
  }

  lemma EffectLater(before: Files, staged: seq<Staged>, m: nat)
    requires m < |staged| && forall s :: s in staged ==> s.temp in before
    ensures Effect(before, staged[..m + 1]) == Swap(Effect(before, staged[..m]), staged[m], before[staged[m].temp])
  {
    assert staged[..m + 1][..m] == staged[..m];
  }

  /** An ordered entry is no business of the earlier ones. */
  ghost predicate LaterApart(staged: seq<Staged>, m: nat)
    requires m < |staged|
  {
    && staged[m].temp != staged[m].live
    && (forall i :: 0 <= i < m ==>
          && staged[i].live != staged[m].live && staged[i].live != staged[m].temp
          && staged[i].live !in SidecarsOf(staged[m].live)
          && staged[i].temp != staged[m].live && staged[i].temp != staged[m].temp)
  }

  lemma OrderedLaterApart(before: Files, staged: seq<Staged>, m: nat)
    requires WellStaged(before, staged) && Ordered(staged) && m < |staged|
    ensures LaterApart(staged, m)
  {
    forall i | 0 <= i <= m ensures staged[i].live in Touched(staged) && staged[i].temp in Temps(staged) {
      assert staged[i] in staged;
    }
    forall i | 0 <= i < m ensures !Clobbers(staged[m].live, staged[i].live) {}
    hide Touched, Temps;
  }

  lemma SwapInPlace(before: Files, staged: seq<Staged>, m: nat, e: Files)
    requires WellStaged(before, staged) && Ordered(staged) && m < |staged|
    requires forall s :: s in staged ==> s.temp in before
    requires InPlace(before, staged, m, e)
    ensures InPlace(before, staged, m + 1, Swap(e, staged[m], before[staged[m].temp]))
  {
    OrderedLaterApart(before, staged, m);
    hide WellStaged, Ordered, SidecarsOf, AtHome, SidecarsDropped, LaterApart;
    SwapAtHome(before, staged, m, e);
    SwapDrops(staged, m, e, before[staged[m].temp]);
    forall p | Foreign(staged, m + 1, p) ensures Same(before, Swap(e, staged[m], before[staged[m].temp]), p) {
      assert p != staged[m].live && p != staged[m].temp && p !in SidecarsOf(staged[m].live);
      assert Foreign(staged, m, p);
    }
  }

  lemma SwapAtHome(before: Files, staged: seq<Staged>, m: nat, e: Files)
    requires m < |staged| && LaterApart(staged, m) && forall s :: s in staged ==> s.temp in before
    requires AtHome(before, staged, m, e)
    ensures AtHome(before, staged, m + 1, Swap(e, staged[m], before[staged[m].temp]))
  {
    hide SidecarsOf;
  }

  lemma SwapDrops(staged: seq<Staged>, m: nat, e: Files, data: Bytes)
    requires m < |staged| && SidecarsDropped(staged, m, e)
    ensures SidecarsDropped(staged, m + 1, Swap(e, staged[m], data))
  {
    hide SidecarsOf;
    forall i, p | 0 <= i <= m && p in SidecarsOf(staged[i].live) && p in Swap(e, staged[m], data)
      ensures exists k :: 0 <= k <= m && staged[k].live == p
    {
      if p == staged[m].live {
        assert staged[m].live == p;
      } else {
        assert p in e && i < m;
      }
    }
  }

  lemma EffectSwaps(before: Files, staged: seq<Staged>)
    requires WellStaged(before, staged) && Ordered(staged)
    ensures Swapped(before, staged, Effect(before, staged))
  {
    TempsThere(before, staged);
    hide WellStaged, Ordered, Effect, SidecarsOf;
    EffectInPlace(before, staged, |staged|);
    assert staged[..|staged|] == staged;
    InPlaceSwapped(before, staged, Effect(before, staged));
  }

  lemma InPlaceSwapped(before: Files, staged: seq<Staged>, e: Files)
    requires forall s :: s in staged ==> s.temp in before
    requires InPlace(before, staged, |staged|, e)
    ensures Swapped(before, staged, e)
  {
    forall s | s in staged ensures s.live in e && e[s.live] == before[s.temp] && s.temp !in e {
      var i :| 0 <= i < |staged| && staged[i] == s;
    }
    forall p | p in Sidecars(staged) && p !in Lives(staged) ensures p !in e {
      var s :| s in staged && IsDb(s.live) && (p == Wal(s.live) || p == Shm(s.live));
      var i :| 0 <= i < |staged| && staged[i] == s;
      assert p in SidecarsOf(staged[i].live);
    }
    forall p | p !in Temps(staged) && p !in Touched(staged) ensures Same(before, e, p) {
      forall i | 0 <= i < |staged| ensures p != staged[i].live && p != staged[i].temp && p !in SidecarsOf(staged[i].live) {
        assert staged[i] in staged;
        SidecarsTouched(staged, staged[i]);
      }
      assert Foreign(staged, |staged|, p);
    }
  }

  /** A commit of an ordered set that succeeds leaves every staged file live, none of the previous
      databases' sidecars, no moved-aside copy and no temp, and every other path as it was, if Stat
      misses nothing or there is nothing it could leave over. */
  lemma SuccessSwaps(env: Env, before: Files, clock: nat, staged: seq<Staged>)
    requires WellStaged(before, staged) && Ordered(staged) && DrawsApart(env, staged) && SweepWorks(env)
    requires HonestStat(env) || Leftover(before, staged) == {}
    requires !Commit(env, before, clock, staged).failed
    ensures Swapped(before, staged, Commit(env, before, clock, staged).files)
  {
    TempsThere(before, staged);
    hide WellStaged, Ordered, DrawsApart, SweepWorks, HonestStat, Swapped, Commit, Effect, Leftover;
    SuccessIsEffect(env, before, clock, staged);
    EffectSwaps(before, staged);
  }

  // ---------------------------------------------------------------------------------------
  // The commit does not fail of itself
  // ---------------------------------------------------------------------------------------

  /** Whatever Stat says, the calls that can stop the clearing of a live path go through. */
  ghost predicate Clears(env: Env, touched: set<Path>, live: Path) {
    && (forall t: nat :: env.ok(Mkdir(live), t))
    && (forall p: Path, t: nat :: p in touched ==> env.ok(CreateTemp(p), t))
    && (forall p: Path, q: Path, t: nat :: p in touched ==> env.ok(Rename(p, q), t))
    && (forall p: Path, taken: set<Path> :: CopyOf(p, env.pick(p, taken)) !in taken)
  }

  /** The calls that can stop entry s go through. */
  ghost predicate Serves(env: Env, touched: set<Path>, s: Staged) {
    Clears(env, touched, s.live) && forall t: nat :: env.ok(Rename(s.temp, s.live), t)
  }

  lemma MoveGoes(env: Env, touched: set<Path>, live: Path, x: Txn, p: Path)
    requires Clears(env, touched, live) && p in touched && !x.failed
    ensures var y := MoveAside(env, x, p);
      !y.failed && y.placed == x.placed && forall q :: q in x.files && q != p ==> q in y.files && y.files[q] == x.files[q]
  {
    assert CopyOf(p, env.pick(p, x.files.Keys)) !in x.files.Keys;
  }

  lemma ClearGoes(env: Env, touched: set<Path>, s: Staged, x: Txn)
    requires Clears(env, touched, s.live) && s.live in touched && SidecarNames(s, touched) && !x.failed
    ensures var y := Clear(env, x, s);
      !y.failed && y.placed == x.placed && forall q :: q in x.files && q !in touched ==> q in y.files && y.files[q] == x.files[q]
  {
    hide MoveAside, Wal, Shm, IsDb;
    var x1 := MakeDir(env, x, s.live);
    assert !x1.failed && x1.files == x.files by { assert env.ok(Mkdir(s.live), x.clock); }
    MoveGoes(env, touched, s.live, x1, s.live);
    var x2 := MoveAside(env, x1, s.live);
    if IsDb(s.live) {
      MoveGoes(env, touched, s.live, x2, Wal(s.live));
      MoveGoes(env, touched, s.live, MoveAside(env, x2, Wal(s.live)), Shm(s.live));
    }
  }

  /** The temps of the entries from n on are still there. */
  ghost predicate TempsLeft(staged: seq<Staged>, x: Txn, n: nat) {
    forall k :: n <= k < |staged| ==> staged[k].temp in x.files
  }

  lemma {:induction false} ForwardGoes(env: Env, before: Files, clock: nat, staged: seq<Staged>, touched: set<Path>, n: nat)
    requires Names(env, before, staged, touched) && forall s :: s in staged ==> SidecarNames(s, touched)
    requires n <= |staged| && forall i :: 0 <= i < n ==> Serves(env, touched, staged[i])
    ensures var x := Forward(env, Start(before, clock), staged[..n]);
      !x.failed && TempsLeft(staged, x, n)
    decreases n
  {
    hide Clears, SidecarNames, Clear, Drawn;
    if n == 0 {
      assert forall k :: 0 <= k < |staged| ==> staged[k] in staged;
    } else {
      var m := n - 1;
      var s := staged[m];
      assert staged[..n][..m] == staged[..m] && s in staged;
      ForwardGoes(env, before, clock, staged, touched, m);
      var x := Forward(env, Start(before, clock), staged[..m]);
      ClearGoes(env, touched, s, x);
      var y := Clear(env, x, s);
      assert env.ok(Rename(s.temp, s.live), y.clock);
      forall k | n <= k < |staged| ensures staged[k].temp in Place(env, y, s).files {
        assert staged[k] in staged && staged[k].temp != s.temp;
      }
    }
  }

  /** Every call succeeds, and CreateTemp draws names that are free. */
  ghost predicate Obliging(env: Env) {
    && (forall c: Call, t: nat :: env.ok(c, t))
    && (forall p: Path, taken: set<Path> :: CopyOf(p, env.pick(p, taken)) !in taken)
  }

  lemma ObligingServes(env: Env, touched: set<Path>, s: Staged)
    requires Obliging(env)
    ensures Serves(env, touched, s) && HonestStat(env) && UndoWorks(env) && SweepWorks(env)
  {
  }

  /** Where every call succeeds, a well-staged set is swapped into place. */
  lemma CommitSucceeds(env: Env, before: Files, clock: nat, staged: seq<Staged>)
    requires WellStaged(before, staged) && DrawsApart(env, staged) && Obliging(env)
    ensures !Commit(env, before, clock, staged).failed && Commit(env, before, clock, staged).files == Effect(before, staged)
  {
    TempsThere(before, staged);
    hide Touched, WellStaged, DrawsApart, Names, SidecarNames, Obliging, HonestStat, SweepWorks, Forward, Effect, Leftover, Serves;
    TouchedNames(env, before, staged);
    assert staged[..|staged|] == staged;
    forall s ensures Serves(env, Touched(staged), s) && HonestStat(env) && SweepWorks(env) {
      ObligingServes(env, Touched(staged), s);
    }
    ForwardGoes(env, before, clock, staged, Touched(staged), |staged|);
    assert HonestStat(env) && SweepWorks(env) by { ObligingServes(env, {}, Staged(Path(""), Path(""))); }
    SuccessIsEffect(env, before, clock, staged);
  }
}
