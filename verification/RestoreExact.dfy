/** What the promises of a commit rest on, exactly. */
module RestoreExact {
  import opened RestoreModel
  import opened RestoreProofs
  import opened RestoreSuccess

  // ---------------------------------------------------------------------------------------
  // Environments that draw free names apart from everything, and refuse one or two calls
  // ---------------------------------------------------------------------------------------

  lemma LongerThanAll(paths: set<Path>) returns (n: nat)
    ensures forall p :: p in paths ==> |p.text| < n
  {
    n := 0;
    var rest := paths;
    while rest != {}
      invariant rest <= paths
      invariant forall p :: p in paths - rest ==> |p.text| < n
    {
      var p :| p in rest;
      rest := rest - {p};
      n := if n <= |p.text| then |p.text| + 1 else n;
    }
  }

  ghost predicate IsFree(p: Path, taken: set<Path>, suffix: string) {
    CopyOf(p, suffix) !in taken
  }

  lemma FreeSuffixExists(p: Path, taken: set<Path>)
    ensures exists suffix :: IsFree(p, taken, suffix)
  {
    var n := LongerThanAll(taken);
    var suffix := seq(n, i => '0');
    assert |CopyOf(p, suffix).text| >= n;
    assert IsFree(p, taken, suffix);
  }

  ghost function FreeSuffix(p: Path, taken: set<Path>): (suffix: string)
    ensures IsFree(p, taken, suffix)
  {
    FreeSuffixExists(p, taken);
    var suffix :| IsFree(p, taken, suffix);
    suffix
  }

  /** Refuses these calls and no others. */
  ghost function Refusing(calls: set<Call>, avoid: set<Path>): Env {
    Env((c: Call, t: nat) => c !in calls, (p: Path, taken: set<Path>) => FreeSuffix(p, taken + avoid))
  }

  /** Every path the commit may name, besides copies. */
  ghost function Named(staged: seq<Staged>): set<Path> {
    Touched(staged) + Temps(staged)
  }

  lemma RefusingDrawsFree(calls: set<Call>, avoid: set<Path>, p: Path, taken: set<Path>)
    ensures CopyOf(p, Refusing(calls, avoid).pick(p, taken)) !in taken + avoid
  {
    assert IsFree(p, taken + avoid, Refusing(calls, avoid).pick(p, taken));
  }

  lemma RefusingDrawsApart(calls: set<Call>, staged: seq<Staged>)
    ensures DrawsApart(Refusing(calls, Named(staged)), staged)
  {
    hide Touched, Temps, Refusing;
    forall q: Path, taken: set<Path> ensures CopyOf(q, Refusing(calls, Named(staged)).pick(q, taken)) !in Named(staged) {
      RefusingDrawsFree(calls, Named(staged), q, taken);
    }
  }

  lemma RefusingClears(calls: set<Call>, avoid: set<Path>, touched: set<Path>, live: Path)
    requires Mkdir(live) !in calls
    requires forall p :: p in touched ==> CreateTemp(p) !in calls && forall q :: Rename(p, q) !in calls
    ensures Clears(Refusing(calls, avoid), touched, live)
  {
    forall p: Path, taken: set<Path> ensures CopyOf(p, Refusing(calls, avoid).pick(p, taken)) !in taken {
      RefusingDrawsFree(calls, avoid, p, taken);
    }
  }

  // ---------------------------------------------------------------------------------------
  // What survives without any order: copies stay distinct, apart and on disk
  // ---------------------------------------------------------------------------------------

  ghost predicate Loose(env: Env, touched: set<Path>, x: Txn) {
    && (forall p :: p in x.placed ==> p in touched)
    && (forall m :: m in x.aside ==> m.live in touched && Drawn(env, touched, m.backup) && m.backup in x.files)
    && (forall i, j :: 0 <= i < j < |x.aside| ==> x.aside[i].backup != x.aside[j].backup)
  }

  /** y is x after p was moved aside to copy, or left alone because nothing was there. */
  ghost predicate Moved(env: Env, touched: set<Path>, x: Txn, p: Path, y: Txn) {
    && !y.failed && y.placed == x.placed && p !in y.files
    && (p !in x.files ==> y.files == x.files && y.aside == x.aside)
    && (p in x.files ==>
          && |y.aside| == |x.aside| + 1 && y.aside[..|x.aside|] == x.aside
          && var m := y.aside[|x.aside|];
             && m.live == p && Drawn(env, touched, m.backup) && m.backup !in x.files
             && y.files == (x.files - {p})[m.backup := x.files[p]])
  }

  lemma MovesWhereServed(env: Env, touched: set<Path>, x: Txn, p: Path, live: Path)
    requires !x.failed && p in touched && Clears(env, touched, live) && HonestStat(env) && !Drawn(env, touched, p)
    ensures Moved(env, touched, x, p, MoveAside(env, x, p))
  {
    var backup := CopyOf(p, env.pick(p, x.files.Keys));
    assert backup !in x.files.Keys && env.ok(Stat(p), x.clock);
    CopyIsDrawn(env, touched, p, x.files.Keys);
  }

  lemma MovedKeepsLoose(env: Env, touched: set<Path>, x: Txn, p: Path, y: Txn)
    requires Loose(env, touched, x) && Moved(env, touched, x, p, y) && p in touched
    requires forall q :: q in touched ==> !Drawn(env, touched, q)
    ensures Loose(env, touched, y)
  {
    if p in x.files {
      assert y.aside == x.aside + [y.aside[|x.aside|]];
    }
  }

  /** The last copy taken of `home` holds `data`. */
  ghost predicate LastHolds(x: Txn, home: Path, data: Bytes) {
    exists i :: LastCopy(x.aside, i, home) && x.aside[i].backup in x.files && x.files[x.aside[i].backup] == data
  }

  lemma MovedTakesLast(env: Env, touched: set<Path>, x: Txn, p: Path, y: Txn)
    requires Moved(env, touched, x, p, y) && p in x.files
    ensures LastHolds(y, p, x.files[p])
  {
    assert LastCopy(y.aside, |x.aside|, p);
  }

  lemma MovedKeepsLast(env: Env, touched: set<Path>, x: Txn, p: Path, y: Txn, home: Path, data: Bytes)
    requires Loose(env, touched, x) && Moved(env, touched, x, p, y) && p in touched && p != home
    requires forall q :: q in touched ==> !Drawn(env, touched, q)
    requires LastHolds(x, home, data)
    ensures LastHolds(y, home, data)
  {
    hide Drawn;
    var i :| LastCopy(x.aside, i, home) && x.aside[i].backup in x.files && x.files[x.aside[i].backup] == data;
    assert x.aside[i] in x.aside && x.aside[i].backup != p;
    if p in x.files {
      forall j | 0 <= j < |x.aside| ensures y.aside[j] == x.aside[j] {
        assert y.aside[..|x.aside|][j] == y.aside[j];
      }
      hide Loose;
      assert LastCopy(y.aside, i, home);
    }
  }

  /** One move takes the file at `home` aside or leaves it, and keeps the last copy of another path. */
  lemma MoveOne(env: Env, touched: set<Path>, x: Txn, p: Path, live: Path, home: Path, data: Bytes)
    requires !x.failed && Loose(env, touched, x) && p in touched && home in touched
    requires Clears(env, touched, live) && HonestStat(env) && forall q :: q in touched ==> !Drawn(env, touched, q)
    ensures var y := MoveAside(env, x, p);
            && !y.failed && y.placed == x.placed && Loose(env, touched, y)
            && (home in x.files && x.files[home] == data ==>
                  if p == home then LastHolds(y, home, data) else home in y.files && y.files[home] == data)
            && (p != home && LastHolds(x, home, data) ==> LastHolds(y, home, data))
  {
    hide MoveAside, LastHolds, Clears, HonestStat;
    var y := MoveAside(env, x, p);
    MovesWhereServed(env, touched, x, p, live);
    MovedKeepsLoose(env, touched, x, p, y);
    if p == home && p in x.files {
      MovedTakesLast(env, touched, x, p, y);
    }
    if p != home && LastHolds(x, home, data) {
      MovedKeepsLast(env, touched, x, p, y, home, data);
    }
  }

  /** Clearing the way for an entry, every call served, takes a file standing on one of the paths the
      entry aims at as the last copy of that path. */
  lemma ClearTakes(env: Env, touched: set<Path>, x: Txn, e: Staged, home: Path)
    requires !x.failed && Loose(env, touched, x)
    requires Clears(env, touched, e.live) && HonestStat(env) && forall q :: q in touched ==> !Drawn(env, touched, q)
    requires e.live in touched && SidecarNames(e, touched) && home in touched
    ensures var y := Clear(env, x, e);
            && !y.failed && y.placed == x.placed && Loose(env, touched, y)
            && (home in x.files && Clobbers(e.live, home) ==> LastHolds(y, home, x.files[home]))
  {
    hide Moved, Loose, LastHolds, MoveAside, SidecarNames, Drawn, HonestStat, MakeDir, Clears, IsDb, Wal, Shm;
    var data := if home in x.files then x.files[home] else [];
    var x1 := MakeDir(env, x, e.live);
    MkdirServed(env, touched, x, e.live);
    LooseFrame(env, touched, x, x1);
    var x2 := MoveAside(env, x1, e.live);
    MoveOne(env, touched, x1, e.live, e.live, home, data);
    if IsDb(e.live) {
      SidecarsApart(e.live);
      SidecarsNamed(e, touched);
      var x3 := MoveAside(env, x2, Wal(e.live));
      MoveOne(env, touched, x2, Wal(e.live), e.live, home, data);
      MoveOne(env, touched, x3, Shm(e.live), e.live, home, data);
    }
  }

  lemma MkdirServed(env: Env, touched: set<Path>, x: Txn, p: Path)
    requires !x.failed && Clears(env, touched, p)
    ensures var y := MakeDir(env, x, p);
            !y.failed && y == x.(clock := y.clock)
  {
    assert env.ok(Mkdir(p), x.clock);
  }

  lemma LooseFrame(env: Env, touched: set<Path>, x: Txn, y: Txn)
    requires Loose(env, touched, x) && y == x.(clock := y.clock, failed := y.failed)
    ensures Loose(env, touched, y)
  {
  }

  lemma SidecarsApart(p: Path)
    ensures Wal(p) != p && Shm(p) != p && Wal(p) != Shm(p)
  {
    assert |Wal(p).text| == |p.text| + 4 && |Shm(p).text| == |p.text| + 4;
    assert Wal(p).text[|p.text| + 1] == 'w' && Shm(p).text[|p.text| + 1] == 's';
  }

  lemma SidecarsNamed(s: Staged, touched: set<Path>)
    requires SidecarNames(s, touched) && IsDb(s.live)
    ensures Wal(s.live) in touched && Shm(s.live) in touched
  {
  }

  lemma LooseIsSeparate(env: Env, touched: set<Path>, x: Txn)
    requires Loose(env, touched, x) && forall q :: q in touched ==> !Drawn(env, touched, q)
    ensures Separate(x.files - (set q | q in x.placed), x.aside)
  {
    hide Drawn;
    forall m | m in x.aside ensures m.backup !in x.placed && m.backup !in Homes(x.aside) {}
  }

  /** What the rollback of a loose commit leaves at a path some copy was taken of. */
  lemma LooseRollback(env: Env, touched: set<Path>, x: Txn, home: Path, data: Bytes)
    requires UndoWorks(env) && Loose(env, touched, x) && LastHolds(x, home, data)
    requires forall q :: q in touched ==> !Drawn(env, touched, q)
    ensures var after := Rollback(env, x).files; home in after && after[home] == data
  {
    hide Rollback, UndoWorks, Loose, Drawn;
    LooseIsSeparate(env, touched, x);
    RollbackBackAt(env, x, home);
    var i :| LastCopy(x.aside, i, home) && x.aside[i].backup in x.files && x.files[x.aside[i].backup] == data;
    assert x.aside[i] in x.aside;
  }

  lemma TracksLoose(env: Env, before: Files, staged: seq<Staged>, touched: set<Path>, x: Txn)
    requires Names(env, before, staged, touched) && Tracks(env, before, staged, touched, x)
    ensures Loose(env, touched, x)
  {
    forall i | 0 <= i < |x.placed| ensures x.placed[i] in touched { assert staged[i] in staged; }
    hide Drawn;
  }

  // ---------------------------------------------------------------------------------------
  // A disordered commit, one of its renames refused
  // ---------------------------------------------------------------------------------------

  lemma FirstClobber(staged: seq<Staged>, n: nat) returns (i: nat, j: nat)
    requires n <= |staged| && !OrderedUpTo(staged, n)
    ensures i < j < n && Clobbers(staged[j].live, staged[i].live) && OrderedUpTo(staged, j)
  {
    if OrderedUpTo(staged, n - 1) {
      j := n - 1;
      i :| 0 <= i < j && Clobbers(staged[j].live, staged[i].live);
    } else {
      i, j := FirstClobber(staged, n - 1);
    }
  }

  /** The entry can never be renamed into place. */
  ghost predicate Refuses(env: Env, s: Staged) {
    forall t: nat :: !env.ok(Rename(s.temp, s.live), t)
  }

  /** Whatever comes before it, an entry whose last rename is refused fails. */
  lemma RefusedEntry(env: Env, x: Txn, s: Staged)
    requires Refuses(env, s)
    ensures Entry(env, x, s).failed
    ensures var y := Clear(env, x, s);
            !y.failed ==> Entry(env, x, s) == y.(clock := y.clock + 1, failed := true)
  {
    hide Clear;
  }

  lemma {:induction false} FailedForward(env: Env, x: Txn, staged: seq<Staged>, n: nat)
    requires n <= |staged| && Forward(env, x, staged[..n]).failed
    ensures Forward(env, x, staged) == Forward(env, x, staged[..n])
  {
    hide Entry;
    if n == |staged| {
      assert staged[..n] == staged;
    } else {
      var m := |staged| - 1;
      assert staged[..m][..n] == staged[..n];
      FailedForward(env, x, staged[..m], n);
      FailedStays(env, Forward(env, x, staged[..m]), staged[m]);
    }
  }

  /** Entry j cannot be renamed into place; nothing else is refused. */
  ghost function Stopping(staged: seq<Staged>, j: nat): Env
    requires j < |staged|
  {
    Refusing({Rename(staged[j].temp, staged[j].live)}, Named(staged))
  }

  lemma StoppingServes(before: Files, staged: seq<Staged>, j: nat)
    requires WellStaged(before, staged) && j < |staged|
    ensures var env := Stopping(staged, j);
            && HonestStat(env) && UndoWorks(env) && DrawsApart(env, staged)
            && Clears(env, Touched(staged), staged[j].live)
            && (forall i :: 0 <= i < j ==> Serves(env, Touched(staged), staged[i]))
            && Refuses(env, staged[j])
  {
    var calls := {Rename(staged[j].temp, staged[j].live)};
    RefusingDrawsApart(calls, staged);
    assert staged[j].temp in Temps(staged);
    forall i | 0 <= i <= j ensures Clears(Stopping(staged, j), Touched(staged), staged[i].live) {
      RefusingClears(calls, Named(staged), Touched(staged), staged[i].live);
    }
  }

  /** The rollback of a commit stopped at the first disordered entry leaves staged bytes where the
      original was. */
  lemma ClobberedRollback(before: Files, staged: seq<Staged>, i: nat, j: nat)
    requires WellStaged(before, staged)
    requires i < j < |staged| && Clobbers(staged[j].live, staged[i].live) && OrderedUpTo(staged, j)
    ensures var env := Stopping(staged, j);
            var x := Forward(env, Start(before, 0), staged[..j + 1]);
            && x.failed
            && var after := Rollback(env, x).files;
               staged[i].live in after && after[staged[i].live] == before[staged[i].temp]
  {
    var s, env, touched, home := staged[j], Stopping(staged, j), Touched(staged), staged[i].live;
    var data := before[staged[i].temp];
    hide *;
    StoppingServes(before, staged, j);
    TouchedNames(env, before, staged);
    assert s in staged && staged[i] in staged;
    LiveIsTouched(env, before, staged, touched, s);
    LiveIsTouched(env, before, staged, touched, staged[i]);
    PrefixPlaces(env, before, staged, touched, j, i);
    var x0 := Forward(env, Start(before, 0), staged[..j]);
    NoneDrawn(env, before, staged, touched);
    ClearTakes(env, touched, x0, s, home);
    RefusedEntry(env, x0, s);
    ForwardStep(env, Start(before, 0), staged, j);
    var y, x := Clear(env, x0, s), Entry(env, x0, s);
    LooseFrame(env, touched, y, x);
    HoldsFrame(y, x, home, data);
    LooseRollback(env, touched, x, home, data);
  }

  lemma NoneDrawn(env: Env, before: Files, staged: seq<Staged>, touched: set<Path>)
    requires Names(env, before, staged, touched)
    ensures forall q :: q in touched ==> !Drawn(env, touched, q)
  {
  }

  lemma ForwardStep(env: Env, x: Txn, staged: seq<Staged>, n: nat)
    requires n < |staged|
    ensures Forward(env, x, staged[..n + 1]) == Entry(env, Forward(env, x, staged[..n]), staged[n])
  {
    hide Entry;
    assert staged[..n + 1][..n] == staged[..n];
  }

  /** A served, ordered prefix goes through, and its files are in place. */
  lemma PrefixPlaces(env: Env, before: Files, staged: seq<Staged>, touched: set<Path>, n: nat, i: nat)
    requires Names(env, before, staged, touched) && forall s :: s in staged ==> SidecarNames(s, touched)
    requires i < n <= |staged| && OrderedUpTo(staged, n)
    requires forall k :: 0 <= k < n ==> Serves(env, touched, staged[k])
    ensures var x := Forward(env, Start(before, 0), staged[..n]);
            && !x.failed && |x.placed| == n && Tracks(env, before, staged, touched, x) && Loose(env, touched, x)
            && staged[i].live in x.files && x.files[staged[i].live] == before[staged[i].temp]
  {
    hide SidecarNames, Loose, Serves, Drawn;
    ForwardGoes(env, before, 0, staged, touched, n);
    ForwardKeeps(env, before, 0, staged, touched, n);
    TracksLoose(env, before, staged, touched, Forward(env, Start(before, 0), staged[..n]));
  }

  lemma HoldsFrame(y: Txn, x: Txn, home: Path, data: Bytes)
    requires LastHolds(y, home, data) && x == y.(clock := x.clock, failed := x.failed)
    ensures LastHolds(x, home, data)
  {
  }

  /** With an honest Stat and a working rollback, no run of the commit can fail with the disk changed. */
  ghost predicate NeverHalfDone(before: Files, staged: seq<Staged>) {
    forall env: Env, clock: nat |
      HonestStat(env) && UndoWorks(env) && DrawsApart(env, staged) && Commit(env, before, clock, staged).failed ::
      Untouched(before, staged, Commit(env, before, clock, staged).files)
  }

  /** The promise of `commitRestore` holds of a staged set for every environment with an honest
      Stat and a working rollback exactly when no staged file is the live path, or a sidecar of
      the live path, of a later staged entry. */
  lemma OrderIsExact(before: Files, staged: seq<Staged>)
    requires WellStaged(before, staged)
    requires forall s :: s in staged && s.live in before ==> before[s.live] != before[s.temp]
    ensures Ordered(staged) <==> NeverHalfDone(before, staged)
  {
    hide WellStaged, Commit, Untouched, HonestStat, UndoWorks, DrawsApart, Stopping, Serves, Clears;
    if Ordered(staged) {
      hide Ordered;
      forall env: Env, clock: nat |
        HonestStat(env) && UndoWorks(env) && DrawsApart(env, staged) && Commit(env, before, clock, staged).failed
        ensures Untouched(before, staged, Commit(env, before, clock, staged).files)
      {
        AllOrNothing(env, before, clock, staged);
      }
    } else {
      var i, j := FirstClobber(staged, |staged|);
      HalfDone(before, staged, i, j);
    }
  }

  lemma HalfDone(before: Files, staged: seq<Staged>, i: nat, j: nat)
    requires WellStaged(before, staged)
    requires i < j < |staged| && Clobbers(staged[j].live, staged[i].live) && OrderedUpTo(staged, j)
    requires staged[i].live in before ==> before[staged[i].live] != before[staged[i].temp]
    ensures var env := Stopping(staged, j);
            var end := Commit(env, before, 0, staged);
            && HonestStat(env) && UndoWorks(env) && DrawsApart(env, staged)
            && end.failed && !Untouched(before, staged, end.files)
  {
    var env := Stopping(staged, j);
    var home := staged[i].live;
    assert staged[i] in staged;
    assert home in Touched(staged) && home !in Temps(staged);
    hide Touched, WellStaged, Stopping, Forward, Rollback, Clobbers, Serves, Clears, Temps, HonestStat, UndoWorks, DrawsApart;
    StoppingServes(before, staged, j);
    ClobberedRollback(before, staged, i, j);
    FailedForward(env, Start(before, 0), staged, j + 1);
    var end := Commit(env, before, 0, staged);
    assert end.files[home] == before[staged[i].temp];
    assert !Same(before, end.files, home);
  }
}
