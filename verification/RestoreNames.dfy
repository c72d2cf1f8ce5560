/** What a commit does to a disk, said of file names: which files may come, change and go. */
module RestoreNames {
  import opened RestoreModel
  import opened RestoreProofs
  import opened RestoreSuccess
  import opened RestoreExact

  /** p is what SQLite keeps beside a database file at q. */
  ghost predicate Beside(q: Path, p: Path) {
    exists d: string :: q.text == d + ".db" && (p.text == d + ".db-wal" || p.text == d + ".db-shm")
  }

  ghost predicate IsLive(staged: seq<Staged>, p: Path) {
    exists s :: s in staged && s.live == p
  }

  ghost predicate IsTemp(staged: seq<Staged>, p: Path) {
    exists s :: s in staged && s.temp == p
  }

  ghost predicate IsBeside(staged: seq<Staged>, p: Path) {
    exists s :: s in staged && Beside(s.live, p)
  }

  /** p has the name of a copy of a path that is staged or beside one. */
  ghost predicate IsCopy(staged: seq<Staged>, p: Path) {
    exists q: Path, suffix: string ::
      p.text == q.text + ".restore-bak-" + suffix && (IsLive(staged, q) || IsBeside(staged, q))
  }

  /** Every staged file is live with its bytes; no other file has come or changed; besides the temps,
      what has gone belonged to a database that was replaced; and nothing of the kind is left. */
  ghost predicate Exchanged(before: Files, staged: seq<Staged>, after: Files) {
    && (forall s :: s in staged ==> s.temp in before && s.live in after && after[s.live] == before[s.temp] && s.temp !in after)
    && (forall p :: p in after && !IsLive(staged, p) ==> p in before && after[p] == before[p])
    && (forall p :: p in before && p !in after ==> IsTemp(staged, p) || IsBeside(staged, p))
    && (forall p :: p in after && IsBeside(staged, p) ==> IsLive(staged, p))
  }

  /** Every file is there with its bytes, staged temps apart; and what has come is a copy moved aside. */
  ghost predicate Unharmed(before: Files, staged: seq<Staged>, after: Files) {
    && (forall p :: p in before && !IsTemp(staged, p) ==> p in after && after[p] == before[p])
    && (forall p :: p in before && p in after ==> after[p] == before[p])
    && (forall p :: p in after && p !in before ==> IsCopy(staged, p))
  }

  lemma DatabaseMeans(p: Path)
    ensures IsDb(p) <==> exists d: string :: p.text == d + ".db"
  {
    if IsDb(p) {
      var d := p.text[..|p.text| - 3];
      assert p.text == d + ".db";
    }
    if exists d: string :: p.text == d + ".db" {
      var d: string :| p.text == d + ".db";
      assert p.text[|p.text| - 3..] == ".db";
    }
  }

  lemma BesideMeans(q: Path, p: Path)
    ensures Beside(q, p) <==> p in SidecarsOf(q)
  {
    DatabaseMeans(q);
    forall d: string | q.text == d + ".db"
      ensures (p == Wal(q) <==> p.text == d + ".db-wal") && (p == Shm(q) <==> p.text == d + ".db-shm")
    {
      assert q.text + "-wal" == d + ".db-wal" && q.text + "-shm" == d + ".db-shm";
    }
    if p in SidecarsOf(q) {
      var d: string :| q.text == d + ".db";
    }
    if Beside(q, p) {
      var d: string :| q.text == d + ".db" && (p.text == d + ".db-wal" || p.text == d + ".db-shm");
    }
  }

  /** Which order of two paths the commit cannot undo. */
  lemma ClobbersMeans(later: Path, earlier: Path)
    ensures Clobbers(later, earlier) <==> later == earlier || Beside(later, earlier)
  {
    BesideMeans(later, earlier);
  }

  lemma NamesMean(staged: seq<Staged>, p: Path)
    ensures p in Lives(staged) <==> IsLive(staged, p)
    ensures p in Temps(staged) <==> IsTemp(staged, p)
    ensures p in Sidecars(staged) <==> IsBeside(staged, p)
  {
    hide Beside, Wal, Shm, IsDb;
    forall s: Staged ensures Beside(s.live, p) <==> IsDb(s.live) && (p == Wal(s.live) || p == Shm(s.live)) {
      BesideMeans(s.live, p);
    }
  }

  /** The set is swapped exactly when the disk is exchanged in those terms. */
  lemma SwappedIsExchanged(before: Files, staged: seq<Staged>, after: Files)
    ensures Swapped(before, staged, after) <==> Exchanged(before, staged, after)
  {
    forall p ensures (p in Lives(staged) <==> IsLive(staged, p)) && (p in Temps(staged) <==> IsTemp(staged, p))
      && (p in Sidecars(staged) <==> IsBeside(staged, p))
    {
      NamesMean(staged, p);
    }
    hide Lives, Temps, Sidecars, IsBeside;
  }

  lemma ShapedIsCopy(staged: seq<Staged>, p: Path)
    requires CopyShaped(Touched(staged), p)
    ensures IsCopy(staged, p)
  {
    hide Lives, Sidecars, IsLive, IsBeside;
    var q := ShapedAfter(Touched(staged), p);
    NamesMean(staged, q);
    assert q in Lives(staged) + Sidecars(staged);
    hide Touched;
  }

  /** What a name in the shape of a copy begins with. */
  lemma ShapedAfter(touched: set<Path>, p: Path) returns (q: Path)
    requires CopyShaped(touched, p)
    ensures q in touched && exists suffix: string :: p.text == q.text + ".restore-bak-" + suffix
  {
    q :| q in touched && q.text + BAK <= p.text;
    var suffix := p.text[|q.text + BAK|..];
    assert p.text == q.text + ".restore-bak-" + suffix;
  }

  /** A commit that touched nothing has done no harm. */
  lemma UntouchedIsUnharmed(before: Files, staged: seq<Staged>, after: Files)
    requires Untouched(before, staged, after) && forall s :: s in staged ==> s.temp in before
    ensures Unharmed(before, staged, after)
  {
    hide Lives, Sidecars, Touched, CopyShaped, IsCopy, IsTemp, Temps;
    forall p ensures p in Temps(staged) <==> IsTemp(staged, p) { NamesMean(staged, p); }
    forall p | p in after && p !in before ensures IsCopy(staged, p) {
      assert p !in Temps(staged) by { TempsBefore(before, staged); }
      ShapedIsCopy(staged, p);
    }
  }

  lemma TempsBefore(before: Files, staged: seq<Staged>)
    requires forall s :: s in staged ==> s.temp in before
    ensures forall p :: p in Temps(staged) ==> p in before
  {
  }
}
