/** `backup restore` as it runs: staging every member to a temp file, checking the whole set, and
    handing it to the commit. */
module RestoreRun {
  import opened Options
  import opened RestoreModel
  import opened RestoreProofs
  import opened RestoreCommit
  import opened RestoreSuccess
  import opened RestoreStat
  import opened RestoreNames
  import opened Archive
  import opened ArchiveProofs
  import Paths

  function DirPrefix(s: string): string {
    if s == "" || s[|s| - 1] == '/' then s else DirPrefix(s[..|s| - 1])
  }

  /** A temp file in the directory of its destination. */
  function TempOf(live: Path, suffix: string): Path {
    Path(DirPrefix(live.text) + ".restore-" + suffix + ".tmp")
  }

  /** temp is a hidden file of the directory that live is in. */
  ghost predicate InSameDirectory(live: Path, temp: Path, suffix: string) {
    exists d: string, base: string ::
      && live.text == d + base && '/' !in base && (d == "" || d[|d| - 1] == '/')
      && temp.text == d + ".restore-" + suffix + ".tmp"
  }

  lemma {:induction false} DirPrefixMeans(s: string)
    ensures DirPrefix(s) <= s && '/' !in s[|DirPrefix(s)|..]
    ensures DirPrefix(s) == "" || DirPrefix(s)[|DirPrefix(s)| - 1] == '/'
  {
    if s != "" && s[|s| - 1] != '/' {
      var n := |s| - 1;
      DirPrefixMeans(s[..n]);
      assert s[|DirPrefix(s)|..] == s[..n][|DirPrefix(s)|..] + [s[n]];
    }
  }

  lemma TempIsBeside(live: Path, suffix: string)
    ensures InSameDirectory(live, TempOf(live, suffix), suffix)
  {
    DirPrefixMeans(live.text);
    var d := DirPrefix(live.text);
    assert live.text == d + live.text[|d|..];
  }

  ghost predicate DropWorks(env: Env) {
    forall p: Path, t: nat :: env.ok(DropTemp(p), t)
  }

  /** Every call succeeds, and the names drawn for copies and for temps are free. */
  ghost predicate Willing(env: Env) {
    Obliging(env) && forall live: Path, taken: set<Path> :: TempOf(live, env.pick(live, taken)) !in taken
  }

  /** p is a free name that may be drawn for the temp of a live path. */
  ghost predicate DrawnTemp(env: Env, live: Path, p: Path) {
    exists taken: set<Path> :: p == TempOf(live, env.pick(live, taken)) && p !in taken
  }

  /** s is t staged in a temp file that was not there before. */
  ghost predicate IsStaged(env: Env, before: Files, t: Target, s: Staged, files: Files) {
    && s.live == t.live && s.temp !in before
    && s.temp in files && files[s.temp] == t.data
    && DrawnTemp(env, s.live, s.temp)
  }

  /** Entry k of the staged list holds target k in a fresh temp file, and nothing else changed. */
  ghost predicate Holds(env: Env, before: Files, targets: seq<Target>, staged: seq<Staged>, files: Files) {
    && |staged| == |targets|
    && (forall p :: p in before ==> p in files && files[p] == before[p])
    && (forall p :: p in files && p !in before ==> p in Temps(staged))
    && (forall i :: 0 <= i < |staged| ==> IsStaged(env, before, targets[i], staged[i], files))
    && (forall i, j :: 0 <= i < j < |staged| ==> staged[i].temp != staged[j].temp)
  }

  /** `stageEntry`. */
  method StageEntry(fs: FileSystem, live: Path, data: Bytes) returns (failed: bool, temp: Path)
    modifies fs
    ensures temp == TempOf(live, fs.env.pick(live, old(fs.files).Keys))
    ensures InSameDirectory(live, temp, fs.env.pick(live, old(fs.files).Keys))
    ensures !failed ==> temp !in old(fs.files) && fs.files == old(fs.files)[temp := data]
    ensures failed && DropWorks(fs.env) ==> fs.files == old(fs.files)
    ensures Willing(fs.env) ==> !failed
  {
    temp := TempOf(live, fs.env.pick(live, fs.files.Keys));
    TempIsBeside(live, fs.env.pick(live, fs.files.Keys));
    hide TempOf, InSameDirectory;
    var made := fs.Ask(StageDir(live));
    var created := false;
    if made {
      created := fs.Ask(StageTemp(live));
    }
    failed := !made || !created || temp in fs.files;
    if !failed {
      fs.files := fs.files[temp := data];
      var written := fs.Ask(StageWrite(temp));
      if !written {
        failed := true;
        var dropped := fs.Ask(DropTemp(temp));
        if dropped {
          fs.files := fs.files - {temp};
        }
      }
    }
  }

  /** The deferred removal of every staged temp, errors discarded. */
  method DropTemps(fs: FileSystem, staged: seq<Staged>)
    modifies fs
    ensures DropWorks(fs.env) ==> fs.files == old(fs.files) - Temps(staged)
  {
    for i := 0 to |staged|
      invariant DropWorks(fs.env) ==> fs.files == old(fs.files) - Temps(staged[..i])
    {
      var dropped := fs.Ask(DropTemp(staged[i].temp));
      if dropped {
        fs.files := fs.files - {staged[i].temp};
      }
      assert Temps(staged[..i + 1]) == Temps(staged[..i]) + {staged[i].temp};
    }
    assert staged[..|staged|] == staged;
  }

  lemma HoldsMore(env: Env, before: Files, targets: seq<Target>, staged: seq<Staged>, files: Files,
                  t: Target, temp: Path, after: Files)
    requires Holds(env, before, targets, staged, files)
    requires temp == TempOf(t.live, env.pick(t.live, files.Keys)) && temp !in files && after == files[temp := t.data]
    ensures Holds(env, before, targets + [t], staged + [Staged(t.live, temp)], after)
  {
    var s := Staged(t.live, temp);
    TempsSnoc(staged, s);
    assert temp !in before;
    NewIsStaged(env, before, t, files, temp);
    AllStaged(env, before, targets, staged, files, t, s);
    hide IsStaged, Temps, TempOf;
  }

  lemma AllStaged(env: Env, before: Files, targets: seq<Target>, staged: seq<Staged>, files: Files, t: Target, s: Staged)
    requires Holds(env, before, targets, staged, files) && s.temp !in files
    requires IsStaged(env, before, t, s, files[s.temp := t.data])
    ensures var ts, ss, after := targets + [t], staged + [s], files[s.temp := t.data];
      && (forall i :: 0 <= i < |ss| ==> IsStaged(env, before, ts[i], ss[i], after))
      && (forall i, j :: 0 <= i < j < |ss| ==> ss[i].temp != ss[j].temp)
  {
    hide IsStaged, Temps;
    forall i | 0 <= i < |staged| ensures IsStaged(env, before, targets[i], staged[i], files[s.temp := t.data]) && staged[i].temp != s.temp {
      OldStaysStaged(env, before, targets[i], staged[i], files, s.temp, t.data);
    }
  }

  lemma NewIsStaged(env: Env, before: Files, t: Target, files: Files, temp: Path)
    requires temp == TempOf(t.live, env.pick(t.live, files.Keys)) && temp !in files && temp !in before
    ensures IsStaged(env, before, t, Staged(t.live, temp), files[temp := t.data])
  {
    assert temp !in files.Keys;
    assert DrawnTemp(env, t.live, temp);
  }

  lemma OldStaysStaged(env: Env, before: Files, t: Target, s: Staged, files: Files, temp: Path, data: Bytes)
    requires IsStaged(env, before, t, s, files) && temp !in files
    ensures IsStaged(env, before, t, s, files[temp := data]) && s.temp != temp
  {
    hide DrawnTemp;
  }

  lemma TempsSnoc(staged: seq<Staged>, s: Staged)
    ensures Temps(staged + [s]) == Temps(staged) + {s.temp}
  {
    assert forall e :: e in staged + [s] <==> e in staged || e == s;
  }

  lemma HoldsDropped(env: Env, before: Files, targets: seq<Target>, staged: seq<Staged>, files: Files)
    requires Holds(env, before, targets, staged, files)
    ensures files - Temps(staged) == before
  {
    forall p | p in before ensures p !in Temps(staged) {
      if p in Temps(staged) { var s := OwnerOf(staged, p); }
    }
  }

  lemma {:induction false} ReadErrStays(setup: Setup, members: seq<Member>, n: nat)
    requires n <= |members| && Read(setup, members[..n]).Err?
    ensures Read(setup, members).Err?
  {
    if n == |members| {
      assert members[..n] == members;
    } else {
      var m := |members| - 1;
      assert members[..m][..n] == members[..n];
      ReadErrStays(setup, members[..m], n);
    }
  }

  lemma ReadNext(setup: Setup, members: seq<Member>, i: nat)
    requires i < |members|
    ensures Read(setup, members[..i]).Ok? ==>
              Read(setup, members[..i + 1]) == ReadOne(setup, Read(setup, members[..i]).value, members[i])
  {
    assert members[..i + 1][..i] == members[..i];
  }

  /** The reading loop: what is read agrees with the plan, and every target is staged. On failure
      the temps are removed. */
  method StageAll(fs: FileSystem, setup: Setup, members: seq<Member>)
    returns (failed: bool, manifest: Manifest, staged: seq<Staged>, targets: seq<Target>)
    modifies fs
    ensures !failed ==> && Read(setup, members).Ok?
                        && Read(setup, members).value.manifest == manifest
                        && Read(setup, members).value.targets == targets
                        && Holds(fs.env, old(fs.files), targets, staged, fs.files)
    ensures failed && DropWorks(fs.env) ==> fs.files == old(fs.files)
    ensures failed && Willing(fs.env) ==> Read(setup, members).Err?
  {
    hide Destination, TempOf, Read, DropWorks, Holds, Willing;
    var count := 0;
    manifest, staged, targets, failed := NO_MANIFEST, [], [], false;
    var i := 0;
    assert Read(setup, members[..0]) == Paths.Ok(Reading(0, NO_MANIFEST, [])) by { ReadNothing(setup, members); }
    assert Holds(fs.env, fs.files, [], [], fs.files) by { HoldsNothing(fs.env, fs.files); }
    while i < |members| && !failed
      invariant 0 <= i <= |members|
      invariant !failed ==> Read(setup, members[..i]) == Paths.Ok(Reading(count, manifest, targets))
      invariant failed && Willing(fs.env) ==> Read(setup, members[..i]).Err?
      invariant !failed || DropWorks(fs.env) ==> Holds(fs.env, old(fs.files), targets, staged, fs.files)
    {
      ReadNext(setup, members, i);
      var m := members[i];
      var got := fs.Ask(ReadMember);
      if Willing(fs.env) {
        WillingGoes(fs.env, ReadMember, fs.clock - 1);
      }
      if !got {
        failed := true;
      } else if !m.DirMember? && !m.SpecialMember? {
        if count + 1 > MAX_ENTRIES {
          failed := true;
        } else {
          count := count + 1;
          match m {
            case BadManifestMember => failed := true;
            case ManifestMember(patch, size) =>
              if size > MAX_MANIFEST_SIZE {
                failed := true;
              } else {
                manifest := Merge(manifest, patch);
              }
            case FileMember(name, data) =>
              if |data| > MAX_ENTRY_SIZE || name == MANIFEST {
                failed := true;
              } else {
                var dest := Destination(setup, name);
                if dest.Err? {
                  failed := true;
                } else if dest.value.Some? {
                  var live := dest.value.value;
                  ghost var was := fs.files;
                  var temp;
                  failed, temp := StageEntry(fs, live, data);
                  if !failed {
                    HoldsMore(fs.env, old(fs.files), targets, staged, was, Target(name, live, data), temp, fs.files);
                    staged := staged + [Staged(live, temp)];
                    targets := targets + [Target(name, live, data)];
                  }
                }
              }
          }
        }
      }
      i := i + 1;
    }
    if failed {
      if Willing(fs.env) {
        ReadErrStays(setup, members, i);
      }
      if DropWorks(fs.env) {
        HoldsDropped(fs.env, old(fs.files), targets, staged, fs.files);
      }
      DropTemps(fs, staged);
    } else {
      assert members[..i] == members;
    }
  }

  lemma WillingGoes(env: Env, c: Call, t: nat)
    requires Willing(env)
    ensures env.ok(c, t)
  {
  }

  lemma ReadNothing(setup: Setup, members: seq<Member>)
    ensures Read(setup, members[..0]) == Paths.Ok(Reading(0, NO_MANIFEST, []))
  {
  }

  lemma HoldsNothing(env: Env, files: Files)
    ensures Holds(env, files, [], [], files)
  {
  }

  /** The comparison of every staged file's sum with the manifest's, if it has one. */
  method CheckSums(setup: Setup, manifest: Manifest, targets: seq<Target>) returns (ok: bool)
    ensures ok <==> forall t :: t in targets && t.name in manifest.sums ==> manifest.sums[t.name] == setup.digest(t.data)
  {
    ok := true;
    var i := 0;
    while i < |targets| && ok
      invariant 0 <= i <= |targets|
      invariant ok <==> forall t :: t in targets[..i] && t.name in manifest.sums ==> manifest.sums[t.name] == setup.digest(t.data)
    {
      var t := targets[i];
      assert targets[..i + 1] == targets[..i] + [t];
      if t.name in manifest.sums && manifest.sums[t.name] != setup.digest(t.data) {
        ok := false;
      }
      i := i + 1;
    }
    if !ok {
      assert forall t :: t in targets[..i] ==> t in targets;
    } else {
      assert targets[..i] == targets;
    }
  }

  // ---------------------------------------------------------------------------------------
  // What a restore promises
  // ---------------------------------------------------------------------------------------

  ghost function LivePaths(targets: seq<Target>): set<Path> {
    set t | t in targets :: t.live
  }

  ghost function SidecarPaths(targets: seq<Target>): set<Path> {
    (set t | t in targets && IsDb(t.live) :: Wal(t.live)) + (set t | t in targets && IsDb(t.live) :: Shm(t.live))
  }

  ghost function Planned(targets: seq<Target>): set<Path> {
    LivePaths(targets) + SidecarPaths(targets)
  }

  /** No free name drawn for a copy or a temp is a planned path, nor one for a copy one for a temp. */
  ghost predicate NamesApart(env: Env, targets: seq<Target>) {
    && (forall p :: p in Planned(targets) ==> !Drawn(env, Planned(targets), p))
    && (forall t, p :: t in targets && DrawnTemp(env, t.live, p) ==> p !in Planned(targets) && !Drawn(env, Planned(targets), p))
  }

  /** What the plan asks for: each file in turn put in its place, a database without its sidecars. */
  function Applied(before: Files, targets: seq<Target>): Files {
    if targets == [] then before
    else
      var t := targets[|targets| - 1];
      (Applied(before, targets[..|targets| - 1]) - SidecarsOf(t.live))[t.live := t.data]
  }

  ghost predicate IsPlanned(targets: seq<Target>, p: Path) {
    exists t :: t in targets && t.live == p
  }

  ghost predicate IsBesidePlanned(targets: seq<Target>, p: Path) {
    exists t :: t in targets && Beside(t.live, p)
  }

  /** The planned files are live with their bytes; no other file has come or changed; what has gone
      belonged to a database that was replaced, and nothing of the kind is left. */
  ghost predicate Restored(before: Files, targets: seq<Target>, after: Files) {
    && (forall t :: t in targets ==> t.live in after && after[t.live] == t.data)
    && (forall p :: p in after && !IsPlanned(targets, p) ==> p in before && after[p] == before[p])
    && (forall p :: p in before && p !in after ==> IsBesidePlanned(targets, p))
    && (forall p :: p in after && IsBesidePlanned(targets, p) ==> IsPlanned(targets, p))
  }

  /** The same, by the sets of paths the commit works with. */
  ghost predicate PutInPlace(before: Files, targets: seq<Target>, after: Files) {
    && (forall t :: t in targets ==> t.live in after && after[t.live] == t.data)
    && (forall p :: p in SidecarPaths(targets) && p !in LivePaths(targets) ==> p !in after)
    && (forall p :: p !in LivePaths(targets) && p !in SidecarPaths(targets) ==> Same(before, after, p))
  }

  lemma PlannedMeans(targets: seq<Target>, p: Path)
    ensures p in LivePaths(targets) <==> IsPlanned(targets, p)
    ensures p in SidecarPaths(targets) <==> IsBesidePlanned(targets, p)
  {
    hide Beside, Wal, Shm, IsDb;
    forall t: Target ensures Beside(t.live, p) <==> IsDb(t.live) && (p == Wal(t.live) || p == Shm(t.live)) {
      BesideMeans(t.live, p);
    }
  }

  lemma PutInPlaceIsRestored(before: Files, targets: seq<Target>, after: Files)
    ensures PutInPlace(before, targets, after) <==> Restored(before, targets, after)
  {
    forall p ensures (p in LivePaths(targets) <==> IsPlanned(targets, p)) && (p in SidecarPaths(targets) <==> IsBesidePlanned(targets, p)) {
      PlannedMeans(targets, p);
    }
    hide LivePaths, SidecarPaths, IsBesidePlanned;
  }

  /** p has the name of a copy of a path that is planned or beside one. */
  ghost predicate IsPlanCopy(targets: seq<Target>, p: Path) {
    exists q: Path, suffix: string ::
      p.text == q.text + ".restore-bak-" + suffix && (IsPlanned(targets, q) || IsBesidePlanned(targets, q))
  }

  /** Nothing has changed but that new files may be there under the names of copies. */
  ghost predicate Unchanged(before: Files, targets: seq<Target>, after: Files) {
    && (forall p :: p in before || p in Planned(targets) ==> Same(before, after, p))
    && (forall p :: p in after && p !in before ==> IsPlanCopy(targets, p))
  }

  /** No planned file but the last replaces one. */
  predicate OnlyLastPlannedReplaces(before: Files, targets: seq<Target>) {
    forall i :: 0 <= i < |targets| - 1 ==> targets[i].live !in before
  }

  /** Every sidecar there beside a planned database is planned itself. */
  ghost predicate SidecarsPlanned(before: Files, targets: seq<Target>) {
    forall p :: p in SidecarPaths(targets) && p in before ==> p in LivePaths(targets)
  }

  lemma StagedPaths(env: Env, before: Files, targets: seq<Target>, staged: seq<Staged>, files: Files)
    requires Holds(env, before, targets, staged, files)
    ensures Lives(staged) == LivePaths(targets) && Sidecars(staged) == SidecarPaths(targets)
  {
    SameLives(env, before, targets, staged, files);
    LivesGiveSidecars(targets, staged);
    hide *;
  }

  lemma SameLives(env: Env, before: Files, targets: seq<Target>, staged: seq<Staged>, files: Files)
    requires Holds(env, before, targets, staged, files)
    ensures Lives(staged) == LivePaths(targets)
  {
    forall p | p in Lives(staged) ensures p in LivePaths(targets) {
      var s :| s in staged && s.live == p;
      var i :| 0 <= i < |staged| && staged[i] == s;
      StagedAt(env, before, targets, staged, files, i);
      assert targets[i] in targets;
    }
    forall p | p in LivePaths(targets) ensures p in Lives(staged) {
      var t :| t in targets && t.live == p;
      var i :| 0 <= i < |targets| && targets[i] == t;
      LengthsAgree(env, before, targets, staged, files);
      StagedAt(env, before, targets, staged, files, i);
      assert staged[i] in staged;
    }
    hide *;
  }

  /** The sidecars are those of the live paths. */
  lemma LivesGiveSidecars(targets: seq<Target>, staged: seq<Staged>)
    requires Lives(staged) == LivePaths(targets)
    ensures Sidecars(staged) == SidecarPaths(targets)
  {
    hide Wal, Shm, IsDb;
    forall p | p in Sidecars(staged) ensures p in SidecarPaths(targets) {
      var s :| s in staged && IsDb(s.live) && (p == Wal(s.live) || p == Shm(s.live));
      assert s.live in LivePaths(targets) by { assert s.live in Lives(staged); }
      var t :| t in targets && t.live == s.live;
    }
    forall p | p in SidecarPaths(targets) ensures p in Sidecars(staged) {
      var t :| t in targets && IsDb(t.live) && (p == Wal(t.live) || p == Shm(t.live));
      assert t.live in Lives(staged) by { assert t.live in LivePaths(targets); }
      var s :| s in staged && s.live == t.live;
    }
  }

  lemma TempsApart(env: Env, before: Files, targets: seq<Target>, staged: seq<Staged>, files: Files, s: Staged)
    requires Holds(env, before, targets, staged, files) && NamesApart(env, targets) && s in staged
    ensures s.temp in files && s.temp !in before && s.live in LivePaths(targets)
    ensures s.temp !in Planned(targets) && !Drawn(env, Planned(targets), s.temp)
  {
    hide Planned, DrawnTemp, Drawn;
    var i :| 0 <= i < |staged| && staged[i] == s;
    assert targets[i] in targets && IsStaged(env, before, targets[i], staged[i], files);
  }

  lemma PlannedApart(env: Env, before: Files, targets: seq<Target>, staged: seq<Staged>, files: Files)
    requires Holds(env, before, targets, staged, files) && NamesApart(env, targets)
    ensures Touched(staged) == Planned(targets)
    ensures forall p :: p in Planned(targets) ==> !Drawn(env, Planned(targets), p)
  {
    StagedPaths(env, before, targets, staged, files);
    hide Drawn, Holds, LivePaths, SidecarPaths, Lives, Sidecars;
  }

  /** What was staged meets the conditions of the commit. */
  lemma HoldsIsWellStaged(env: Env, before: Files, targets: seq<Target>, staged: seq<Staged>, files: Files)
    requires Holds(env, before, targets, staged, files) && NamesApart(env, targets)
    ensures WellStaged(files, staged) && DrawsApart(env, staged)
    ensures OrderedTargets(targets) ==> Ordered(staged)
  {
    PlannedApart(env, before, targets, staged, files);
    HoldsOrdered(env, before, targets, staged, files);
    hide IsStaged, Planned, Touched, Drawn, NamesApart, Ordered, OrderedTargets;
    forall s | s in staged ensures s.temp in files && s.temp !in Planned(targets) && !Drawn(env, Planned(targets), s.temp) {
      TempsApart(env, before, targets, staged, files, s);
    }
    forall p | p in Temps(staged) ensures p !in Planned(targets) && !Drawn(env, Planned(targets), p) {
      var s := OwnerOf(staged, p);
    }
    hide Temps;
  }

  lemma HoldsOrdered(env: Env, before: Files, targets: seq<Target>, staged: seq<Staged>, files: Files)
    requires Holds(env, before, targets, staged, files)
    ensures OrderedTargets(targets) ==> Ordered(staged)
  {
    hide Clobbers, DrawnTemp;
    assert forall i :: 0 <= i < |staged| ==> IsStaged(env, before, targets[i], staged[i], files);
  }

  /** Staging a plan and committing it applies it: what the first n entries leave agrees with the
      first n targets but for temps. */
  lemma {:induction false} EffectIsApplied(env: Env, before: Files, targets: seq<Target>, staged: seq<Staged>, mid: Files, n: nat)
    requires Holds(env, before, targets, staged, mid) && n <= |staged|
    requires forall s :: s in staged ==> s.temp in mid && s.temp !in before && s.live !in Temps(staged)
    ensures forall p :: p !in Temps(staged) ==> Same(Applied(before, targets[..n]), Effect(mid, staged[..n]), p)
    ensures forall k :: 0 <= k < n ==> staged[k].temp !in Effect(mid, staged[..n])
    ensures forall p :: p in Temps(staged) ==> p !in Applied(before, targets[..n])
    decreases n
  {
    hide *;
    if n == 0 {
      NothingApplied(env, before, targets, staged, mid);
    } else {
      var m := n - 1;
      LengthsAgree(env, before, targets, staged, mid);
      var s, t := staged[m], targets[m];
      EffectIsApplied(env, before, targets, staged, mid, m);
      StagedAt(env, before, targets, staged, mid, m);
      forall k | 0 <= k < n ensures staged[k].temp in Temps(staged) { TempListed(staged, staged[k]); }
      EffectLater(mid, staged, m);
      AppliedSnoc(before, targets, m);
      SwapAgrees(Temps(staged), Applied(before, targets[..m]), Effect(mid, staged[..m]), s, t.data);
    }
  }

  lemma NothingApplied(env: Env, before: Files, targets: seq<Target>, staged: seq<Staged>, mid: Files)
    requires Holds(env, before, targets, staged, mid)
    requires forall s :: s in staged ==> s.temp in mid && s.temp !in before
    ensures forall p :: p !in Temps(staged) ==> Same(Applied(before, targets[..0]), Effect(mid, staged[..0]), p)
    ensures forall p :: p in Temps(staged) ==> p !in Applied(before, targets[..0])
  {
    hide IsStaged;
    forall p | p in Temps(staged) ensures p !in before { var s := OwnerOf(staged, p); }
  }

  lemma StagedAt(env: Env, before: Files, targets: seq<Target>, staged: seq<Staged>, mid: Files, m: nat)
    requires Holds(env, before, targets, staged, mid) && m < |staged|
    ensures |targets| == |staged| && staged[m].live == targets[m].live
    ensures staged[m].temp in mid && mid[staged[m].temp] == targets[m].data && staged[m].temp !in before
  {
    hide DrawnTemp;
    assert IsStaged(env, before, targets[m], staged[m], mid);
  }

  lemma SwapAgrees(temps: set<Path>, a: Files, e: Files, s: Staged, data: Bytes)
    requires s.temp in temps && s.live !in temps
    requires forall p :: p !in temps ==> Same(a, e, p)
    ensures forall p :: p !in temps ==> Same((a - SidecarsOf(s.live))[s.live := data], Swap(e, s, data), p)
    ensures forall p :: p in temps && p !in e ==> p !in Swap(e, s, data)
    ensures s.temp !in Swap(e, s, data)
    ensures forall p :: p in temps && p !in a ==> p !in (a - SidecarsOf(s.live))[s.live := data]
  {
    hide SidecarsOf;
  }

  lemma AppliedSnoc(before: Files, targets: seq<Target>, m: nat)
    requires m < |targets|
    ensures Applied(before, targets[..m + 1])
            == (Applied(before, targets[..m]) - SidecarsOf(targets[m].live))[targets[m].live := targets[m].data]
  {
    assert targets[..m + 1][..m] == targets[..m];
  }

  /** What a committed run leaves is the plan applied. */
  lemma CommittedIsApplied(env: Env, before: Files, targets: seq<Target>, staged: seq<Staged>, mid: Files)
    requires Holds(env, before, targets, staged, mid) && WellStaged(mid, staged)
    requires forall s :: s in staged ==> s.temp in mid
    ensures Effect(mid, staged) == Applied(before, targets)
  {
    hide *;
    var n := |staged|;
    forall s | s in staged ensures s.temp in mid && s.temp !in before && s.live !in Temps(staged) {
      LiveIsNoTemp(mid, staged, s);
      var k :| 0 <= k < n && staged[k] == s;
      StagedAt(env, before, targets, staged, mid, k);
    }
    LengthsAgree(env, before, targets, staged, mid);
    assert staged[..n] == staged && targets[..n] == targets;
    EffectIsApplied(env, before, targets, staged, mid, n);
    forall p ensures Same(Applied(before, targets), Effect(mid, staged), p) {
      if p in Temps(staged) {
        var s := OwnerOf(staged, p);
        var k :| 0 <= k < n && staged[k] == s;
        NeitherSame(Applied(before, targets), Effect(mid, staged), p);
      }
    }
    SameEverywhere(Applied(before, targets), Effect(mid, staged));
  }

  lemma LengthsAgree(env: Env, before: Files, targets: seq<Target>, staged: seq<Staged>, mid: Files)
    requires Holds(env, before, targets, staged, mid)
    ensures |targets| == |staged|
  {
  }

  lemma LiveIsNoTemp(mid: Files, staged: seq<Staged>, s: Staged)
    requires WellStaged(mid, staged) && s in staged
    ensures s.live !in Temps(staged)
  {
    assert s.live in Lives(staged);
    hide Sidecars;
  }

  lemma NeitherSame(a: Files, b: Files, p: Path)
    requires p !in a && p !in b
    ensures Same(a, b, p)
  {
  }

  lemma SameEverywhere(a: Files, b: Files)
    requires forall p :: Same(a, b, p)
    ensures a == b
  {
    forall p ensures (p in a <==> p in b) && (p in a ==> a[p] == b[p]) {
      assert Same(a, b, p);
    }
  }

  /** A plan in an order the commit can undo is applied without one file getting in the way of
      another. */
  lemma AppliedIsRestored(before: Files, targets: seq<Target>)
    requires OrderedTargets(targets)
    ensures Restored(before, targets, Applied(before, targets))
  {
    AppliedInPlace(before, targets);
    PutInPlaceIsRestored(before, targets, Applied(before, targets));
  }

  lemma {:induction false} AppliedInPlace(before: Files, targets: seq<Target>)
    requires OrderedTargets(targets)
    ensures PutInPlace(before, targets, Applied(before, targets))
  {
    if targets != [] {
      var n := |targets| - 1;
      var rest, t := targets[..n], targets[n];
      assert rest + [t] == targets;
      assert OrderedTargets(rest);
      AppliedInPlace(before, rest);
      forall u | u in rest ensures u.live != t.live && u.live !in SidecarsOf(t.live) {
        var k :| 0 <= k < n && rest[k] == u;
        assert !Clobbers(targets[n].live, targets[k].live);
      }
      InPlaceSnoc(before, rest, Applied(before, rest), t);
    }
  }

  lemma InPlaceSnoc(before: Files, rest: seq<Target>, mid: Files, t: Target)
    requires PutInPlace(before, rest, mid)
    requires forall u :: u in rest ==> u.live != t.live && u.live !in SidecarsOf(t.live)
    ensures PutInPlace(before, rest + [t], (mid - SidecarsOf(t.live))[t.live := t.data])
  {
    PlannedSnoc(rest, t);
    hide LivePaths, SidecarPaths, SidecarsOf;
    assert forall u :: u in rest + [t] <==> u in rest || u == t;
  }

  lemma PlannedSnoc(rest: seq<Target>, t: Target)
    ensures LivePaths(rest + [t]) == LivePaths(rest) + {t.live}
    ensures SidecarPaths(rest + [t]) == SidecarPaths(rest) + SidecarsOf(t.live)
    ensures forall u :: u in rest ==> u.live in LivePaths(rest)
    ensures forall p :: p in LivePaths(rest) ==> exists u :: u in rest && u.live == p
  {
    assert forall u :: u in rest + [t] <==> u in rest || u == t;
  }

  lemma RolledBackIsUnchanged(env: Env, before: Files, targets: seq<Target>, staged: seq<Staged>, mid: Files, after: Files)
    requires Holds(env, before, targets, staged, mid) && Untouched(mid, staged, after)
    ensures Unchanged(before, targets, after - Temps(staged))
  {
    StagedPaths(env, before, targets, staged, mid);
    hide LivePaths, SidecarPaths, Lives, Sidecars, DrawnTemp, CopyShaped, IsStaged;
    assert Touched(staged) == Planned(targets);
    forall p | p in before || p in Touched(staged) || !CopyShaped(Touched(staged), p)
      ensures Same(before, after - Temps(staged), p)
    {
      if p in Temps(staged) {
        var s := OwnerOf(staged, p);
        var k :| 0 <= k < |staged| && staged[k] == s;
        StagedAt(env, before, targets, staged, mid, k);
      }
    }
    forall p | p in after - Temps(staged) && p !in before ensures IsPlanCopy(targets, p) {
      ShapedIsPlanCopy(targets, p);
    }
  }

  lemma ShapedIsPlanCopy(targets: seq<Target>, p: Path)
    requires CopyShaped(Planned(targets), p)
    ensures IsPlanCopy(targets, p)
  {
    hide LivePaths, SidecarPaths, IsPlanned, IsBesidePlanned;
    var q := ShapedAfter(Planned(targets), p);
    PlannedMeans(targets, q);
    assert q in LivePaths(targets) + SidecarPaths(targets);
    hide Planned;
  }

  lemma TouchedBefore(env: Env, before: Files, targets: seq<Target>, staged: seq<Staged>, mid: Files, p: Path)
    requires Holds(env, before, targets, staged, mid) && WellStaged(mid, staged)
    requires p in Touched(staged) && p in mid
    ensures p in before
  {
    hide Touched, Temps, IsStaged;
  }

  /** The plan's conditions for a Stat that fails are those of the staged set. */
  lemma BlindConditions(env: Env, before: Files, targets: seq<Target>, staged: seq<Staged>, mid: Files)
    requires Holds(env, before, targets, staged, mid) && WellStaged(mid, staged) && Ordered(staged)
    requires forall s :: s in staged ==> s.temp in mid
    ensures OnlyLastPlannedReplaces(before, targets) ==> OnlyLastReplaces(mid, staged)
    ensures SidecarsPlanned(before, targets) ==> Leftover(mid, staged) == {}
  {
    StagedPaths(env, before, targets, staged, mid);
    SidecarsReplacedIs(mid, staged);
    OrderedReplaced(mid, staged);
    hide LivePaths, SidecarPaths, SidecarsReplaced, Ordered, Leftover, WellStaged, Holds, Lives, Sidecars;
    forall p | p in Touched(staged) && p in mid ensures p in before {
      TouchedBefore(env, before, targets, staged, mid, p);
    }
    forall i | 0 <= i < |staged| ensures staged[i].live in Touched(staged) && |targets| == |staged| && targets[i].live == staged[i].live {
      LiveListed(staged, staged[i]);
      StagedAt(env, before, targets, staged, mid, i);
    }
    LengthsAgree(env, before, targets, staged, mid);
  }

  lemma LiveListed(staged: seq<Staged>, s: Staged)
    requires s in staged
    ensures s.live in Lives(staged)
  {
  }

  /** `backupRestore`: refuse an existing database unless forced, stage, check, commit; a failed
      run drops every staged temp. */
  method BackupRestore(fs: FileSystem, setup: Setup, members: seq<Member>, targetDB: Path) returns (failed: bool)
    modifies fs
    ensures !failed ==> Plan(setup, members).Ok?
    ensures Plan(setup, members).Err? && DropWorks(fs.env) ==> failed && fs.files == old(fs.files)
    ensures Plan(setup, members).Ok? && NamesApart(fs.env, Plan(setup, members).value) ==>
              var plan := Plan(setup, members).value;
              && (failed && UndoWorks(fs.env) && DropWorks(fs.env) && OrderedTargets(plan)
                    && (HonestStat(fs.env) || OnlyLastPlannedReplaces(old(fs.files), plan)) ==>
                    Unchanged(old(fs.files), plan, fs.files))
              && (!failed && SweepWorks(fs.env)
                    && (HonestStat(fs.env) || (OrderedTargets(plan) && SidecarsPlanned(old(fs.files), plan))) ==>
                    && fs.files == Applied(old(fs.files), plan)
                    && (OrderedTargets(plan) ==> Restored(old(fs.files), plan, fs.files)))
              && (Willing(fs.env) && (setup.force || targetDB !in old(fs.files)) ==> !failed)
    ensures !setup.force && HonestStat(fs.env) && targetDB in old(fs.files) ==> failed && fs.files == old(fs.files)
  {
    hide Read, DropWorks, HonestStat, UndoWorks, SweepWorks, OrderedTargets, NamesApart, Unchanged, Restored, Applied, Holds,
      Willing, Obliging, OnlyLastPlannedReplaces, SidecarsPlanned, OnlyLastReplaces, Leftover, Effect, WellStaged, DrawsApart,
      Ordered, Untouched, Swapped, Commit;
    ghost var before := fs.files;
    UnchangedSame(before);
    if !setup.force {
      var seen := fs.Ask(Stat(targetDB));
      if HonestStat(fs.env) {
        StatSees(fs.env, targetDB, fs.clock - 1);
      }
      if seen && targetDB in fs.files {
        return true;
      }
    }
    var manifest, staged, targets;
    failed, manifest, staged, targets := StageAll(fs, setup, members);
    if failed {
      return;
    }
    var sumsOk := manifest.created != "";
    if sumsOk {
      sumsOk := CheckSums(setup, manifest, targets);
    }
    if !sumsOk || !SchemaFits(setup, manifest) {
      HoldsDropped(fs.env, before, targets, staged, fs.files);
      DropTemps(fs, staged);
      failed := true;
      return;
    }
    assert Plan(setup, members) == Paths.Ok(targets);
    ghost var mid, clock := fs.files, fs.clock;
    failed := fs.CommitRestore(staged);
    ghost var after := fs.files;
    if failed {
      DropTemps(fs, staged);
    }
    if NamesApart(fs.env, targets) {
      Settled(fs.env, before, targets, staged, mid, clock, failed, after);
    }
  }

  /** What the outcome of the commit means for the run, with every temp dropped after a failure. */
  lemma Settled(env: Env, before: Files, targets: seq<Target>, staged: seq<Staged>, mid: Files, clock: nat,
                failed: bool, after: Files)
    requires Holds(env, before, targets, staged, mid) && NamesApart(env, targets)
    requires Commit(env, mid, clock, staged).failed == failed && Commit(env, mid, clock, staged).files == after
    ensures Willing(env) ==> !failed
    ensures failed && UndoWorks(env) && OrderedTargets(targets)
              && (HonestStat(env) || OnlyLastPlannedReplaces(before, targets)) ==>
              Unchanged(before, targets, after - Temps(staged))
    ensures !failed && SweepWorks(env)
              && (HonestStat(env) || (OrderedTargets(targets) && SidecarsPlanned(before, targets))) ==>
              && after == Applied(before, targets)
              && (OrderedTargets(targets) ==> Restored(before, targets, after))
  {
    hide *;
    HoldsIsWellStaged(env, before, targets, staged, mid);
    TempsThere(mid, staged);
    CommittedIsApplied(env, before, targets, staged, mid);
    if OrderedTargets(targets) {
      BlindConditions(env, before, targets, staged, mid);
      AppliedIsRestored(before, targets);
    }
    if Willing(env) {
      WillingObliges(env);
      CommitSucceeds(env, mid, clock, staged);
    }
    if failed && UndoWorks(env) && OrderedTargets(targets) && (HonestStat(env) || OnlyLastPlannedReplaces(before, targets)) {
      AllOrNothing(env, mid, clock, staged);
      RolledBackIsUnchanged(env, before, targets, staged, mid, after);
    }
    if !failed && SweepWorks(env) && (HonestStat(env) || (OrderedTargets(targets) && SidecarsPlanned(before, targets))) {
      SuccessIsEffect(env, mid, clock, staged);
    }
  }

  lemma StatSees(env: Env, p: Path, t: nat)
    requires HonestStat(env)
    ensures env.ok(Stat(p), t)
  {
  }

  lemma WillingObliges(env: Env)
    requires Willing(env)
    ensures Obliging(env) && HonestStat(env) && SweepWorks(env)
  {
  }

  lemma UnchangedSame(before: Files)
    ensures forall targets: seq<Target> :: Unchanged(before, targets, before)
  {
  }
}
