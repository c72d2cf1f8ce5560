/** An archive that `backup create` wrote, restored: what the source held is back, and the logs of the
    databases that were there are gone. */
module RestoreRoundTrip {
  import opened Options
  import opened RestoreModel
  import opened RestoreProofs
  import opened RestoreCommit
  import opened RestoreSuccess
  import opened RestoreNames
  import opened Archive
  import opened ArchiveProofs
  import opened ArchiveContents
  import opened RestoreRun
  import Paths

  predicate ConfigGiven(setup: Setup, src: Source) {
    src.config.Some? && setup.configPath != ""
  }

  /** p is where the config file is restored to, or is kept beside it. */
  ghost predicate ConfigTakes(setup: Setup, src: Source, p: Path) {
    ConfigGiven(setup, src) && (p == ConfigPath(setup) || Beside(ConfigPath(setup), p))
  }

  /** Some held file is restored to p. */
  ghost predicate HeldAt(setup: Setup, src: Source, p: Path) {
    exists parts, data :: Held(src, parts, data) && p == LiveOf(setup, parts)
  }

  /** p belongs to a database that is restored. */
  ghost predicate BesideHeld(setup: Setup, src: Source, p: Path) {
    exists parts, data :: Held(src, parts, data) && Beside(LiveOf(setup, parts), p)
  }

  /** The log and the shared memory of the database so named are gone, unless the config file is there. */
  ghost predicate NoLog(setup: Setup, src: Source, after: Files, db: string) {
    forall suffix :: suffix in {"-wal", "-shm"} && Path(LiveOf(setup, [db]).text + suffix) in after ==>
      ConfigGiven(setup, src) && Path(LiveOf(setup, [db]).text + suffix) == ConfigPath(setup)
  }

  /** What a restored source looks like: the config file at the config path, every kept file and
      database snapshot it does not take the place of where it belongs with its own bytes, none of
      the logs of the databases that were there, and nothing else touched. */
  ghost predicate RoundTripped(setup: Setup, src: Source, before: Files, after: Files)
  {
    && (forall parts, data :: Held(src, parts, data) && !ConfigTakes(setup, src, LiveOf(setup, parts)) ==>
          LiveOf(setup, parts) in after && after[LiveOf(setup, parts)] == data)
    && (ConfigGiven(setup, src) ==> ConfigPath(setup) in after && after[ConfigPath(setup)] == src.config.value)
    && (forall p :: p in after && (p !in before || after[p] != before[p]) ==>
          HeldAt(setup, src, p) || (ConfigGiven(setup, src) && p == ConfigPath(setup)))
    && (forall p :: p in before && p !in after ==>
          BesideHeld(setup, src, p) || (ConfigGiven(setup, src) && Beside(ConfigPath(setup), p)))
    && NoLog(setup, src, after, "openccu-loom.db")
    && (src.history.Some? ==> NoLog(setup, src, after, "history.db"))
  }

  /** The planned targets under state/ are the held files, each at its own place. */
  ghost predicate PlansHeld(setup: Setup, src: Source) {
    && (forall parts, data :: Held(src, parts, data) ==>
          exists t :: t in StateTargets(setup, src) && t.live == LiveOf(setup, parts) && t.data == data)
    && (forall t :: t in StateTargets(setup, src) ==> exists parts :: Held(src, parts, t.data) && t.live == LiveOf(setup, parts))
  }

  lemma HeldIsPlanned(setup: Setup, src: Source)
    requires WellFormed(src.dir)
    requires forall t :: t in StateTargets(setup, src) <==> exists e :: e in StateEntries(src) && IsTargetOf(setup, e, t)
    ensures PlansHeld(setup, src)
  {
    hide WellFormed, Held, StateTargets, LiveOf, StateName, StateEntries;
    forall parts, data | Held(src, parts, data)
      ensures exists t :: t in StateTargets(setup, src) && t.live == LiveOf(setup, parts) && t.data == data
    {
      HeldIsArchived(src, parts, data);
      var e := FileEntry(parts, data);
      assert e in StateEntries(src);
      var t := Target(StateName(parts), LiveOf(setup, parts), data);
      assert IsTargetOf(setup, e, t);
    }
    forall t | t in StateTargets(setup, src) ensures exists parts :: Held(src, parts, t.data) && t.live == LiveOf(setup, parts) {
      var e :| e in StateEntries(src) && IsTargetOf(setup, e, t);
      HeldIsArchived(src, e.parts, e.data);
    }
  }

  /** Applying the planned targets is restoring the archived source. */
  lemma AppliedIsRoundTripped(setup: Setup, src: Source, before: Files)
    requires WellFormed(src.dir)
    requires forall t :: t in StateTargets(setup, src) <==> exists e :: e in StateEntries(src) && IsTargetOf(setup, e, t)
    requires OrderedTargets(StateTargets(setup, src))
    ensures RoundTripped(setup, src, before, Applied(before, StateTargets(setup, src) + ConfigTarget(setup, src)))
  {
    hide StateTargets, ConfigTarget, Applied, Held, Restored, PlansHeld, HeldAt, BesideHeld, NoLog, ConfigTakes, ConfigPath,
      LiveOf, Beside, WellFormed, OrderedTargets, StateEntries, IsTargetOf;
    var states, config := StateTargets(setup, src), ConfigTarget(setup, src);
    var mid, after := Applied(before, states), Applied(before, states + config);
    HeldIsPlanned(setup, src);
    AppliedIsRestored(before, states);
    ConfigOver(setup, src, before, mid, after);
    forall parts, data | Held(src, parts, data) && !ConfigTakes(setup, src, LiveOf(setup, parts))
      ensures LiveOf(setup, parts) in after && after[LiveOf(setup, parts)] == data
    {
      HeldComesBack(setup, src, before, mid, parts, data);
    }
    forall p | p in after && (p !in before || after[p] != before[p])
      ensures HeldAt(setup, src, p) || (ConfigGiven(setup, src) && p == ConfigPath(setup))
    {
      if !(ConfigGiven(setup, src) && p == ConfigPath(setup)) {
        ChangedIsHeld(setup, src, before, mid, p);
      }
    }
    forall p | p in before && p !in after
      ensures BesideHeld(setup, src, p) || (ConfigGiven(setup, src) && Beside(ConfigPath(setup), p))
    {
      if p !in mid {
        GoneIsBesideHeld(setup, src, before, mid, p);
      }
    }
    LogsGone(setup, src, before, mid, after);
  }

  lemma HeldComesBack(setup: Setup, src: Source, before: Files, mid: Files, parts: seq<string>, data: Bytes)
    requires PlansHeld(setup, src) && Restored(before, StateTargets(setup, src), mid) && Held(src, parts, data)
    ensures LiveOf(setup, parts) in mid && mid[LiveOf(setup, parts)] == data
  {
    hide StateTargets, Held, LiveOf, IsPlanned, IsBesidePlanned;
    var t :| t in StateTargets(setup, src) && t.live == LiveOf(setup, parts) && t.data == data;
  }

  lemma PlannedIsHeld(setup: Setup, src: Source, p: Path)
    requires PlansHeld(setup, src) && IsPlanned(StateTargets(setup, src), p)
    ensures HeldAt(setup, src, p)
  {
    hide StateTargets, Held, LiveOf, PlansHeld;
    var t :| t in StateTargets(setup, src) && t.live == p;
    var parts := TargetIsHeld(setup, src, t);
  }

  lemma TargetIsHeld(setup: Setup, src: Source, t: Target) returns (parts: seq<string>)
    requires PlansHeld(setup, src) && t in StateTargets(setup, src)
    ensures Held(src, parts, t.data) && t.live == LiveOf(setup, parts)
  {
    hide StateTargets, Held, LiveOf;
    parts :| Held(src, parts, t.data) && t.live == LiveOf(setup, parts);
  }

  lemma ChangedIsHeld(setup: Setup, src: Source, before: Files, mid: Files, p: Path)
    requires PlansHeld(setup, src) && Restored(before, StateTargets(setup, src), mid)
    requires p in mid && (p !in before || mid[p] != before[p])
    ensures HeldAt(setup, src, p)
  {
    hide StateTargets, Held, LiveOf, IsPlanned, IsBesidePlanned, PlansHeld, HeldAt;
    PlannedIsHeld(setup, src, p);
  }

  lemma GoneIsBesideHeld(setup: Setup, src: Source, before: Files, mid: Files, p: Path)
    requires PlansHeld(setup, src) && Restored(before, StateTargets(setup, src), mid) && p in before && p !in mid
    ensures BesideHeld(setup, src, p)
  {
    hide StateTargets, Held, LiveOf, Beside, PlansHeld, IsPlanned;
    assert IsBesidePlanned(StateTargets(setup, src), p);
    hide Restored;
    var t :| t in StateTargets(setup, src) && Beside(t.live, p);
    var parts := TargetIsHeld(setup, src, t);
  }

  /** What is kept beside a restored database and still there has itself been restored. */
  lemma LeftIsHeld(setup: Setup, src: Source, before: Files, mid: Files, parts: seq<string>, data: Bytes, p: Path)
    requires PlansHeld(setup, src) && Restored(before, StateTargets(setup, src), mid)
    requires Held(src, parts, data) && Beside(LiveOf(setup, parts), p) && p in mid
    ensures HeldAt(setup, src, p)
  {
    hide StateTargets, Held, LiveOf, Beside, IsPlanned, HeldAt;
    var t :| t in StateTargets(setup, src) && t.live == LiveOf(setup, parts) && t.data == data;
    assert IsBesidePlanned(StateTargets(setup, src), p);
    hide PlansHeld, IsBesidePlanned;
    PlannedIsHeld(setup, src, p);
  }

  /** The config file comes last, over what the others have left. */
  lemma ConfigOver(setup: Setup, src: Source, before: Files, mid: Files, after: Files)
    requires mid == Applied(before, StateTargets(setup, src))
    requires after == Applied(before, StateTargets(setup, src) + ConfigTarget(setup, src))
    ensures ConfigGiven(setup, src) ==> ConfigPath(setup) in after && after[ConfigPath(setup)] == src.config.value
    ensures forall p :: p in after && !(ConfigGiven(setup, src) && p == ConfigPath(setup)) ==> p in mid && after[p] == mid[p]
    ensures forall p :: p in mid && !ConfigTakes(setup, src, p) ==> p in after && after[p] == mid[p]
    ensures forall p :: p in mid && p !in after ==> ConfigGiven(setup, src) && Beside(ConfigPath(setup), p)
  {
    ConfigApplied(before, StateTargets(setup, src), ConfigTarget(setup, src));
    hide StateTargets, Applied, ConfigPath, SidecarsOf, Beside;
    forall p ensures Beside(ConfigPath(setup), p) <==> p in SidecarsOf(ConfigPath(setup)) {
      BesideMeans(ConfigPath(setup), p);
    }
  }

  lemma LogsGone(setup: Setup, src: Source, before: Files, mid: Files, after: Files)
    requires WellFormed(src.dir) && PlansHeld(setup, src) && Restored(before, StateTargets(setup, src), mid)
    requires forall p :: p in after && !(ConfigGiven(setup, src) && p == ConfigPath(setup)) ==> p in mid
    ensures NoLog(setup, src, after, "openccu-loom.db")
    ensures src.history.Some? ==> NoLog(setup, src, after, "history.db")
  {
    SnapshotsHeld(src);
    hide *;
    NoLogOf(setup, src, before, mid, after, "openccu-loom", src.main);
    if src.history.Some? {
      NoLogOf(setup, src, before, mid, after, "history", src.history.value);
    }
  }

  lemma SnapshotsHeld(src: Source)
    ensures Held(src, ["openccu-loom" + ".db"], src.main) && "openccu-loom" + ".db" == "openccu-loom.db"
    ensures src.history.Some? ==> Held(src, ["history" + ".db"], src.history.value)
    ensures "history" + ".db" == "history.db"
  {
    hide FileAt, Kept;
    assert "openccu-loom" + ".db" == "openccu-loom.db" && "history" + ".db" == "history.db";
    assert ["history" + ".db"] == ["history.db"];
  }

  lemma NoLogOf(setup: Setup, src: Source, before: Files, mid: Files, after: Files, stem: string, data: Bytes)
    requires WellFormed(src.dir) && PlansHeld(setup, src) && Restored(before, StateTargets(setup, src), mid)
    requires forall p :: p in after && !(ConfigGiven(setup, src) && p == ConfigPath(setup)) ==> p in mid
    requires stem in {"openccu-loom", "history"} && Held(src, [stem + ".db"], data)
    ensures NoLog(setup, src, after, stem + ".db")
  {
    hide StateTargets, LiveOf, WellFormed, Held, ConfigPath, ConfigGiven, Beside, PlansHeld, Restored;
    var db := stem + ".db";
    forall suffix | suffix in {"-wal", "-shm"} && Path(LiveOf(setup, [db]).text + suffix) in after
      ensures ConfigGiven(setup, src) && Path(LiveOf(setup, [db]).text + suffix) == ConfigPath(setup)
    {
      if Path(LiveOf(setup, [db]).text + suffix) in mid {
        LogIsBeside(setup, stem, suffix);
        LeftIsHeld(setup, src, before, mid, [db], data, Path(LiveOf(setup, [db]).text + suffix));
        LogIsNotHeld(setup, src, stem, suffix);
        assert false;
      }
    }
  }

  lemma LogIsNotHeld(setup: Setup, src: Source, stem: string, suffix: string)
    requires WellFormed(src.dir) && stem in {"openccu-loom", "history"} && suffix in {"-wal", "-shm"}
    ensures !HeldAt(setup, src, Path(LiveOf(setup, [stem + ".db"]).text + suffix))
  {
    hide LiveOf, WellFormed, Held;
    forall parts, data | Held(src, parts, data) ensures LiveOf(setup, parts) != Path(LiveOf(setup, [stem + ".db"]).text + suffix) {
      NoLogHeld(setup, src, stem, suffix, parts, data);
    }
  }

  lemma LogIsBeside(setup: Setup, stem: string, suffix: string)
    requires suffix in {"-wal", "-shm"}
    ensures Beside(LiveOf(setup, [stem + ".db"]), Path(LiveOf(setup, [stem + ".db"]).text + suffix))
  {
    LiveSuffix(setup, [stem], ".db");
    assert WithSuffix([stem], ".db") == [stem + ".db"];
    hide LiveOf;
    var d := LiveOf(setup, [stem]).text;
    assert LiveOf(setup, [stem + ".db"]).text == d + ".db";
    assert d + ".db" + "-wal" == d + ".db-wal" && d + ".db" + "-shm" == d + ".db-shm";
  }

  /** No held file is the log of a live database. */
  lemma NoLogHeld(setup: Setup, src: Source, stem: string, suffix: string, parts: seq<string>, data: Bytes)
    requires WellFormed(src.dir) && stem in {"openccu-loom", "history"} && suffix in {"-wal", "-shm"}
    requires Held(src, parts, data)
    ensures LiveOf(setup, parts) != Path(LiveOf(setup, [stem + ".db"]).text + suffix)
  {
    var db := stem + ".db";
    HeldIsArchived(src, parts, data);
    StateEntriesApart(src);
    assert FileEntry(parts, data) in StateEntries(src);
    hide LiveOf, StateEntries, WellFormed, FileAt, KeptWay;
    assert Paths.Descends(parts);
    if LiveOf(setup, parts) == Path(LiveOf(setup, [db]).text + suffix) {
      PlainNames(stem, suffix);
      LiveApart(setup, [db], parts, suffix);
      assert false by { NoSnapshot(stem, suffix); }
    }
  }
  lemma ConfigApplied(before: Files, states: seq<Target>, config: seq<Target>)
    requires |config| <= 1
    ensures Applied(before, states + config)
            == if config == [] then Applied(before, states)
               else (Applied(before, states) - SidecarsOf(config[0].live))[config[0].live := config[0].data]
  {
    if config == [] {
      assert states + config == states;
    } else {
      assert (states + config)[..|states|] == states;
    }
  }

  lemma PlainNames(stem: string, suffix: string)
    requires stem in {"openccu-loom", "history"} && suffix in {"-wal", "-shm"}
    ensures Paths.Descends([stem + ".db"]) && Paths.NoSlash(suffix)
  {
    assert stem + ".db" == "openccu-loom.db" || stem + ".db" == "history.db";
  }

  lemma NoSnapshot(stem: string, suffix: string)
    requires stem in {"openccu-loom", "history"} && suffix in {"-wal", "-shm"}
    ensures var log := stem + ".db" + suffix;
            !KeptName(log) && log != "openccu-loom.db" && log != "history.db"
  {
    assert "openccu-loom" + ".db" + "-wal" == "openccu-loom.db-wal" && "openccu-loom" + ".db" + "-shm" == "openccu-loom.db-shm";
    assert "history" + ".db" + "-wal" == "history.db-wal" && "history" + ".db" + "-shm" == "history.db-shm";
    assert |"openccu-loom.db"| == 15 && |"openccu-loom.db-wal"| == 19 && |"openccu-loom.db-shm"| == 19;
    assert |"history.db"| == 10 && |"history.db-wal"| == 14 && |"history.db-shm"| == 14;
  }

  /** Restoring an archive that `backup create` wrote. A run that succeeds leaves the archived source,
      byte for byte; where every call succeeds and no database is in the way, it succeeds exactly when
      the source is Restorable. A run that fails changes nothing, if the config file is kept apart. */
  method RestoreOfBackup(fs: FileSystem, setup: Setup, src: Source, note: Option<Bytes>, stamp: Stamp, targetDB: Path)
    returns (failed: bool)
    requires WellFormed(src.dir)
    requires NamesApart(fs.env, StateTargets(setup, src) + ConfigTarget(setup, src))
    modifies fs
    ensures !failed ==> Restorable(setup, src, note, stamp)
    ensures var plan := StateTargets(setup, src) + ConfigTarget(setup, src);
            && (!failed && SweepWorks(fs.env)
                  && (HonestStat(fs.env) || (ConfigApart(setup, src) && SidecarsPlanned(old(fs.files), plan))) ==>
                  RoundTripped(setup, src, old(fs.files), fs.files))
            && (failed && DropWorks(fs.env)
                  && (!Restorable(setup, src, note, stamp)
                      || (UndoWorks(fs.env) && ConfigApart(setup, src)
                          && (HonestStat(fs.env) || OnlyLastPlannedReplaces(old(fs.files), plan)))) ==>
                  Unchanged(old(fs.files), plan, fs.files))
    ensures Willing(fs.env) && (setup.force || targetDB !in old(fs.files)) ==>
              (!failed <==> Restorable(setup, src, note, stamp))
  {
    hide WellFormed, StateEntries, ConfigApart, NamesApart, Restorable, Unchanged, RoundTripped, Plan, Contents,
      StateTargets, ConfigTarget, OrderedTargets, HonestStat, SweepWorks, UndoWorks, DropWorks, Restored, Willing, Applied,
      OnlyLastPlannedReplaces, SidecarsPlanned, Stamped, Sums;
    ghost var before := fs.files;
    var members := WriteArchive(src, note, stamp, setup.digest);
    assert members == Written(src, note, stamp, setup.digest);
    PlanOfWritten(setup, src, note, stamp);
    failed := BackupRestore(fs, setup, members, targetDB);
    UnchangedSame(before);
    if Restorable(setup, src, note, stamp) {
      RestorablePlaces(setup, src, note, stamp);
      WrittenOrder(setup, src, note);
      ContentsTargets(setup, src, note);
      AppliedIsRoundTripped(setup, src, before);
    }
  }

  lemma RestorablePlaces(setup: Setup, src: Source, note: Option<Bytes>, stamp: Stamp)
    requires Restorable(setup, src, note, stamp)
    ensures forall e :: e in StateEntries(src) && e.FileEntry? ==> Placeable(setup, e.parts)
  {
  }
}
