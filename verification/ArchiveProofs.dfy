/** An archive that `backup create` wrote is one that `backup restore` takes whole: every kept file
    is planned, at its own place, with its own bytes, in an order the commit can undo. */
module ArchiveProofs {
  import opened Options
  import opened RestoreModel
  import opened RestoreProofs
  import opened Archive
  import Paths

  // ---------------------------------------------------------------------------------------
  // The order of the walk
  // ---------------------------------------------------------------------------------------

  predicate Less(a: string, b: string) {
    b != "" && (a == "" || a[0] < b[0] || (a[0] == b[0] && Less(a[1..], b[1..])))
  }

  lemma {:induction false} LessAsymmetric(a: string, b: string)
    requires Less(a, b)
    ensures !Less(b, a)
  {
    if a != "" && a[0] == b[0] { LessAsymmetric(a[1..], b[1..]); }
  }

  lemma {:induction false} LessSuffix(a: string, s: string)
    requires s != ""
    ensures Less(a, a + s)
  {
    if a == "" {
      assert a + s == s;
    } else {
      assert (a + s)[1..] == a[1..] + s && (a + s)[0] == a[0];
      LessSuffix(a[1..], s);
    }
  }

  predicate ValidName(name: string) {
    Paths.NoSlash(name) && name != "" && name != Paths.DOT && name != Paths.DOTDOT
  }

  predicate AllAbove(name: string, dir: Forest) {
    dir.Cons? ==> Less(name, dir.name) && AllAbove(name, dir.rest)
  }

  /** Real names, each directory in ascending order: what filepath.Walk visits. */
  predicate WellFormed(dir: Forest) {
    dir.Cons? ==>
      && ValidName(dir.name) && AllAbove(dir.name, dir.rest) && WellFormed(dir.rest)
      && (dir.node.Dir? ==> WellFormed(dir.node.kids))
  }

  lemma {:induction false} AboveEntry(name: string, dir: Forest, other: string)
    requires AllAbove(name, dir) && HasEntry(dir, other)
    ensures Less(name, other)
  {
    if dir.name != other { AboveEntry(name, dir.rest, other); }
  }

  function WithSuffix(parts: seq<string>, s: string): seq<string>
    requires |parts| >= 1
  {
    parts[..|parts| - 1] + [parts[|parts| - 1] + s]
  }

  /** The later entry is neither the earlier one nor a database whose sidecar the earlier one is. */
  predicate Apart(later: Entry, earlier: Entry) {
    && |later.parts| >= 1
    && later.parts != earlier.parts
    && earlier.parts != WithSuffix(later.parts, WAL)
    && earlier.parts != WithSuffix(later.parts, SHM)
  }

  predicate AllApart(es: seq<Entry>) {
    forall i, j :: 0 <= i < j < |es| ==> Apart(es[j], es[i])
  }

  predicate Under(at: seq<string>, name: string, e: Entry) {
    at + [name] <= e.parts
  }

  predicate GoodEntry(e: Entry) {
    && Paths.Descends(e.parts)
    && Recorded(e.parts[|e.parts| - 1])
  }

  predicate GoodPath(at: seq<string>) {
    Paths.Normal(true, at)
  }

  lemma {:induction false} WalkNodeSpot(at: seq<string>, name: string, node: Node)
    requires GoodPath(at) && ValidName(name) && (node.Dir? ==> WellFormed(node.kids))
    ensures forall e :: e in WalkNode(at, name, node) ==> Under(at, name, e) && GoodEntry(e)
    ensures AllApart(WalkNode(at, name, node))
    decreases node, 0
  {
    assert GoodPath(at + [name]);
    if node.Dir? && !SkippedDir(at, name, node.kids) {
      WalkSpot(at + [name], node.kids);
      var below := Walk(at + [name], node.kids);
      var own := if Recorded(name) then [DirEntry(at + [name])] else [];
      forall e | e in below ensures Under(at, name, e) && |e.parts| > |at| + 1 {}
      forall i, j | 0 <= i < j < |own + below| ensures Apart((own + below)[j], (own + below)[i]) {
        if i < |own| {
          assert (own + below)[j] in below;
        } else {
          assert Apart(below[j - |own|], below[i - |own|]);
        }
      }
    }
  }

  lemma {:induction false} WalkSpot(at: seq<string>, dir: Forest)
    requires GoodPath(at) && WellFormed(dir)
    ensures forall e :: e in Walk(at, dir) ==>
              |e.parts| > |at| && at <= e.parts && HasEntry(dir, e.parts[|at|]) && GoodEntry(e)
    ensures AllApart(Walk(at, dir))
    decreases dir, 1
  {
    if dir.Cons? {
      WalkNodeSpot(at, dir.name, dir.node);
      WalkSpot(at, dir.rest);
      var a := WalkNode(at, dir.name, dir.node);
      var b := Walk(at, dir.rest);
      forall e | e in a ensures |e.parts| > |at| && at <= e.parts && e.parts[|at|] == dir.name {
        assert e.parts[..|at| + 1] == at + [dir.name];
      }
      forall x, y | x in a && y in b ensures Apart(y, x) {
        AboveEntry(dir.name, dir.rest, y.parts[|at|]);
        CrossApart(at, dir.name, x, y);
      }
      forall i, j | 0 <= i < j < |a + b| ensures Apart((a + b)[j], (a + b)[i]) {
        if j < |a| {
          assert Apart(a[j], a[i]);
        } else if i >= |a| {
          assert Apart(b[j - |a|], b[i - |a|]);
        }
      }
    }
  }

  /** An entry of a greater sibling is apart from everything before it. */
  lemma CrossApart(at: seq<string>, name: string, x: Entry, y: Entry)
    requires |x.parts| > |at| && x.parts[|at|] == name
    requires |y.parts| > |at| && Less(name, y.parts[|at|])
    ensures Apart(y, x)
  {
    var other := y.parts[|at|];
    LessAsymmetric(name, other);
    LessSuffix(other, WAL);
    LessSuffix(other, SHM);
    if other + WAL == name || other + SHM == name { LessAsymmetric(other, name); assert false; }
    if |y.parts| == |at| + 1 {
      assert WithSuffix(y.parts, WAL)[|at|] == other + WAL;
      assert WithSuffix(y.parts, SHM)[|at|] == other + SHM;
    } else {
      assert WithSuffix(y.parts, WAL)[|at|] == other;
      assert WithSuffix(y.parts, SHM)[|at|] == other;
    }
  }

  /** Everything that is archived under state/ is a good entry, apart from everything before it. */
  lemma StateEntriesApart(src: Source)
    requires WellFormed(src.dir)
    ensures AllApart(StateEntries(src))
    ensures forall e :: e in StateEntries(src) ==> Paths.Descends(e.parts)
  {
    WalkSpot([], src.dir);
    var w := Walk([], src.dir);
    var s := Snapshots(src);
    forall e | e in w ensures Paths.Descends(e.parts) { assert GoodEntry(e); }
    forall e | e in s ensures Paths.Descends(e.parts) && IsLiveDBArtefact(e.parts[0]) && |e.parts| == 1
      && (e.parts[0] == MAIN_DB || e.parts[0] == HISTORY_DB) {}
    forall x, y | x in w && y in s ensures Apart(y, x) {
      assert GoodEntry(x) && |y.parts| == 1;
      assert WithSuffix(y.parts, WAL) == [y.parts[0] + WAL] && WithSuffix(y.parts, SHM) == [y.parts[0] + SHM];
      assert IsLiveDBArtefact(y.parts[0] + WAL) && IsLiveDBArtefact(y.parts[0] + SHM);
    }
    if |s| == 2 {
      assert s[1].parts == [HISTORY_DB] && s[0].parts == [MAIN_DB];
      assert WithSuffix(s[1].parts, WAL)[0] == HISTORY_DB + WAL && WithSuffix(s[1].parts, SHM)[0] == HISTORY_DB + SHM;
      assert MAIN_DB[0] == 'o' && HISTORY_DB[0] == 'h' && (HISTORY_DB + WAL)[0] == 'h' && (HISTORY_DB + SHM)[0] == 'h';
      assert Apart(s[1], s[0]);
    }
    forall i, j | 0 <= i < j < |w + s| ensures Apart((w + s)[j], (w + s)[i]) {
      if j < |w| {
        assert Apart(w[j], w[i]);
      } else if i < |w| {
        assert w[i] in w && s[j - |w|] in s;
      }
    }
  }

  // ---------------------------------------------------------------------------------------
  // Reading an archive
  // ---------------------------------------------------------------------------------------

  function Counted(m: Member): nat {
    if m.DirMember? || m.SpecialMember? then 0 else 1
  }

  function FileCount(members: seq<Member>): nat {
    if members == [] then 0 else FileCount(members[..|members| - 1]) + Counted(members[|members| - 1])
  }

  predicate MemberOk(setup: Setup, m: Member) {
    match m
    case DirMember(_) => true
    case SpecialMember(_) => true
    case ManifestMember(_, size) => size <= 4_194_304
    case BadManifestMember => false
    case FileMember(name, data) => |data| <= 8_589_934_592 && name != "manifest.json" && Destination(setup, name).Ok?
  }

  function TargetOf(setup: Setup, m: Member): seq<Target> {
    if m.FileMember? && Destination(setup, m.name).Ok? && Destination(setup, m.name).value.Some?
    then [Target(m.name, Destination(setup, m.name).value.value, m.data)] else []
  }

  function TargetsIn(setup: Setup, members: seq<Member>): seq<Target> {
    if members == [] then []
    else TargetsIn(setup, members[..|members| - 1]) + TargetOf(setup, members[|members| - 1])
  }

  /** Every manifest of an archive is decoded into the same variable. */
  function Merged(members: seq<Member>): Manifest {
    if members == [] then NO_MANIFEST
    else
      var rest, m := Merged(members[..|members| - 1]), members[|members| - 1];
      if m.ManifestMember? then Merge(rest, m.patch) else rest
  }

  /** The reading loop accepts an archive exactly when there are not too many members and each is
      acceptable by itself; it then has every target in order and the merged manifest. */
  lemma {:induction false} ReadExact(setup: Setup, members: seq<Member>)
    ensures Read(setup, members).Ok? <==> FileCount(members) <= 100_000 && forall m :: m in members ==> MemberOk(setup, m)
    ensures Read(setup, members).Ok? ==>
              Read(setup, members).value == Reading(FileCount(members), Merged(members), TargetsIn(setup, members))
  {
    if members != [] {
      hide Destination, ReadOne, MemberOk, TargetOf, Counted, Merge;
      var n := |members| - 1;
      ReadExact(setup, members[..n]);
      assert members == members[..n] + [members[n]];
      assert (forall m :: m in members ==> MemberOk(setup, m))
             <==> (forall m :: m in members[..n] ==> MemberOk(setup, m)) && MemberOk(setup, members[n]);
      if Read(setup, members[..n]).Ok? {
        ReadOneExact(setup, Read(setup, members[..n]).value, members[n]);
      } else {
        assert Counted(members[n]) >= 0;
      }
    }
  }

  lemma ReadOneExact(setup: Setup, r: Reading, m: Member)
    requires r.count <= MAX_ENTRIES
    ensures ReadOne(setup, r, m).Ok? <==> r.count + Counted(m) <= MAX_ENTRIES && MemberOk(setup, m)
    ensures ReadOne(setup, r, m).Ok? ==>
              ReadOne(setup, r, m).value == Reading(r.count + Counted(m),
                                                    if m.ManifestMember? then Merge(r.manifest, m.patch) else r.manifest,
                                                    r.targets + TargetOf(setup, m))
  {
    hide Destination, Merge;
    assert r.targets + [] == r.targets;
  }

  /** Manifest i gives the sum for a name, and no later one gives another or drops it. */
  predicate Binds(members: seq<Member>, i: int, name: string, sum: string) {
    && 0 <= i < |members| && members[i].ManifestMember?
    && name in members[i].patch.sums.entries && members[i].patch.sums.entries[name] == sum
    && forall k :: i < k < |members| && members[k].ManifestMember? ==>
         members[k].patch.sums.Added? && name !in members[k].patch.sums.entries
  }

  /** The sums of every manifest bind, not only those of the last. */
  lemma {:induction false} SumsAreBinding(members: seq<Member>, name: string, sum: string)
    ensures name in Merged(members).sums && Merged(members).sums[name] == sum <==> exists i :: Binds(members, i, name, sum)
  {
    if members != [] {
      var n := |members| - 1;
      var rest, m := members[..n], members[n];
      SumsAreBinding(rest, name, sum);
      if exists i :: Binds(rest, i, name, sum) {
        var i :| Binds(rest, i, name, sum);
        if m.ManifestMember? ==> m.patch.sums.Added? && name !in m.patch.sums.entries {
          assert Binds(members, i, name, sum);
        }
      }
      assert m.ManifestMember? && name in m.patch.sums.entries && m.patch.sums.entries[name] == sum ==> Binds(members, n, name, sum);
      if exists i :: Binds(members, i, name, sum) {
        var i :| Binds(members, i, name, sum);
        assert i < n ==> Binds(rest, i, name, sum);
      }
    }
  }

  /** Manifest i gives the creation time, and no later one gives another. */
  predicate Stamps(members: seq<Member>, i: int, created: string) {
    && 0 <= i < |members| && members[i].ManifestMember? && members[i].patch.created == Some(created)
    && forall k :: i < k < |members| && members[k].ManifestMember? ==> members[k].patch.created.None?
  }

  lemma {:induction false} StampIsLast(members: seq<Member>, created: string)
    requires created != ""
    ensures Merged(members).created == created <==> exists i :: Stamps(members, i, created)
  {
    if members != [] {
      var n := |members| - 1;
      var rest, m := members[..n], members[n];
      StampIsLast(rest, created);
      if exists i :: Stamps(rest, i, created) {
        var i :| Stamps(rest, i, created);
        assert (m.ManifestMember? ==> m.patch.created.None?) ==> Stamps(members, i, created);
      }
      assert m.ManifestMember? && m.patch.created == Some(created) ==> Stamps(members, n, created);
      if exists i :: Stamps(members, i, created) {
        var i :| Stamps(members, i, created);
        assert i < n ==> Stamps(rest, i, created);
      }
    }
  }

  /** Manifest i gives the schema version of the main database, and no later one gives another or
      drops it. */
  predicate BindsSchema(members: seq<Member>, i: int, version: int) {
    && 0 <= i < |members| && members[i].ManifestMember?
    && "openccu-loom.db" in members[i].patch.schema.entries && members[i].patch.schema.entries["openccu-loom.db"] == version
    && forall k :: i < k < |members| && members[k].ManifestMember? ==>
         members[k].patch.schema.Added? && "openccu-loom.db" !in members[k].patch.schema.entries
  }

  lemma {:induction false} SchemaIsBinding(members: seq<Member>, version: int)
    ensures MAIN_DB in Merged(members).schema && Merged(members).schema[MAIN_DB] == version
      <==> exists i :: BindsSchema(members, i, version)
  {
    if members != [] {
      var n := |members| - 1;
      var rest, m := members[..n], members[n];
      SchemaIsBinding(rest, version);
      if exists i :: BindsSchema(rest, i, version) {
        var i :| BindsSchema(rest, i, version);
        if m.ManifestMember? ==> m.patch.schema.Added? && MAIN_DB !in m.patch.schema.entries {
          assert BindsSchema(members, i, version);
        }
      }
      assert m.ManifestMember? && MAIN_DB in m.patch.schema.entries && m.patch.schema.entries[MAIN_DB] == version ==>
        BindsSchema(members, n, version);
      if exists i :: BindsSchema(members, i, version) {
        var i :| BindsSchema(members, i, version);
        assert i < n ==> BindsSchema(rest, i, version);
      }
    }
  }

  /** Where a member goes: the config file to the config path if there is one, what is under state/
      below the data directory, anything else nowhere. */
  lemma DestinationMeans(setup: Setup, name: string, rel: string)
    ensures Destination(setup, "config.yaml") ==
              Paths.Ok(if setup.configPath == "" then None else Some(Path(Paths.Clean(setup.configPath))))
    ensures var place := Paths.SafeJoin(setup.dataDir, rel);
            Destination(setup, "state/" + rel) == if place.Ok? then Paths.Ok(Some(Path(place.value))) else Paths.Err(place.error)
    ensures name != "config.yaml" && !("state/" <= name) ==> Destination(setup, name) == Paths.Ok(None)
  {
    hide Paths.SafeJoin, Paths.Clean;
    assert "config.yaml"[0] != ("state/" + rel)[0];
    assert CutPrefix("state/" + rel, STATE) == rel;
  }

  /** Two spellings of the config path are one file exactly when they resolve alike. */
  lemma SpellingsAgree(a: Setup, b: Setup)
    ensures ConfigPath(a) == ConfigPath(b)
      <==> Paths.Rooted(a.configPath) == Paths.Rooted(b.configPath) && Paths.Parts(a.configPath) == Paths.Parts(b.configPath)
  {
    Paths.CleanMeans(a.configPath);
    Paths.CleanMeans(b.configPath);
    hide Paths.Parts, Paths.Render;
  }

  /** An archive is accepted exactly when the reading loop takes it, a manifest stamps it, no file of
      it contradicts a sum that binds, and the schema version that binds is known or forced. */
  lemma PlanIsExact(setup: Setup, members: seq<Member>)
    ensures Plan(setup, members).Ok? <==>
              && FileCount(members) <= 100_000 && (forall m :: m in members ==> MemberOk(setup, m))
              && (exists i, created :: created != "" && Stamps(members, i, created))
              && (forall t, i, sum :: t in TargetsIn(setup, members) && Binds(members, i, t.name, sum) ==> sum == setup.digest(t.data))
              && (forall i, version :: BindsSchema(members, i, version) ==> version <= setup.maxSchema || setup.force)
    ensures Plan(setup, members).Ok? ==> Plan(setup, members).value == TargetsIn(setup, members)
  {
    ReadExact(setup, members);
    hide Read, MemberOk, TargetsIn, Merged;
    assert Merged(members).created != "" <==> exists i, created :: created != "" && Stamps(members, i, created) by {
      StampExists(members);
    }
    assert (forall i, version :: BindsSchema(members, i, version) ==> version <= setup.maxSchema || setup.force)
      <==> SchemaFits(setup, Merged(members)) by { SchemaDecides(setup, members); }
    hide SchemaFits, Stamps, BindsSchema;
    SumsDecide(setup, members);
    hide Binds;
  }

  lemma StampExists(members: seq<Member>)
    ensures Merged(members).created != "" <==> exists i, created :: created != "" && Stamps(members, i, created)
  {
    hide Stamps, Merged;
    if Merged(members).created != "" {
      StampIsLast(members, Merged(members).created);
    }
    if i, created :| created != "" && Stamps(members, i, created) {
      StampIsLast(members, created);
    }
  }

  lemma SchemaDecides(setup: Setup, members: seq<Member>)
    ensures (forall i, version :: BindsSchema(members, i, version) ==> version <= setup.maxSchema || setup.force)
      <==> SchemaFits(setup, Merged(members))
  {
    hide BindsSchema, Merged;
    var schema := Merged(members).schema;
    if MAIN_DB in schema {
      SchemaIsBinding(members, schema[MAIN_DB]);
    }
    forall i, version | BindsSchema(members, i, version) ensures MAIN_DB in schema && schema[MAIN_DB] == version {
      SchemaIsBinding(members, version);
    }
  }

  lemma SumsDecide(setup: Setup, members: seq<Member>)
    ensures var sums, targets := Merged(members).sums, TargetsIn(setup, members);
      (forall t, i, sum :: t in targets && Binds(members, i, t.name, sum) ==> sum == setup.digest(t.data))
      <==> forall t :: t in targets && t.name in sums ==> sums[t.name] == setup.digest(t.data)
  {
    var sums, targets := Merged(members).sums, TargetsIn(setup, members);
    hide Binds, Merged, TargetsIn;
    forall t, i, sum | t in targets && Binds(members, i, t.name, sum) ensures t.name in sums && sums[t.name] == sum {
      SumsAreBinding(members, t.name, sum);
    }
    forall t | t in targets && t.name in sums ensures exists i :: Binds(members, i, t.name, sums[t.name]) {
      SumsAreBinding(members, t.name, sums[t.name]);
    }
  }

  lemma {:induction false} TargetsAppend(setup: Setup, a: seq<Member>, b: seq<Member>)
    ensures TargetsIn(setup, a + b) == TargetsIn(setup, a) + TargetsIn(setup, b)
  {
    hide TargetOf;
    if b == [] {
      assert a + b == a;
    } else {
      var n := |b| - 1;
      TargetsAppend(setup, a, b[..n]);
      assert (a + b)[..|a + b| - 1] == a + b[..n] && (a + b)[|a + b| - 1] == b[n];
    }
  }

  predicate DistinctNames(members: seq<Member>) {
    forall i, j :: 0 <= i < j < |members| && members[i].FileMember? && members[j].FileMember? ==>
      members[i].name != members[j].name
  }

  lemma {:induction false} SumsLookup(members: seq<Member>, digest: Bytes -> string, k: nat)
    requires DistinctNames(members) && k < |members| && members[k].FileMember?
    ensures members[k].name in Sums(members, digest)
    ensures Sums(members, digest)[members[k].name] == digest(members[k].data)
  {
    var n := |members| - 1;
    if k < n {
      assert members[..n][k] == members[k];
      SumsLookup(members[..n], digest, k);
    }
  }

  lemma {:induction false} TargetComes(setup: Setup, members: seq<Member>, t: Target) returns (k: nat)
    requires t in TargetsIn(setup, members)
    ensures k < |members| && members[k].FileMember? && members[k].name == t.name && members[k].data == t.data
  {
    hide Destination;
    var n := |members| - 1;
    if t in TargetOf(setup, members[n]) {
      k := n;
    } else {
      k := TargetComes(setup, members[..n], t);
    }
  }

  // ---------------------------------------------------------------------------------------
  // Reading back what was written
  // ---------------------------------------------------------------------------------------

  function Written(src: Source, note: Option<Bytes>, stamp: Stamp, digest: Bytes -> string): seq<Member>
  {
    Contents(src, note) + [Stamped(stamp, Sums(Contents(src, note), digest))]
  }

  lemma DescendsGlue(parts: seq<string>)
    requires Paths.Descends(parts)
    ensures Paths.AllNoSlash(parts) && |parts| >= 1
  {
    forall p | p in parts ensures Paths.NoSlash(p) { var i :| 0 <= i < |parts| && parts[i] == p; }
  }

  lemma StateNameInjective(a: seq<string>, b: seq<string>)
    requires Paths.Descends(a) && Paths.Descends(b)
    requires StateName(a) == StateName(b)
    ensures a == b
  {
    DescendsGlue(a);
    DescendsGlue(b);
    assert StateName(a)[|STATE|..] == Paths.Glue(a) && StateName(b)[|STATE|..] == Paths.Glue(b);
    Paths.GlueInjective(a, b);
  }

  lemma StateNameApart(parts: seq<string>)
    requires |parts| >= 1
    ensures STATE <= StateName(parts) && StateName(parts) != CONFIG && StateName(parts) != MANIFEST
    ensures StateName(parts) != SECRETS_NOTE
  {
    assert StateName(parts)[1] == 't' && CONFIG[1] == 'o' && MANIFEST[1] == 'a' && SECRETS_NOTE[1] == 'e';
  }

  /** Archive paths are unique. */
  lemma NamesAreUnique(src: Source, note: Option<Bytes>)
    requires WellFormed(src.dir)
    ensures DistinctNames(Contents(src, note))
  {
    StateEntriesApart(src);
    var es := StateEntries(src);
    var ms := Contents(src, note);
    hide StateEntries, WellFormed;
    forall i, j | 0 <= i < j < |ms| && ms[i].FileMember? && ms[j].FileMember? ensures ms[i].name != ms[j].name {
      if i < |es| {
        assert es[i] in es && ms[i] == MemberOf(es[i]);
        StateNameApart(es[i].parts);
        if j < |es| {
          assert es[j] in es && ms[j] == MemberOf(es[j]);
          assert Apart(es[j], es[i]);
          if ms[i].name == ms[j].name { StateNameInjective(es[i].parts, es[j].parts); }
        }
      } else {
        assert CONFIG[0] == 'c' && SECRETS_NOTE[0] == 's';
      }
    }
  }

  /** A member below state/ has a place in the data directory: the directory is neither the root
      nor the current one, and the name does not start with a backslash. */
  predicate Placeable(setup: Setup, parts: seq<string>)
    requires |parts| >= 1
  {
    Paths.Parts(setup.dataDir) != [] && !Paths.HasPrefix(Paths.Glue(parts), "\\")
  }

  /** What a restore of the archive can be refused for: the exact conditions. */
  predicate Restorable(setup: Setup, src: Source, note: Option<Bytes>, stamp: Stamp)
  {
    && stamp.created != ""
    && (stamp.schema <= setup.maxSchema || setup.force)
    && Stamped(stamp, Sums(Contents(src, note), setup.digest)).size <= 4_194_304
    && FileCount(Contents(src, note)) + 1 <= 100_000
    && (forall m :: m in Contents(src, note) && m.FileMember? ==> |m.data| <= 8_589_934_592)
    && (forall e :: e in StateEntries(src) && e.FileEntry? ==> Placeable(setup, e.parts))
  }

  lemma EntryDestination(setup: Setup, parts: seq<string>)
    requires Paths.Descends(parts)
    ensures var d := Destination(setup, StateName(parts));
            && (d.Ok? <==> Placeable(setup, parts))
            && (d.Ok? ==> d.value == Some(Path(Paths.Render(Paths.Rooted(setup.dataDir), Paths.Parts(setup.dataDir) + parts))))
  {
    StateNameApart(parts);
    assert CutPrefix(StateName(parts), STATE) == Paths.Glue(parts);
    hide Paths.SafeJoin, Paths.Render, Paths.Parts;
    Paths.CleanNameIsExact(setup.dataDir, parts);
    Paths.FirstOfGlue(parts);
    assert Paths.HasPrefix(Paths.Glue(parts), "\\") <==> Paths.Glue(parts)[0] == '\\';
  }

  predicate EntryOk(setup: Setup, e: Entry)
    requires |e.parts| >= 1
  {
    e.FileEntry? ==> |e.data| <= MAX_ENTRY_SIZE && Placeable(setup, e.parts)
  }

  lemma EntryMember(setup: Setup, e: Entry)
    requires Paths.Descends(e.parts)
    ensures e.FileEntry? ==> MemberOf(e).FileMember? && MemberOf(e).data == e.data
    ensures MemberOk(setup, MemberOf(e)) <==> EntryOk(setup, e)
  {
    StateNameApart(e.parts);
    EntryDestination(setup, e.parts);
  }

  /** The members of a written archive: the entries, then perhaps the config and the note. */
  lemma ContentsAre(src: Source, note: Option<Bytes>)
    ensures forall e :: e in StateEntries(src) ==> MemberOf(e) in Contents(src, note)
    ensures forall m :: m in Contents(src, note) ==>
              || (exists e :: e in StateEntries(src) && m == MemberOf(e))
              || m.DirMember? || (m.FileMember? && (m.name == CONFIG || m.name == SECRETS_NOTE))
  {
    var es := StateEntries(src);
    var ms := Contents(src, note);
    hide StateEntries, MemberOf;
    forall e | e in es ensures MemberOf(e) in ms {
      var i :| 0 <= i < |es| && es[i] == e;
      assert ms[i] == MemberOf(e);
    }
    forall m | m in ms
      ensures (exists e :: e in es && m == MemberOf(e))
        || m.DirMember? || (m.FileMember? && (m.name == CONFIG || m.name == SECRETS_NOTE))
    {
      var k :| 0 <= k < |ms| && ms[k] == m;
      if k < |es| { assert es[k] in es && m == MemberOf(es[k]); }
    }
  }

  /** Which members of a written archive the reading loop accepts. */
  lemma WrittenMembers(setup: Setup, src: Source, note: Option<Bytes>)
    requires WellFormed(src.dir)
    ensures (forall m :: m in Contents(src, note) ==> MemberOk(setup, m))
            <==> (&& (forall m :: m in Contents(src, note) && m.FileMember? ==> |m.data| <= MAX_ENTRY_SIZE)
                  && (forall e :: e in StateEntries(src) && e.FileEntry? ==> Placeable(setup, e.parts)))
  {
    StateEntriesApart(src);
    ContentsAre(src, note);
    var es, ms := StateEntries(src), Contents(src, note);
    hide StateEntries, WellFormed, Contents, Placeable, StateName, Destination, MemberOk, MemberOf;
    forall e | e in es
      ensures e.FileEntry? ==> MemberOf(e).FileMember? && MemberOf(e).data == e.data
      ensures MemberOk(setup, MemberOf(e)) <==> EntryOk(setup, e)
    {
      EntryMember(setup, e);
    }
    forall m | m in ms && (m.DirMember? || (m.FileMember? && (m.name == CONFIG || m.name == SECRETS_NOTE)))
      ensures MemberOk(setup, m) <==> (m.FileMember? ==> |m.data| <= MAX_ENTRY_SIZE)
    {
      PlainMember(setup, m);
    }
    if forall m :: m in ms ==> MemberOk(setup, m) {
      forall e | e in es && e.FileEntry? ensures Placeable(setup, e.parts) {
        assert MemberOk(setup, MemberOf(e));
      }
      forall m | m in ms && m.FileMember? ensures |m.data| <= MAX_ENTRY_SIZE { SmallIfOk(setup, m); }
    }
  }

  lemma SmallIfOk(setup: Setup, m: Member)
    requires MemberOk(setup, m) && m.FileMember?
    ensures |m.data| <= MAX_ENTRY_SIZE
  {
  }

  lemma PlainMember(setup: Setup, m: Member)
    requires m.DirMember? || (m.FileMember? && (m.name == CONFIG || m.name == SECRETS_NOTE))
    ensures MemberOk(setup, m) <==> (m.FileMember? ==> |m.data| <= MAX_ENTRY_SIZE)
  {
    NoteAndConfig(setup);
    hide Destination;
  }

  lemma NoteAndConfig(setup: Setup)
    ensures Destination(setup, CONFIG).Ok? && CONFIG != MANIFEST && SECRETS_NOTE != MANIFEST
    ensures Destination(setup, SECRETS_NOTE) == Paths.Ok(None)
  {
    assert CONFIG[0] == 'c' && SECRETS_NOTE[1] == 'e' && STATE[1] == 't' && MANIFEST[0] == 'm';
  }

  lemma NoManifests(src: Source, note: Option<Bytes>)
    ensures forall m :: m in Contents(src, note) ==> !m.ManifestMember?
  {
    ContentsAre(src, note);
    hide StateEntries, Contents;
  }

  lemma {:induction false} NothingMerged(members: seq<Member>)
    requires forall m :: m in members ==> !m.ManifestMember?
    ensures Merged(members) == NO_MANIFEST
  {
    if members != [] {
      NothingMerged(members[..|members| - 1]);
    }
  }

  /** The plan made from a written archive: it is accepted exactly when Restorable, every sum then
      checks, and every archived file is planned with its own bytes. */
  lemma PlanOfWritten(setup: Setup, src: Source, note: Option<Bytes>, stamp: Stamp)
    requires WellFormed(src.dir)
    ensures var plan := Plan(setup, Written(src, note, stamp, setup.digest));
            && (plan.Ok? <==> Restorable(setup, src, note, stamp))
            && (plan.Ok? ==> plan.value == TargetsIn(setup, Contents(src, note)))
  {
    hide WellFormed, StateEntries, Contents, Destination, Placeable, Read, Stamped, Sums, TargetsIn, MemberOk, FileCount, Merged;
    var ms := Contents(src, note);
    var sums := Sums(ms, setup.digest);
    var last := Stamped(stamp, sums);
    ReadExact(setup, ms + [last]);
    NoManifests(src, note);
    WrittenReads(setup, ms, stamp, sums);
    WrittenMembers(setup, src, note);
    NamesAreUnique(src, note);
    OwnSums(setup, ms);
  }

  /** What the reading loop makes of members without a manifest and the one that is written last. */
  lemma WrittenReads(setup: Setup, ms: seq<Member>, stamp: Stamp, sums: map<string, string>)
    requires forall m :: m in ms ==> !m.ManifestMember?
    ensures var last := Stamped(stamp, sums); var all := ms + [last];
      && Merged(all) == Manifest(stamp.created, sums, map[MAIN_DB := stamp.schema])
      && FileCount(all) == FileCount(ms) + 1 && TargetsIn(setup, all) == TargetsIn(setup, ms)
      && ((forall m :: m in all ==> MemberOk(setup, m))
          <==> (forall m :: m in ms ==> MemberOk(setup, m)) && last.size <= 4_194_304)
  {
    var last := Stamped(stamp, sums);
    var all := ms + [last];
    assert all[..|ms|] == ms;
    NothingMerged(ms);
    hide Destination;
    assert TargetsIn(setup, all) == TargetsIn(setup, ms) by { assert TargetOf(setup, last) == []; }
    assert MemberOk(setup, last) <==> last.size <= 4_194_304;
    assert forall m :: m in all <==> m in ms || m == last;
    hide MemberOk;
  }

  /** No file contradicts its own sum. */
  lemma OwnSums(setup: Setup, ms: seq<Member>)
    requires DistinctNames(ms)
    ensures var sums := Sums(ms, setup.digest);
      forall t :: t in TargetsIn(setup, ms) && t.name in sums ==> sums[t.name] == setup.digest(t.data)
  {
    hide Sums, TargetsIn, DistinctNames;
    var sums := Sums(ms, setup.digest);
    forall t | t in TargetsIn(setup, ms) && t.name in sums ensures sums[t.name] == setup.digest(t.data) {
      var k := TargetComes(setup, ms, t);
      SumsLookup(ms, setup.digest, k);
    }
  }

  // ---------------------------------------------------------------------------------------
  // The planned order is one the commit can undo
  // ---------------------------------------------------------------------------------------

  /** Where an archived path lives once restored. */
  function LiveOf(setup: Setup, parts: seq<string>): Path {
    Path(Paths.Render(Paths.Rooted(setup.dataDir), Paths.Parts(setup.dataDir) + parts))
  }

  predicate OrderedTargets(ts: seq<Target>) {
    forall i, j :: 0 <= i < j < |ts| ==> !Clobbers(ts[j].live, ts[i].live)
  }

  lemma {:induction false} GlueSuffix(parts: seq<string>, s: string)
    requires |parts| >= 1
    ensures Paths.Glue(parts) + s == Paths.Glue(WithSuffix(parts, s))
  {
    var n := |parts| - 1;
    if n > 0 {
      Paths.GlueAppend(parts[..n], [parts[n]]);
      Paths.GlueAppend(parts[..n], [parts[n] + s]);
      assert parts == parts[..n] + [parts[n]];
      hide Paths.Glue;
      assert Paths.Glue([parts[n]]) == parts[n] && Paths.Glue([parts[n] + s]) == parts[n] + s by { OneGlued(parts[n]); OneGlued(parts[n] + s); }
    }
  }

  lemma OneGlued(part: string)
    ensures Paths.Glue([part]) == part
  {
  }

  /** Distinct paths below the data directory stay distinct, suffix or not. */
  lemma LiveApart(setup: Setup, a: seq<string>, b: seq<string>, s: string)
    requires Paths.Descends(a) && Paths.Descends(b) && Paths.NoSlash(s)
    requires (LiveOf(setup, a)).text + s == (LiveOf(setup, b)).text
    ensures WithSuffix(a, s) == b
  {
    var base := Paths.Parts(setup.dataDir);
    hide *;
    DescendsGlue(a);
    DescendsGlue(b);
    LiveIsGlued(setup, a);
    LiveIsGlued(setup, b);
    GlueSuffix(base + a, s);
    SuffixLast(base, a, s);
    SuffixNoSlash(a, s);
    RootCancels(Paths.Rooted(setup.dataDir), Paths.Glue(base + a), s, Paths.Glue(base + b));
    PartsNoSlash(setup.dataDir);
    NoSlashAppend(base, WithSuffix(a, s));
    NoSlashAppend(base, b);
    Paths.GlueInjective(base + WithSuffix(a, s), base + b);
    assert (base + WithSuffix(a, s))[|base|..] == WithSuffix(a, s) && (base + b)[|base|..] == b;
  }

  function Root(rooted: bool): string {
    if rooted then "/" else ""
  }

  lemma LiveIsGlued(setup: Setup, parts: seq<string>)
    requires |parts| >= 1
    ensures LiveOf(setup, parts).text == Root(Paths.Rooted(setup.dataDir)) + Paths.Glue(Paths.Parts(setup.dataDir) + parts)
  {
    hide Paths.Parts, Paths.Glue, Paths.Render, Paths.Rooted, Root;
    RenderIsGlued(Paths.Rooted(setup.dataDir), Paths.Parts(setup.dataDir) + parts);
  }

  lemma RenderIsGlued(rooted: bool, parts: seq<string>)
    requires |parts| >= 1
    ensures Paths.Render(rooted, parts) == Root(rooted) + Paths.Glue(parts)
  {
    hide Paths.Glue;
  }

  /** A suffix of the last name is one of the place. */
  lemma LiveSuffix(setup: Setup, parts: seq<string>, s: string)
    requires |parts| >= 1
    ensures LiveOf(setup, WithSuffix(parts, s)).text == LiveOf(setup, parts).text + s
  {
    var base := Paths.Parts(setup.dataDir);
    hide *;
    SuffixLast(base, parts, s);
    GlueSuffix(base + parts, s);
    LiveIsGlued(setup, parts);
    assert |WithSuffix(parts, s)| >= 1 by { SuffixLength(parts, s); }
    LiveIsGlued(setup, WithSuffix(parts, s));
  }

  lemma SuffixLength(parts: seq<string>, s: string)
    requires |parts| >= 1
    ensures |WithSuffix(parts, s)| == |parts|
  {
  }

  lemma RootCancels(rooted: bool, x: string, s: string, y: string)
    requires Root(rooted) + x + s == Root(rooted) + y
    ensures x + s == y
  {
    assert (Root(rooted) + x + s)[|Root(rooted)|..] == x + s;
    assert (Root(rooted) + y)[|Root(rooted)|..] == y;
  }

  lemma SuffixLast(base: seq<string>, a: seq<string>, s: string)
    requires |a| >= 1
    ensures WithSuffix(base + a, s) == base + WithSuffix(a, s)
  {
  }

  lemma PartsNoSlash(path: string)
    ensures Paths.AllNoSlash(Paths.Parts(path))
  {
    Paths.PartsNormal(path);
    hide Paths.Parts;
    forall p | p in Paths.Parts(path) ensures Paths.NoSlash(p) {
      var i :| 0 <= i < |Paths.Parts(path)| && Paths.Parts(path)[i] == p;
    }
  }

  lemma SuffixNoSlash(a: seq<string>, s: string)
    requires |a| >= 1 && Paths.AllNoSlash(a) && Paths.NoSlash(s)
    ensures |WithSuffix(a, s)| >= 1 && Paths.AllNoSlash(WithSuffix(a, s))
  {
    assert a[|a| - 1] in a;
  }

  lemma NoSlashAppend(a: seq<string>, b: seq<string>)
    requires Paths.AllNoSlash(a) && Paths.AllNoSlash(b)
    ensures Paths.AllNoSlash(a + b)
  {
  }

  lemma ApartLives(setup: Setup, later: Entry, earlier: Entry)
    requires Apart(later, earlier) && Paths.Descends(later.parts) && Paths.Descends(earlier.parts)
    ensures !Clobbers(LiveOf(setup, later.parts), LiveOf(setup, earlier.parts))
  {
    var l, e := LiveOf(setup, later.parts), LiveOf(setup, earlier.parts);
    hide LiveOf, Paths.Descends, IsDb;
    var a := later.parts;
    assert |a| >= 1;
    assert a[|a| - 1] + "" == a[|a| - 1] && a[..|a| - 1] + [a[|a| - 1]] == a;
    if l == e {
      assert l.text + "" == e.text;
      LiveApart(setup, a, earlier.parts, "");
    }
    if e == Wal(l) { LiveApart(setup, later.parts, earlier.parts, WAL); }
    if e == Shm(l) { LiveApart(setup, later.parts, earlier.parts, SHM); }
  }

  predicate Sound(setup: Setup, es: seq<Entry>) {
    forall e :: e in es ==> Paths.Descends(e.parts) && (e.FileEntry? ==> Placeable(setup, e.parts))
  }

  /** What is planned for the entries is, one for one, what their files ask for. */
  lemma {:induction false} EntriesTargets(setup: Setup, es: seq<Entry>)
    requires Sound(setup, es)
    ensures forall t :: t in TargetsIn(setup, Members(es)) <==> exists e :: e in es && IsTargetOf(setup, e, t)
  {
    if es != [] {
      var n := |es| - 1;
      var e := es[n];
      assert e in es;
      EntriesTargets(setup, es[..n]);
      assert Members(es)[..n] == Members(es[..n]);
      EntryTarget(setup, e);
      hide Paths.Descends, Placeable, TargetOf, MemberOf, IsTargetOf;
      assert forall d :: d in es <==> d in es[..n] || d == e by { assert es == es[..n] + [e]; }
    }
  }

  lemma {:induction false} EntriesOrdered(setup: Setup, es: seq<Entry>)
    requires AllApart(es) && Sound(setup, es)
    ensures OrderedTargets(TargetsIn(setup, Members(es)))
  {
    if es != [] {
      var n := |es| - 1;
      var e := es[n];
      assert e in es;
      hide *;
      SoundSplits(setup, es);
      EntriesOrdered(setup, es[..n]);
      EntriesTargets(setup, es[..n]);
      EntryTarget(setup, e);
      LastTargets(setup, es);
      var ts := TargetsIn(setup, Members(es[..n]));
      var more := TargetOf(setup, MemberOf(e));
      forall t, u | t in ts && u in more ensures !Clobbers(u.live, t.live) {
        var d :| d in es[..n] && IsTargetOf(setup, d, t);
        ApartLives(setup, e, d);
        TargetLive(setup, d, t);
        TargetLive(setup, e, u);
      }
      AppendOrdered(ts, more);
    }
  }

  lemma SoundSplits(setup: Setup, es: seq<Entry>)
    requires AllApart(es) && Sound(setup, es) && es != []
    ensures var n := |es| - 1;
      && AllApart(es[..n]) && Sound(setup, es[..n])
      && Paths.Descends(es[n].parts) && (es[n].FileEntry? ==> Placeable(setup, es[n].parts))
      && forall d :: d in es[..n] ==> Apart(es[n], d) && Paths.Descends(d.parts)
  {
    hide Apart, Paths.Descends, Placeable;
    var n := |es| - 1;
    assert es[n] in es;
    forall d | d in es[..n] ensures Apart(es[n], d) && d in es {
      var k :| 0 <= k < n && es[..n][k] == d;
      assert es[k] == d;
    }
  }

  lemma LastTargets(setup: Setup, es: seq<Entry>)
    requires es != [] && forall e :: e in es ==> |e.parts| >= 1
    ensures var n := |es| - 1;
      es[n] in es && TargetsIn(setup, Members(es)) == TargetsIn(setup, Members(es[..n])) + TargetOf(setup, MemberOf(es[n]))
  {
    hide TargetOf, MemberOf;
    var n := |es| - 1;
    assert es[n] in es && Members(es)[..n] == Members(es[..n]);
  }

  lemma TargetLive(setup: Setup, e: Entry, t: Target)
    requires |e.parts| >= 1 && IsTargetOf(setup, e, t)
    ensures t.live == LiveOf(setup, e.parts)
  {
  }

  lemma AppendOrdered(ts: seq<Target>, more: seq<Target>)
    requires OrderedTargets(ts) && |more| <= 1
    requires forall t, u :: t in ts && u in more ==> !Clobbers(u.live, t.live)
    ensures OrderedTargets(ts + more)
  {
    forall i, j | 0 <= i < j < |ts + more| ensures !Clobbers((ts + more)[j].live, (ts + more)[i].live) {
      if j >= |ts| { assert more[0] in more && ts[i] in ts; }
    }
  }

  /** A file entry, at its own place, with its own bytes. */
  predicate IsTargetOf(setup: Setup, e: Entry, t: Target)
    requires |e.parts| >= 1
  {
    e.FileEntry? && t == Target(StateName(e.parts), LiveOf(setup, e.parts), e.data)
  }

  lemma EntryTarget(setup: Setup, e: Entry)
    requires Paths.Descends(e.parts) && (e.FileEntry? ==> Placeable(setup, e.parts))
    ensures |TargetOf(setup, MemberOf(e))| <= 1
    ensures forall t :: t in TargetOf(setup, MemberOf(e)) <==> IsTargetOf(setup, e, t)
  {
    EntryDestination(setup, e.parts);
  }

  function StateTargets(setup: Setup, src: Source): seq<Target>
  {
    TargetsIn(setup, Members(StateEntries(src)))
  }

  function ConfigTarget(setup: Setup, src: Source): seq<Target> {
    if src.config.Some? && setup.configPath != ""
    then [Target(CONFIG, ConfigPath(setup), src.config.value)] else []
  }

  lemma OtherTargets(setup: Setup, src: Source, note: Option<Bytes>)
    ensures TargetsIn(setup, ConfigMembers(src)) == ConfigTarget(setup, src)
    ensures TargetsIn(setup, NoteMembers(note)) == []
  {
    NoteAndConfig(setup);
    assert Destination(setup, CONFIG) == Paths.Ok(if setup.configPath == "" then None else Some(ConfigPath(setup)));
    hide Destination;
    var b, c := ConfigMembers(src), NoteMembers(note);
    if b != [] { assert b[..0] == []; }
    if c != [] {
      assert c[..1] == [DirMember(SECRETS_DIR)] && c[..1][..0] == [];
      assert TargetsIn(setup, c[..1]) == TargetOf(setup, DirMember(SECRETS_DIR));
    }
  }

  lemma ContentsTargets(setup: Setup, src: Source, note: Option<Bytes>)
    ensures TargetsIn(setup, Contents(src, note)) == StateTargets(setup, src) + ConfigTarget(setup, src)
  {
    hide StateEntries, TargetsIn, ConfigMembers, NoteMembers;
    TargetsAppend(setup, Members(StateEntries(src)), ConfigMembers(src));
    TargetsAppend(setup, Members(StateEntries(src)) + ConfigMembers(src), NoteMembers(note));
    OtherTargets(setup, src, note);
  }

  /** No file of the data directory is at the config path, or is the sidecar of a database there. */
  predicate ConfigApart(setup: Setup, src: Source)
  {
    ConfigTarget(setup, src) != [] ==>
      forall e :: e in StateEntries(src) && e.FileEntry? ==> !Clobbers(ConfigPath(setup), LiveOf(setup, e.parts))
  }

  /** The order of a written archive is one the commit can undo, exactly when the config file is
      not itself kept in the data directory. */
  lemma WrittenOrder(setup: Setup, src: Source, note: Option<Bytes>)
    requires WellFormed(src.dir)
    requires forall e :: e in StateEntries(src) && e.FileEntry? ==> Placeable(setup, e.parts)
    ensures OrderedTargets(TargetsIn(setup, Contents(src, note))) <==> ConfigApart(setup, src)
    ensures OrderedTargets(StateTargets(setup, src))
    ensures forall t :: t in StateTargets(setup, src) <==> exists e :: e in StateEntries(src) && IsTargetOf(setup, e, t)
  {
    StateEntriesApart(src);
    ContentsTargets(setup, src, note);
    var es := StateEntries(src);
    hide WellFormed, StateEntries, LiveOf, Placeable, Contents, Apart, Clobbers;
    EntriesOrdered(setup, es);
    EntriesTargets(setup, es);
    OrderWithConfig(setup, src, es);
  }

  lemma OrderWithConfig(setup: Setup, src: Source, es: seq<Entry>)
    requires es == StateEntries(src)
    requires OrderedTargets(StateTargets(setup, src))
    requires forall t :: t in StateTargets(setup, src) <==> exists e :: e in es && IsTargetOf(setup, e, t)
    ensures OrderedTargets(StateTargets(setup, src) + ConfigTarget(setup, src)) <==> ConfigApart(setup, src)
  {
    hide StateEntries, LiveOf, Clobbers, StateName;
    var ts := StateTargets(setup, src);
    var more := ConfigTarget(setup, src);
    hide StateTargets, TargetsIn;
    if ConfigApart(setup, src) {
      forall t, u | t in ts && u in more ensures !Clobbers(u.live, t.live) {
        var e :| e in es && IsTargetOf(setup, e, t);
      }
      AppendOrdered(ts, more);
    } else {
      var e :| e in es && e.FileEntry? && Clobbers(ConfigPath(setup), LiveOf(setup, e.parts));
      var t := Target(StateName(e.parts), LiveOf(setup, e.parts), e.data);
      assert IsTargetOf(setup, e, t) && t in ts;
      var k :| 0 <= k < |ts| && ts[k] == t;
      assert (ts + more)[k] == t && (ts + more)[|ts|] == more[0];
      assert Clobbers((ts + more)[|ts|].live, (ts + more)[k].live);
    }
  }
}
