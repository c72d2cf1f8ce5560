/** What `backup create` puts into an archive, and what `backup restore` takes out of one. */
module Archive {
  import opened Options
  import opened RestoreModel
  import Paths

  // ---------------------------------------------------------------------------------------
  // The data directory and its walk
  // ---------------------------------------------------------------------------------------

  /** A directory tree; the entries of a directory come in the order the walk visits them. */
  datatype Node = File(data: Bytes) | Dir(kids: Forest)
  datatype Forest = Nil | Cons(name: string, node: Node, rest: Forest)

  const BACKUPS := "backups"
  const TAG := ".nobackup"
  const KEY_FILE := "secret.key"
  const MAIN_DB := "openccu-loom.db"
  const HISTORY_DB := "history.db"

  predicate IsLiveDBArtefact(base: string) {
    || base == MAIN_DB || base == MAIN_DB + WAL || base == MAIN_DB + SHM
    || base == HISTORY_DB || base == HISTORY_DB + WAL || base == HISTORY_DB + SHM
  }

  predicate HasEntry(dir: Forest, name: string) {
    dir.Cons? && (dir.name == name || HasEntry(dir.rest, name))
  }

  /** A file or directory the walk has recorded, by its path below the data directory. */
  datatype Entry = FileEntry(parts: seq<string>, data: Bytes) | DirEntry(parts: seq<string>)

  predicate SkippedDir(at: seq<string>, name: string, kids: Forest) {
    (at == [] && name == BACKUPS) || HasEntry(kids, TAG)
  }

  predicate Recorded(name: string) {
    !IsLiveDBArtefact(name) && name != KEY_FILE
  }

  function WalkNode(at: seq<string>, name: string, node: Node): (es: seq<Entry>)
    ensures forall e :: e in es ==> |e.parts| > |at|
    decreases node, 0
  {
    match node
    case File(data) => if Recorded(name) then [FileEntry(at + [name], data)] else []
    case Dir(kids) =>
      if SkippedDir(at, name, kids) then []
      else (if Recorded(name) then [DirEntry(at + [name])] else []) + Walk(at + [name], kids)
  }

  /** The walk over the entries of the directory at `at`. */
  function Walk(at: seq<string>, dir: Forest): (es: seq<Entry>)
    ensures forall e :: e in es ==> |e.parts| > |at|
    decreases dir, 1
  {
    match dir
    case Nil => []
    case Cons(name, node, rest) => WalkNode(at, name, node) + Walk(at, rest)
  }

  // ---------------------------------------------------------------------------------------
  // The archive
  // ---------------------------------------------------------------------------------------

  /** The manifest as a restore sees it. */
  datatype Manifest = Manifest(created: string, sums: map<string, string>, schema: map<string, int>)

  const NO_MANIFEST := Manifest("", map[], map[])

  /** What one JSON document does to a map it is decoded into: an object adds its keys to those that
      are there, an absent key adds none, and after a null only what follows it counts. */
  datatype Keys<V> = Added(entries: map<string, V>) | Reset(entries: map<string, V>)

  /** One manifest.json: decoding changes only what the document mentions. */
  datatype Patch = Patch(created: Option<string>, sums: Keys<string>, schema: Keys<int>)

  function Apply<V>(was: map<string, V>, keys: Keys<V>): map<string, V> {
    if keys.Added? then was + keys.entries else keys.entries
  }

  function Merge(m: Manifest, p: Patch): Manifest {
    Manifest(if p.created.Some? then p.created.value else m.created, Apply(m.sums, p.sums), Apply(m.schema, p.schema))
  }

  /** A tar member. A ManifestMember is a regular file manifest.json, of so many bytes, that parses;
      the other two kinds of it do not: BadManifestMember, and a FileMember of that name. */
  datatype Member =
    | FileMember(name: string, data: Bytes)
    | DirMember(name: string)
    | SpecialMember(name: string)
    | ManifestMember(patch: Patch, size: nat)
    | BadManifestMember

  const STATE := "state/"
  const CONFIG := "config.yaml"
  const MANIFEST := "manifest.json"

  function StateName(parts: seq<string>): string
    requires |parts| >= 1
  {
    STATE + Paths.Glue(parts)
  }

  /** What is backed up: the directory, the snapshots of the two databases and the config file. */
  datatype Source = Source(dir: Forest, main: Bytes, history: Option<Bytes>, config: Option<Bytes>)

  function Snapshots(src: Source): seq<Entry> {
    [FileEntry([MAIN_DB], src.main)]
      + (if src.history.Some? then [FileEntry([HISTORY_DB], src.history.value)] else [])
  }

  function StateEntries(src: Source): (es: seq<Entry>)
    ensures forall e :: e in es ==> |e.parts| >= 1
  {
    Walk([], src.dir) + Snapshots(src)
  }

  const SECRETS_DIR := "secrets/"
  const SECRETS_NOTE := "secrets/README.txt"

  function MemberOf(e: Entry): Member
    requires |e.parts| >= 1
  {
    match e
    case FileEntry(parts, data) => FileMember(StateName(parts), data)
    case DirEntry(parts) => DirMember(StateName(parts) + "/")
  }

  function Members(es: seq<Entry>): (ms: seq<Member>)
    requires forall e :: e in es ==> |e.parts| >= 1
    ensures |ms| == |es| && forall i :: 0 <= i < |es| ==> es[i] in es && ms[i] == MemberOf(es[i])
  {
    seq(|es|, i requires 0 <= i < |es| => assert es[i] in es; MemberOf(es[i]))
  }

  function ConfigMembers(src: Source): seq<Member> {
    if src.config.Some? then [FileMember(CONFIG, src.config.value)] else []
  }

  function NoteMembers(note: Option<Bytes>): seq<Member> {
    if note.Some? then [DirMember(SECRETS_DIR), FileMember(SECRETS_NOTE, note.value)] else []
  }

  /** The members written before the manifest. */
  function Contents(src: Source, note: Option<Bytes>): seq<Member>
  {
    Members(StateEntries(src)) + ConfigMembers(src) + NoteMembers(note)
  }

  function Sums(members: seq<Member>, digest: Bytes -> string): map<string, string> {
    if members == [] then map[]
    else
      var rest := Sums(members[..|members| - 1], digest);
      var m := members[|members| - 1];
      if m.FileMember? then rest[m.name := digest(m.data)] else rest
  }

  lemma SumsSnoc(members: seq<Member>, m: Member, digest: Bytes -> string)
    ensures Sums(members + [m], digest)
            == if m.FileMember? then Sums(members, digest)[m.name := digest(m.data)] else Sums(members, digest)
  {
    assert (members + [m])[..|members|] == members;
  }

  /** What an archive is stamped with: the time, the schema version of the database, and how many
      bytes the JSON of a manifest takes. */
  datatype Stamp = Stamp(created: string, schema: int, encoded: Patch -> nat)

  function Stamped(stamp: Stamp, sums: map<string, string>): Member {
    var patch := Patch(Some(stamp.created), Added(sums), Added(map[MAIN_DB := stamp.schema]));
    ManifestMember(patch, stamp.encoded(patch))
  }

  /** Write every entry, collecting the digests, then the manifest. */
  method WriteArchive(src: Source, note: Option<Bytes>, stamp: Stamp, digest: Bytes -> string)
    returns (members: seq<Member>)
    ensures members == Contents(src, note) + [Stamped(stamp, Sums(Contents(src, note), digest))]
  {
    hide Sums, StateName, Stamped, StateEntries;
    var entries := StateEntries(src);
    var sums: map<string, string> := map[];
    members := [];
    assert sums == Sums(members, digest) by { NoSums(digest); }
    for i := 0 to |entries|
      invariant |members| == i && forall k :: 0 <= k < i ==> entries[k] in entries && members[k] == MemberOf(entries[k])
      invariant sums == Sums(members, digest)
    {
      var e := entries[i];
      SumsSnoc(members, MemberOf(e), digest);
      members := members + [MemberOf(e)];
      if e.FileEntry? {
        sums := sums[StateName(e.parts) := digest(e.data)];
      }
    }
    ghost var state := members;
    if src.config.Some? {
      SumsSnoc(members, FileMember(CONFIG, src.config.value), digest);
      members := members + [FileMember(CONFIG, src.config.value)];
      sums := sums[CONFIG := digest(src.config.value)];
    }
    ghost var withConfig := members;
    if note.Some? {
      SumsSnoc(members, DirMember(SECRETS_DIR), digest);
      members := members + [DirMember(SECRETS_DIR)];
      SumsSnoc(members, FileMember(SECRETS_NOTE, note.value), digest);
      members := members + [FileMember(SECRETS_NOTE, note.value)];
      sums := sums[SECRETS_NOTE := digest(note.value)];
      assert members == withConfig + [DirMember(SECRETS_DIR), FileMember(SECRETS_NOTE, note.value)];
    }
    assert members == Contents(src, note);
    members := members + [Stamped(stamp, sums)];
  }

  lemma NoSums(digest: Bytes -> string)
    ensures Sums([], digest) == map[]
  {
  }

  // ---------------------------------------------------------------------------------------
  // What a restore plans to put where
  // ---------------------------------------------------------------------------------------

  const MAX_ENTRIES := 100_000
  const MAX_MANIFEST_SIZE := 4 * 1024 * 1024
  const MAX_ENTRY_SIZE := 8 * 1024 * 1024 * 1024

  datatype Target = Target(name: string, live: Path, data: Bytes)

  /** Flags and facts of one restore: where to, whether a config path was given, what this binary
      can read, and the digest in use. */
  datatype Setup = Setup(dataDir: string, configPath: string, force: bool, maxSchema: int, digest: Bytes -> string)

  datatype Reading = Reading(count: nat, manifest: Manifest, targets: seq<Target>)

  function CutPrefix(s: string, prefix: string): string
    requires prefix <= s
  {
    s[|prefix|..]
  }

  /** The file the config path names: other spellings of it name the same file. */
  function ConfigPath(setup: Setup): Path {
    Path(Paths.Clean(setup.configPath))
  }

  /** Where a file member is staged to, if anywhere. */
  function Destination(setup: Setup, name: string): Paths.Result<Option<Path>> {
    if name == CONFIG then
      Paths.Ok(if setup.configPath == "" then None else Some(ConfigPath(setup)))
    else if STATE <= name then
      match Paths.SafeJoin(setup.dataDir, CutPrefix(name, STATE))
      case Err(e) => Paths.Err(e)
      case Ok(dest) => Paths.Ok(Some(Path(dest)))
    else Paths.Ok(None)
  }

  /** One turn of the reading loop. */
  function ReadOne(setup: Setup, r: Reading, m: Member): Paths.Result<Reading> {
    match m
    case DirMember(_) => Paths.Ok(r)
    case SpecialMember(_) => Paths.Ok(r)
    case _ =>
      if r.count + 1 > MAX_ENTRIES then Paths.Err("too many entries")
      else
        var counted := r.(count := r.count + 1);
        match m
        case BadManifestMember => Paths.Err("manifest")
        case ManifestMember(patch, size) =>
          if size > MAX_MANIFEST_SIZE then Paths.Err("manifest")
          else Paths.Ok(counted.(manifest := Merge(r.manifest, patch)))
        case FileMember(name, data) =>
          if |data| > MAX_ENTRY_SIZE then Paths.Err("entry too large")
          else if name == MANIFEST then Paths.Err("manifest")
          else
            match Destination(setup, name)
            case Err(e) => Paths.Err(e)
            case Ok(None) => Paths.Ok(counted)
            case Ok(Some(live)) => Paths.Ok(counted.(targets := r.targets + [Target(name, live, data)]))
  }

  function Read(setup: Setup, members: seq<Member>): Paths.Result<Reading> {
    if members == [] then Paths.Ok(Reading(0, NO_MANIFEST, []))
    else
      match Read(setup, members[..|members| - 1])
      case Err(e) => Paths.Err(e)
      case Ok(r) => ReadOne(setup, r, members[|members| - 1])
  }

  predicate SumsMatch(setup: Setup, r: Reading) {
    forall t :: t in r.targets && t.name in r.manifest.sums ==> r.manifest.sums[t.name] == setup.digest(t.data)
  }

  predicate SchemaFits(setup: Setup, m: Manifest) {
    MAIN_DB !in m.schema || m.schema[MAIN_DB] <= setup.maxSchema || setup.force
  }

  function Plan(setup: Setup, members: seq<Member>): Paths.Result<seq<Target>> {
    match Read(setup, members)
    case Err(e) => Paths.Err(e)
    case Ok(r) =>
      if r.manifest.created == "" then Paths.Err("manifest.json not found")
      else if !SumsMatch(setup, r) then Paths.Err("sha256 mismatch")
      else if !SchemaFits(setup, r.manifest) then Paths.Err("newer schema")
      else Paths.Ok(r.targets)
  }
}
