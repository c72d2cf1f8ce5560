/** Which files an archive of a data directory holds, said of the directory and not of the walk. */
module ArchiveContents {
  import opened Options
  import opened RestoreModel
  import opened Archive
  import opened ArchiveProofs
  import Paths

  // ---------------------------------------------------------------------------------------
  // The directory
  // ---------------------------------------------------------------------------------------

  function Child(dir: Forest, name: string): Option<Node> {
    match dir
    case Nil => None
    case Cons(n, node, rest) => if n == name then Some(node) else Child(rest, name)
  }

  /** The file that a path of names leads to. */
  function FileAt(dir: Forest, parts: seq<string>): Option<Bytes>
    decreases |parts|
  {
    if parts == [] then None
    else
      match Child(dir, parts[0])
      case Some(File(data)) => if |parts| == 1 then Some(data) else None
      case Some(Dir(kids)) => FileAt(kids, parts[1..])
      case None => None
  }

  /** A backup leaves out the key, and the live databases with their sidecars. */
  predicate KeptName(name: string) {
    name !in {"secret.key",
              "openccu-loom.db", "openccu-loom.db-wal", "openccu-loom.db-shm",
              "history.db", "history.db-wal", "history.db-shm"}
  }

  /** No directory on the way is tagged or, at the top, the archive store of the CCUs. */
  predicate KeptWay(top: bool, dir: Forest, parts: seq<string>)
    decreases |parts|
  {
    |parts| <= 1
    || match Child(dir, parts[0])
       case Some(Dir(kids)) =>
         !(top && parts[0] == "backups") && Child(kids, ".nobackup").None? && KeptWay(false, kids, parts[1..])
       case _ => false
  }

  predicate Kept(dir: Forest, parts: seq<string>) {
    parts != [] && KeptName(parts[|parts| - 1]) && KeptWay(true, dir, parts)
  }

  /** The path of names leads to a directory. */
  predicate HasDir(dir: Forest, parts: seq<string>)
    decreases |parts|
  {
    && parts != []
    && match Child(dir, parts[0])
       case Some(Dir(kids)) => |parts| == 1 || HasDir(kids, parts[1..])
       case _ => false
  }

  /** A directory is kept if a file in it would be, and it does not bear the name of one left out. */
  predicate KeptDir(dir: Forest, parts: seq<string>) {
    parts != [] && KeptName(parts[|parts| - 1]) && KeptWay(true, dir, parts + [""])
  }

  // ---------------------------------------------------------------------------------------
  // The walk finds them
  // ---------------------------------------------------------------------------------------

  lemma {:induction false} EntryIsChild(dir: Forest, name: string)
    ensures HasEntry(dir, name) <==> Child(dir, name).Some?
  {
    if dir.Cons? {
      EntryIsChild(dir.rest, name);
    }
  }

  lemma {:induction false} AboveIsAbsent(name: string, dir: Forest)
    requires AllAbove(name, dir)
    ensures Child(dir, name).None?
  {
    EntryIsChild(dir, name);
    if HasEntry(dir, name) {
      AboveEntry(name, dir, name);
      LessAsymmetric(name, name);
      assert false;
    }
  }

  lemma RecordedMeans(name: string)
    ensures Recorded(name) <==> KeptName(name)
  {
    assert MAIN_DB + WAL == "openccu-loom.db-wal" && MAIN_DB + SHM == "openccu-loom.db-shm";
    assert HISTORY_DB + WAL == "history.db-wal" && HISTORY_DB + SHM == "history.db-shm";
  }

  /** The entry for a file with these bytes, or for a directory. */
  function EntryFor(parts: seq<string>, what: Option<Bytes>): Entry {
    if what.Some? then FileEntry(parts, what.value) else DirEntry(parts)
  }

  /** What a walk of the directory at `at` has to record below it. */
  ghost predicate ToFind(at: seq<string>, dir: Forest, parts: seq<string>, what: Option<Bytes>) {
    && parts != [] && KeptName(parts[|parts| - 1])
    && (if what.Some? then FileAt(dir, parts) == what && KeptWay(at == [], dir, parts)
        else HasDir(dir, parts) && KeptWay(at == [], dir, parts + [""]))
  }

  lemma {:induction false} NodeIsExact(at: seq<string>, name: string, node: Node, parts: seq<string>, what: Option<Bytes>)
    requires GoodPath(at) && ValidName(name) && (node.Dir? ==> WellFormed(node.kids))
    requires parts != [] && parts[0] == name
    ensures EntryFor(at + parts, what) in WalkNode(at, name, node) <==> ToFind(at, Cons(name, node, Nil), parts, what)
    decreases node, 0
  {
    RecordedMeans(name);
    assert at + parts == (at + [name]) + parts[1..];
    assert at + parts == at + [name] <==> |parts| == 1 by {
      if |parts| > 1 { assert |at + parts| > |at + [name]|; } else { assert parts == [name]; }
    }
    match node {
      case File(bytes) =>
        FileFinds(at, name, bytes, parts, what);
        hide ToFind;
      case Dir(kids) =>
        EntryIsChild(kids, TAG);
        if !SkippedDir(at, name, kids) {
          assert GoodPath(at + [name]);
          WalkIsExact(at + [name], kids, parts[1..], what);
        }
        DirFinds(at, name, kids, parts, what);
        hide Walk, GoodPath, ValidName, WellFormed, ToFind;
    }
  }

  lemma FileFinds(at: seq<string>, name: string, bytes: Bytes, parts: seq<string>, what: Option<Bytes>)
    requires parts != [] && parts[0] == name
    ensures ToFind(at, Cons(name, File(bytes), Nil), parts, what) <==> |parts| == 1 && KeptName(name) && what == Some(bytes)
  {
    hide KeptName;
    assert Child(Cons(name, File(bytes), Nil), parts[0]) == Some(File(bytes));
  }

  lemma DirFinds(at: seq<string>, name: string, kids: Forest, parts: seq<string>, what: Option<Bytes>)
    requires parts != [] && parts[0] == name
    ensures ToFind(at, Cons(name, Dir(kids), Nil), parts, what)
      <==> && !(at == [] && name == "backups") && Child(kids, ".nobackup").None?
           && if |parts| == 1 then what.None? && KeptName(name) else ToFind(at + [name], kids, parts[1..], what)
  {
    hide KeptName;
    var dir := Cons(name, Dir(kids), Nil);
    assert Child(dir, parts[0]) == Some(Dir(kids)) && Child(dir, (parts + [""])[0]) == Some(Dir(kids));
    assert at + [name] != [];
    assert (parts + [""])[1..] == parts[1..] + [""];
    if |parts| > 1 {
      assert parts[1..][|parts[1..]| - 1] == parts[|parts| - 1];
    } else {
      assert parts[1..] == [] && FileAt(kids, parts[1..]) == None && parts[1..] + [""] == [""];
      assert parts[|parts| - 1] == name;
    }
    assert FileAt(dir, parts) == FileAt(kids, parts[1..]);
    assert HasDir(dir, parts) <==> |parts| == 1 || HasDir(kids, parts[1..]);
    assert KeptWay(at == [], dir, parts + [""])
      <==> !(at == [] && name == "backups") && Child(kids, ".nobackup").None? && KeptWay(false, kids, parts[1..] + [""]);
  }

  lemma OtherName(at: seq<string>, name: string, parts: seq<string>)
    requires parts != [] && parts[0] != name
    ensures !(at + [name] <= at + parts)
  {
    assert (at + parts)[|at|] != (at + [name])[|at|];
  }

  /** Only the child of the first name matters. */
  lemma SameChild(at: seq<string>, a: Forest, b: Forest, parts: seq<string>, what: Option<Bytes>)
    requires parts != [] && Child(a, parts[0]) == Child(b, parts[0])
    ensures ToFind(at, a, parts, what) <==> ToFind(at, b, parts, what)
  {
    hide KeptName;
    assert (parts + [""])[0] == parts[0];
  }

  /** Exactly the files at a kept path, with their own bytes, and the kept directories are recorded. */
  lemma {:induction false} WalkIsExact(at: seq<string>, dir: Forest, parts: seq<string>, what: Option<Bytes>)
    requires GoodPath(at) && WellFormed(dir)
    ensures EntryFor(at + parts, what) in Walk(at, dir) <==> ToFind(at, dir, parts, what)
    decreases dir, 1
  {
    if parts == [] {
      assert at + parts == at;
    } else if dir.Nil? {
      assert !ToFind(at, dir, parts, what);
    } else {
      var name, node, rest := dir.name, dir.node, dir.rest;
      WalkIsExact(at, rest, parts, what);
      if parts[0] == name {
        NodeIsExact(at, name, node, parts, what);
        AboveIsAbsent(name, rest);
        SameChild(at, dir, Cons(name, node, Nil), parts, what);
        assert !ToFind(at, rest, parts, what) by { SameChild(at, rest, Nil, parts, what); }
      } else {
        WalkNodeSpot(at, name, node);
        OtherName(at, name, parts);
        SameChild(at, dir, rest, parts, what);
      }
      hide KeptName, WalkNode, GoodPath, WellFormed, AllAbove, ValidName, ToFind;
    }
  }

  /** What the walk of a data directory records is exactly its kept files, with their own bytes, and its
      kept directories. */
  lemma WalkRecordsKept(dir: Forest, parts: seq<string>, data: Bytes)
    requires WellFormed(dir)
    ensures FileEntry(parts, data) in Walk([], dir) <==> FileAt(dir, parts) == Some(data) && Kept(dir, parts)
    ensures DirEntry(parts) in Walk([], dir) <==> HasDir(dir, parts) && KeptDir(dir, parts)
  {
    assert [] + parts == parts;
    WalkIsExact([], dir, parts, Some(data));
    WalkIsExact([], dir, parts, None);
    hide Walk, KeptName;
    if parts == [] {
      assert FileAt(dir, parts) == None;
    }
  }

  // ---------------------------------------------------------------------------------------
  // What an archive holds
  // ---------------------------------------------------------------------------------------

  /** What a backup takes under state/: the kept files of the directory, and the snapshots. */
  ghost predicate Held(src: Source, parts: seq<string>, data: Bytes) {
    || (FileAt(src.dir, parts) == Some(data) && Kept(src.dir, parts))
    || (parts == ["openccu-loom.db"] && data == src.main)
    || (parts == ["history.db"] && src.history == Some(data))
  }

  lemma HeldIsArchived(src: Source, parts: seq<string>, data: Bytes)
    requires WellFormed(src.dir)
    ensures Held(src, parts, data) <==> FileEntry(parts, data) in StateEntries(src)
  {
    WalkRecordsKept(src.dir, parts, data);
    assert FileEntry(parts, data) in Snapshots(src)
      <==> (parts == ["openccu-loom.db"] && data == src.main) || (parts == ["history.db"] && src.history == Some(data));
    hide Walk, Snapshots, Kept, FileAt, WellFormed;
  }

  /** The directory members of an archive are exactly the kept directories, and that of the note. */
  lemma ArchiveHoldsDirs(src: Source, note: Option<Bytes>, name: string)
    requires WellFormed(src.dir)
    ensures DirMember(name) in Contents(src, note)
      <==> || (exists parts :: HasDir(src.dir, parts) && KeptDir(src.dir, parts) && name == "state/" + Paths.Glue(parts) + "/")
           || (name == "secrets/" && note.Some?)
  {
    var m := DirMember(name);
    var es := StateEntries(src);
    assert m !in ConfigMembers(src);
    assert m in NoteMembers(note) <==> name == "secrets/" && note.Some?;
    forall parts ensures DirEntry(parts) in es <==> HasDir(src.dir, parts) && KeptDir(src.dir, parts) {
      WalkRecordsKept(src.dir, parts, []);
    }
    hide StateEntries, ConfigMembers, NoteMembers, HasDir, KeptDir, WellFormed, Paths.Glue;
    MembersHave(es, m);
    forall e | e in es ensures MemberOf(e) == m <==> e.DirEntry? && name == "state/" + Paths.Glue(e.parts) + "/" {}
    hide Members, MemberOf;
  }

  lemma MembersHave(es: seq<Entry>, m: Member)
    requires forall e :: e in es ==> |e.parts| >= 1
    ensures m in Members(es) <==> exists e :: e in es && MemberOf(e) == m
  {
    hide MemberOf;
    if m in Members(es) {
      var k :| 0 <= k < |es| && Members(es)[k] == m;
      assert es[k] in es;
    }
    if exists e :: e in es && MemberOf(e) == m {
      var e :| e in es && MemberOf(e) == m;
      var k :| 0 <= k < |es| && es[k] == e;
      assert Members(es)[k] == m;
    }
  }

  /** The file members of an archive are exactly the held files under state/, the config file and the
      note, each with its own bytes. */
  lemma ArchiveHolds(src: Source, note: Option<Bytes>, name: string, data: Bytes)
    requires WellFormed(src.dir)
    ensures FileMember(name, data) in Contents(src, note)
      <==> || (exists parts :: Held(src, parts, data) && name == "state/" + Paths.Glue(parts))
           || (name == "config.yaml" && src.config == Some(data))
           || (name == "secrets/README.txt" && note == Some(data))
  {
    var m := FileMember(name, data);
    var es := StateEntries(src);
    assert m in ConfigMembers(src) <==> name == "config.yaml" && src.config == Some(data);
    assert m in NoteMembers(note) <==> name == "secrets/README.txt" && note == Some(data);
    hide StateEntries, ConfigMembers, NoteMembers, Held, WellFormed, Paths.Glue;
    forall parts ensures Held(src, parts, data) <==> FileEntry(parts, data) in es { HeldIsArchived(src, parts, data); }
    MembersHave(es, m);
    forall e | e in es ensures MemberOf(e) == m <==> e == FileEntry(e.parts, data) && name == "state/" + Paths.Glue(e.parts) {}
    hide Members, MemberOf;
  }
}
