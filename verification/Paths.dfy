/** Slash-separated paths: lexical cleaning, and the join that keeps an archive member inside
    the data directory. */
module Paths {

  datatype Result<T> = Ok(value: T) | Err(error: string)

  const DOT := "."
  const DOTDOT := ".."

  predicate NoSlash(s: string) {
    forall i :: 0 <= i < |s| ==> s[i] != '/'
  }

  predicate AllNoSlash(parts: seq<string>) {
    forall p :: p in parts ==> NoSlash(p)
  }

  function Split(s: string): (parts: seq<string>)
    ensures |parts| >= 1 && AllNoSlash(parts)
  {
    if s == "" then [""]
    else
      var rest := Split(s[1..]);
      if s[0] == '/' then [""] + rest
      else
        assert rest[0] in rest && NoSlash([s[0]] + rest[0]);
        [[s[0]] + rest[0]] + rest[1..]
  }

  function Glue(parts: seq<string>): string
    requires |parts| >= 1
  {
    if |parts| == 1 then parts[0] else parts[0] + "/" + Glue(parts[1..])
  }

  predicate Rooted(path: string) {
    |path| > 0 && path[0] == '/'
  }

  /** One path element applied to the elements kept so far. */
  function Step(rooted: bool, stack: seq<string>, part: string): seq<string> {
    if part == "" || part == DOT then stack
    else if part != DOTDOT then stack + [part]
    else if |stack| > 0 && stack[|stack| - 1] != DOTDOT then stack[..|stack| - 1]
    else if rooted then stack
    else stack + [DOTDOT]
  }

  function Reduce(rooted: bool, stack: seq<string>, parts: seq<string>): seq<string>
    decreases |parts|
  {
    if parts == [] then stack else Reduce(rooted, Step(rooted, stack, parts[0]), parts[1..])
  }

  /** The resolved element list of a path. */
  function Parts(path: string): seq<string> {
    Reduce(Rooted(path), [], Split(path))
  }

  /** What a path element, in a text, does to what comes before it. */
  function Entered(path: string, name: string): seq<string> {
    var before := Parts(path);
    if name == "" || name == "." then before
    else if name != ".." then before + [name]
    else if before != [] && before[|before| - 1] != ".." then before[..|before| - 1]
    else if path == "" || path[0] == '/' then before
    else before + [".."]
  }

  function Render(rooted: bool, parts: seq<string>): string {
    if parts == [] then (if rooted then "/" else DOT)
    else if rooted then "/" + Glue(parts)
    else Glue(parts)
  }

  /** `filepath.Clean` on a slash-separated system. */
  function Clean(path: string): string {
    Render(Rooted(path), Parts(path))
  }

  /** `filepath.Join` of two non-empty elements. */
  function Join(a: string, b: string): string {
    Clean(a + "/" + b)
  }

  predicate HasPrefix(s: string, prefix: string) {
    prefix <= s
  }

  /** `safeDataDirJoin`. */
  function SafeJoin(dataDir: string, rel: string): Result<string> {
    if rel == "" || rel == DOT then Err("empty archive path under state/")
    else if rel[0] == '/' || rel[0] == '\\' then Err("absolute path in archive")
    else
      var base := Clean(dataDir);
      var dest := Clean(Join(base, rel));
      if dest != base && !HasPrefix(dest, base + "/") then Err("path escapes data dir") else Ok(dest)
  }

  // ---------------------------------------------------------------------------------------
  // Splitting and gluing are inverse
  // ---------------------------------------------------------------------------------------

  lemma {:induction false} GlueSplit(s: string)
    ensures Glue(Split(s)) == s
  {
    if s != "" {
      GlueSplit(s[1..]);
      var rest := Split(s[1..]);
      if s[0] != '/' {
        var all := [[s[0]] + rest[0]] + rest[1..];
        if |rest| > 1 {
          assert all[1..] == rest[1..];
          assert Glue(all) == [s[0]] + rest[0] + "/" + Glue(rest[1..]);
        }
      } else {
        assert ([""] + rest)[1..] == rest;
        assert Glue([""] + rest) == "" + "/" + Glue(rest);
      }
    }
  }

  function Push(c: char, parts: seq<string>): seq<string>
    requires |parts| >= 1
  {
    if c == '/' then [""] + parts else [[c] + parts[0]] + parts[1..]
  }

  lemma SplitCons(c: char, s: string)
    ensures Split([c] + s) == Push(c, Split(s))
  {
    assert ([c] + s)[1..] == s;
  }

  lemma PushAppend(c: char, a: seq<string>, b: seq<string>)
    requires |a| >= 1
    ensures Push(c, a + b) == Push(c, a) + b
  {
    assert (a + b)[1..] == a[1..] + b;
  }

  /** A separator between two strings splits exactly there. */
  lemma {:induction false} SplitAt(a: string, b: string)
    ensures Split(a + "/" + b) == Split(a) + Split(b)
  {
    if a == "" {
      SplitCons('/', b);
      assert a + "/" + b == ['/'] + b;
    } else {
      hide Split, Push;
      var tail := a[1..];
      SplitAt(tail, b);
      SplitCons(a[0], tail);
      SplitCons(a[0], tail + "/" + b);
      assert a == [a[0]] + tail;
      assert a + "/" + b == [a[0]] + (tail + "/" + b);
      PushAppend(a[0], Split(tail), Split(b));
    }
  }

  lemma {:induction false} SplitPlain(s: string)
    requires NoSlash(s)
    ensures Split(s) == [s]
  {
    if s != "" {
      var tail := s[1..];
      forall i | 0 <= i < |tail| ensures tail[i] != '/' { assert tail[i] == s[i + 1]; }
      SplitPlain(tail);
      assert s == [s[0]] + tail;
    }
  }

  lemma {:induction false} SplitGlue(parts: seq<string>)
    requires |parts| >= 1 && AllNoSlash(parts)
    ensures Split(Glue(parts)) == parts
  {
    SplitPlain(parts[0]);
    if |parts| > 1 {
      SplitGlue(parts[1..]);
      SplitAt(parts[0], Glue(parts[1..]));
      assert parts[0] + "/" + Glue(parts[1..]) == Glue(parts);
      assert parts == [parts[0]] + parts[1..];
    } else {
      assert parts == [parts[0]];
    }
  }

  lemma GlueInjective(a: seq<string>, b: seq<string>)
    requires |a| >= 1 && |b| >= 1 && AllNoSlash(a) && AllNoSlash(b)
    requires Glue(a) == Glue(b)
    ensures a == b
  {
    SplitGlue(a);
    SplitGlue(b);
  }

  lemma {:induction false} GlueAppend(a: seq<string>, b: seq<string>)
    requires |a| >= 1 && |b| >= 1
    ensures Glue(a + b) == Glue(a) + "/" + Glue(b)
  {
    if |a| == 1 {
      GlueCons(a[0], b);
      assert a + b == [a[0]] + b;
    } else {
      GlueCons(a[0], a[1..] + b);
      GlueCons(a[0], a[1..]);
      GlueAppend(a[1..], b);
      assert a + b == [a[0]] + (a[1..] + b) && a == [a[0]] + a[1..];
      assert a[0] + "/" + (Glue(a[1..]) + "/" + Glue(b)) == (a[0] + "/" + Glue(a[1..])) + "/" + Glue(b);
      hide Glue;
    }
  }

  lemma GlueCons(part: string, rest: seq<string>)
    requires |rest| >= 1
    ensures Glue([part] + rest) == part + "/" + Glue(rest)
  {
    assert ([part] + rest)[1..] == rest;
  }

  // ---------------------------------------------------------------------------------------
  // Cleaning
  // ---------------------------------------------------------------------------------------

  /** What cleaning leaves: real names, with `..` only in front, and never under a root. */
  predicate Normal(rooted: bool, parts: seq<string>) {
    && (forall i :: 0 <= i < |parts| ==> NoSlash(parts[i]) && parts[i] != "" && parts[i] != DOT)
    && (forall i, j :: 0 <= i < j < |parts| && parts[j] == DOTDOT ==> parts[i] == DOTDOT)
    && (rooted ==> forall i :: 0 <= i < |parts| ==> parts[i] != DOTDOT)
  }

  lemma {:induction false} ReduceNormal(rooted: bool, stack: seq<string>, parts: seq<string>)
    requires Normal(rooted, stack) && AllNoSlash(parts)
    ensures Normal(rooted, Reduce(rooted, stack, parts))
    decreases |parts|
  {
    if parts != [] {
      assert Normal(rooted, Step(rooted, stack, parts[0]));
      ReduceNormal(rooted, Step(rooted, stack, parts[0]), parts[1..]);
    }
  }

  lemma {:induction false} ReduceAppend(rooted: bool, stack: seq<string>, a: seq<string>, b: seq<string>)
    ensures Reduce(rooted, stack, a + b) == Reduce(rooted, Reduce(rooted, stack, a), b)
    decreases |a|
  {
    if a == [] {
      assert a + b == b;
    } else {
      assert (a + b)[1..] == a[1..] + b;
      ReduceAppend(rooted, Step(rooted, stack, a[0]), a[1..], b);
    }
  }

  /** Elements that already are in normal form behind the stack are all kept. */
  lemma {:induction false} ReduceKeeps(rooted: bool, stack: seq<string>, parts: seq<string>)
    requires Normal(rooted, stack + parts)
    ensures Reduce(rooted, stack, parts) == stack + parts
    decreases |parts|
  {
    if parts == [] {
      assert stack + parts == stack;
    } else {
      var p := parts[0];
      assert (stack + parts)[|stack|] == p;
      assert stack + parts == (stack + [p]) + parts[1..];
      if p == DOTDOT && |stack| > 0 {
        assert (stack + parts)[|stack| - 1] == stack[|stack| - 1];
      }
      assert Step(rooted, stack, p) == stack + [p];
      ReduceKeeps(rooted, stack + [p], parts[1..]);
    }
  }

  lemma PartsNormal(path: string)
    ensures Normal(Rooted(path), Parts(path))
  {
    ReduceNormal(Rooted(path), [], Split(path));
  }

  /** The elements between the separators of a rendered path. */
  function Rendered(rooted: bool, parts: seq<string>): seq<string> {
    if parts == [] then (if rooted then ["", ""] else [DOT])
    else if rooted then [""] + parts
    else parts
  }

  lemma SplitRender(rooted: bool, parts: seq<string>)
    requires Normal(rooted, parts)
    ensures Split(Render(rooted, parts)) == Rendered(rooted, parts)
    ensures Rooted(Render(rooted, parts)) == rooted
    ensures Parts(Render(rooted, parts)) == parts
  {
    if parts == [] {
      SplitRenderNone(rooted);
    } else {
      hide Split, Glue, Normal;
      NormalNames(rooted, parts);
      SplitGlue(parts);
      FirstOfGlue(parts);
      ReduceKeeps(rooted, [], parts);
      assert [] + parts == parts;
      if rooted {
        SplitAt("", Glue(parts));
        assert "" + "/" + Glue(parts) == Render(rooted, parts);
        SplitPlain("");
        SkipsEmpty(parts);
      }
    }
  }

  lemma NormalNames(rooted: bool, parts: seq<string>)
    requires Normal(rooted, parts)
    ensures AllNoSlash(parts)
  {
    hide NoSlash;
    forall p | p in parts ensures NoSlash(p) { var i :| 0 <= i < |parts| && parts[i] == p; }
  }

  lemma SkipsEmpty(parts: seq<string>)
    ensures Reduce(true, [], [""] + parts) == Reduce(true, [], parts)
  {
    assert ([""] + parts)[1..] == parts;
  }

  lemma SplitRenderNone(rooted: bool)
    ensures Split(Render(rooted, [])) == Rendered(rooted, [])
    ensures Rooted(Render(rooted, [])) == rooted && Parts(Render(rooted, [])) == []
  {
    assert Split("/") == ["", ""] by { SplitAt("", ""); assert "" + "/" + "" == "/"; }
    assert Split(".") == ["."] by { SplitPlain("."); }
    hide Split;
    assert Reduce(rooted, [], [DOT]) == [];
    assert Reduce(rooted, [], ["", ""]) == [];
  }

  lemma FirstOfGlue(parts: seq<string>)
    requires |parts| >= 1 && |parts[0]| > 0
    ensures |Glue(parts)| > 0 && Glue(parts)[0] == parts[0][0]
  {
  }

  /** Cleaning keeps what a path means and is idempotent. */
  lemma CleanMeans(path: string)
    ensures Parts(Clean(path)) == Parts(path) && Rooted(Clean(path)) == Rooted(path)
    ensures Clean(Clean(path)) == Clean(path)
  {
    PartsNormal(path);
    SplitRender(Rooted(path), Parts(path));
  }

  // ---------------------------------------------------------------------------------------
  // Staying inside the data directory
  // ---------------------------------------------------------------------------------------

  /** dest is base or below it: the same elements, then elements that never climb. */
  predicate Inside(base: string, dest: string) {
    && Rooted(dest) == Rooted(base)
    && Parts(base) <= Parts(dest)
    && (forall i :: |Parts(base)| <= i < |Parts(dest)| ==> Parts(dest)[i] != DOTDOT)
  }

  /** The directory is nothing but steps to the parent. */
  predicate OnlyClimbs(dir: string) {
    Parts(dir) != [] && forall i :: 0 <= i < |Parts(dir)| ==> Parts(dir)[i] == DOTDOT
  }

  lemma PrefixSplits(rooted: bool, base: seq<string>, dest: seq<string>)
    requires Normal(rooted, base) && Normal(rooted, dest)
    requires HasPrefix(Render(rooted, dest), Render(rooted, base) + "/")
    ensures base != [] && |base| < |dest| && base <= dest
  {
    hide Split, Reduce, Render, Rendered, Normal;
    var b, d := Render(rooted, base), Render(rooted, dest);
    SplitRender(rooted, base);
    SplitRender(rooted, dest);
    var rest := d[|b| + 1..];
    assert d == b + "/" + rest;
    SplitAt(b, rest);
    PrefixOfRendered(rooted, base, dest, Split(rest));
  }

  /** A cleaned path has another cleaned path and a separator in front exactly when the latter's
      elements come first and neither the root nor the current directory is meant. */
  lemma PrefixMeans(rooted: bool, base: seq<string>, dest: seq<string>)
    requires Normal(rooted, base) && Normal(rooted, dest)
    ensures HasPrefix(Render(rooted, dest), Render(rooted, base) + "/")
            <==> base != [] && |base| < |dest| && base <= dest
  {
    hide Normal;
    if HasPrefix(Render(rooted, dest), Render(rooted, base) + "/") {
      PrefixSplits(rooted, base, dest);
    }
    if base != [] && |base| < |dest| && base <= dest {
      var tail := dest[|base|..];
      assert dest == base + tail;
      GlueAppend(base, tail);
      assert Render(rooted, dest) == Render(rooted, base) + "/" + Glue(tail);
    }
  }

  lemma FirstRendered(rooted: bool, dest: seq<string>)
    requires Normal(rooted, dest)
    ensures var k := if rooted then 1 else 0;
            |Rendered(rooted, dest)| > k + 1 ==>
              dest != [] && Rendered(rooted, dest)[k] != "" && Rendered(rooted, dest)[k] != DOT
  {
  }

  lemma PrefixOfRendered(rooted: bool, base: seq<string>, dest: seq<string>, rest: seq<string>)
    requires Normal(rooted, base) && Normal(rooted, dest) && |rest| >= 1
    requires Rendered(rooted, dest) == Rendered(rooted, base) + rest
    ensures base != [] && |base| < |dest| && base <= dest
  {
    var rd := Rendered(rooted, dest);
    var rb := Rendered(rooted, base);
    var k := if rooted then 1 else 0;
    assert |rd| == |rb| + |rest| && rd[k] == rb[k];
    FirstRendered(rooted, dest);
    assert base != [];
    assert rb == rb[..k] + base;
    forall i | 0 <= i < |base| ensures i < |dest| && dest[i] == base[i] {
      assert rd[i + k] == rb[i + k];
    }
    assert base == dest[..|base|];
  }

  lemma JoinParts(dataDir: string, rel: string)
    requires rel != "" && Clean(dataDir) != ""
    ensures var dest := Clean(Join(Clean(dataDir), rel));
            && Rooted(dest) == Rooted(dataDir)
            && Parts(dest) == Reduce(Rooted(dataDir), Parts(dataDir), Split(rel))
            && dest == Render(Rooted(dataDir), Parts(dest))
            && Normal(Rooted(dataDir), Parts(dest))
  {
    hide Split, Reduce, Render;
    var base := Clean(dataDir);
    CleanMeans(dataDir);
    CleanMeans(base + "/" + rel);
    CleanMeans(Join(base, rel));
    SplitAt(base, rel);
    var r := Rooted(dataDir);
    assert Rooted(base + "/" + rel) == r;
    ReduceAppend(r, [], Split(base), Split(rel));
    PartsNormal(base + "/" + rel);
  }

  lemma CleanNonEmpty(path: string)
    ensures Clean(path) != ""
  {
    PartsNormal(path);
    if Parts(path) != [] {
      FirstOfGlue(Parts(path));
    }
  }

  /** When a member is accepted, and where it then goes. */
  lemma JoinAccepts(dataDir: string, rel: string)
    ensures rel == "" || rel == "." || rel[0] == '/' || rel[0] == '\\' ==> SafeJoin(dataDir, rel).Err?
    ensures rel != "" && rel != "." && rel[0] != '/' && rel[0] != '\\' ==> Accepts(dataDir, rel)
  {
    if rel != "" && rel != "." && rel[0] != '/' && rel[0] != '\\' {
      NamedAccepts(dataDir, rel);
    }
  }

  /** The member is accepted if it resolves to the directory or, the directory being named, below it. */
  ghost predicate Accepts(dataDir: string, rel: string) {
    var parts := Reduce(Rooted(dataDir), Parts(dataDir), Split(rel));
    && (SafeJoin(dataDir, rel).Ok? <==> parts == Parts(dataDir) || (Parts(dataDir) != [] && Parts(dataDir) <= parts))
    && (SafeJoin(dataDir, rel).Ok? ==>
          && Parts(SafeJoin(dataDir, rel).value) == parts
          && Rooted(SafeJoin(dataDir, rel).value) == Rooted(dataDir)
          && SafeJoin(dataDir, rel).value == Render(Rooted(dataDir), parts))
  }

  lemma NamedAccepts(dataDir: string, rel: string)
    requires rel != "" && rel != DOT && rel[0] != '/' && rel[0] != '\\'
    ensures Accepts(dataDir, rel)
  {
    hide Split, Reduce, Render;
    CleanNonEmpty(dataDir);
    JoinParts(dataDir, rel);
    CleanMeans(dataDir);
    PartsNormal(dataDir);
    var r := Rooted(dataDir);
    var parts := Reduce(r, Parts(dataDir), Split(rel));
    var base := Clean(dataDir);
    var dest := Clean(Join(base, rel));
    assert base == Render(r, Parts(dataDir)) && dest == Render(r, parts);
    PrefixMeans(r, Parts(dataDir), parts);
    if dest == base { assert Parts(dest) == Parts(base); }
    if parts == Parts(dataDir) { assert dest == base; }
    if Parts(dataDir) <= parts && |Parts(dataDir)| == |parts| { assert parts == Parts(dataDir); }
  }

  /** What the resolved elements of a path are: none of the empty path, and an element after a slash
      is entered, is nothing, or leads to the parent. */
  lemma PartsMean(path: string, name: string)
    requires NoSlash(name)
    ensures Parts(path + "/" + name) == Entered(path, name)
    ensures Parts(name) == if name == "" || name == "." then [] else [name]
  {
    SplitAt(path, name);
    SplitPlain(name);
    EmptyParts();
    hide Split, NoSlash, Reduce;
    var whole := path + "/" + name;
    if path == "" {
      assert Rooted(whole) by { assert whole[0] == '/'; }
      assert Split("") + [name] == ["", name];
      ReduceTwo(true, name);
    } else {
      assert Rooted(whole) == Rooted(path) by { assert whole[0] == path[0]; }
      ReduceAppend(Rooted(path), [], Split(path), [name]);
      ReduceOne(Rooted(path), Parts(path), name);
    }
    ReduceOne(Rooted(name), [], name);
  }

  lemma ReduceOne(rooted: bool, stack: seq<string>, name: string)
    ensures Reduce(rooted, stack, [name]) == Step(rooted, stack, name)
  {
    hide Step;
    assert [name][1..] == [];
  }

  lemma ReduceTwo(rooted: bool, name: string)
    ensures Reduce(rooted, [], ["", name]) == Step(rooted, [], name)
  {
    assert ["", name][1..] == [name];
    ReduceOne(rooted, [], name);
  }

  lemma EmptyParts()
    ensures Parts("") == [] && Split("") == [""]
  {
  }

  /** Every accepted member lands inside the data directory, whatever the archive says, exactly
      when the directory is not a bare chain of `..`. */
  lemma ContainmentIsExact(dataDir: string)
    ensures (forall rel: string :: SafeJoin(dataDir, rel).Ok? ==> Inside(dataDir, SafeJoin(dataDir, rel).value))
            <==> !OnlyClimbs(dataDir)
  {
    hide SafeJoin, Parts, Render;
    if OnlyClimbs(dataDir) {
      EscapeExists(dataDir);
    } else {
      forall rel: string | SafeJoin(dataDir, rel).Ok? ensures Inside(dataDir, SafeJoin(dataDir, rel).value) {
        Contained(dataDir, rel);
      }
    }
  }

  lemma OkIsNamed(dataDir: string, rel: string)
    requires SafeJoin(dataDir, rel).Ok?
    ensures rel != "" && rel != DOT && rel[0] != '/' && rel[0] != '\\'
  {
  }

  lemma Contained(dataDir: string, rel: string)
    requires !OnlyClimbs(dataDir) && SafeJoin(dataDir, rel).Ok?
    ensures Inside(dataDir, SafeJoin(dataDir, rel).value)
  {
    OkIsNamed(dataDir, rel);
    hide SafeJoin, Parts, Split, Reduce, Render;
    JoinAccepts(dataDir, rel);
    var dest := SafeJoin(dataDir, rel).value;
    PartsNormal(dest);
    PartsNormal(dataDir);
    var base := Parts(dataDir);
    if base != [] {
      assert base <= Parts(dest);
      var k :| 0 <= k < |base| && base[k] != DOTDOT;
      assert Parts(dest)[k] != DOTDOT;
    }
  }

  lemma SplitClimb()
    ensures Split("../x") == [DOTDOT, "x"]
  {
    SplitAt("..", "x");
    SplitPlain("..");
    SplitPlain("x");
    assert ".." + "/" + "x" == "../x";
  }

  /** With a data directory such as `..`, the member `../x` is accepted and lands outside. */
  lemma EscapeExists(dataDir: string)
    requires OnlyClimbs(dataDir)
    ensures SafeJoin(dataDir, "../x").Ok? && !Inside(dataDir, SafeJoin(dataDir, "../x").value)
  {
    var rel := "../x";
    hide SafeJoin, Parts, Render, Split;
    PartsNormal(dataDir);
    var base := Parts(dataDir);
    SplitClimb();
    assert !Rooted(dataDir) by { assert base[0] == DOTDOT; }
    assert [DOTDOT, "x"][1..] == ["x"] && ["x"][1..] == [];
    assert Reduce(false, base, [DOTDOT, "x"]) == base + [DOTDOT] + ["x"];
    JoinAccepts(dataDir, rel);
    var dest := SafeJoin(dataDir, rel).value;
    assert Parts(dest)[|base|] == DOTDOT;
  }

  /** The result need not be strictly inside: a member that resolves to the data directory itself
      is accepted. */
  lemma DataDirItselfIsAccepted(dataDir: string)
    ensures SafeJoin(dataDir, "x/..") == Ok(Clean(dataDir))
  {
    hide SafeJoin, Parts, Render;
    var rel := "x/..";
    PartsNormal(dataDir);
    var base := Parts(dataDir);
    assert Split(rel) == ["x", DOTDOT] by {
      SplitAt("x", "..");
      SplitPlain("..");
      SplitPlain("x");
      assert "x" + "/" + ".." == rel;
    }
    assert ["x", DOTDOT][1..] == [DOTDOT] && [DOTDOT][1..] == [];
    assert (base + ["x"])[..|base|] == base;
    assert Reduce(Rooted(dataDir), base, ["x", DOTDOT]) == base;
    JoinAccepts(dataDir, rel);
  }

  /** A member's name is a clean relative path: real names, no `..`. */
  predicate Descends(parts: seq<string>) {
    |parts| >= 1 && Normal(true, parts)
  }

  /** A clean name is accepted, and appended to the data directory, unless the directory is the
      root or the current one (then every name is refused) or the name starts with a backslash. */
  lemma CleanNameIsExact(dataDir: string, parts: seq<string>)
    requires Descends(parts)
    ensures SafeJoin(dataDir, Glue(parts)).Ok? <==> Parts(dataDir) != [] && Glue(parts)[0] != '\\'
    ensures SafeJoin(dataDir, Glue(parts)).Ok? ==>
              SafeJoin(dataDir, Glue(parts)).value == Render(Rooted(dataDir), Parts(dataDir) + parts)
  {
    var rel := Glue(parts);
    forall p | p in parts ensures NoSlash(p) { var i :| 0 <= i < |parts| && parts[i] == p; }
    FirstOfGlue(parts);
    SplitGlue(parts);
    assert rel != DOT by { SplitPlain(DOT); }
    assert rel[0] != '/' by { assert NoSlash(parts[0]); }
    if rel[0] != '\\' {
      hide SafeJoin, Parts, Render, Glue;
      PartsNormal(dataDir);
      var base := Parts(dataDir);
      assert Normal(Rooted(dataDir), base + parts);
      ReduceKeeps(Rooted(dataDir), base, parts);
      JoinAccepts(dataDir, rel);
    }
  }
}
