/** Which central a callback is charged to, and how many callbacks of a central are in flight. */
module CallbackMetrics {
  import opened Options

  /** A registered central; `observed` once its metrics are wired. */
  datatype Unit = Unit(name: string, instance: string, observed: bool)

  const ID_PREFIX := "loom"

  function TrimPrefix(s: string, p: string): string {
    if p <= s then s[|p|..] else s
  }

  /** The id of the registration, reduced to `<central>-<interface>`. */
  function CanonicalInterfaceId(instance: string, central: string, id: string): string {
    if ID_PREFIX + "-" <= id then
      var rest := id[|ID_PREFIX| + 1..];
      if instance != "" && instance != central then TrimPrefix(rest, instance + "-") else rest
    else if instance != "" then TrimPrefix(id, instance + "-")
    else id
  }

  /** The id a central registers an interface under; an equal instance name is left out. */
  function InitInterfaceId(instance: string, central: string, interface: string): string {
    ID_PREFIX + "-" + (if instance != "" && instance != central then instance + "-" else "")
      + (if central != "" then central + "-" else "") + interface
  }

  predicate Contains(s: string, t: string) {
    t <= s || (s != "" && Contains(s[1..], t))
  }

  predicate Matches(u: Unit, key: string) {
    u.name + "-" <= CanonicalInterfaceId(u.instance, u.name, key)
  }

  predicate Mentions(u: Unit, key: string) {
    Contains("-" + key + "-", "-" + u.name + "-")
  }

  /** What an id is reduced to: the daemon's prefix and its instance name are taken off the front, the
      latter only where the central does not bear it or the prefix is missing. */
  ghost predicate ReducesTo(u: Unit, key: string, rest: string) {
    if exists x: string :: key == "loom-" + x then
      if u.instance != "" && u.instance != u.name && exists y: string :: key == "loom-" + u.instance + "-" + y
      then key == "loom-" + u.instance + "-" + rest
      else key == "loom-" + rest
    else if u.instance != "" && exists y: string :: key == u.instance + "-" + y then key == u.instance + "-" + rest
    else key == rest
  }

  lemma PrefixRest(s: string, p: string)
    ensures p <= s <==> exists x: string :: s == p + x
    ensures p <= s ==> s == p + s[|p|..]
    ensures forall x: string :: s == p + x ==> s[|p|..] == x
  {
    if p <= s { assert s == p + s[|p|..]; }
  }

  lemma ReductionIs(u: Unit, key: string, rest: string)
    ensures ReducesTo(u, key, rest) <==> rest == CanonicalInterfaceId(u.instance, u.name, key)
  {
    var head := ID_PREFIX + "-";
    assert head == "loom-";
    PrefixRest(key, "loom-");
    PrefixRest(key, u.instance + "-");
    if "loom-" <= key {
      var x := key[|"loom-"|..];
      PrefixRest(x, u.instance + "-");
      forall y: string ensures key == "loom-" + u.instance + "-" + y <==> x == u.instance + "-" + y {
        assert "loom-" + u.instance + "-" + y == "loom-" + (u.instance + "-" + y);
        if x == u.instance + "-" + y { assert key == "loom-" + x; }
      }
    }
  }

  /** A key matches a central if it is reduced to the central's name, a dash and something more. */
  lemma MatchesMean(u: Unit, key: string)
    ensures Matches(u, key) <==> exists interface: string :: ReducesTo(u, key, u.name + "-" + interface)
  {
    var c := CanonicalInterfaceId(u.instance, u.name, key);
    forall interface: string ensures ReducesTo(u, key, u.name + "-" + interface) <==> c == u.name + "-" + interface {
      ReductionIs(u, key, u.name + "-" + interface);
    }
    hide ReducesTo;
    PrefixRest(c, u.name + "-");
  }

  lemma {:induction false} ContainsMeans(s: string, t: string)
    ensures Contains(s, t) <==> exists a: string, b: string :: s == a + t + b
  {
    if t <= s {
      assert s == [] + t + s[|t|..];
    } else if s != "" {
      ContainsMeans(s[1..], t);
      if Contains(s[1..], t) {
        var a: string, b: string :| s[1..] == a + t + b;
        assert s == ([s[0]] + a) + t + b;
      }
      if exists a: string, b: string :: s == a + t + b {
        var a: string, b: string :| s == a + t + b;
        PrefixRest(s, t);
        assert a == [] ==> s == t + b;
        assert s[1..] == a[1..] + t + b;
      }
    } else {
      forall a: string, b: string ensures s != a + t + b { assert |a + t + b| >= |t| > 0; }
    }
  }

  /** A key mentions a central if the central's name stands in it between dashes or ends. */
  lemma MentionsMean(u: Unit, key: string)
    ensures Mentions(u, key) <==> exists a: string, b: string :: "-" + key + "-" == a + ("-" + u.name + "-") + b
  {
    ContainsMeans("-" + key + "-", "-" + u.name + "-");
  }

  /** The id a central registers an interface under is reduced to `<central>-<interface>` again. */
  lemma RegisteredIdReduces(instance: string, central: string, interface: string)
    ensures CanonicalInterfaceId(instance, central, InitInterfaceId(instance, central, interface))
            == (if central != "" then central + "-" else "") + interface
    ensures "loom-" <= InitInterfaceId(instance, central, interface)
    ensures instance != "" && instance != central ==> "loom-" + instance + "-" <= InitInterfaceId(instance, central, interface)
  {
    hide *;
    var tail := (if central != "" then central + "-" else "") + interface;
    var named := instance != "" && instance != central;
    var rest := (if named then instance + "-" else "") + tail;
    IdIs(instance, central, interface, rest);
    PrefixedReduces(instance, central, rest);
    IsPrefix("loom-", rest);
    if named {
      TrimmedOff(instance + "-", tail);
      Grouped("loom-", instance + "-", tail);
      Grouped("loom-", instance, "-");
      IsPrefix("loom-" + instance + "-", tail);
    } else {
      assert rest == tail;
    }
  }

  lemma IsPrefix(p: string, s: string)
    ensures p <= p + s
  {
  }

  lemma Grouped(a: string, b: string, c: string)
    ensures a + (b + c) == (a + b) + c
  {
  }

  lemma IdIs(instance: string, central: string, interface: string, rest: string)
    requires rest == (if instance != "" && instance != central then instance + "-" else "")
                     + ((if central != "" then central + "-" else "") + interface)
    ensures InitInterfaceId(instance, central, interface) == "loom-" + rest
  {
    assert ID_PREFIX + "-" == "loom-";
  }

  lemma PrefixedReduces(instance: string, central: string, rest: string)
    ensures CanonicalInterfaceId(instance, central, "loom-" + rest)
            == if instance != "" && instance != central then TrimPrefix(rest, instance + "-") else rest
  {
    hide TrimPrefix;
    assert ID_PREFIX + "-" == "loom-" && ("loom-" + rest)[5..] == rest;
  }

  lemma TrimmedOff(p: string, s: string)
    ensures TrimPrefix(p + s, p) == s
  {
  }

  /** Central names are the registry's keys. */
  ghost predicate NamesDiffer(units: seq<Unit>) {
    forall i, j :: 0 <= i < j < |units| ==> units[i].name != units[j].name
  }

  // ---------------------------------------------------------------------------------------
  // The owner of a key, whatever the order of the registry
  // ---------------------------------------------------------------------------------------

  /** u is the one unit with the longest name among those the key matches. */
  ghost predicate LongestOwner(units: set<Unit>, key: string, u: Unit) {
    u in units && Matches(u, key) && forall v :: v in units && v != u && Matches(v, key) ==> |v.name| < |u.name|
  }

  /** No unit matches, and u is the only one the key mentions. */
  ghost predicate OnlyMentioned(units: set<Unit>, key: string, u: Unit) {
    && (forall v :: v in units ==> !Matches(v, key))
    && u in units && Mentions(u, key) && (forall v :: v in units && Mentions(v, key) ==> v == u)
  }

  ghost predicate OwnedBy(units: set<Unit>, key: string, u: Unit) {
    && key != ""
    && if exists v :: v in units && v.name == key then u in units && u.name == key
       else LongestOwner(units, key, u) || OnlyMentioned(units, key, u)
  }

  ghost function SetOf(units: seq<Unit>): set<Unit> {
    set u | u in units
  }

  lemma OwnerIsUnique(units: seq<Unit>, key: string, u: Unit, v: Unit)
    requires NamesDiffer(units) && OwnedBy(SetOf(units), key, u) && OwnedBy(SetOf(units), key, v)
    ensures u == v
  {
    if exists w :: w in SetOf(units) && w.name == key {
      var i :| 0 <= i < |units| && units[i] == u;
      var j :| 0 <= j < |units| && units[j] == v;
      assert i == j;
    }
  }

  /** Two different names of one length match a key only through different reductions of it. */
  lemma TiesNeedTwoReductions(u: Unit, v: Unit, key: string)
    requires u.name != v.name && |u.name| == |v.name| && Matches(u, key) && Matches(v, key)
    ensures CanonicalInterfaceId(u.instance, u.name, key) != CanonicalInterfaceId(v.instance, v.name, key)
  {
    assert u.name == (u.name + "-")[..|u.name|] && v.name == (v.name + "-")[..|v.name|];
    var c := CanonicalInterfaceId(u.instance, u.name, key);
    assert (u.name + "-")[..|u.name|] == c[..|u.name|];
  }

  /** The callbacks under way that are charged to the named central. */
  ghost function Charged(units: seq<Unit>, open: map<nat, string>, name: string): set<nat> {
    set id | id in open && ChargedTo(units, open[id], name)
  }

  ghost predicate ChargedTo(units: seq<Unit>, key: string, name: string) {
    exists u :: OwnedBy(SetOf(units), key, u) && u.observed && u.name == name
  }

  function CountOf(counts: map<string, nat>, name: string): nat {
    if name in counts then counts[name] else 0
  }

  class Listener {
    const units: seq<Unit>
    var inFlight: map<string, nat>
    ghost var open: map<nat, string>

    constructor (units: seq<Unit>)
      requires NamesDiffer(units)
      ensures Valid() && this.units == units && open == map[]
    {
      this.units := units;
      inFlight := map[];
      open := map[];
    }

    ghost predicate Valid()
      reads this
    {
      NamesDiffer(units) && forall name :: CountOf(inFlight, name) == |Charged(units, open, name)|
    }

    /** The search of the registry, in any order. */
    method OwnerOf(key: string) returns (result: Option<Unit>)
      requires NamesDiffer(units)
      ensures result.Some? ==> OwnedBy(SetOf(units), key, result.value)
      ensures result.None? ==> forall u :: !OwnedBy(SetOf(units), key, u)
    {
      if key == "" {
        return None;
      }
      var k := 0;
      while k < |units|
        invariant 0 <= k <= |units|
        invariant forall j :: 0 <= j < k ==> units[j].name != key
      {
        if units[k].name == key {
          assert units[k] in SetOf(units);
          return Some(units[k]);
        }
        k := k + 1;
      }
      hide Matches, Mentions, OwnerSoFar, FallbackSoFar, OwnedBy;
      var owner, fallback: Option<Unit> := None, None;
      var ownerTied, ambiguous := false, false;
      ghost var seen: set<Unit> := {};
      var i := 0;
      while i < |units|
        invariant 0 <= i <= |units| && seen == SetOf(units[..i])
        invariant OwnerSoFar(seen, key, owner, ownerTied) && FallbackSoFar(seen, key, fallback, ambiguous)
      {
        var u := units[i];
        NewUnit(units, i);
        OwnerStep(seen, u, key, owner, ownerTied);
        FallbackStep(seen, u, key, fallback, ambiguous);
        if Matches(u, key) {
          if owner.None? || |u.name| > |owner.value.name| {
            owner, ownerTied := Some(u), false;
          } else if |u.name| == |owner.value.name| {
            ownerTied := true;
          }
        } else if Mentions(u, key) {
          if fallback.Some? {
            ambiguous := true;
          }
          fallback := Some(u);
        }
        seen := seen + {u};
        i := i + 1;
      }
      assert units[..i] == units;
      SearchSays(SetOf(units), key, owner, ownerTied, fallback, ambiguous);
      if owner.Some? && !ownerTied {
        return owner;
      }
      if owner.None? && fallback.Some? && !ambiguous {
        return fallback;
      }
      return None;
    }

    /** A callback begins: its central, if it has one with metrics, has one more in flight. */
    method CallbackStarted(key: string, ghost id: nat) returns (charged: Option<string>, gauge: nat)
      requires Valid() && id !in open
      modifies this
      ensures Valid() && open == old(open)[id := key]
      ensures charged.Some? ==> ChargedTo(units, key, charged.value) && gauge == |Charged(units, open, charged.value)|
      ensures charged.None? ==> forall name :: !ChargedTo(units, key, name)
    {
      hide OwnedBy, NamesDiffer, Charged;
      var owner := OwnerOf(key);
      forall name ensures ChargedTo(units, key, name) <==> owner.Some? && owner.value.observed && owner.value.name == name {
        ChargedAs(units, key, owner, name);
      }
      hide ChargedTo;
      forall name ensures |Charged(units, open[id := key], name)| == |Charged(units, open, name)| + (if ChargedTo(units, key, name) then 1 else 0) {
        ChargedOpen(units, open, id, key, name);
      }
      open := open[id := key];
      assert forall name :: |Charged(units, open, name)| == old(CountOf(inFlight, name)) + (if ChargedTo(units, key, name) then 1 else 0);
      if owner.None? || !owner.value.observed {
        return None, 0;
      }
      var name := owner.value.name;
      inFlight := inFlight[name := CountOf(inFlight, name) + 1];
      return Some(name), inFlight[name];
    }

    /** It ends: the count goes down by one again, and never needs the floor at zero. */
    method CallbackFinished(ghost id: nat, key: string) returns (charged: Option<string>, gauge: nat)
      requires Valid() && id in open && open[id] == key
      modifies this
      ensures Valid() && open == old(open) - {id}
      ensures charged.Some? ==>
        && ChargedTo(units, key, charged.value) && gauge == |Charged(units, open, charged.value)|
        && gauge == old(CountOf(inFlight, charged.value)) - 1
      ensures charged.None? ==> forall name :: !ChargedTo(units, key, name)
    {
      hide OwnedBy, NamesDiffer, Charged;
      var owner := OwnerOf(key);
      forall name ensures ChargedTo(units, key, name) <==> owner.Some? && owner.value.observed && owner.value.name == name {
        ChargedAs(units, key, owner, name);
      }
      hide ChargedTo;
      forall name ensures |Charged(units, open, name)| == |Charged(units, open - {id}, name)| + (if ChargedTo(units, key, name) then 1 else 0) {
        ChargedOpen(units, open - {id}, id, key, name);
        assert (open - {id})[id := key] == open;
      }
      open := open - {id};
      if owner.None? || !owner.value.observed {
        return None, 0;
      }
      var name := owner.value.name;
      if CountOf(inFlight, name) > 0 {
        inFlight := inFlight[name := inFlight[name] - 1];
      }
      return Some(name), CountOf(inFlight, name);
    }
  }

  lemma ChargedOpen(units: seq<Unit>, open: map<nat, string>, id: nat, key: string, name: string)
    requires id !in open
    ensures |Charged(units, open[id := key], name)| == |Charged(units, open, name)| + (if ChargedTo(units, key, name) then 1 else 0)
  {
    hide ChargedTo;
    assert Charged(units, open[id := key], name) == Charged(units, open, name) + (if ChargedTo(units, key, name) then {id} else {});
  }

  lemma SameOwner(units: seq<Unit>, key: string, owner: Option<Unit>)
    requires NamesDiffer(units)
    requires owner.Some? ==> OwnedBy(SetOf(units), key, owner.value)
    requires owner.None? ==> forall u :: !OwnedBy(SetOf(units), key, u)
    ensures forall u :: OwnedBy(SetOf(units), key, u) ==> owner == Some(u)
  {
    hide OwnedBy;
    forall u | OwnedBy(SetOf(units), key, u) ensures owner == Some(u) {
      OwnerIsUnique(units, key, u, owner.value);
    }
  }

  lemma ChargedAs(units: seq<Unit>, key: string, owner: Option<Unit>, name: string)
    requires NamesDiffer(units)
    requires owner.Some? ==> OwnedBy(SetOf(units), key, owner.value)
    requires owner.None? ==> forall u :: !OwnedBy(SetOf(units), key, u)
    ensures ChargedTo(units, key, name) <==> owner.Some? && owner.value.observed && owner.value.name == name
  {
    hide OwnedBy;
    SameOwner(units, key, owner);
  }

  lemma NewUnit(units: seq<Unit>, i: nat)
    requires NamesDiffer(units) && i < |units|
    ensures units[i] !in SetOf(units[..i]) && SetOf(units[..i + 1]) == SetOf(units[..i]) + {units[i]}
  {
    assert units[..i + 1] == units[..i] + [units[i]];
  }

  /** What the search knows of the owner after it has seen some of the units. */
  ghost predicate OwnerSoFar(seen: set<Unit>, key: string, owner: Option<Unit>, tied: bool) {
    if owner.None? then forall v :: v in seen ==> !Matches(v, key)
    else
      var o := owner.value;
      && o in seen && Matches(o, key) && (forall v :: v in seen && Matches(v, key) ==> |v.name| <= |o.name|)
      && (tied <==> exists v :: v in seen && v != o && Matches(v, key) && |v.name| == |o.name|)
  }

  ghost predicate FallbackSoFar(seen: set<Unit>, key: string, fallback: Option<Unit>, ambiguous: bool) {
    if fallback.None? then !ambiguous && forall v :: v in seen ==> Matches(v, key) || !Mentions(v, key)
    else
      var f := fallback.value;
      && f in seen && !Matches(f, key) && Mentions(f, key)
      && (ambiguous <==> exists v :: v in seen && v != f && !Matches(v, key) && Mentions(v, key))
  }

  lemma OwnerStep(seen: set<Unit>, u: Unit, key: string, owner: Option<Unit>, tied: bool)
    requires OwnerSoFar(seen, key, owner, tied) && u !in seen
    ensures !Matches(u, key) ==> OwnerSoFar(seen + {u}, key, owner, tied)
    ensures Matches(u, key) && (owner.None? || |u.name| > |owner.value.name|) ==> OwnerSoFar(seen + {u}, key, Some(u), false)
    ensures Matches(u, key) && owner.Some? && |u.name| == |owner.value.name| ==> OwnerSoFar(seen + {u}, key, owner, true)
    ensures Matches(u, key) && owner.Some? && |u.name| < |owner.value.name| ==> OwnerSoFar(seen + {u}, key, owner, tied)
  {
    hide Matches;
    assert u in seen + {u};
  }

  lemma FallbackStep(seen: set<Unit>, u: Unit, key: string, fallback: Option<Unit>, ambiguous: bool)
    requires FallbackSoFar(seen, key, fallback, ambiguous) && u !in seen
    ensures if Matches(u, key) || !Mentions(u, key) then FallbackSoFar(seen + {u}, key, fallback, ambiguous)
            else FallbackSoFar(seen + {u}, key, Some(u), ambiguous || fallback.Some?)
  {
    hide Matches, Mentions;
    if !Matches(u, key) && Mentions(u, key) && fallback.Some? {
      assert fallback.value in seen + {u} && fallback.value != u;
    }
  }

  lemma SearchSays(units: set<Unit>, key: string, owner: Option<Unit>, tied: bool, fallback: Option<Unit>, ambiguous: bool)
    requires OwnerSoFar(units, key, owner, tied) && FallbackSoFar(units, key, fallback, ambiguous)
    requires key != "" && forall v :: v in units ==> v.name != key
    ensures owner.Some? && !tied ==> OwnedBy(units, key, owner.value)
    ensures owner.None? && fallback.Some? && !ambiguous ==> OwnedBy(units, key, fallback.value)
    ensures !(owner.Some? && !tied) && !(owner.None? && fallback.Some? && !ambiguous) ==> forall u :: !OwnedBy(units, key, u)
  {
    hide Matches, Mentions;
  }

  // ---------------------------------------------------------------------------------------
  // A central's own ids
  // ---------------------------------------------------------------------------------------

  /** v takes, or ties, the callbacks of c's interface: its name is no shorter, and is either the
      daemon's own instance name or c's name run on into the interface. */
  predicate Rival(v: Unit, c: Unit, interface: string) {
    && v != c && |v.name| >= |c.name|
    && if c.name == c.instance then v.name + "-" <= interface
       else v.name == c.instance || v.name + "-" <= c.name + "-" + interface
  }

  lemma OwnIdMatches(v: Unit, c: Unit, interface: string)
    requires v.instance == c.instance != "" && c.name != ""
    ensures var id := InitInterfaceId(c.instance, c.name, interface);
      && Matches(c, id)
      && (v.name != c.name && |v.name| >= |c.name| ==> (Matches(v, id) <==> Rival(v, c, interface)))
  {
    var id := InitInterfaceId(c.instance, c.name, interface);
    var tail := c.name + "-" + interface;
    var rest := if c.instance != c.name then c.instance + "-" + tail else tail;
    assert id == ID_PREFIX + "-" + rest;
    assert id[|ID_PREFIX| + 1..] == rest;
    if c.instance != c.name {
      assert rest == (c.instance + "-") + tail;
      assert TrimPrefix(rest, c.instance + "-") == tail;
      if v.name == c.instance {
        assert v.name + "-" <= rest;
      }
    } else {
      assert rest == (c.instance + "-") + interface;
      assert TrimPrefix(rest, c.instance + "-") == interface;
    }
  }

  /** With one instance name for all, a callback for the id a central registered itself is charged
      to that central exactly when it has no rival. */
  lemma OwnIdIsExact(units: seq<Unit>, c: Unit, interface: string)
    requires NamesDiffer(units) && c in units && c.instance != "" && c.name != ""
    requires forall v :: v in units ==> v.instance == c.instance && v.name != InitInterfaceId(c.instance, c.name, interface)
    ensures OwnedBy(SetOf(units), InitInterfaceId(c.instance, c.name, interface), c)
      <==> forall v :: v in units ==> !Rival(v, c, interface)
  {
    hide Matches, Rival, InitInterfaceId;
    var id := InitInterfaceId(c.instance, c.name, interface);
    forall v | v in units && v != c ensures |v.name| >= |c.name| ==> (Matches(v, id) <==> Rival(v, c, interface)) {
      NameTellsUnits(units, v, c);
      OwnIdMatches(v, c, interface);
    }
    OwnIdMatches(c, c, interface);
    assert id != "" by { IdNotEmpty(c, interface); }
    forall v | v in units && Rival(v, c, interface) ensures v != c && |v.name| >= |c.name| {
      RivalSays(v, c, interface);
    }
  }

  lemma NameTellsUnits(units: seq<Unit>, u: Unit, v: Unit)
    requires NamesDiffer(units) && u in units && v in units && u != v
    ensures u.name != v.name
  {
    var i :| 0 <= i < |units| && units[i] == u;
    var j :| 0 <= j < |units| && units[j] == v;
    assert i != j;
  }

  lemma IdNotEmpty(c: Unit, interface: string)
    ensures InitInterfaceId(c.instance, c.name, interface) != ""
  {
  }

  lemma RivalSays(v: Unit, c: Unit, interface: string)
    requires Rival(v, c, interface)
    ensures v != c && |v.name| >= |c.name|
  {
  }

  /** For an interface without a dash, such as CUxD, the only rival is a central that bears the
      instance name and is no shorter. */
  lemma DashlessInterface(v: Unit, c: Unit, interface: string)
    requires v != c && v.name != c.name && '-' !in interface
    ensures Rival(v, c, interface) <==> c.name != c.instance && v.name == c.instance && |v.name| >= |c.name|
  {
    var p := v.name + "-";
    var s := c.name + "-" + interface;
    assert p[|v.name|] == '-';
    assert p[..|v.name|] == v.name && s[..|c.name|] == c.name;
    assert forall k :: |c.name| < k < |s| ==> s[k] == interface[k - |c.name| - 1];
  }
}
