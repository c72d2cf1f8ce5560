/** Withholding and restoring the secret leaves of a stored section. */
module ConfigTree {
  import opened Options

  datatype Json = Null | Scalar(text: string) | Object(fields: map<string, Json>)

  type Path = p: seq<string> | p != [] witness ["key"]

  /** The leaf at p, if its key exists. */
  function Lookup(t: Json, p: Path): Option<Json> {
    if !t.Object? || p[0] !in t.fields then None
    else if |p| == 1 then Some(t.fields[p[0]])
    else if t.fields[p[0]].Object? then Lookup(t.fields[p[0]], p[1..])
    else None
  }

  /** v stands at p: at its last key in the object that stands at the keys before it. */
  ghost predicate StandsAt(t: Json, p: Path, v: Json)
    decreases |p|
  {
    var n := |p| - 1;
    if n == 0 then t.Object? && p[0] in t.fields && t.fields[p[0]] == v
    else exists parent :: StandsAt(t, p[..n], parent) && parent.Object? && p[n] in parent.fields && parent.fields[p[n]] == v
  }

  lemma {:induction false} StandsBelow(t: Json, p: Path, v: Json)
    requires |p| > 1 && t.Object? && p[0] in t.fields
    ensures StandsAt(t, p, v) <==> StandsAt(t.fields[p[0]], p[1..], v)
    decreases |p|
  {
    var n := |p| - 1;
    var kid := t.fields[p[0]];
    if n == 1 {
      assert p[..1] == [p[0]] && p[1..] == [p[1]];
      assert StandsAt(t, p[..1], kid);
    } else {
      assert p[..n][1..] == p[1..][..n - 1] && p[1..][n - 1] == p[n] && p[..n][0] == p[0];
      forall parent ensures StandsAt(t, p[..n], parent) <==> StandsAt(kid, p[1..][..n - 1], parent) {
        StandsBelow(t, p[..n], parent);
      }
    }
  }

  lemma {:induction false} NothingStands(t: Json, p: Path, v: Json)
    requires !t.Object? || p[0] !in t.fields || (|p| > 1 && !t.fields[p[0]].Object?)
    ensures !StandsAt(t, p, v)
    decreases |p|
  {
    var n := |p| - 1;
    if n > 0 {
      forall parent | StandsAt(t, p[..n], parent) ensures !parent.Object? {
        if n > 1 {
          NothingStands(t, p[..n], parent);
        }
      }
    }
  }

  /** What is looked up is what stands there. */
  lemma {:induction false} LookupMeans(t: Json, p: Path, v: Json)
    ensures Lookup(t, p) == Some(v) <==> StandsAt(t, p, v)
    decreases |p|
  {
    if !t.Object? || p[0] !in t.fields || (|p| > 1 && !t.fields[p[0]].Object?) {
      NothingStands(t, p, v);
    } else if |p| > 1 {
      StandsBelow(t, p, v);
      LookupMeans(t.fields[p[0]], p[1..], v);
    }
  }

  /** t with the leaf at p, where there is one, set to v or dropped. */
  function Assign(t: Json, p: Path, v: Option<Json>): Json {
    if !t.Object? || p[0] !in t.fields then t
    else if |p| == 1 then Object(if v.Some? then t.fields[p[0] := v.value] else t.fields - {p[0]})
    else if t.fields[p[0]].Object? then Object(t.fields[p[0] := Assign(t.fields[p[0]], p[1..], v)])
    else t
  }

  /** Nulls the leaf at p if it is there. */
  function Redact(t: Json, p: Path): Json {
    Assign(t, p, Some(Null))
  }

  /** Replaces a null leaf at p by what `stored` has there, or drops it. */
  function Restore(t: Json, stored: Json, p: Path): Json {
    if Lookup(t, p) != Some(Null) then t
    else
      var s := Lookup(stored, p);
      Assign(t, p, if s == Some(Null) then None else s)
  }

  function RedactAll(t: Json, secrets: seq<Path>): Json {
    if secrets == [] then t else Redact(RedactAll(t, secrets[..|secrets| - 1]), secrets[|secrets| - 1])
  }

  function RestoreAll(t: Json, stored: Json, secrets: seq<Path>): Json {
    if secrets == [] then t
    else Restore(RestoreAll(t, stored, secrets[..|secrets| - 1]), stored, secrets[|secrets| - 1])
  }

  // ---------------------------------------------------------------------------------------
  // Leaves that are no part of one another
  // ---------------------------------------------------------------------------------------

  /** Neither path leads through the other. */
  predicate Apart(p: Path, q: Path) {
    if p[0] != q[0] then true else |p| > 1 && |q| > 1 && Apart(p[1..], q[1..])
  }

  /** The secret leaves of a section. */
  ghost predicate Leaves(secrets: seq<Path>) {
    forall i, j :: 0 <= i < |secrets| && 0 <= j < |secrets| && i != j ==> Apart(secrets[i], secrets[j])
  }

  lemma {:induction false} LookupAssigned(t: Json, p: Path, v: Option<Json>)
    ensures Lookup(Assign(t, p, v), p) == if Lookup(t, p).Some? then v else None
    decreases |p|
  {
    if t.Object? && p[0] in t.fields && |p| > 1 && t.fields[p[0]].Object? {
      LookupAssigned(t.fields[p[0]], p[1..], v);
      AssignKeepsKind(t.fields[p[0]], p[1..], v);
    }
  }

  lemma AssignKeepsKind(t: Json, p: Path, v: Option<Json>)
    ensures Assign(t, p, v).Object? == t.Object?
  {
  }

  lemma {:induction false} LookupApart(t: Json, p: Path, q: Path, v: Option<Json>)
    requires Apart(p, q)
    ensures Lookup(Assign(t, p, v), q) == Lookup(t, q)
    decreases |p|
  {
    if t.Object? && p[0] in t.fields && p[0] == q[0] && t.fields[p[0]].Object? {
      LookupApart(t.fields[p[0]], p[1..], q[1..], v);
      AssignKeepsKind(t.fields[p[0]], p[1..], v);
    }
  }

  /** What Assign does to the child under the first key of p. */
  function Child(c: Json, p: Path, v: Option<Json>): Option<Json> {
    if |p| == 1 then v else if c.Object? then Some(Assign(c, p[1..], v)) else Some(c)
  }

  function WithChild(fields: map<string, Json>, k: string, c: Option<Json>): map<string, Json> {
    if c.Some? then fields[k := c.value] else fields - {k}
  }

  lemma AssignByChild(t: Json, p: Path, v: Option<Json>)
    requires t.Object? && p[0] in t.fields
    ensures Assign(t, p, v) == Object(WithChild(t.fields, p[0], Child(t.fields[p[0]], p, v)))
  {
    if |p| > 1 && !t.fields[p[0]].Object? {
      assert t.fields[p[0] := t.fields[p[0]]] == t.fields;
    }
  }

  lemma KeysCommute(fields: map<string, Json>, k: string, c: Option<Json>, l: string, d: Option<Json>)
    requires k != l
    ensures WithChild(WithChild(fields, k, c), l, d) == WithChild(WithChild(fields, l, d), k, c)
  {
  }

  lemma {:induction false} AssignsCommute(t: Json, p: Path, v: Option<Json>, q: Path, w: Option<Json>)
    requires Apart(p, q)
    ensures Assign(Assign(t, p, v), q, w) == Assign(Assign(t, q, w), p, v)
    decreases |p|
  {
    if t.Object? && p[0] in t.fields && q[0] in t.fields {
      var a, b := t.fields[p[0]], t.fields[q[0]];
      if p[0] == q[0] {
        if a.Object? {
          AssignsCommute(a, p[1..], v, q[1..], w);
          AssignKeepsKind(a, p[1..], v);
          AssignKeepsKind(a, q[1..], w);
        }
      } else {
        hide Assign, Child;
        AssignByChild(t, p, v);
        AssignByChild(t, q, w);
        AssignByChild(Assign(t, p, v), q, w);
        AssignByChild(Assign(t, q, w), p, v);
        KeysCommute(t.fields, p[0], Child(a, p, v), q[0], Child(b, q, w));
      }
    }
  }

  /** Assigning a leaf twice is assigning it once, and assigning what it holds changes nothing. */
  lemma {:induction false} AssignAgain(t: Json, p: Path, v: Json, w: Option<Json>)
    ensures Assign(Assign(t, p, Some(v)), p, w) == Assign(t, p, w)
    ensures Lookup(t, p) == w ==> Assign(t, p, w) == t
    decreases |p|
  {
    if t.Object? && p[0] in t.fields {
      if |p| == 1 {
        var x, y := Assign(Assign(t, p, Some(v)), p, w), Assign(t, p, w);
        assert x.fields == y.fields;
      } else if t.fields[p[0]].Object? {
        AssignAgain(t.fields[p[0]], p[1..], v, w);
        AssignKeepsKind(t.fields[p[0]], p[1..], Some(v));
        assert Lookup(t, p) == w ==> t.fields[p[0] := t.fields[p[0]]] == t.fields;
      }
    }
  }

  // ---------------------------------------------------------------------------------------
  // What a redacted section shows, and what an import of it leaves
  // ---------------------------------------------------------------------------------------

  /** Every secret leaf shows null, and every other leaf what it held. */
  lemma {:induction false} RedactedLeaves(t: Json, secrets: seq<Path>, q: Path)
    requires Leaves(secrets)
    ensures q in secrets ==> Lookup(RedactAll(t, secrets), q) == if Lookup(t, q).Some? then Some(Null) else None
    ensures (forall p :: p in secrets ==> Apart(p, q)) ==> Lookup(RedactAll(t, secrets), q) == Lookup(t, q)
  {
    if secrets != [] {
      var rest, p := secrets[..|secrets| - 1], secrets[|secrets| - 1];
      RedactedLeaves(t, rest, q);
      var mid := RedactAll(t, rest);
      assert forall x :: x in rest ==> x in secrets;
      if q == p {
        NotAmong(secrets, |secrets| - 1);
        ApartIsIrreflexive(q);
        LookupAssigned(mid, p, Some(Null));
      } else if q in secrets {
        SecretsApart(secrets, p, q);
        LookupApart(mid, p, q, Some(Null));
      } else if forall x :: x in secrets ==> Apart(x, q) {
        LookupApart(mid, p, q, Some(Null));
      }
    }
  }

  lemma SecretsApart(secrets: seq<Path>, p: Path, q: Path)
    requires Leaves(secrets) && p in secrets && q in secrets && p != q
    ensures Apart(p, q)
  {
    var i :| 0 <= i < |secrets| && secrets[i] == p;
    var j :| 0 <= j < |secrets| && secrets[j] == q;
  }

  lemma NotAmong(secrets: seq<Path>, i: nat)
    requires Leaves(secrets) && i < |secrets|
    ensures secrets[i] !in secrets[..i] && forall x :: x in secrets[..i] ==> Apart(x, secrets[i])
  {
    ApartIsIrreflexive(secrets[i]);
  }

  lemma {:induction false} ApartIsIrreflexive(p: Path)
    ensures !Apart(p, p)
    decreases |p|
  {
    if |p| > 1 {
      ApartIsIrreflexive(p[1..]);
    }
  }

  /** What an import makes of a leaf: a withheld secret is the stored one or nothing, and what the
      document supplies wins. */
  function Merged(leaf: Option<Json>, stored: Option<Json>): Option<Json> {
    if leaf != Some(Null) then leaf else if stored == Some(Null) then None else stored
  }

  /** For every document and every stored section. */
  lemma {:induction false} RestoredLeaves(t: Json, stored: Json, secrets: seq<Path>, q: Path)
    requires Leaves(secrets)
    ensures q in secrets ==> Lookup(RestoreAll(t, stored, secrets), q) == Merged(Lookup(t, q), Lookup(stored, q))
    ensures (forall p :: p in secrets ==> Apart(p, q)) ==> Lookup(RestoreAll(t, stored, secrets), q) == Lookup(t, q)
  {
    if secrets != [] {
      var rest, p := secrets[..|secrets| - 1], secrets[|secrets| - 1];
      RestoredLeaves(t, stored, rest, q);
      var mid := RestoreAll(t, stored, rest);
      var s := Lookup(stored, p);
      var v := if s == Some(Null) then None else s;
      assert forall x :: x in rest ==> x in secrets;
      if q == p {
        NotAmong(secrets, |secrets| - 1);
        ApartIsIrreflexive(q);
        LookupAssigned(mid, p, v);
      } else if q in secrets {
        SecretsApart(secrets, p, q);
        LookupApart(mid, p, q, v);
      } else if forall x :: x in secrets ==> Apart(x, q) {
        LookupApart(mid, p, q, v);
      }
    }
  }

  // ---------------------------------------------------------------------------------------
  // Back into the section it came from
  // ---------------------------------------------------------------------------------------

  /** t without the secret leaves that hold an explicit null. */
  function DropNulls(t: Json, secrets: seq<Path>): Json {
    if secrets == [] then t
    else
      var u, p := DropNulls(t, secrets[..|secrets| - 1]), secrets[|secrets| - 1];
      if Lookup(u, p) == Some(Null) then Assign(u, p, None) else u
  }

  lemma RestorePastRedact(t: Json, stored: Json, p: Path, q: Path)
    requires Apart(p, q)
    ensures Restore(Redact(t, q), stored, p) == Redact(Restore(t, stored, p), q)
  {
    var s := Lookup(stored, p);
    SymmetricApart(p, q);
    LookupApart(t, q, p, Some(Null));
    AssignsCommute(t, q, Some(Null), p, if s == Some(Null) then None else s);
  }

  lemma {:induction false} SymmetricApart(p: Path, q: Path)
    requires Apart(p, q)
    ensures Apart(q, p)
    decreases |p|
  {
    if p[0] == q[0] {
      SymmetricApart(p[1..], q[1..]);
    }
  }

  lemma {:induction false} RestoreAllPastRedact(t: Json, stored: Json, secrets: seq<Path>, q: Path)
    requires forall p :: p in secrets ==> Apart(p, q)
    ensures RestoreAll(Redact(t, q), stored, secrets) == Redact(RestoreAll(t, stored, secrets), q)
  {
    if secrets != [] {
      var rest, p := secrets[..|secrets| - 1], secrets[|secrets| - 1];
      RestoreAllPastRedact(t, stored, rest, q);
      RestorePastRedact(RestoreAll(t, stored, rest), stored, p, q);
    }
  }

  lemma RestoreUndoesRedact(u: Json, t: Json, p: Path)
    requires Lookup(u, p) == Lookup(t, p)
    ensures Restore(Redact(u, p), t, p) == if Lookup(u, p) == Some(Null) then Assign(u, p, None) else u
  {
    var s := Lookup(t, p);
    LookupAssigned(u, p, Some(Null));
    AssignAgain(u, p, Null, if s == Some(Null) then None else s);
    if s.None? {
      AssignAgain(u, p, Null, Some(Null));
      NothingToAssign(u, p, Some(Null));
    }
  }

  lemma {:induction false} NothingToAssign(t: Json, p: Path, v: Option<Json>)
    requires Lookup(t, p).None?
    ensures Assign(t, p, v) == t
    decreases |p|
  {
    if t.Object? && p[0] in t.fields && t.fields[p[0]].Object? {
      NothingToAssign(t.fields[p[0]], p[1..], v);
      assert t.fields[p[0] := t.fields[p[0]]] == t.fields;
    }
  }

  lemma {:induction false} DroppedLeaves(t: Json, secrets: seq<Path>, q: Path)
    requires Leaves(secrets)
    ensures q in secrets ==> Lookup(DropNulls(t, secrets), q) == if Lookup(t, q) == Some(Null) then None else Lookup(t, q)
    ensures (forall p :: p in secrets ==> Apart(p, q)) ==> Lookup(DropNulls(t, secrets), q) == Lookup(t, q)
  {
    if secrets != [] {
      var rest, p := secrets[..|secrets| - 1], secrets[|secrets| - 1];
      DroppedLeaves(t, rest, q);
      var u := DropNulls(t, rest);
      assert forall x :: x in rest ==> x in secrets;
      if q == p {
        NotAmong(secrets, |secrets| - 1);
        ApartIsIrreflexive(q);
        LookupAssigned(u, p, None);
      } else if q in secrets {
        SecretsApart(secrets, p, q);
        LookupApart(u, p, q, None);
      } else if forall x :: x in secrets ==> Apart(x, q) {
        LookupApart(u, p, q, None);
      }
    }
  }

  /** Restoring a redacted section from itself drops its explicit null secrets and nothing else. */
  lemma {:induction false} RoundTripDropsNulls(t: Json, secrets: seq<Path>)
    requires Leaves(secrets)
    ensures RestoreAll(RedactAll(t, secrets), t, secrets) == DropNulls(t, secrets)
  {
    if secrets != [] {
      var rest, q := secrets[..|secrets| - 1], secrets[|secrets| - 1];
      NotAmong(secrets, |secrets| - 1);
      RoundTripDropsNulls(t, rest);
      RestoreAllPastRedact(RedactAll(t, rest), t, rest, q);
      DroppedLeaves(t, rest, q);
      RestoreUndoesRedact(DropNulls(t, rest), t, q);
    }
  }

  /** No secret leaf of t holds an explicit null. */
  ghost predicate NoNullSecret(t: Json, secrets: seq<Path>) {
    forall p :: p in secrets ==> Lookup(t, p) != Some(Null)
  }

  /** So it gives the section back exactly when none of its secrets is an explicit null. */
  lemma RoundTripIsExact(t: Json, secrets: seq<Path>)
    requires Leaves(secrets)
    ensures RestoreAll(RedactAll(t, secrets), t, secrets) == t <==> NoNullSecret(t, secrets)
  {
    RoundTripDropsNulls(t, secrets);
    if NoNullSecret(t, secrets) {
      NothingToDrop(t, secrets);
    } else {
      var p :| p in secrets && Lookup(t, p) == Some(Null);
      DroppedLeaves(t, secrets, p);
    }
  }

  lemma {:induction false} NothingToDrop(t: Json, secrets: seq<Path>)
    requires NoNullSecret(t, secrets)
    ensures DropNulls(t, secrets) == t
  {
    if secrets != [] {
      NothingToDrop(t, secrets[..|secrets| - 1]);
    }
  }
}
