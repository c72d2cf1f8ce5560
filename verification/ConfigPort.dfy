/** Exporting the stored configuration, with or without its secrets, and importing it again. */
module ConfigPort {
  import opened Options
  import opened ConfigTree

  datatype Central = Central(name: string, password: string, token: string, settings: string)

  /** `redacted` marks a document whose secrets were withheld. */
  datatype Doc = Doc(redacted: bool, sections: map<string, Json>, centrals: seq<Central>)

  /** The rows whose delete or put the database refuses. */
  datatype Faults = Faults(sectionDeletes: set<string>, sectionPuts: set<string>,
                           centralDeletes: set<string>, centralPuts: set<string>)

  const NO_FAULTS := Faults({}, {}, {}, {})

  // ---------------------------------------------------------------------------------------
  // What is exported, and what an import writes
  // ---------------------------------------------------------------------------------------

  /** A section as the document shows it. */
  function Shown(t: Json, secrets: seq<Path>, redacted: bool): Json {
    if redacted then RedactAll(t, secrets) else t
  }

  function ShownCentral(c: Central, redacted: bool): Central {
    if redacted then c.(password := "") else c
  }

  /** doc is an export: all sections and all centrals, each as it may be shown, and no others. */
  ghost predicate IsExport(doc: Doc, sections: map<string, Json>, centrals: map<string, Central>, secrets: string -> seq<Path>) {
    && doc.sections.Keys == sections.Keys
    && (forall k :: k in sections ==> doc.sections[k] == Shown(sections[k], secrets(k), doc.redacted))
    && (forall i :: 0 <= i < |doc.centrals| ==>
          doc.centrals[i].name in centrals && doc.centrals[i] == ShownCentral(centrals[doc.centrals[i].name], doc.redacted))
    && (forall n :: n in centrals ==> exists i :: 0 <= i < |doc.centrals| && doc.centrals[i].name == n)
  }

  function Stored(sections: map<string, Json>, k: string): Json {
    if k in sections then sections[k] else Null
  }

  /** The value an import writes for a section of the document. */
  function Written(doc: Doc, was: map<string, Json>, secrets: string -> seq<Path>, k: string): Json
    requires k in doc.sections
  {
    if doc.redacted then RestoreAll(doc.sections[k], Stored(was, k), secrets(k)) else doc.sections[k]
  }

  function WrittenCentral(doc: Doc, was: map<string, Central>, row: Central): Central {
    if doc.redacted && row.password == "" && row.name in was then row.(password := was[row.name].password) else row
  }

  function ImportedSections(doc: Doc, was: map<string, Json>, secrets: string -> seq<Path>, replace: bool): map<string, Json> {
    map k | k in doc.sections.Keys + (if replace then {} else was.Keys) ::
      if k in doc.sections then Written(doc, was, secrets, k) else was[k]
  }

  /** The rows of the document over the base, in its order. */
  function PutCentrals(doc: Doc, was: map<string, Central>, base: map<string, Central>, n: nat): map<string, Central>
    requires n <= |doc.centrals|
  {
    if n == 0 then base
    else
      var row := WrittenCentral(doc, was, doc.centrals[n - 1]);
      PutCentrals(doc, was, base, n - 1)[row.name := row]
  }

  function ImportedCentrals(doc: Doc, was: map<string, Central>, replace: bool): map<string, Central> {
    PutCentrals(doc, was, if replace then map[] else was, |doc.centrals|)
  }

  // ---------------------------------------------------------------------------------------
  // The round trip
  // ---------------------------------------------------------------------------------------

  /** Every row of the document is written as the stored row it shows. */
  ghost predicate ShowsStored(doc: Doc, centrals: map<string, Central>) {
    && (forall k :: k in centrals ==> centrals[k].name == k)
    && (forall i :: 0 <= i < |doc.centrals| ==>
          doc.centrals[i].name in centrals && doc.centrals[i] == ShownCentral(centrals[doc.centrals[i].name], doc.redacted))
  }

  lemma RowComesBack(doc: Doc, centrals: map<string, Central>, i: nat)
    requires ShowsStored(doc, centrals) && i < |doc.centrals|
    ensures var row := doc.centrals[i];
      && row.name in centrals && WrittenCentral(doc, centrals, row) == centrals[row.name]
      && WrittenCentral(doc, centrals, row).name == row.name
  {
  }

  lemma {:induction false} CentralsComeBack(doc: Doc, centrals: map<string, Central>, base: map<string, Central>, n: nat)
    requires n <= |doc.centrals| && ShowsStored(doc, centrals)
    requires forall k :: k in base ==> k in centrals && base[k] == centrals[k]
    ensures var after := PutCentrals(doc, centrals, base, n);
      && (forall k :: k in after ==> k in centrals && after[k] == centrals[k])
      && (forall k :: k in base ==> k in after)
      && (forall i :: 0 <= i < n ==> doc.centrals[i].name in after)
  {
    if n > 0 {
      CentralsComeBack(doc, centrals, base, n - 1);
      RowComesBack(doc, centrals, n - 1);
      hide ShowsStored, WrittenCentral, ShownCentral;
    }
  }

  lemma AllCentralsComeBack(doc: Doc, sections: map<string, Json>, centrals: map<string, Central>,
                            secrets: string -> seq<Path>, replace: bool)
    requires IsExport(doc, sections, centrals, secrets) && forall n :: n in centrals ==> centrals[n].name == n
    ensures ImportedCentrals(doc, centrals, replace) == centrals
  {
    hide PutCentrals, ShownCentral, RedactAll;
    CentralsComeBack(doc, centrals, if replace then map[] else centrals, |doc.centrals|);
  }

  /** Importing an export into the database it came from changes nothing, in merge and in replace
      mode, exactly when no secret of a stored section is an explicit null, or the secrets were not
      withheld. */
  lemma RoundTripIsExact(doc: Doc, sections: map<string, Json>, centrals: map<string, Central>,
                         secrets: string -> seq<Path>, replace: bool)
    requires IsExport(doc, sections, centrals, secrets)
    requires forall k :: Leaves(secrets(k))
    requires forall n :: n in centrals ==> centrals[n].name == n
    ensures ImportedCentrals(doc, centrals, replace) == centrals
    ensures ImportedSections(doc, sections, secrets, replace) == sections
      <==> (doc.redacted ==> forall k :: k in sections ==> NoNullSecret(sections[k], secrets(k)))
  {
    AllCentralsComeBack(doc, sections, centrals, secrets, replace);
    hide ImportedCentrals;
    var after := ImportedSections(doc, sections, secrets, replace);
    assert after.Keys == sections.Keys;
    hide NoNullSecret, RedactAll, RestoreAll;
    forall k | k in sections ensures after[k] == sections[k] <==> (doc.redacted ==> NoNullSecret(sections[k], secrets(k))) {
      ConfigTree.RoundTripIsExact(sections[k], secrets(k));
    }
  }

  /** Into any database, and for any edited document: a secret the document withholds keeps the
      stored value, a leaf it supplies wins, and a leaf that is no secret is the document's. */
  lemma WithheldIsKept(doc: Doc, was: map<string, Json>, secrets: string -> seq<Path>, replace: bool, k: string, p: Path)
    requires k in doc.sections && doc.redacted && Leaves(secrets(k))
    requires p in secrets(k) || forall q :: q in secrets(k) ==> Apart(q, p)
    ensures k in ImportedSections(doc, was, secrets, replace)
    ensures Lookup(ImportedSections(doc, was, secrets, replace)[k], p)
      == if p in secrets(k) then Merged(Lookup(doc.sections[k], p), Lookup(Stored(was, k), p)) else Lookup(doc.sections[k], p)
  {
    hide RestoreAll;
    RestoredLeaves(doc.sections[k], Stored(was, k), secrets(k), p);
  }

  /** What an import does to a central: the last row of the document for a name decides it, with the
      stored password where a redacted document has none, and a supplied password wins; a name the
      document does not have keeps its row, unless everything is replaced. */
  lemma {:induction false} CentralImported(doc: Doc, was: map<string, Central>, base: map<string, Central>, n: nat, name: string)
    requires n <= |doc.centrals|
    ensures var after := PutCentrals(doc, was, base, n);
      && (forall i :: LastRow(doc, n, name, i) ==> name in after && IsImported(doc, was, doc.centrals[i], after[name]))
      && ((forall i :: 0 <= i < n ==> doc.centrals[i].name != name) ==>
            (name in after <==> name in base) && (name in base ==> after[name] == base[name]))
  {
    hide IsImported, WrittenCentral, LastRow;
    if n == 0 {
      NoLastRow(doc, name);
    } else {
      CentralImported(doc, was, base, n - 1, name);
      var row := doc.centrals[n - 1];
      RowImported(doc, was, row);
      forall i ensures LastRow(doc, n, name, i) <==> if row.name == name then i == n - 1 else LastRow(doc, n - 1, name, i) {
        LastRowGrows(doc, n - 1, name, i);
      }
    }
  }

  lemma NoLastRow(doc: Doc, name: string)
    ensures forall i :: !LastRow(doc, 0, name, i)
  {
  }

  lemma RowImported(doc: Doc, was: map<string, Central>, row: Central)
    ensures WrittenCentral(doc, was, row).name == row.name && IsImported(doc, was, row, WrittenCentral(doc, was, row))
  {
  }

  lemma LastRowGrows(doc: Doc, n: nat, name: string, i: int)
    requires n < |doc.centrals|
    ensures LastRow(doc, n + 1, name, i) <==> if doc.centrals[n].name == name then i == n else LastRow(doc, n, name, i)
  {
  }

  ghost predicate LastRow(doc: Doc, n: nat, name: string, i: int)
    requires n <= |doc.centrals|
  {
    0 <= i < n && doc.centrals[i].name == name && forall j :: i < j < n ==> doc.centrals[j].name != name
  }

  /** c is what a row of the document becomes in a database that held these rows. */
  ghost predicate IsImported(doc: Doc, was: map<string, Central>, row: Central, c: Central) {
    && c.name == row.name && c.token == row.token && c.settings == row.settings
    && (row.password != "" || !doc.redacted || row.name !in was ==> c.password == row.password)
    && (row.password == "" && doc.redacted && row.name in was ==> c.password == was[row.name].password)
  }

  /** What an import does to a section: one the document does not have is kept, or gone if everything
      is replaced; one of a document with its secrets is taken as it is. */
  lemma SectionImported(doc: Doc, was: map<string, Json>, secrets: string -> seq<Path>, replace: bool, k: string)
    ensures var after := ImportedSections(doc, was, secrets, replace);
      && (k in after <==> k in doc.sections || (k in was && !replace))
      && (k in was && k !in doc.sections && !replace ==> after[k] == was[k])
      && (k in doc.sections && !doc.redacted ==> after[k] == doc.sections[k])
  {
  }

  // ---------------------------------------------------------------------------------------
  // The stores
  // ---------------------------------------------------------------------------------------

  class ConfigStores {
    var sections: map<string, Json>
    var centrals: map<string, Central>
    const secrets: string -> seq<Path>

    ghost predicate Valid()
      reads this
    {
      (forall k :: Leaves(secrets(k))) && forall n :: n in centrals ==> centrals[n].name == n
    }

    method ExportedSections(includeSecrets: bool) returns (out: map<string, Json>)
      ensures out.Keys == sections.Keys
      ensures forall k :: k in out ==> out[k] == Shown(sections[k], secrets(k), !includeSecrets)
    {
      out := map[];
      var todo := sections.Keys;
      while todo != {}
        invariant todo <= sections.Keys && out.Keys == sections.Keys - todo
        invariant forall k :: k in out ==> out[k] == Shown(sections[k], secrets(k), !includeSecrets)
        decreases |todo|
      {
        var k :| k in todo;
        var value := sections[k];
        if !includeSecrets {
          value := RedactAll(value, secrets(k));
        }
        out := out[k := value];
        todo := todo - {k};
      }
    }

    method ExportedCentrals(includeSecrets: bool) returns (rows: seq<Central>)
      requires Valid()
      ensures forall i :: 0 <= i < |rows| ==>
        rows[i].name in centrals && rows[i] == ShownCentral(centrals[rows[i].name], !includeSecrets)
      ensures forall n :: n in centrals ==> exists i :: 0 <= i < |rows| && rows[i].name == n
      ensures forall i, j :: 0 <= i < j < |rows| ==> rows[i].name != rows[j].name
    {
      rows := [];
      var todo := centrals.Keys;
      while todo != {}
        invariant todo <= centrals.Keys
        invariant forall i :: 0 <= i < |rows| ==>
          rows[i].name in centrals && rows[i] == ShownCentral(centrals[rows[i].name], !includeSecrets)
        invariant forall n :: n in centrals && n !in todo ==> exists i :: 0 <= i < |rows| && rows[i].name == n
        invariant forall i :: 0 <= i < |rows| ==> rows[i].name !in todo
        invariant forall i, j :: 0 <= i < j < |rows| ==> rows[i].name != rows[j].name
        decreases |todo|
      {
        var n :| n in todo;
        var row := ShownCentral(centrals[n], !includeSecrets);
        var more := rows + [row];
        assert forall i :: 0 <= i < |rows| ==> rows[i] == more[i];
        assert more[|rows|].name == n;
        rows := more;
        todo := todo - {n};
      }
    }

    /** Without secrets the password of every central is blank and every secret leaf of a section null,
        and nothing else is left out; with secrets all is as stored. */
    method Export(includeSecrets: bool) returns (doc: Doc)
      requires Valid()
      ensures doc.redacted == !includeSecrets && IsExport(doc, sections, centrals, secrets)
      ensures doc.sections.Keys == sections.Keys
      ensures includeSecrets ==> doc.sections == sections
      ensures !includeSecrets ==> forall k, p: Path :: k in sections && p in secrets(k) ==>
                Lookup(doc.sections[k], p) == if Lookup(sections[k], p).None? then None else Some(Null)
      ensures !includeSecrets ==> forall k, p: Path :: k in sections && (forall q :: q in secrets(k) ==> Apart(q, p)) ==>
                Lookup(doc.sections[k], p) == Lookup(sections[k], p)
      ensures forall i :: 0 <= i < |doc.centrals| ==>
                var row := doc.centrals[i];
                && row.name in centrals
                && row.token == centrals[row.name].token && row.settings == centrals[row.name].settings
                && row.password == if includeSecrets then centrals[row.name].password else ""
      ensures forall n :: n in centrals ==> exists i :: 0 <= i < |doc.centrals| && doc.centrals[i].name == n
      ensures forall i, j :: 0 <= i < j < |doc.centrals| ==> doc.centrals[i].name != doc.centrals[j].name
    {
      var shown := ExportedSections(includeSecrets);
      var rows := ExportedCentrals(includeSecrets);
      doc := Doc(!includeSecrets, shown, rows);
      if !includeSecrets {
        forall k, p: Path | k in sections
          ensures p in secrets(k) ==> Lookup(shown[k], p) == if Lookup(sections[k], p).None? then None else Some(Null)
          ensures (forall q :: q in secrets(k) ==> Apart(q, p)) ==> Lookup(shown[k], p) == Lookup(sections[k], p)
        {
          RedactedLeaves(sections[k], secrets(k), p);
        }
      }
    }

    /** Clears both stores, row by row. */
    method DeleteAllConfigRows(faults: Faults) returns (ok: bool)
      modifies this
      ensures ok ==> sections == map[] && centrals == map[]
      ensures ok <==> old(sections.Keys) !! faults.sectionDeletes && old(centrals.Keys) !! faults.centralDeletes
      ensures forall k :: k in sections ==> k in old(sections) && sections[k] == old(sections)[k]
      ensures forall n :: n in centrals ==> n in old(centrals) && centrals[n] == old(centrals)[n]
    {
      var todo := sections.Keys;
      while todo != {}
        invariant todo == sections.Keys <= old(sections.Keys) && centrals == old(centrals)
        invariant old(sections.Keys) - todo !! faults.sectionDeletes
        invariant forall k :: k in sections ==> sections[k] == old(sections)[k]
        decreases |todo|
      {
        var k :| k in todo;
        if k in faults.sectionDeletes {
          return false;
        }
        sections := sections - {k};
        todo := todo - {k};
      }
      todo := centrals.Keys;
      while todo != {}
        invariant todo == centrals.Keys <= old(centrals.Keys) && sections == map[]
        invariant old(sections.Keys) !! faults.sectionDeletes && old(centrals.Keys) - todo !! faults.centralDeletes
        invariant forall n :: n in centrals ==> centrals[n] == old(centrals)[n]
        decreases |todo|
      {
        var n :| n in todo;
        if n in faults.centralDeletes {
          return false;
        }
        centrals := centrals - {n};
        todo := todo - {n};
      }
      return true;
    }

    method UpsertImportedSections(doc: Doc, was: map<string, Json>, faults: Faults) returns (ok: bool)
      modifies this`sections
      ensures ok <==> doc.sections.Keys !! faults.sectionPuts
      ensures old(sections.Keys) <= sections.Keys
      ensures forall k :: k in sections ==>
        (k in doc.sections && sections[k] == Written(doc, was, secrets, k)) || (k in old(sections) && sections[k] == old(sections)[k])
      ensures ok ==> forall k :: k in doc.sections ==> k in sections && sections[k] == Written(doc, was, secrets, k)
    {
      var todo := doc.sections.Keys;
      while todo != {}
        invariant todo <= doc.sections.Keys && sections.Keys == old(sections.Keys) + (doc.sections.Keys - todo)
        invariant doc.sections.Keys - todo !! faults.sectionPuts
        invariant forall k :: k in sections ==>
          sections[k] == if k in doc.sections.Keys - todo then Written(doc, was, secrets, k) else old(sections)[k]
        decreases |todo|
      {
        var k :| k in todo;
        var payload := doc.sections[k];
        if doc.redacted {
          payload := RestoreAll(payload, Stored(was, k), secrets(k));
        }
        if k in faults.sectionPuts {
          return false;
        }
        sections := sections[k := payload];
        todo := todo - {k};
      }
      return true;
    }

    method UpsertImportedCentrals(doc: Doc, was: map<string, Central>, faults: Faults) returns (ok: bool, ghost n: nat)
      modifies this`centrals
      ensures n <= |doc.centrals| && centrals == PutCentrals(doc, was, old(centrals), n)
      ensures ok <==> n == |doc.centrals|
      ensures !ok ==> doc.centrals[n].name in faults.centralPuts
    {
      var i := 0;
      while i < |doc.centrals|
        invariant i <= |doc.centrals| && centrals == PutCentrals(doc, was, old(centrals), i)
      {
        var row := doc.centrals[i];
        if doc.redacted && row.password == "" && row.name in was {
          row := row.(password := was[row.name].password);
        }
        if row.name in faults.centralPuts {
          return false, i;
        }
        centrals := centrals[row.name := row];
        i := i + 1;
      }
      return true, i;
    }

    /** Imports a document. The stored secrets are read before anything is deleted. An import that
        fails half-way leaves no section but old ones and ones of the document, and in merge mode
        loses none. */
    method Import(doc: Doc, replace: bool, dryRun: bool, faults: Faults) returns (ok: bool)
      modifies this
      ensures dryRun ==> ok && sections == old(sections) && centrals == old(centrals)
      ensures ok && !dryRun ==>
        && sections == ImportedSections(doc, old(sections), secrets, replace)
        && centrals == ImportedCentrals(doc, old(centrals), replace)
      ensures !ok ==> forall k :: k in sections ==>
        (k in doc.sections && sections[k] == Written(doc, old(sections), secrets, k)) || (k in old(sections) && sections[k] == old(sections)[k])
      ensures !replace ==> old(sections.Keys) <= sections.Keys
      ensures faults == NO_FAULTS ==> ok
    {
      if dryRun {
        return true;
      }
      var storedSections, storedCentrals := sections, centrals;
      if replace {
        ok := DeleteAllConfigRows(faults);
        if !ok {
          return false;
        }
      }
      ok := UpsertImportedSections(doc, storedSections, faults);
      if !ok {
        return false;
      }
      assert sections == ImportedSections(doc, storedSections, secrets, replace);
      ghost var n;
      ok, n := UpsertImportedCentrals(doc, storedCentrals, faults);
    }
  }
}
