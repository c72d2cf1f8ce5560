/** The persisted rows of the centrals, kept in step with the ones that run. */
module LiveAdmin {
  import opened Options
  import opened Lifecycle
  import opened LifecycleProofs
  import opened Orchestrator

  datatype Row = Row(name: Name, enabled: bool, config: string)

  /** What the store's next write does: fail, or go through. */
  datatype PutResult = PutOk | StoreFailed | AdoptRefused
  datatype DeleteResult = DeleteOk | TeardownFailed | DeleteFailed | RowNotFound

  class LiveCentralAdmin {
    const orch: CentralOrchestrator
    var store: map<Name, Row>

    constructor (orch: CentralOrchestrator)
      ensures this.orch == orch && store == map[]
    {
      this.orch := orch;
      store := map[];
    }

    /** The rows and the registry agree on one name: registered exactly when there is an enabled row. */
    ghost predicate Agrees(n: Name)
      reads this, orch
    {
      n in orch.reg <==> n in store && store[n].enabled
    }

    /** What a call's outcome says of the registry. */
    lemma Reported(before: View, after: View, r: Result, trace: seq<Act>, devices: nat)
      requires Outcome(orch.setup, r, before, after, trace, devices)
      ensures r.Adopted? ==> after.reg.Some?
      ensures r.AdoptFailed? ==> after == before
      ensures r.Removed? || r.NotLive? ==> after.reg.None?
    {
    }

    /** Brings what runs under the name in line with the row; reports whether an adopt was refused. */
    method Reconcile(row: Row, env: Env, devices: nat) returns (refused: bool)
      requires orch.Valid() && row.name.text != ""
      modifies orch
      ensures orch.Valid()
      ensures refused ==> row.enabled && (env.newFails || env.startFails || old(row.name in orch.bring))
      ensures refused ==> orch.View(row.name) == old(orch.View(row.name)) && row.name !in orch.reg
      ensures !refused ==> (row.name in orch.reg <==> row.enabled)
      ensures forall m :: m != row.name ==> orch.View(m) == old(orch.View(m))
    {
      hide Outcome, Quiet, Made, Attached;
      var name := row.name;
      refused := false;
      ghost var was := orch.View(name);
      if !row.enabled && name in orch.reg {
        var live;
        ghost var trace;
        live, trace := orch.RemoveCentral(name, devices);
        Reported(was, orch.View(name), Removed, trace, devices);
      } else if row.enabled && name !in orch.reg {
        var ok;
        ghost var trace;
        ok, trace := orch.AdoptCentral(name, env);
        Reported(was, orch.View(name), if ok then Adopted else AdoptFailed, trace, 0);
        refused := !ok;
      }
      forall m | m != name ensures orch.View(m) == old(orch.View(m)) {
        assert orch.Rest(name)[m] == old(orch.Rest(name))[m];
      }
    }

    /** Persists the row, then reconciles what runs with it. */
    method Put(row: Row, storeFails: bool, env: Env, devices: nat) returns (result: PutResult)
      requires orch.Valid() && row.name.text != ""
      modifies this`store, orch
      ensures orch.Valid()
      ensures result == PutOk ==> Agrees(row.name) && store == old(store)[row.name := row]
      ensures result == StoreFailed ==> store == old(store) && orch.reg == old(orch.reg)
      ensures result == StoreFailed <==> storeFails
      ensures result == AdoptRefused ==> env.newFails || env.startFails || old(row.name in orch.bring)
      ensures result == AdoptRefused ==>
        store == old(store)[row.name := row] && row.enabled && orch.View(row.name) == old(orch.View(row.name)) && row.name !in orch.reg
      ensures forall m :: m != row.name ==> orch.View(m) == old(orch.View(m)) && (Agrees(m) <==> old(Agrees(m)))
    {
      if storeFails {
        return StoreFailed;
      }
      store := store[row.name := row];
      var refused := Reconcile(row, env, devices);
      assert forall m :: m in orch.reg <==> orch.View(m).reg.Some?;
      result := if refused then AdoptRefused else PutOk;
    }

    /** What the orchestrator's remove looks like to a caller: it tears the central down, or reports an
        error of its own, having done so or not. */
    method RemoveLive(name: Name, fails: bool, devices: nat) returns (failed: bool)
      requires orch.Valid()
      modifies orch
      ensures orch.Valid() && failed == fails
      ensures !failed ==> name !in orch.reg
      ensures forall m :: m != name ==> orch.View(m) == old(orch.View(m)) && (m in orch.reg <==> m in old(orch.reg))
    {
      var gone := true;
      if fails {
        gone := *;
      }
      if gone {
        var live;
        ghost var trace;
        live, trace := orch.RemoveCentral(name, devices);
        Reported(old(orch.View(name)), orch.View(name), if live then Removed else NotLive, trace, if live then devices else 0);
        forall m | m != name ensures orch.View(m) == old(orch.View(m)) {
          assert orch.Rest(name)[m] == old(orch.Rest(name))[m];
        }
        assert forall m :: m in orch.reg <==> orch.View(m).reg.Some?;
      }
      failed := fails;
    }

    /** Tears the central down before its row is dropped, so that a teardown that failed leaves the row
        for a retry. */
    method Delete(name: Name, teardownFails: bool, storeFails: bool, devices: nat) returns (result: DeleteResult)
      requires orch.Valid()
      modifies this`store, orch
      ensures orch.Valid()
      ensures result == DeleteOk ==> old(name in store) && store == old(store) - {name} && Agrees(name)
      ensures result != DeleteOk ==> store == old(store)
      ensures result == TeardownFailed <==> teardownFails
      ensures result != TeardownFailed ==> name !in orch.reg
      ensures result == DeleteFailed <==> !teardownFails && storeFails
      ensures result == RowNotFound <==> !teardownFails && !storeFails && name !in old(store)
      ensures forall m :: m != name ==> orch.View(m) == old(orch.View(m)) && (Agrees(m) <==> old(Agrees(m)))
    {
      var failed := RemoveLive(name, teardownFails, devices);
      if failed {
        return TeardownFailed;
      }
      if storeFails {
        return DeleteFailed;
      }
      if name !in store {
        return RowNotFound;
      }
      store := store - {name};
      result := DeleteOk;
    }
  }
}
