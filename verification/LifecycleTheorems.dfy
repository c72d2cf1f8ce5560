/** What an operator can rely on, for every run of adopt and remove calls over any names. */
module LifecycleTheorems {
  import opened Options
  import opened Lifecycle
  import opened LifecycleProofs
  import opened LifecycleRuns

  /** A name whose lifecycle lock is free is whole or gone: a published handle names a unit that is
      registered, running, bring-up-managed, bridged, and attached to exactly the domains whose
      unwire the handle keeps; an unregistered name has nothing left but what boot put there. */
  lemma FreeNameIsWholeOrGone(setup: Setup, w0: World, labels: seq<Label>, n: Name)
    requires Booted(setup, w0)
    ensures var w := Run(setup, w0, labels); n !in w.locks ==>
      && (n in w.handles ==>
            var h := w.handles[n];
            && n in w.reg && w.reg[n] == h.unit && n in w.bring && w.bring[n] == h.unit
            && h.unit >= setup.boot && h.unit !in w.units.stopped
            && (setup.bridgeOn ==> n in w.bridge && w.bridge[n] == h.unit)
            && (forall k :: k in h.unwires <==> k in ViewOf(w, n).att)
            && (forall k :: k in h.unwires ==> ViewOf(w, n).att[k] == h.unit))
      && (n in w.reg && n !in w.handles ==> w.reg[n] < setup.boot)
      && (n !in w.reg ==>
            n !in w.handles && ViewOf(w, n).att == map[] && n !in w.bridge && (n in w.bring ==> w.bring[n] < setup.boot))
  {
    RunKeepsInv(setup, w0, labels);
    var w := Run(setup, w0, labels);
    hide Run, LocksMatch, UnitsApart, At, Idle;
    if n !in w.locks {
      assert Quiet(setup, w.units, ViewOf(w, n));
    }
  }

  /** The calls of a run that are over. */
  ghost predicate Ended(setup: Setup, w: World, t: Tid, r: Result) {
    t in w.threads && w.threads[t].pc == Done(r)
  }

  /** A remove reports that the name is not live exactly when nothing was registered under it, and
      then it has changed nothing. */
  lemma NotLiveIsExact(setup: Setup, w0: World, labels: seq<Label>, t: Tid, r: Result)
    requires Booted(setup, w0) && Ended(setup, Run(setup, w0, labels), t, r) && (r.NotLive? || r.Removed?)
    ensures var th := Run(setup, w0, labels).threads[t];
      && (r.NotLive? <==> th.before.reg.None?)
      && (r.NotLive? ==> th.after == th.before && th.trace == [])
  {
    EndedSays(setup, w0, labels, t, r);
  }

  lemma EndedSays(setup: Setup, w0: World, labels: seq<Label>, t: Tid, r: Result)
    requires Booted(setup, w0) && Ended(setup, Run(setup, w0, labels), t, r)
    ensures var th := Run(setup, w0, labels).threads[t]; Outcome(setup, r, th.before, th.after, th.trace, th.devices)
  {
    hide Run, Booted, LocksMatch, UnitsApart, At, Outcome, Quiet;
    RunKeepsInv(setup, w0, labels);
    assert Idle(setup, Run(setup, w0, labels).threads[t]);
  }

  // ---------------------------------------------------------------------------------------
  // A failed adopt
  // ---------------------------------------------------------------------------------------

  /** The action an undo reverses. */
  function Undoes(u: Undo): Act {
    match u
    case StopUnregister => Registered
    case Unwire(k) => Hooked(k)
    case DetachBridge => Bridged
  }

  ghost predicate Once(trace: seq<Act>, a: Act) {
    forall i, j :: 0 <= i < |trace| && 0 <= j < |trace| && trace[i] == a && trace[j] == a ==> i == j
  }

  /** Whatever was hooked later is unhooked earlier. */
  ghost predicate HooksReversed(trace: seq<Act>) {
    forall i, j, p, q ::
      (&& 0 <= i < j < |trace| && 0 <= p < |trace| && 0 <= q < |trace|
       && trace[i].Hooked? && trace[j].Hooked?
       && trace[p] == Undid(Unwire(trace[i].hook)) && trace[q] == Undid(Unwire(trace[j].hook)))
      ==> q < p
  }

  /** Each step taken is undone, and nothing else is; no undo is taken twice; hooks are undone last
      attached first, and the unit is stopped and unregistered at the very end. */
  ghost predicate UndoneOnceInReverse(trace: seq<Act>) {
    && (forall u :: Undoes(u) in trace <==> Undid(u) in trace)
    && (forall u :: Once(trace, Undid(u)))
    && HooksReversed(trace)
    && trace != [] && trace[|trace| - 1] == Undid(StopUnregister)
  }

  /** Where the actions of a rolled-back adopt stand: `taken` first, then `all` from the back. */
  lemma UndidAt(taken: seq<Act>, all: seq<Undo>)
    requires forall a :: a in taken ==> !a.Undid?
    ensures var trace := taken + Undone(all, 0);
      && |trace| == |taken| + |all|
      && (forall i :: 0 <= i < |trace| ==> (trace[i].Undid? <==> i >= |taken|))
      && (forall i :: |taken| <= i < |trace| ==> trace[i] == Undid(all[|all| - 1 - (i - |taken|)]))
      && (forall u :: Undid(u) in trace <==> u in all)
      && (forall u :: Undoes(u) in trace <==> Undoes(u) in taken)
  {
    var trace := taken + Undone(all, 0);
    assert forall i :: 0 <= i < |taken| ==> trace[i] in taken;
    forall u ensures Undid(u) in trace <==> u in all {
      if u in all {
        var i :| 0 <= i < |all| && all[i] == u;
        assert trace[|taken| + (|all| - 1 - i)] == Undid(u);
      }
    }
    forall u ensures Undoes(u) in trace <==> Undoes(u) in taken {
      assert !Undoes(u).Undid?;
      if Undoes(u) in taken {
        var i :| 0 <= i < |taken| && taken[i] == Undoes(u);
        assert trace[i] == Undoes(u);
      }
    }
  }

  lemma AttachTraceHas(setup: Setup, ks: seq<nat>)
    ensures var trace := AttachTrace(setup, ks);
      && Registered in trace && (Bridged in trace <==> setup.bridgeOn)
      && (forall k :: Hooked(k) in trace <==> k in ks)
      && (forall a :: a in trace ==> !a.Undid?)
      && (forall i :: 0 <= i < |trace| && trace[i].Hooked? ==>
            |trace| - |ks| <= i && trace[i].hook == ks[i - (|trace| - |ks|)])
  {
    var trace := AttachTrace(setup, ks);
    var o := |trace| - |ks|;
    assert trace[0] == Registered;
    assert setup.bridgeOn ==> trace[1] == Bridged;
    assert forall i :: 0 <= i < |ks| ==> trace[o + i] == Hooked(ks[i]);
  }

  lemma BridgeFailure(trace: seq<Act>)
    requires trace == [Registered] + Undone([StopUnregister], 0)
    ensures UndoneOnceInReverse(trace)
  {
    assert trace == [Registered, Undid(StopUnregister)];
    hide Undone;
    forall u ensures Undoes(u) in trace <==> u == StopUnregister {}
    forall u ensures Undid(u) in trace <==> u == StopUnregister {}
    forall u ensures Once(trace, Undid(u)) {
      assert trace[0] != Undid(u);
    }
    assert HooksReversed(trace) by {
      assert !trace[0].Hooked? && !trace[1].Hooked?;
    }
    hide Once, HooksReversed, Undoes;
  }

  /** The undo of the hooking at i stands as far from one end as the hooking from the other. */
  lemma UndoMirrors(setup: Setup, ks: seq<nat>, trace: seq<Act>, i: nat, p: nat)
    requires Ascending(ks) && trace == AttachTrace(setup, ks) + Undone(UndoList(setup, ks), 0)
    requires i < |trace| && p < |trace| && trace[i].Hooked? && trace[p] == Undid(Unwire(trace[i].hook))
    ensures i + p == 2 * |AttachTrace(setup, ks)| + |UndoList(setup, ks)| - 2 - |ks|
  {
    hide AttachTrace, Undone, UndoList;
    var taken, all := AttachTrace(setup, ks), UndoList(setup, ks);
    AttachTraceHas(setup, ks);
    UndidAt(taken, all);
    assert trace[i] == taken[i];
    var x := i - (|taken| - |ks|);
    UndoListAt(setup, ks, x);
    var y := |all| - 1 - (p - |taken|);
    UndoAtMostOnce(setup, ks, y, x + 1);
  }

  lemma UndoAtMostOnce(setup: Setup, ks: seq<nat>, i: nat, j: nat)
    requires Ascending(ks) && i < |UndoList(setup, ks)| && j < |UndoList(setup, ks)|
    requires UndoList(setup, ks)[i] == UndoList(setup, ks)[j]
    ensures i == j
  {
    UndosDiffer(setup, ks);
  }

  lemma UndoListAt(setup: Setup, ks: seq<nat>, i: nat)
    requires i < |ks|
    ensures 1 + i < |UndoList(setup, ks)| && UndoList(setup, ks)[1 + i] == Unwire(ks[i])
  {
  }

  lemma UndosMatch(setup: Setup, ks: seq<nat>, trace: seq<Act>, u: Undo)
    requires Ascending(ks) && trace == AttachTrace(setup, ks) + Undone(UndoList(setup, ks), 0)
    ensures Undoes(u) in trace <==> Undid(u) in trace
    ensures Once(trace, Undid(u))
  {
    hide AttachTrace, Undone, UndoList;
    var taken, all := AttachTrace(setup, ks), UndoList(setup, ks);
    AttachTraceHas(setup, ks);
    UndidAt(taken, all);
    UndoListHas(setup, ks);
    forall i, j | 0 <= i < |trace| && 0 <= j < |trace| && trace[i] == Undid(u) && trace[j] == Undid(u) ensures i == j {
      UndoAtMostOnce(setup, ks, |all| - 1 - (i - |taken|), |all| - 1 - (j - |taken|));
    }
  }

  lemma RolledBackFully(setup: Setup, ks: seq<nat>, trace: seq<Act>)
    requires Ascending(ks) && trace == AttachTrace(setup, ks) + Undone(UndoList(setup, ks), 0)
    ensures UndoneOnceInReverse(trace)
  {
    hide AttachTrace, Undone, UndoList, Once, Undoes, Ascending, HooksReversed;
    forall u {
      UndosMatch(setup, ks, trace, u);
    }
    RollbackReverses(setup, ks, trace);
    RollbackEnds(setup, ks, trace);
  }

  lemma RollbackReverses(setup: Setup, ks: seq<nat>, trace: seq<Act>)
    requires Ascending(ks) && trace == AttachTrace(setup, ks) + Undone(UndoList(setup, ks), 0)
    ensures HooksReversed(trace)
  {
    hide AttachTrace, Undone, UndoList, Ascending;
    forall i, j, p, q | 0 <= i < j < |trace| && 0 <= p < |trace| && 0 <= q < |trace| && trace[i].Hooked? && trace[j].Hooked?
      && trace[p] == Undid(Unwire(trace[i].hook)) && trace[q] == Undid(Unwire(trace[j].hook))
      ensures q < p
    {
      UndoMirrors(setup, ks, trace, i, p);
      UndoMirrors(setup, ks, trace, j, q);
    }
  }

  lemma RollbackEnds(setup: Setup, ks: seq<nat>, trace: seq<Act>)
    requires trace == AttachTrace(setup, ks) + Undone(UndoList(setup, ks), 0)
    ensures trace != [] && trace[|trace| - 1] == Undid(StopUnregister)
  {
  }

  /** A failed adopt leaves its name's registry entry, handle, bring-up handle, bridge and hooks as
      they were, a foreign bring-up handle included, and has undone what it did exactly. */
  lemma FailedAdoptLeavesNoTrace(setup: Setup, w0: World, labels: seq<Label>, t: Tid)
    requires Booted(setup, w0) && Ended(setup, Run(setup, w0, labels), t, AdoptFailed)
    ensures var th := Run(setup, w0, labels).threads[t];
      th.after == th.before && (th.trace == [] || UndoneOnceInReverse(th.trace))
  {
    hide Run, Booted, UndoneOnceInReverse, AttachTrace, UndoList, Undone;
    EndedSays(setup, w0, labels, t, AdoptFailed);
    var th := Run(setup, w0, labels).threads[t];
    if th.trace != [] {
      var ks, all :| RollingTrace(setup, th.trace, ks, all, 0);
      if ks == [] && all == [StopUnregister] && th.trace == [Registered] + Undone(all, 0) {
        BridgeFailure(th.trace);
      } else {
        RolledBackFully(setup, ks, th.trace);
      }
    }
  }

  // ---------------------------------------------------------------------------------------
  // A remove
  // ---------------------------------------------------------------------------------------

  function Ending(setup: Setup): seq<Act> {
    [Stopped] + (if setup.bridgeOn then [Detached] else []) + [Purged]
  }

  lemma RemovedShape(setup: Setup, before: View, h: Handle, trace: seq<Act>, devices: nat) returns (evictions: seq<Act>)
    requires RemovedTrace(setup, before, h, trace, devices)
    ensures trace == [Drained] + Unwirings(h.unwires) + evictions + Ending(setup)
    ensures Evictions(evictions, before.bridge.Some?) && |evictions| == devices
  {
    hide HandleFor, Evictions;
    var n := 1 + |h.unwires|;
    var drained := trace[..|trace| - |Ending(setup)|];
    assert drained == trace[..|trace| - 1][..|trace| - |Ending(setup)|];
    assert trace == drained + Ending(setup);
    evictions := drained[n..];
    assert drained == drained[..n] + evictions;
  }

  /** A finished remove took these steps in this order and no others: the southbound drain, every
      recorded unwire once in attach order, one eviction a device, the stop, the bridge detach, the
      purge. Every eviction saw a bus with its subscribers and the bridge if the central had one,
      and under the name nothing is left. */
  lemma RemoveTakesEveryStepInOrder(setup: Setup, w0: World, labels: seq<Label>, t: Tid)
    requires Booted(setup, w0) && Ended(setup, Run(setup, w0, labels), t, Removed)
    ensures var th := Run(setup, w0, labels).threads[t];
      && th.after == NOTHING && th.before.reg.Some?
      && exists unwires, evictions ::
           && th.trace == [Drained] + Unwirings(unwires) + evictions + Ending(setup)
           && Evictions(evictions, th.before.bridge.Some?) && |evictions| == th.devices
           && unwires == (if th.before.handle.Some? then th.before.handle.value.unwires else DetachHooks(setup.hooks))
  {
    hide Run, Booted, DetachHooks, RemovedTrace, Ending, Evictions, Unwirings;
    EndedSays(setup, w0, labels, t, Removed);
    var th := Run(setup, w0, labels).threads[t];
    var h :| RemovedTrace(setup, th.before, h, th.trace, th.devices);
    var evictions := RemovedShape(setup, th.before, h, th.trace, th.devices);
    RemovedHandle(setup, th.before, h, th.trace, th.devices);
  }

  lemma RemovedHandle(setup: Setup, before: View, h: Handle, trace: seq<Act>, devices: nat)
    requires RemovedTrace(setup, before, h, trace, devices)
    ensures HandleFor(setup, before, h)
  {
  }

  // ---------------------------------------------------------------------------------------
  // Other names, and progress
  // ---------------------------------------------------------------------------------------

  lemma LocalIsLocal(setup: Setup, w: World, t: Tid, s: Local, m: Name)
    requires UnitsApart(setup, w) && t in w.threads && s.thread.name == w.threads[t].name && m != w.threads[t].name
    requires Kept(setup, LocalOf(w, t), s)
    ensures var w2 := Install(w, t, s);
      && ViewOf(w2, m) == ViewOf(w, m) && Get(w2.rows, m) == Get(w.rows, m) && w2.locks == w.locks
      && Spares(w.units, w2.units, ViewOf(w, m))
  {
    hide UnitsApart, Kept, Spares;
    InstalledView(w, t, s);
    InstalledUnits(setup, w, t, s);
  }

  ghost predicate Untouched(w: World, w2: World, m: Name) {
    && ViewOf(w2, m) == ViewOf(w, m) && Get(w2.rows, m) == Get(w.rows, m)
    && (m in w.locks <==> m in w2.locks)
    && Spares(w.units, w2.units, ViewOf(w, m))
  }

  lemma OthersUntouchedBy(setup: Setup, w: World, t: Tid, c: Choice, m: Name)
    requires Inv(setup, w) && t in w.threads && m != w.threads[t].name
    requires Adopting(w.threads[t].pc) || Removing(w.threads[t].pc)
    ensures Untouched(w, Step(setup, w, t, c), m)
  {
    hide Inv, At, AdoptStep, RemoveStep, Quiet, UnitsApart, Kept, LocksMatch, Made, Install, Adopting, Removing, ViewOf, Spares;
    var s := if Adopting(w.threads[t].pc) then AdoptStep(setup, LocalOf(w, t), c) else RemoveStep(setup, LocalOf(w, t), c);
    InvGives(setup, w, t);
    InvUnits(setup, w);
    MadeHere(setup, w, t);
    Keeps(setup, LocalOf(w, t), c);
    KeptName(setup, LocalOf(w, t), s);
    LocalIsLocal(setup, w, t, s, m);
    StepInstalls(setup, w, t, c);
  }

  lemma StepInstalls(setup: Setup, w: World, t: Tid, c: Choice)
    requires t in w.threads && (Adopting(w.threads[t].pc) || Removing(w.threads[t].pc))
    ensures Step(setup, w, t, c) ==
      Install(w, t, if Adopting(w.threads[t].pc) then AdoptStep(setup, LocalOf(w, t), c) else RemoveStep(setup, LocalOf(w, t), c))
  {
    hide AdoptStep, RemoveStep, Install;
  }

  lemma LockingIsSmall(w: World, t: Tid, m: Name)
    requires t in w.threads && m != w.threads[t].name
    ensures m in Locking(w, t).0 <==> m in w.locks
  {
    hide ViewOf;
  }

  lemma OthersUntouchedByLocks(setup: Setup, w: World, t: Tid, c: Choice, m: Name)
    requires t in w.threads && m != w.threads[t].name
    requires !Adopting(w.threads[t].pc) && !Removing(w.threads[t].pc)
    ensures Untouched(w, Step(setup, w, t, c), m)
  {
    hide Locking, Adopting, Removing, Install;
    LockingIsSmall(w, t, m);
  }

  /** No step of a call touches what is kept under another name, its stored rows included. */
  lemma OthersUntouched(setup: Setup, w0: World, labels: seq<Label>, t: Tid, c: Choice, m: Name)
    requires Booted(setup, w0)
    requires var w := Run(setup, w0, labels); t in w.threads && m != w.threads[t].name
    ensures var w := Run(setup, w0, labels); Untouched(w, Step(setup, w, t, c), m)
  {
    hide Run, Booted, Inv, Untouched, Step;
    RunKeepsInv(setup, w0, labels);
    var w := Run(setup, w0, labels);
    if Adopting(w.threads[t].pc) || Removing(w.threads[t].pc) {
      OthersUntouchedBy(setup, w, t, c, m);
    } else {
      OthersUntouchedByLocks(setup, w, t, c, m);
    }
  }

  lemma KeptName(setup: Setup, s: Local, s2: Local)
    requires Kept(setup, s, s2)
    ensures s2.thread.name == s.thread.name
  {
  }

  lemma MadeHere(setup: Setup, w: World, t: Tid)
    requires UnitsApart(setup, w) && t in w.threads
    ensures Made(setup, LocalOf(w, t).view, w.units)
  {
  }

  lemma InvUnits(setup: Setup, w: World)
    requires Inv(setup, w)
    ensures UnitsApart(setup, w)
  {
  }

  /** How far a call that holds its lock is from letting go: phase, then rounds left in it. */
  function Left(setup: Setup, pc: Pc): (int, int) {
    match pc
    case AdoptLocked => (9, 0)
    case AdoptRegistered => (8, 0)
    case AdoptStarted => (7, 0)
    case AdoptHook(i, _) => (6, |setup.hooks| - i)
    case AdoptNorth(_) => (5, 0)
    case AdoptPublish(_) => (4, 0)
    case Rolling(_, _, undo) => (3, |undo|)
    case RemoveLocked => (8, 0)
    case RemoveDrain(_) => (7, 0)
    case RemoveUnwire(h, i) => (6, |h.unwires| - i)
    case RemoveEvict(_, left) => (5, left)
    case RemoveDetach(_) => (4, 0)
    case RemovePurge(_) => (3, 0)
    case Release(_) => (2, 0)
    case _ => (1, 0)
  }

  predicate Nearer(a: (int, int), b: (int, int)) {
    0 <= a.0 && 0 <= a.1 && (a.0 < b.0 || (a.0 == b.0 && a.1 < b.1))
  }

  lemma AdoptAdvances(setup: Setup, s: Local, c: Choice)
    requires At(setup, s) && Adopting(s.thread.pc)
    ensures Nearer(Left(setup, AdoptStep(setup, s, c).thread.pc), Left(setup, s.thread.pc))
  {
    hide Quiet, Built, UndoList, RollingTrace, ApplyUndo, AttachTrace;
  }

  lemma RemoveAdvances(setup: Setup, s: Local, c: Choice)
    requires At(setup, s) && Removing(s.thread.pc)
    ensures Nearer(Left(setup, RemoveStep(setup, s, c).thread.pc), Left(setup, s.thread.pc))
  {
    hide DrainedTo, DetachedTo, StopUnit, DetachHooks, AtGone;
  }

  /** A call that holds its lock is never stuck: each of its steps brings it nearer to release. */
  lemma HolderAdvances(setup: Setup, w0: World, labels: seq<Label>, t: Tid, c: Choice)
    requires Booted(setup, w0)
    requires var w := Run(setup, w0, labels); t in w.threads && Holding(w.threads[t].pc)
    ensures var w := Run(setup, w0, labels);
      Nearer(Left(setup, Step(setup, w, t, c).threads[t].pc), Left(setup, w.threads[t].pc))
  {
    hide Run, Booted, Inv, At, AdoptStep, RemoveStep, ViewOf;
    RunKeepsInv(setup, w0, labels);
    var w := Run(setup, w0, labels);
    InvGives(setup, w, t);
    if !w.threads[t].pc.Release? {
      if Adopting(w.threads[t].pc) {
        AdoptAdvances(setup, LocalOf(w, t), c);
      } else {
        RemoveAdvances(setup, LocalOf(w, t), c);
      }
    }
  }
}
