/** What holds in every interleaving of adopt and remove calls. */
module LifecycleProofs {
  import opened Options
  import opened Lifecycle

  ghost predicate Holding(pc: Pc) {
    Adopting(pc) || Removing(pc) || pc.Release?
  }

  /** The unwires recorded so far: ascending, and each of a domain that attaches. */
  ghost predicate Recorded(setup: Setup, ks: seq<nat>, below: nat) {
    Ascending(ks) && below <= |setup.hooks| && forall k :: k in ks ==> k < below && setup.hooks[k].attaches
  }

  ghost predicate FreshUnit(setup: Setup, units: Units, u: Unit) {
    setup.boot <= u < units.next && u !in units.north && u !in units.stopped
  }

  /** An adopt between the registration and the publication of its handle. */
  ghost predicate AtAdopt(setup: Setup, units: Units, th: Thread, v: View) {
    && Quiet(setup, units, th.before) && th.before.reg.None?
    && match th.pc
       case AdoptRegistered =>
         FreshUnit(setup, units, th.unit) && v == Built(setup, th.before, th.unit, [StopUnregister]) && th.trace == [Registered]
       case AdoptStarted =>
         FreshUnit(setup, units, th.unit) && v == Built(setup, th.before, th.unit, [StopUnregister]) && th.trace == [Registered]
       case AdoptHook(i, ks) =>
         && FreshUnit(setup, units, th.unit) && Recorded(setup, ks, i)
         && v == Built(setup, th.before, th.unit, UndoList(setup, ks)) && th.trace == AttachTrace(setup, ks)
       case AdoptNorth(ks) =>
         && FreshUnit(setup, units, th.unit) && Recorded(setup, ks, |setup.hooks|) && th.before.bring.None?
         && v == Built(setup, th.before, th.unit, UndoList(setup, ks)).(bring := Some(th.unit))
         && th.trace == AttachTrace(setup, ks) + [BroughtUp]
       case AdoptPublish(ks) =>
         && setup.boot <= th.unit < units.next && th.unit in units.north && th.unit !in units.stopped
         && Recorded(setup, ks, |setup.hooks|) && th.before.bring.None?
         && v == Built(setup, th.before, th.unit, UndoList(setup, ks)).(bring := Some(th.unit))
         && th.trace == AttachTrace(setup, ks) + [BroughtUp, WiredNorth]
       case Rolling(ks, all, undo) =>
         && setup.boot <= th.unit
         && (StopUnregister in undo ==> FreshUnit(setup, units, th.unit))
         && Recorded(setup, ks, |setup.hooks|) && undo <= all
         && v == Built(setup, th.before, th.unit, undo)
         && RollingTrace(setup, th.trace, ks, all, |undo|)
       case _ => false
  }

  /** What was attached, then the undos taken so far, last recorded first. */
  ghost predicate RollingTrace(setup: Setup, trace: seq<Act>, ks: seq<nat>, all: seq<Undo>, left: nat) {
    && left <= |all| && Ascending(ks)
    && ((ks == [] && all == [StopUnregister] && trace == [Registered] + Undone(all, left))
        || (all == UndoList(setup, ks) && trace == AttachTrace(setup, ks) + Undone(all, left)))
  }

  /** The view while a remove runs its unwires. */
  function Unhooked(before: View, ks: seq<nat>): View {
    before.(handle := None, bring := None, att := map k: nat | k in before.att && k !in ks :: before.att[k])
  }

  ghost predicate HandleFor(setup: Setup, before: View, h: Handle) {
    && before.reg == Some(h.unit) && h.bridge == setup.bridgeOn
    && (before.handle == Some(h) || (before.handle.None? && h.unwires == DetachHooks(setup.hooks)))
  }

  ghost predicate AtRemove(setup: Setup, units: Units, th: Thread, v: View) {
    && Quiet(setup, units, th.before)
    && match th.pc
       case RemoveDrain(h) =>
         HandleFor(setup, th.before, h) && v == th.before.(handle := None) && th.trace == []
       case RemoveUnwire(h, i) =>
         && HandleFor(setup, th.before, h) && i <= |h.unwires|
         && v == Unhooked(th.before, h.unwires[..i])
         && th.trace == [Drained] + Unwirings(h.unwires[..i])
       case RemoveEvict(h, left) =>
         && HandleFor(setup, th.before, h)
         && v == Unhooked(th.before, h.unwires)
         && left <= th.devices && DrainedTo(th.trace, h, th.before.bridge.Some?, th.devices - left)
       case _ => false
  }

  /** A remove past `Unit.Stop`. */
  ghost predicate AtGone(setup: Setup, units: Units, th: Thread, v: View) {
    && th.trace != []
    && match th.pc
       case RemoveDetach(h) =>
         && HandleFor(setup, th.before, h) && v == NOTHING.(bridge := th.before.bridge)
         && (th.before.bridge.Some? ==> setup.bridgeOn)
         && DrainedTo(th.trace[..|th.trace| - 1], h, th.before.bridge.Some?, th.devices)
         && th.trace[|th.trace| - 1] == Stopped
       case RemovePurge(h) =>
         && HandleFor(setup, th.before, h) && v == NOTHING
         && DetachedTo(setup, th.trace, h, th.before.bridge.Some?, th.devices)
       case _ => false
  }

  ghost predicate DetachedTo(setup: Setup, trace: seq<Act>, h: Handle, bridged: bool, evicted: nat) {
    var tail := if setup.bridgeOn then [Stopped, Detached] else [Stopped];
    |tail| <= |trace| && trace[|trace| - |tail|..] == tail && DrainedTo(trace[..|trace| - |tail|], h, bridged, evicted)
  }

  /** What a finished call can say for itself. */
  ghost predicate Outcome(setup: Setup, r: Result, before: View, after: View, trace: seq<Act>, devices: nat) {
    match r
    case Adopted =>
      && before.reg.None? && before.bring.None? && after.handle.Some? && after.reg == Some(after.handle.value.unit)
      && after.bring == after.reg
      && trace == AttachTrace(setup, after.handle.value.unwires) + [BroughtUp, WiredNorth, Published]
    case AdoptFailed =>
      && after == before
      && (trace == [] || exists ks, all :: RollingTrace(setup, trace, ks, all, 0))
    case Removed =>
      && after == NOTHING && exists h :: RemovedTrace(setup, before, h, trace, devices)
    case NotLive => before.reg.None? && after == before && trace == []
  }

  ghost predicate RemovedTrace(setup: Setup, before: View, h: Handle, trace: seq<Act>, devices: nat) {
    && HandleFor(setup, before, h) && trace != [] && trace[|trace| - 1] == Purged
    && DetachedTo(setup, trace[..|trace| - 1], h, before.bridge.Some?, devices)
  }

  ghost predicate At(setup: Setup, s: Local) {
    var v, units, th := s.view, s.units, s.thread;
    match th.pc
    case AdoptLocked => v == th.before && Quiet(setup, units, v) && th.trace == []
    case RemoveLocked => v == th.before && Quiet(setup, units, v) && th.trace == []
    case Release(r) =>
      Quiet(setup, units, v) && Outcome(setup, r, th.before, v, th.trace, th.devices) && (r.Removed? ==> s.rows.None?)
    case RemoveDetach(_) => AtGone(setup, units, th, v)
    case RemovePurge(_) => AtGone(setup, units, th, v)
    case _ => if Adopting(th.pc) then AtAdopt(setup, units, th, v) else AtRemove(setup, units, th, v)
  }

  ghost predicate Idle(setup: Setup, th: Thread) {
    match th.pc
    case Done(r) => Outcome(setup, r, th.before, th.after, th.trace, th.devices)
    case AdoptStart => th.trace == [] && th.before == th.after
    case RemoveStart => th.trace == []
    case _ => true
  }

  /** No unit is used before it is made. */
  ghost predicate Made(setup: Setup, v: View, units: Units) {
    && setup.boot <= units.next
    && (forall u :: u in units.north ==> u < units.next) && (forall u :: u in units.stopped ==> u < units.next)
    && (v.reg.Some? ==> v.reg.value < units.next)
  }

  /** A step only marks the unit under its own name, and registers only a unit it has just made. */
  ghost predicate Modest(s: Local, s2: Local) {
    && s.units.next <= s2.units.next
    && s.units.north <= s2.units.north && s.units.stopped <= s2.units.stopped
    && (forall u :: u in s2.units.north - s.units.north ==> s.view.reg == Some(u))
    && (forall u :: u in s2.units.stopped - s.units.stopped ==> s.view.reg == Some(u))
    && (s2.view.reg == s.view.reg || s2.view.reg.None? || (s2.view.reg == Some(s.units.next) && s.units.next < s2.units.next))
    && s2.thread.name == s.thread.name && Holding(s2.thread.pc)
  }

  ghost predicate Kept(setup: Setup, s: Local, s2: Local) {
    At(setup, s2) && Made(setup, s2.view, s2.units) && Modest(s, s2)
  }

  // ---------------------------------------------------------------------------------------
  // Every step of a call that holds its name's lock
  // ---------------------------------------------------------------------------------------

  lemma AdoptLockedKeeps(setup: Setup, s: Local, c: Choice)
    requires At(setup, s) && Made(setup, s.view, s.units) && s.thread.pc.AdoptLocked?
    ensures Kept(setup, s, AdoptStep(setup, s, c))
  {
    if !c.fails && s.view.reg.None? {
      var s2 := AdoptStep(setup, s, c);
      assert s2.view == Built(setup, s.thread.before, s.units.next, [StopUnregister]);
    }
  }

  lemma AdoptRegisteredKeeps(setup: Setup, s: Local, c: Choice)
    requires At(setup, s) && Made(setup, s.view, s.units) && s.thread.pc.AdoptRegistered?
    ensures Kept(setup, s, AdoptStep(setup, s, c))
  {
    if c.fails {
      assert Undone([StopUnregister], 1) == [];
    }
  }

  lemma AdoptStartedKeeps(setup: Setup, s: Local, c: Choice)
    requires At(setup, s) && Made(setup, s.view, s.units) && s.thread.pc.AdoptStarted?
    ensures Kept(setup, s, AdoptStep(setup, s, c))
  {
    var s2 := AdoptStep(setup, s, c);
    assert UndoList(setup, []) == [StopUnregister] + (if setup.bridgeOn then [DetachBridge] else []);
    assert Hookings([]) == [];
    assert s2.view == Built(setup, s.thread.before, s.thread.unit, UndoList(setup, []));
  }

  lemma UndoListHas(setup: Setup, ks: seq<nat>)
    ensures forall k: nat :: Unwire(k) in UndoList(setup, ks) <==> k in ks
    ensures StopUnregister in UndoList(setup, ks)
    ensures DetachBridge in UndoList(setup, ks) <==> setup.bridgeOn
  {
    var l := UndoList(setup, ks);
    assert l[0] == StopUnregister;
    assert setup.bridgeOn ==> l[|l| - 1] == DetachBridge;
    forall k: nat | k in ks ensures Unwire(k) in l {
      var i :| 0 <= i < |ks| && ks[i] == k;
      assert l[i + 1] == Unwire(k);
    }
  }

  lemma BuiltWith(setup: Setup, before: View, u: Unit, ks: seq<nat>)
    ensures var v := Built(setup, before, u, UndoList(setup, ks));
      && v.reg == Some(u) && v.handle == before.handle && v.bring == before.bring
      && v.bridge == (if setup.bridgeOn then Some(u) else before.bridge)
      && v.att == map k: nat | k < |setup.hooks| && k in ks :: u
  {
    UndoListHas(setup, ks);
  }

  lemma AdoptHookKeeps(setup: Setup, s: Local, c: Choice)
    requires At(setup, s) && Made(setup, s.view, s.units) && s.thread.pc.AdoptHook?
    ensures Kept(setup, s, AdoptStep(setup, s, c))
  {
    hide Quiet, Built, UndoList, Outcome;
    var i, ks := s.thread.pc.next, s.thread.pc.unwires;
    var u, before := s.thread.unit, s.thread.before;
    BuiltWith(setup, before, u, ks);
    if i < |setup.hooks| {
      if setup.hooks[i].attaches && !c.fails {
        BuiltWith(setup, before, u, ks + [i]);
        assert Recorded(setup, ks + [i], i + 1) by {
          assert forall j :: 0 <= j < |ks| ==> ks[j] in ks;
        }
        assert Hookings(ks + [i]) == Hookings(ks) + [Hooked(i)];
        assert AttachTrace(setup, ks + [i]) == AttachTrace(setup, ks) + [Hooked(i)];
        assert AdoptStep(setup, s, c).view == Built(setup, before, u, UndoList(setup, ks + [i]));
      }
    } else if s.view.bring.Some? {
      assert Undone(UndoList(setup, ks), |UndoList(setup, ks)|) == [];
    }
  }

  lemma AdoptNorthKeeps(setup: Setup, s: Local, c: Choice)
    requires At(setup, s) && Made(setup, s.view, s.units) && s.thread.pc.AdoptNorth?
    ensures Kept(setup, s, AdoptStep(setup, s, c))
  {
    hide UndoList;
    BuiltWith(setup, s.thread.before, s.thread.unit, s.thread.pc.unwires);
  }

  lemma AdoptPublishKeeps(setup: Setup, s: Local, c: Choice)
    requires At(setup, s) && Made(setup, s.view, s.units) && s.thread.pc.AdoptPublish?
    ensures Kept(setup, s, AdoptStep(setup, s, c))
  {
    hide UndoList, Built;
    BuiltWith(setup, s.thread.before, s.thread.unit, s.thread.pc.unwires);
  }

  /** The rollback list has no entry twice. */
  lemma UndosDiffer(setup: Setup, ks: seq<nat>)
    requires Ascending(ks)
    ensures forall i, j :: 0 <= i < j < |UndoList(setup, ks)| ==> UndoList(setup, ks)[i] != UndoList(setup, ks)[j]
  {
  }

  lemma RolledBack(setup: Setup, s: Local, c: Choice)
    requires At(setup, s) && Made(setup, s.view, s.units) && s.thread.pc.Rolling? && s.thread.pc.undo == []
    ensures Kept(setup, s, AdoptStep(setup, s, c))
  {
    hide UndoList, ApplyUndo;
    assert s.thread.trace + [] == s.thread.trace;
    assert RollingTrace(setup, s.thread.trace, s.thread.pc.unwires, s.thread.pc.all, 0);
    assert s.view == s.thread.before;
  }

  lemma UndoSplits(setup: Setup, ks: seq<nat>, all: seq<Undo>, undo: seq<Undo>)
    requires Ascending(ks) && (all == [StopUnregister] || all == UndoList(setup, ks))
    requires undo != [] && undo <= all
    ensures var rest, last := undo[..|undo| - 1], undo[|undo| - 1];
      && undo == rest + [last] && last !in rest
      && (last == StopUnregister <==> rest == []) && (StopUnregister in rest <==> rest != [])
  {
    UndosDiffer(setup, ks);
    var rest := undo[..|undo| - 1];
    assert undo[0] == all[0] == StopUnregister;
    if rest != [] {
      assert rest[0] == StopUnregister;
    }
  }

  /** Undoing the last recorded step leaves what the steps before it had built. */
  lemma UndoneView(setup: Setup, before: View, units: Units, u: Unit, ks: seq<nat>, all: seq<Undo>, undo: seq<Undo>)
    requires before.reg.None? && before.bridge.None? && before.att == map[] && u !in units.north
    requires Ascending(ks) && (all == [StopUnregister] || all == UndoList(setup, ks))
    requires undo != [] && undo <= all
    ensures var rest, last := undo[..|undo| - 1], undo[|undo| - 1];
      && ApplyUndo(setup, Built(setup, before, u, undo), units, u, last) == Built(setup, before, u, rest)
      && (last == StopUnregister <==> rest == []) && (StopUnregister in rest <==> rest != [])
  {
    hide UndoList, Ascending;
    var rest, last := undo[..|undo| - 1], undo[|undo| - 1];
    UndoSplits(setup, ks, all, undo);
    assert forall x :: x in undo <==> x in rest || x == last;
    var got := ApplyUndo(setup, Built(setup, before, u, undo), units, u, last);
    assert got.att == Built(setup, before, u, rest).att;
  }

  lemma RollingKeeps(setup: Setup, s: Local, c: Choice)
    requires At(setup, s) && Made(setup, s.view, s.units) && s.thread.pc.Rolling? && s.thread.pc.undo != []
    ensures Kept(setup, s, AdoptStep(setup, s, c))
  {
    hide ApplyUndo, Outcome, Undone, UndoList, AttachTrace, RollingTrace, Ascending;
    var ks, all, undo := s.thread.pc.unwires, s.thread.pc.all, s.thread.pc.undo;
    RollingTraceStep(setup, s.thread.trace, ks, all, undo);
    assert undo[0] == StopUnregister && undo[..|undo| - 1] <= all;
    UndoneView(setup, s.thread.before, s.units, s.thread.unit, ks, all, undo);
  }

  lemma RollingTraceStep(setup: Setup, trace: seq<Act>, ks: seq<nat>, all: seq<Undo>, undo: seq<Undo>)
    requires RollingTrace(setup, trace, ks, all, |undo|) && undo != [] && undo <= all
    ensures all[0] == StopUnregister && Ascending(ks) && (all == [StopUnregister] || all == UndoList(setup, ks))
    ensures RollingTrace(setup, trace + [Undid(undo[|undo| - 1])], ks, all, |undo| - 1)
  {
    assert all[0] == StopUnregister by { hide Undone, AttachTrace; }
    hide UndoList, AttachTrace, Ascending;
    var last := undo[|undo| - 1];
    assert Undone(all, |undo| - 1) == Undone(all, |undo|) + [Undid(last)];
    assert [Registered] + (Undone(all, |undo|) + [Undid(last)]) == ([Registered] + Undone(all, |undo|)) + [Undid(last)];
    var taken := AttachTrace(setup, ks);
    assert taken + (Undone(all, |undo|) + [Undid(last)]) == (taken + Undone(all, |undo|)) + [Undid(last)];
  }

  // ---------------------------------------------------------------------------------------

  lemma RemoveLockedKeeps(setup: Setup, s: Local, c: Choice)
    requires At(setup, s) && Made(setup, s.view, s.units) && s.thread.pc.RemoveLocked?
    ensures Kept(setup, s, RemoveStep(setup, s, c))
  {
  }

  lemma RemoveDrainKeeps(setup: Setup, s: Local, c: Choice)
    requires At(setup, s) && Made(setup, s.view, s.units) && s.thread.pc.RemoveDrain?
    ensures Kept(setup, s, RemoveStep(setup, s, c))
  {
    assert Unwirings([]) == [];
    assert RemoveStep(setup, s, c).view == Unhooked(s.thread.before, s.thread.pc.handle.unwires[..0]);
  }

  lemma RemoveUnwireKeeps(setup: Setup, s: Local, c: Choice)
    requires At(setup, s) && Made(setup, s.view, s.units) && s.thread.pc.RemoveUnwire?
    ensures Kept(setup, s, RemoveStep(setup, s, c))
  {
    hide Quiet, Outcome, DetachHooks;
    var h, i := s.thread.pc.handle, s.thread.pc.next;
    var ks := h.unwires;
    if i < |ks| {
      assert ks[..i + 1] == ks[..i] + [ks[i]];
      assert Unwirings(ks[..i + 1]) == Unwirings(ks[..i]) + [Unwired(ks[i])];
      assert RemoveStep(setup, s, c).view == Unhooked(s.thread.before, ks[..i + 1]);
    } else {
      assert ks[..i] == ks;
      assert s.thread.trace[..1 + |ks|] == s.thread.trace;
    }
  }

  lemma RemoveEvictKeeps(setup: Setup, s: Local, c: Choice)
    requires At(setup, s) && Made(setup, s.view, s.units) && s.thread.pc.RemoveEvict? && s.thread.pc.left > 0
    ensures Kept(setup, s, RemoveStep(setup, s, c))
  {
    hide Outcome, DetachHooks;
    var u, th := s.view.reg.value, s.thread;
    var act := Evicted(s.view.bridge == Some(u), u !in s.units.stopped);
    var n := 1 + |th.pc.handle.unwires|;
    assert act == Evicted(th.before.bridge.Some?, true);
    assert (th.trace + [act])[..n] == th.trace[..n];
    assert (th.trace + [act])[n..] == th.trace[n..] + [act];
  }

  /** Stopping the unit is no substitute for an unwire: what a domain with a detach half holds stays
      attached, and only what it keeps on the unit's own bus goes. */
  lemma SkippedUnwireStays(setup: Setup, v: View, units: Units, u: Unit, k: nat)
    requires k in v.att && k < |setup.hooks|
    ensures k in StopUnit(setup, v, units, u).att <==> setup.hooks[k].detaches
    ensures k in StopUnit(setup, v, units, u).att ==> StopUnit(setup, v, units, u).att[k] == v.att[k]
    ensures StopUnit(setup, v, units, u).reg.None? <==> v.reg.None? || u in units.north
    ensures u in Stopping(units, u).stopped
  {
  }

  /** After the unwires, what `Unit.Stop` leaves of the name is its bridge attachment. */
  lemma StoppedView(setup: Setup, units: Units, before: View, h: Handle)
    requires Quiet(setup, units, before) && HandleFor(setup, before, h)
    ensures StopUnit(setup, Unhooked(before, h.unwires), units, h.unit) == NOTHING.(bridge := before.bridge)
  {
    var v := StopUnit(setup, Unhooked(before, h.unwires), units, h.unit);
    forall k: nat ensures k !in v.att {
      if k in before.att && k < |setup.hooks| && setup.hooks[k].detaches {
        assert k in h.unwires;
      }
    }
    assert v.att == map[];
  }

  lemma StopKeeps(setup: Setup, s: Local, c: Choice)
    requires At(setup, s) && Made(setup, s.view, s.units) && s.thread.pc.RemoveEvict? && s.thread.pc.left == 0
    ensures Kept(setup, s, RemoveStep(setup, s, c))
  {
    hide StopUnit, DetachHooks, Outcome, DrainedTo;
    StoppedView(setup, s.units, s.thread.before, s.thread.pc.handle);
    assert (s.thread.trace + [Stopped])[..|s.thread.trace|] == s.thread.trace;
  }

  lemma RemoveDetachKeeps(setup: Setup, s: Local, c: Choice)
    requires At(setup, s) && Made(setup, s.view, s.units) && s.thread.pc.RemoveDetach?
    ensures Kept(setup, s, RemoveStep(setup, s, c))
  {
    hide DetachHooks, Outcome, DrainedTo;
    var tr := s.thread.trace;
    var n := |tr| - 1;
    if s.thread.pc.handle.bridge {
      var tr2 := tr + [Detached];
      assert tr2[..n] == tr[..n] && tr2[n..] == [Stopped, Detached];
    } else {
      assert tr + [] == tr && tr[n..] == [Stopped];
    }
  }

  lemma RemovePurgeKeeps(setup: Setup, s: Local, c: Choice)
    requires At(setup, s) && Made(setup, s.view, s.units) && s.thread.pc.RemovePurge?
    ensures Kept(setup, s, RemoveStep(setup, s, c))
  {
    hide DetachHooks, DetachedTo;
    var tr := s.thread.trace + [Purged];
    assert tr[..|tr| - 1] == s.thread.trace;
    assert RemovedTrace(setup, s.thread.before, s.thread.pc.handle, tr, s.thread.devices);
  }
}
