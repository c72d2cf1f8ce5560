/** The orchestrator's two calls run alone, on the maps they update, and the administration of the
    persisted rows on top of them. */
module Orchestrator {
  import opened Options
  import opened Lifecycle
  import opened LifecycleProofs
  import opened LifecycleRuns

  /** What the callees of one adopt do: fail to build or to start the unit, and which of the domains
      that attach hand back an unwire. */
  datatype Env = Env(newFails: bool, startFails: bool, hooked: set<nat>)

  /** The unwires of exactly the first n domains that attach and hand one back. */
  ghost predicate Attached(hooks: seq<Hook>, env: Env, unwires: seq<nat>, n: nat) {
    forall k: nat :: k in unwires <==> k < n && k < |hooks| && hooks[k].attaches && k in env.hooked
  }

  class CentralOrchestrator {
    const setup: Setup
    var reg: map<Name, Unit>
    var handles: map<Name, Handle>
    var bring: map<Name, Unit>
    var bridge: map<Name, Unit>
    var att: map<Name, map<nat, Unit>>
    var rows: map<Name, nat>
    var units: Units

    ghost function View(n: Name): View
      reads this
    {
      Lifecycle.View(Get(reg, n), Get(handles, n), Get(bring, n), Get(bridge, n), if n in att then att[n] else map[])
    }

    ghost function State(th: Thread): Local
      reads this
    {
      Local(View(th.name), Get(rows, th.name), units, th)
    }

    ghost predicate Valid()
      reads this
    {
      && Made(setup, NOTHING, units)
      && (forall n, m :: n in reg && m in reg && reg[n] == reg[m] ==> n == m)
      && (forall n :: Quiet(setup, units, View(n)))
    }

    /** Everything kept under the other names. */
    ghost function Rest(name: Name): imap<Name, (View, Option<nat>)>
      reads this
    {
      imap m: Name | m != name :: (View(m), Get(rows, m))
    }

    /** `Unit.Stop`. */
    method StopUnit(name: Name, unit: Unit)
      modifies this`reg, this`att, this`units
      ensures units == Stopping(old(units), unit)
      ensures View(name) == Lifecycle.StopUnit(setup, old(View(name)), old(units), unit)
      ensures Rest(name) == old(Rest(name))
    {
      var held := if name in att then att[name] else map[];
      att := att[name := map k: nat | k in held && k < |setup.hooks| && setup.hooks[k].detaches :: held[k]];
      reg := if unit in units.north then reg - {name} else reg;
      units := units.(stopped := units.stopped + {unit});
    }

    method UndoOne(name: Name, unit: Unit, undo: Undo)
      modifies this`reg, this`bridge, this`att, this`units
      ensures units == if undo == StopUnregister then Stopping(old(units), unit) else old(units)
      ensures View(name) == ApplyUndo(setup, old(View(name)), old(units), unit, undo)
      ensures Rest(name) == old(Rest(name))
    {
      match undo {
        case StopUnregister =>
          StopUnit(name, unit);
          reg := reg - {name};
        case Unwire(k) =>
          att := att[name := (if name in att then att[name] else map[]) - {k}];
        case DetachBridge =>
          bridge := bridge - {name};
      }
    }

    /** Runs the undo list backwards. */
    method Rollback(name: Name, unit: Unit, unwires: seq<nat>, undo: seq<Undo>, ghost th: Thread) returns (ghost end: Thread)
      requires th.name == name && th.unit == unit && th.pc == Rolling(unwires, undo, undo)
      requires At(setup, State(th)) && Made(setup, View(name), units)
      modifies this`reg, this`bridge, this`att, this`units
      ensures end.name == name && end.before == th.before && end.devices == th.devices && end.pc == Release(AdoptFailed)
      ensures At(setup, State(end)) && Made(setup, View(name), units)
      ensures Rest(name) == old(Rest(name))
      ensures Marked(old(units), units, unit)
    {
      hide At, Made, ApplyUndo, Quiet, Stopping;
      end := th;
      var i := |undo|;
      assert undo[..i] == undo;
      while i > 0
        invariant 0 <= i <= |undo|
        invariant end == th.(pc := Rolling(unwires, undo, undo[..i]), trace := end.trace)
        invariant At(setup, State(end)) && Made(setup, View(name), units)
        invariant Rest(name) == old(Rest(name))
        invariant Marked(old(units), units, unit)
      {
        ghost var s := State(end);
        ghost var c := Choice(false, 0);
        RollingKeeps(setup, s, c);
        i := i - 1;
        assert undo[..i + 1][..i] == undo[..i];
        RollingEffect(setup, s, c, undo, i);
        UndoOne(name, unit, undo[i]);
        end := AdoptStep(setup, s, c).thread;
        assert State(end) == AdoptStep(setup, s, c);
      }
      RolledBack(setup, State(end), Choice(false, 0));
      end := AdoptStep(setup, State(end), Choice(false, 0)).thread;
    }
  
    method AttachBridge(name: Name, unit: Unit, ghost th: Thread) returns (ghost end: Thread)
      requires th.name == name && th.unit == unit && th.pc.AdoptStarted?
      requires At(setup, State(th)) && Made(setup, View(name), units)
      modifies this`bridge
      ensures end == th.(pc := AdoptHook(0, []), trace := end.trace)
      ensures At(setup, State(end)) && Made(setup, View(name), units)
      ensures Rest(name) == old(Rest(name))
    {
      hide At, Made, Quiet;
      ghost var s := State(th);
      AdoptStartedKeeps(setup, s, Choice(false, 0));
      if setup.bridgeOn {
        bridge := bridge[name := unit];
      }
      end := AdoptStep(setup, s, Choice(false, 0)).thread;
      assert State(end) == AdoptStep(setup, s, Choice(false, 0));
    }

    /** Attaches the bridge, then every domain in order; keeps the unwires of those that return one. */
    method AttachCentralHooks(name: Name, unit: Unit, env: Env, ghost th: Thread) returns (unwires: seq<nat>, ghost end: Thread)
      requires th.name == name && th.unit == unit && th.pc.AdoptStarted?
      requires At(setup, State(th)) && Made(setup, View(name), units)
      modifies this`bridge, this`att
      ensures end == th.(pc := AdoptHook(|setup.hooks|, unwires), trace := end.trace)
      ensures Attached(setup.hooks, env, unwires, |setup.hooks|)
      ensures At(setup, State(end)) && Made(setup, View(name), units)
      ensures Rest(name) == old(Rest(name)) && Get(bring, name) == old(Get(bring, name))
    {
      hide At, Made, Quiet;
      ghost var s;
      unwires := [];
      end := AttachBridge(name, unit, th);
      var i := 0;
      while i < |setup.hooks|
        invariant 0 <= i <= |setup.hooks|
        invariant end == th.(pc := AdoptHook(i, unwires), trace := end.trace)
        invariant Attached(setup.hooks, env, unwires, i)
        invariant At(setup, State(end)) && Made(setup, View(name), units)
        invariant Rest(name) == old(Rest(name)) && Get(bring, name) == old(Get(bring, name))
      {
        s := State(end);
        ghost var c := Choice(i !in env.hooked, 0);
        AdoptHookKeeps(setup, s, c);
        AttachOne(name, unit, i, setup.hooks[i].attaches && i in env.hooked);
        if setup.hooks[i].attaches && i in env.hooked {
          unwires := unwires + [i];
        }
        end := AdoptStep(setup, s, c).thread;
        assert State(end) == AdoptStep(setup, s, c);
        i := i + 1;
      }
    }

    method AttachOne(name: Name, unit: Unit, hook: nat, attaches: bool)
      modifies this`att
      ensures View(name) == (if attaches then old(View(name)).(att := old(View(name)).att[hook := unit]) else old(View(name)))
      ensures Rest(name) == old(Rest(name))
    {
      if attaches {
        att := att[name := (if name in att then att[name] else map[])[hook := unit]];
      }
    }

    /** Registers a new unit under the name. */
    method Register(name: Name, ghost th: Thread) returns (unit: Unit, ghost end: Thread)
      requires th.name == name && th.pc.AdoptLocked? && name !in reg
      requires At(setup, State(th)) && Made(setup, View(name), units)
      modifies this`reg, this`units
      ensures unit == old(units.next) && Get(reg, name) == Some(unit) && end == th.(pc := AdoptRegistered, unit := unit, trace := end.trace)
      ensures At(setup, State(end)) && Made(setup, View(name), units)
      ensures Rest(name) == old(Rest(name)) && Get(bring, name) == old(Get(bring, name)) && Marked(old(units), units, unit)
    {
      hide At, Made, Quiet;
      ghost var s := State(th);
      AdoptLockedKeeps(setup, s, Choice(false, 0));
      unit := units.next;
      units := units.(next := unit + 1);
      reg := reg[name := unit];
      end := AdoptStep(setup, s, Choice(false, 0)).thread;
      assert State(end) == AdoptStep(setup, s, Choice(false, 0));
    }

    /** Bring-up takes the name on. */
    method AddCentral(name: Name, unit: Unit, unwires: seq<nat>, ghost th: Thread) returns (ghost end: Thread)
      requires th.name == name && th.unit == unit && th.pc == AdoptHook(|setup.hooks|, unwires) && name !in bring
      requires At(setup, State(th)) && Made(setup, View(name), units)
      modifies this`bring
      ensures end == th.(pc := AdoptNorth(unwires), trace := end.trace)
      ensures At(setup, State(end)) && Made(setup, View(name), units)
      ensures Rest(name) == old(Rest(name))
    {
      hide At, Made, Quiet;
      ghost var s, c := State(th), Choice(false, 0);
      AdoptHookKeeps(setup, s, c);
      bring := bring[name := unit];
      end := AdoptStep(setup, s, c).thread;
      assert State(end) == AdoptStep(setup, s, c);
    }

    /** North-bound wiring, and the handle, published last. */
    method Publish(name: Name, unit: Unit, unwires: seq<nat>, ghost th: Thread) returns (ghost end: Thread)
      requires th.name == name && th.unit == unit && th.pc == AdoptNorth(unwires)
      requires At(setup, State(th)) && Made(setup, View(name), units)
      modifies this`handles, this`units
      ensures end == th.(pc := Release(Adopted), trace := end.trace)
      ensures At(setup, State(end)) && Made(setup, View(name), units)
      ensures Rest(name) == old(Rest(name)) && Marked(old(units), units, unit)
      ensures Get(handles, name) == Some(Handle(unit, unwires, setup.bridgeOn))
    {
      hide At, Made, Quiet;
      ghost var s, c := State(th), Choice(false, 0);
      AdoptNorthKeeps(setup, s, c);
      units := units.(north := units.north + {unit});
      end := AdoptStep(setup, s, c).thread;
      assert State(end) == AdoptStep(setup, s, c);
      s := State(end);
      AdoptPublishKeeps(setup, s, c);
      handles := handles[name := Handle(unit, unwires, setup.bridgeOn)];
      end := AdoptStep(setup, s, c).thread;
      assert State(end) == AdoptStep(setup, s, c);
    }

    lemma ValidGives(n: Name)
      requires Valid()
      ensures Made(setup, NOTHING, units) && Quiet(setup, units, View(n))
      ensures forall m :: m in reg ==> reg[m] < units.next
      ensures setup.boot <= units.next
    {
      forall m | m in reg ensures reg[m] < units.next {
        assert Quiet(setup, units, View(m));
      }
    }

    /** The unit does not start: everything so far is undone. */
    method AbandonStart(name: Name, unit: Unit, ghost th: Thread) returns (ghost end: Thread)
      requires th.name == name && th.unit == unit && th.pc == AdoptRegistered
      requires At(setup, State(th)) && Made(setup, View(name), units)
      modifies this`reg, this`bridge, this`att, this`units
      ensures end.name == name && end.before == th.before && end.devices == th.devices && end.pc == Release(AdoptFailed)
      ensures At(setup, State(end)) && Made(setup, View(name), units)
      ensures Rest(name) == old(Rest(name)) && Marked(old(units), units, unit)
    {
      hide At, Made, Quiet, Marked, Rest;
      ghost var s, c := State(th), Choice(true, 0);
      AdoptRegisteredKeeps(setup, s, c);
      end := AdoptStep(setup, s, c).thread;
      assert State(end) == AdoptStep(setup, s, c);
      end := Rollback(name, unit, [], [StopUnregister], end);
    }

    /** Bring-up knows the name already: everything so far is undone. */
    method AbandonHooks(name: Name, unit: Unit, unwires: seq<nat>, ghost th: Thread) returns (ghost end: Thread)
      requires th.name == name && th.unit == unit && th.pc == AdoptHook(|setup.hooks|, unwires) && name in bring
      requires At(setup, State(th)) && Made(setup, View(name), units)
      modifies this`reg, this`bridge, this`att, this`units
      ensures end.name == name && end.before == th.before && end.devices == th.devices && end.pc == Release(AdoptFailed)
      ensures At(setup, State(end)) && Made(setup, View(name), units)
      ensures Rest(name) == old(Rest(name)) && Marked(old(units), units, unit)
    {
      hide At, Made, Quiet, Marked, Rest, UndoList;
      ghost var s, c := State(th), Choice(false, 0);
      AdoptHookKeeps(setup, s, c);
      end := AdoptStep(setup, s, c).thread;
      assert State(end) == AdoptStep(setup, s, c);
      end := Rollback(name, unit, unwires, UndoList(setup, unwires), end);
    }

    method Start(name: Name, unit: Unit, ghost th: Thread) returns (ghost end: Thread)
      requires th.name == name && th.unit == unit && th.pc == AdoptRegistered
      requires At(setup, State(th)) && Made(setup, View(name), units)
      ensures end == th.(pc := AdoptStarted, trace := end.trace)
      ensures At(setup, State(end)) && Made(setup, View(name), units)
    {
      hide At, Made, Quiet;
      ghost var s, c := State(th), Choice(false, 0);
      AdoptRegisteredKeeps(setup, s, c);
      end := AdoptStep(setup, s, c).thread;
      assert State(end) == AdoptStep(setup, s, c);
    }

    /** From the registration on: start, attach, bring up, publish; on a failure, undo. */
    method BringUp(name: Name, unit: Unit, env: Env, ghost th: Thread) returns (ok: bool, ghost end: Thread)
      requires th.name == name && th.unit == unit && th.pc == AdoptRegistered
      requires At(setup, State(th)) && Made(setup, View(name), units)
      modifies this`reg, this`handles, this`bring, this`bridge, this`att, this`units
      ensures end.name == name && end.before == th.before && end.devices == th.devices
      ensures end.pc == Release(if ok then Adopted else AdoptFailed)
      ensures At(setup, State(end)) && Made(setup, View(name), units)
      ensures Rest(name) == old(Rest(name)) && Marked(old(units), units, unit)
      ensures ok <==> !env.startFails && old(name !in bring)
      ensures ok ==> Get(reg, name) == old(Get(reg, name))
      ensures ok ==> name in handles && Attached(setup.hooks, env, handles[name].unwires, |setup.hooks|)
    {
      hide At, Made, Quiet, Marked, Rest, Attached, UndoList;
      if env.startFails {
        end := AbandonStart(name, unit, th);
        return false, end;
      }
      end := Start(name, unit, th);
      var unwires;
      unwires, end := AttachCentralHooks(name, unit, env, end);
      if name in bring {
        end := AbandonHooks(name, unit, unwires, end);
        return false, end;
      }
      end := AddCentral(name, unit, unwires, end);
      end := Publish(name, unit, unwires, end);
      ok := true;
    }

    /** The whole call, from taking the name's lock to letting it go. */
    method Locked(name: Name, env: Env, ghost th: Thread) returns (ok: bool, ghost end: Thread)
      requires th.name == name && th.pc.AdoptLocked? && At(setup, State(th)) && Made(setup, View(name), units)
      modifies this`reg, this`handles, this`bring, this`bridge, this`att, this`units
      ensures end.name == name && end.before == th.before && end.devices == th.devices
      ensures end.pc == Release(if ok then Adopted else AdoptFailed)
      ensures At(setup, State(end)) && Made(setup, View(name), units)
      ensures Rest(name) == old(Rest(name)) && Marked(old(units), units, old(units.next))
      ensures ok <==> !env.newFails && !env.startFails && old(name !in reg) && old(name !in bring)
      ensures ok ==> Get(reg, name) == Some(old(units.next))
      ensures ok ==> name in handles && Attached(setup.hooks, env, handles[name].unwires, |setup.hooks|)
    {
      hide At, Quiet, Made, Attached;
      if env.newFails || name in reg {
        ghost var s := State(th);
        AdoptLockedKeeps(setup, s, Choice(true, 0));
        end := AdoptStep(setup, s, Choice(true, 0)).thread;
        assert State(end) == AdoptStep(setup, s, Choice(true, 0));
        return false, end;
      }
      var unit;
      unit, end := Register(name, th);
      ok, end := BringUp(name, unit, env, end);
    }

    /** Adopts a central: all of it, or nothing. */
    method AdoptCentral(name: Name, env: Env) returns (ok: bool, ghost trace: seq<Act>)
      requires Valid()
      modifies this
      ensures Valid() && Rest(name) == old(Rest(name)) && rows == old(rows)
      ensures Outcome(setup, if ok then Adopted else AdoptFailed, old(View(name)), View(name), trace, 0)
      ensures ok ==> name in handles && Attached(setup.hooks, env, handles[name].unwires, |setup.hooks|)
      ensures ok <==> name.text != "" && !env.newFails && !env.startFails && old(name !in reg) && old(name !in bring)
    {
      hide At, Quiet, Outcome;
      ValidGives(name);
      if name.text == "" {
        NothingDone(setup, View(name), 0);
        return false, [];
      }
      ghost var th := Thread(name, AdoptLocked, 0, View(name), NOTHING, [], 0);
      ghost var unit := units.next;
      ValidStart(setup, units, View(name), State(th));
      ok, th := Locked(name, env, th);
      trace := th.trace;
      ReleasedSays(setup, State(th));
      if !ok {
        FailedSays(setup, old(View(name)), View(name), trace, th.devices);
      }
      forall m | m != name ensures Get(reg, m) == Get(old(reg), m) {
        assert Rest(name)[m].0.reg == old(Rest(name))[m].0.reg;
      }
      RegsDiffer(old(reg), reg, name, unit);
      forall m | m != name ensures Quiet(setup, units, View(m)) {
        assert View(m) == Rest(name)[m].0 == old(Rest(name))[m].0 == old(View(m));
        QuietMarked(setup, old(units), units, unit, old(View(m)));
      }
    }

    /** Takes the name's handle, or makes one up for a central the boot path registered. */
    method TakeHandle(name: Name, ghost th: Thread) returns (handle: Option<Handle>, ghost end: Thread)
      requires th.name == name && th.pc.RemoveLocked? && At(setup, State(th)) && Made(setup, View(name), units)
      modifies this`handles
      ensures end == th.(pc := if handle.Some? then RemoveDrain(handle.value) else Release(NotLive), trace := end.trace)
      ensures At(setup, State(end)) && Made(setup, View(name), units)
      ensures Rest(name) == old(Rest(name))
      ensures handle.Some? <==> old(name in handles || name in reg)
    {
      hide At, Made, Quiet, DetachHooks;
      ghost var s, c := State(th), Choice(false, 0);
      RemoveLockedKeeps(setup, s, c);
      if name in handles {
        handle := Some(handles[name]);
        handles := handles - {name};
      } else if name in reg {
        handle := Some(Handle(reg[name], DetachHooks(setup.hooks), setup.bridgeOn));
      } else {
        handle := None;
      }
      end := RemoveStep(setup, s, c).thread;
      assert State(end) == RemoveStep(setup, s, c);
    }

    /** Drains the southbound side. */
    method Drain(name: Name, handle: Handle, ghost th: Thread) returns (ghost end: Thread)
      requires th.name == name && th.pc == RemoveDrain(handle) && At(setup, State(th)) && Made(setup, View(name), units)
      modifies this`bring
      ensures end == th.(pc := RemoveUnwire(handle, 0), trace := end.trace)
      ensures At(setup, State(end)) && Made(setup, View(name), units)
      ensures Rest(name) == old(Rest(name))
    {
      hide At, Made, Quiet, DetachHooks;
      ghost var s, c := State(th), Choice(false, 0);
      RemoveDrainKeeps(setup, s, c);
      bring := bring - {name};
      end := RemoveStep(setup, s, c).thread;
      assert State(end) == RemoveStep(setup, s, c);
    }

    /** Runs every unwire in attach order. */
    method RunUnwires(name: Name, handle: Handle, devices: nat, ghost th: Thread) returns (ghost end: Thread)
      requires th.name == name && th.pc == RemoveUnwire(handle, 0) && At(setup, State(th)) && Made(setup, View(name), units)
      modifies this`att
      ensures end == th.(pc := if name in reg then RemoveEvict(handle, devices) else RemoveDetach(handle), trace := end.trace,
                         devices := devices)
      ensures At(setup, State(end)) && Made(setup, View(name), units)
      ensures Rest(name) == old(Rest(name))
    {
      hide At, Made, Quiet, DetachHooks;
      ghost var c := Choice(false, devices);
      end := th;
      var i := 0;
      while i < |handle.unwires|
        invariant 0 <= i <= |handle.unwires|
        invariant end == th.(pc := RemoveUnwire(handle, i), trace := end.trace)
        invariant At(setup, State(end)) && Made(setup, View(name), units)
        invariant Rest(name) == old(Rest(name))
      {
        ghost var s := State(end);
        RemoveUnwireKeeps(setup, s, c);
        UnwireOne(name, handle.unwires[i]);
        end := RemoveStep(setup, s, c).thread;
        assert State(end) == RemoveStep(setup, s, c);
        i := i + 1;
      }
      ghost var s := State(end);
      RemoveUnwireKeeps(setup, s, c);
      end := RemoveStep(setup, s, c).thread;
      assert State(end) == RemoveStep(setup, s, c);
    }

    method UnwireOne(name: Name, hook: nat)
      modifies this`att
      ensures View(name) == old(View(name)).(att := old(View(name)).att - {hook})
      ensures Rest(name) == old(Rest(name))
    {
      att := att[name := (if name in att then att[name] else map[]) - {hook}];
    }

    /** Evicts every device of the model, then stops the unit. */
    method EvictAndStop(name: Name, handle: Handle, devices: nat, ghost th: Thread) returns (ghost end: Thread)
      requires th.name == name && th.pc == RemoveEvict(handle, devices) && name in reg
      requires At(setup, State(th)) && Made(setup, View(name), units)
      modifies this`reg, this`att, this`units
      ensures end == th.(pc := RemoveDetach(handle), trace := end.trace)
      ensures At(setup, State(end)) && Made(setup, View(name), units)
      ensures Rest(name) == old(Rest(name)) && Marked(old(units), units, old(reg[name]))
    {
      hide At, Made, Quiet, DetachHooks, Lifecycle.StopUnit;
      end := th;
      ghost var c := Choice(false, 0);
      var left := devices;
      while left > 0
        invariant end == th.(pc := RemoveEvict(handle, left), trace := end.trace)
        invariant At(setup, State(end)) && Made(setup, View(name), units)
        invariant Rest(name) == old(Rest(name)) && units == old(units) && reg == old(reg)
      {
        ghost var s := State(end);
        RemoveEvictKeeps(setup, s, c);
        end := RemoveStep(setup, s, c).thread;
        assert State(end) == RemoveStep(setup, s, c);
        left := left - 1;
      }
      ghost var s := State(end);
      StopKeeps(setup, s, c);
      StopUnit(name, reg[name]);
      end := RemoveStep(setup, s, c).thread;
      assert State(end) == RemoveStep(setup, s, c);
    }

    method Detach(name: Name, handle: Handle, ghost th: Thread) returns (ghost end: Thread)
      requires th.name == name && th.pc == RemoveDetach(handle) && At(setup, State(th)) && Made(setup, View(name), units)
      modifies this`bridge
      ensures end == th.(pc := RemovePurge(handle), trace := end.trace)
      ensures At(setup, State(end)) && Made(setup, View(name), units)
      ensures Rest(name) == old(Rest(name))
    {
      hide At, Made, Quiet, DetachHooks;
      ghost var s, c := State(th), Choice(false, 0);
      RemoveDetachKeeps(setup, s, c);
      if handle.bridge {
        bridge := bridge - {name};
      }
      end := RemoveStep(setup, s, c).thread;
      assert State(end) == RemoveStep(setup, s, c);
    }

    method Purge(name: Name, handle: Handle, ghost th: Thread) returns (ghost end: Thread)
      requires th.name == name && th.pc == RemovePurge(handle) && At(setup, State(th)) && Made(setup, View(name), units)
      modifies this`rows
      ensures end == th.(pc := Release(Removed), trace := end.trace)
      ensures At(setup, State(end)) && Made(setup, View(name), units)
      ensures Rest(name) == old(Rest(name))
    {
      hide At, Made, Quiet, DetachHooks;
      ghost var s, c := State(th), Choice(false, 0);
      RemovePurgeKeeps(setup, s, c);
      rows := rows - {name};
      end := RemoveStep(setup, s, c).thread;
      assert State(end) == RemoveStep(setup, s, c);
    }

    method DetachAndPurge(name: Name, handle: Handle, ghost th: Thread) returns (ghost end: Thread)
      requires th.name == name && th.pc == RemoveDetach(handle) && At(setup, State(th)) && Made(setup, View(name), units)
      modifies this`bridge, this`rows
      ensures end == th.(pc := Release(Removed), trace := end.trace)
      ensures At(setup, State(end)) && Made(setup, View(name), units)
      ensures Rest(name) == old(Rest(name))
    {
      hide At, Made, Rest;
      end := Detach(name, handle, th);
      end := Purge(name, handle, end);
    }

    method DrainAndUnwire(name: Name, handle: Handle, devices: nat, ghost th: Thread) returns (ghost end: Thread)
      requires th.name == name && th.pc == RemoveDrain(handle) && name in reg
      requires At(setup, State(th)) && Made(setup, View(name), units)
      modifies this`bring, this`att
      ensures end == th.(pc := RemoveEvict(handle, devices), devices := devices, trace := end.trace)
      ensures At(setup, State(end)) && Made(setup, View(name), units)
      ensures Rest(name) == old(Rest(name))
    {
      hide At, Made, Rest;
      end := Drain(name, handle, th);
      end := RunUnwires(name, handle, devices, end);
    }

    /** The teardown of a handle, in the order that must not be permuted. */
    method TearDown(name: Name, handle: Handle, devices: nat, ghost th: Thread) returns (ghost end: Thread)
      requires th.name == name && th.pc == RemoveDrain(handle) && name in reg
      requires At(setup, State(th)) && Made(setup, View(name), units)
      modifies this`reg, this`bring, this`bridge, this`att, this`rows, this`units
      ensures end.name == name && end.before == th.before && end.devices == devices && end.pc == Release(Removed)
      ensures At(setup, State(end)) && Made(setup, View(name), units)
      ensures Rest(name) == old(Rest(name)) && Marked(old(units), units, old(reg[name]))
    {
      hide At, Made, Quiet, Marked, DetachHooks, Rest;
      end := DrainAndUnwire(name, handle, devices, th);
      end := EvictAndStop(name, handle, devices, end);
      end := DetachAndPurge(name, handle, end);
    }

    /** The whole call, from taking the name's lock to letting it go. */
    method LockedRemove(name: Name, devices: nat, ghost th: Thread) returns (live: bool, ghost end: Thread)
      requires th.name == name && th.pc.RemoveLocked? && At(setup, State(th)) && Made(setup, View(name), units)
      requires name in handles ==> name in reg
      modifies this`reg, this`handles, this`bring, this`bridge, this`att, this`rows, this`units
      ensures end.name == name && end.before == th.before && end.devices == (if live then devices else th.devices)
      ensures end.pc == Release(if live then Removed else NotLive)
      ensures At(setup, State(end)) && Made(setup, View(name), units)
      ensures Rest(name) == old(Rest(name)) && (live <==> old(name in reg))
      ensures if live then Marked(old(units), units, old(reg[name])) else units == old(units) && reg == old(reg)
    {
      hide At, Made, Quiet, Marked;
      var handle;
      handle, end := TakeHandle(name, th);
      live := handle.Some?;
      if live {
        end := TearDown(name, handle.value, devices, end);
      }
    }

    /** Tears a central down; reports whether there was one. */
    method RemoveCentral(name: Name, devices: nat) returns (live: bool, ghost trace: seq<Act>)
      requires Valid()
      modifies this
      ensures Valid() && Rest(name) == old(Rest(name))
      ensures live <==> old(name in reg)
      ensures Outcome(setup, if live then Removed else NotLive, old(View(name)), View(name), trace, if live then devices else 0)
      ensures live ==> name !in rows
    {
      hide At, Quiet, Outcome;
      ValidGives(name);
      ghost var th := Thread(name, RemoveLocked, 0, View(name), NOTHING, [], 0);
      ValidStart(setup, units, View(name), State(th));
      HandleMeansLive(setup, units, View(name));
      ghost var unit := if name in reg then reg[name] else units.next;
      live, th := LockedRemove(name, devices, th);
      trace := th.trace;
      ReleasedSays(setup, State(th));
      if live {
        RemovedSays(setup, old(View(name)), View(name), trace, th.devices);
      }
      forall m | m != name ensures Get(reg, m) == Get(old(reg), m) {
        assert Rest(name)[m].0.reg == old(Rest(name))[m].0.reg;
      }
      RegsDiffer(old(reg), reg, name, unit);
      forall m | m != name ensures Quiet(setup, units, View(m)) {
        assert View(m) == Rest(name)[m].0 == old(Rest(name))[m].0 == old(View(m));
        assert old(View(m)).reg == Get(old(reg), m);
        QuietMarked(setup, old(units), units, unit, old(View(m)));
      }
    }
  }

  /** From units to units2 no unit but u was stopped or wired. */
  ghost predicate Marked(units: Units, units2: Units, u: Unit) {
    && units.next <= units2.next
    && units.north <= units2.north <= units.north + {u} && units.stopped <= units2.stopped <= units.stopped + {u}
  }

  lemma QuietMarked(setup: Setup, units: Units, units2: Units, u: Unit, v: View)
    requires Quiet(setup, units, v) && Marked(units, units2, u) && v.reg != Some(u)
    ensures Quiet(setup, units2, v)
  {
  }

  /** Registering a new unit, or unregistering one, keeps the registered units apart. */
  lemma RegsDiffer(reg: map<Name, Unit>, reg2: map<Name, Unit>, name: Name, u: Unit)
    requires forall n, m :: n in reg && m in reg && reg[n] == reg[m] ==> n == m
    requires forall m :: m != name ==> Get(reg2, m) == Get(reg, m)
    requires forall m :: m != name && m in reg ==> reg[m] != u
    requires name in reg2 ==> reg2[name] == u || Get(reg, name) == Some(reg2[name])
    ensures forall n, m :: n in reg2 && m in reg2 && reg2[n] == reg2[m] ==> n == m
  {
    forall m | m in reg2 && m != name ensures m in reg && reg2[m] == reg[m] {
      assert Get(reg2, m) == Get(reg, m);
    }
  }

  lemma RollingEffect(setup: Setup, s: Local, c: Choice, undo: seq<Undo>, i: nat)
    requires s.thread.pc.Rolling? && i < |undo| && s.thread.pc.undo == undo[..i + 1] && s.thread.pc.all == undo
    ensures var s2 := AdoptStep(setup, s, c);
      && s2.view == ApplyUndo(setup, s.view, s.units, s.thread.unit, undo[i])
      && s2.units == (if undo[i] == StopUnregister then Stopping(s.units, s.thread.unit) else s.units)
      && s2.rows == s.rows
      && s2.thread == s.thread.(pc := Rolling(s.thread.pc.unwires, undo, undo[..i]), trace := s2.thread.trace)
      && Marked(s.units, s2.units, s.thread.unit)
  {
    assert undo[..i + 1][..i] == undo[..i];
  }

  lemma ValidStart(setup: Setup, units: Units, v: View, s: Local)
    requires Made(setup, NOTHING, units) && Quiet(setup, units, v)
    requires s.view == v == s.thread.before && s.units == units && s.thread.trace == []
    requires s.thread.pc.AdoptLocked? || s.thread.pc.RemoveLocked?
    ensures At(setup, s) && Made(setup, v, units)
  {
  }

  lemma FailedSays(setup: Setup, before: View, after: View, trace: seq<Act>, devices: nat)
    requires Outcome(setup, AdoptFailed, before, after, trace, devices)
    ensures after == before
  {
  }

  lemma ReleasedSays(setup: Setup, s: Local)
    requires At(setup, s) && s.thread.pc.Release?
    ensures Quiet(setup, s.units, s.view) && Outcome(setup, s.thread.pc.result, s.thread.before, s.view, s.thread.trace, s.thread.devices)
    ensures s.thread.pc.result.Removed? ==> s.rows.None?
  {
  }

  lemma HandleMeansLive(setup: Setup, units: Units, v: View)
    requires Quiet(setup, units, v)
    ensures v.handle.Some? ==> v.reg.Some?
  {
  }

  lemma RemovedSays(setup: Setup, before: View, after: View, trace: seq<Act>, devices: nat)
    requires Outcome(setup, Removed, before, after, trace, devices)
    ensures after == NOTHING
  {
  }
}
