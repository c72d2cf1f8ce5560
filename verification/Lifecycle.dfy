/** Live adopt and remove of centrals as a step relation: any number of calls, over any names, each
    holding its name's lifecycle lock, interleaved one atomic action at a time. */
module Lifecycle {
  import opened Options

  datatype Name = Name(text: string)
  type Unit = nat
  type Tid = nat

  /** One per-central domain: whether it has an attach half and a detach half. What a domain
      without a detach half holds is a subscription on the unit's own bus. */
  datatype Hook = Hook(attaches: bool, detaches: bool)

  /** The domains in attach order, whether there is an event bridge, and the number of units the
      boot path made: a unit below `boot` was not adopted by the orchestrator. */
  datatype Setup = Setup(hooks: seq<Hook>, bridgeOn: bool, boot: Unit)

  /** What the orchestrator keeps for a central: its unit, the unwires in attach order, and whether
      there is a bridge to detach. */
  datatype Handle = Handle(unit: Unit, unwires: seq<nat>, bridge: bool)

  datatype Undo = StopUnregister | Unwire(hook: nat) | DetachBridge

  /** The visible actions of a call, in the order it takes them. */
  datatype Act =
    | Registered | Bridged | Hooked(hook: nat) | BroughtUp | WiredNorth | Published | Undid(undo: Undo)
    | Drained | Unwired(hook: nat) | Evicted(bridged: bool, busLive: bool) | Stopped | Detached | Purged

  datatype Result = Adopted | AdoptFailed | Removed | NotLive

  datatype Pc =
    | AdoptStart
    | AdoptLocked
    | AdoptRegistered
    | AdoptStarted
    | AdoptHook(next: nat, unwires: seq<nat>)
    | AdoptNorth(unwires: seq<nat>)
    | AdoptPublish(unwires: seq<nat>)
    | Rolling(unwires: seq<nat>, all: seq<Undo>, undo: seq<Undo>)
    | RemoveStart
    | RemoveLocked
    | RemoveDrain(handle: Handle)
    | RemoveUnwire(handle: Handle, next: nat)
    | RemoveEvict(handle: Handle, left: nat)
    | RemoveDetach(handle: Handle)
    | RemovePurge(handle: Handle)
    | Release(result: Result)
    | Done(result: Result)

  /** Everything shared that is keyed by one central's name. */
  datatype View = View(reg: Option<Unit>, handle: Option<Handle>, bring: Option<Unit>,
                       bridge: Option<Unit>, att: map<nat, Unit>)

  /** A call: `before` is the view of its name when it took the lock, `after` when it let go;
      `devices` is how many devices a remove found in the model. */
  datatype Thread = Thread(name: Name, pc: Pc, unit: Unit, before: View, after: View, trace: seq<Act>, devices: nat)

  /** Shared state keyed by unit: those whose stop hook is installed, and those already stopped. */
  datatype Units = Units(north: set<Unit>, stopped: set<Unit>, next: Unit)

  datatype World = World(
    locks: map<Name, Tid>,
    reg: map<Name, Unit>,
    handles: map<Name, Handle>,
    bring: map<Name, Unit>,
    bridge: map<Name, Unit>,
    att: map<Name, map<nat, Unit>>,
    rows: map<Name, nat>,
    units: Units,
    threads: map<Tid, Thread>)

  /** What a step of one call reads and writes: what is kept under its name, the units, itself. */
  datatype Local = Local(view: View, rows: Option<nat>, units: Units, thread: Thread)

  /** What a step may leave open: whether a fallible callee fails, and how many devices there are. */
  datatype Choice = Choice(fails: bool, count: nat)

  function Get<K, V>(m: map<K, V>, k: K): Option<V> {
    if k in m then Some(m[k]) else None
  }

  function Set<K, V>(m: map<K, V>, k: K, v: Option<V>): map<K, V> {
    if v.Some? then m[k := v.value] else m - {k}
  }

  function ViewOf(w: World, n: Name): View {
    View(Get(w.reg, n), Get(w.handles, n), Get(w.bring, n), Get(w.bridge, n), if n in w.att then w.att[n] else map[])
  }

  function LocalOf(w: World, t: Tid): Local
    requires t in w.threads
  {
    var th := w.threads[t];
    Local(ViewOf(w, th.name), Get(w.rows, th.name), w.units, th)
  }

  /** Writes back what a step of call t left under its name. */
  function Install(w: World, t: Tid, s: Local): World {
    var n := s.thread.name;
    w.(reg := Set(w.reg, n, s.view.reg), handles := Set(w.handles, n, s.view.handle),
       bring := Set(w.bring, n, s.view.bring), bridge := Set(w.bridge, n, s.view.bridge),
       att := w.att[n := s.view.att], rows := Set(w.rows, n, s.rows),
       units := s.units, threads := w.threads[t := s.thread])
  }

  /** The domains a boot-registered central can be torn down with. */
  function DetachHooks(hooks: seq<Hook>): (ks: seq<nat>)
    ensures forall k: nat :: k in ks <==> k < |hooks| && hooks[k].detaches
    ensures Ascending(ks)
  {
    if |hooks| == 0 then []
    else
      var n: nat := |hooks| - 1;
      var ks := DetachHooks(hooks[..n]);
      assert forall i :: 0 <= i < |ks| ==> ks[i] in ks;
      if hooks[n].detaches then ks + [n] else ks
  }

  predicate Ascending(ks: seq<nat>) {
    forall i, j :: 0 <= i < j < |ks| ==> ks[i] < ks[j]
  }

  /** The rollback list: the unit first, then every unwire in attach order, the bridge last. */
  function UndoList(setup: Setup, unwires: seq<nat>): seq<Undo> {
    [StopUnregister] + seq(|unwires|, i requires 0 <= i < |unwires| => Unwire(unwires[i]))
      + (if setup.bridgeOn then [DetachBridge] else [])
  }

  /** What `Unit.Stop` leaves under the unit's name: bus subscriptions go, and the stop hook the
      north-bound wiring installed takes the name out of the registry. */
  function StopUnit(setup: Setup, v: View, units: Units, u: Unit): View {
    v.(att := map k: nat | k in v.att && k < |setup.hooks| && setup.hooks[k].detaches :: v.att[k],
       reg := if u in units.north then None else v.reg)
  }

  function Stopping(units: Units, u: Unit): Units {
    units.(stopped := units.stopped + {u})
  }

  function ApplyUndo(setup: Setup, v: View, units: Units, u: Unit, undo: Undo): View {
    match undo
    case StopUnregister => StopUnit(setup, v, units, u).(reg := None)
    case Unwire(k) => v.(att := v.att - {k})
    case DetachBridge => v.(bridge := None)
  }

  // ---------------------------------------------------------------------------------------
  // One step of one call
  // ---------------------------------------------------------------------------------------

  /** Moves on to pc, having taken the actions acts and left v behind. */
  function Go(s: Local, v: View, pc: Pc, acts: seq<Act>): Local {
    s.(view := v, thread := s.thread.(pc := pc, trace := s.thread.trace + acts))
  }

  function AdoptStep(setup: Setup, s: Local, c: Choice): Local {
    var v, u := s.view, s.thread.unit;
    match s.thread.pc
    case AdoptLocked =>
      if c.fails || v.reg.Some? then Go(s, v, Release(AdoptFailed), [])
      else
        var made := s.units.next;
        var s' := s.(units := s.units.(next := made + 1), thread := s.thread.(unit := made));
        Go(s', v.(reg := Some(made)), AdoptRegistered, [Registered])
    case AdoptRegistered =>
      if c.fails then Go(s, v, Rolling([], [StopUnregister], [StopUnregister]), []) else Go(s, v, AdoptStarted, [])
    case AdoptStarted =>
      if setup.bridgeOn then Go(s, v.(bridge := Some(u)), AdoptHook(0, []), [Bridged]) else Go(s, v, AdoptHook(0, []), [])
    case AdoptHook(i, unwires) =>
      if i < |setup.hooks| then
        if setup.hooks[i].attaches && !c.fails
        then Go(s, v.(att := v.att[i := u]), AdoptHook(i + 1, unwires + [i]), [Hooked(i)])
        else Go(s, v, AdoptHook(i + 1, unwires), [])
      else if v.bring.Some? then Go(s, v, Rolling(unwires, UndoList(setup, unwires), UndoList(setup, unwires)), [])
      else Go(s, v.(bring := Some(u)), AdoptNorth(unwires), [BroughtUp])
    case AdoptNorth(unwires) =>
      Go(s.(units := s.units.(north := s.units.north + {u})), v, AdoptPublish(unwires), [WiredNorth])
    case AdoptPublish(unwires) =>
      Go(s, v.(handle := Some(Handle(u, unwires, setup.bridgeOn))), Release(Adopted), [Published])
    case Rolling(unwires, all, undo) =>
      if undo == [] then Go(s, v, Release(AdoptFailed), [])
      else
        var last := undo[|undo| - 1];
        var after := if last == StopUnregister then Stopping(s.units, u) else s.units;
        Go(s.(units := after), ApplyUndo(setup, v, s.units, u, last), Rolling(unwires, all, undo[..|undo| - 1]), [Undid(last)])
    case _ => s
  }

  function RemoveStep(setup: Setup, s: Local, c: Choice): Local {
    var v := s.view;
    match s.thread.pc
    case RemoveLocked =>
      if v.handle.Some? then Go(s, v.(handle := None), RemoveDrain(v.handle.value), [])
      else if v.reg.Some?
      then Go(s, v, RemoveDrain(Handle(v.reg.value, DetachHooks(setup.hooks), setup.bridgeOn)), [])
      else Go(s, v, Release(NotLive), [])
    case RemoveDrain(h) => Go(s, v.(bring := None), RemoveUnwire(h, 0), [Drained])
    case RemoveUnwire(h, i) =>
      if i < |h.unwires|
      then Go(s, v.(att := v.att - {h.unwires[i]}), RemoveUnwire(h, i + 1), [Unwired(h.unwires[i])])
      else Go(s.(thread := s.thread.(devices := c.count)), v, if v.reg.Some? then RemoveEvict(h, c.count) else RemoveDetach(h), [])
    case RemoveEvict(h, left) =>
      if v.reg.None? then s
      else
        var u := v.reg.value;
        if left > 0
        then Go(s, v, RemoveEvict(h, left - 1), [Evicted(v.bridge == Some(u), u !in s.units.stopped)])
        else Go(s.(units := Stopping(s.units, u)), StopUnit(setup, v, s.units, u), RemoveDetach(h), [Stopped])
    case RemoveDetach(h) =>
      if h.bridge then Go(s, v.(bridge := None), RemovePurge(h), [Detached]) else Go(s, v, RemovePurge(h), [])
    case RemovePurge(h) => Go(s.(rows := None), v, Release(Removed), [Purged])
    case _ => s
  }

  predicate Adopting(pc: Pc) {
    pc.AdoptLocked? || pc.AdoptRegistered? || pc.AdoptStarted? || pc.AdoptHook? || pc.AdoptNorth? || pc.AdoptPublish?
    || pc.Rolling?
  }

  predicate Removing(pc: Pc) {
    pc.RemoveLocked? || pc.RemoveDrain? || pc.RemoveUnwire? || pc.RemoveEvict? || pc.RemoveDetach? || pc.RemovePurge?
  }

  /** Taking the name's lock, waiting for it, or letting it go: the locks and the call afterwards. */
  function Locking(w: World, t: Tid): (map<Name, Tid>, Thread)
    requires t in w.threads
  {
    var th := w.threads[t];
    if th.pc.AdoptStart? && th.name.text == "" then (w.locks, th.(pc := Done(AdoptFailed)))
    else if (th.pc.AdoptStart? || th.pc.RemoveStart?) && th.name !in w.locks then
      (w.locks[th.name := t], th.(pc := if th.pc.AdoptStart? then AdoptLocked else RemoveLocked, before := ViewOf(w, th.name)))
    else if th.pc.Release? then (w.locks - {th.name}, th.(pc := Done(th.pc.result), after := ViewOf(w, th.name)))
    else (w.locks, th)
  }

  /** A call moves, or stays where it is because it is done or its name's lock is taken. */
  function Step(setup: Setup, w: World, t: Tid, c: Choice): World {
    if t !in w.threads then w
    else if Adopting(w.threads[t].pc) then Install(w, t, AdoptStep(setup, LocalOf(w, t), c))
    else if Removing(w.threads[t].pc) then Install(w, t, RemoveStep(setup, LocalOf(w, t), c))
    else var (locks, th) := Locking(w, t); w.(locks := locks, threads := w.threads[t := th])
  }

  /** A new call, a step of a call, or the daemon storing derived rows of a live central. */
  datatype Label = Call(t: Tid, name: Name, adopt: bool) | Move(t: Tid, choice: Choice) | Ingest(name: Name, row: nat)

  const NOTHING := View(None, None, None, None, map[])

  function Next(setup: Setup, w: World, l: Label): World {
    match l
    case Move(t, c) => Step(setup, w, t, c)
    case Ingest(n, row) => if n in w.reg then w.(rows := w.rows[n := row]) else w
    case Call(t, n, adopt) =>
      if t in w.threads then w
      else w.(threads := w.threads[t := Thread(n, if adopt then AdoptStart else RemoveStart, 0, NOTHING, NOTHING, [], 0)])
  }

  function Run(setup: Setup, w: World, labels: seq<Label>): World {
    if labels == [] then w else Next(setup, Run(setup, w, labels[..|labels| - 1]), labels[|labels| - 1])
  }

  // ---------------------------------------------------------------------------------------
  // What holds of a name nobody is working on
  // ---------------------------------------------------------------------------------------

  /** A name whose lock is free: adopted and complete, boot-registered, or gone without a trace. */
  ghost predicate Quiet(setup: Setup, units: Units, v: View) {
    && (v.reg.None? ==>
          && v.handle.None? && v.att == map[] && v.bridge.None?
          && (v.bring.Some? ==> v.bring.value < setup.boot))
    && (v.reg.Some? ==>
          var u := v.reg.value;
          && u in units.north && u !in units.stopped && u < units.next
          && (v.handle.None? <==> u < setup.boot)
          && (forall k :: k in v.att ==> k < |setup.hooks| && v.att[k] == u)
          && (v.bridge.Some? ==> v.bridge.value == u && setup.bridgeOn))
    && (v.handle.Some? ==>
          var h := v.handle.value;
          && v.reg == Some(h.unit) && v.bring == Some(h.unit)
          && h.bridge == setup.bridgeOn && v.bridge.Some? == setup.bridgeOn
          && (forall k :: k in h.unwires <==> k in v.att)
          && Ascending(h.unwires))
  }

  /** The view a failing adopt has built up so far, and still has to undo. */
  function Built(setup: Setup, before: View, u: Unit, undo: seq<Undo>): View {
    View(
      if StopUnregister in undo then Some(u) else before.reg,
      before.handle,
      before.bring,
      if DetachBridge in undo then Some(u) else before.bridge,
      map k: nat | k < |setup.hooks| && Unwire(k) in undo :: u)
  }

  function Hookings(ks: seq<nat>): seq<Act> {
    seq(|ks|, i requires 0 <= i < |ks| => Hooked(ks[i]))
  }

  function Unwirings(ks: seq<nat>): seq<Act> {
    seq(|ks|, i requires 0 <= i < |ks| => Unwired(ks[i]))
  }

  /** The first |all| - |left| undos taken from the back of `all`. */
  function Undone(all: seq<Undo>, left: nat): seq<Act>
    requires left <= |all|
  {
    seq(|all| - left, i requires 0 <= i < |all| - left => Undid(all[|all| - 1 - i]))
  }

  function AttachTrace(setup: Setup, unwires: seq<nat>): seq<Act> {
    [Registered] + (if setup.bridgeOn then [Bridged] else []) + Hookings(unwires)
  }

  ghost predicate Evictions(acts: seq<Act>, bridged: bool) {
    forall a :: a in acts ==> a == Evicted(bridged, true)
  }

  /** drain, unwires in attach order, so many evictions */
  ghost predicate DrainedTo(trace: seq<Act>, h: Handle, bridged: bool, evicted: nat) {
    var n := 1 + |h.unwires|;
    n + evicted == |trace| && trace[..n] == [Drained] + Unwirings(h.unwires) && Evictions(trace[n..], bridged)
  }
}
