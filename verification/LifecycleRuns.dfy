/** What holds after every run: any calls, over any names, interleaved in any order. */
module LifecycleRuns {
  import opened Options
  import opened Lifecycle
  import opened LifecycleProofs

  ghost predicate LocksMatch(w: World) {
    && (forall n :: n in w.locks ==>
          w.locks[n] in w.threads && w.threads[w.locks[n]].name == n && Holding(w.threads[w.locks[n]].pc))
    && (forall t :: t in w.threads && Holding(w.threads[t].pc) ==>
          w.threads[t].name in w.locks && w.locks[w.threads[t].name] == t)
  }

  /** No unit is registered under two names, and no unit is used before it is made. */
  ghost predicate UnitsApart(setup: Setup, w: World) {
    && (forall n, m :: n in w.reg && m in w.reg && w.reg[n] == w.reg[m] ==> n == m)
    && (forall n :: n in w.reg ==> w.reg[n] < w.units.next)
    && Made(setup, NOTHING, w.units)
  }

  ghost predicate Inv(setup: Setup, w: World) {
    && LocksMatch(w) && UnitsApart(setup, w)
    && (forall n :: n !in w.locks ==> Quiet(setup, w.units, ViewOf(w, n)))
    && (forall t :: t in w.threads && Holding(w.threads[t].pc) ==> At(setup, LocalOf(w, t)))
    && (forall t :: t in w.threads && !Holding(w.threads[t].pc) ==> Idle(setup, w.threads[t]))
  }

  // ---------------------------------------------------------------------------------------
  // What a step leaves alone
  // ---------------------------------------------------------------------------------------

  /** From units to units2 nothing happened to the unit v registers. */
  ghost predicate Spares(units: Units, units2: Units, v: View) {
    && units.next <= units2.next
    && (v.reg.Some? ==>
          var u := v.reg.value;
          (u in units.north <==> u in units2.north) && (u in units.stopped <==> u in units2.stopped))
  }

  lemma AdoptSpared(setup: Setup, s: Local, units2: Units)
    requires Adopting(s.thread.pc) && At(setup, s) && Spares(s.units, units2, s.view)
    ensures At(setup, s.(units := units2))
  {
    hide UndoList, RollingTrace;
    if s.thread.pc.AdoptHook? || s.thread.pc.AdoptNorth? || s.thread.pc.AdoptPublish? {
      UndoListHas(setup, s.thread.pc.unwires);
    }
  }

  lemma AtSpared(setup: Setup, s: Local, units2: Units)
    requires At(setup, s) && Spares(s.units, units2, s.view) && Holding(s.thread.pc)
    ensures At(setup, s.(units := units2))
  {
    hide AtAdopt, DrainedTo, DetachedTo, Outcome, DetachHooks;
    if Adopting(s.thread.pc) {
      AdoptSpared(setup, s, units2);
    }
  }

  // ---------------------------------------------------------------------------------------
  // Every step of every call
  // ---------------------------------------------------------------------------------------

  lemma Keeps(setup: Setup, s: Local, c: Choice)
    requires At(setup, s) && Made(setup, s.view, s.units) && (Adopting(s.thread.pc) || Removing(s.thread.pc))
    ensures Kept(setup, s, if Adopting(s.thread.pc) then AdoptStep(setup, s, c) else RemoveStep(setup, s, c))
  {
    hide At, Made, Kept, AdoptStep, RemoveStep;
    if Adopting(s.thread.pc) {
      AdoptKeeps(setup, s, c);
    } else {
      RemoveKeeps(setup, s, c);
    }
  }

  lemma AdoptKeeps(setup: Setup, s: Local, c: Choice)
    requires At(setup, s) && Made(setup, s.view, s.units) && Adopting(s.thread.pc)
    ensures Kept(setup, s, AdoptStep(setup, s, c))
  {
    hide At, Made, Kept, AdoptStep;
    match s.thread.pc {
      case AdoptLocked => AdoptLockedKeeps(setup, s, c);
      case AdoptRegistered => AdoptRegisteredKeeps(setup, s, c);
      case AdoptStarted => AdoptStartedKeeps(setup, s, c);
      case AdoptHook(_, _) => AdoptHookKeeps(setup, s, c);
      case AdoptNorth(_) => AdoptNorthKeeps(setup, s, c);
      case AdoptPublish(_) => AdoptPublishKeeps(setup, s, c);
      case Rolling(_, _, undo) => if undo == [] { RolledBack(setup, s, c); } else { RollingKeeps(setup, s, c); }
    }
  }

  lemma RemoveKeeps(setup: Setup, s: Local, c: Choice)
    requires At(setup, s) && Made(setup, s.view, s.units) && Removing(s.thread.pc)
    ensures Kept(setup, s, RemoveStep(setup, s, c))
  {
    hide At, Made, Kept, RemoveStep;
    match s.thread.pc {
      case RemoveLocked => RemoveLockedKeeps(setup, s, c);
      case RemoveDrain(_) => RemoveDrainKeeps(setup, s, c);
      case RemoveUnwire(_, _) => RemoveUnwireKeeps(setup, s, c);
      case RemoveEvict(_, left) => if left > 0 { RemoveEvictKeeps(setup, s, c); } else { StopKeeps(setup, s, c); }
      case RemoveDetach(_) => RemoveDetachKeeps(setup, s, c);
      case RemovePurge(_) => RemovePurgeKeeps(setup, s, c);
    }
  }

  lemma InstalledView(w: World, t: Tid, s: Local)
    requires t in w.threads && s.thread.name == w.threads[t].name
    ensures ViewOf(Install(w, t, s), s.thread.name) == s.view
    ensures LocalOf(Install(w, t, s), t) == s
    ensures forall m :: m != s.thread.name ==> ViewOf(Install(w, t, s), m) == ViewOf(w, m) && Get(Install(w, t, s).rows, m) == Get(w.rows, m)
  {
  }

  lemma InstalledUnits(setup: Setup, w: World, t: Tid, s: Local)
    requires UnitsApart(setup, w) && t in w.threads && s.thread.name == w.threads[t].name
    requires Kept(setup, LocalOf(w, t), s)
    ensures UnitsApart(setup, Install(w, t, s))
    ensures forall m :: m != s.thread.name ==> Spares(w.units, s.units, ViewOf(w, m))
  {
    hide At, Install;
    forall m | m != s.thread.name ensures Spares(w.units, s.units, ViewOf(w, m)) {
      OtherSpared(setup, w, t, s, m);
    }
    RegInstalled(w, t, s);
    hide ViewOf, Spares;
  }

  lemma OtherSpared(setup: Setup, w: World, t: Tid, s: Local, m: Name)
    requires UnitsApart(setup, w) && t in w.threads && s.thread.name == w.threads[t].name && m != s.thread.name
    requires Kept(setup, LocalOf(w, t), s)
    ensures Spares(w.units, s.units, ViewOf(w, m))
  {
    hide At, Made;
    if m in w.reg {
      assert Some(w.reg[m]) != LocalOf(w, t).view.reg;
    }
  }

  lemma RegInstalled(w: World, t: Tid, s: Local)
    requires t in w.threads && s.thread.name == w.threads[t].name
    ensures var n, w2 := s.thread.name, Install(w, t, s);
      && w2.units == s.units
      && (forall m :: m in w2.reg && m != n ==> m in w.reg && w2.reg[m] == w.reg[m])
      && (n in w2.reg ==> s.view.reg == Some(w2.reg[n]))
      && LocalOf(w, t).view.reg == Get(w.reg, n) && LocalOf(w, t).units == w.units
  {
  }

  lemma InstallKeepsAt(setup: Setup, w: World, t: Tid, s: Local, r: Tid)
    requires Inv(setup, w) && t in w.threads && Holding(w.threads[t].pc) && s.thread.name == w.threads[t].name
    requires Kept(setup, LocalOf(w, t), s)
    requires r in w.threads && r != t && Holding(w.threads[r].pc)
    ensures At(setup, LocalOf(Install(w, t, s), r))
  {
    hide Made, Idle, At, Quiet, Holding, Install;
    InstalledView(w, t, s);
    InstalledUnits(setup, w, t, s);
    assert w.threads[r].name != s.thread.name;
    AtSpared(setup, LocalOf(w, r), s.units);
    assert LocalOf(Install(w, t, s), r) == LocalOf(w, r).(units := s.units) by { InstalledOther(w, t, s, r); }
  }

  lemma InstalledOther(w: World, t: Tid, s: Local, r: Tid)
    requires t in w.threads && s.thread.name == w.threads[t].name
    requires r in w.threads && r != t && w.threads[r].name != s.thread.name
    ensures r in Install(w, t, s).threads && LocalOf(Install(w, t, s), r) == LocalOf(w, r).(units := s.units)
  {
  }

  lemma InstallKeepsQuiet(setup: Setup, w: World, t: Tid, s: Local, m: Name)
    requires Inv(setup, w) && t in w.threads && Holding(w.threads[t].pc) && s.thread.name == w.threads[t].name
    requires Kept(setup, LocalOf(w, t), s) && m !in w.locks
    ensures Quiet(setup, s.units, ViewOf(Install(w, t, s), m))
  {
    hide Made, Idle, At, Holding, Install;
    InstalledView(w, t, s);
    InstalledUnits(setup, w, t, s);
    assert m != s.thread.name && Spares(w.units, s.units, ViewOf(w, m));
  }

  lemma InstallKeepsInv(setup: Setup, w: World, t: Tid, s: Local)
    requires Inv(setup, w) && t in w.threads && Holding(w.threads[t].pc) && s.thread.name == w.threads[t].name
    requires Kept(setup, LocalOf(w, t), s)
    ensures Inv(setup, Install(w, t, s))
  {
    hide Made, Idle, At, Quiet, Holding;
    var w2 := Install(w, t, s);
    InstalledView(w, t, s);
    InstalledUnits(setup, w, t, s);
    forall m | m !in w2.locks ensures Quiet(setup, w2.units, ViewOf(w2, m)) {
      InstallKeepsQuiet(setup, w, t, s, m);
    }
    forall r | r in w2.threads && Holding(w2.threads[r].pc) ensures At(setup, LocalOf(w2, r)) {
      if r != t {
        InstallKeepsAt(setup, w, t, s, r);
      }
    }
  }

  /** A step that changes nothing but the locks and the call itself. */
  lemma CallKeepsInv(setup: Setup, w: World, t: Tid, locks: map<Name, Tid>, th: Thread)
    requires Inv(setup, w)
    requires LocksMatch(w.(locks := locks, threads := w.threads[t := th]))
    requires forall n :: n !in locks && n in w.locks ==> Quiet(setup, w.units, ViewOf(w, n))
    requires if Holding(th.pc) then At(setup, Local(ViewOf(w, th.name), Get(w.rows, th.name), w.units, th)) else Idle(setup, th)
    ensures Inv(setup, w.(locks := locks, threads := w.threads[t := th]))
  {
    hide Quiet, At, Idle, Made, Holding, ViewOf, LocalOf;
    CallFrame(w, t, locks, th);
  }

  lemma CallFrame(w: World, t: Tid, locks: map<Name, Tid>, th: Thread)
    ensures var w2 := w.(locks := locks, threads := w.threads[t := th]);
      && (forall m :: ViewOf(w2, m) == ViewOf(w, m))
      && (forall r :: r in w.threads && r != t ==> LocalOf(w2, r) == LocalOf(w, r))
      && LocalOf(w2, t) == Local(ViewOf(w, th.name), Get(w.rows, th.name), w.units, th)
  {
  }

  lemma LocksOfOther(w: World, t: Tid, locks: map<Name, Tid>, th: Thread)
    requires LocksMatch(w) && (t in w.threads ==> w.threads[t].name == th.name)
    requires if t in w.threads && Holding(w.threads[t].pc)
             then !Holding(th.pc) && locks == w.locks - {th.name}
             else if Holding(th.pc) then th.name !in w.locks && locks == w.locks[th.name := t] else locks == w.locks
    ensures LocksMatch(w.(locks := locks, threads := w.threads[t := th]))
  {
    hide Holding;
  }

  lemma AcquireKeepsInv(setup: Setup, w: World, t: Tid, pc: Pc)
    requires Inv(setup, w) && t in w.threads
    requires (w.threads[t].pc.AdoptStart? && pc.AdoptLocked?) || (w.threads[t].pc.RemoveStart? && pc.RemoveLocked?)
    requires w.threads[t].name !in w.locks
    ensures var th := w.threads[t];
      Inv(setup, w.(locks := w.locks[th.name := t],
                    threads := w.threads[t := th.(pc := pc, before := ViewOf(w, th.name))]))
  {
    hide Inv, Quiet, Outcome, LocksMatch, AtAdopt, AtRemove, AtGone;
    InvGives(setup, w, t);
    var th := w.threads[t].(pc := pc, before := ViewOf(w, w.threads[t].name));
    LocksOfOther(w, t, w.locks[th.name := t], th);
    CallKeepsInv(setup, w, t, w.locks[th.name := t], th);
  }

  lemma LockKeepsInv(setup: Setup, w: World, t: Tid, c: Choice)
    requires Inv(setup, w) && t in w.threads && !Holding(w.threads[t].pc)
    ensures Inv(setup, Step(setup, w, t, c))
  {
    hide Inv, Quiet, Outcome, LocksMatch, AdoptStep, RemoveStep, Install, ViewOf;
    var th := w.threads[t];
    assert w.threads[t := th] == w.threads;
    match th.pc {
      case AdoptStart =>
        if th.name.text == "" {
          InvGives(setup, w, t);
          LocksOfOther(w, t, w.locks, th.(pc := Done(AdoptFailed)));
          assert Outcome(setup, AdoptFailed, th.before, th.after, th.trace, th.devices) by { NothingDone(setup, th.before, th.devices); }
          CallKeepsInv(setup, w, t, w.locks, th.(pc := Done(AdoptFailed)));
        } else if th.name !in w.locks {
          AcquireKeepsInv(setup, w, t, AdoptLocked);
        }
      case RemoveStart =>
        if th.name !in w.locks {
          AcquireKeepsInv(setup, w, t, RemoveLocked);
        }
      case _ =>
    }
  }

  lemma NothingDone(setup: Setup, v: View, devices: nat)
    ensures Outcome(setup, AdoptFailed, v, v, [], devices)
  {
  }

  lemma InvGives(setup: Setup, w: World, t: Tid)
    requires Inv(setup, w) && t in w.threads
    ensures LocksMatch(w) && (forall n :: n !in w.locks ==> Quiet(setup, w.units, ViewOf(w, n)))
    ensures if Holding(w.threads[t].pc) then At(setup, LocalOf(w, t)) else Idle(setup, w.threads[t])
  {
    hide Quiet, At, Idle, Made, Holding;
  }

  lemma ReleaseKeepsInv(setup: Setup, w: World, t: Tid, c: Choice)
    requires Inv(setup, w) && t in w.threads && w.threads[t].pc.Release?
    ensures Inv(setup, Step(setup, w, t, c))
  {
    hide Inv, Quiet, Outcome, LocksMatch;
    var w2 := Step(setup, w, t, c);
    InvGives(setup, w, t);
    assert Quiet(setup, w.units, ViewOf(w, w.threads[t].name));
    LocksOfOther(w, t, w2.locks, w2.threads[t]);
    CallKeepsInv(setup, w, t, w2.locks, w2.threads[t]);
  }

  lemma StepKeepsInv(setup: Setup, w: World, t: Tid, c: Choice)
    requires Inv(setup, w)
    ensures Inv(setup, Step(setup, w, t, c))
  {
    if t in w.threads {
      var pc := w.threads[t].pc;
      if !Holding(pc) {
        LockKeepsInv(setup, w, t, c);
      } else if pc.Release? {
        ReleaseKeepsInv(setup, w, t, c);
      } else {
        hide At, AdoptStep, RemoveStep;
        Keeps(setup, LocalOf(w, t), c);
        InstallKeepsInv(setup, w, t, if Adopting(pc) then AdoptStep(setup, LocalOf(w, t), c) else RemoveStep(setup, LocalOf(w, t), c));
      }
    }
  }

  /** Rows stored under a live name are no step's business until the name is removed. */
  lemma AtIngest(setup: Setup, s: Local, rows: Option<nat>)
    requires At(setup, s) && (s.view.reg.Some? || rows == s.rows)
    ensures At(setup, s.(rows := rows))
  {
    hide AtAdopt, AtRemove, AtGone, Quiet;
  }

  lemma IngestKeepsInv(setup: Setup, w: World, n: Name, row: nat)
    requires Inv(setup, w) && n in w.reg
    ensures Inv(setup, w.(rows := w.rows[n := row]))
  {
    hide Quiet, At, Idle, Made, Holding;
    var w2 := w.(rows := w.rows[n := row]);
    assert forall m :: ViewOf(w2, m) == ViewOf(w, m);
    forall r | r in w2.threads && Holding(w2.threads[r].pc) ensures At(setup, LocalOf(w2, r)) {
      AtIngest(setup, LocalOf(w, r), LocalOf(w2, r).rows);
    }
  }

  lemma NextKeepsInv(setup: Setup, w: World, l: Label)
    requires Inv(setup, w)
    ensures Inv(setup, Next(setup, w, l))
  {
    hide Step, Inv, LocksMatch, Outcome;
    match l {
      case Move(t, c) => StepKeepsInv(setup, w, t, c);
      case Ingest(n, row) => if n in w.reg { IngestKeepsInv(setup, w, n, row); }
      case Call(t, n, adopt) =>
        if t !in w.threads {
          var th := Next(setup, w, l).threads[t];
          assert LocksMatch(w) by { InvLocks(setup, w); }
          LocksOfOther(w, t, w.locks, th);
          CallKeepsInv(setup, w, t, w.locks, th);
        }
    }
  }

  lemma InvLocks(setup: Setup, w: World)
    requires Inv(setup, w)
    ensures LocksMatch(w)
  {
  }

  /** The daemon after boot, with no call under way: each central registered or gone. */
  ghost predicate Booted(setup: Setup, w: World) {
    w.locks == map[] && w.threads == map[] && UnitsApart(setup, w) && forall n :: Quiet(setup, w.units, ViewOf(w, n))
  }

  lemma {:induction false} RunKeepsInv(setup: Setup, w: World, labels: seq<Label>)
    requires Booted(setup, w)
    ensures Inv(setup, Run(setup, w, labels))
  {
    hide Next, Quiet;
    if labels != [] {
      RunKeepsInv(setup, w, labels[..|labels| - 1]);
      NextKeepsInv(setup, Run(setup, w, labels[..|labels| - 1]), labels[|labels| - 1]);
    }
  }
}
