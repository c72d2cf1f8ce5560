/** The Matter reassemble pipeline: bus handlers that send without blocking on a channel of one
    place, and one goroutine that debounces what it receives and rebuilds the topology. */
module MatterPipeline {

  type Central = nat

  /** The four device lifecycle events the pipeline listens to are told apart by their kind. */
  datatype Event = Ready | Device(kind: nat)

  const KINDS: nat := 4

  /** Where the wiring of a central stands: its ready handler first, then the lifecycle handlers one
      by one, and only a late hook asks at the end whether the central is ready already. */
  datatype Wiring = Unwired | Subscribing(handlers: nat) | Asking | Kicking | Wired

  /** One central: how often its model has changed and which state the last walk saw, the latched
      ready flag, the events owed by changes and by the latch, and the events not dispatched yet.
      `late` tells a live-adopt hook from boot wiring; `early` that the subscriptions were complete
      before the ready event was dispatched. */
  datatype Cell = Cell(version: nat, built: nat, ready: bool, owesReady: bool, owes: nat, queue: seq<Event>,
                       wiring: Wiring, late: bool, early: bool)

  datatype Loop = Waiting | Settling | Building(left: set<Central>) | Stopped

  /** `skipped` are the centrals the last walk did not get to because the rebuild failed. */
  datatype World = World(cells: map<Central, Cell>, signal: bool, loop: Loop, skipped: set<Central>,
                         sends: nat, begun: nat)

  datatype Label =
    | Change(c: Central) | Announce(c: Central, kind: nat) | MarkReady(c: Central) | AnnounceReady(c: Central)
    | Dispatch(c: Central) | Wire(c: Central)
    | Receive | Timeout | Read(c: Central) | Finish | Fail | Cancel

  /** The non-blocking send: lost when the channel is full. */
  function Trigger(w: World): World {
    if w.signal then w else w.(signal := true, sends := w.sends + 1)
  }

  function Put(w: World, c: Central, cell: Cell): World {
    w.(cells := w.cells[c := cell])
  }

  /** The ready event is still to come. */
  predicate ReadyAhead(cell: Cell) {
    !cell.ready || cell.owesReady || Ready in cell.queue
  }

  predicate Handles(cell: Cell, e: Event) {
    match cell.wiring
    case Unwired => false
    case Subscribing(n) => if e.Ready? then true else cell.ready && e.kind < n
    case _ => e.Ready? || (cell.ready && e.kind < KINDS)
  }

  /** What a label does to the cell it names. */
  function Move(cell: Cell, l: Label): Cell {
    match l
    case Change(_) => cell.(version := cell.version + 1, owes := cell.owes + 1)
    case Announce(_, k) =>
      if k < KINDS then cell.(owes := if cell.owes > 0 then cell.owes - 1 else 0, queue := cell.queue + [Device(k)]) else cell
    case MarkReady(_) => if cell.ready then cell else cell.(ready := true, owesReady := true)
    case AnnounceReady(_) => if cell.owesReady then cell.(owesReady := false, queue := cell.queue + [Ready]) else cell
    case Dispatch(_) => if cell.queue == [] then cell else cell.(queue := cell.queue[1..])
    case Read(_) => cell.(built := cell.version)
    case Wire(_) => (
      match cell.wiring
      case Unwired => cell.(wiring := Subscribing(0))
      case Subscribing(n) =>
        if n < KINDS then cell.(wiring := Subscribing(n + 1))
        else cell.(wiring := if cell.late then Asking else Wired, early := ReadyAhead(cell))
      case Asking => cell.(wiring := if cell.ready then Kicking else Wired)
      case Kicking => cell.(wiring := Wired)
      case Wired => cell
    )
    case _ => cell
  }

  /** Whether it calls the trigger: a handled event, or a late hook that found the central ready. */
  predicate Triggers(cell: Cell, l: Label) {
    (l.Dispatch? && cell.queue != [] && Handles(cell, cell.queue[0])) || (l.Wire? && cell.wiring.Kicking?)
  }

  function CellStep(w: World, l: Label): World
    requires OfCell(l)
  {
    if l.c !in w.cells then w
    else
      var w2 := Put(w, l.c, Move(w.cells[l.c], l));
      if Triggers(w.cells[l.c], l) then Trigger(w2) else w2
  }

  predicate OfCell(l: Label) {
    l.Change? || l.Announce? || l.MarkReady? || l.AnnounceReady? || l.Dispatch? || l.Wire?
  }

  function LoopStep(w: World, l: Label): World {
    match l
    case Receive =>
      if w.signal && (w.loop.Waiting? || w.loop.Settling?) then w.(signal := false, loop := Settling) else w
    case Timeout =>
      if w.loop.Settling? then w.(loop := Building(w.cells.Keys), skipped := {}, begun := w.begun + 1) else w
    case Read(c) =>
      if w.loop.Building? && c in w.loop.left && c in w.cells
      then Put(w, c, Move(w.cells[c], l)).(loop := Building(w.loop.left - {c}))
      else w
    case Finish => if w.loop == Building({}) then w.(loop := Waiting) else w
    case Fail => if w.loop.Building? then w.(skipped := w.loop.left, loop := Waiting) else w
    case Cancel => if w.loop.Building? then w else w.(loop := Stopped)
    case _ => w
  }

  function Next(w: World, l: Label): World {
    if OfCell(l) then CellStep(w, l) else LoopStep(w, l)
  }

  function Run(w: World, labels: seq<Label>): World {
    if labels == [] then w else Next(Run(w, labels[..|labels| - 1]), labels[|labels| - 1])
  }

  /** Nothing wired yet; models, ready flags and queues in any state. */
  ghost predicate Fresh(w: World) {
    && w.loop.Waiting? && !w.signal && w.skipped == {} && w.sends == 0 && w.begun == 0
    && (forall c :: c in w.cells ==>
          && w.cells[c].wiring.Unwired? && w.cells[c].built <= w.cells[c].version
          && Sane(w.cells[c]))
  }

  ghost predicate Sane(cell: Cell) {
    && (cell.owesReady || Ready in cell.queue ==> cell.ready)
    && forall i :: 0 <= i < |cell.queue| && cell.queue[i].Device? ==> cell.queue[i].kind < KINDS
  }

  /** All of c's events are delivered, it is ready, nothing is in the channel, the goroutine waits. */
  predicate Settled(w: World, c: Central) {
    && c in w.cells && !w.signal && w.loop.Waiting?
    && var cell := w.cells[c]; cell.ready && !cell.owesReady && cell.owes == 0 && cell.queue == []
  }

  /** The last rebuild saw the last change of c's model. */
  predicate UpToDate(w: World, c: Central)
    requires c in w.cells
  {
    w.cells[c].built == w.cells[c].version
  }

  // ---------------------------------------------------------------------------------------
  // No update is lost
  // ---------------------------------------------------------------------------------------

  /** What is still to bring c's last change into the topology. */
  predicate Ahead(w: World, c: Central)
    requires c in w.cells
  {
    var cell := w.cells[c];
    || w.signal || w.loop.Settling? || w.loop.Stopped? || (w.loop.Building? && c in w.loop.left) || c in w.skipped
    || cell.owes > 0 || cell.queue != [] || ReadyAhead(cell)
  }

  predicate Covered(w: World, c: Central)
    requires c in w.cells
  {
    UpToDate(w, c) || Ahead(w, c)
  }

  ghost predicate Guarded(w: World, c: Central)
    requires c in w.cells
  {
    var cell := w.cells[c];
    cell.wiring.Wired? && (cell.late || cell.early) ==> Covered(w, c)
  }

  ghost predicate Inv(w: World) {
    && (w.loop.Building? ==> w.skipped == {} && w.loop.left <= w.cells.Keys)
    && (forall c :: c in w.cells ==> Sane(w.cells[c]) && w.cells[c].built <= w.cells[c].version && Guarded(w, c))
  }

  lemma MoveKeepsSane(cell: Cell, l: Label)
    requires Sane(cell)
    ensures Sane(Move(cell, l))
  {
    var q := cell.queue;
    assert q != [] ==> (Ready in q[1..] ==> Ready in q);
  }

  lemma NextKeepsSane(w: World, l: Label, c: Central)
    requires c in w.cells && Sane(w.cells[c]) && w.cells[c].built <= w.cells[c].version
    ensures c in Next(w, l).cells && Sane(Next(w, l).cells[c]) && Next(w, l).cells[c].built <= Next(w, l).cells[c].version
  {
    hide Sane;
    MoveKeepsSane(w.cells[c], l);
  }

  /** Once wired, a central stays covered whatever happens next. */
  lemma NextKeepsCovered(w: World, l: Label, c: Central)
    requires c in w.cells && Sane(w.cells[c]) && w.cells[c].wiring.Wired? && Covered(w, c)
    requires w.loop.Building? ==> w.skipped == {}
    ensures c in Next(w, l).cells && Covered(Next(w, l), c)
  {
    if !OfCell(l) {
      LoopKeepsCovered(w, l, c);
    } else if l.c == c {
      OwnStepKeepsCovered(w, l, c);
    }
  }

  lemma LoopKeepsCovered(w: World, l: Label, c: Central)
    requires c in w.cells && Covered(w, c) && !OfCell(l)
    requires w.loop.Building? ==> w.skipped == {}
    ensures c in LoopStep(w, l).cells && Covered(LoopStep(w, l), c)
  {
  }

  lemma OwnStepKeepsCovered(w: World, l: Label, c: Central)
    requires c in w.cells && Sane(w.cells[c]) && w.cells[c].wiring.Wired? && Covered(w, c)
    requires OfCell(l) && l.c == c
    ensures c in CellStep(w, l).cells && Covered(CellStep(w, l), c)
  {
    var cell := w.cells[c];
    if l.Dispatch? && cell.queue != [] {
      var e := cell.queue[0];
      assert e.Device? ==> e.kind < KINDS;
      assert cell.queue == [e] + cell.queue[1..];
    }
  }

  /** A late hook that has finished, and boot wiring that came before the ready event, leave the
      central covered: what happened before the subscriptions is made up for. */
  lemma WiringCovers(w: World, c: Central)
    requires c in w.cells && !w.cells[c].wiring.Wired?
    requires var cell := Next(w, Wire(c)).cells[c]; cell.wiring.Wired? && (cell.late || cell.early)
    ensures Covered(Next(w, Wire(c)), c)
  {
  }

  lemma NextKeepsGuarded(w: World, l: Label, c: Central)
    requires Inv(w) && c in w.cells
    ensures c in Next(w, l).cells && Guarded(Next(w, l), c)
  {
    var cell := w.cells[c];
    StaysInCells(w, l, c);
    hide Next, Sane, Covered;
    var after := Next(w, l).cells[c];
    if cell.wiring.Wired? {
      if cell.late || cell.early {
        NextKeepsCovered(w, l, c);
      }
    } else if after.wiring.Wired? && (after.late || after.early) {
      WiringCovers(w, c);
    }
  }

  /** Only its own wiring step wires a central, and nothing changes what kind of wiring it has. */
  lemma StaysInCells(w: World, l: Label, c: Central)
    requires c in w.cells
    ensures c in Next(w, l).cells
    ensures var cell, after := w.cells[c], Next(w, l).cells[c];
      && (cell.wiring.Wired? ==> after.wiring.Wired? && after.late == cell.late && after.early == cell.early)
      && (!cell.wiring.Wired? && after.wiring.Wired? ==> l == Wire(c))
  {
  }

  lemma NextKeepsInv(w: World, l: Label)
    requires Inv(w)
    ensures Inv(Next(w, l)) && Next(w, l).cells.Keys == w.cells.Keys
  {
    hide Sane, Guarded;
    forall c | c in w.cells
      ensures Sane(Next(w, l).cells[c]) && Next(w, l).cells[c].built <= Next(w, l).cells[c].version && Guarded(Next(w, l), c)
    {
      NextKeepsSane(w, l, c);
      NextKeepsGuarded(w, l, c);
    }
  }

  lemma {:induction false} RunKeepsInv(w: World, labels: seq<Label>)
    requires Inv(w)
    ensures Inv(Run(w, labels)) && Run(w, labels).cells.Keys == w.cells.Keys
  {
    hide Inv, Next;
    if labels != [] {
      RunKeepsInv(w, labels[..|labels| - 1]);
      NextKeepsInv(Run(w, labels[..|labels| - 1]), labels[|labels| - 1]);
    }
  }

  /** No update is lost: in every run, once a central is wired late, or wired at boot before its
      ready event came round, and everything has settled, the topology shows the last change of its
      model, unless the rebuild that should have read it failed before it got there. */
  lemma NoLostUpdate(w0: World, labels: seq<Label>, c: Central)
    requires Fresh(w0) && c in w0.cells
    requires var w := Run(w0, labels); c in w.cells && w.cells[c].wiring.Wired? && (w.cells[c].late || w.cells[c].early)
    ensures var w := Run(w0, labels); Settled(w, c) && c !in w.skipped ==> UpToDate(w, c)
  {
    assert Inv(w0);
    RunKeepsInv(w0, labels);
    assert Guarded(Run(w0, labels), c);
  }

  // ---------------------------------------------------------------------------------------
  // What boot wiring needs
  // ---------------------------------------------------------------------------------------

  /** The rest of a walk that has begun. */
  ghost function Walk(left: set<Central>): seq<Label>
    decreases |left|
  {
    if left == {} then [Finish] else var c :| c in left; [Read(c)] + Walk(left - {c})
  }

  lemma {:induction false} RunSplit(w: World, a: seq<Label>, b: seq<Label>)
    ensures Run(w, a + b) == Run(Run(w, a), b)
    decreases |b|
  {
    if b == [] {
      assert a + b == a;
    } else {
      assert (a + b)[..|a + b| - 1] == a + b[..|b| - 1];
      RunSplit(w, a, b[..|b| - 1]);
    }
  }

  /** A walk under way can always run to its end, and touches only those it has still to read. */
  lemma {:induction false} WalkEnds(w: World, left: set<Central>, c: Central)
    requires w.loop == Building(left) && left <= w.cells.Keys && c in w.cells && c !in left
    ensures var w2 := Run(w, Walk(left));
      w2.loop == Waiting && w2.signal == w.signal && w2.skipped == w.skipped && c in w2.cells && w2.cells[c] == w.cells[c]
    decreases |left|
  {
    if left == {} {
      assert Run(w, [Finish]) == Next(w, Finish) by { RunOne(w, Finish); }
    } else {
      var d :| d in left && Walk(left) == [Read(d)] + Walk(left - {d});
      RunOne(w, Read(d));
      RunSplit(w, [Read(d)], Walk(left - {d}));
      WalkEnds(Next(w, Read(d)), left - {d}, c);
    }
  }

  lemma RunOne(w: World, l: Label)
    ensures Run(w, [l]) == Next(w, l)
  {
    assert [l][..0] == [];
    assert Run(w, []) == w;
  }

  /** From a state in which c is wired, exactly the covered states never settle with c out of date:
      a boot-wired central whose ready event had come and gone, with a change no rebuild had seen and
      nothing else pending, is out of date in a settled state. */
  lemma CoveredIsExact(w: World, c: Central)
    requires c in w.cells && w.cells[c].wiring.Wired? && !w.loop.Stopped?
    requires forall d :: d in w.cells ==> Sane(w.cells[d]) && w.cells[d].built <= w.cells[d].version
    requires w.loop.Building? ==> w.skipped == {} && w.loop.left <= w.cells.Keys
    ensures Covered(w, c) <==> (forall labels :: NeverStale(Run(w, labels), c))
  {
    if Covered(w, c) {
      forall labels {
        RunKeepsCovered(w, labels, c);
      }
    } else {
      if w.loop.Building? {
        WalkEnds(w, w.loop.left, c);
        assert !NeverStale(Run(w, Walk(w.loop.left)), c);
      } else {
        var none: seq<Label> := [];
        assert Run(w, none) == w;
        assert !NeverStale(Run(w, none), c);
        assert exists labels :: !NeverStale(Run(w, labels), c);
      }
    }
  }

  predicate NeverStale(w: World, c: Central) {
    c in w.cells && (Settled(w, c) && c !in w.skipped ==> UpToDate(w, c))
  }

  /** c is wired and covered, in a state a run can be in. */
  ghost predicate Safe(w: World, c: Central) {
    && c in w.cells && Sane(w.cells[c]) && w.cells[c].built <= w.cells[c].version && w.cells[c].wiring.Wired?
    && Covered(w, c) && (w.loop.Building? ==> w.skipped == {})
  }

  lemma NextKeepsSafe(w: World, l: Label, c: Central)
    requires Safe(w, c)
    ensures Safe(Next(w, l), c)
  {
    hide Sane, Covered;
    NextKeepsSane(w, l, c);
    NextKeepsCovered(w, l, c);
  }

  lemma {:induction false} RunKeepsCovered(w: World, labels: seq<Label>, c: Central)
    requires Safe(w, c)
    ensures Safe(Run(w, labels), c)
  {
    hide Safe, Next;
    if labels != [] {
      RunKeepsCovered(w, labels[..|labels| - 1], c);
      NextKeepsSafe(Run(w, labels[..|labels| - 1]), labels[|labels| - 1], c);
    }
  }

  function Wires(c: Central, n: nat): seq<Label> {
    seq(n, _ => Wire(c))
  }

  /** The subscriptions on their own: n steps bring the wiring this far and change nothing else. */
  lemma {:induction false} Subscribes(w: World, c: Central, n: nat)
    requires c in w.cells && w.cells[c].wiring.Unwired? && n <= KINDS + 1
    ensures Run(w, Wires(c, n)) == (if n == 0 then w else Put(w, c, w.cells[c].(wiring := Subscribing(n - 1))))
  {
    if n > 0 {
      Subscribes(w, c, n - 1);
      WiresOn(w, c, n - 1);
      hide Run, Wires, Next;
      if n == 1 {
        SubscribeFirst(w, c);
      } else {
        SubscribeNext(w, c, n - 2);
      }
    }
  }

  lemma SubscribeFirst(w: World, c: Central)
    requires c in w.cells && w.cells[c].wiring.Unwired?
    ensures Next(w, Wire(c)) == Put(w, c, w.cells[c].(wiring := Subscribing(0)))
  {
  }

  lemma SubscribeNext(w: World, c: Central, k: nat)
    requires c in w.cells && k < KINDS
    ensures Next(Put(w, c, w.cells[c].(wiring := Subscribing(k))), Wire(c)) == Put(w, c, w.cells[c].(wiring := Subscribing(k + 1)))
  {
    var cell := w.cells[c].(wiring := Subscribing(k));
    assert Move(cell, Wire(c)) == w.cells[c].(wiring := Subscribing(k + 1));
  }

  lemma WiresOn(w: World, c: Central, n: nat)
    ensures Run(w, Wires(c, n + 1)) == Next(Run(w, Wires(c, n)), Wire(c))
  {
    assert Wires(c, n + 1)[..n] == Wires(c, n);
  }

  /** Boot wiring does not ask whether the central is ready already, as a late hook does: a central
      whose bring-up was quicker than the wiring stays out of date although everything has settled. */
  lemma BootWiringMissesAReadyCentral(w: World, c: Central)
    requires c in w.cells && w.cells[c].wiring.Unwired? && !w.cells[c].late
    requires Settled(w, c) && c !in w.skipped && !UpToDate(w, c)
    ensures var w2 := Run(w, Wires(c, KINDS + 2));
      c in w2.cells && w2.cells[c].wiring.Wired? && Settled(w2, c) && c !in w2.skipped && !UpToDate(w2, c)
  {
    Subscribes(w, c, KINDS + 1);
    WiresOn(w, c, KINDS + 1);
  }

  /** Everything owed to c has come round, and nothing is in the channel. */
  predicate Quiet(w: World, c: Central)
    requires c in w.cells
  {
    var cell := w.cells[c];
    cell.ready && !cell.owesReady && cell.owes == 0 && cell.queue == [] && !w.signal
  }

  /** A rebuild that fails before it has read c is not made up for: c, changed since the last walk and
      with nothing owed to it any more, is left out of date with everything settled, and stays so in
      every continuation until someone sends again, whatever happens meanwhile. */
  lemma FailedRebuildStaysStale(w: World, c: Central, labels: seq<Label>)
    requires c in w.cells && w.cells[c].built < w.cells[c].version && Quiet(w, c)
    requires w.loop.Building? && c in w.loop.left
    requires Run(Next(w, Fail), labels).sends == w.sends
    ensures Settled(Next(w, Fail), c) && c in Next(w, Fail).skipped && !UpToDate(Next(w, Fail), c)
    ensures var w2 := Run(Next(w, Fail), labels); c in w2.cells && !UpToDate(w2, c)
  {
    NothingSentNothingRead(Next(w, Fail), c, labels);
  }

  lemma SendsGrow(w: World, l: Label)
    ensures w.sends <= Next(w, l).sends
  {
  }

  ghost predicate Stale(w: World, c: Central) {
    c in w.cells && w.cells[c].built < w.cells[c].version && !w.signal && (w.loop.Waiting? || w.loop.Stopped?)
  }

  lemma NextKeepsStale(w: World, l: Label, c: Central)
    requires Stale(w, c) && Next(w, l).sends == w.sends
    ensures Stale(Next(w, l), c)
  {
  }

  /** While the goroutine waits, nothing is read unless someone sends. */
  lemma {:induction false} NothingSentNothingRead(w: World, c: Central, labels: seq<Label>)
    requires Stale(w, c)
    ensures w.sends <= Run(w, labels).sends
    ensures Run(w, labels).sends == w.sends ==> Stale(Run(w, labels), c)
  {
    hide Stale, Next;
    if labels != [] {
      var n := |labels| - 1;
      NothingSentNothingRead(w, c, labels[..n]);
      SendsGrow(Run(w, labels[..n]), labels[n]);
      if Run(w, labels).sends == w.sends {
        NextKeepsStale(Run(w, labels[..n]), labels[n], c);
      }
    }
  }

  /** A late hook in the same place kicks the pipeline. */
  lemma LateHookKicks(w: World, c: Central)
    requires c in w.cells && w.cells[c].wiring.Unwired? && w.cells[c].late
    requires Settled(w, c) && c !in w.skipped && !UpToDate(w, c)
    ensures var w2 := Run(w, Wires(c, KINDS + 4));
      c in w2.cells && w2.cells[c].wiring.Wired? && w2.signal
  {
    hide Run, Wires;
    Subscribes(w, c, KINDS + 1);
    var w1 := Run(w, Wires(c, KINDS + 1));
    WiresOn(w, c, KINDS + 1);
    WiresOn(w, c, KINDS + 2);
    WiresOn(w, c, KINDS + 3);
    LateEnd(w1, c);
  }

  /** The last three steps of a late hook on a ready central end in a trigger. */
  lemma LateEnd(w: World, c: Central)
    requires c in w.cells && w.cells[c].wiring == Subscribing(KINDS) && w.cells[c].late && w.cells[c].ready
    ensures var w2 := Next(Next(Next(w, Wire(c)), Wire(c)), Wire(c));
      c in w2.cells && w2.cells[c].wiring.Wired? && w2.signal
  {
    var w1 := Next(w, Wire(c));
    assert c in w1.cells && w1.cells[c].wiring.Asking? && w1.cells[c].ready;
    var w2 := Next(w1, Wire(c));
    assert c in w2.cells && w2.cells[c].wiring.Kicking?;
  }

  /** Which events a subscribed central answers: the ready event always, a device event of one of the
      four kinds only once the central is ready. The answer is a send, unless one is in the channel. */
  lemma DispatchMeans(w: World, c: Central)
    requires c in w.cells && w.cells[c].queue != []
    ensures var cell, e, w2 := w.cells[c], w.cells[c].queue[0], Next(w, Dispatch(c));
      var answered :=
        if e.Ready? then !cell.wiring.Unwired?
        else cell.ready && match cell.wiring case Unwired => false case Subscribing(n) => e.kind < n case _ => e.kind < 4;
      && w2.cells == w.cells[c := cell.(queue := cell.queue[1..])] && w2.loop == w.loop && w2.skipped == w.skipped
      && (w2.signal <==> w.signal || answered)
      && w2.sends == w.sends + if answered && !w.signal then 1 else 0
  {
  }

  // ---------------------------------------------------------------------------------------
  // Coalescing
  // ---------------------------------------------------------------------------------------

  /** A burst is one rebuild: whatever is sent and received while the goroutine waits for a quiet window,
      once the channel is empty and the window has passed there is one rebuild more and none to come. */
  lemma BurstIsOneRebuild(w: World, labels: seq<Label>)
    requires w.loop.Settling? && forall l :: l in labels ==> OfCell(l) || l.Receive?
    ensures var w2 := Next(Next(Run(w, labels), Receive), Timeout);
      w2.loop.Building? && !w2.signal && w2.begun == w.begun + 1
  {
    StaysSettling(w, labels);
  }

  lemma {:induction false} StaysSettling(w: World, labels: seq<Label>)
    requires w.loop.Settling? && forall l :: l in labels ==> OfCell(l) || l.Receive?
    ensures Run(w, labels).loop.Settling? && Run(w, labels).begun == w.begun
  {
    if labels != [] {
      var n := |labels| - 1;
      assert labels[n] in labels;
      StaysSettling(w, labels[..n]);
    }
  }

  /** The ready event comes once: after it has come round it never does again. */
  lemma {:induction false} ReadyComesOnce(w: World, labels: seq<Label>, c: Central)
    requires c in w.cells && !ReadyAhead(w.cells[c])
    ensures c in Run(w, labels).cells && !ReadyAhead(Run(w, labels).cells[c])
  {
    if labels != [] {
      var n := |labels| - 1;
      ReadyComesOnce(w, labels[..n], c);
      ReadyStaysBehind(Run(w, labels[..n]), labels[n], c);
    }
  }

  lemma ReadyStaysBehind(w: World, l: Label, c: Central)
    requires c in w.cells && !ReadyAhead(w.cells[c])
    ensures c in Next(w, l).cells && !ReadyAhead(Next(w, l).cells[c])
  {
  }

  function Held(w: World): nat {
    (if w.signal then 1 else 0) + (if w.loop.Settling? then 1 else 0)
  }

  /** Every rebuild is paid for by a send of its own: no event, no rebuild. */
  lemma {:induction false} NoRebuildUnasked(w0: World, labels: seq<Label>)
    requires Fresh(w0)
    ensures var w := Run(w0, labels); w.begun + Held(w) <= w.sends
  {
    if labels != [] {
      NoRebuildUnasked(w0, labels[..|labels| - 1]);
    }
  }
}
