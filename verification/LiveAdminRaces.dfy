/** Writes of one central's row, interleaved: the store is written outside the lifecycle lock, so what
    a call finds running need not be what the row it wrote asks for any more. */
module LiveAdminRaces {
  import opened Options

  datatype Call = PutOn | PutOff | Delete

  /** Where a call stands. A Put has stored its row, has chosen to adopt or to remove, is registered but
      not yet complete; a Delete has torn the central down and has still to drop the row. */
  datatype At = Begin | Stored | Chosen | Adopting | Removed | Done(nil: bool)

  datatype Thread = Thread(call: Call, at: At)

  /** The row's enabled flag, whether the name is registered, and the calls. */
  datatype World = World(row: Option<bool>, live: bool, threads: seq<Thread>)

  /** Call i takes a step; ok tells whether the store or the adopt goes through. */
  datatype Label = Step(i: nat, ok: bool)

  /** An adopt holds the lifecycle lock from before its registration to its end. */
  predicate Locked(w: World) {
    exists k :: 0 <= k < |w.threads| && w.threads[k].at.Adopting?
  }

  function Moved(w: World, i: nat, at: At): World
    requires i < |w.threads|
  {
    w.(threads := w.threads[i := w.threads[i].(at := at)])
  }

  function Next(w: World, l: Label): World {
    if l.i >= |w.threads| then w
    else
      var t := w.threads[l.i];
      match t.at
      case Begin =>
        if t.call.Delete? then (if Locked(w) then w else Moved(w, l.i, Removed).(live := false))
        else if l.ok then Moved(w, l.i, Stored).(row := Some(t.call.PutOn?))
        else Moved(w, l.i, Done(false))
      case Stored => Moved(w, l.i, if w.live == t.call.PutOn? then Done(true) else Chosen)
      case Chosen =>
        if Locked(w) then w
        else if !t.call.PutOn? then Moved(w, l.i, Done(true)).(live := false)
        else if w.live || !l.ok then Moved(w, l.i, Done(false))
        else Moved(w, l.i, Adopting).(live := true)
      case Adopting => if l.ok then Moved(w, l.i, Done(true)) else Moved(w, l.i, Done(false)).(live := false)
      case Removed => if l.ok then Moved(w, l.i, Done(w.row.Some?)).(row := None) else Moved(w, l.i, Done(false))
      case Done(_) => w
  }

  function Run(w: World, labels: seq<Label>): World {
    if labels == [] then w else Next(Run(w, labels[..|labels| - 1]), labels[|labels| - 1])
  }

  /** The calls come in while row and registry agree. */
  function Begun(row: Option<bool>, calls: seq<Call>): World {
    World(row, row == Some(true), seq(|calls|, i requires 0 <= i < |calls| => Thread(calls[i], Begin)))
  }

  predicate Agrees(w: World) {
    w.live <==> w.row == Some(true)
  }

  predicate Finished(w: World) {
    forall k :: 0 <= k < |w.threads| ==> w.threads[k].at.Done?
  }

  /** No store and no adopt is refused. */
  predicate Smooth(labels: seq<Label>) {
    forall l :: l in labels ==> l.ok
  }

  lemma RunOn(w: World, labels: seq<Label>, l: Label)
    ensures Run(w, labels + [l]) == Next(Run(w, labels), l)
  {
    assert (labels + [l])[..|labels|] == labels;
  }

  lemma {:induction false} RunSplit(w: World, a: seq<Label>, b: seq<Label>)
    ensures Run(w, a + b) == Run(Run(w, a), b)
    decreases |b|
  {
    if b == [] {
      assert a + b == a;
    } else {
      assert (a + b)[..|a + b| - 1] == a + b[..|b| - 1];
      RunSplit(w, a, b[..|b| - 1]);
    }
  }

  // ---------------------------------------------------------------------------------------
  // Calls that want the same
  // ---------------------------------------------------------------------------------------

  predicate OneWay(calls: seq<Call>) {
    (forall c :: c in calls ==> c.PutOn?) || (forall c :: c in calls ==> !c.PutOn?)
  }

  /** All calls switch on: once one has begun the row says so, once one has ended the central runs. */
  ghost predicate AllOn(w: World) {
    && (forall t :: t in w.threads ==> t.call.PutOn? && !t.at.Removed?)
    && (forall t :: t in w.threads && !t.at.Begin? ==> w.row == Some(true))
    && (forall t :: t in w.threads && (t.at.Adopting? || t.at.Done?) ==> w.live)
    && (w.row == Some(true) || !w.live)
    && (w.row == Some(true) && !w.live ==> exists t :: t in w.threads && !t.at.Begin?)
  }

  /** All calls switch off. */
  ghost predicate AllOff(w: World) {
    && (forall t :: t in w.threads ==> !t.call.PutOn? && !t.at.Adopting? && (t.call.Delete? ==> !t.at.Stored? && !t.at.Chosen?))
    && (forall t :: t in w.threads && t.call.PutOff? ==> !t.at.Removed?)
    && (forall t :: t in w.threads && t.call.PutOff? && !t.at.Begin? ==> w.row != Some(true))
    && (forall t :: t in w.threads && t.at.Removed? ==> !w.live)
    && (forall t :: t in w.threads && t.at.Done? ==> !w.live && w.row != Some(true))
    && ((forall t :: t in w.threads ==> t.at.Begin?) ==> Agrees(w))
  }

  lemma MovedThreads(w: World, i: nat, at: At)
    requires i < |w.threads|
    ensures var ts := Moved(w, i, at).threads;
      && w.threads[i] in w.threads && w.threads[i].(at := at) in ts
      && (forall t :: t in ts ==> t in w.threads || t == w.threads[i].(at := at))
  {
    assert Moved(w, i, at).threads[i] == w.threads[i].(at := at);
  }

  lemma NextKeepsOn(w: World, l: Label)
    requires AllOn(w) && l.ok
    ensures AllOn(Next(w, l))
  {
    if l.i < |w.threads| {
      var t := w.threads[l.i];
      forall at { MovedThreads(w, l.i, at); }
      assert t in w.threads;
    }
  }

  lemma NextKeepsOff(w: World, l: Label)
    requires AllOff(w) && l.ok
    ensures AllOff(Next(w, l))
  {
    if l.i < |w.threads| {
      var t := w.threads[l.i];
      forall at { MovedThreads(w, l.i, at); }
      assert t in w.threads;
      StaysBegun(w, l);
    }
  }

  /** A call that has begun stays so. */
  lemma StaysBegun(w: World, l: Label)
    ensures (forall t :: t in Next(w, l).threads ==> t.at.Begin?) ==> Next(w, l) == w
  {
    if l.i < |w.threads| {
      forall at ensures Moved(w, l.i, at).threads[l.i].at == at {}
      assert Next(w, l) != w ==> Next(w, l).threads[l.i] in Next(w, l).threads && !Next(w, l).threads[l.i].at.Begin?;
    }
  }

  lemma {:induction false} RunKeeps(w: World, labels: seq<Label>)
    requires Smooth(labels)
    ensures AllOn(w) ==> AllOn(Run(w, labels))
    ensures AllOff(w) ==> AllOff(Run(w, labels))
  {
    if labels != [] {
      var n := |labels| - 1;
      RunKeeps(w, labels[..n]);
      var w2, l := Run(w, labels[..n]), labels[n];
      assert l in labels;
      if AllOn(w2) { NextKeepsOn(w2, l); }
      if AllOff(w2) { NextKeepsOff(w2, l); }
    }
  }

  lemma BegunThreads(row: Option<bool>, calls: seq<Call>)
    ensures var w := Begun(row, calls);
      && Agrees(w) && |w.threads| == |calls|
      && (forall i :: 0 <= i < |calls| ==> w.threads[i] == Thread(calls[i], Begin))
      && (forall t :: t in w.threads ==> t.at.Begin? && t.call in calls)
  {
    forall t | t in Begun(row, calls).threads ensures t.at.Begin? && t.call in calls {
      var i :| 0 <= i < |calls| && Begun(row, calls).threads[i] == t;
      assert calls[i] == t.call;
    }
  }

  /** Without refusals, calls that all switch on, or all off, end with row and registry in agreement. */
  lemma OneWayAgrees(row: Option<bool>, calls: seq<Call>, labels: seq<Label>)
    requires OneWay(calls) && Smooth(labels) && Finished(Run(Begun(row, calls), labels))
    ensures Agrees(Run(Begun(row, calls), labels))
  {
    BegunThreads(row, calls);
    hide Begun;
    var w := Begun(row, calls);
    assert AllOn(w) || AllOff(w);
    RunKeeps(w, labels);
    var end := Run(w, labels);
    hide Run;
    forall t | t in end.threads ensures t.at.Done? {
      var k :| 0 <= k < |end.threads| && end.threads[k] == t;
    }
  }

  // ---------------------------------------------------------------------------------------
  // Calls that do not
  // ---------------------------------------------------------------------------------------

  /** Call k from beginning to end. */
  function Alone(k: nat): seq<Label> {
    [Step(k, true), Step(k, true), Step(k, true), Step(k, true)]
  }

  lemma RunFour(w: World, l: Label)
    ensures Run(w, [l, l, l, l]) == Next(Next(Next(Next(w, l), l), l), l)
  {
    hide Next;
    var none: seq<Label> := [];
    RunOn(w, none, l);
    RunOn(w, [l], l);
    RunOn(w, [l, l], l);
    RunOn(w, [l, l, l], l);
    assert none + [l] == [l] && [l] + [l] == [l, l] && [l, l] + [l] == [l, l, l] && [l, l, l] + [l] == [l, l, l, l];
  }

  /** Only thread k has moved. */
  predicate OnlyMoved(w: World, w2: World, k: nat) {
    |w2.threads| == |w.threads| && forall m :: 0 <= m < |w.threads| && m != k ==> w2.threads[m] == w.threads[m]
  }

  lemma LockedOrFree(w: World, k: nat)
    requires k < |w.threads|
    ensures !Locked(w) ==> FreeFor(w, k)
    ensures FreeFor(w, k) && !w.threads[k].at.Adopting? ==> !Locked(w)
  {
  }

  lemma AloneEnds(w: World, k: nat)
    requires k < |w.threads| && !Locked(w) && w.threads[k].at.Begin?
    ensures var w2 := Run(w, Alone(k));
      OnlyMoved(w, w2, k) && w2.threads[k].at.Done? && w2.threads[k].call == w.threads[k].call && !Locked(w2)
  {
    var l := Step(k, true);
    RunFour(w, l);
    hide Run, Next, Locked;
    LockedOrFree(w, k);
    OneStep(w, k);
    OneStep(Next(w, l), k);
    OneStep(Next(Next(w, l), l), k);
    OneStep(Next(Next(Next(w, l), l), l), k);
    LockedOrFree(Run(w, Alone(k)), k);
  }

  /** The lock is free but for call k. */
  predicate FreeFor(w: World, k: nat) {
    forall m :: 0 <= m < |w.threads| && m != k ==> !w.threads[m].at.Adopting?
  }

  /** How many steps a call that is not held up has at most before it. */
  function Left(at: At): nat {
    match at
    case Begin => 4
    case Stored => 3
    case Chosen => 2
    case Done(_) => 0
    case _ => 1
  }

  lemma OneStep(w: World, k: nat)
    requires k < |w.threads| && FreeFor(w, k)
    ensures var w2 := Next(w, Step(k, true));
      && OnlyMoved(w, w2, k) && FreeFor(w2, k) && w2.threads[k].call == w.threads[k].call
      && Left(w2.threads[k].at) <= (if Left(w.threads[k].at) == 0 then 0 else Left(w.threads[k].at) - 1)
  {
    assert Locked(w) ==> w.threads[k].at.Adopting?;
  }

  /** Every call below n but i and j, one after another. */
  function Others(i: nat, j: nat, n: nat): seq<Label> {
    if n == 0 then []
    else Others(i, j, n - 1) + (if n - 1 == i || n - 1 == j then [] else Alone(n - 1))
  }

  /** w2 is w after every call below n but i and j has ended. */
  predicate OthersDone(w: World, w2: World, i: nat, j: nat, n: nat) {
    && |w2.threads| == |w.threads|
    && forall k :: 0 <= k < |w.threads| ==>
         && w2.threads[k].call == w.threads[k].call
         && (if k < n && k != i && k != j then w2.threads[k].at.Done? else w2.threads[k].at.Begin?)
  }

  lemma {:induction false} OthersEnd(w: World, i: nat, j: nat, n: nat)
    requires n <= |w.threads| && OthersDone(w, w, i, j, 0) && !Locked(w)
    ensures Smooth(Others(i, j, n))
    ensures OthersDone(w, Run(w, Others(i, j, n)), i, j, n) && !Locked(Run(w, Others(i, j, n)))
  {
    hide Locked, Next, Alone, OthersDone, Run, Smooth;
    if n == 0 {
      NothingRun(w);
    } else {
      OthersEnd(w, i, j, n - 1);
      var w1 := Run(w, Others(i, j, n - 1));
      if n - 1 == i || n - 1 == j {
        assert Others(i, j, n) == Others(i, j, n - 1);
        assert OthersDone(w, w1, i, j, n) by { SkipOne(w, w1, i, j, n - 1); }
      } else {
        RunSplit(w, Others(i, j, n - 1), Alone(n - 1));
        assert n - 1 < |w1.threads| && w1.threads[n - 1].at.Begin? by { BeginsStill(w, w1, i, j, n - 1); }
        AloneEnds(w1, n - 1);
        assert OthersDone(w, Run(w1, Alone(n - 1)), i, j, n) by { EndOne(w, w1, Run(w1, Alone(n - 1)), i, j, n - 1); }
        SmoothAppend(Others(i, j, n - 1), n - 1);
      }
    }
  }

  lemma NothingRun(w: World)
    ensures Run(w, []) == w && Smooth([])
  {
  }

  lemma BeginsStill(w: World, w1: World, i: nat, j: nat, k: nat)
    requires OthersDone(w, w1, i, j, k) && k < |w.threads|
    ensures k < |w1.threads| && w1.threads[k].at.Begin?
  {
  }

  lemma SkipOne(w: World, w1: World, i: nat, j: nat, k: nat)
    requires OthersDone(w, w1, i, j, k) && (k == i || k == j)
    ensures OthersDone(w, w1, i, j, k + 1)
  {
  }

  lemma EndOne(w: World, w1: World, w2: World, i: nat, j: nat, k: nat)
    requires OthersDone(w, w1, i, j, k) && k < |w.threads| && k != i && k != j
    requires OnlyMoved(w1, w2, k) && w2.threads[k].at.Done? && w2.threads[k].call == w1.threads[k].call
    ensures OthersDone(w, w2, i, j, k + 1)
  {
  }

  lemma SmoothAppend(labels: seq<Label>, k: nat)
    requires Smooth(labels)
    ensures Smooth(labels + Alone(k))
  {
  }

  /** The steps of i, which switches on, and of j, which does not, that end in disagreement. */
  function Clash(w: World, i: nat, j: nat): seq<Label>
    requires j < |w.threads|
  {
    var a, b := Step(i, true), Step(j, true);
    if w.threads[j].call.Delete? then [b, a, a, b, a, a]
    else if w.live then [b, b, a, a, b]
    else [a, a, b, b, a, a]
  }

  lemma RunFive(w: World, ls: seq<Label>)
    requires |ls| == 5
    ensures Run(w, ls) == Next(Next(Next(Next(Next(w, ls[0]), ls[1]), ls[2]), ls[3]), ls[4])
  {
    hide Next;
    var none: seq<Label> := [];
    RunOn(w, ls[..4], ls[4]);
    RunOn(w, ls[..3], ls[3]);
    RunOn(w, ls[..2], ls[2]);
    RunOn(w, ls[..1], ls[1]);
    RunOn(w, none, ls[0]);
    assert ls[..4] + [ls[4]] == ls && ls[..3] + [ls[3]] == ls[..4] && ls[..2] + [ls[2]] == ls[..3];
    assert ls[..1] + [ls[1]] == ls[..2] && none + [ls[0]] == ls[..1];
  }

  lemma RunSix(w: World, ls: seq<Label>)
    requires |ls| == 6
    ensures Run(w, ls) == Next(Next(Next(Next(Next(Next(w, ls[0]), ls[1]), ls[2]), ls[3]), ls[4]), ls[5])
  {
    hide Next;
    RunFive(w, ls[..5]);
    RunOn(w, ls[..5], ls[5]);
    assert ls[..5] + [ls[5]] == ls;
  }

  /** i and j have ended, in disagreement, and nobody else has moved. */
  predicate ClashEnd(w: World, w2: World, i: nat, j: nat)
    requires i < |w.threads| && j < |w.threads|
  {
    && |w2.threads| == |w.threads| && !Agrees(w2)
    && w2.threads[i].at == Done(true) && w2.threads[j].at.Done?
    && forall k :: 0 <= k < |w.threads| && k != i && k != j ==> w2.threads[k] == w.threads[k]
  }

  /** What a step of call k does when the lock is free and nothing is refused. */
  lemma StepOf(w: World, k: nat, at: At, live: bool, row: Option<bool>)
    requires k < |w.threads| && !Locked(w)
    requires match w.threads[k].at
      case Begin =>
        if w.threads[k].call.Delete? then at == Removed && !live && row == w.row
        else at == Stored && live == w.live && row == Some(w.threads[k].call.PutOn?)
      case Stored => at == (if w.live == w.threads[k].call.PutOn? then Done(true) else Chosen) && live == w.live && row == w.row
      case Chosen =>
        && row == w.row
        && if w.threads[k].call.PutOn? then !w.live && at == Adopting && live else at == Done(true) && !live
      case Removed => at == Done(w.row.Some?) && live == w.live && row == None
      case _ => false
    ensures Next(w, Step(k, true)) == World(row, live, w.threads[k := w.threads[k].(at := at)])
    ensures !at.Adopting? ==> !Locked(Next(w, Step(k, true)))
  {
  }

  lemma ClashDisagrees(w: World, i: nat, j: nat)
    requires i < |w.threads| && j < |w.threads| && !Locked(w)
    requires w.threads[i] == Thread(PutOn, Begin) && w.threads[j].at.Begin? && !w.threads[j].call.PutOn?
    ensures Smooth(Clash(w, i, j))
    ensures ClashEnd(w, Run(w, Clash(w, i, j)), i, j)
  {
    hide Locked, Next, ClashEnd;
    ClashIsSmooth(w, i, j);
    var ls := Clash(w, i, j);
    hide Smooth, Run;
    if w.threads[j].call.Delete? {
      RunSix(w, ls);
      ClashDelete(w, i, j);
    } else if w.live {
      RunFive(w, ls);
      ClashRunning(w, i, j);
    } else {
      RunSix(w, ls);
      ClashStopped(w, i, j);
    }
  }

  lemma ClashIsSmooth(w: World, i: nat, j: nat)
    requires j < |w.threads|
    ensures Smooth(Clash(w, i, j))
  {
  }

  /** The Delete tears down, the Put stores its row, the Delete drops it, and the Put adopts. */
  lemma ClashDelete(w: World, i: nat, j: nat)
    requires i < |w.threads| && j < |w.threads| && !Locked(w)
    requires w.threads[i] == Thread(PutOn, Begin) && w.threads[j] == Thread(Delete, Begin)
    ensures var a, b := Step(i, true), Step(j, true);
      ClashEnd(w, Next(Next(Next(Next(Next(Next(w, b), a), a), b), a), a), i, j)
  {
    hide Locked;
    var a, b := Step(i, true), Step(j, true);
    StepOf(w, j, Removed, false, w.row);
    var w1 := Next(w, b);
    StepOf(w1, i, Stored, false, Some(true));
    var w2 := Next(w1, a);
    StepOf(w2, i, Chosen, false, Some(true));
    var w3 := Next(w2, a);
    StepOf(w3, j, Done(true), false, None);
    var w4 := Next(w3, b);
    StepOf(w4, i, Adopting, true, None);
    var w5 := Next(w4, a);
    AdoptEnds(w5, i);
    hide Next;
  }

  lemma AdoptEnds(w: World, k: nat)
    requires k < |w.threads| && w.threads[k].at.Adopting?
    ensures Next(w, Step(k, true)) == w.(threads := w.threads[k := w.threads[k].(at := Done(true))])
  {
  }

  /** Both store; the one finds the central running and is content, the other stops it. */
  lemma ClashRunning(w: World, i: nat, j: nat)
    requires i < |w.threads| && j < |w.threads| && !Locked(w) && w.live
    requires w.threads[i] == Thread(PutOn, Begin) && w.threads[j] == Thread(PutOff, Begin)
    ensures var a, b := Step(i, true), Step(j, true);
      ClashEnd(w, Next(Next(Next(Next(Next(w, b), b), a), a), b), i, j)
  {
    hide Locked;
    var a, b := Step(i, true), Step(j, true);
    StepOf(w, j, Stored, true, Some(false));
    var w1 := Next(w, b);
    StepOf(w1, j, Chosen, true, Some(false));
    var w2 := Next(w1, b);
    StepOf(w2, i, Stored, true, Some(true));
    var w3 := Next(w2, a);
    StepOf(w3, i, Done(true), true, Some(true));
    var w4 := Next(w3, a);
    StepOf(w4, j, Done(true), false, Some(true));
    hide Next;
  }

  /** The one means to adopt; the other switches the row off, finds nothing running and is content. */
  lemma ClashStopped(w: World, i: nat, j: nat)
    requires i < |w.threads| && j < |w.threads| && !Locked(w) && !w.live
    requires w.threads[i] == Thread(PutOn, Begin) && w.threads[j] == Thread(PutOff, Begin)
    ensures var a, b := Step(i, true), Step(j, true);
      ClashEnd(w, Next(Next(Next(Next(Next(Next(w, a), a), b), b), a), a), i, j)
  {
    hide Locked;
    var a, b := Step(i, true), Step(j, true);
    StepOf(w, i, Stored, false, Some(true));
    var w1 := Next(w, a);
    StepOf(w1, i, Chosen, false, Some(true));
    var w2 := Next(w1, a);
    StepOf(w2, j, Stored, false, Some(false));
    var w3 := Next(w2, b);
    StepOf(w3, j, Done(true), false, Some(false));
    var w4 := Next(w3, b);
    StepOf(w4, i, Adopting, true, Some(false));
    var w5 := Next(w4, a);
    AdoptEnds(w5, i);
    hide Next;
  }

  /** However the calls are interleaved, if nothing is refused they end in agreement. */
  ghost predicate AlwaysAgree(row: Option<bool>, calls: seq<Call>) {
    forall labels | Smooth(labels) && Finished(Run(Begun(row, calls), labels)) :: Agrees(Run(Begun(row, calls), labels))
  }

  /** Whatever the row was, concurrent calls on one name are sure to end with row and registry in
      agreement exactly when they all switch on or all switch off: with a Put that enables the row
      beside a Put that disables it or a Delete there is an interleaving, nothing refused and every
      call ended, after which they disagree. */
  lemma RacesAreExact(row: Option<bool>, calls: seq<Call>)
    ensures OneWay(calls) <==> AlwaysAgree(row, calls)
  {
    hide Agrees, Finished, Smooth, Begun, Run;
    if OneWay(calls) {
      forall labels | Smooth(labels) && Finished(Run(Begun(row, calls), labels)) ensures Agrees(Run(Begun(row, calls), labels)) {
        OneWayAgrees(row, calls, labels);
      }
    } else {
      var c, d :| c in calls && d in calls && c.PutOn? && !d.PutOn?;
      var i: nat :| i < |calls| && calls[i] == c;
      var j: nat :| j < |calls| && calls[j] == d;
      var labels := Disagreement(row, calls, i, j);
    }
  }

  lemma NoneLocked(w: World)
    requires forall k :: 0 <= k < |w.threads| ==> w.threads[k].at.Begin?
    ensures !Locked(w)
  {
  }

  lemma Disagreement(row: Option<bool>, calls: seq<Call>, i: nat, j: nat) returns (labels: seq<Label>)
    requires i < |calls| && j < |calls| && calls[i].PutOn? && !calls[j].PutOn?
    ensures var end := Run(Begun(row, calls), labels);
      && Smooth(labels) && |end.threads| == |calls| && Finished(end) && !Agrees(end)
      && end.threads[i].at == Done(true)
  {
    var w, n := Begun(row, calls), |calls|;
    BegunThreads(row, calls);
    hide Begun, Run, Next, Alone, Clash, Others, Agrees;
    NoneLocked(w);
    OthersEnd(w, i, j, n);
    var mid := Run(w, Others(i, j, n));
    ClashDisagrees(mid, i, j);
    labels := Others(i, j, n) + Clash(mid, i, j);
    RunSplit(w, Others(i, j, n), Clash(mid, i, j));
  }

  // ---------------------------------------------------------------------------------------
  // What a nil result of a Put says
  // ---------------------------------------------------------------------------------------

  /** If some Put that switches on reported success, the central runs. */
  predicate NilSays(w: World) {
    (exists k :: 0 <= k < |w.threads| && w.threads[k] == Thread(PutOn, Done(true))) ==> w.live
  }

  ghost predicate NilMeansLive(row: Option<bool>, calls: seq<Call>) {
    forall labels | Finished(Run(Begun(row, calls), labels)) :: NilSays(Run(Begun(row, calls), labels))
  }

  /** It runs already, and no call will adopt. */
  ghost predicate Running(w: World) {
    w.live && forall t :: t in w.threads ==> t.call.PutOn? && !t.at.Chosen? && !t.at.Adopting? && !t.at.Removed?
  }

  /** The only call, switching on. */
  predicate Single(w: World) {
    && |w.threads| == 1 && w.threads[0].call.PutOn? && !w.threads[0].at.Removed?
    && (w.threads[0].at.Adopting? || w.threads[0].at == Done(true) ==> w.live)
  }

  lemma {:induction false} RunKeepsLive(w: World, labels: seq<Label>)
    ensures Running(w) ==> Running(Run(w, labels))
    ensures Single(w) ==> Single(Run(w, labels))
  {
    if labels != [] {
      var n := |labels| - 1;
      RunKeepsLive(w, labels[..n]);
      var w2, l := Run(w, labels[..n]), labels[n];
      if l.i < |w2.threads| {
        forall at { MovedThreads(w2, l.i, at); }
      }
    }
  }

  /** Every call from k on whose store refuses. */
  function Refusals(k: nat, n: nat): seq<Label>
    requires k <= n
  {
    if n == k then [] else Refusals(k, n - 1) + [Step(n - 1, false)]
  }

  lemma {:induction false} RefusalsEnd(w: World, k: nat, n: nat)
    requires k <= n <= |w.threads| && forall m :: 0 <= m < |w.threads| ==> w.threads[m] == Thread(PutOn, Begin)
    ensures var w2 := Run(w, Refusals(k, n));
      && w2.row == w.row && w2.live == w.live && |w2.threads| == |w.threads|
      && forall m :: 0 <= m < |w.threads| ==> w2.threads[m] == if k <= m < n then Thread(PutOn, Done(false)) else Thread(PutOn, Begin)
  {
    hide Run, Next;
    if n > k {
      RefusalsEnd(w, k, n - 1);
      RunOn(w, Refusals(k, n - 1), Step(n - 1, false));
      RefusedAtOnce(Run(w, Refusals(k, n - 1)), n - 1);
    } else {
      NothingRun(w);
    }
  }

  lemma RefusedAtOnce(w: World, k: nat)
    requires k < |w.threads| && w.threads[k] == Thread(PutOn, Begin)
    ensures Next(w, Step(k, false)) == w.(threads := w.threads[k := Thread(PutOn, Done(false))])
  {
  }

  /** One call is registered but not complete, a second takes it for running and ends, and then the
      first one's adopt fails. */
  const TOO_EARLY := [Step(0, true), Step(0, true), Step(0, true), Step(1, true), Step(1, true), Step(0, false)]

  lemma NilTooEarly(w: World)
    requires |w.threads| >= 2 && !w.live && !Locked(w)
    requires w.threads[0] == Thread(PutOn, Begin) && w.threads[1] == Thread(PutOn, Begin)
    ensures var w2 := Run(w, TOO_EARLY);
      && !w2.live && w2.row == Some(true) && |w2.threads| == |w.threads|
      && w2.threads[0].at == Done(false) && w2.threads[1] == Thread(PutOn, Done(true))
      && forall m :: 2 <= m < |w.threads| ==> w2.threads[m] == w.threads[m]
  {
    RunSix(w, TOO_EARLY);
    hide Run;
    var w1 := Next(w, TOO_EARLY[0]);
    var w2 := Next(w1, TOO_EARLY[1]);
    assert !Locked(w1) && !Locked(w2);
  }

  /** A Put that enables a row and returns nil is sure to leave the central running, in every
      interleaving with others like it and with every refusal, exactly when there is no other, or the
      central was running before. */
  lemma NilIsExact(row: Option<bool>, calls: seq<Call>)
    requires forall c :: c in calls ==> c.PutOn?
    ensures NilMeansLive(row, calls) <==> |calls| <= 1 || row == Some(true)
  {
    var w := Begun(row, calls);
    BegunThreads(row, calls);
    if |calls| <= 1 || row == Some(true) {
      hide Begun;
      forall labels | Finished(Run(w, labels)) ensures NilSays(Run(w, labels)) {
        RunKeepsLive(w, labels);
        RunKeepsCount(w, labels);
      }
    } else {
      forall m | 0 <= m < |calls| ensures w.threads[m] == Thread(PutOn, Begin) { assert calls[m] in calls; }
      hide Begun;
      RefusalsEnd(w, 2, |calls|);
      var mid := Run(w, Refusals(2, |calls|));
      NilTooEarly(mid);
      RunSplit(w, Refusals(2, |calls|), TOO_EARLY);
      hide Run, Next, Locked;
      var end := Run(w, Refusals(2, |calls|) + TOO_EARLY);
      assert Finished(end) && end.threads[1] == Thread(PutOn, Done(true)) && !NilSays(end);
    }
  }

  lemma {:induction false} RunKeepsCount(w: World, labels: seq<Label>)
    ensures |Run(w, labels).threads| == |w.threads|
  {
    if labels != [] {
      RunKeepsCount(w, labels[..|labels| - 1]);
    }
  }
}
