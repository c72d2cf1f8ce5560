/** Keeping an event stream up: a retry budget that a stable connection renews, and an exponential
    backoff computed by a shift of a 64-bit duration. */
module EventStream {

  /** Durations are in nanoseconds. */
  datatype Policy = Policy(maxRetries: int, base: int, max: int, resetAfter: int)

  const DEFAULT_POLICY := Policy(5, 500_000_000, 8_000_000_000, 30_000_000_000)

  const TWO_63: int := 0x8000_0000_0000_0000
  const TWO_64: int := 0x1_0000_0000_0000_0000

  // ---------------------------------------------------------------------------------------
  // Backoff
  // ---------------------------------------------------------------------------------------

  function Pow2(n: nat): (p: nat)
    ensures p > 0
  {
    if n == 0 then 1 else 2 * Pow2(n - 1)
  }

  /** A signed 64-bit integer keeps the value modulo 2^64. */
  function Wrap64(x: int): int {
    var m := x % TWO_64;
    if m >= TWO_63 then m - TWO_64 else m
  }

  /** The wait before the given attempt, counted from 1. */
  function BackoffFor(pol: Policy, attempt: nat): int
    requires attempt >= 1
  {
    var d := Wrap64(pol.base * Pow2(attempt - 1));
    if d <= 0 || d > pol.max then pol.max else d
  }

  predicate IsDuration(x: int) {
    0 < x < TWO_63
  }

  /** Doubling up to the maximum. */
  function Doubled(pol: Policy, attempt: nat): int
    requires attempt >= 1
  {
    var x := pol.base * Pow2(attempt - 1);
    if x <= pol.max then x else pol.max
  }

  lemma TwoTo64()
    ensures Pow2(64) == TWO_64
  {
    assert Pow2(8) == 0x100;
    Pow2Add(8, 8);
    Pow2Add(16, 16);
    Pow2Add(32, 32);
  }

  lemma {:induction false} Pow2Add(m: nat, n: nat)
    ensures Pow2(m + n) == Pow2(m) * Pow2(n)
  {
    if n > 0 {
      Pow2Add(m, n - 1);
    }
  }

  lemma Factor(a: int, b: int, c: int, p: int)
    ensures a * p - b * (c * p) == (a - b * c) * p
  {
    assert b * (c * p) == (b * c) * p;
  }

  lemma Regroup(a: int, b: int, c: int)
    ensures a * (b * c) == (a * c) * b
  {
  }

  /** Wrapping takes a whole number of 2^64 off. */
  lemma WrapTakes(x: int) returns (q: int)
    ensures Wrap64(x) == x - q * TWO_64
  {
    q := if x % TWO_64 >= TWO_63 then x / TWO_64 + 1 else x / TWO_64;
  }

  /** The one value of 64 bits, with a sign, that differs by a multiple of 2^64. */
  lemma WrapMeans(x: int)
    ensures -0x8000_0000_0000_0000 <= Wrap64(x) < 0x8000_0000_0000_0000
    ensures (x - Wrap64(x)) % 0x1_0000_0000_0000_0000 == 0
  {
  }

  lemma WrapOfWhole(y: int)
    ensures Wrap64(y * TWO_64) == 0
  {
    assert (y * TWO_64) % TWO_64 == 0;
  }

  /** What wraps is still a multiple of the power of two it was shifted by. */
  lemma WrappedShift(base: int, n: nat) returns (k: int)
    ensures Wrap64(base * Pow2(n)) == k * Pow2(n)
  {
    hide Pow2, Wrap64;
    TwoTo64();
    if n >= 64 {
      Pow2Add(64, n - 64);
      Regroup(base, TWO_64, Pow2(n - 64));
      WrapOfWhole(base * Pow2(n - 64));
      k := 0;
    } else {
      Pow2Add(64 - n, n);
      var q := WrapTakes(base * Pow2(n));
      Factor(base, q, Pow2(64 - n), Pow2(n));
      k := base - q * Pow2(64 - n);
    }
  }

  lemma MultipleIsLarge(k: int, p: nat)
    requires k * p > 0
    ensures k * p >= p
  {
    if k >= 1 {
      AtLeastOnce(k, p);
    }
  }

  lemma {:induction false} AtLeastOnce(k: nat, p: nat)
    requires k >= 1
    ensures k * p >= p
  {
    if k > 1 {
      AtLeastOnce(k - 1, p);
      assert k * p == (k - 1) * p + p;
    }
  }

  /** A policy whose third wait is four nanoseconds. */
  const COLLAPSING := Policy(5, 0x4000_0000_0000_0001, 8_000_000_000, 0)

  /** The shift gives the doubled wait exactly unless it overflows to something small and positive;
      and it may. */
  lemma BackoffIsExact(pol: Policy, attempt: nat)
    requires IsDuration(pol.base) && IsDuration(pol.max) && attempt >= 1
    ensures var x := pol.base * Pow2(attempt - 1);
      BackoffFor(pol, attempt) == Doubled(pol, attempt) <==> !(x >= TWO_63 && 0 < Wrap64(x) < pol.max)
    ensures IsDuration(COLLAPSING.base) && IsDuration(COLLAPSING.max) && BackoffFor(COLLAPSING, 3) == 4 != Doubled(COLLAPSING, 3)
  {
    assert Pow2(2) == 4;
    var x := pol.base * Pow2(attempt - 1);
    assert x > 0;
    if x < TWO_63 {
      assert x % TWO_64 == x;
    }
  }

  /** Where base times maximum fits in 63 bits, every attempt waits the doubled time; so does each of
      the five of the default policy, half a second at first. */
  lemma BackoffDoubles(pol: Policy, attempt: nat)
    requires IsDuration(pol.base) && IsDuration(pol.max) && pol.base * pol.max < TWO_63 && attempt >= 1
    ensures BackoffFor(pol, attempt) == Doubled(pol, attempt)
    ensures pol == DEFAULT_POLICY && attempt <= 5 ==> BackoffFor(pol, attempt) == 500_000_000 * Pow2(attempt - 1)
    ensures IsDuration(DEFAULT_POLICY.base) && IsDuration(DEFAULT_POLICY.max) && DEFAULT_POLICY.base * DEFAULT_POLICY.max < TWO_63
  {
    assert Pow2(4) == 16;
    var p := Pow2(attempt - 1);
    var x := pol.base * p;
    BackoffIsExact(pol, attempt);
    if p <= pol.max {
      MulMonotone(pol.base, p, pol.max);
    } else {
      var k := WrappedShift(pol.base, attempt - 1);
      if Wrap64(x) > 0 {
        MultipleIsLarge(k, p);
      }
    }
  }

  lemma MulMonotone(a: nat, b: int, c: int)
    requires b <= c
    ensures a * b <= a * c
  {
    assert a * (c - b) >= 0;
  }

  /** So the waits never get shorter. */
  lemma BackoffGrows(pol: Policy, attempt: nat)
    requires IsDuration(pol.base) && IsDuration(pol.max) && pol.base * pol.max < TWO_63 && attempt >= 1
    ensures BackoffFor(pol, attempt) <= BackoffFor(pol, attempt + 1) <= pol.max
  {
    BackoffDoubles(pol, attempt);
    BackoffDoubles(pol, attempt + 1);
    TwiceAsLong(pol.base, attempt);
    hide BackoffFor, Pow2;
  }

  lemma TwiceAsLong(base: nat, attempt: nat)
    requires attempt >= 1
    ensures base * Pow2(attempt) == 2 * (base * Pow2(attempt - 1)) && base * Pow2(attempt - 1) >= 0
  {
    MulMonotone(base, 0, Pow2(attempt - 1));
  }

  // ---------------------------------------------------------------------------------------
  // The retry budget
  // ---------------------------------------------------------------------------------------

  datatype StreamEnd = Clean | Interrupted | Dropped(stable: bool)

  /** What happens in one round: whether a dial succeeds, how the stream ends, whether a sleep is
      slept to its end. */
  datatype Round = Round(dials: bool, stream: StreamEnd, sleeps: bool)

  datatype Action = DialFailed | Reconnected | Ended(end: StreamEnd) | Slept(ns: int)

  datatype Result = Exit | DialError | StreamError

  /** Failures since the last stable connection, that connection's own drop included. */
  function Failures(log: seq<Action>): nat {
    if log == [] then 0
    else
      var before := Failures(log[..|log| - 1]);
      match log[|log| - 1]
      case DialFailed => before + 1
      case Ended(Dropped(stable)) => if stable then 1 else before + 1
      case _ => before
  }

  /** Sleeps since then. */
  function Sleeps(log: seq<Action>): nat {
    if log == [] then 0
    else
      var before := Sleeps(log[..|log| - 1]);
      match log[|log| - 1]
      case Slept(_) => before + 1
      case Ended(Dropped(true)) => 0
      case _ => before
  }

  function Budget(pol: Policy): nat {
    if pol.maxRetries < 0 then 0 else pol.maxRetries
  }

  predicate IsFailure(a: Action) {
    a.DialFailed? || (a.Ended? && a.end.Dropped?)
  }

  /** Every sleep follows a failure and is as long as the failures so far demand. */
  ghost predicate SleepsFit(pol: Policy, log: seq<Action>) {
    forall i :: 0 <= i < |log| && log[i].Slept? ==>
      && i > 0 && IsFailure(log[i - 1]) && Failures(log[..i]) >= 1
      && log[i].ns == BackoffFor(pol, Failures(log[..i])) && Sleeps(log[..i + 1]) == Failures(log[..i]) <= Budget(pol)
  }

  ghost predicate WithinBudget(pol: Policy, log: seq<Action>, below: nat) {
    forall i :: 0 <= i <= |log| && i < below ==> Failures(log[..i]) <= Budget(pol)
  }

  /** How many rounds have been slept through. */
  function Naps(log: seq<Action>): nat {
    if log == [] then 0 else Naps(log[..|log| - 1]) + (if log[|log| - 1].Slept? then 1 else 0)
  }

  /** What may come next: a stream at first and after a reconnect, a dial after a sleep, a sleep after
      a failure; each with the outcome its round dictates. */
  predicate Follows(env: nat -> Round, log: seq<Action>, a: Action) {
    var now := env(Naps(log));
    match a
    case Ended(end) => (log == [] || log[|log| - 1].Reconnected?) && end == now.stream
    case DialFailed => log != [] && log[|log| - 1].Slept? && !now.dials
    case Reconnected => log != [] && log[|log| - 1].Slept? && now.dials
    case Slept(_) => log != [] && IsFailure(log[|log| - 1]) && now.sleeps
  }

  ghost predicate Dictated(env: nat -> Round, log: seq<Action>) {
    forall i :: 0 <= i < |log| ==> Follows(env, log[..i], log[i])
  }

  /** It ends with a clean or interrupted stream, with a spent budget, or with an interrupted sleep. */
  predicate Ends(pol: Policy, env: nat -> Round, log: seq<Action>) {
    && log != []
    && var last := log[|log| - 1];
    || (last.Ended? && !last.end.Dropped?)
    || (IsFailure(last) && (Failures(log) > Budget(pol) || !env(Naps(log)).sleeps))
  }

  /** log is the whole run that the policy and the environment give. */
  ghost predicate IsRun(pol: Policy, env: nat -> Round, log: seq<Action>) {
    Dictated(env, log) && SleepsFit(pol, log) && WithinBudget(pol, log, |log|) && Ends(pol, env, log)
  }

  lemma {:induction false} RunsAgree(pol: Policy, env: nat -> Round, a: seq<Action>, b: seq<Action>, n: nat)
    requires IsRun(pol, env, a) && IsRun(pol, env, b) && n <= |a| && n <= |b|
    ensures a[..n] == b[..n]
  {
    hide *;
    if n > 0 {
      RunsAgree(pol, env, a, b, n - 1);
      SameNext(pol, env, a, b, n - 1);
      assert a[..n] == a[..n - 1] + [a[n - 1]] && b[..n] == b[..n - 1] + [b[n - 1]];
    }
  }

  lemma SameNext(pol: Policy, env: nat -> Round, a: seq<Action>, b: seq<Action>, n: nat)
    requires IsRun(pol, env, a) && IsRun(pol, env, b) && n < |a| && n < |b| && a[..n] == b[..n]
    ensures a[n] == b[n]
  {
    assert Follows(env, a[..n], a[n]) && Follows(env, b[..n], b[n]) by { hide SleepsFit, WithinBudget, Ends, Follows; }
    OneFollows(env, a[..n], a[n], b[n]);
    if a[n].Slept? && b[n].Slept? {
      RunSleeps(pol, env, a, n);
      RunSleeps(pol, env, b, n);
    }
    hide IsRun, Follows, Failures, BackoffFor;
  }

  /** What may come next is settled but for the length of a sleep. */
  lemma OneFollows(env: nat -> Round, log: seq<Action>, a: Action, b: Action)
    requires Follows(env, log, a) && Follows(env, log, b)
    ensures a == b || (a.Slept? && b.Slept?)
  {
    hide Naps;
  }

  lemma NothingFollows(pol: Policy, env: nat -> Round, log: seq<Action>, a: Action)
    requires Ends(pol, env, log) && Follows(env, log, a)
    ensures Failures(log) > Budget(pol)
  {
  }

  lemma RunAt(pol: Policy, env: nat -> Round, log: seq<Action>, n: nat)
    requires IsRun(pol, env, log) && n < |log|
    ensures Follows(env, log[..n], log[n]) && Failures(log[..n]) <= Budget(pol)
  {
  }

  lemma RunStops(pol: Policy, env: nat -> Round, a: seq<Action>, b: seq<Action>)
    requires IsRun(pol, env, a) && IsRun(pol, env, b) && |a| <= |b|
    ensures a == b
  {
    hide Dictated, SleepsFit, WithinBudget, Ends, Follows;
    RunsAgree(pol, env, a, b, |a|);
    assert a[..|a|] == a;
    if |a| == |b| {
      assert b[..|b|] == b;
    } else {
      RunAt(pol, env, b, |a|);
      NothingFollows(pol, env, a, b[|a|]);
      assert false;
    }
  }

  /** A run sleeps only after a failure the retries still bear, for as long as the failures so far
      demand. */
  lemma RunSleeps(pol: Policy, env: nat -> Round, log: seq<Action>, i: nat)
    requires IsRun(pol, env, log) && i < |log| && log[i].Slept?
    ensures i > 0 && (log[i - 1].DialFailed? || (log[i - 1].Ended? && log[i - 1].end.Dropped?))
    ensures 1 <= Failures(log[..i]) <= pol.maxRetries && log[i].ns == BackoffFor(pol, Failures(log[..i]))
  {
    hide Failures, BackoffFor, Sleeps, Dictated, Ends;
  }

  /** There is no other. */
  lemma RunIsUnique(pol: Policy, env: nat -> Round, a: seq<Action>, b: seq<Action>)
    requires IsRun(pol, env, a) && IsRun(pol, env, b)
    ensures a == b
  {
    if |a| <= |b| {
      RunStops(pol, env, a, b);
    } else {
      RunStops(pol, env, b, a);
    }
  }

  ghost predicate Good(pol: Policy, env: nat -> Round, log: seq<Action>) {
    WithinBudget(pol, log, |log| + 1) && SleepsFit(pol, log) && Dictated(env, log)
  }

  lemma DictatedGrows(env: nat -> Round, log: seq<Action>, a: Action)
    requires Dictated(env, log) && Follows(env, log, a)
    ensures Dictated(env, log + [a]) && Naps(log + [a]) == Naps(log) + (if a.Slept? then 1 else 0)
  {
    hide Follows;
    LogGrows(log, a);
    assert (log + [a])[..|log|] == log;
  }

  lemma LogGrows(log: seq<Action>, a: Action)
    ensures (log + [a])[..|log|] == log
    ensures forall i :: 0 <= i <= |log| ==> (log + [a])[..i] == log[..i]
  {
  }

  lemma FitGrows(pol: Policy, log: seq<Action>, a: Action)
    requires SleepsFit(pol, log)
    requires a.Slept? ==> log != [] && IsFailure(log[|log| - 1]) && 1 <= Failures(log) <= Budget(pol)
                          && a.ns == BackoffFor(pol, Failures(log)) && Sleeps(log + [a]) == Failures(log)
    ensures SleepsFit(pol, log + [a])
  {
    LogGrows(log, a);
    var log2 := log + [a];
    forall i | 0 <= i < |log2| && log2[i].Slept?
      ensures i > 0 && IsFailure(log2[i - 1]) && Failures(log2[..i]) >= 1
      ensures log2[i].ns == BackoffFor(pol, Failures(log2[..i])) && Sleeps(log2[..i + 1]) == Failures(log2[..i]) <= Budget(pol)
    {
      assert log2[..i] == log[..i];
      if i < |log| {
        assert log2[..i + 1] == log[..i + 1];
      } else {
        assert log2[..i + 1] == log2 && log[..i] == log;
      }
    }
  }

  lemma BudgetGrows(pol: Policy, log: seq<Action>, a: Action)
    requires WithinBudget(pol, log, |log| + 1)
    ensures WithinBudget(pol, log + [a], |log| + 1)
    ensures Failures(log + [a]) <= Budget(pol) ==> WithinBudget(pol, log + [a], |log| + 2)
  {
    hide Failures, Budget;
    LogGrows(log, a);
    assert (log + [a])[..|log| + 1] == log + [a];
  }

  /** A failure is counted, and is still good if the budget bears it. */
  lemma Failing(pol: Policy, env: nat -> Round, log: seq<Action>, a: Action)
    requires Good(pol, env, log) && IsFailure(a) && Sleeps(log) == Failures(log) && Follows(env, log, a)
    ensures Failures(log + [a]) == if a == Ended(Dropped(true)) then 1 else Failures(log) + 1
    ensures Sleeps(log + [a]) + 1 == Failures(log + [a])
    ensures WithinBudget(pol, log + [a], |log| + 1) && SleepsFit(pol, log + [a]) && Dictated(env, log + [a])
    ensures Naps(log + [a]) == Naps(log)
    ensures Failures(log + [a]) <= Budget(pol) ==> Good(pol, env, log + [a])
  {
    hide SleepsFit, WithinBudget, Dictated;
    LogGrows(log, a);
    FitGrows(pol, log, a);
    BudgetGrows(pol, log, a);
    DictatedGrows(env, log, a);
  }

  lemma Napping(pol: Policy, env: nat -> Round, log: seq<Action>)
    requires Good(pol, env, log) && log != [] && IsFailure(log[|log| - 1]) && 1 <= Failures(log) <= Budget(pol)
    requires Sleeps(log) + 1 == Failures(log) && env(Naps(log)).sleeps
    ensures var log2 := log + [Slept(BackoffFor(pol, Failures(log)))];
      Good(pol, env, log2) && Failures(log2) == Sleeps(log2) == Failures(log) && Naps(log2) == Naps(log) + 1
  {
    hide SleepsFit, WithinBudget, BackoffFor, Dictated;
    var nap := Slept(BackoffFor(pol, Failures(log)));
    LogGrows(log, nap);
    FitGrows(pol, log, nap);
    BudgetGrows(pol, log, nap);
    DictatedGrows(env, log, nap);
  }

  /** Reconnecting and ending cleanly cost nothing. */
  lemma Passing(pol: Policy, env: nat -> Round, log: seq<Action>, a: Action)
    requires Good(pol, env, log) && !IsFailure(a) && !a.Slept? && Follows(env, log, a)
    ensures Good(pol, env, log + [a]) && Naps(log + [a]) == Naps(log)
    ensures Failures(log + [a]) == Failures(log) && Sleeps(log + [a]) == Sleeps(log)
  {
    hide SleepsFit, Dictated;
    LogGrows(log, a);
    FitGrows(pol, log, a);
    BudgetGrows(pol, log, a);
    DictatedGrows(env, log, a);
  }

  lemma GoodSays(pol: Policy, env: nat -> Round, log: seq<Action>)
    requires Good(pol, env, log)
    ensures WithinBudget(pol, log, |log|) && SleepsFit(pol, log) && Failures(log) <= Budget(pol) && Dictated(env, log)
  {
    assert log[..|log|] == log;
  }

  /** Streams, and re-dials after an abnormal drop until the budget is spent. It ends if stable
      connections are finitely many, `lastStable` rounds at the most. The log is the one run of the
      environment; the error comes exactly when the failures since the last stable connection exceed
      the budget, and is that of the last failure. */
  method StreamWithReconnect(pol: Policy, env: nat -> Round, ghost lastStable: nat) returns (result: Result, log: seq<Action>)
    requires forall i :: i >= lastStable ==> env(i).stream != Dropped(true)
    ensures IsRun(pol, env, log)
    ensures result != Exit <==> Failures(log) > Budget(pol)
    ensures result != Exit ==> log != [] && Failures(log) == if pol.maxRetries < 0 then 1 else pol.maxRetries + 1
    ensures result == Exit ==> Failures(log) == 0 || Failures(log) <= pol.maxRetries
    ensures result == DialError ==> log[|log| - 1].DialFailed?
    ensures result == StreamError ==> log[|log| - 1].Ended? && log[|log| - 1].end.Dropped?
  {
    hide Failures, Sleeps, SleepsFit, WithinBudget, Good, BackoffFor, Dictated, Naps;
    var failures: nat := 0;
    var connected := true;
    var round: nat := 0;
    log := [];
    EmptyIsGood(pol, env);
    while true
      invariant failures == Failures(log) == Sleeps(log) <= Budget(pol) && round == Naps(log)
      invariant Good(pol, env, log)
      invariant if connected then log == [] else log != [] && log[|log| - 1].Slept?
      decreases if round < lastStable then lastStable - round else 0, Budget(pol) + 1 - failures
    {
      var now := env(round);
      round := round + 1;
      if !connected && !now.dials {
        Failing(pol, env, log, DialFailed);
        failures := failures + 1;
        log := log + [DialFailed];
        if failures > pol.maxRetries {
          return DialError, log;
        }
        if !now.sleeps {
          GoodSays(pol, env, log);
          return Exit, log;
        }
        Napping(pol, env, log);
        log := log + [Slept(BackoffFor(pol, failures))];
        continue;
      }
      if !connected {
        Passing(pol, env, log, Reconnected);
        log := log + [Reconnected];
      }
      if !now.stream.Dropped? {
        Passing(pol, env, log, Ended(now.stream));
        log := log + [Ended(now.stream)];
        GoodSays(pol, env, log);
        return Exit, log;
      }
      Failing(pol, env, log, Ended(now.stream));
      log := log + [Ended(now.stream)];
      connected := false;
      if now.stream.stable {
        failures := 0;
      }
      failures := failures + 1;
      if failures > pol.maxRetries {
        return StreamError, log;
      }
      if !now.sleeps {
        GoodSays(pol, env, log);
        return Exit, log;
      }
      Napping(pol, env, log);
      log := log + [Slept(BackoffFor(pol, failures))];
    }
  }

  lemma EmptyIsGood(pol: Policy, env: nat -> Round)
    ensures Good(pol, env, []) && Failures([]) == 0 && Sleeps([]) == 0 && Naps([]) == 0
  {
  }
}
