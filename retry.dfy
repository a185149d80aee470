/**
 * The retry strategies of the edge device: calling a function once, or
 * calling it until it stops failing with an expected exception, sleeping
 * between attempts for a growing, capped delay.
 *
 * Durations are integer microseconds, the resolution of Python's
 * `timedelta`. The function being retried is represented by the outcomes of
 * its successive calls.
 */
module Retry {
  import opened Wrappers

  type Micros = int

  const Second: Micros := 1_000_000
  const DefaultStart: Micros := Second
  const DefaultMaxBackoff: Option<Micros> := Some(5 * 60 * Second)
  const DefaultFactor: int := 2

  /**
   * The type of a raised exception: its class name and the names of all the
   * classes it inherits from (its method resolution order without itself).
   */
  datatype ExceptionType = ExceptionType(name: string, bases: set<string>)

  /**
   * `except expected_exceptions:` catches an exception when its class or one
   * of the classes it inherits from is listed.
   */
  predicate Catches(expected: set<string>, e: ExceptionType)
  {
    e.name in expected || e.bases * expected != {}
  }

  /** What one call of the function does: return a value, or raise an exception of the given type. */
  datatype Outcome<T> = Returns(value: T) | Raises(exception: ExceptionType)

  /**
   * What `execute` ends with: the value returned, the exception propagated,
   * or, when the given outcomes run out on expected failures, still retrying.
   */
  datatype ExecuteResult<T> = Returned(value: T) | Raised(exception: ExceptionType) | StillRetrying

  /** `NoRetry.execute`: one call, its value or its exception unchanged. */
  function NoRetryExecute<T>(first: Outcome<T>): (r: ExecuteResult<T>)
    ensures first.Returns? ==> r == Returned(first.value)
    ensures first.Raises? ==> r == Raised(first.exception)
  {
    match first
    case Returns(v) => Returned(v)
    case Raises(e) => Raised(e)
  }

  /** `exponential_backoff_factory(factor)`: the previous delay times the factor. */
  function ExponentialBackoff(factor: int): (f: Micros -> Micros)
    ensures forall d :: f(d) == d * factor
  {
    d => d * factor
  }

  /** A configured `BackOff`: `maxBackoff == None` is the infinite cap. */
  datatype BackOff = BackOff(backoffFcn: Micros -> Micros, initialBackoff: Micros, maxBackoff: Option<Micros>)

  /**
   * The constructor as written: the default function doubles, and an absent
   * maximum is replaced by `timedelta(seconds=float("inf"))`, which raises
   * `OverflowError` because a `timedelta` cannot hold an infinite duration.
   */
  function NewBackOffAsWritten(backoffFcn: Option<Micros -> Micros>, start: Micros, maxBackoff: Option<Micros>): (r: Result<BackOff, string>)
    ensures r.Err? <==> maxBackoff.None?
    ensures r.Err? ==> r.error == "OverflowError"
    ensures r.Ok? ==> r.value == NewBackOff(backoffFcn, start, maxBackoff)
  {
    if maxBackoff.None? then Err("OverflowError") else Ok(NewBackOff(backoffFcn, start, maxBackoff))
  }

  /**
   * The constructor as intended: the default function doubles, and an absent
   * maximum means no cap.
   */
  function NewBackOff(backoffFcn: Option<Micros -> Micros>, start: Micros, maxBackoff: Option<Micros>): (b: BackOff)
    ensures b.initialBackoff == start && b.maxBackoff == maxBackoff
    ensures backoffFcn.Some? ==> b.backoffFcn == backoffFcn.value
    ensures backoffFcn.None? ==> forall d :: b.backoffFcn(d) == 2 * d
  {
    BackOff(if backoffFcn.Some? then backoffFcn.value else ExponentialBackoff(DefaultFactor), start, maxBackoff)
  }

  /** `min(f(d), max)`, where an absent maximum never wins. */
  function NextDelay(b: BackOff, d: Micros): (n: Micros)
    ensures b.maxBackoff.None? ==> n == b.backoffFcn(d)
    ensures b.maxBackoff.Some? ==> n <= b.maxBackoff.value && n <= b.backoffFcn(d)
    ensures b.maxBackoff.Some? ==> n == b.maxBackoff.value || n == b.backoffFcn(d)
  {
    var next := b.backoffFcn(d);
    if b.maxBackoff.Some? && b.maxBackoff.value < next then b.maxBackoff.value else next
  }

  /** The delay slept after the `k`-th expected failure (counting from 0). */
  function Delay(b: BackOff, k: nat): Micros
  {
    if k == 0 then b.initialBackoff else NextDelay(b, Delay(b, k - 1))
  }

  /** The sleeps of `n` expected failures in a row. */
  function Schedule(b: BackOff, n: nat): (s: seq<Micros>)
    ensures |s| == n
    ensures forall k :: 0 <= k < n ==> s[k] == Delay(b, k)
  {
    if n == 0 then [] else Schedule(b, n - 1) + [Delay(b, n - 1)]
  }

  /** The first call that does not fail with an expected exception, from `i` on. */
  function FirstDecisive<T>(outcomes: seq<Outcome<T>>, expected: set<string>, i: nat): (j: nat)
    requires i <= |outcomes|
    ensures i <= j <= |outcomes|
    ensures forall k :: i <= k < j ==> outcomes[k].Raises? && Catches(expected, outcomes[k].exception)
    ensures j < |outcomes| ==> outcomes[j].Returns? || !Catches(expected, outcomes[j].exception)
    decreases |outcomes| - i
  {
    if i == |outcomes| then i
    else if outcomes[i].Raises? && Catches(expected, outcomes[i].exception) then FirstDecisive(outcomes, expected, i + 1)
    else i
  }

  /** What `BackOff.execute` ends with, given the outcomes of its calls. */
  function BackOffResult<T>(outcomes: seq<Outcome<T>>, expected: set<string>): ExecuteResult<T>
  {
    var j := FirstDecisive(outcomes, expected, 0);
    if j == |outcomes| then StillRetrying
    else match outcomes[j]
      case Returns(v) => Returned(v)
      case Raises(e) => Raised(e)
  }

  /**
   * `BackOff.execute`: call, and on an expected exception sleep and grow the
   * delay; a value or any other exception ends the loop at once.
   */
  method Execute<T>(b: BackOff, outcomes: seq<Outcome<T>>, expected: set<string>)
    returns (r: ExecuteResult<T>, sleeps: seq<Micros>)
    ensures r == BackOffResult(outcomes, expected)
    ensures sleeps == Schedule(b, FirstDecisive(outcomes, expected, 0))
  {
    var backoffTime := b.initialBackoff;
    sleeps := [];
    var i := 0;
    while i < |outcomes|
      invariant 0 <= i <= |outcomes|
      invariant FirstDecisive(outcomes, expected, 0) == FirstDecisive(outcomes, expected, i)
      invariant sleeps == Schedule(b, i) && backoffTime == Delay(b, i)
      decreases |outcomes| - i
    {
      match outcomes[i]
      case Returns(v) =>
        return Returned(v), sleeps;
      case Raises(e) =>
        if !Catches(expected, e) {
          return Raised(e), sleeps;
        }
      sleeps := sleeps + [backoffTime];
      backoffTime := NextDelay(b, backoffTime);
      i := i + 1;
    }
    r := StillRetrying;
  }

  /** An unexpected exception on the first call propagates with no sleep. */
  lemma UnexpectedPropagatesAtOnce<T>(b: BackOff, outcomes: seq<Outcome<T>>, expected: set<string>)
    requires |outcomes| > 0 && outcomes[0].Raises? && !Catches(expected, outcomes[0].exception)
    ensures BackOffResult(outcomes, expected) == Raised(outcomes[0].exception)
    ensures Schedule(b, FirstDecisive(outcomes, expected, 0)) == []
  {
  }

  /** The first successful call's value is returned, after one sleep per expected failure before it. */
  lemma {:induction false} FirstSuccessReturned<T>(outcomes: seq<Outcome<T>>, expected: set<string>, i: nat, j: nat)
    requires i <= j < |outcomes| && outcomes[j].Returns?
    requires forall k :: i <= k < j ==> outcomes[k].Raises? && Catches(expected, outcomes[k].exception)
    ensures FirstDecisive(outcomes, expected, i) == j
    decreases j - i
  {
    if i < j {
      FirstSuccessReturned(outcomes, expected, i + 1, j);
    }
  }

  /** With the doubling default and a cap no smaller than the start, delays never decrease and never exceed the cap. */
  lemma {:induction false} DefaultScheduleMonotone(start: Micros, cap: Micros, k: nat)
    requires 0 <= start <= cap
    ensures var b := NewBackOff(None, start, Some(cap));
      Delay(b, k) <= Delay(b, k + 1) && Delay(b, k) <= cap
  {
    var b := NewBackOff(None, start, Some(cap));
    if k > 0 {
      DefaultScheduleMonotone(start, cap, k - 1);
    }
    assert Delay(b, k + 1) == NextDelay(b, Delay(b, k));
  }

  /** Every delay after the first is capped, whatever the function; the first is the start, uncapped. */
  lemma CapAfterFirst(b: BackOff, k: nat)
    requires b.maxBackoff.Some? && k >= 1
    ensures Delay(b, k) <= b.maxBackoff.value
    ensures Delay(b, 0) == b.initialBackoff
  {
  }

  function Pow(base: int, n: nat): int
  {
    if n == 0 then 1 else base * Pow(base, n - 1)
  }

  /** Without a cap the default delays are start, 2 start, 4 start, ... */
  lemma {:induction false} UncappedDoubling(start: Micros, k: nat)
    ensures Delay(NewBackOff(None, start, None), k) == start * Pow(2, k)
  {
    if k > 0 {
      UncappedDoubling(start, k - 1);
      var b := NewBackOff(None, start, None);
      assert Delay(b, k) == 2 * Delay(b, k - 1);
      assert start * Pow(2, k) == 2 * (start * Pow(2, k - 1));
    }
  }

  /** A start above the cap is followed by the smaller cap: the schedule then decreases once. */
  lemma StartAboveCapDecreases(start: Micros, cap: Micros)
    requires 0 <= cap < start
    ensures Delay(NewBackOff(None, start, Some(cap)), 1) == cap < start
  {
  }

  /** Start 100 ms, doubling, cap 250 ms: the sleeps are 100, 200 and 250 ms. */
  lemma ScheduleExample()
    ensures Schedule(NewBackOff(None, 100_000, Some(250_000)), 3) == [100_000, 200_000, 250_000]
  {
    var b := NewBackOff(None, 100_000, Some(250_000));
    assert Delay(b, 1) == 200_000;
    assert Delay(b, 2) == 250_000;
  }

  const ValueError := ExceptionType("ValueError", {"Exception", "BaseException"})

  /** Three expected failures and a success: the value is returned after those three sleeps. */
  lemma ExecuteExample()
    ensures var outcomes := [Raises(ValueError), Raises(ValueError), Raises(ValueError), Returns(42)];
      BackOffResult(outcomes, {"ValueError"}) == Returned(42) &&
      FirstDecisive(outcomes, {"ValueError"}, 0) == 3
  {
    var outcomes := [Raises(ValueError), Raises(ValueError), Raises(ValueError), Returns(42)];
    FirstSuccessReturned(outcomes, {"ValueError"}, 0, 3);
  }

  /**
   * An exception whose class inherits from a listed one is retried like the
   * listed one: with `(Exception,)`, as the device's websocket connection
   * passes, every failure of a call is retried.
   */
  lemma SubclassIsRetried<T>(outcomes: seq<Outcome<T>>, expected: set<string>, base: string)
    requires |outcomes| >= 2 && outcomes[0].Raises? && outcomes[1].Returns?
    requires base in expected && base in outcomes[0].exception.bases
    ensures BackOffResult(outcomes, expected) == Returned(outcomes[1].value)
    ensures FirstDecisive(outcomes, expected, 0) == 1
  {
    assert base in outcomes[0].exception.bases * expected;
    FirstSuccessReturned(outcomes, expected, 0, 1);
  }

  /** A listed base class is enough for an exception to be caught; an unrelated listed class is not. */
  lemma CatchesExample()
    ensures Catches({"Exception"}, ValueError)
    ensures !Catches({"TimeoutError"}, ValueError)
  {
    assert "Exception" in ValueError.bases * {"Exception"};
  }

  /** The constructor as written refuses an absent maximum, so an uncapped schedule is never reached. */
  lemma UncappedConstructionRaises(backoffFcn: Option<Micros -> Micros>, start: Micros)
    ensures NewBackOffAsWritten(backoffFcn, start, None) == Err("OverflowError")
    ensures NewBackOffAsWritten(backoffFcn, start, DefaultMaxBackoff).Ok?
  {
  }
}
