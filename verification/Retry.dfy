/**
 The two retry loops of the repository: withRetry (internal/storage/postgresql.go) and
 retryOnConnErr (internal/agent/util.go). The retried closure changes state outside the
 loop, so it is a function from that state and the number of the call.
 */
module Retry {
  import opened Model

  datatype Error =
    | PgError(code: string)       // found by errors.As through any wrapping
    | NetError                    // implements net.Error
    | Plain(message: string)
    | ContextDone

  datatype Outcome<S> = Outcome(state: S, err: Option<Error>)

  type Attempt<!S> = (S, nat) -> Outcome<S>

  /** Seconds to wait after the first, second and third failure. */
  const DELAYS: seq<nat> := [1, 3, 5]

  function Waited(retries: nat): nat {
    if retries == 0 then 0
    else Waited(retries - 1) + if retries <= |DELAYS| then DELAYS[retries - 1] else 0
  }

  /** What a loop did: the final state and error, the calls it made, the seconds it scheduled. */
  datatype Trace<S> = Trace(state: S, err: Option<Error>, calls: nat, waited: nat)

  /**
   Call number k onwards: stop on success, on an error that is not retriable and after the
   last delay; cancelled(k) says whether the context wins the select after call k.
   */
  function Attempts<S>(s: S, fn: Attempt<S>, retriable: Error -> bool, cancelled: nat -> bool, k: nat): Trace<S>
    requires k <= |DELAYS|
    decreases |DELAYS| - k
  {
    var o := fn(s, k);
    if o.err.None? || !retriable(o.err.value) || k == |DELAYS| then Trace(o.state, o.err, k + 1, Waited(k))
    else if cancelled(k) then Trace(o.state, Some(ContextDone), k + 1, Waited(k))
    else Attempts(o.state, fn, retriable, cancelled, k + 1)
  }

  /** withRetry: the attempt counter runs past the last delay and guards both exits itself. */
  method WithRetry<S>(s: S, fn: Attempt<S>, retriable: Error -> bool, cancelled: nat -> bool)
    returns (t: Trace<S>)
    ensures t == Attempts(s, fn, retriable, cancelled, 0)
  {
    var state, attempt, waited := s, 0, 0;
    while attempt <= |DELAYS|
      invariant attempt <= |DELAYS| + 1 && waited == Waited(attempt)
      invariant attempt <= |DELAYS| ==>
        Attempts(s, fn, retriable, cancelled, 0) == Attempts(state, fn, retriable, cancelled, attempt)
      invariant attempt <= |DELAYS|
    {
      var o := fn(state, attempt);
      state := o.state;
      if o.err.None? {
        return Trace(state, None, attempt + 1, waited);
      }
      if !retriable(o.err.value) || attempt == |DELAYS| {
        return Trace(state, o.err, attempt + 1, waited);
      }
      if cancelled(attempt) {
        return Trace(state, Some(ContextDone), attempt + 1, waited);
      }
      waited := waited + DELAYS[attempt];
      attempt := attempt + 1;
    }
  }

  /** retryOnConnErr: one call before the loop, then one per delay, leaving the last error to the end. */
  method RetryOnConnErr<S>(s: S, fn: Attempt<S>, retriable: Error -> bool, cancelled: nat -> bool)
    returns (t: Trace<S>)
    ensures t == Attempts(s, fn, retriable, cancelled, 0)
  {
    var o := fn(s, 0);
    var calls, waited := 1, 0;
    for i := 0 to |DELAYS|
      invariant calls == i + 1 && waited == Waited(i)
      invariant exists before ::
        (o == fn(before, i) &&
         Attempts(s, fn, retriable, cancelled, 0) == Attempts(before, fn, retriable, cancelled, i))
    {
      if o.err.None? || !retriable(o.err.value) {
        break;
      }
      if cancelled(i) {
        return Trace(o.state, Some(ContextDone), calls, waited);
      }
      waited := waited + DELAYS[i];
      o := fn(o.state, i + 1);
      calls := calls + 1;
    }
    return Trace(o.state, o.err, calls, waited);
  }

  /** Between one and four calls, at most nine seconds of delay, an error that ends the loop early is final, and no success is retried. */
  lemma {:induction false} AttemptBounds<S>(s: S, fn: Attempt<S>, retriable: Error -> bool, cancelled: nat -> bool, k: nat)
    requires k <= |DELAYS|
    ensures
      var t := Attempts(s, fn, retriable, cancelled, k);
      && k + 1 <= t.calls <= 4 && t.waited == Waited(t.calls - 1) <= 9
      && (t.err.Some? && t.calls < 4 ==> t.err == Some(ContextDone) || !retriable(t.err.value))
      && (fn(s, k).err.None? ==> t == Trace(fn(s, k).state, None, k + 1, Waited(k)))
    decreases |DELAYS| - k
  {
    assert Waited(0) == 0 && Waited(1) == 1 && Waited(2) == 4 && Waited(3) == 9;
    var o := fn(s, k);
    if o.err.Some? && retriable(o.err.value) && k < |DELAYS| && !cancelled(k) {
      AttemptBounds(o.state, fn, retriable, cancelled, k + 1);
    }
  }

  /** The state that call number n meets, if all calls before it are made. */
  function StateBefore<S>(s: S, fn: Attempt<S>, n: nat): S {
    if n == 0 then s else fn(StateBefore(s, fn, n - 1), n - 1).state
  }

  /** What call number n returns. */
  function Call<S>(s: S, fn: Attempt<S>, n: nat): Outcome<S> {
    fn(StateBefore(s, fn, n), n)
  }

  /** After call number n the loop waits and makes another call. */
  predicate Repeats<S>(s: S, fn: Attempt<S>, retriable: Error -> bool, cancelled: nat -> bool, n: nat) {
    var o := Call(s, fn, n);
    n < 3 && o.err.Some? && retriable(o.err.value) && !cancelled(n)
  }

  /** What the loop reports when call number n is its last. */
  function Verdict<S>(s: S, fn: Attempt<S>, retriable: Error -> bool, n: nat): Option<Error> {
    var o := Call(s, fn, n);
    if o.err.Some? && retriable(o.err.value) && n < 3 then Some(ContextDone) else o.err
  }

  lemma {:induction false} LastCallFrom<S>(s: S, fn: Attempt<S>, retriable: Error -> bool, cancelled: nat -> bool, k: nat)
    returns (n: nat)
    requires k <= 3
    ensures k <= n <= 3 && forall j :: k <= j < n ==> Repeats(s, fn, retriable, cancelled, j)
    ensures !Repeats(s, fn, retriable, cancelled, n)
    ensures Attempts(StateBefore(s, fn, k), fn, retriable, cancelled, k) ==
            Trace(Call(s, fn, n).state, Verdict(s, fn, retriable, n), n + 1, Waited(n))
    decreases 3 - k
  {
    if Repeats(s, fn, retriable, cancelled, k) {
      n := LastCallFrom(s, fn, retriable, cancelled, k + 1);
    } else {
      n := k;
    }
  }

  /**
   The loop makes calls 0 to n, where n is the first that succeeds, fails for good, is the
   fourth, or after which the context is done. It ends in that call's state, after delays of
   1, 3 and 5 s between calls, and reports the context's error in the last case, otherwise
   whatever that call returned.
   */
  lemma LastCall<S>(s: S, fn: Attempt<S>, retriable: Error -> bool, cancelled: nat -> bool) returns (n: nat)
    ensures n <= 3 && forall j :: 0 <= j < n ==> Repeats(s, fn, retriable, cancelled, j)
    ensures !Repeats(s, fn, retriable, cancelled, n)
    ensures Attempts(s, fn, retriable, cancelled, 0) ==
            Trace(Call(s, fn, n).state, Verdict(s, fn, retriable, n), n + 1,
                  if n == 0 then 0 else if n == 1 then 1 else if n == 2 then 1 + 3 else 1 + 3 + 5)
  {
    n := LastCallFrom(s, fn, retriable, cancelled, 0);
    assert Waited(0) == 0 && Waited(1) == 1 && Waited(2) == 4 && Waited(3) == 9;
  }

  ghost predicate AlwaysFails<S(!new)>(fn: Attempt<S>, retriable: Error -> bool, cancelled: nat -> bool) {
    (forall s, k :: fn(s, k).err.Some? && retriable(fn(s, k).err.value)) && forall k: nat :: !cancelled(k)
  }

  /** The bounds are reached: if every call fails with a retriable error, there are four, over nine seconds. */
  lemma {:induction false} FourCalls<S(!new)>(s: S, fn: Attempt<S>, retriable: Error -> bool, cancelled: nat -> bool, k: nat)
    requires k <= |DELAYS| && AlwaysFails(fn, retriable, cancelled)
    ensures
      var t := Attempts(s, fn, retriable, cancelled, k);
      t.calls == 4 && t.waited == 9 && t.err.Some?
    decreases |DELAYS| - k
  {
    assert Waited(0) == 0 && Waited(1) == 1 && Waited(2) == 4 && Waited(3) == 9;
    if k == |DELAYS| {
    } else {
      FourCalls(fn(s, k).state, fn, retriable, cancelled, k + 1);
    }
  }

  // ---- Attempts that took effect ------------------------------------------------------------

  /** Call number k in state s reported an error although it took effect. */
  type Silently<!S> = (S, nat) -> bool

  /** A call takes its one effect when it succeeds, or silently; otherwise it changes nothing. */
  ghost predicate AllOrNothing<S(!new)>(fn: Attempt<S>, silent: Silently<S>, effect: S -> S) {
    forall s, k ::
      && fn(s, k).state == (if fn(s, k).err.None? || silent(s, k) then effect(s) else s)
      && (silent(s, k) ==> fn(s, k).err.Some?)
  }

  /** How many of the calls from number k on took effect silently. */
  function SilentCalls<S>(s: S, fn: Attempt<S>, silent: Silently<S>, retriable: Error -> bool,
                          cancelled: nat -> bool, k: nat): nat
    requires k <= |DELAYS|
    decreases |DELAYS| - k
  {
    var o := fn(s, k);
    var here := if silent(s, k) then 1 else 0;
    if o.err.None? || !retriable(o.err.value) || k == |DELAYS| || cancelled(k) then here
    else here + SilentCalls(o.state, fn, silent, retriable, cancelled, k + 1)
  }

  /** Is the loop to make another call after call number k? */
  predicate GoesOn<S>(o: Outcome<S>, retriable: Error -> bool, cancelled: nat -> bool, k: nat) {
    o.err.Some? && retriable(o.err.value) && k < |DELAYS| && !cancelled(k)
  }

  /** How many calls from number k on took effect, silently or by succeeding. */
  function EffectiveCalls<S>(s: S, fn: Attempt<S>, silent: Silently<S>, retriable: Error -> bool,
                             cancelled: nat -> bool, k: nat): nat
    requires k <= |DELAYS|
  {
    SilentCalls(s, fn, silent, retriable, cancelled, k) +
    if Attempts(s, fn, retriable, cancelled, k).err.None? then 1 else 0
  }

  lemma OneCall<S>(s: S, fn: Attempt<S>, silent: Silently<S>, retriable: Error -> bool, cancelled: nat -> bool, k: nat)
    requires k <= |DELAYS| && (silent(s, k) ==> fn(s, k).err.Some?)
    ensures
      var o := fn(s, k);
      var here := if o.err.None? || silent(s, k) then 1 else 0;
      if GoesOn(o, retriable, cancelled, k)
      then EffectiveCalls(s, fn, silent, retriable, cancelled, k) ==
           here + EffectiveCalls(o.state, fn, silent, retriable, cancelled, k + 1)
           && Attempts(s, fn, retriable, cancelled, k).state == Attempts(o.state, fn, retriable, cancelled, k + 1).state
      else EffectiveCalls(s, fn, silent, retriable, cancelled, k) == here
           && Attempts(s, fn, retriable, cancelled, k).state == o.state
  {
  }

  function Iterate<S>(effect: S -> S, s: S, n: nat): S {
    if n == 0 then s else effect(Iterate(effect, s, n - 1))
  }

  lemma {:induction false} IterateShift<S>(effect: S -> S, s: S, n: nat)
    ensures Iterate(effect, effect(s), n) == Iterate(effect, s, n + 1)
  {
    if n == 0 {
    } else {
      IterateShift(effect, s, n - 1);
    }
  }

  /** A retried call is applied once per silent effect, and once more if the loop reports success. */
  lemma {:induction false} RetriedEffects<S(!new)>(s: S, fn: Attempt<S>, silent: Silently<S>, effect: S -> S,
                                                   retriable: Error -> bool, cancelled: nat -> bool, k: nat)
    requires k <= |DELAYS| && AllOrNothing(fn, silent, effect)
    ensures Attempts(s, fn, retriable, cancelled, k).state ==
            Iterate(effect, s, EffectiveCalls(s, fn, silent, retriable, cancelled, k))
    decreases |DELAYS| - k
  {
    var o := fn(s, k);
    OneCall(s, fn, silent, retriable, cancelled, k);
    assert Iterate(effect, s, 0) == s && Iterate(effect, s, 1) == effect(s);
    if GoesOn(o, retriable, cancelled, k) {
      RetriedEffects(o.state, fn, silent, effect, retriable, cancelled, k + 1);
      IterateShift(effect, s, EffectiveCalls(o.state, fn, silent, retriable, cancelled, k + 1));
    }
  }

  /** No call takes its effect more than once. */
  lemma {:induction false} EffectsWithinCalls<S(!new)>(s: S, fn: Attempt<S>, silent: Silently<S>, effect: S -> S,
                                                       retriable: Error -> bool, cancelled: nat -> bool, k: nat)
    requires k <= |DELAYS| && AllOrNothing(fn, silent, effect)
    ensures k + EffectiveCalls(s, fn, silent, retriable, cancelled, k) <= Attempts(s, fn, retriable, cancelled, k).calls
    decreases |DELAYS| - k
  {
    var o := fn(s, k);
    OneCall(s, fn, silent, retriable, cancelled, k);
    if GoesOn(o, retriable, cancelled, k) {
      EffectsWithinCalls(o.state, fn, silent, effect, retriable, cancelled, k + 1);
    }
  }

  function Repeated(n: nat, x: int): int {
    if n == 0 then 0 else x + Repeated(n - 1, x)
  }

  lemma {:induction false} RepeatedIsProduct(n: nat, x: int)
    ensures Repeated(n, x) == n * x
  {
    if n == 0 {
    } else {
      RepeatedIsProduct(n - 1, x);
      assert n * x == (n - 1) * x + x;
    }
  }

  /** Every effect moves the quantity by d, and nothing else moves it. */
  ghost predicate Moves<S(!new)>(fn: Attempt<S>, silent: Silently<S>, quantity: S -> int, d: int) {
    forall s, k ::
      && quantity(fn(s, k).state) == quantity(s) + (if fn(s, k).err.None? || silent(s, k) then d else 0)
      && (silent(s, k) ==> fn(s, k).err.Some?)
  }

  lemma RepeatedStep(n: nat, d: int)
    ensures Repeated(n + 1, d) == d + Repeated(n, d) && Repeated(0, d) == 0
  {
  }

  lemma MovesOnce<S(!new)>(s: S, fn: Attempt<S>, silent: Silently<S>, quantity: S -> int, d: int, k: nat)
    requires Moves(fn, silent, quantity, d)
    ensures quantity(fn(s, k).state) == quantity(s) + if fn(s, k).err.None? || silent(s, k) then d else 0
    ensures silent(s, k) ==> fn(s, k).err.Some?
  {
  }

  /** A quantity that each effect moves by d is moved by d once per effect. */
  lemma {:induction false} RetriedSum<S(!new)>(s: S, fn: Attempt<S>, silent: Silently<S>, quantity: S -> int, d: int,
                                               retriable: Error -> bool, cancelled: nat -> bool, k: nat)
    requires k <= |DELAYS| && Moves(fn, silent, quantity, d)
    ensures quantity(Attempts(s, fn, retriable, cancelled, k).state) ==
            quantity(s) + Repeated(EffectiveCalls(s, fn, silent, retriable, cancelled, k), d)
    decreases |DELAYS| - k
  {
    var o := fn(s, k);
    MovesOnce(s, fn, silent, quantity, d, k);
    OneCall(s, fn, silent, retriable, cancelled, k);
    RepeatedStep(0, d);
    if GoesOn(o, retriable, cancelled, k) {
      RetriedSum(o.state, fn, silent, quantity, d, retriable, cancelled, k + 1);
      RepeatedStep(EffectiveCalls(o.state, fn, silent, retriable, cancelled, k + 1), d);
    }
  }

  lemma {:induction false} NothingSilent<S(!new)>(s: S, fn: Attempt<S>, silent: Silently<S>,
                                                  retriable: Error -> bool, cancelled: nat -> bool, k: nat)
    requires k <= |DELAYS| && forall s, k :: !silent(s, k)
    ensures SilentCalls(s, fn, silent, retriable, cancelled, k) == 0
    decreases |DELAYS| - k
  {
    var o := fn(s, k);
    if o.err.Some? && retriable(o.err.value) && k < |DELAYS| && !cancelled(k) {
      NothingSilent(o.state, fn, silent, retriable, cancelled, k + 1);
    }
  }

  /** Class 08 of the PostgreSQL error codes, each code the source names. */
  predicate RetriableDB(e: Error) {
    e.PgError? &&
    e.code in {"08000", "08001", "08003", "08004", "08006", "08007", "08P01"}
  }

  /** The connection exceptions of appendix A of the PostgreSQL manual: all of class 08. */
  lemma RetriesClass08(code: string)
    ensures RetriableDB(PgError(code)) <==>
      |code| == 5 && code[..2] == "08" && code[2..] in ["000", "001", "003", "004", "006", "007", "P01"]
    ensures !RetriableDB(NetError) && !RetriableDB(ContextDone) && !RetriableDB(Plain(code))
  {
    assert "08000"[2..] == "000" && "08001"[2..] == "001" && "08003"[2..] == "003" && "08004"[2..] == "004";
    assert "08006"[2..] == "006" && "08007"[2..] == "007" && "08P01"[2..] == "P01";
    if |code| == 5 && code[..2] == "08" {
      assert code == "08" + code[2..];
      assert "08" + "000" == "08000" && "08" + "001" == "08001" && "08" + "003" == "08003" && "08" + "004" == "08004";
      assert "08" + "006" == "08006" && "08" + "007" == "08007" && "08" + "P01" == "08P01";
    }
  }

  predicate RetriableNet(e: Error) {
    e.NetError?
  }
}
