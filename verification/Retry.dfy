/** The bounded retry loop every read and every write goes through. */
module Retry {
  import opened Wrappers
  import opened GoTime

  const MAX_RETRIES: nat := 10

  /** What one call of the retried function returns: whether to go on, and its error. */
  datatype Attempt<+E> = Attempt(again: bool, err: Option<E>)

  datatype Outcome<+E> = Done | Failed(err: E) | RetryLimit

  predicate Stops<E>(a: Attempt<E>) {
    !a.again || a.err.None?
  }

  /** The loop made exactly `calls` calls and ended with `res`. */
  ghost predicate Ended<E>(fn: nat -> Attempt<E>, calls: nat, res: Outcome<E>) {
    && 1 <= calls <= MAX_RETRIES
    && (forall n :: 1 <= n < calls ==> !Stops(fn(n)))
    && (calls < MAX_RETRIES ==> Stops(fn(calls)))
    && res == if !Stops(fn(calls)) then RetryLimit
              else if fn(calls).err.None? then Done
              else Failed(fn(calls).err.value)
  }

  method Do<E>(fn: nat -> Attempt<E>) returns (res: Outcome<E>, calls: nat)
    ensures Ended(fn, calls, res)
  {
    var attempt := 1;
    while true
      invariant 1 <= attempt <= MAX_RETRIES
      invariant forall n :: 1 <= n < attempt ==> !Stops(fn(n))
      decreases MAX_RETRIES - attempt
    {
      var a := fn(attempt);
      if !a.again || a.err.None? {
        return (if a.err.None? then Done else Failed(a.err.value)), attempt;
      }
      if attempt + 1 > MAX_RETRIES {
        return RetryLimit, attempt;
      }
      attempt := attempt + 1;
    }
  }

  /** The callback of ReadDB and WriteDB asks for another attempt while attempt < r. */
  function Callback<E>(errs: nat -> Option<E>, r: int): nat -> Attempt<E> {
    (n: nat) => Attempt(n < r, errs(n))
  }

  /** The number of calls rw-max-retries = r allows: at least one, never more than ten. */
  function Budget(r: int): nat {
    Min(Max(r, 1), MAX_RETRIES)
  }

  /** Some call within the budget returned no error. */
  ghost predicate SomeSuccess<E>(errs: nat -> Option<E>, r: int) {
    exists n :: 1 <= n <= Budget(r) && errs(n).None?
  }

  lemma RetryBudget<E>(errs: nat -> Option<E>, r: int, calls: nat, res: Outcome<E>)
    requires Ended(Callback(errs, r), calls, res)
    ensures calls <= Budget(r)
    ensures forall n :: 1 <= n < calls ==> errs(n).Some?
    ensures res == Done <==> SomeSuccess(errs, r)
    ensures res == Done ==> errs(calls).None?
    ensures res == RetryLimit <==> r > MAX_RETRIES && !SomeSuccess(errs, r)
    ensures !SomeSuccess(errs, r) ==> calls == Budget(r)
  {
    var fn := Callback(errs, r);
    forall n | 1 <= n < calls ensures errs(n).Some? && n < r {
      assert !Stops(fn(n));
    }
    assert calls > Budget(r) ==> !Stops(fn(Budget(r)));
    forall n | 1 <= n <= Budget(r) && errs(n).None? ensures calls <= n {
      assert Stops(fn(n));
    }
    assert calls < Budget(r) ==> Stops(fn(calls));
  }

  /** Whatever the calls return, r of them are made before the loop gives up. */
  ghost predicate AtLeast<E(!new)>(r: int) {
    forall errs: nat -> Option<E>, calls: nat, res ::
      Ended(Callback(errs, r), calls, res) && res != Done ==> calls >= r
  }

  /** The sample configuration promises at least rw-max-retries calls of a query that keeps
      failing. The loop makes that many exactly when the setting is ten at most. */
  lemma AtLeastExact<E(!new)>(r: int, e: E)
    ensures AtLeast<E>(r) <==> r <= 10
  {
    if r <= MAX_RETRIES {
      forall errs: nat -> Option<E>, calls: nat, res | Ended(Callback(errs, r), calls, res) && res != Done
        ensures calls >= r
      {
        RetryBudget(errs, r, calls, res);
      }
    } else {
      TenOfMore(r, e);
    }
  }

  /** Eleven calls asked for, ten made: so for eleven, and for any number above ten. */
  lemma TenOfMore<E>(r: int, e: E)
    requires r > MAX_RETRIES
    ensures Ended(Callback((n: nat) => Some(e), r), 10, RetryLimit)
    ensures 10 < r
  {
    var fn := Callback((n: nat) => Some(e), r);
    assert forall n: nat :: fn(n) == Attempt(n < r, Some(e));
  }
}
