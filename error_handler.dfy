/**
 * The retry bookkeeping of includes/error-handler.php: a counter per
 * operation key, at most three attempts per key, and execute_with_retry,
 * which calls a callback until it gives something other than false.
 */
module ErrorHandler {
  import opened Wrappers
  import opened PhpString

  const MaxRetries: nat := 3

  /** What one call of the callback does: returns a value other than false, returns false, or throws. */
  datatype CallResult<V> = Value(v: V) | False | Exception(message: string)

  /** How many calls a counter of count still allows. */
  function Budget(count: nat): nat {
    if count < MaxRetries then MaxRetries - count else 0
  }

  /**
   * The retry loop from the counter count, where the callback's calls are
   * numbered and cb(i) is what call i does: the result (None for false), the
   * counter afterwards, and the number of the next call.
   */
  function Retry<V>(cb: nat -> CallResult<V>, calls: nat, count: nat): (Option<V>, nat, nat)
    decreases Budget(count)
  {
    if count >= MaxRetries then (None, count, calls)
    else match cb(calls)
      case Value(v) => (Some(v), 0, calls + 1)
      case _ => Retry(cb, calls + 1, count + 1)
  }

  /**
   * The loop makes at most Budget(count) calls. It stops at the first value,
   * with the counter reset to 0; when no call in the budget gives a value,
   * the result is false and the counter is left at MaxRetries.
   */
  lemma {:induction false} RetrySpec<V>(cb: nat -> CallResult<V>, calls: nat, count: nat)
    ensures var r := Retry(cb, calls, count);
      calls <= r.2 <= calls + Budget(count) &&
      (r.0.Some? ==>
        r.2 > calls && cb(r.2 - 1) == Value(r.0.value) && r.1 == 0 &&
        forall i | calls <= i < r.2 - 1 :: !cb(i).Value?) &&
      (r.0.None? ==>
        r.2 == calls + Budget(count) && r.1 == (if count < MaxRetries then MaxRetries else count) &&
        forall i | calls <= i < r.2 :: !cb(i).Value?)
    decreases Budget(count)
  {
    if count < MaxRetries && !cb(calls).Value? {
      RetrySpec(cb, calls + 1, count + 1);
    }
  }

  /** The first call that gives a value decides the result, as long as it falls within the budget. */
  lemma RetryFirstValue<V>(cb: nat -> CallResult<V>, count: nat, j: nat)
    requires j < Budget(count) && cb(j).Value?
    requires forall i | 0 <= i < j :: !cb(i).Value?
    ensures Retry(cb, 0, count) == (Some(cb(j).v), 0, j + 1)
  {
    var r := Retry(cb, 0, count);
    RetrySpec(cb, 0, count);
    assert r.0.Some?;
    assert !(j < r.2 - 1);
    assert !(r.2 - 1 < j);
  }

  /** Once a key's attempts are used up, a later call gives false without calling the callback at all. */
  lemma RetryExhaustedBlocks<V>(cb: nat -> CallResult<V>, count: nat, cb2: nat -> CallResult<V>)
    requires forall i | 0 <= i < Budget(count) :: !cb(i).Value?
    ensures var r := Retry(cb, 0, count); r.0 == None && Retry(cb2, 0, r.1) == (None, r.1, 0)
  {
    var r := Retry(cb, 0, count);
    RetrySpec(cb, 0, count);
    assert r.0.None?;
  }

  /** One turn of the loop. */
  lemma RetryUnfold<V>(cb: nat -> CallResult<V>, calls: nat, count: nat)
    requires count < MaxRetries
    ensures cb(calls).Value? ==> Retry(cb, calls, count) == (Some(cb(calls).v), 0, calls + 1)
    ensures !cb(calls).Value? ==> Retry(cb, calls, count) == Retry(cb, calls + 1, count + 1)
  {
  }

  /** The key execute_with_retry counts under: the given operation id, or the derived hash when that is empty. */
  function OperationKey(operationId: string, derivedId: string): (k: string)
    ensures Truthy(operationId) ==> k == operationId
    ensures !Truthy(operationId) ==> k == derivedId
  {
    if Truthy(operationId) then operationId else derivedId
  }

  /**
   * Calls that pass the same non-empty operation id share one counter,
   * whatever their callbacks and arguments: once a run has failed every
   * attempt, a later run under that id gives false without calling its
   * callback. Without an operation id, two calls share a counter exactly
   * when their derived keys are equal.
   */
  lemma OperationKeyShared<V>(op: string, d1: string, d2: string, count: nat,
                              cb1: nat -> CallResult<V>, cb2: nat -> CallResult<V>)
    requires forall i | 0 <= i < Budget(count) :: !cb1(i).Value?
    ensures Truthy(op) ==> OperationKey(op, d1) == op == OperationKey(op, d2)
    ensures !Truthy(op) ==> (OperationKey(op, d1) == OperationKey(op, d2) <==> d1 == d2)
    ensures Truthy(op) ==>
      var run := Retry(cb1, 0, count);
      run.0 == None && Retry(cb2, 0, run.1) == (None, run.1, 0)
  {
    RetryExhaustedBlocks(cb1, count, cb2);
  }

  /** The static retry_counts dictionary. */
  class RetryCounter {
    var retryCounts: map<string, nat>

    constructor()
      ensures retryCounts == map[]
    {
      retryCounts := map[];
    }

    /** The counter of a key, 0 when it has none. */
    function Count(k: string): nat
      reads this
    {
      if k in retryCounts then retryCounts[k] else 0
    }

    /** can_retry: gives the key a counter of 0 when it has none, and allows another attempt below MaxRetries. */
    method CanRetry(k: string) returns (b: bool)
      modifies this
      ensures retryCounts == old(retryCounts)[k := old(Count(k))]
      ensures b <==> Count(k) < MaxRetries
    {
      if k !in retryCounts {
        retryCounts := retryCounts[k := 0];
      }
      b := retryCounts[k] < MaxRetries;
    }

    /** increment_retry: the counter goes up by one, and the new value is returned. */
    method IncrementRetry(k: string) returns (n: nat)
      modifies this
      ensures n == old(Count(k)) + 1
      ensures retryCounts == old(retryCounts)[k := n]
    {
      if k !in retryCounts {
        retryCounts := retryCounts[k := 0];
      }
      retryCounts := retryCounts[k := retryCounts[k] + 1];
      n := retryCounts[k];
    }

    /** reset_retry */
    method ResetRetry(k: string)
      modifies this
      ensures retryCounts == old(retryCounts)[k := 0]
    {
      retryCounts := retryCounts[k := 0];
    }

    /**
     * execute_with_retry: the callback's first value within the key's
     * budget, which also resets the counter; None (false) once the budget is
     * spent. Only the counter of the operation's key changes.
     */
    method ExecuteWithRetry<V>(cb: nat -> CallResult<V>, operationId: string, derivedId: string)
      returns (r: Option<V>)
      modifies this
      ensures var key := OperationKey(operationId, derivedId);
        var run := Retry(cb, 0, old(Count(key)));
        r == run.0 && retryCounts == old(retryCounts)[key := run.1]
    {
      var key := OperationKey(operationId, derivedId);
      ghost var run := Retry(cb, 0, Count(key));
      ghost var before := retryCounts;
      var calls := 0;
      var ok := CanRetry(key);
      while ok
        invariant key in retryCounts && retryCounts == before[key := retryCounts[key]]
        invariant ok <==> retryCounts[key] < MaxRetries
        invariant Retry(cb, calls, retryCounts[key]) == run
        decreases Budget(retryCounts[key])
      {
        var outcome := cb(calls);
        RetryUnfold(cb, calls, retryCounts[key]);
        if outcome.Value? {
          ResetRetry(key);
          return Some(outcome.v);
        }
        var _ := IncrementRetry(key);
        calls := calls + 1;
        ok := CanRetry(key);
      }
      assert run == (None, retryCounts[key], calls);
      r := None;
    }
  }
}
