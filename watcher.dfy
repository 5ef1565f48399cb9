/**
 * Element Watcher: `waitForElement(selector, callback, maxAttempts = 10)`.
 *
 * The document is abstracted to the outcome of each poll: `poll(k)` is what
 * `document.querySelector(selector)` returns on the k-th attempt (counting from
 * zero). The one-second pauses between attempts are not modelled; the recursion
 * through `setTimeout` becomes a loop over the shared `attempts` counter.
 */
module Watcher {
  import opened Wrappers

  /** The default attempt budget of `waitForElement`. */
  const DefaultMaxAttempts: int := 10

  /** How many polls at most: the first poll always happens, so `max(1, maxAttempts)`. */
  function Budget(maxAttempts: int): (n: nat)
    ensures n >= 1 && n >= maxAttempts
    ensures n == 1 || n == maxAttempts
  {
    if maxAttempts < 1 then 1 else maxAttempts
  }

  /**
   * Reference definition: the first element among the polls numbered `from`
   * up to (not including) `budget`, if any poll finds one.
   */
  function FirstFound<E>(poll: nat -> Option<E>, from: nat, budget: nat): (r: Option<E>)
    ensures r.Some? ==> exists k :: from <= k < budget && poll(k) == r && forall j :: from <= j < k ==> poll(j).None?
    ensures r.None? ==> forall k :: from <= k < budget ==> poll(k).None?
    decreases budget - from
  {
    if from >= budget then None
    else if poll(from).Some? then poll(from)
    else FirstFound(poll, from + 1, budget)
  }

  /**
   * Polls until an element is found or the budget is spent. `calls` lists the
   * arguments the callback was invoked with; `attempts` is the final counter.
   */
  method WaitForElement<E>(poll: nat -> Option<E>, maxAttempts: int) returns (calls: seq<E>, attempts: nat)
    ensures 1 <= attempts <= Budget(maxAttempts)
    ensures forall k :: 0 <= k < attempts - 1 ==> poll(k).None?
    ensures calls == (if poll(attempts - 1).Some? then [poll(attempts - 1).value] else [])
    ensures calls == [] ==> attempts == Budget(maxAttempts)
    ensures calls == (match FirstFound(poll, 0, Budget(maxAttempts)) case Some(e) => [e] case None => [])
  {
    attempts := 0;
    calls := [];
    var polling := true;
    while polling
      invariant attempts <= Budget(maxAttempts)
      invariant polling ==> attempts < Budget(maxAttempts) && calls == []
      invariant forall k :: 0 <= k < attempts - 1 ==> poll(k).None?
      invariant polling ==> forall k :: 0 <= k < attempts ==> poll(k).None?
      invariant !polling ==> 1 <= attempts
      invariant !polling ==> calls == (if poll(attempts - 1).Some? then [poll(attempts - 1).value] else [])
      invariant !polling && calls == [] ==> attempts == Budget(maxAttempts)
      invariant polling ==> FirstFound(poll, 0, Budget(maxAttempts)) == FirstFound(poll, attempts, Budget(maxAttempts))
      invariant !polling ==> calls == (match FirstFound(poll, 0, Budget(maxAttempts)) case Some(e) => [e] case None => [])
      decreases Budget(maxAttempts) - attempts, polling
    {
      attempts := attempts + 1;
      var element := poll(attempts - 1);
      if element.Some? {
        calls := calls + [element.value];
        polling := false;
      } else if attempts < maxAttempts {
        // setTimeout(checkElement, 1000): poll again on the next iteration
      } else {
        polling := false;
      }
    }
  }

  /**
   * The reference definition picks the first successful poll: if poll `k` is
   * the first to find something within the budget, that is what is found.
   */
  lemma {:induction false} FirstFoundIsFirstHit<E>(poll: nat -> Option<E>, from: nat, budget: nat, k: nat)
    requires from <= k < budget && poll(k).Some?
    requires forall j :: from <= j < k ==> poll(j).None?
    ensures FirstFound(poll, from, budget) == poll(k)
    decreases k - from
  {
    if from < k {
      FirstFoundIsFirstHit(poll, from + 1, budget, k);
    }
  }
}
