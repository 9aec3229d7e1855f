/** The two retry wrappers of main.py with the broker's behaviour as an oracle: attempt i
    (counted from 1) either succeeds or not. Sleeps between attempts are not modelled. */
module Retry {
  import opened Wrappers

  /** `request_with_retry`: `signalled(i)` says whether the completion event was set within
      the wait of attempt i (an attempt that raised counts as not signalled). Returns whether
      some attempt succeeded and how many attempts were made. */
  method RequestWithRetry(signalled: nat -> bool, attempts: nat) returns (ok: bool, tries: nat)
    ensures ok <==> exists i :: 1 <= i <= attempts && signalled(i)
    ensures ok ==> 1 <= tries <= attempts && signalled(tries) && forall i :: 1 <= i < tries ==> !signalled(i)
    ensures !ok ==> tries == attempts
  {
    ok, tries := false, 0;
    for i := 1 to attempts + 1
      invariant tries == i - 1
      invariant forall j :: 1 <= j < i ==> !signalled(j)
    {
      tries := i;
      if signalled(i) {
        ok := true;
        return;
      }
    }
  }

  /** The first attempt, among 1..attempts, whose outcome is a value; 0 when there is none. */
  function FirstSuccess(outcome: nat -> Option<int>, attempts: nat): (k: nat)
    ensures k <= attempts
    ensures k != 0 ==> outcome(k).Some? && forall j :: 1 <= j < k ==> outcome(j).None?
    ensures k == 0 ==> forall j :: 1 <= j <= attempts ==> outcome(j).None?
  {
    if attempts == 0 then 0
    else
      var k := FirstSuccess(outcome, attempts - 1);
      if k != 0 then k else if outcome(attempts).Some? then attempts else 0
  }

  /** What `get_option_conid_with_retry` returns: the first successful lookup's conId, or
      None where it raises the last error. */
  function RetryResult(outcome: nat -> Option<int>, attempts: nat): Option<int> {
    var k := FirstSuccess(outcome, attempts);
    if k == 0 then None else outcome(k)
  }

  /** `get_option_conid_with_retry`: try the lookup up to `attempts` times and return the
      first conId obtained, together with the number of lookups made. */
  method GetOptionConIdWithRetry(outcome: nat -> Option<int>, attempts: nat) returns (r: Option<int>, tries: nat)
    ensures r == RetryResult(outcome, attempts)
    ensures r.Some? <==> exists i :: 1 <= i <= attempts && outcome(i).Some?
    ensures tries == if r.Some? then FirstSuccess(outcome, attempts) else attempts
  {
    r, tries := None, 0;
    for i := 1 to attempts + 1
      invariant tries == i - 1
      invariant forall j :: 1 <= j < i ==> outcome(j).None?
    {
      tries := i;
      r := outcome(i);
      if r.Some? {
        FirstSuccessIs(outcome, attempts, i);
        return;
      }
    }
    r := None;
  }

  lemma {:induction false} FirstSuccessIs(outcome: nat -> Option<int>, attempts: nat, k: nat)
    requires 1 <= k <= attempts && outcome(k).Some?
    requires forall j :: 1 <= j < k ==> outcome(j).None?
    ensures FirstSuccess(outcome, attempts) == k
  {
    if attempts > k {
      FirstSuccessIs(outcome, attempts - 1, k);
    } else {
      assert FirstSuccess(outcome, attempts - 1) == 0;
    }
  }

  /** The broker's lookup of one option: attempt i for (expiry, strike) gives a conId or fails. */
  type Resolver = (string, real, nat) -> Option<int>

  function Lookups(resolve: Resolver, expiry: string, strike: real): nat -> Option<int> {
    (i: nat) => resolve(expiry, strike, i)
  }

  /** The three-attempt lookup every caller in main.py makes. */
  function ResolveConId(resolve: Resolver, expiry: string, strike: real): Option<int> {
    RetryResult(Lookups(resolve, expiry, strike), 3)
  }
}
