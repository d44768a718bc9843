/**
  The older, root-level data-driven test harness. It arranges cases under
  the same arity rule as the packaged one, but its ActAndAssert has no
  guards: with no case it does nothing, a null callback faults only when
  invoked, and an invocation wrapper without an inner exception is
  re-raised itself.
 */
module LegacyHarness {
  import opened Values
  import opened HarnessSpec

  class DataDrivenTest {
    var cases: seq<Case>
    var arity: nat

    function State(): HarnessState
      reads this
    {
      HarnessState(cases, arity)
    }

    ghost predicate Valid()
      reads this
    {
      Consistent(State())
    }

    constructor ()
      ensures Valid() && State() == Fresh
    {
      cases, arity := [], 0;
    }

    /** Arranges one test case: the first case fixes the arity, a case of
        another length fails with the mismatch message and is not added. */
    method Arrange(testCase: Case) returns (r: Result<DataDrivenTest, Failure>)
      requires Valid()
      modifies this
      ensures Valid()
      ensures State() == ArrangeOne(old(State()), testCase).after
      ensures r == Chained(this, ArrangeOne(old(State()), testCase).failure)
    {
      if cases == [] {
        arity := |testCase|;
      }
      if |testCase| != arity {
        return Err(AssertFailed(MismatchMessage(testCase)));
      }
      cases := cases + [testCase];
      return Ok(this);
    }

    /** Invokes the callback on each case in arrangement order and returns
        the cases it was invoked on and the failure that escaped, if any. */
    method ActAndAssert(callback: Option<Callback>) returns (invoked: seq<Case>, failure: Option<Failure>)
      ensures Dispatched(invoked, failure) == Dispatch(Legacy, cases, callback)
    {
      invoked, failure := [], None;
      var i := 0;
      while i < |cases|
        invariant 0 <= i <= |cases|
        invariant invoked == cases[..i] && failure == None
        invariant i > 0 ==> callback.Some?
        invariant forall j :: 0 <= j < i ==> callback.value(cases[j]).Returned?
      {
        var arguments := cases[i];
        if callback.None? {
          // invoking a null delegate
          return invoked, Some(NullReference);
        }
        invoked := invoked + [arguments];
        var outcome := callback.value(arguments);
        if outcome.Threw? {
          // re-raise the inner exception with its original stack trace,
          // or the wrapper itself when it has none
          failure := Some(Rethrow(Legacy, outcome.inner));
          RunStopsAtFirstThrow(Legacy, cases, callback.value, i);
          return;
        }
        i := i + 1;
      }
      assert invoked == cases;
    }
  }
}
