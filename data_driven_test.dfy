/**
  The packaged data-driven test harness: a private ordered list of test
  cases, the argument count fixed by the first of them, and the number of
  stack frames to skip when cases come from declared metadata. Arrangement
  appends under the arity rule and returns the harness for chaining;
  ActAndAssert guards against a null callback and an empty case list, then
  invokes the callback once per case and re-raises the first failure.
 */
module MsTestHarness {
  import opened Values
  import opened HarnessSpec

  class DataDrivenTest {
    var cases: seq<Case>
    var arity: nat
    const skipStackFrames: int

    function State(): HarnessState
      reads this
    {
      HarnessState(cases, arity)
    }

    ghost predicate Valid()
      reads this
    {
      Consistent(State())
    }

    /** A harness with no cases that skips one stack frame. */
    constructor ()
      ensures Valid() && State() == Fresh && skipStackFrames == 1
    {
      cases, arity := [], 0;
      skipStackFrames := 1;
    }

    /** A harness with no cases that skips `skipStackFrames` stack frames. */
    constructor WithSkip(skipStackFrames: int)
      ensures Valid() && State() == Fresh && this.skipStackFrames == skipStackFrames
    {
      cases, arity := [], 0;
      this.skipStackFrames := skipStackFrames;
    }

    /** Arranges one test case: the first case fixes the arity, a case of
        another length fails with the mismatch message and is not added. */
    method Arrange(testCase: Case) returns (r: Result<DataDrivenTest, Failure>)
      requires Valid()
      modifies this
      ensures Valid()
      ensures State() == ArrangeOne(old(State()), testCase).after
      ensures r == Chained(this, ArrangeOne(old(State()), testCase).failure)
    {
      if cases == [] {
        arity := |testCase|;
      }
      if |testCase| != arity {
        return Err(AssertFailed(MismatchMessage(testCase)));
      }
      cases := cases + [testCase];
      return Ok(this);
    }

    /** Arranges each case of `testCaseSet` in order; the first arity
        failure escapes, and the cases arranged before it stay. */
    method ArrangeTestCases(testCaseSet: seq<Case>) returns (r: Result<DataDrivenTest, Failure>)
      requires Valid()
      modifies this
      ensures Valid()
      ensures State() == ArrangeMany(old(State()), testCaseSet).after
      ensures r == Chained(this, ArrangeMany(old(State()), testCaseSet).failure)
    {
      var i := 0;
      while i < |testCaseSet|
        invariant 0 <= i <= |testCaseSet|
        invariant Valid()
        invariant ArrangeMany(old(State()), testCaseSet[..i]) == Arranged(State(), None)
      {
        var step := Arrange(testCaseSet[i]);
        assert testCaseSet[..i + 1] == testCaseSet[..i] + [testCaseSet[i]];
        ArrangeManyAppend(old(State()), testCaseSet[..i], [testCaseSet[i]]);
        if step.Err? {
          assert testCaseSet == testCaseSet[..i + 1] + testCaseSet[i + 1..];
          ArrangeManyAppend(old(State()), testCaseSet[..i + 1], testCaseSet[i + 1..]);
          return step;
        }
        i := i + 1;
      }
      assert testCaseSet[..i] == testCaseSet;
      return Ok(this);
    }

    /** Arranges the cases declared on the test method, in the order
        reflection returns them, exactly as ArrangeTestCases does. The declared list is what
        the stack walk would have found `skipStackFrames` frames up. */
    method ArrangeFromAttributes(declared: seq<Case>) returns (r: Result<DataDrivenTest, Failure>)
      requires Valid()
      modifies this
      ensures Valid()
      ensures State() == ArrangeMany(old(State()), declared).after
      ensures r == Chained(this, ArrangeMany(old(State()), declared).failure)
    {
      r := ArrangeTestCases(declared);
    }

    /** Invokes the callback on each case in arrangement order and returns
        the cases it was invoked on and the failure that escaped, if any. */
    method ActAndAssert(callback: Option<Callback>) returns (invoked: seq<Case>, failure: Option<Failure>)
      ensures Dispatched(invoked, failure) == Dispatch(Packaged, cases, callback)
    {
      if callback.None? {
        return [], Some(ArgumentNull("actAndAssert"));
      }
      if cases == [] {
        return [], Some(AssertFailed(NoTestCasesMessage));
      }
      invoked, failure := InvokeEach(callback.value);
    }

    /** The dispatch loop: invokes the callback on each case in order and
        stops at the first invocation that throws. */
    method InvokeEach(callback: Callback) returns (invoked: seq<Case>, failure: Option<Failure>)
      ensures Dispatched(invoked, failure) == Run(Packaged, cases, callback)
    {
      invoked, failure := [], None;
      var i := 0;
      while i < |cases|
        invariant 0 <= i <= |cases|
        invariant invoked == cases[..i] && failure == None
        invariant forall j :: 0 <= j < i ==> callback(cases[j]).Returned?
      {
        var arguments := cases[i];
        invoked := invoked + [arguments];
        var outcome := callback(arguments);
        if outcome.Threw? {
          // re-raise the inner exception with its original stack trace
          failure := Some(Rethrow(Packaged, outcome.inner));
          RunStopsAtFirstThrow(Packaged, cases, callback, i);
          return;
        }
        i := i + 1;
      }
      assert invoked == cases;
    }
  }
}
