/**
  The static factory beside the root-level harness. It calls ArrangeTestCases,
  which only the packaged harness has, so it builds packaged harnesses with
  the default constructor (one skipped stack frame).
 */
module DataDrivenTestFactory {
  import opened Values
  import opened HarnessSpec
  import opened MsTestHarness

  /** A new harness with no cases. */
  method Create() returns (d: DataDrivenTest)
    ensures fresh(d) && d.Valid() && d.State() == Fresh && d.skipStackFrames == 1
  {
    d := new DataDrivenTest();
  }

  /** A new harness holding exactly `testCase`; the first case never fails. */
  method Arrange(testCase: Case) returns (d: DataDrivenTest)
    ensures fresh(d) && d.Valid()
    ensures d.State() == HarnessState([testCase], |testCase|)
    ensures d.skipStackFrames == 1
  {
    var harness := new DataDrivenTest();
    var r := harness.Arrange(testCase);
    d := r.value;
  }

  /** A new harness holding exactly `testCaseSet` when its tuples share one
      length; otherwise the mismatch failure for the first tuple of another
      length escapes. */
  method ArrangeTestCases(testCaseSet: seq<Case>) returns (r: Result<DataDrivenTest, Failure>)
    ensures r.Ok? <==> SameArity(testCaseSet)
    ensures r.Ok? ==> && fresh(r.value) && r.value.Valid()
                      && r.value.State() == HarnessState(testCaseSet, if testCaseSet == [] then 0 else |testCaseSet[0]|)
                      && r.value.skipStackFrames == 1
    ensures r.Err? ==> testCaseSet != []
    ensures r.Err? ==> r.error == AssertFailed(MismatchMessage(testCaseSet[FirstMismatch(|testCaseSet[0]|, testCaseSet)]))
  {
    var harness := new DataDrivenTest();
    r := harness.ArrangeTestCases(testCaseSet);
    ArrangeIntoFresh(testCaseSet);
  }
}
