# Data-driven test harness for MSTest, modelled in Dafny

The library lets a test author arrange a set of argument tuples (test cases)
and then run one act-and-assert routine once per tuple. Its core is the
`DataDrivenTest` class. It exists in two versions:

- the packaged one, in `MsTestDataDrivenTest/DataDrivenTest.cs`;
- an older root-level one, in `DataDrivenTest.cs`.

Two static factories build harnesses: `TestData` and `DataDrivenTestFactory`.

The model has six modules:

- `Values` (values.dfy) holds the argument values and how they are rendered.
  It also holds the two fixed messages and the failures the harness lets
  escape. Exceptions are modelled as values of the `Failure` datatype.
- `HarnessSpec` (harness_spec.dfy) holds the pure specification and the
  lemmas about it. The state is a `HarnessState` (the ordered cases and the
  arity), with the arity invariant `Consistent`. It defines arranging one
  tuple (`ArrangeOne`), arranging a sequence (`ArrangeMany`), the dispatch
  loop (`Run`) and the whole `ActAndAssert` with its guards (`Dispatch`).
- `MsTestHarness` (data_driven_test.dfy) holds the packaged class. Its
  `cases` and `arity` fields are updated in place. Every method is proved
  against the specification functions.
- `LegacyHarness` (legacy_data_driven_test.dfy) holds the root-level class.
- `TestData` (test_data.dfy) and `DataDrivenTestFactory`
  (data_driven_test_factory.dfy) hold the factories. Each returns a fresh
  harness.

The user callback is a pure function from a case to an `Outcome`. The
outcome says whether the reflective invocation returned, or raised the
invocation wrapper with the callback's own exception as its inner
exception (possibly absent). "Re-raise the original exception" is modelled
as returning that same exception value in `Rethrown`. `ActAndAssert`
returns the cases the callback was invoked on, in order, together with the
failure that escaped. This makes order and fail-fast statable.
`ActAndAssert` has no `modifies` clause, so dispatch cannot change the
case list.

Where the versions differ, the model follows each version's code:

- **Packaged `ActAndAssert`.** A null callback raises an argument-null error
  on `actAndAssert`. This happens first, even with no cases. An empty case
  list then fails with `There are no test cases. Have you forgotten to
  arrange them?`. If the invocation wrapper has no inner exception, the code
  passes null to `ExceptionDispatchInfo.Capture`. That call rejects it with
  an argument-null error on its parameter `source`. This is modelled as
  `ArgumentNull("source")`.
- **Legacy `ActAndAssert`.** It has no guards. With no cases it returns
  normally. A null callback faults with a null reference only when the
  first case is invoked. A wrapper without an inner exception is re-raised
  itself (`InvocationWrapper`).
- **`DataDrivenTestFactory`.** It calls `ArrangeTestCases`, which only the
  packaged class has. So it is modelled over the packaged class, with the
  default constructor (skip count 1).

The message prefix `Assert.Fail failed. ` comes from the test framework,
not from this code, so it is not part of the modelled messages.

## Model

| member | source | states |
|---|---|---|
| `Values.Chained` | MsTestDataDrivenTest/DataDrivenTest.cs:69-76 | an arrangement call yields the same instance exactly when it raised nothing, and otherwise exactly the failure `Assert.Fail` raised (which aborts the call) |
| `Values.Render` | MsTestDataDrivenTest/DataDrivenTest.cs:71 | a null element renders as the empty string; any other value renders as its `ToString()` text |
| `Values.Rendered` | DataDrivenTest.cs:33 | the tuple's renderings, one per value, in the tuple's order |
| `Values.Join` | MsTestDataDrivenTest/DataDrivenTest.cs:71 | joining nothing gives the empty string and joining one part gives that part; with `Values.JoinConcat` these fix every join |
| `Values.JoinLength` | MsTestDataDrivenTest/DataDrivenTest.cs:71 | a join's length is the parts' total length plus one separator between each two parts |
| `Values.MismatchMessage` | DataDrivenTest.cs:33 | the arity-mismatch message is exactly `Test case [`, then the tuple's values joined by ", ", then `] has different number of arguments than the previous test cases.` |
| `Values.JoinConcat` | MsTestDataDrivenTest/DataDrivenTest.cs:71 | joining two non-empty lists of renderings puts exactly one separator between them |
| `Values.JoinRenderedSnoc` | DataDrivenTest.cs:33 | the joined values of a tuple extended by one value are the old join, ", " and the new value's rendering |
| `Values.MismatchMessageExample` | MsTestDataDrivenTest.UnitTests/DataDrivenTestTests.cs:85-96 | the mismatch message for ("test case", "throws") is exactly `Test case [test case, throws] has different number of arguments than the previous test cases.` |
| `HarnessSpec.ArrangeOne` | MsTestDataDrivenTest/DataDrivenTest.cs:62-77 | arranging succeeds iff there is no case yet or the length equals the arity; on success the tuple is appended and the arity is its length; on failure the state is unchanged and the failure is the mismatch message for that tuple; with cases present the arity never changes; the arity invariant is preserved |
| `HarnessSpec.ArrangeMany` | MsTestDataDrivenTest/DataDrivenTest.cs:104-112 | arranging a sequence only grows the case list (old cases stay a prefix), keeps the arity invariant, keeps an established arity, and arranging nothing changes nothing |
| `HarnessSpec.ArrangeManyStopsAtFirstMismatch` | MsTestDataDrivenTest/DataDrivenTest.cs:104-112 | arranging a sequence appends exactly the longest prefix whose tuples have the governing arity, and fails with the mismatch message of the first tuple after that prefix (no failure iff none) |
| `HarnessSpec.ArrangeManyAppend` | MsTestDataDrivenTest/DataDrivenTest.cs:106-109 | arranging `s1 + s2` is arranging `s1` and then, unless that failed, `s2`; so arranging a sequence is arranging its tuples one by one |
| `HarnessSpec.ArrangeIntoFresh` | MsTestDataDrivenTest/TestData.cs:34-37 | into a new harness, arranging succeeds iff all tuples have the first tuple's length; it then holds exactly those tuples with that arity, and otherwise fails naming the first tuple of another length |
| `HarnessSpec.Rethrow` | MsTestDataDrivenTest/DataDrivenTest.cs:170-174 | the callback's own exception is re-raised unchanged whenever there is one; without one, the legacy version re-raises the wrapper (DataDrivenTest.cs:53-64) and the packaged version's capture of null raises an argument-null error on `source` |
| `HarnessSpec.Run` | MsTestDataDrivenTest/DataDrivenTest.cs:164-175 | the callback is invoked on a prefix of the cases, in order; every invoked case but the last returned; nothing escapes iff every case returns, and then all cases were invoked; otherwise the last invoked case threw and its exception is what escapes |
| `HarnessSpec.RunStopsAtFirstThrow` | MsTestDataDrivenTest/DataDrivenTest.cs:164-175 | fail-fast: if case k is the first to throw, exactly cases 0..k are invoked and the re-raised failure is case k's |
| `HarnessSpec.Dispatch` | MsTestDataDrivenTest/DataDrivenTest.cs:152-176 | a null callback invokes nothing; packaged: a null callback raises argument-null even with no cases, and then an empty list fails with the no-test-cases message; legacy: no cases means normal return, and a null callback with cases faults with a null reference; otherwise dispatch is `Run` |
| `HarnessSpec.DispatchAllPass` | DataDrivenTest.cs:47-51 | when every case returns, both versions invoke the callback on every case in order and nothing escapes |
| `MsTestHarness.DataDrivenTest.constructor` | MsTestDataDrivenTest/DataDrivenTest.cs:27-29 | a new harness has no cases, arity 0 and skips 1 stack frame |
| `MsTestHarness.DataDrivenTest.WithSkip` | MsTestDataDrivenTest/DataDrivenTest.cs:36-39 | a new harness has no cases, arity 0 and skips the given number of stack frames |
| `MsTestHarness.DataDrivenTest.Arrange` | MsTestDataDrivenTest/DataDrivenTest.cs:62-77 | the new state is `ArrangeOne` of the old one, the arity invariant holds, and the result is the same instance on success or the mismatch failure |
| `MsTestHarness.DataDrivenTest.ArrangeTestCases` | MsTestDataDrivenTest/DataDrivenTest.cs:104-112 | the loop leaves the state `ArrangeMany` of the old one and returns the same instance or the first failure; tuples arranged before a failure stay |
| `MsTestHarness.DataDrivenTest.ArrangeFromAttributes` | MsTestDataDrivenTest/DataDrivenTest.cs:133-146 | the declared tuples are arranged exactly as `ArrangeTestCases` arranges them, in the order reflection returns them |
| `MsTestHarness.DataDrivenTest.ActAndAssert` | MsTestDataDrivenTest/DataDrivenTest.cs:152-176 | the invoked cases and escaping failure are exactly `Dispatch` for the packaged version over the current cases |
| `MsTestHarness.DataDrivenTest.InvokeEach` | MsTestDataDrivenTest/DataDrivenTest.cs:164-175 | the dispatch loop's invoked cases and escaping failure are exactly `Run` over the current cases |
| `LegacyHarness.DataDrivenTest.constructor` | DataDrivenTest.cs:15-17 | a new harness has no cases and arity 0 |
| `LegacyHarness.DataDrivenTest.Arrange` | DataDrivenTest.cs:24-39 | the new state is `ArrangeOne` of the old one, the arity invariant holds, and the result is the same instance on success or the mismatch failure |
| `LegacyHarness.DataDrivenTest.ActAndAssert` | DataDrivenTest.cs:45-66 | the invoked cases and escaping failure are exactly `Dispatch` for the legacy version over the current cases |
| `TestData.Arrange` | MsTestDataDrivenTest/TestData.cs:23-26 | returns a fresh harness whose cases are exactly `[t]`, with arity `|t|` and skip count 2 |
| `TestData.ArrangeTestCases` | MsTestDataDrivenTest/TestData.cs:34-37 | succeeds iff all tuples share the first one's length, and then returns a fresh harness holding exactly those tuples with skip count 2; otherwise fails with the mismatch message of the first tuple of another length |
| `TestData.ArrangeFromAttributes` | MsTestDataDrivenTest/TestData.cs:43-46 | the same as `TestData.ArrangeTestCases` for the declared tuples |
| `DataDrivenTestFactory.Create` | DataDrivenTestFactory.cs:20-23 | returns a fresh harness with no cases, arity 0 and skip count 1 |
| `DataDrivenTestFactory.Arrange` | DataDrivenTestFactory.cs:30-33 | returns a fresh harness whose cases are exactly `[t]`, with arity `|t|` |
| `DataDrivenTestFactory.ArrangeTestCases` | DataDrivenTestFactory.cs:41-44 | succeeds iff all tuples share the first one's length, and then returns a fresh harness holding exactly those tuples; otherwise fails with the mismatch message of the first tuple of another length |

## Left out

- The stack walk in `ArrangeFromAttributes` is left out (`StackFrame`, `GetMethod`, `GetCustomAttributes`). The declared tuples are passed in explicitly, in the order reflection returns them. .NET does not promise that this is declaration order, although the unit tests assume it. The skip count is stored but has no effect in the model. A wrong skip count, which resolves the wrong method, is not modelled.
- `TestCaseAttribute` only stores an array and carries reflection metadata. The declared tuples stand in for it.
- The typed `ActAndAssert<T1..T10>` overloads are left out. They only cast to `Delegate`.
- Argument-count or argument-type mismatches raised by `DynamicInvoke` itself are left out. This is runtime library behaviour outside the `TargetInvocationException` handler.
- The `Func` producer overloads of `Arrange` and `ArrangeTestCases` are left out. The produced tuple or sequence is taken as given. Side effects of the producer are not modelled.
- The `IEnumerable<object>` and `params object[]` overloads of `Arrange` are one method here, since both are a sequence of values.
- Aliasing of arranged tuples is not modelled. `Arrange(params object[])` stores the caller's own array, so a later change to that array changes the stored case and the values dispatch passes. Only the `IEnumerable<object>` overload copies the tuple (`ToArray()`). Here cases are immutable values, so a stored case never changes after arrangement.
- Callback state is not modelled. The callback is a pure function of the case, so equal cases always give the same outcome. A stateful callback, such as one that counts calls or passes on one case and throws on an equal later case, cannot be expressed. The order and fail-fast properties hold for the outcomes the callback actually produced, but the model cannot describe how a call's outcome depends on earlier calls.
- Stack-trace preservation by `ExceptionDispatchInfo` is left out. The re-raised exception is the same value, but the stack trace is not modelled.
- Null tuples are left out. `testCase.Length` on a null array faults at runtime. Tuples are non-null sequences, whose elements may be null.
- Rendering is abstracted. An object's `ToString()` is the `text` of `Obj`, and a null element renders as the empty string. The .NET Framework `String.Join(string, object[])` returns the empty string when the first element is null. That quirk is not modelled.
- `AssemblyInfo.cs` holds assembly metadata only and is not part of this model.
- Concurrency is left out. The harness is single-threaded.
