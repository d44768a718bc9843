/**
  Values shared by both versions of the data-driven test harness: the opaque
  argument values a test case holds, how they are rendered into the harness's
  failure messages, and the failures (exceptions, in the original) that the
  harness raises or passes through.
 */
module Values {

  datatype Option<+T> = None | Some(value: T)

  datatype Result<+T, +E> = Ok(value: T) | Err(error: E)

  /** One argument of a test case: either null or an object whose
      ToString() rendering is `text`. */
  datatype Value = Null | Obj(text: string)

  /** A test case: the ordered argument tuple passed to the callback. */
  type Case = seq<Value>

  /** An exception raised by user code, opaque to the harness. */
  datatype Exc = Exc(kind: string, message: string)

  /** What the harness lets escape to the test runner. */
  datatype Failure =
    | AssertFailed(message: string)   // AssertFailedException raised by Assert.Fail
    | ArgumentNull(paramName: string) // ArgumentNullException
    | NullReference                   // NullReferenceException from invoking a null delegate
    | Rethrown(exc: Exc)              // the callback's own exception, re-raised unchanged
    | InvocationWrapper               // the reflective invocation wrapper, re-raised as is

  /** The result of one reflective invocation of the callback: it returns
      normally, or raises the invocation wrapper, which carries the
      callback's own exception as its inner exception (possibly absent). */
  datatype Outcome = Returned | Threw(inner: Option<Exc>)

  /** The user's act-and-assert routine, taking the case's values positionally. */
  type Callback = Case -> Outcome

  /** A chaining arrangement call: `self` on success, the failure otherwise. */
  function Chained<T>(self: T, failure: Option<Failure>): (r: Result<T, Failure>)
    ensures r.Ok? <==> failure.None?
    ensures r.Ok? ==> r.value == self
    ensures r.Err? ==> Some(r.error) == failure
  {
    match failure
    case None => Ok(self)
    case Some(f) => Err(f)
  }

  /** The default string rendering used when joining values: a null
      element contributes the empty string. */
  function Render(v: Value): (r: string)
    ensures v.Null? ==> r == ""
    ensures v.Obj? ==> r == v.text
  {
    match v
    case Null => ""
    case Obj(text) => text
  }

  /** The rendering of each value of a tuple, in order. */
  function Rendered(t: Case): (r: seq<string>)
    ensures |r| == |t|
    ensures forall i :: 0 <= i < |t| ==> r[i] == Render(t[i])
  {
    seq(|t|, i requires 0 <= i < |t| => Render(t[i]))
  }

  /** The total length of the parts. */
  function TotalLength(parts: seq<string>): nat
    decreases |parts|
  {
    if parts == [] then 0 else |parts[0]| + TotalLength(parts[1..])
  }

  /** The parts separated by `sep`, in order. Its base cases below and
      JoinConcat determine every join. */
  function Join(sep: string, parts: seq<string>): (r: string)
    decreases |parts|
    ensures parts == [] ==> r == ""
    ensures |parts| == 1 ==> r == parts[0]
  {
    if parts == [] then ""
    else if |parts| == 1 then parts[0]
    else parts[0] + sep + Join(sep, parts[1..])
  }

  /** A join holds every part plus one separator between each two parts. */
  lemma {:induction false} JoinLength(sep: string, parts: seq<string>)
    requires parts != []
    ensures |Join(sep, parts)| + |sep| == TotalLength(parts) + |sep| * |parts|
    decreases |parts|
  {
    if |parts| > 1 {
      JoinLength(sep, parts[1..]);
      assert |sep| * |parts| == |sep| + |sep| * |parts[1..]|;
    }
  }

  /** Joining two non-empty lists puts exactly one separator between them. */
  lemma {:induction false} JoinConcat(sep: string, xs: seq<string>, ys: seq<string>)
    requires xs != [] && ys != []
    ensures Join(sep, xs + ys) == Join(sep, xs) + sep + Join(sep, ys)
    decreases |xs|
  {
    var zs := xs + ys;
    assert zs[0] == xs[0];
    assert Join(sep, zs) == xs[0] + sep + Join(sep, zs[1..]);
    if |xs| == 1 {
      assert zs[1..] == ys;
    } else {
      assert zs[1..] == xs[1..] + ys;
      JoinConcat(sep, xs[1..], ys);
      var tail := Join(sep, xs[1..]);
      assert Join(sep, xs) == xs[0] + sep + tail;
      assert xs[0] + sep + (tail + sep + Join(sep, ys)) == (xs[0] + sep + tail) + sep + Join(sep, ys);
    }
  }

  /** Joining after rendering: each value's rendering, in order, with one
      separator between consecutive values. */
  lemma {:induction false} JoinRenderedSnoc(sep: string, t: Case, v: Value)
    requires t != []
    ensures Join(sep, Rendered(t + [v])) == Join(sep, Rendered(t)) + sep + Render(v)
  {
    assert Rendered(t + [v]) == Rendered(t) + [Render(v)];
    JoinConcat(sep, Rendered(t), [Render(v)]);
  }

  const MismatchSuffix := "] has different number of arguments than the previous test cases."

  const MismatchPrefix := "Test case ["

  /** The arity-mismatch message, naming the offending tuple's rendered
      values: the fixed prefix, the values joined by ", ", the fixed suffix. */
  function MismatchMessage(t: Case): (r: string)
    ensures |r| == |MismatchPrefix| + |Join(", ", Rendered(t))| + |MismatchSuffix|
    ensures r[..|MismatchPrefix|] == MismatchPrefix
    ensures r[|r| - |MismatchSuffix|..] == MismatchSuffix
    ensures r[|MismatchPrefix|..|r| - |MismatchSuffix|] == Join(", ", Rendered(t))
  {
    MismatchPrefix + Join(", ", Rendered(t)) + MismatchSuffix
  }

  const NoTestCasesMessage := "There are no test cases. Have you forgotten to arrange them?"

  /** The message the unit tests expect when ("test case") is followed by
      ("test case", "throws"). */
  lemma MismatchMessageExample()
    ensures MismatchMessage([Obj("test case"), Obj("throws")])
         == "Test case [test case, throws" + MismatchSuffix
  {
    var t := [Obj("test case"), Obj("throws")];
    assert Rendered(t) == ["test case", "throws"];
    assert Join(", ", Rendered(t)) == "test case" + ", " + "throws";
    assert "test case" + ", " + "throws" == "test case, throws";
    assert "Test case [" + "test case, throws" == "Test case [test case, throws";
  }
}
