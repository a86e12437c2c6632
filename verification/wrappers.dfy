/** Failure-compatible result types shared by every part of the model.

    The Java program has no error values: it throws (null dereference, array
    or substring index out of range), calls System.exit, or carries a
    non-finite double (a division by zero in floating point) into later
    arithmetic.  Each of these is one `Fault` here, and an operation that can
    meet one returns an `Outcome`.
 */
module Wrappers {

  /** The ways a run of the program stops producing a usable value. */
  datatype Fault =
    | ProcessExit        // System.exit, also reached from a caught worker exception
    | NullDereference    // NullPointerException
    | IndexOutOfRange    // ArrayIndexOutOfBounds / StringIndexOutOfBounds / List.get
    | NonFinite          // a double division by zero: Java goes on with Infinity or NaN
    | ClassCast          // ClassCastException

  datatype Option<+T> = None | Some(value: T)

  /** Either the value computed or the fault that stopped the computation. */
  datatype Outcome<+T> = Ok(value: T) | Fail(fault: Fault) {

    predicate IsFailure() {
      Fail?
    }

    function PropagateFailure<U>(): Outcome<U>
      requires Fail?
    {
      Fail(fault)
    }

    function Extract(): T
      requires Ok?
    {
      value
    }
  }

  /** The values of a sequence of outcomes, or the first failure. */
  function Sequence<T>(outs: seq<Outcome<T>>): (r: Outcome<seq<T>>)
    ensures r.Ok? <==> forall k :: 0 <= k < |outs| ==> outs[k].Ok?
    ensures r.Fail? ==> exists k :: 0 <= k < |outs| && outs[k] == Fail(r.fault) && forall i :: 0 <= i < k ==> outs[i].Ok?
    ensures r.Ok? ==> |r.value| == |outs| && forall k :: 0 <= k < |outs| ==> r.value[k] == outs[k].value
    decreases |outs|
  {
    if |outs| == 0 then Ok([])
    else
      var first :- outs[0];
      assert forall k :: 1 <= k < |outs| ==> outs[k] == outs[1..][k - 1];
      var rest :- Sequence(outs[1..]);
      var vs := [first] + rest;
      assert forall k :: 1 <= k < |vs| ==> vs[k] == rest[k - 1];
      Ok(vs)
  }
}
