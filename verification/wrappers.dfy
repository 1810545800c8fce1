/** Failure-compatible wrappers shared by every module of the model. */
module Wrappers {

  /** Python's `None` versus a present value. */
  datatype Option<+T> = None | Some(value: T)

  /** The value a Python call returns, or the exception it raises. */
  datatype Result<+T, +E> = Success(value: T) | Failure(error: E) {

    predicate IsFailure() {
      Failure?
    }

    function PropagateFailure<U>(): Result<U, E>
      requires Failure?
    {
      Failure(error)
    }

    function Extract(): T
      requires Success?
    {
      value
    }
  }

  /**
   * Running a loop of calls that each may raise: every value in order when
   * none raises, otherwise the error of the first that does.
   */
  function Sequence<T, E>(outs: seq<Result<T, E>>): (r: Result<seq<T>, E>)
    ensures r.Success? <==> forall k :: 0 <= k < |outs| ==> outs[k].Success?
    ensures r.Success? ==> |r.value| == |outs| && forall k :: 0 <= k < |outs| ==> r.value[k] == outs[k].value
    ensures r.Failure? ==> exists k :: (0 <= k < |outs| && outs[k] == Failure(r.error)
      && forall i :: 0 <= i < k ==> outs[i].Success?)
  {
    if |outs| == 0 then Success([])
    else
      var init := outs[..|outs| - 1];
      assert forall k :: 0 <= k < |init| ==> init[k] == outs[k];
      match Sequence(init)
      case Failure(e) => Failure(e)
      case Success(front) =>
        match outs[|outs| - 1]
        case Failure(e) => Failure(e)
        case Success(v) => Success(front + [v])
  }

  /** Running two loops one after the other is running them as one loop. */
  lemma SequenceConcat<T, E>(outs: seq<Result<T, E>>, more: seq<Result<T, E>>)
    requires Sequence(outs).Success? && Sequence(more).Success?
    ensures Sequence(outs + more) == Success(Sequence(outs).value + Sequence(more).value)
  {
    var all := outs + more;
    assert forall k :: 0 <= k < |all| ==> all[k].Success? by {
      forall k | 0 <= k < |all|
        ensures all[k].Success?
      {
        if k >= |outs| {
          assert all[k] == more[k - |outs|];
        }
      }
    }
    var v := Sequence(outs).value + Sequence(more).value;
    assert forall k :: 0 <= k < |all| ==> Sequence(all).value[k] == v[k] by {
      forall k | 0 <= k < |all|
        ensures Sequence(all).value[k] == v[k]
      {
        if k >= |outs| {
          assert all[k] == more[k - |outs|];
        }
      }
    }
    assert Sequence(all).value == v;
  }
}
