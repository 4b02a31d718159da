/**
 * Optional values and results shared by every component.
 * A raised Python exception is modelled as `Failure(message)`, where the
 * message is what `str(e)` would print.
 */
module Wrappers {

  datatype Option<T> = None | Some(value: T)
  {
    function UnwrapOr(default: T): T
    {
      match this
      case Some(v) => v
      case None => default
    }
  }

  datatype Result<T> = Success(value: T) | Failure(error: string)
  {
    predicate IsFailure()
    {
      Failure?
    }

    function PropagateFailure<U>(): Result<U>
      requires Failure?
    {
      Failure(error)
    }

    function Extract(): T
      requires Success?
    {
      value
    }

    function Map<U>(f: T -> U): Result<U>
    {
      match this
      case Success(v) => Success(f(v))
      case Failure(e) => Failure(e)
    }
  }

  /**
   * Applies `f` to every element with its position, in order; the first
   * failure stops the walk and is the result.
   */
  function MapAll<T, U>(xs: seq<T>, f: (T, nat) -> Result<U>): Result<seq<U>>
  {
    if xs == [] then Success([])
    else
      var init :- MapAll(xs[..|xs| - 1], f);
      var last :- f(xs[|xs| - 1], |xs| - 1);
      Success(init + [last])
  }

  /** The walk succeeds exactly when every element succeeds, and then yields one value per element. */
  lemma {:induction false} MapAllSuccess<T, U>(xs: seq<T>, f: (T, nat) -> Result<U>)
    ensures MapAll(xs, f).Success? <==> forall i :: 0 <= i < |xs| ==> f(xs[i], i).Success?
    ensures MapAll(xs, f).Success? ==> |MapAll(xs, f).value| == |xs|
  {
    if xs != [] {
      var init := xs[..|xs| - 1];
      MapAllSuccess(init, f);
      assert forall i :: 0 <= i < |init| ==> init[i] == xs[i];
    }
  }

  /** Value `i` of a successful walk is `f` of element `i`. */
  lemma {:induction false} MapAllContent<T, U>(xs: seq<T>, f: (T, nat) -> Result<U>)
    requires MapAll(xs, f).Success?
    ensures |MapAll(xs, f).value| == |xs|
    ensures forall i :: 0 <= i < |xs| ==> f(xs[i], i) == Success(MapAll(xs, f).value[i])
  {
    MapAllSuccess(xs, f);
    if xs != [] {
      var init := xs[..|xs| - 1];
      MapAllContent(init, f);
      var prefix := MapAll(init, f).value;
      var last := f(xs[|xs| - 1], |xs| - 1).value;
      assert MapAll(xs, f).value == prefix + [last];
      forall i | 0 <= i < |xs|
        ensures f(xs[i], i) == Success(MapAll(xs, f).value[i])
      {
        if i < |init| {
          assert xs[i] == init[i];
        }
      }
    }
  }

  /** A failing walk fails with the error of the first element that fails. */
  lemma {:induction false} MapAllFirstError<T, U>(xs: seq<T>, f: (T, nat) -> Result<U>, k: nat)
    requires k < |xs| && f(xs[k], k).Failure? && forall j :: 0 <= j < k ==> f(xs[j], j).Success?
    ensures MapAll(xs, f) == Failure(f(xs[k], k).error)
  {
    var init := xs[..|xs| - 1];
    assert forall j :: 0 <= j < |init| ==> init[j] == xs[j];
    if k < |xs| - 1 {
      MapAllFirstError(init, f, k);
    } else {
      MapAllSuccess(init, f);
    }
  }
}
