/** Failure-compatible result types shared by every module. */
module Wrappers {

  datatype Option<+T> = None | Some(value: T)

  datatype Result<+T, +E> = Success(value: T) | Failure(error: E) {
    predicate IsFailure() {
      Failure?
    }

    function PropagateFailure<U>(): Result<U, E>
      requires Failure?
    {
      Failure(error)
    }

    function Extract(): T
      requires Success?
    {
      value
    }
  }

  /** All the successes among the first `n`, or the first failure. */
  function Gather<T, E>(results: seq<Result<T, E>>, n: nat): Result<seq<T>, E>
    requires n <= |results|
  {
    if n == 0 then Success([])
    else
      match Gather(results, n - 1)
      case Failure(e) => Failure(e)
      case Success(front) =>
        match results[n - 1]
        case Failure(e) => Failure(e)
        case Success(x) => Success(front + [x])
  }

  lemma {:induction false} GatherFails<T, E>(results: seq<Result<T, E>>, k: nat, n: nat)
    requires k < n <= |results| && Gather(results, k).Success? && results[k].Failure?
    ensures Gather(results, n) == Failure(results[k].error)
  {
    if k < n - 1 {
      GatherFails(results, k, n - 1);
    }
  }

  lemma {:induction false} GatherSuccess<T, E>(results: seq<Result<T, E>>, n: nat)
    requires n <= |results| && Gather(results, n).Success?
    ensures |Gather(results, n).value| == n
    ensures forall i | 0 <= i < n :: results[i] == Success(Gather(results, n).value[i])
  {
    if n > 0 {
      GatherSuccess(results, n - 1);
    }
  }

  lemma {:induction false} GatherExact<T, E>(results: seq<Result<T, E>>, n: nat)
    requires n <= |results|
    ensures Gather(results, n).Success? <==> forall i | 0 <= i < n :: results[i].Success?
  {
    if n > 0 {
      GatherExact(results, n - 1);
    }
  }

  lemma {:induction false} GatherAll<T, E>(results: seq<Result<T, E>>, xs: seq<T>, n: nat)
    requires |results| == |xs| && n <= |xs|
    requires forall i | 0 <= i < |xs| :: results[i] == Success(xs[i])
    ensures Gather(results, n) == Success(xs[..n])
  {
    if n > 0 {
      GatherAll(results, xs, n - 1);
      assert xs[..n] == xs[..n - 1] + [xs[n - 1]];
    }
  }
}
