/**
 * Running a list of fallible steps in order and stopping at the first failure, as a loop of
 * `?` does: the values of all steps when none fails, otherwise the first error.
 */
module Collecting {
  import opened Wrappers

  function Collect<T, E>(rs: seq<Result<T, E>>): Result<seq<T>, E> {
    if rs == [] then Success([])
    else
      match rs[0]
      case Failure(e) => Failure(e)
      case Success(x) =>
        match Collect(rs[1..])
        case Failure(e) => Failure(e)
        case Success(xs) => Success([x] + xs)
  }

  /** When every step succeeds the result is their values, in order. */
  lemma {:induction false} CollectSucceeds<T, E>(rs: seq<Result<T, E>>, xs: seq<T>)
    requires |xs| == |rs| && forall j | 0 <= j < |rs| :: rs[j] == Success(xs[j])
    ensures Collect(rs) == Success(xs)
  {
    if rs != [] {
      CollectSucceeds(rs[1..], xs[1..]);
      assert xs == [xs[0]] + xs[1..];
    }
  }

  /** The first failing step decides the result; the steps after it do not matter. */
  lemma {:induction false} CollectStops<T, E>(rs: seq<Result<T, E>>, k: nat)
    requires k < |rs| && rs[k].Failure?
    requires forall j | 0 <= j < k :: rs[j].Success?
    ensures Collect(rs) == Failure(rs[k].error)
  {
    if k > 0 {
      assert rs[1..][k - 1] == rs[k];
      CollectStops(rs[1..], k - 1);
    }
  }

  /** A success holds one value per step, each that step's own. */
  lemma {:induction false} CollectSuccess<T, E>(rs: seq<Result<T, E>>)
    requires Collect(rs).Success?
    ensures |Collect(rs).value| == |rs|
    ensures forall j | 0 <= j < |rs| :: rs[j] == Success(Collect(rs).value[j])
  {
    if rs != [] {
      CollectSuccess(rs[1..]);
      assert forall j | 1 <= j < |rs| :: rs[j] == rs[1..][j - 1];
    }
  }

  /** A failure is the error of some step all of whose predecessors succeeded. */
  lemma {:induction false} CollectFailure<T, E>(rs: seq<Result<T, E>>)
    requires Collect(rs).Failure?
    ensures exists k | 0 <= k < |rs| ::
      (forall j | 0 <= j < k :: rs[j].Success?) && rs[k] == Failure(Collect(rs).error)
  {
    if rs[0].Success? {
      CollectFailure(rs[1..]);
      var k :| 0 <= k < |rs[1..]|
        && (forall j | 0 <= j < k :: rs[1..][j].Success?) && rs[1..][k] == Failure(Collect(rs[1..]).error);
      assert forall j | 0 <= j < k + 1 :: rs[j].Success? by {
        forall j | 0 <= j < k + 1 ensures rs[j].Success? {
          if j > 0 { assert rs[j] == rs[1..][j - 1]; }
        }
      }
    }
  }

  /** A successful prefix of the results grows by one when the next result is a success. */
  lemma SuccessPrefixGrows<T, E>(rs: seq<Result<T, E>>, xs: seq<T>, x: T)
    requires |xs| < |rs| && rs[|xs|] == Success(x)
    requires forall j | 0 <= j < |xs| :: rs[j] == Success(xs[j])
    ensures forall j | 0 <= j < |xs| + 1 :: rs[j] == Success((xs + [x])[j])
  {
  }
}
