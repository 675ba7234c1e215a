// Failure handling shared by the scraper's stages. Python raises; here every
// stage returns a Result whose error names the exception the scraper would raise.
module Outcomes {

  /** The exceptions the scraper can raise, one constructor per cause. */
  datatype Error =
    | NoTable                     // ValueError: the page has no tbody element
    | UnknownPeriod(period: int)  // KeyError: the period is not a key of the period table
    | EmptyCell                   // IndexError: a td element has no children
    | NoTextMatch                 // AttributeError: `>(.*)<` found nothing in the cell
    | NotAFloat(literal: string)  // ValueError: float() refused a string that passed isalnum

  datatype Option<+T> = None | Some(value: T)

  datatype Result<+T> = Ok(value: T) | Err(error: Error)

  /** Index k is where a run of steps stops: every step before k succeeded and step k failed. */
  ghost predicate FirstFailure<T>(rs: seq<Result<T>>, k: int)
  {
    0 <= k < |rs| && rs[k].Err? && forall m :: 0 <= m < k ==> rs[m].Ok?
  }

  /**
   * Runs the steps rs in order, as a Python loop does, and stops at the first
   * one that raises: the result is the list of all values, or the first error.
   */
  function AllOk<T>(rs: seq<Result<T>>): (r: Result<seq<T>>)
    ensures r.Ok? <==> forall k :: 0 <= k < |rs| ==> rs[k].Ok?
    ensures r.Ok? ==> |r.value| == |rs| && forall k :: 0 <= k < |rs| ==> rs[k] == Ok(r.value[k])
    ensures r.Err? ==> exists k :: FirstFailure(rs, k) && rs[k] == Err(r.error)
  {
    if rs == [] then Ok([])
    else
      var front := AllOk(rs[..|rs| - 1]);
      if front.Err? then
        assert forall k :: FirstFailure(rs[..|rs| - 1], k) ==> FirstFailure(rs, k);
        front
      else if rs[|rs| - 1].Err? then
        assert FirstFailure(rs, |rs| - 1);
        Err(rs[|rs| - 1].error)
      else
        Ok(front.value + [rs[|rs| - 1].value])
  }

  /** A run of steps stops at exactly one place, so AllOk's error is the error of that step. */
  lemma FirstFailureUnique<T>(rs: seq<Result<T>>, k: int, k': int)
    requires FirstFailure(rs, k) && FirstFailure(rs, k')
    ensures k == k'
  {
  }

  /** The error AllOk reports is the error raised by the first failing step. */
  lemma AllOkStopsAtFirstFailure<T>(rs: seq<Result<T>>, k: int)
    requires FirstFailure(rs, k)
    ensures AllOk(rs) == Err(rs[k].error)
  {
    var r := AllOk(rs);
    assert r.Err?;
    var k' :| FirstFailure(rs, k') && rs[k'] == Err(r.error);
    FirstFailureUnique(rs, k, k');
  }

  /** The first |vs| steps of rs succeeded, with values vs. */
  ghost predicate SucceededWith<T>(rs: seq<Result<T>>, vs: seq<T>)
  {
    |vs| <= |rs| && forall k :: 0 <= k < |vs| ==> rs[k] == Ok(vs[k])
  }

  lemma SucceededWithOneMore<T>(rs: seq<Result<T>>, vs: seq<T>, v: T)
    requires SucceededWith(rs, vs) && |vs| < |rs| && rs[|vs|] == Ok(v)
    ensures SucceededWith(rs, vs + [v])
  {
    forall k | 0 <= k < |vs| + 1 ensures rs[k] == Ok((vs + [v])[k]) {
      if k < |vs| {
        assert (vs + [v])[k] == vs[k];
      }
    }
  }

  /** When every step succeeded, the run returns their values. */
  lemma AllOkOfSucceeded<T>(rs: seq<Result<T>>, vs: seq<T>)
    requires SucceededWith(rs, vs) && |vs| == |rs|
    ensures AllOk(rs) == Ok(vs)
  {
    var r := AllOk(rs);
    assert r.Ok?;
    assert forall k :: 0 <= k < |vs| ==> r.value[k] == vs[k];
    assert r.value == vs;
  }

  /** When the steps before k succeeded and step k fails, the run reports step k's error. */
  lemma AllOkFailsAfter<T>(rs: seq<Result<T>>, vs: seq<T>)
    requires SucceededWith(rs, vs) && |vs| < |rs| && rs[|vs|].Err?
    ensures AllOk(rs) == Err(rs[|vs|].error)
  {
    AllOkStopsAtFirstFailure(rs, |vs|);
  }
}
