/** The `compare` functions of the two Jasmine matchers. */
module Matchers {
  import opened Wrappers
  import opened Results
  import opened Reporter

  datatype MatcherResult = MatcherResult(pass: bool, message: string)

  /** The message of the `Error` both matchers throw on a result without `violations`. */
  const MissingViolations := "No violations found in aXe results object"

  /** `toHaveNoViolations`: passes exactly when there is no violation; the message is then empty. */
  function ToHaveNoViolations(results: AxeResults): (r: Result<MatcherResult, string>)
    ensures r.Failure? <==> results.violations.None?
    ensures r.Failure? ==> r.error == MissingViolations
    ensures r.Success? ==> r.value.message == Report(results.violations.value, None)
    ensures r.Success? ==> (r.value.pass <==> |results.violations.value| == 0)
    ensures r.Success? ==> (r.value.pass <==> r.value.message == "")
  {
    match results.violations
    case None => Failure(MissingViolations)
    case Some(vs) => Success(MatcherResult(|vs| == 0, Report(vs, None)))
  }

  /**
   * `toHaveLessThanXViolations`: passes when the count is at most the
   * threshold; an undefined threshold compares false, so it never passes.
   */
  function ToHaveLessThanXViolations(results: AxeResults, allowed: Option<int>): (r: Result<MatcherResult, string>)
    ensures r.Failure? <==> results.violations.None?
    ensures r.Failure? ==> r.error == MissingViolations
    ensures r.Success? ==> r.value.message == Report(results.violations.value, allowed)
    ensures r.Success? ==> (r.value.pass <==> allowed.Some? && |results.violations.value| <= allowed.value)
  {
    match results.violations
    case None => Failure(MissingViolations)
    case Some(vs) => Success(MatcherResult(allowed.Some? && |vs| <= allowed.value, Report(vs, allowed)))
  }

  /** With a threshold of 0 the bounded matcher behaves exactly like `toHaveNoViolations`. */
  lemma ZeroThresholdIsNoViolations(results: AxeResults)
    ensures ToHaveLessThanXViolations(results, Some(0)) == ToHaveNoViolations(results)
  {
    if results.violations.Some? && results.violations.value != [] {
      ZeroThresholdSaysNo(results.violations.value);
    }
  }

  /** Raising the threshold never turns a pass into a failure. */
  lemma ThresholdMonotone(results: AxeResults, k: int, k': int)
    requires k <= k'
    requires ToHaveLessThanXViolations(results, Some(k)).Success?
    requires ToHaveLessThanXViolations(results, Some(k)).value.pass
    ensures ToHaveLessThanXViolations(results, Some(k')).value.pass
  {
  }

  /** A failing bounded matcher with a non-negative threshold always explains itself. */
  lemma FailureHasMessage(results: AxeResults, k: nat)
    requires ToHaveLessThanXViolations(results, Some(k)).Success?
    requires !ToHaveLessThanXViolations(results, Some(k)).value.pass
    ensures ToHaveLessThanXViolations(results, Some(k)).value.message != ""
  {
  }

  /** For instance: 3 violations pass a threshold of 5 and fail a threshold of 2. */
  lemma ThresholdExamples(vs: seq<Violation>)
    requires |vs| == 3
    ensures ToHaveLessThanXViolations(AxeResults(Some(vs)), Some(5)).value.pass
    ensures !ToHaveLessThanXViolations(AxeResults(Some(vs)), Some(2)).value.pass
    ensures !ToHaveNoViolations(AxeResults(Some(vs))).value.pass
  {
  }
}
