/** Stop criteria of the particle swarm: questions asked of the swarm's
    shared best value after every iteration. */
module StopCriteria {

  /** The default tolerance of the target-value criterion. */
  const DefaultAccuracy: real := 0.0001

  /** `StopCriteria` (never stops) or `FindBestCriteria(best, accuracy)`. */
  datatype StopCriterion =
    | Never
    | FindBest(target: real, accuracy: real)

  /** `FindBestCriteria(best)` with the accuracy left at its default: it
      stops exactly when the best value lies within 0.0001 of the target. */
  function FindBestDefault(target: real): (r: StopCriterion)
    ensures forall bestVal :: ShouldStop(r, bestVal) <==> target - 0.0001 <= bestVal <= target + 0.0001
  {
    FindBest(target, DefaultAccuracy)
  }

  function Abs(x: real): (r: real)
    ensures r >= 0.0 && (r == x || r == -x)
  {
    if x < 0.0 then -x else x
  }

  /** `operator()(swarm)` on the swarm's best value. The base criterion
      never stops. The target criterion stops on an exact hit, and
      otherwise when the best value is within `accuracy` of the target; so
      with a non-negative accuracy it stops exactly within the tolerance
      band, and with a negative one only on an exact hit. */
  function ShouldStop(c: StopCriterion, bestVal: real): (r: bool)
    ensures c.Never? ==> !r
    ensures c.FindBest? && bestVal == c.target ==> r
    ensures c.FindBest? && c.accuracy >= 0.0 ==> (r <==> c.target - c.accuracy <= bestVal <= c.target + c.accuracy)
    ensures c.FindBest? && c.accuracy < 0.0 ==> (r <==> bestVal == c.target)
  {
    match c
    case Never => false
    case FindBest(target, accuracy) => bestVal == target || Abs(bestVal - target) <= accuracy
  }
}
