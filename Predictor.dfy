/**
 * The fixed two-threshold decision tree (a Weka J48 tree) that predicts a
 * patient's response to treatment from the expression levels of protein 3698
 * (p1) and protein 3259 (p2). Doubles are modelled as reals.
 */
module Predictor {

  /** Threshold on protein 3698: at or below it, disease progression is predicted. */
  const P1Threshold: real := 20.903959
  /** Threshold on protein 3259, consulted only above the first threshold. */
  const P2Threshold: real := 22.058599

  const PredDP: string := "predDP"
  const PredCR: string := "predCR"

  /** The labels `Predict` can return. */
  predicate IsPrediction(s: string) {
    s == PredDP || s == PredCR
  }

  /** The region of the (p1, p2) plane in which complete response is predicted. */
  predicate InCompleteResponseRegion(p1: real, p2: real) {
    P1Threshold < p1 && p2 <= P2Threshold
  }

  /** Predictor.predict: the nested comparisons in their original order. */
  function Predict(p1: real, p2: real): (r: string)
    ensures IsPrediction(r)
    ensures r == PredCR <==> InCompleteResponseRegion(p1, p2)
  {
    if p1 <= P1Threshold then
      PredDP
    else if p2 <= P2Threshold then
      PredCR
    else
      PredDP
  }

  /** At or below the first threshold the second protein is never consulted. */
  lemma LowP1IgnoresP2(p1: real, p2: real, p2': real)
    requires p1 <= P1Threshold
    ensures Predict(p1, p2) == Predict(p1, p2') == PredDP
  {
  }

  /** Above the first threshold, the second threshold is inclusive for complete response. */
  lemma HighP1SplitsOnP2(p1: real, p2: real)
    requires P1Threshold < p1
    ensures p2 <= P2Threshold ==> Predict(p1, p2) == PredCR
    ensures P2Threshold < p2 ==> Predict(p1, p2) == PredDP
  {
  }

  /**
   * The complete-response region is closed upwards in p1 and downwards in p2:
   * raising protein 3698 or lowering protein 3259 never turns a complete
   * response into disease progression.
   */
  lemma CompleteResponseMonotone(p1: real, p2: real, q1: real, q2: real)
    requires Predict(p1, p2) == PredCR
    requires p1 <= q1 && q2 <= p2
    ensures Predict(q1, q2) == PredCR
  {
  }
}
