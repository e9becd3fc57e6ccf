/** benchmark_automation.py: its own F1 score, written with an early exit when
    no token is shared. The ablation driver is not part of this model. */
module BenchmarkAutomation {
  import Evaluate

  /** `calculate_f1` of the benchmark script. */
  function CalculateF1(predicted: string, truth: string): (f1: real)
  {
    var predictedTokens := Evaluate.TokenSet(predicted);
    var truthTokens := Evaluate.TokenSet(truth);
    if predictedTokens == {} || truthTokens == {} then 0.0
    else
      var common := predictedTokens * truthTokens;
      if common == {} then 0.0
      else
        var precision := |common| as real / |predictedTokens| as real;
        var recall := |common| as real / |truthTokens| as real;
        2.0 * (precision * recall) / (precision + recall)
  }

  /** The benchmark score equals the evaluation score on every pair of texts,
      so it inherits its bounds, its symmetry and its zero cases. */
  lemma AgreesWithEvaluate(predicted: string, truth: string)
    ensures CalculateF1(predicted, truth) == Evaluate.CalculateF1(predicted, truth)
    ensures 0.0 <= CalculateF1(predicted, truth) <= 1.0
    ensures CalculateF1(predicted, truth) == CalculateF1(truth, predicted)
    ensures Evaluate.TokenSet(predicted) * Evaluate.TokenSet(truth) == {} ==> CalculateF1(predicted, truth) == 0.0
  {
    var p := Evaluate.TokenSet(predicted);
    var t := Evaluate.TokenSet(truth);
    Evaluate.F1ClosedForm(predicted, truth);
    Evaluate.F1ClosedForm(truth, predicted);
    Evaluate.F1Symmetric(predicted, truth);
    if p != {} && t != {} && p * t != {} {
      Evaluate.HarmonicOfRatios(|p * t| as real, |p| as real, |t| as real);
    }
  }
}
