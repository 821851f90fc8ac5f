/**
 * The deterministic part of the learned-classifier adapter (AICodeAnalyzer):
 * the fixed label tables with their fallbacks and the confidence threshold
 * applied to the model's score vector. Tokenizing, loading the weights and
 * running the network are behind `Classifier.infer`.
 */
module AiAnalyzer {
  import opened Wrappers

  /** One classifier finding: `{'type': 'ai_analysis', 'confidence', 'issue', 'suggestion'}`. */
  datatype AiIssue = AiIssue(confidence: real, issue: string, suggestion: string)

  /**
   * A loaded tokenizer and model. `infer(code)` is the softmax row for the code
   * (truncated to 512 tokens), or the message of the exception inference raised.
   */
  datatype Classifier = Classifier(infer: string -> Result<seq<real>>)

  /** Scores strictly above this are reported. */
  const Threshold: real := 0.5

  const IssueTable: map<int, string> := map[
    0 := "Potential code optimization opportunity",
    1 := "Possible security vulnerability",
    2 := "Code readability could be improved",
    3 := "Performance bottleneck detected"
  ]

  const UnknownIssue: string := "Unknown issue detected"

  const SuggestionTable: map<int, string> := map[
    0 := "Consider using more efficient data structures or algorithms",
    1 := "Review security best practices and input validation",
    2 := "Add comments and break down complex logic",
    3 := "Use profiling tools to identify slow operations"
  ]

  const GenericSuggestion: string := "Review code for potential improvements"

  /**
   * The description of label `idx`: labels 0 to 3 have their own text from the
   * table, and exactly the other indices get the "unknown issue" fallback.
   */
  function GetIssueDescription(idx: int): (d: string)
    ensures 0 <= idx <= 3 ==> d == IssueTable[idx]
    ensures d == UnknownIssue <==> !(0 <= idx <= 3)
  {
    if idx in IssueTable then IssueTable[idx] else UnknownIssue
  }

  /**
   * The suggestion for label `idx`: labels 0 to 3 have their own advice from the
   * table, and exactly the other indices get the generic suggestion.
   */
  function GetSuggestion(idx: int): (g: string)
    ensures 0 <= idx <= 3 ==> g == SuggestionTable[idx]
    ensures g == GenericSuggestion <==> !(0 <= idx <= 3)
  {
    if idx in SuggestionTable then SuggestionTable[idx] else GenericSuggestion
  }

  /** Different labels are described differently, and so are they advised. */
  lemma TablesDistinguishLabels(i: int, j: int)
    requires 0 <= i <= 3 && 0 <= j <= 3 && i != j
    ensures GetIssueDescription(i) != GetIssueDescription(j)
    ensures GetSuggestion(i) != GetSuggestion(j)
  {
    assert IssueTable[0] != IssueTable[1] && IssueTable[0] != IssueTable[2] && IssueTable[0] != IssueTable[3];
    assert IssueTable[1] != IssueTable[2] && IssueTable[1] != IssueTable[3] && IssueTable[2] != IssueTable[3];
    assert SuggestionTable[0] != SuggestionTable[1] && SuggestionTable[0] != SuggestionTable[2];
    assert SuggestionTable[0] != SuggestionTable[3] && SuggestionTable[1] != SuggestionTable[2];
    assert SuggestionTable[1] != SuggestionTable[3] && SuggestionTable[2] != SuggestionTable[3];
  }

  /**
   * The labels whose score passes the threshold, in ascending order:
   * each is a valid index scoring strictly above 0.5, and every such index is present.
   */
  function Selected(scores: seq<real>): (r: seq<nat>)
    ensures forall k :: 0 <= k < |r| ==> r[k] < |scores| && scores[r[k]] > Threshold
    ensures forall k, m :: 0 <= k < m < |r| ==> r[k] < r[m]
    ensures forall i :: 0 <= i < |scores| ==> (i in r <==> scores[i] > Threshold)
  {
    if scores == [] then []
    else
      var n := |scores|;
      var front := scores[..n - 1];
      assert forall i :: 0 <= i < n - 1 ==> front[i] == scores[i];
      Selected(front) + (if scores[n - 1] > Threshold then [n - 1] else [])
  }

  lemma SelectedExtend(scores: seq<real>, idx: nat)
    requires idx < |scores|
    ensures Selected(scores[..idx + 1]) == Selected(scores[..idx]) + (if scores[idx] > Threshold then [idx] else [])
  {
    assert scores[..idx + 1][..idx] == scores[..idx];
  }

  /** The finding for label `idx`: its score, description and suggestion all taken from that label. */
  function IssueAt(scores: seq<real>, idx: nat): AiIssue
    requires idx < |scores|
  {
    AiIssue(scores[idx], GetIssueDescription(idx), GetSuggestion(idx))
  }

  /** `issues` holds one finding per selected label, in the order of `Selected(scores)`. */
  predicate ReportsSelected(scores: seq<real>, issues: seq<AiIssue>) {
    var sel := Selected(scores);
    |issues| == |sel| && forall k :: 0 <= k < |issues| ==> issues[k] == IssueAt(scores, sel[k])
  }

  /** `issues` holds the findings for the selected labels among the first `idx` scores. */
  predicate ReportsPrefix(scores: seq<real>, idx: nat, issues: seq<AiIssue>)
    requires idx <= |scores|
  {
    var sel := Selected(scores[..idx]);
    |issues| == |sel| && forall k :: 0 <= k < |issues| ==> issues[k] == IssueAt(scores, sel[k])
  }

  lemma ReportsStep(scores: seq<real>, idx: nat, issues: seq<AiIssue>)
    requires idx < |scores| && ReportsPrefix(scores, idx, issues)
    ensures ReportsPrefix(scores, idx + 1, issues + if scores[idx] > Threshold then [IssueAt(scores, idx)] else [])
  {
    SelectedExtend(scores, idx);
  }

  /** The loop of `analyze` over `enumerate(predictions[0])`. */
  method AnalyzeScores(scores: seq<real>) returns (issues: seq<AiIssue>)
    ensures ReportsSelected(scores, issues)
  {
    issues := [];
    var idx := 0;
    while idx < |scores|
      invariant 0 <= idx <= |scores|
      invariant ReportsPrefix(scores, idx, issues)
    {
      ReportsStep(scores, idx, issues);
      if scores[idx] > Threshold {
        issues := issues + [IssueAt(scores, idx)];
      }
      idx := idx + 1;
    }
    assert scores[..idx] == scores;
  }

  /** What `analyze(code)` returns: no findings when inference raised, else the selected labels' findings. */
  predicate AnalysisOf(classifier: Classifier, code: string, issues: seq<AiIssue>) {
    match classifier.infer(code)
    case Err(_) => issues == []
    case Ok(scores) => ReportsSelected(scores, issues)
  }

  /** `AICodeAnalyzer.analyze`: a failure inside inference is swallowed and yields no findings. */
  method Analyze(classifier: Classifier, code: string) returns (issues: seq<AiIssue>)
    ensures AnalysisOf(classifier, code, issues)
    ensures classifier.infer(code).Err? ==> issues == []
  {
    match classifier.infer(code)
    case Err(_) => issues := [];
    case Ok(scores) => issues := AnalyzeScores(scores);
  }

  function Sum(s: seq<real>): real {
    if s == [] then 0.0 else Sum(s[..|s| - 1]) + s[|s| - 1]
  }

  /** A softmax row: non-negative scores summing to one. */
  predicate IsDistribution(scores: seq<real>) {
    (forall i :: 0 <= i < |scores| ==> 0.0 <= scores[i]) && Sum(scores) == 1.0
  }

  /** With non-negative scores, the selected labels alone account for more than half a unit each. */
  lemma {:induction false} SumExceedsSelected(scores: seq<real>)
    requires forall i :: 0 <= i < |scores| ==> 0.0 <= scores[i]
    ensures Sum(scores) >= Threshold * (|Selected(scores)| as real)
    ensures |Selected(scores)| > 0 ==> Sum(scores) > Threshold * (|Selected(scores)| as real)
  {
    if scores != [] {
      var n := |scores|;
      var front := scores[..n - 1];
      assert forall i :: 0 <= i < n - 1 ==> front[i] == scores[i];
      SumExceedsSelected(front);
    }
  }

  /** A softmax row has at most one score above 0.5, so `analyze` reports at most one issue. */
  lemma AtMostOneIssue(scores: seq<real>)
    requires IsDistribution(scores)
    ensures |Selected(scores)| <= 1
  {
    SumExceedsSelected(scores);
  }
}
