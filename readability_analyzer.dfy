/**
 * The readability scorer: four integer sub-scores in [0, 10] (variable naming,
 * comment density, tab/space mixing, length) and their equal-weight average.
 * Ratios and averages are exact rationals; Python's `round` is round-half-to-even.
 */
module Readability {
  import opened Text

  function Max(a: int, b: int): int { if a >= b then a else b }

  function Min(a: int, b: int): int { if a <= b then a else b }

  /**
   * Python's `round(x)`: the nearest integer, ties going to the even neighbour.
   */
  function RoundHalfEven(x: real): (n: int)
    ensures x - 0.5 <= n as real <= x + 0.5
    ensures (n as real - x == 0.5 || x - n as real == 0.5) ==> n % 2 == 0
  {
    var f := x.Floor;
    var d := x - f as real;
    if d < 0.5 then f
    else if d > 0.5 then f + 1
    else if f % 2 == 0 then f
    else f + 1
  }

  /** Python's `round(x, 2)` on an exact value. */
  function RoundTo2(x: real): real {
    RoundHalfEven(x * 100.0) as real / 100.0
  }

  // ---------------------------------------------------------------- naming

  /**
   * The naming regular expression `\b([a-zA-Z_][a-zA-Z0-9_])\s=` matches at
   * offset `p` of `line`: a word boundary, a letter or underscore, one more word
   * character, one white-space character and `=`.
   */
  predicate CandidateAt(line: string, p: nat) {
    && p + 4 <= |line|
    && (p == 0 || !IsWordChar(line[p - 1]))
    && (IsAsciiLower(line[p]) || IsAsciiUpper(line[p]) || line[p] == '_')
    && IsWordChar(line[p + 1])
    && IsSpace(line[p + 2])
    && line[p + 3] == '='
  }

  /** Two matches of the naming expression never overlap: the second starts at least four characters on. */
  lemma CandidatesApart(line: string, p: nat, q: nat)
    requires CandidateAt(line, p) && CandidateAt(line, q) && p < q
    ensures p + 4 <= q
  {
  }

  /**
   * Where `re.findall` finds the naming expression in `line`, scanning from `p`:
   * every start is a match, the starts ascend without overlapping, and no match
   * at or after `p` is missed.
   */
  function CandidateStarts(line: string, p: nat): (r: seq<nat>)
    ensures forall k :: 0 <= k < |r| ==> p <= r[k] && CandidateAt(line, r[k])
    ensures forall k :: 0 <= k < |r| - 1 ==> r[k] + 4 <= r[k + 1]
    ensures forall q :: p <= q && CandidateAt(line, q) ==> q in r
    decreases |line| - p
  {
    if p + 4 > |line| then []
    else if CandidateAt(line, p) then
      var rest := CandidateStarts(line, p + 4);
      assert forall q :: p < q < p + 4 ==> !CandidateAt(line, q) by {
        forall q | p < q < p + 4 && CandidateAt(line, q) ensures false {
          CandidatesApart(line, p, q);
        }
      }
      [p] + rest
    else CandidateStarts(line, p + 1)
  }

  /**
   * `re.findall` of the naming expression on `line`: the captured group of each
   * match, left to right, one per element of `CandidateStarts(line, 0)`.
   */
  function FindCandidates(line: string): (r: seq<string>)
    ensures |r| == |CandidateStarts(line, 0)|
    ensures forall k :: 0 <= k < |r| ==> r[k] == line[CandidateStarts(line, 0)[k]..CandidateStarts(line, 0)[k] + 2]
    ensures forall k :: 0 <= k < |r| ==> |r[k]| == 2 && IsWordChar(r[k][0]) && IsWordChar(r[k][1])
  {
    var starts := CandidateStarts(line, 0);
    seq(|starts|, k requires 0 <= k < |starts| => line[starts[k]..starts[k] + 2])
  }

  /**
   * The snake_case expression `^[a-z]+(_[a-z0-9]+)*$` matches `s`: a lower-case
   * letter, then what `SnakeRest` accepts.
   */
  predicate IsSnakeCase(s: string) {
    |s| > 0 && IsAsciiLower(s[0]) && SnakeRest(s[1..], false)
  }

  /** What may follow the first letter of a snake_case name; `inGroup` says an `_[a-z0-9]+` group has begun. */
  predicate SnakeRest(t: string, inGroup: bool)
    decreases |t|
  {
    if t == [] then true
    else if t[0] == '_' then |t| >= 2 && (IsAsciiLower(t[1]) || IsDigit(t[1])) && SnakeRest(t[2..], true)
    else (if inGroup then IsAsciiLower(t[0]) || IsDigit(t[0]) else IsAsciiLower(t[0])) && SnakeRest(t[1..], inGroup)
  }

  /**
   * A character-by-character reading of the snake_case expression: only
   * lower-case letters, digits and underscores; every underscore is followed by
   * a letter or digit; and a digit comes only after an underscore (or once a
   * group has begun, `inGroup`).
   */
  predicate SnakeShape(t: string, inGroup: bool) {
    && (forall k :: 0 <= k < |t| ==> IsAsciiLower(t[k]) || IsDigit(t[k]) || t[k] == '_')
    && (forall k :: 0 <= k < |t| && t[k] == '_' ==> k + 1 < |t| && t[k + 1] != '_')
    && (forall k :: 0 <= k < |t| && IsDigit(t[k]) ==> inGroup || exists j :: 0 <= j < k && t[j] == '_')
  }

  /** Dropping a first character that is not an underscore. */
  lemma SnakeShapeTail(t: string, inGroup: bool)
    requires |t| > 0 && t[0] != '_'
    ensures SnakeShape(t, inGroup) <==>
      (if inGroup then IsAsciiLower(t[0]) || IsDigit(t[0]) else IsAsciiLower(t[0])) && SnakeShape(t[1..], inGroup)
  {
    var u := t[1..];
    if SnakeShape(u, inGroup) && (if inGroup then IsAsciiLower(t[0]) || IsDigit(t[0]) else IsAsciiLower(t[0])) {
      forall k | 0 < k < |t| && IsDigit(t[k])
        ensures inGroup || exists j :: 0 <= j < k && t[j] == '_'
      {
        assert u[k - 1] == t[k];
        if !inGroup {
          var j :| 0 <= j < k - 1 && u[j] == '_';
          assert t[j + 1] == '_';
        }
      }
    }
    if SnakeShape(t, inGroup) {
      forall k | 0 <= k < |u| && IsDigit(u[k])
        ensures inGroup || exists j :: 0 <= j < k && u[j] == '_'
      {
        assert t[k + 1] == u[k];
        if !inGroup {
          var j :| 0 <= j < k + 1 && t[j] == '_';
          assert u[j - 1] == '_';
        }
      }
    }
  }

  /** Dropping a leading underscore and the character after it. */
  lemma SnakeShapeGroup(t: string, inGroup: bool)
    requires |t| >= 2 && t[0] == '_'
    ensures SnakeShape(t, inGroup) <==> (IsAsciiLower(t[1]) || IsDigit(t[1])) && SnakeShape(t[2..], true)
  {
    var u := t[2..];
    if (IsAsciiLower(t[1]) || IsDigit(t[1])) && SnakeShape(u, true) {
      forall k | 0 <= k < |t| && IsDigit(t[k])
        ensures inGroup || exists j :: 0 <= j < k && t[j] == '_'
      {
        assert t[0] == '_';
      }
      forall k | 2 <= k < |t| && t[k] == '_'
        ensures k + 1 < |t| && t[k + 1] != '_'
      {
        assert u[k - 2] == t[k];
      }
    }
  }

  /** `SnakeRest` accepts exactly the texts of the character-by-character reading. */
  lemma {:induction false} SnakeRestShape(t: string, inGroup: bool)
    ensures SnakeRest(t, inGroup) <==> SnakeShape(t, inGroup)
    decreases |t|
  {
    if t == [] {
    } else if t[0] == '_' {
      if |t| >= 2 {
        SnakeRestShape(t[2..], true);
        SnakeShapeGroup(t, inGroup);
      }
    } else {
      SnakeRestShape(t[1..], inGroup);
      SnakeShapeTail(t, inGroup);
    }
  }

  /**
   * A name is snake_case exactly when it starts with a lower-case letter, holds
   * only lower-case letters, digits and underscores, has a letter or digit after
   * every underscore, and has no digit before its first underscore.
   */
  lemma SnakeCaseShape(s: string)
    ensures IsSnakeCase(s) <==> |s| > 0 && IsAsciiLower(s[0]) && SnakeShape(s, false)
  {
    if |s| > 0 && IsAsciiLower(s[0]) {
      SnakeRestShape(s[1..], false);
      SnakeShapeTail(s, false);
    }
  }

  /** A name is flagged when it is shorter than two characters or is not snake_case. */
  predicate IsBadName(v: string) {
    |v| < 2 || !IsSnakeCase(v)
  }

  /** A two-character name is snake_case exactly when both characters are lower-case ASCII letters. */
  lemma TwoCharSnakeCase(v: string)
    requires |v| == 2
    ensures IsSnakeCase(v) <==> IsAsciiLower(v[0]) && IsAsciiLower(v[1])
  {
    var t := v[1..];
    assert t == [v[1]] && t[1..] == [];
    assert SnakeRest(t, false) == (t[0] != '_' && IsAsciiLower(t[0]));
  }

  /**
   * The bad names among the candidates, in order: exactly the two-character
   * candidates that are not a pair of lower-case letters.
   */
  function BadAmong(cands: seq<string>): (r: seq<string>)
    requires forall k :: 0 <= k < |cands| ==> |cands[k]| == 2
    ensures forall x :: x in r <==> x in cands && !(IsAsciiLower(x[0]) && IsAsciiLower(x[1]))
  {
    if cands == [] then []
    else
      var n := |cands|;
      var last := cands[n - 1];
      TwoCharSnakeCase(last);
      assert cands == cands[..n - 1] + [last];
      BadAmong(cands[..n - 1]) + (if IsBadName(last) then [last] else [])
  }

  /** Every candidate name `findall` returns on the lines, line after line. */
  function AllCandidates(lines: seq<string>): (r: seq<string>)
    ensures forall k :: 0 <= k < |r| ==> |r[k]| == 2
  {
    if lines == [] then []
    else AllCandidates(lines[..|lines| - 1]) + FindCandidates(lines[|lines| - 1])
  }

  /**
   * `bad_variable_names` after the loops over the lines. Each entry is a flagged
   * two-character name, and each flagged candidate is reported as often as it
   * occurs: a name assigned twice is counted twice.
   */
  function BadNames(lines: seq<string>): (r: seq<string>)
    ensures forall k :: 0 <= k < |r| ==> |r[k]| == 2 && !(IsAsciiLower(r[k][0]) && IsAsciiLower(r[k][1]))
  {
    if lines == [] then []
    else
      var n := |lines|;
      var bad := BadAmong(FindCandidates(lines[n - 1]));
      assert forall k :: 0 <= k < |bad| ==> bad[k] in bad;
      BadNames(lines[..n - 1]) + bad
  }

  /** Each bad candidate is kept as often as it occurs, and no other name is kept. */
  lemma {:induction false} BadAmongCounts(cands: seq<string>)
    requires forall k :: 0 <= k < |cands| ==> |cands[k]| == 2
    ensures forall x :: multiset(BadAmong(cands))[x] == if IsBadName(x) then multiset(cands)[x] else 0
  {
    if cands != [] {
      var n := |cands|;
      BadAmongCounts(cands[..n - 1]);
      assert cands == cands[..n - 1] + [cands[n - 1]];
    }
  }

  /** Filtering a concatenation filters each part. */
  lemma {:induction false} BadAmongConcat(a: seq<string>, b: seq<string>)
    requires forall k :: 0 <= k < |a| ==> |a[k]| == 2
    requires forall k :: 0 <= k < |b| ==> |b[k]| == 2
    ensures BadAmong(a + b) == BadAmong(a) + BadAmong(b)
    decreases |b|
  {
    if b == [] {
      assert a + b == a;
    } else {
      var n := |b|;
      BadAmongConcat(a, b[..n - 1]);
      assert (a + b)[..|a + b| - 1] == a + b[..n - 1];
      assert (a + b)[|a + b| - 1] == b[n - 1];
    }
  }

  /** The nested loops filter the concatenation of all lines' candidates, in order. */
  lemma {:induction false} BadNamesFiltersAll(lines: seq<string>)
    ensures BadNames(lines) == BadAmong(AllCandidates(lines))
  {
    if lines != [] {
      var n := |lines|;
      BadNamesFiltersAll(lines[..n - 1]);
      BadAmongConcat(AllCandidates(lines[..n - 1]), FindCandidates(lines[n - 1]));
    }
  }

  /**
   * Every flagged candidate on any line is reported as often as it occurs: a
   * name assigned twice is counted twice, and nothing else is reported.
   */
  lemma BadNamesCounts(lines: seq<string>)
    ensures forall x :: multiset(BadNames(lines))[x] == if IsBadName(x) then multiset(AllCandidates(lines))[x] else 0
  {
    BadNamesFiltersAll(lines);
    BadAmongCounts(AllCandidates(lines));
  }

  lemma BadAmongExtend(cands: seq<string>, j: nat)
    requires j < |cands| && forall k :: 0 <= k < |cands| ==> |cands[k]| == 2
    ensures BadAmong(cands[..j + 1]) == BadAmong(cands[..j]) + if IsBadName(cands[j]) then [cands[j]] else []
  {
    assert cands[..j + 1][..j] == cands[..j];
  }

  lemma BadAmongStep(before: seq<string>, cands: seq<string>, j: nat, bad: seq<string>)
    requires j < |cands| && forall k :: 0 <= k < |cands| ==> |cands[k]| == 2
    requires bad == before + BadAmong(cands[..j])
    ensures bad + (if IsBadName(cands[j]) then [cands[j]] else []) == before + BadAmong(cands[..j + 1])
  {
    BadAmongExtend(cands, j);
  }

  lemma BadNamesExtend(lines: seq<string>, i: nat)
    requires i < |lines|
    ensures BadNames(lines[..i + 1]) == BadNames(lines[..i]) + BadAmong(FindCandidates(lines[i]))
  {
    assert lines[..i + 1][..i] == lines[..i];
  }

  datatype NamingReport = NamingReport(badVariables: seq<string>, score: int)

  /** The naming score: ten, less one per flagged name, never below zero. */
  function NamingScore(bad: seq<string>): (score: int)
    ensures 0 <= score <= 10
    ensures bad == [] ==> score == 10
  {
    Max(0, 10 - |bad|)
  }

  /** The naming report as a value: the flagged names of all lines and their score. */
  function NamingQuality(code: string): NamingReport {
    var bad := BadNames(Lines(code));
    NamingReport(bad, NamingScore(bad))
  }

  /** `check_variable_naming_quality`, as the nested loops compute it. */
  method CheckVariableNamingQuality(code: string) returns (report: NamingReport)
    ensures report == NamingQuality(code)
  {
    var lines := Lines(code);
    var bad: seq<string> := [];
    var i := 0;
    while i < |lines|
      invariant 0 <= i <= |lines|
      invariant bad == BadNames(lines[..i])
    {
      var line := lines[i];
      var matches := FindCandidates(line);
      ghost var before := bad;
      var j := 0;
      while j < |matches|
        invariant 0 <= j <= |matches|
        invariant bad == before + BadAmong(matches[..j])
      {
        var v := matches[j];
        BadAmongStep(before, matches, j, bad);
        if |v| < 2 || !IsSnakeCase(v) {
          bad := bad + [v];
        }
        j := j + 1;
      }
      assert matches[..j] == matches;
      BadNamesExtend(lines, i);
      i := i + 1;
    }
    assert lines[..i] == lines;
    report := NamingReport(bad, Max(0, 10 - |bad|));
  }

  // ------------------------------------------------------ comment density

  /** A comment line is one whose first character other than white space is `#`. */
  predicate IsCommentLine(line: string) {
    StartsWith(Strip(line), "#")
  }

  function CountComments(lines: seq<string>): (n: nat)
    ensures n <= |lines|
  {
    if lines == [] then 0
    else CountComments(lines[..|lines| - 1]) + (if IsCommentLine(lines[|lines| - 1]) then 1 else 0)
  }

  lemma RatioInUnit(a: nat, b: nat)
    requires 0 < b && a <= b
    ensures 0.0 <= (a as real) / (b as real) <= 1.0
  {
    assert (a as real) / (b as real) * (b as real) == a as real;
  }

  datatype CommentReport = CommentReport(commentRatio: real, score: int)

  /** `check_comment_density`: the ratio lies in [0, 1] and the score `min(10, round(20 * ratio))` in [0, 10]. */
  function CheckCommentDensity(code: string): (r: CommentReport)
    ensures 0.0 <= r.commentRatio <= 1.0
    ensures 0 <= r.score <= 10
  {
    var lines := Lines(code);
    var comments := CountComments(lines);
    RatioInUnit(comments, |lines|);
    var ratio := if |lines| > 0 then (comments as real) / (|lines| as real) else 0.0;
    CommentReport(ratio, DensityScore(ratio))
  }

  /** `min(10, round(ratio * 20))` for a ratio in [0, 1] lies in [0, 10]. */
  function DensityScore(ratio: real): (score: int)
    requires 0.0 <= ratio <= 1.0
    ensures 0 <= score <= 10
  {
    Min(10, RoundHalfEven(ratio * 20.0))
  }

  /** Three comment lines out of ten give the ratio 0.3 and the score 6. */
  lemma ThreeCommentsInTenLines(code: string)
    requires |Lines(code)| == 10 && CountComments(Lines(code)) == 3
    ensures CheckCommentDensity(code) == CommentReport(0.3, 6)
  {
    assert RoundHalfEven(6.0) == 6;
  }

  // ---------------------------------------------- indentation consistency

  predicate UsesTabs(lines: seq<string>) {
    exists k :: 0 <= k < |lines| && Contains(lines[k], "\t")
  }

  predicate UsesSpaces(lines: seq<string>) {
    exists k :: 0 <= k < |lines| && Contains(lines[k], "    ")
  }

  datatype IndentationReport = IndentationReport(consistent: bool, score: int)

  /**
   * `check_indentation_consistency`: the text is reported consistent exactly when
   * the score is 10, and inconsistent texts score 3.
   */
  function CheckIndentationConsistency(code: string): (r: IndentationReport)
    ensures r.consistent <==> r.score == 10
    ensures r.score == 3 || r.score == 10
  {
    var lines := Lines(code);
    if UsesTabs(lines) && UsesSpaces(lines) then IndentationReport(false, 3)
    else IndentationReport(true, 10)
  }

  /**
   * The line-by-line test is a whole-text test: the score is 3 exactly when the
   * text holds a tab and a run of four spaces (anywhere, on any lines), and 10 otherwise.
   */
  lemma IndentationByWholeText(code: string)
    ensures CheckIndentationConsistency(code).score == 3 <==> Contains(code, "\t") && Contains(code, "    ")
    ensures CheckIndentationConsistency(code).score != 3 ==> CheckIndentationConsistency(code) == IndentationReport(true, 10)
  {
    ContainsIffSomeLine(code, "\t");
    ContainsIffSomeLine(code, "    ");
  }

  // ----------------------------------------------------------- code length

  datatype LengthReport = LengthReport(lines: nat, score: int)

  /**
   * `check_code_length`: the line count is one more than the number of line
   * breaks, and the score `max(0, 10 - lines // 20)` lies in [0, 10].
   */
  function CheckCodeLength(code: string): (r: LengthReport)
    ensures r.lines == CountChar(code, '\n') + 1
    ensures 0 <= r.score <= 10
  {
    var lines := |Lines(code)|;
    LengthReport(lines, Max(0, 10 - lines / 20))
  }

  /** Fewer than 20 lines score 10; 200 lines or more score 0. */
  lemma LengthScoreThresholds(code: string)
    ensures CheckCodeLength(code).score == 10 <==> CheckCodeLength(code).lines < 20
    ensures CheckCodeLength(code).score == 0 <==> CheckCodeLength(code).lines >= 200
  {
    var n := CheckCodeLength(code).lines;
    assert n < 20 ==> n / 20 == 0;
    assert n >= 20 ==> n / 20 >= 1;
    assert n >= 200 ==> n / 20 >= 10;
    assert n < 200 ==> n / 20 < 10;
  }

  // ------------------------------------------------------------ aggregate

  datatype ReadabilityReport = ReadabilityReport(
    totalScore: real,
    variableNaming: NamingReport,
    commentDensity: CommentReport,
    indentationConsistency: IndentationReport,
    codeLength: LengthReport)

  function SubScoreSum(r: ReadabilityReport): int {
    r.variableNaming.score + r.commentDensity.score + r.indentationConsistency.score + r.codeLength.score
  }

  /** A value that is a whole number of quarters is left alone by rounding to two decimals. */
  lemma RoundTo2KeepsQuarters(n: int)
    ensures RoundTo2(n as real / 4.0) == n as real / 4.0
  {
    var x := n as real / 4.0;
    assert x * 100.0 == (25 * n) as real;
    assert RoundHalfEven((25 * n) as real) == 25 * n;
  }

  /**
   * `calculate_readability_score`: the total is the exact average of the four
   * sub-scores (rounding to two decimals changes nothing), so it lies in [0, 10].
   */
  function CalculateReadabilityScore(code: string): (r: ReadabilityReport)
    ensures r.totalScore == SubScoreSum(r) as real / 4.0
    ensures 0.0 <= r.totalScore <= 10.0
  {
    var naming := NamingQuality(code);
    var comments := CheckCommentDensity(code);
    var indentation := CheckIndentationConsistency(code);
    var length := CheckCodeLength(code);
    var sum := naming.score + comments.score + indentation.score + length.score;
    ReadabilityReport(RoundedAverage(sum), naming, comments, indentation, length)
  }

  /** `round(sum / 4, 2)` for a sum of four sub-scores in [0, 10]: the exact average, in [0, 10]. */
  function RoundedAverage(sum: int): (t: real)
    requires 0 <= sum <= 40
    ensures t == sum as real / 4.0
    ensures 0.0 <= t <= 10.0
  {
    RoundTo2KeepsQuarters(sum);
    RoundTo2(sum as real / 4.0)
  }

  /** The empty text scores 10 for naming, 0 for comments, 10 for indentation and 10 for length: 7.5 in all. */
  lemma EmptyCodeScore()
    ensures CalculateReadabilityScore("").variableNaming.score == 10
    ensures CalculateReadabilityScore("").commentDensity.score == 0
    ensures CalculateReadabilityScore("").indentationConsistency.score == 10
    ensures CalculateReadabilityScore("").codeLength.score == 10
    ensures CalculateReadabilityScore("").totalScore == 7.5
  {
    var lines := Lines("");
    assert lines == [""];
    assert FindCandidates("") == [];
    assert BadNames(lines[..0]) == [];
    assert BadNames(lines) == [];
    assert Strip("") == "";
    assert CountComments(lines) == 0;
    assert RoundHalfEven(0.0) == 0;
    assert !Contains("", "\t");
    assert !UsesTabs(lines);
  }
}
