/**
 * The line rule shared by both leak detectors (static_analyzer.py and app.py):
 * a line is suspicious when it calls `open(` and does not use `with ` on the same line.
 */
module LineScan {
  import opened Text

  /** The severities the leak detectors assign. */
  datatype Severity = Medium | High

  /** The line calls `open(` and nowhere uses `with `. */
  predicate IsUnguardedOpen(line: string) {
    Contains(line, "open(") && !Contains(line, "with ")
  }

  /**
   * The 1-based numbers of the unguarded-open lines, in the order `enumerate(lines, 1)` meets them:
   * every number names such a line, they strictly ascend, and no such line is missed.
   */
  function FlaggedLines(lines: seq<string>): (r: seq<nat>)
    ensures forall k :: 0 <= k < |r| ==> 1 <= r[k] <= |lines| && IsUnguardedOpen(lines[r[k] - 1])
    ensures forall k, m :: 0 <= k < m < |r| ==> r[k] < r[m]
    ensures forall i :: 0 <= i < |lines| && IsUnguardedOpen(lines[i]) ==> i + 1 in r
  {
    if lines == [] then []
    else
      var n := |lines|;
      var front := lines[..n - 1];
      assert forall i :: 0 <= i < n - 1 ==> front[i] == lines[i];
      FlaggedLines(front) + (if IsUnguardedOpen(lines[n - 1]) then [n] else [])
  }

  lemma FlaggedLinesExtend(lines: seq<string>, i: nat)
    requires i < |lines|
    ensures FlaggedLines(lines[..i + 1]) == FlaggedLines(lines[..i]) + if IsUnguardedOpen(lines[i]) then [i + 1] else []
  {
    assert lines[..i + 1][..i] == lines[..i];
  }

  /** A text in which `open(` never occurs has no flagged line. */
  lemma NoOpenNoFlaggedLines(code: string)
    ensures FlaggedLines(Lines(code)) != [] ==> Contains(code, "open(")
  {
    var flagged := FlaggedLines(Lines(code));
    if flagged != [] {
      ContainsPieceThenJoin(Lines(code), '\n', flagged[0] - 1, "open(");
      JoinSplit(code, '\n');
    }
  }
}
