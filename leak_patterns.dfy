/**
 * The four assignment patterns that the leak detector of app.py scans for with
 * `re.finditer`, written out as scanners with the regular-expression engine's
 * leftmost, greedy-with-backtracking semantics:
 *
 *   `(\w+)\s*=\s*open\([^)]+\)`, `(\w+)\s*=\s*\[.+\]`,
 *   `(\w+)\s*=\s*{.+}`,          `(\w+)\s*=\s*set\(.+\)`.
 *
 * `\w` is taken as `[A-Za-z0-9_]` and `\s` as the characters `str.isspace` accepts.
 */
module LeakPatterns {
  import opened Wrappers
  import opened Text

  datatype Pattern = OpenCall | ListLiteral | DictLiteral | SetCall

  /** A match: `code[start..end]` is group 0 and `name` is group 1. */
  datatype Match = Match(start: nat, end: nat, name: string)

  /** The literal text after `=` and the optional spaces. */
  function Opener(p: Pattern): string {
    match p
    case OpenCall => "open("
    case ListLiteral => "["
    case DictLiteral => "{"
    case SetCall => "set("
  }

  /** The character that ends the match. */
  function Closer(p: Pattern): char {
    match p
    case OpenCall => ')'
    case ListLiteral => ']'
    case DictLiteral => '}'
    case SetCall => ')'
  }

  /** The end of the run of word characters starting at `i` (`\w+` is greedy). */
  function WordEnd(s: string, i: nat): (r: nat)
    requires i <= |s|
    ensures i <= r <= |s|
    ensures forall k :: i <= k < r ==> IsWordChar(s[k])
    ensures r == |s| || !IsWordChar(s[r])
    decreases |s| - i
  {
    if i < |s| && IsWordChar(s[i]) then WordEnd(s, i + 1) else i
  }

  /** The end of the run of white space starting at `i` (`\s*` is greedy). */
  function SpaceEnd(s: string, i: nat): (r: nat)
    requires i <= |s|
    ensures i <= r <= |s|
    ensures forall k :: i <= k < r ==> IsSpace(s[k])
    ensures r == |s| || !IsSpace(s[r])
    decreases |s| - i
  {
    if i < |s| && IsSpace(s[i]) then SpaceEnd(s, i + 1) else i
  }

  /** The first position at or after `i` that holds `c`, or `|s|`. */
  function Find(s: string, c: char, i: nat): (r: nat)
    requires i <= |s|
    ensures i <= r <= |s|
    ensures forall k :: i <= k < r ==> s[k] != c
    ensures r < |s| ==> s[r] == c
    decreases |s| - i
  {
    if i == |s| || s[i] == c then i else Find(s, c, i + 1)
  }

  /** The last position in `[lo, hi)` that holds `c`, if any. */
  function LastIn(s: string, c: char, lo: nat, hi: nat): (r: Option<nat>)
    requires lo <= hi <= |s|
    ensures r.Some? ==> lo <= r.value < hi && s[r.value] == c && forall k :: r.value < k < hi ==> s[k] != c
    ensures r.None? ==> forall k :: lo <= k < hi ==> s[k] != c
    decreases hi - lo
  {
    if lo == hi then None
    else if s[hi - 1] == c then Some(hi - 1)
    else LastIn(s, c, lo, hi - 1)
  }

  /** `\s*=\s*` read off `s`: spaces `[w, a)`, `=` at `a` and spaces `(a, b)`. */
  predicate EqualsAt(s: string, w: nat, a: nat, b: nat) {
    && w <= a < b <= |s|
    && (forall k :: w <= k < a ==> IsSpace(s[k]))
    && s[a] == '='
    && (forall k :: a < k < b ==> IsSpace(s[k]))
  }

  /**
   * The body and closer of `p` read off `s` from `c` up to `e`: at least one
   * character, none of them a `)` for `[^)]+` or a line break for `.+`, then the
   * closer at `e - 1`.
   */
  predicate BodyAt(p: Pattern, s: string, c: nat, e: nat) {
    && c < e - 1 && e <= |s|
    && s[e - 1] == Closer(p)
    && if p == OpenCall then (forall k :: c <= k < e - 1 ==> s[k] != ')')
       else (forall k :: c <= k < e - 1 ==> s[k] != '\n')
  }

  /** What follows the variable name in a match: `\s*=\s*`, the opener at `b`, then body and closer up to `e`. */
  predicate AfterNameWith(p: Pattern, s: string, w: nat, a: nat, b: nat, e: nat) {
    EqualsAt(s, w, a, b) && OccursAt(s, Opener(p), b) && BodyAt(p, s, b + |Opener(p)|, e)
  }

  /**
   * The regular expression's own reading of a match of `p` over `s[st..e]`:
   * group 1 is the word run `[st, w)`, and the rest is as `AfterNameWith` says.
   */
  predicate MatchesWith(p: Pattern, s: string, st: nat, w: nat, a: nat, b: nat, e: nat) {
    && st < w <= |s|
    && (forall k :: st <= k < w ==> IsWordChar(s[k]))
    && AfterNameWith(p, s, w, a, b, e)
  }

  /**
   * Where the closing character is, for a body starting at `c`. `[^)]+\)` stops at
   * the first `)` and may cross lines; `.+` followed by the closer backtracks from
   * the end of the line to the last closer on it. `CloseAtSound` and
   * `CloseAtComplete` relate it to `BodyAt`.
   */
  function CloseAt(p: Pattern, s: string, c: nat): Option<nat>
    requires c <= |s|
  {
    if p == OpenCall then
      var d := Find(s, ')', c);
      if c < d < |s| then Some(d) else None
    else
      var lineEnd := Find(s, '\n', c);
      if lineEnd <= c + 1 then None else LastIn(s, Closer(p), c + 1, lineEnd)
  }

  /** Whatever `CloseAt` finds is a body in the regular expression's sense. */
  lemma CloseAtSound(p: Pattern, s: string, c: nat)
    requires c <= |s| && CloseAt(p, s, c).Some?
    ensures BodyAt(p, s, c, CloseAt(p, s, c).value + 1)
  {
  }

  /**
   * `CloseAt` misses no body: it answers whenever one exists, for `[^)]+\)` with
   * the only possible end and for `.+` with the latest one, the engine's greedy choice.
   */
  lemma CloseAtComplete(p: Pattern, s: string, c: nat, e: nat)
    requires c <= |s| && BodyAt(p, s, c, e)
    ensures CloseAt(p, s, c).Some?
    ensures e <= CloseAt(p, s, c).value + 1
    ensures p == OpenCall ==> e == CloseAt(p, s, c).value + 1
  {
    if p == OpenCall {
      var d := Find(s, ')', c);
      assert s[c] != ')';
      assert d == e - 1;
    } else {
      var lineEnd := Find(s, '\n', c);
      assert e - 1 < lineEnd;
      var last := LastIn(s, Closer(p), c + 1, lineEnd);
      assert last.Some?;
      assert e - 1 <= last.value;
    }
  }

  /**
   * The match of pattern `p` that starts exactly at `st`, if there is one. The
   * greedy runs are the only candidates: a shorter word run is followed by a
   * word character and a shorter space run by a space, and neither can be `=`
   * or the opener. `MatchAtSound` and `MatchAtComplete` relate it to `MatchesWith`.
   */
  function MatchAt(p: Pattern, s: string, st: nat): (r: Option<Match>)
    requires st <= |s|
    ensures r.Some? ==> r.value.start == st && st < r.value.end <= |s|
  {
    if WordEnd(s, st) == st then None
    else
      AfterNameSound(p, s, st, WordEnd(s, st));
      MatchAfterName(p, s, st, WordEnd(s, st))
  }

  /** The rest of a match whose variable name is `s[st..w]`: greedy spaces, `=`, greedy spaces, then the opener. */
  function MatchAfterName(p: Pattern, s: string, st: nat, w: nat): Option<Match>
    requires st < w <= |s|
  {
    var a := SpaceEnd(s, w);
    if a == |s| || s[a] != '=' then None else MatchAfterEquals(p, s, st, w, SpaceEnd(s, a + 1))
  }

  /** The rest of a match once the opener should start at `b`: the opener, the body and the closer. */
  function MatchAfterEquals(p: Pattern, s: string, st: nat, w: nat, b: nat): Option<Match>
    requires st < w <= b <= |s|
  {
    var op := Opener(p);
    if !OccursAt(s, op, b) then None
    else
      match CloseAt(p, s, b + |op|)
      case None => None
      case Some(d) => Some(Match(st, d + 1, s[st..w]))
  }

  /** What `MatchAfterEquals` finds is an opener at `b` followed by a body. */
  lemma AfterEqualsSound(p: Pattern, s: string, st: nat, w: nat, b: nat)
    requires st < w <= b <= |s| && MatchAfterEquals(p, s, st, w, b).Some?
    ensures var m := MatchAfterEquals(p, s, st, w, b).value;
      m == Match(st, m.end, s[st..w]) && OccursAt(s, Opener(p), b) && BodyAt(p, s, b + |Opener(p)|, m.end)
  {
    CloseAtSound(p, s, b + |Opener(p)|);
  }

  /** `MatchAfterEquals` misses no opener-and-body at `b`, and ends no earlier than any. */
  lemma AfterEqualsComplete(p: Pattern, s: string, st: nat, w: nat, b: nat, e: nat)
    requires st < w <= b <= |s| && OccursAt(s, Opener(p), b) && BodyAt(p, s, b + |Opener(p)|, e)
    ensures MatchAfterEquals(p, s, st, w, b).Some?
    ensures var m := MatchAfterEquals(p, s, st, w, b).value;
      m.name == s[st..w] && e <= m.end && (p == OpenCall ==> e == m.end)
  {
    CloseAtComplete(p, s, b + |Opener(p)|, e);
  }

  /** `MatchAfterName` goes on to the opener exactly when the greedy spaces end at `=`. */
  lemma AfterNameStep(p: Pattern, s: string, st: nat, w: nat)
    requires st < w <= |s|
    ensures MatchAfterName(p, s, st, w).Some? ==> SpaceEnd(s, w) < |s| && s[SpaceEnd(s, w)] == '='
    ensures SpaceEnd(s, w) < |s| && s[SpaceEnd(s, w)] == '=' ==>
      MatchAfterName(p, s, st, w) == MatchAfterEquals(p, s, st, w, SpaceEnd(s, SpaceEnd(s, w) + 1))
  {
  }

  /** What `MatchAfterName` finds after the name is, in the regular expression's sense, the rest of a match. */
  lemma AfterNameSound(p: Pattern, s: string, st: nat, w: nat)
    requires st < w <= |s|
    ensures MatchAfterName(p, s, st, w).Some? ==>
      && SpaceEnd(s, w) < |s|
      && var m := MatchAfterName(p, s, st, w).value;
      && m == Match(st, m.end, s[st..w]) && w < m.end <= |s|
      && AfterNameWith(p, s, w, SpaceEnd(s, w), SpaceEnd(s, SpaceEnd(s, w) + 1), m.end)
  {
    AfterNameStep(p, s, st, w);
    if MatchAfterName(p, s, st, w).Some? {
      AfterEqualsSound(p, s, st, w, SpaceEnd(s, SpaceEnd(s, w) + 1));
    }
  }

  /**
   * What `MatchAt` finds is a match in the regular expression's sense: group 1 is
   * the whole word run at `st`, and the spaces around `=` are the greedy runs.
   */
  lemma MatchAtSound(p: Pattern, s: string, st: nat)
    requires st <= |s| && MatchAt(p, s, st).Some?
    ensures SpaceEnd(s, WordEnd(s, st)) < |s|
    ensures MatchAt(p, s, st).value.name == s[st..WordEnd(s, st)]
    ensures MatchesWith(p, s, st, WordEnd(s, st), SpaceEnd(s, WordEnd(s, st)),
      SpaceEnd(s, SpaceEnd(s, WordEnd(s, st)) + 1), MatchAt(p, s, st).value.end)
  {
    AfterNameSound(p, s, st, WordEnd(s, st));
  }

  /** A run of word characters that is not followed by one is where `WordEnd` stops. */
  lemma WordEndIs(s: string, i: nat, j: nat)
    requires i <= j <= |s| && (forall k :: i <= k < j ==> IsWordChar(s[k])) && (j == |s| || !IsWordChar(s[j]))
    ensures WordEnd(s, i) == j
  {
  }

  /** A run of white space that is not followed by any is where `SpaceEnd` stops. */
  lemma SpaceEndIs(s: string, i: nat, j: nat)
    requires i <= j <= |s| && (forall k :: i <= k < j ==> IsSpace(s[k])) && (j == |s| || !IsSpace(s[j]))
    ensures SpaceEnd(s, i) == j
  {
  }

  /** Greedy runs are the only way to read a match: group 1 and the spaces around `=` take all they can. */
  lemma MatchIsGreedy(p: Pattern, s: string, st: nat, w: nat, a: nat, b: nat, e: nat)
    requires MatchesWith(p, s, st, w, a, b, e)
    ensures w == WordEnd(s, st) && a == SpaceEnd(s, w) && b == SpaceEnd(s, a + 1)
  {
    WordEndIs(s, st, w);
    SpaceEndIs(s, w, a);
    assert s[b] == Opener(p)[0] by { assert s[b..b + |Opener(p)|][0] == Opener(p)[0]; }
    SpaceEndIs(s, a + 1, b);
  }

  /**
   * `MatchAt` misses no match: whenever the regular expression matches at `st`,
   * `MatchAt` answers, with the same variable name and an end no earlier. For
   * `open(...)` the end is the same; for the `.+` patterns the engine's greedy
   * choice is the latest end, which is the one `MatchAt` gives.
   */
  lemma MatchAtComplete(p: Pattern, s: string, st: nat, w: nat, a: nat, b: nat, e: nat)
    requires MatchesWith(p, s, st, w, a, b, e)
    ensures MatchAt(p, s, st).Some?
    ensures MatchAt(p, s, st).value.name == s[st..w]
    ensures e <= MatchAt(p, s, st).value.end
    ensures p == OpenCall ==> e == MatchAt(p, s, st).value.end
  {
    MatchIsGreedy(p, s, st, w, a, b, e);
    AfterNameStep(p, s, st, w);
    AfterEqualsComplete(p, s, st, w, b, e);
  }

  /** No match of `p` starts in `[lo, hi)`. */
  predicate NoMatchIn(p: Pattern, s: string, lo: nat, hi: nat)
    requires hi <= |s|
  {
    forall q :: lo <= q < hi ==> MatchAt(p, s, q).None?
  }

  /** `re.finditer(p, s[i..])`: try each start in turn; after a match, go on from its end. */
  function FindIter(p: Pattern, s: string, i: nat): (r: seq<Match>)
    requires i <= |s|
    ensures forall k :: 0 <= k < |r| ==> i <= r[k].start < r[k].end <= |s|
    ensures forall k :: 0 <= k < |r| - 1 ==> r[k].end <= r[k + 1].start
    decreases |s| - i
  {
    if i == |s| then []
    else
      match MatchAt(p, s, i)
      case Some(m) =>
        var rest := FindIter(p, s, m.end);
        assert forall k :: 0 < k <= |rest| ==> ([m] + rest)[k] == rest[k - 1];
        [m] + rest
      case None => FindIter(p, s, i + 1)
  }

  /**
   * `r` is what a leftmost-first scan from `i` finds: no match starts before its
   * first element, that element is the match at its start, and the rest is the
   * scan from where it ends.
   */
  ghost predicate IsScan(p: Pattern, s: string, i: nat, r: seq<Match>)
    requires i <= |s|
    decreases |r|
  {
    if r == [] then NoMatchIn(p, s, i, |s|)
    else
      && i <= r[0].start < r[0].end <= |s|
      && NoMatchIn(p, s, i, r[0].start)
      && MatchAt(p, s, r[0].start) == Some(r[0])
      && IsScan(p, s, r[0].end, r[1..])
  }

  /** `FindIter` skips no match: it is the scan the regular-expression engine performs. */
  lemma {:induction false} FindIterIsScan(p: Pattern, s: string, i: nat)
    requires i <= |s|
    ensures IsScan(p, s, i, FindIter(p, s, i))
    decreases |s| - i, 1
  {
    if i < |s| {
      if MatchAt(p, s, i).Some? {
        ScanAfterMatch(p, s, i);
      } else {
        ScanAfterMiss(p, s, i);
      }
    }
  }

  /** The scan step at a position where a match starts. */
  lemma {:induction false} ScanAfterMatch(p: Pattern, s: string, i: nat)
    requires i < |s| && MatchAt(p, s, i).Some?
    ensures IsScan(p, s, i, FindIter(p, s, i))
    decreases |s| - i, 0
  {
    var m := MatchAt(p, s, i).value;
    FindIterIsScan(p, s, m.end);
    assert FindIter(p, s, i) == [m] + FindIter(p, s, m.end);
    ScanAtMatch(p, s, i, m, FindIter(p, s, m.end));
  }

  /** The scan step at a position where no match starts. */
  lemma {:induction false} ScanAfterMiss(p: Pattern, s: string, i: nat)
    requires i < |s| && MatchAt(p, s, i).None?
    ensures IsScan(p, s, i, FindIter(p, s, i))
    decreases |s| - i, 0
  {
    FindIterIsScan(p, s, i + 1);
    assert FindIter(p, s, i) == FindIter(p, s, i + 1);
    ScanFromEarlier(p, s, i, FindIter(p, s, i + 1));
  }

  /** A match at `i` followed by the scan from its end is the scan from `i`. */
  lemma ScanAtMatch(p: Pattern, s: string, i: nat, m: Match, rest: seq<Match>)
    requires i < |s| && MatchAt(p, s, i) == Some(m) && m.end <= |s| && IsScan(p, s, m.end, rest)
    ensures IsScan(p, s, i, [m] + rest)
  {
    assert ([m] + rest)[1..] == rest;
  }

  /** A scan from `i + 1` is also the scan from `i` when no match starts at `i`. */
  lemma ScanFromEarlier(p: Pattern, s: string, i: nat, r: seq<Match>)
    requires i < |s| && MatchAt(p, s, i).None? && IsScan(p, s, i + 1, r)
    ensures IsScan(p, s, i, r)
  {
    var hi := if r == [] then |s| else r[0].start;
    assert NoMatchIn(p, s, i + 1, hi);
    assert NoMatchIn(p, s, i, hi);
  }

  /** A text without the opener has no match. */
  lemma {:induction false} NoOpenerNoMatch(p: Pattern, s: string, i: nat)
    requires i <= |s|
    requires !Contains(s, Opener(p))
    ensures FindIter(p, s, i) == []
    decreases |s| - i
  {
    if i < |s| {
      NoOpenerNoMatch(p, s, i + 1);
      if MatchAt(p, s, i).Some? {
        MatchAtSound(p, s, i);
      }
    }
  }
}
