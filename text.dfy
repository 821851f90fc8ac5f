/**
 * The handful of Python `str` operations the analyzers are built from:
 * `in`, `startswith`, `endswith`, `lower`, `strip`, `split('\n')` and `count('\n')`,
 * together with the facts about them that the analyzers' proofs need.
 */
module Text {

  /** Characters for which Python's `str.isspace()` holds; `\s` in a `str` regex matches exactly these. */
  predicate IsSpace(c: char) {
    || c == ' '
    || '\t' <= c <= '\r'
    || '\U{1c}' <= c <= '\U{1f}'
    || c == '\U{85}' || c == '\U{a0}' || c == '\U{1680}'
    || '\U{2000}' <= c <= '\U{200a}'
    || c == '\U{2028}' || c == '\U{2029}' || c == '\U{202f}' || c == '\U{205f}' || c == '\U{3000}'
  }

  predicate IsAsciiLower(c: char) { 'a' <= c <= 'z' }

  predicate IsAsciiUpper(c: char) { 'A' <= c <= 'Z' }

  predicate IsDigit(c: char) { '0' <= c <= '9' }

  /** The word characters of `\w` and `\b`, restricted to ASCII: `[a-zA-Z0-9_]`. */
  predicate IsWordChar(c: char) { IsAsciiLower(c) || IsAsciiUpper(c) || IsDigit(c) || c == '_' }

  /** `sub` occurs in `s` starting at index `i`. */
  predicate OccursAt(s: string, sub: string, i: int) {
    0 <= i && i + |sub| <= |s| && s[i..i + |sub|] == sub
  }

  /** Python's `sub in s`. */
  predicate Contains(s: string, sub: string) {
    exists i | 0 <= i <= |s| - |sub| :: OccursAt(s, sub, i)
  }

  /** A text that lacks one of the characters of `sub` does not contain `sub`. */
  lemma MissingCharNotContained(s: string, sub: string, j: nat)
    requires j < |sub| && sub[j] !in s
    ensures !Contains(s, sub)
  {
  }

  /** Python's `s.startswith(p)`. */
  predicate StartsWith(s: string, p: string) {
    |p| <= |s| && s[..|p|] == p
  }

  /** Python's `s.endswith(p)`. */
  predicate EndsWith(s: string, p: string) {
    |p| <= |s| && s[|s| - |p|..] == p
  }

  function LowerChar(c: char): char {
    if IsAsciiUpper(c) then (c as int + 32) as char else c
  }

  /**
   * Python's `s.lower()` on the ASCII letters: the result has no upper-case
   * ASCII letter, and each character is the original or, for an upper-case
   * letter, the same letter in lower case.
   */
  function Lower(s: string): (r: string)
    ensures |r| == |s|
    ensures forall i :: 0 <= i < |s| ==> !IsAsciiUpper(r[i])
    ensures forall i :: 0 <= i < |s| ==> r[i] == s[i] || (IsAsciiUpper(s[i]) && r[i] as int == s[i] as int + 32)
  {
    seq(|s|, i requires 0 <= i < |s| => LowerChar(s[i]))
  }

  /** Lower-casing a second time changes nothing. */
  lemma LowerIdempotent(s: string)
    ensures Lower(Lower(s)) == Lower(s)
  {
    forall i | 0 <= i < |s|
      ensures Lower(Lower(s))[i] == Lower(s)[i]
    {
      assert Lower(s)[i] == LowerChar(s[i]);
    }
  }

  /** Python's `s.lstrip()`: what is left does not start with white space. */
  function LStrip(s: string): (r: string)
    ensures |r| <= |s|
    ensures r != [] ==> !IsSpace(r[0])
  {
    if |s| > 0 && IsSpace(s[0]) then LStrip(s[1..]) else s
  }

  /** Python's `s.rstrip()`: what is left keeps the first character and does not end with white space. */
  function RStrip(s: string): (r: string)
    ensures |r| <= |s|
    ensures r != [] ==> r[0] == s[0] && !IsSpace(r[|r| - 1])
  {
    if |s| > 0 && IsSpace(s[|s| - 1]) then RStrip(s[..|s| - 1]) else s
  }

  /** Python's `s.strip()`: no longer than `s`, and neither end of the result is white space. */
  function Strip(s: string): (r: string)
    ensures |r| <= |s|
    ensures r != [] ==> !IsSpace(r[0]) && !IsSpace(r[|r| - 1])
  {
    RStrip(LStrip(s))
  }

  /** `lstrip` drops a prefix made only of white space. */
  lemma {:induction false} LStripDropsSpace(s: string)
    ensures LStrip(s) == s[|s| - |LStrip(s)|..]
    ensures forall j :: 0 <= j < |s| - |LStrip(s)| ==> IsSpace(s[j])
  {
    if |s| > 0 && IsSpace(s[0]) {
      LStripDropsSpace(s[1..]);
    }
  }

  /** `rstrip` drops a suffix made only of white space. */
  lemma {:induction false} RStripDropsSpace(s: string)
    ensures RStrip(s) == s[..|RStrip(s)|]
    ensures forall j :: |RStrip(s)| <= j < |s| ==> IsSpace(s[j])
  {
    if |s| > 0 && IsSpace(s[|s| - 1]) {
      RStripDropsSpace(s[..|s| - 1]);
    }
  }

  /** The stripped text is the slice of `s` that starts at index `i`, with only white space around it. */
  lemma StripTrims(s: string) returns (i: nat)
    ensures i + |Strip(s)| <= |s| && Strip(s) == s[i..i + |Strip(s)|]
    ensures forall j :: 0 <= j < i ==> IsSpace(s[j])
    ensures forall j :: i + |Strip(s)| <= j < |s| ==> IsSpace(s[j])
  {
    var l := LStrip(s);
    var r := RStrip(l);
    LStripDropsSpace(s);
    RStripDropsSpace(l);
    assert Strip(s) == r;
    i := |s| - |l|;
    assert s[i..i + |r|] == l[..|r|];
    TrailingSpace(s, l, r, i);
  }

  lemma TrailingSpace(s: string, l: string, r: string, i: nat)
    requires i <= |s| && l == s[i..] && |r| <= |l|
    requires forall j :: |r| <= j < |l| ==> IsSpace(l[j])
    ensures forall j :: i + |r| <= j < |s| ==> IsSpace(s[j])
  {
    forall j | i + |r| <= j < |s|
      ensures IsSpace(s[j])
    {
      assert s[j] == l[j - i];
    }
  }

  /** Python's `s.count(c)` for a one-character `c`. */
  function CountChar(s: string, c: char): nat {
    if s == [] then 0 else (if s[0] == c then 1 else 0) + CountChar(s[1..], c)
  }

  lemma {:induction false} CountCharPrefix(s: string, p: nat, c: char)
    requires p <= |s|
    ensures CountChar(s[..p], c) <= CountChar(s, c)
  {
    if p > 0 {
      assert s[..p][1..] == s[1..][..p - 1];
      CountCharPrefix(s[1..], p - 1, c);
    }
  }

  /**
   * Python's `s.split(sep)` for a one-character separator: the pieces between
   * the separators, one more piece than there are separators, none holding `sep`.
   */
  function Split(s: string, sep: char): (r: seq<string>)
    ensures |r| == CountChar(s, sep) + 1
    ensures forall k :: 0 <= k < |r| ==> sep !in r[k]
  {
    if s == [] then [""]
    else
      var rest := Split(s[1..], sep);
      if s[0] == sep then [""] + rest
      else [[s[0]] + rest[0]] + rest[1..]
  }

  /** Python's `sep.join(ps)`. */
  function Join(ps: seq<string>, sep: char): string
    requires |ps| >= 1
  {
    if |ps| == 1 then ps[0] else ps[0] + [sep] + Join(ps[1..], sep)
  }

  /** Joining the pieces of a split gives back the text. */
  lemma {:induction false} JoinSplit(s: string, sep: char)
    ensures Join(Split(s, sep), sep) == s
  {
    if s != [] {
      var rest := Split(s[1..], sep);
      JoinSplit(s[1..], sep);
      if s[0] == sep {
        assert Split(s, sep) == [""] + rest;
        assert ([""] + rest)[1..] == rest;
      } else if |rest| > 1 {
        var ps := Split(s, sep);
        assert ps == [[s[0]] + rest[0]] + rest[1..];
        assert ps[1..] == rest[1..];
        assert Join(rest, sep) == rest[0] + [sep] + Join(rest[1..], sep);
      }
    }
  }

  lemma {:induction false} SplitWithoutSep(p: string, sep: char)
    requires sep !in p
    ensures Split(p, sep) == [p]
  {
    if p != [] {
      SplitWithoutSep(p[1..], sep);
      assert [p[0]] + p[1..] == p;
    }
  }

  lemma {:induction false} SplitAtFirstSep(p: string, t: string, sep: char)
    requires sep !in p
    ensures Split(p + [sep] + t, sep) == [p] + Split(t, sep)
  {
    var s := p + [sep] + t;
    if p == [] {
      assert s[1..] == t;
    } else {
      assert s[1..] == p[1..] + [sep] + t;
      SplitAtFirstSep(p[1..], t, sep);
      assert [p[0]] + p[1..] == p;
    }
  }

  /** Splitting a join of separator-free pieces gives back the pieces. */
  lemma {:induction false} SplitJoin(ps: seq<string>, sep: char)
    requires |ps| >= 1
    requires forall k :: 0 <= k < |ps| ==> sep !in ps[k]
    ensures Split(Join(ps, sep), sep) == ps
  {
    if |ps| == 1 {
      SplitWithoutSep(ps[0], sep);
    } else {
      SplitJoin(ps[1..], sep);
      SplitAtFirstSep(ps[0], Join(ps[1..], sep), sep);
      assert [ps[0]] + ps[1..] == ps;
    }
  }

  lemma ContainsInLeft(a: string, b: string, x: string)
    requires Contains(a, x)
    ensures Contains(a + b, x)
  {
    var i :| 0 <= i <= |a| - |x| && OccursAt(a, x, i);
    assert (a + b)[i..i + |x|] == a[i..i + |x|];
    assert OccursAt(a + b, x, i);
  }

  lemma ContainsInRight(a: string, b: string, x: string)
    requires Contains(b, x)
    ensures Contains(a + b, x)
  {
    var i :| 0 <= i <= |b| - |x| && OccursAt(b, x, i);
    assert (a + b)[|a| + i..|a| + i + |x|] == b[i..i + |x|];
    assert OccursAt(a + b, x, |a| + i);
  }

  /** Whatever occurs in one piece occurs in the joined text. */
  lemma {:induction false} ContainsPieceThenJoin(ps: seq<string>, sep: char, k: nat, x: string)
    requires k < |ps| && Contains(ps[k], x)
    ensures Contains(Join(ps, sep), x)
  {
    if |ps| > 1 {
      if k == 0 {
        ContainsInLeft(ps[0], [sep] + Join(ps[1..], sep), x);
        assert ps[0] + [sep] + Join(ps[1..], sep) == ps[0] + ([sep] + Join(ps[1..], sep));
      } else {
        ContainsPieceThenJoin(ps[1..], sep, k - 1, x);
        ContainsInRight(ps[0] + [sep], Join(ps[1..], sep), x);
      }
    }
  }

  lemma NoSepInOccurrence(s: string, x: string, i: int, sep: char)
    requires OccursAt(s, x, i) && sep !in x
    ensures forall p :: i <= p < i + |x| ==> s[p] != sep
  {
    forall p | i <= p < i + |x|
      ensures s[p] != sep
    {
      assert s[p] == x[p - i];
    }
  }

  /** Text free of the separator that occurs in the joined text occurs in one piece. */
  lemma {:induction false} ContainsJoinThenPiece(ps: seq<string>, sep: char, x: string) returns (k: nat)
    requires |ps| >= 1 && sep !in x && Contains(Join(ps, sep), x)
    ensures k < |ps| && Contains(ps[k], x)
  {
    var j := Join(ps, sep);
    var i :| 0 <= i <= |j| - |x| && OccursAt(j, x, i);
    if |ps| == 1 {
      k := 0;
    } else {
      var rest := Join(ps[1..], sep);
      var h := ps[0];
      assert j == h + [sep] + rest;
      assert j[|h|] == sep;
      NoSepInOccurrence(j, x, i, sep);
      if i + |x| <= |h| {
        assert h[i..i + |x|] == j[i..i + |x|];
        assert OccursAt(h, x, i);
        k := 0;
      } else {
        assert rest[i - |h| - 1..i - |h| - 1 + |x|] == j[i..i + |x|];
        assert OccursAt(rest, x, i - |h| - 1);
        var k' := ContainsJoinThenPiece(ps[1..], sep, x);
        k := k' + 1;
      }
    }
  }

  /** The lines of a text, as `text.split('\n')` gives them. */
  function Lines(s: string): (r: seq<string>)
    ensures |r| >= 1
  {
    Split(s, '\n')
  }

  /** Text without a line break occurs in the whole text exactly when it occurs in one of its lines. */
  lemma ContainsIffSomeLine(s: string, x: string)
    requires '\n' !in x
    ensures Contains(s, x) <==> exists k :: 0 <= k < |Lines(s)| && Contains(Lines(s)[k], x)
  {
    JoinSplit(s, '\n');
    if Contains(s, x) {
      var k := ContainsJoinThenPiece(Lines(s), '\n', x);
    }
    if k :| 0 <= k < |Lines(s)| && Contains(Lines(s)[k], x) {
      ContainsPieceThenJoin(Lines(s), '\n', k, x);
    }
  }

  /** Python's `code[:p].count('\n') + 1`: the 1-based line on which offset `p` lies. */
  function LineOf(s: string, p: nat): (line: nat)
    requires p <= |s|
    ensures 1 <= line <= |Lines(s)|
  {
    CountCharPrefix(s, p, '\n');
    CountChar(s[..p], '\n') + 1
  }
}
