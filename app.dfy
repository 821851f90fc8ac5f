/**
 * app.py: the three-pass leak detector, the `/analyze` route's handling of the
 * request and of the analysis envelope, and the e-mail check of
 * `/api/verify-student`.
 */
module App {
  import opened Wrappers
  import opened Text
  import opened LineScan
  import opened LeakPatterns
  import StaticAnalysis
  import AiAnalyzer

  // ---------------------------------------------------- detect_memory_leaks

  /**
   * One warning: `{"line", "type": "memory_leak", "severity", "issue", "fix", "code"}`.
   * The type is the same for every warning and is not stored.
   */
  datatype AppLeakWarning = AppLeakWarning(line: nat, severity: Severity, issue: string, fix: string, code: string)

  /** Pass 1's warning for line number `line`, whose text is `text`. */
  function UnclosedHandle(line: nat, text: string): AppLeakWarning {
    AppLeakWarning(line, High, "Unclosed file handle detected", "Use 'with open(...) as f:' instead", Strip(text))
  }

  /** `ws` is one pass-1 warning per number in `flagged`, in the same order, each quoting its line. */
  predicate WarnsFor(ws: seq<AppLeakWarning>, flagged: seq<nat>, lines: seq<string>) {
    |ws| == |flagged| &&
    forall k :: 0 <= k < |ws| ==> 1 <= flagged[k] <= |lines| && ws[k] == UnclosedHandle(flagged[k], lines[flagged[k] - 1])
  }

  lemma WarnsForSnoc(ws: seq<AppLeakWarning>, flagged: seq<nat>, lines: seq<string>, last: string, flag: bool)
    requires WarnsFor(ws, flagged, lines)
    ensures WarnsFor(ws + (if flag then [UnclosedHandle(|lines| + 1, last)] else []),
                     flagged + (if flag then [|lines| + 1] else []), lines + [last])
  {
    var all := lines + [last];
    var ws' := ws + (if flag then [UnclosedHandle(|lines| + 1, last)] else []);
    var flagged' := flagged + (if flag then [|lines| + 1] else []);
    forall k | 0 <= k < |ws'|
      ensures 1 <= flagged'[k] <= |all| && ws'[k] == UnclosedHandle(flagged'[k], all[flagged'[k] - 1])
    {
      if k < |ws| {
        assert ws'[k] == ws[k] && flagged'[k] == flagged[k];
        assert all[flagged[k] - 1] == lines[flagged[k] - 1];
      } else {
        assert all[|lines|] == last;
      }
    }
  }

  /**
   * Pass 1 over `lines`, numbered from 1: one warning per unguarded-open line,
   * in line order and for no other line, quoting the stripped line.
   */
  function LinePass(lines: seq<string>): (r: seq<AppLeakWarning>)
    ensures WarnsFor(r, FlaggedLines(lines), lines)
  {
    if lines == [] then []
    else
      var n := |lines|;
      var front := lines[..n - 1];
      assert front + [lines[n - 1]] == lines;
      WarnsForSnoc(LinePass(front), FlaggedLines(front), front, lines[n - 1], IsUnguardedOpen(lines[n - 1]));
      LinePass(front) + (if IsUnguardedOpen(lines[n - 1]) then [UnclosedHandle(n, lines[n - 1])] else [])
  }

  lemma LinePassExtend(lines: seq<string>, i: nat)
    requires i < |lines|
    ensures LinePass(lines[..i + 1]) == LinePass(lines[..i]) + if IsUnguardedOpen(lines[i]) then [UnclosedHandle(i + 1, lines[i])] else []
  {
    assert lines[..i + 1][..i] == lines[..i];
  }

  /** Whether a regular-expression match for variable `name` is reported. */
  predicate Reported(code: string, p: Pattern, name: string) {
    if p == OpenCall then !Contains(code, name + ".close()")
    else !Contains(code, name + ".clear()") && !Contains(code, "del " + name)
  }

  function TypeName(p: Pattern): string {
    match p
    case OpenCall => "file"
    case ListLiteral => "list"
    case DictLiteral => "dict"
    case SetCall => "set"
  }

  predicate ValidMatches(code: string, ms: seq<Match>) {
    forall k :: 0 <= k < |ms| ==> ms[k].start < ms[k].end <= |code|
  }

  /**
   * The warning for match `m` of pattern `p`: it lies on the line of the match
   * start, quotes the matched text, and is high for an `open` call and medium
   * for a large object.
   */
  function WarningOf(code: string, p: Pattern, m: Match): (r: AppLeakWarning)
    requires m.start < m.end <= |code|
    ensures 1 <= r.line <= |Lines(code)|
    ensures r.code == code[m.start..m.end]
    ensures r.severity == High <==> p == OpenCall
  {
    var line := LineOf(code, m.start);
    var text := code[m.start..m.end];
    if p == OpenCall then
      AppLeakWarning(line, High, "Possible memory leak: '" + m.name + "' opened but never closed",
                     "Add '" + m.name + ".close()' after usage or use 'with' statement", text)
    else
      AppLeakWarning(line, Medium, "Large " + TypeName(p) + " object '" + m.name + "' may cause memory bloat",
                     "Consider using '" + m.name + ".clear()' or 'del " + m.name + "' when no longer needed", text)
  }

  /**
   * The positions in `ms` of the matches whose variable passes the whole-text
   * test: every such position, in ascending order, and no other.
   */
  function ReportedIndices(code: string, p: Pattern, ms: seq<Match>): (r: seq<nat>)
    ensures forall k :: 0 <= k < |r| ==> r[k] < |ms| && Reported(code, p, ms[r[k]].name)
    ensures forall k, j :: 0 <= k < j < |r| ==> r[k] < r[j]
    ensures forall i :: 0 <= i < |ms| && Reported(code, p, ms[i].name) ==> i in r
  {
    if ms == [] then []
    else
      var n := |ms|;
      var front := ms[..n - 1];
      assert forall i :: 0 <= i < n - 1 ==> front[i] == ms[i];
      ReportedIndices(code, p, front) + (if Reported(code, p, ms[n - 1].name) then [n - 1] else [])
  }

  /** `ws` is the warning of each match whose position is in `idx`, in the order of `idx`. */
  predicate WarnsForMatches(ws: seq<AppLeakWarning>, idx: seq<nat>, code: string, p: Pattern, ms: seq<Match>)
    requires ValidMatches(code, ms)
  {
    |ws| == |idx| &&
    forall k :: 0 <= k < |ws| ==> idx[k] < |ms| && ws[k] == WarningOf(code, p, ms[idx[k]])
  }

  lemma WarnsForMatchesSnoc(ws: seq<AppLeakWarning>, idx: seq<nat>, code: string, p: Pattern, ms: seq<Match>)
    requires ValidMatches(code, ms) && |ms| > 0
    requires WarnsForMatches(ws, idx, code, p, ms[..|ms| - 1])
    ensures var n := |ms|;
            var flag := Reported(code, p, ms[n - 1].name);
            WarnsForMatches(ws + (if flag then [WarningOf(code, p, ms[n - 1])] else []),
                            idx + (if flag then [n - 1] else []), code, p, ms)
  {
    var front := ms[..|ms| - 1];
    forall k | 0 <= k < |idx|
      ensures front[idx[k]] == ms[idx[k]]
    {
    }
  }

  /**
   * One regular-expression pass over its matches: the warning of each reported
   * match, in match order, and nothing else.
   */
  function MatchPass(code: string, p: Pattern, ms: seq<Match>): (r: seq<AppLeakWarning>)
    requires ValidMatches(code, ms)
    ensures WarnsForMatches(r, ReportedIndices(code, p, ms), code, p, ms)
  {
    if ms == [] then []
    else
      var n := |ms|;
      var last := ms[n - 1];
      var front := ms[..n - 1];
      WarnsForMatchesSnoc(MatchPass(code, p, front), ReportedIndices(code, p, front), code, p, ms);
      MatchPass(code, p, front) + (if Reported(code, p, last.name) then [WarningOf(code, p, last)] else [])
  }

  lemma MatchPassExtend(code: string, p: Pattern, ms: seq<Match>, i: nat)
    requires ValidMatches(code, ms) && i < |ms|
    ensures MatchPass(code, p, ms[..i + 1]) ==
      MatchPass(code, p, ms[..i]) + if Reported(code, p, ms[i].name) then [WarningOf(code, p, ms[i])] else []
  {
    assert ms[..i + 1][..i] == ms[..i];
  }

  /**
   * One regular-expression pass over the whole text; each warning lies on a
   * line of the text and has the pattern's severity.
   */
  function Pass(code: string, p: Pattern): (r: seq<AppLeakWarning>)
    ensures forall w :: w in r ==> 1 <= w.line <= |Lines(code)| && (w.severity == High <==> p == OpenCall)
  {
    MatchPass(code, p, FindIter(p, code, 0))
  }

  /** The large-object passes, for the patterns in the order given; every warning lies on a line of the text. */
  function LargeObjectPasses(code: string, ps: seq<Pattern>): (r: seq<AppLeakWarning>)
    ensures forall w :: w in r ==> 1 <= w.line <= |Lines(code)|
  {
    if ps == [] then [] else LargeObjectPasses(code, ps[..|ps| - 1]) + Pass(code, ps[|ps| - 1])
  }

  /** `large_data_patterns`, in the order the source lists them. */
  const LargeObjectPatterns: seq<Pattern> := [ListLiteral, DictLiteral, SetCall]

  /**
   * All warnings: pass 1, then pass 2, then pass 3 for lists, dicts and sets,
   * with no deduplication. Every warning, of every pass, lies on a line of the text.
   */
  function LeakWarnings(code: string): (r: seq<AppLeakWarning>)
    ensures forall w :: w in r ==> 1 <= w.line <= |Lines(code)|
  {
    LinePass(Lines(code)) + Pass(code, OpenCall) + LargeObjectPasses(code, LargeObjectPatterns)
  }

  /** The loop of pass 1: one warning per unguarded-open line, numbered from 1. */
  method ScanLines(lines: seq<string>) returns (warnings: seq<AppLeakWarning>)
    ensures warnings == LinePass(lines)
  {
    warnings := [];
    var i := 0;
    while i < |lines|
      invariant 0 <= i <= |lines|
      invariant warnings == LinePass(lines[..i])
    {
      LinePassExtend(lines, i);
      if IsUnguardedOpen(lines[i]) {
        warnings := warnings + [UnclosedHandle(i + 1, lines[i])];
      }
      i := i + 1;
    }
    assert lines[..i] == lines;
  }

  /**
   * The loop over the matches of one pattern (passes 2 and 3): a warning for
   * each match whose variable passes the whole-text test.
   */
  method ScanMatches(code: string, p: Pattern, ms: seq<Match>) returns (warnings: seq<AppLeakWarning>)
    requires ValidMatches(code, ms)
    ensures warnings == MatchPass(code, p, ms)
  {
    warnings := [];
    var j := 0;
    while j < |ms|
      invariant 0 <= j <= |ms|
      invariant warnings == MatchPass(code, p, ms[..j])
    {
      var m := ms[j];
      MatchPassExtend(code, p, ms, j);
      if Reported(code, p, m.name) {
        warnings := warnings + [WarningOf(code, p, m)];
      }
      j := j + 1;
    }
    assert ms[..j] == ms;
  }

  /** The loop of pass 3 over `large_data_patterns`: each pattern's warnings in turn. */
  method ScanPatterns(code: string, ps: seq<Pattern>) returns (warnings: seq<AppLeakWarning>)
    ensures warnings == LargeObjectPasses(code, ps)
  {
    warnings := [];
    var t := 0;
    while t < |ps|
      invariant 0 <= t <= |ps|
      invariant warnings == LargeObjectPasses(code, ps[..t])
    {
      var found := ScanMatches(code, ps[t], FindIter(ps[t], code, 0));
      LargeObjectPassesExtend(code, ps, t);
      warnings := warnings + found;
      t := t + 1;
    }
    assert ps[..t] == ps;
  }

  /** `detect_memory_leaks` of app.py: its three passes append exactly `LeakWarnings(code)`. */
  method DetectMemoryLeaks(code: string) returns (warnings: seq<AppLeakWarning>)
    ensures warnings == LeakWarnings(code)
  {
    warnings := ScanLines(Lines(code));
    var found := ScanMatches(code, OpenCall, FindIter(OpenCall, code, 0));
    warnings := warnings + found;
    found := ScanPatterns(code, LargeObjectPatterns);
    warnings := warnings + found;
  }

  lemma LargeObjectPassesExtend(code: string, ps: seq<Pattern>, t: nat)
    requires t < |ps|
    ensures LargeObjectPasses(code, ps[..t + 1]) == LargeObjectPasses(code, ps[..t]) + Pass(code, ps[t])
  {
    assert ps[..t + 1][..t] == ps[..t];
  }

  /**
   * A text in which `open(` never occurs gets no warning from the first two
   * passes.
   */
  lemma NoOpenNoFileWarnings(code: string)
    requires !Contains(code, "open(")
    ensures LinePass(Lines(code)) == [] && Pass(code, OpenCall) == []
  {
    NoOpenerNoMatch(OpenCall, code, 0);
    NoOpenNoFlaggedLines(code);
  }

  /** A text of one line that calls `open(` without `with ` draws exactly one pass-1 warning, on line 1. */
  lemma OneUnguardedLine(code: string)
    requires '\n' !in code && IsUnguardedOpen(code)
    ensures LinePass(Lines(code)) == [UnclosedHandle(1, code)]
  {
    SplitWithoutSep(code, '\n');
    assert [code][..0] == [];
  }

  /** A pass whose scan finds the single match `m`, which is reported, gives that match's warning alone. */
  lemma PassOfOneMatch(code: string, p: Pattern, m: Match)
    requires m.start < m.end <= |code|
    requires FindIter(p, code, 0) == [m] && Reported(code, p, m.name)
    ensures Pass(code, p) == [WarningOf(code, p, m)]
  {
    assert [m][..0] == [];
  }

  /** A text with no `[`, no `{` and no `set(` draws no large-object warning. */
  lemma NoLargeObjects(code: string)
    requires !Contains(code, "[") && !Contains(code, "{") && !Contains(code, "set(")
    ensures LargeObjectPasses(code, LargeObjectPatterns) == []
  {
    NoOpenerNoMatch(ListLiteral, code, 0);
    NoOpenerNoMatch(DictLiteral, code, 0);
    NoOpenerNoMatch(SetCall, code, 0);
    var ps := LargeObjectPatterns;
    assert ps[..2] == [ListLiteral, DictLiteral];
    assert ps[..2][..1] == [ListLiteral];
    assert ps[..2][..1][..0] == [];
    assert LargeObjectPasses(code, ps[..2][..1]) == [];
    assert LargeObjectPasses(code, ps[..2]) == [];
  }

  /**
   * One line that opens a file without `with`, whose one `open` match is
   * reported and which builds no large object, draws exactly two high warnings,
   * both on line 1: pass 1's, then pass 2's.
   */
  lemma UnguardedOpenWarnsTwice(code: string, m: Match)
    requires '\n' !in code && IsUnguardedOpen(code)
    requires m.start < m.end <= |code|
    requires FindIter(OpenCall, code, 0) == [m] && Reported(code, OpenCall, m.name)
    requires !Contains(code, "[") && !Contains(code, "{") && !Contains(code, "set(")
    ensures LeakWarnings(code) == [UnclosedHandle(1, code), WarningOf(code, OpenCall, m)]
    ensures forall w :: w in LeakWarnings(code) ==> w.line == 1 && w.severity == High
  {
    OneUnguardedLine(code);
    PassOfOneMatch(code, OpenCall, m);
    NoLargeObjects(code);
    SplitWithoutSep(code, '\n');
    var first, second := UnclosedHandle(1, code), WarningOf(code, OpenCall, m);
    assert LeakWarnings(code) == [first] + [second] + [];
    PairOfSingletons(first, second);
  }

  lemma PairOfSingletons(a: AppLeakWarning, b: AppLeakWarning)
    ensures [a] + [b] + [] == [a, b]
  {
  }

  /** A match that starts at 0 and spans the whole text is all that the scan finds. */
  lemma WholeTextMatch(p: Pattern, s: string, m: Match)
    requires 0 < |s| && MatchAt(p, s, 0) == Some(m) && m.end == |s|
    ensures FindIter(p, s, 0) == [m]
  {
  }

  /** A text of one line that calls `open(` without `with ` and never closes it. */
  const OpenNeverClosed: string := "f = open(\"x\")"

  lemma OpenNeverClosedChars()
    ensures '\n' !in OpenNeverClosed && IsUnguardedOpen(OpenNeverClosed)
    ensures Reported(OpenNeverClosed, OpenCall, "f")
    ensures !Contains(OpenNeverClosed, "[") && !Contains(OpenNeverClosed, "{") && !Contains(OpenNeverClosed, "set(")
  {
    assert OccursAt(OpenNeverClosed, "open(", 4);
    MissingCharNotContained(OpenNeverClosed, "with ", 0);
    assert "f" + ".close()" == "f.close()";
    MissingCharNotContained(OpenNeverClosed, "f.close()", 2);
    MissingCharNotContained(OpenNeverClosed, "[", 0);
    MissingCharNotContained(OpenNeverClosed, "{", 0);
    MissingCharNotContained(OpenNeverClosed, "set(", 0);
  }

  /** The regular expression matches the whole line, with variable `f`. */
  lemma OpenNeverClosedMatch()
    ensures MatchAt(OpenCall, OpenNeverClosed, 0) == Some(Match(0, |OpenNeverClosed|, "f"))
  {
    assert OccursAt(OpenNeverClosed, "open(", 4);
    assert MatchesWith(OpenCall, OpenNeverClosed, 0, 1, 2, 4, 13);
    MatchAtComplete(OpenCall, OpenNeverClosed, 0, 1, 2, 4, 13);
    var r := MatchAt(OpenCall, OpenNeverClosed, 0).value;
    assert OpenNeverClosed[0..1] == "f";
    assert r.start == 0 && r.end == 13 && r.name == "f";
  }

  /**
   * `f = open("x")` with no `with` and no `f.close()` draws two high warnings on
   * line 1: one from the line test and one from the `open` pattern.
   */
  lemma OpenNeverClosedWarnsTwice()
    ensures LeakWarnings(OpenNeverClosed) ==
      [UnclosedHandle(1, OpenNeverClosed), WarningOf(OpenNeverClosed, OpenCall, Match(0, |OpenNeverClosed|, "f"))]
    ensures forall w :: w in LeakWarnings(OpenNeverClosed) ==> w.line == 1 && w.severity == High
  {
    var m := Match(0, |OpenNeverClosed|, "f");
    OpenNeverClosedChars();
    OpenNeverClosedMatch();
    WholeTextMatch(OpenCall, OpenNeverClosed, m);
    UnguardedOpenWarnsTwice(OpenNeverClosed, m);
  }

  // ------------------------------------------------------------- /analyze

  /** A JSON reply and its HTTP status. */
  datatype Response = Response(body: StaticAnalysis.Envelope, status: int)

  /** A reply body holding a single `error` entry with `text`. */
  function ErrorBody(text: string): StaticAnalysis.Envelope {
    map["error" := StaticAnalysis.Message(text)]
  }

  /** The empty list `setdefault` puts under each section. */
  function EmptySection(key: string): StaticAnalysis.Value {
    if key == "code_analysis" then StaticAnalysis.CodeIssues([])
    else if key == "memory_leaks" then StaticAnalysis.MemoryLeaks([])
    else StaticAnalysis.AiFindings([])
  }

  /**
   * The three `setdefault` calls: afterwards all three sections are present, the
   * values already there are untouched, and a missing section is an empty list.
   */
  method SetDefaults(results: StaticAnalysis.Envelope) returns (r: StaticAnalysis.Envelope)
    ensures r.Keys == results.Keys + StaticAnalysis.Sections
    ensures forall k :: k in results ==> r[k] == results[k]
    ensures forall k :: k in StaticAnalysis.Sections && k !in results ==> r[k] == EmptySection(k)
    ensures StaticAnalysis.Sections <= results.Keys ==> r == results
  {
    r := results;
    if "code_analysis" !in r {
      r := r["code_analysis" := EmptySection("code_analysis")];
    }
    if "memory_leaks" !in r {
      r := r["memory_leaks" := EmptySection("memory_leaks")];
    }
    if "ai_analysis" !in r {
      r := r["ai_analysis" := EmptySection("ai_analysis")];
    }
  }

  /**
   * The `/analyze` route. `request` is what `request.get_json()` gave (`None` for
   * a missing or null body, `Err` for the exception it raised) with each key's
   * string value; `parse` and `loadAi` are passed on to the analysis.
   */
  method Analyze(request: Result<Option<map<string, string>>>, parse: string -> Result<StaticAnalysis.Node>,
                 loadAi: Result<AiAnalyzer.Classifier>)
    returns (resp: Response)
    ensures request.Err? ==> resp == Response(StaticAnalysis.ErrorEnvelope(request.msg), 500)
    ensures request.Ok? && (request.value.None? || "code" !in request.value.value) ==>
      resp == Response(ErrorBody("No code provided"), 400)
    ensures request.Ok? && request.value.Some? && "code" in request.value.value ==>
      var code := request.value.value["code"];
      && (parse(code).Err? ==> resp == Response(StaticAnalysis.ErrorEnvelope(parse(code).msg), 500))
      && (parse(code).Ok? && loadAi.Err? ==> resp == Response(StaticAnalysis.ErrorEnvelope(loadAi.msg), 500))
      && (parse(code).Ok? && loadAi.Ok? ==>
            resp.status == 200 && StaticAnalysis.SuccessfulAnalysis(resp.body, code, parse(code).value, loadAi.value))
  {
    if request.Err? {
      return Response(StaticAnalysis.ErrorEnvelope(request.msg), 500);
    }
    var data := request.value;
    if data.None? || "code" !in data.value {
      return Response(ErrorBody("No code provided"), 400);
    }
    var results := StaticAnalysis.AnalyzeCode(data.value["code"], parse, loadAi);
    if "error" in results {
      return Response(results, 500);
    }
    results := SetDefaults(results);
    resp := Response(results, 200);
  }

  // ----------------------------------------------------- /api/verify-student

  /** A value of the request's JSON object, as far as the e-mail check looks at it. */
  datatype JsonValue = JNull | JString(s: string) | JOther(truthy: bool)

  /** A reply of `verify_student`: `status`, `message`, the optional `redirect`, and the HTTP status. */
  datatype StudentReply = StudentReply(status: string, message: string, redirect: Option<string>, code: int)

  /** The accepted endings, compared without a dot boundary. */
  const StudentDomains: seq<string> :=
    ["edu", "ac.uk", "ac.in", "edu.au", "edu.cn", "ac.jp", "edu.sg", "ac.nz", "edu.hk", "edu.my"]

  /** The lower-cased address ends with one of the student domains. */
  predicate IsStudentEmail(email: string) {
    exists k :: 0 <= k < |StudentDomains| && EndsWith(Lower(email), StudentDomains[k])
  }

  /** The request's `email` entry, or null when the key is missing. */
  function EmailOf(data: map<string, JsonValue>): JsonValue {
    if "email" in data then data["email"] else JNull
  }

  const Failed: StudentReply := StudentReply("error", "Failed to verify student status", None, 500)

  /**
   * `verify_student`. `body` is the JSON object (`None` when there is none, and
   * `data.get` raises); `get(k)` of a missing key is `JNull`. A non-string,
   * truthy e-mail makes `lower()` raise.
   */
  function VerifyStudent(body: Option<map<string, JsonValue>>): (reply: StudentReply)
    ensures body.None? ==> reply == Failed
    ensures reply.code == 200 <==> body.Some? && EmailOf(body.value).JString? && EmailOf(body.value).s != ""
                                   && IsStudentEmail(EmailOf(body.value).s)
    ensures reply.code == 200 ==> reply.message == "Verification email sent" && reply.redirect == Some("/student-signup")
    ensures body.Some? && EmailOf(body.value).JString? && EmailOf(body.value).s != ""
            && !IsStudentEmail(EmailOf(body.value).s) ==>
              reply == StudentReply("error", "Please use a valid student email address", None, 400)
  {
    match body
    case None => Failed
    case Some(data) =>
      match EmailOf(data)
      case JNull => StudentReply("error", "Email is required", None, 400)
      case JOther(truthy) =>
        if !truthy then StudentReply("error", "Email is required", None, 400) else Failed
      case JString(s) =>
        if s == "" then StudentReply("error", "Email is required", None, 400)
        else if !IsStudentEmail(s) then StudentReply("error", "Please use a valid student email address", None, 400)
        else StudentReply("success", "Verification email sent", Some("/student-signup"), 200)
  }

  /** A missing, null or empty e-mail is refused with 400 before any domain test. */
  lemma MissingEmailRefused(data: map<string, JsonValue>)
    requires "email" !in data || data["email"] == JNull || data["email"] == JString("") || data["email"] == JOther(false)
    ensures VerifyStudent(Some(data)) == StudentReply("error", "Email is required", None, 400)
  {
  }

  /** The domain test ignores letter case. */
  lemma StudentEmailIgnoresCase(email: string)
    ensures IsStudentEmail(Lower(email)) == IsStudentEmail(email)
  {
    LowerIdempotent(email);
  }

  /** There is no dot boundary: an address whose host merely ends in `edu` passes. */
  lemma NoDotBoundary()
    ensures IsStudentEmail("a@xedu")
    ensures VerifyStudent(Some(map["email" := JString("a@xedu")])).code == 200
  {
    assert Lower("a@xedu") == "a@xedu";
    assert EndsWith(Lower("a@xedu"), StudentDomains[0]);
  }
}
