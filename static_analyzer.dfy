/**
 * static_analyzer.py: the one-pass leak scan, the `StaticAnalyzer` tree visitor
 * that records defined and used names, its unused-variable check, and
 * `analyze_code`, which runs them all and either returns every section or
 * only an error.
 */
module StaticAnalysis {
  import opened Wrappers
  import opened Text
  import opened LineScan
  import AiAnalyzer

  // ------------------------------------------------------- detect_memory_leaks

  /** `{"line", "severity", "issue", "fix"}`. */
  datatype LeakWarning = LeakWarning(line: nat, severity: Severity, issue: string, fix: string)

  function UnclosedWarning(line: nat): LeakWarning {
    LeakWarning(line, High, "Unclosed file handle detected", "Use 'with open(...) as f:' instead")
  }

  /** One `high` warning per unguarded-open line, in line order, and nothing else. */
  predicate ReportsUnclosedLines(code: string, warnings: seq<LeakWarning>) {
    var flagged := FlaggedLines(Lines(code));
    |warnings| == |flagged| && forall k :: 0 <= k < |warnings| ==> warnings[k] == UnclosedWarning(flagged[k])
  }

  lemma ReportsUnclosedStep(lines: seq<string>, i: nat, warnings: seq<LeakWarning>)
    requires i < |lines|
    requires |warnings| == |FlaggedLines(lines[..i])|
    requires forall k :: 0 <= k < |warnings| ==> warnings[k] == UnclosedWarning(FlaggedLines(lines[..i])[k])
    ensures var w := warnings + if IsUnguardedOpen(lines[i]) then [UnclosedWarning(i + 1)] else [];
      |w| == |FlaggedLines(lines[..i + 1])| &&
      forall k :: 0 <= k < |w| ==> w[k] == UnclosedWarning(FlaggedLines(lines[..i + 1])[k])
  {
    FlaggedLinesExtend(lines, i);
  }

  /**
   * `detect_memory_leaks`: the warnings are exactly the unguarded-open lines, ascending;
   * a text without `open(` gets none.
   */
  method DetectMemoryLeaks(code: string) returns (warnings: seq<LeakWarning>)
    ensures ReportsUnclosedLines(code, warnings)
    ensures !Contains(code, "open(") ==> warnings == []
  {
    warnings := [];
    var lines := Lines(code);
    var i := 0;
    while i < |lines|
      invariant 0 <= i <= |lines|
      invariant |warnings| == |FlaggedLines(lines[..i])|
      invariant forall k :: 0 <= k < |warnings| ==> warnings[k] == UnclosedWarning(FlaggedLines(lines[..i])[k])
    {
      ReportsUnclosedStep(lines, i, warnings);
      if IsUnguardedOpen(lines[i]) {
        warnings := warnings + [UnclosedWarning(i + 1)];
      }
      i := i + 1;
    }
    assert lines[..i] == lines;
    NoOpenNoFlaggedLines(code);
  }

  // ------------------------------------------------------------ syntax tree

  datatype Ctx = Load | Store | Del

  /**
   * The part of a Python syntax tree the visitor looks at: `Name` nodes, `FunctionDef`
   * nodes, and every other node with its children in the order `generic_visit` visits them.
   */
  datatype Node =
    | Name(id: string, ctx: Ctx, lineno: int)
    | FunctionDef(name: string, children: seq<Node>)
    | Other(children: seq<Node>)


  /** What the visitor meets, in order. */
  datatype Event = NameSeen(id: string, ctx: Ctx, lineno: int) | FunctionSeen(name: string)

  /** The pre-order walk of `NodeVisitor.visit`. */
  function Events(n: Node): seq<Event>
    decreases n, 1
  {
    match n
    case Name(id, ctx, lineno) => [NameSeen(id, ctx, lineno)]
    case FunctionDef(name, children) => [FunctionSeen(name)] + EventsOf(children)
    case Other(children) => EventsOf(children)
  }

  function EventsOf(ns: seq<Node>): seq<Event>
    decreases ns, 0
  {
    if ns == [] then [] else EventsOf(ns[..|ns| - 1]) + Events(ns[|ns| - 1])
  }

  lemma EventsOfExtend(ns: seq<Node>, i: nat)
    requires i < |ns|
    ensures EventsOf(ns[..i + 1]) == EventsOf(ns[..i]) + Events(ns[i])
  {
    assert ns[..i + 1][..i] == ns[..i];
  }

  // ----------------------------------------------------------------- issues

  /** `{'type': 'variable_definition', 'line', 'name'}` or `{'type': 'unused_variable', 'line', 'suggestion'}`. */
  datatype Issue = VariableDefinition(line: int, name: string) | UnusedVariable(line: int, suggestion: string)

  function UnusedMessage(v: string): string {
    "Variable \"" + v + "\" is defined but never used"
  }

  /** Different names get different messages, so one finding names one variable. */
  lemma UnusedMessageDistinct(a: string, b: string)
    requires a != b
    ensures UnusedMessage(a) != UnusedMessage(b)
  {
    if |a| != |b| {
      assert |UnusedMessage(a)| != |UnusedMessage(b)|;
    } else {
      var k :| 0 <= k < |a| && a[k] != b[k];
      assert UnusedMessage(a)[10 + k] == a[k];
      assert UnusedMessage(b)[10 + k] == b[k];
    }
  }

  /** The record a single event leaves: one `variable_definition` for a Store, none otherwise. */
  function DefinitionOf(e: Event): seq<Issue> {
    match e
    case NameSeen(id, Store, lineno) => [VariableDefinition(lineno, id)]
    case _ => []
  }

  /** The `variable_definition` records the walk leaves behind, in walk order. */
  function Definitions(evs: seq<Event>): seq<Issue> {
    if evs == [] then [] else DefinitionOf(evs[0]) + Definitions(evs[1..])
  }

  /** The name an event adds to the set for context `ctx`, if any. */
  function NameOf(e: Event, ctx: Ctx): set<string> {
    if e.NameSeen? && e.ctx == ctx then {e.id} else {}
  }

  function FunctionOf(e: Event): set<string> {
    if e.FunctionSeen? then {e.name} else {}
  }

  /** The names met in context `ctx` (Store: `defined_vars`, Load: `used_vars`). */
  function NamesIn(evs: seq<Event>, ctx: Ctx): set<string> {
    if evs == [] then {} else NameOf(evs[0], ctx) + NamesIn(evs[1..], ctx)
  }

  /** The names of the function definitions met. */
  function FunctionNames(evs: seq<Event>): set<string> {
    if evs == [] then {} else FunctionOf(evs[0]) + FunctionNames(evs[1..])
  }

  predicate IsNameEvent(e: Event, v: string, ctx: Ctx) {
    e.NameSeen? && e.id == v && e.ctx == ctx
  }

  /** A name is in the set for `ctx` exactly when some `Name` node of the walk has that name in that context. */
  lemma {:induction false} NamesInMembers(evs: seq<Event>, ctx: Ctx, v: string)
    ensures v in NamesIn(evs, ctx) <==> exists i :: 0 <= i < |evs| && IsNameEvent(evs[i], v, ctx)
  {
    if evs != [] {
      var rest := evs[1..];
      NamesInMembers(rest, ctx, v);
      if exists i :: 0 <= i < |evs| && IsNameEvent(evs[i], v, ctx) {
        var i :| 0 <= i < |evs| && IsNameEvent(evs[i], v, ctx);
        if i > 0 {
          assert rest[i - 1] == evs[i];
        }
      }
      if exists i :: 0 <= i < |rest| && IsNameEvent(rest[i], v, ctx) {
        var i :| 0 <= i < |rest| && IsNameEvent(rest[i], v, ctx);
        assert evs[i + 1] == rest[i];
      }
    }
  }

  /** The visitor's fields, as one value. */
  datatype View = View(issues: seq<Issue>, definedVars: set<string>, usedVars: set<string>, functions: set<string>)

  /** What meeting one event does to the fields (`visit_Name` and the first line of `visit_FunctionDef`). */
  function Step(v: View, e: Event): View {
    match e
    case NameSeen(id, Store, lineno) =>
      v.(issues := v.issues + [VariableDefinition(lineno, id)], definedVars := v.definedVars + {id})
    case NameSeen(id, Load, _) => v.(usedVars := v.usedVars + {id})
    case NameSeen(_, Del, _) => v
    case FunctionSeen(name) => v.(functions := v.functions + {name})
  }

  /** The fields after the visitor has met `evs`, one event at a time. */
  function After(v: View, evs: seq<Event>): View
    decreases |evs|
  {
    if evs == [] then v else After(Step(v, evs[0]), evs[1..])
  }

  /** Meeting `a` and then `b` is meeting `a + b`. */
  lemma {:induction false} AfterAppend(v: View, a: seq<Event>, b: seq<Event>)
    ensures After(After(v, a), b) == After(v, a + b)
    decreases a
  {
    if a == [] {
      assert a + b == b;
    } else {
      assert (a + b)[0] == a[0];
      assert (a + b)[1..] == a[1..] + b;
      AfterAppend(Step(v, a[0]), a[1..], b);
    }
  }

  /** Each event adds its own record and names, and nothing else. */
  lemma StepSummary(v: View, e: Event)
    ensures Step(v, e) == View(v.issues + DefinitionOf(e), v.definedVars + NameOf(e, Store),
                               v.usedVars + NameOf(e, Load), v.functions + FunctionOf(e))
  {
    assert v.issues + [] == v.issues;
  }

  /**
   * The walk's total effect, however it is split into steps: the definition
   * records are appended in walk order and each set grows by exactly the names
   * met in its context.
   */
  lemma {:induction false} AfterSummary(v: View, evs: seq<Event>)
    ensures After(v, evs) == View(v.issues + Definitions(evs), v.definedVars + NamesIn(evs, Store),
                                  v.usedVars + NamesIn(evs, Load), v.functions + FunctionNames(evs))
    decreases |evs|
  {
    if evs == [] {
      assert v.issues + [] == v.issues;
    } else {
      var e, rest := evs[0], evs[1..];
      var w := Step(v, e);
      StepSummary(v, e);
      AfterSummary(w, rest);
      assert After(v, evs) == After(w, rest);
      assert w.issues + Definitions(rest) == v.issues + Definitions(evs) by {
        assert Definitions(evs) == DefinitionOf(e) + Definitions(rest);
      }
      assert w.definedVars + NamesIn(rest, Store) == v.definedVars + NamesIn(evs, Store);
      assert w.usedVars + NamesIn(rest, Load) == v.usedVars + NamesIn(evs, Load);
      assert w.functions + FunctionNames(rest) == v.functions + FunctionNames(evs);
    }
  }

  /** `next(...)` over the records: the line of the first `variable_definition` of `v`, or 0. */
  function FirstDefinitionLine(issues: seq<Issue>, v: string): int {
    if issues == [] then 0
    else if issues[0].VariableDefinition? && issues[0].name == v then issues[0].line
    else FirstDefinitionLine(issues[1..], v)
  }

  /** The line of the first Store occurrence of `v` in walk order, or 0. */
  function FirstStoreLine(evs: seq<Event>, v: string): int {
    if evs == [] then 0
    else if IsNameEvent(evs[0], v, Store) then evs[0].lineno
    else FirstStoreLine(evs[1..], v)
  }

  /** The records' first line for a name is the name's first Store line in the walk. */
  lemma {:induction false} FirstDefinitionIsFirstStore(evs: seq<Event>, v: string)
    ensures FirstDefinitionLine(Definitions(evs), v) == FirstStoreLine(evs, v)
  {
    if evs != [] {
      var rest := Definitions(evs[1..]);
      FirstDefinitionIsFirstStore(evs[1..], v);
      match evs[0]
      case NameSeen(id, Store, lineno) =>
        assert Definitions(evs) == [VariableDefinition(lineno, id)] + rest;
        assert Definitions(evs)[1..] == rest;
      case _ =>
        assert Definitions(evs) == rest;
    }
  }

  predicate AllUnused(issues: seq<Issue>) {
    forall k :: 0 <= k < |issues| ==> issues[k].UnusedVariable?
  }

  /**
   * Once the definition records are gone, the search finds nothing: this is why a
   * second `check_unused_variables` reports every name at line 0.
   */
  lemma {:induction false} NoDefinitionsLineZero(issues: seq<Issue>, v: string)
    requires AllUnused(issues)
    ensures FirstDefinitionLine(issues, v) == 0
  {
    if issues != [] {
      NoDefinitionsLineZero(issues[1..], v);
    }
  }

  /** Records other than definitions never answer the search. */
  lemma {:induction false} FirstDefinitionSkipsUnused(a: seq<Issue>, b: seq<Issue>, v: string)
    requires AllUnused(b)
    ensures FirstDefinitionLine(a + b, v) == FirstDefinitionLine(a, v)
  {
    if a == [] {
      assert a + b == b;
      NoDefinitionsLineZero(b, v);
    } else {
      assert (a + b)[0] == a[0];
      assert (a + b)[1..] == a[1..] + b;
      FirstDefinitionSkipsUnused(a[1..], b, v);
    }
  }

  /** The issue list with its unused-variable records removed and its definition records kept, in order. */
  function DropUnused(issues: seq<Issue>): (r: seq<Issue>)
    ensures forall x :: x in r <==> x in issues && x.VariableDefinition?
  {
    if issues == [] then []
    else (if issues[0].UnusedVariable? then [] else [issues[0]]) + DropUnused(issues[1..])
  }

  /** The issue list with its definition records removed and its unused-variable records kept, in order. */
  function DropDefinitions(issues: seq<Issue>): (r: seq<Issue>)
    ensures forall x :: x in r <==> x in issues && x.UnusedVariable?
  {
    if issues == [] then []
    else (if issues[0].VariableDefinition? then [] else [issues[0]]) + DropDefinitions(issues[1..])
  }

  /** Dropping the old findings does not change which definition record comes first. */
  lemma {:induction false} FirstDefinitionDropUnused(issues: seq<Issue>, v: string)
    ensures FirstDefinitionLine(DropUnused(issues), v) == FirstDefinitionLine(issues, v)
  {
    if issues != [] {
      var rest := DropUnused(issues[1..]);
      FirstDefinitionDropUnused(issues[1..], v);
      if issues[0].UnusedVariable? {
        assert DropUnused(issues) == rest;
      } else {
        assert DropUnused(issues) == [issues[0]] + rest;
        assert DropUnused(issues)[1..] == rest;
      }
    }
  }

  /** The final filter leaves exactly the findings appended after the definition records. */
  lemma {:induction false} DropDefinitionsSplit(a: seq<Issue>, b: seq<Issue>)
    requires forall x :: x in a ==> x.VariableDefinition?
    requires AllUnused(b)
    ensures DropDefinitions(a + b) == b
  {
    if a == [] {
      assert a + b == b;
      DropDefinitionsKeepsUnused(b);
    } else {
      assert a[0] in a;
      assert (a + b)[0] == a[0];
      assert (a + b)[1..] == a[1..] + b;
      DropDefinitionsSplit(a[1..], b);
    }
  }

  lemma {:induction false} DropDefinitionsKeepsUnused(b: seq<Issue>)
    requires AllUnused(b)
    ensures DropDefinitions(b) == b
  {
    if b != [] {
      DropDefinitionsKeepsUnused(b[1..]);
      assert b == [b[0]] + b[1..];
    }
  }

  /** The finding for unused name `v`, its line looked up in `records`. */
  function UnusedFinding(records: seq<Issue>, v: string): Issue {
    UnusedVariable(FirstDefinitionLine(records, v), UnusedMessage(v))
  }

  /** The findings for the names of `order`, in that order. */
  function FindingsFor(records: seq<Issue>, order: seq<string>): seq<Issue> {
    seq(|order|, k requires 0 <= k < |order| => UnusedFinding(records, order[k]))
  }

  predicate Distinct(order: seq<string>) {
    forall i, j :: 0 <= i < j < |order| ==> order[i] != order[j]
  }

  /** `order` lists the names of `names`, each once: one possible iteration order of the set. */
  ghost predicate IsEnumeration(order: seq<string>, names: set<string>) {
    Distinct(order) && forall v :: v in order <==> v in names
  }

  /**
   * `issues` holds one finding per name of `names`, in some iteration order of
   * the set, each with the line that `records` gives for that name.
   */
  ghost predicate UnusedReport(issues: seq<Issue>, names: set<string>, records: seq<Issue>) {
    exists order :: IsEnumeration(order, names) && issues == FindingsFor(records, order)
  }

  lemma {:induction false} EnumerationSize(order: seq<string>, names: set<string>)
    requires IsEnumeration(order, names)
    ensures |order| == |names|
    decreases order
  {
    if order == [] {
      assert names == {} by {
        assert forall v :: v !in order;
      }
    } else {
      var last := order[|order| - 1];
      var front := order[..|order| - 1];
      assert order == front + [last];
      forall v ensures v in front <==> v in names - {last} {
        if v in front {
          var i :| 0 <= i < |front| && front[i] == v;
          assert order[i] == v;
        }
      }
      EnumerationSize(front, names - {last});
    }
  }

  /**
   * What a report says about the names: there are as many findings as names, no
   * two alike, and a name's finding is present exactly when the name is in the set.
   */
  lemma UnusedReportFacts(issues: seq<Issue>, names: set<string>, records: seq<Issue>)
    requires UnusedReport(issues, names, records)
    ensures |issues| == |names|
    ensures AllUnused(issues)
    ensures forall i, j :: 0 <= i < j < |issues| ==> issues[i] != issues[j]
    ensures forall v :: v in names <==> UnusedFinding(records, v) in issues
  {
    var order :| IsEnumeration(order, names) && issues == FindingsFor(records, order);
    EnumerationSize(order, names);
    forall i, j | 0 <= i < j < |issues|
      ensures issues[i] != issues[j]
    {
      UnusedMessageDistinct(order[i], order[j]);
    }
    forall v
      ensures v in names <==> UnusedFinding(records, v) in issues
    {
      if v in names {
        var k :| 0 <= k < |order| && order[k] == v;
        assert issues[k] == UnusedFinding(records, v);
      }
      if UnusedFinding(records, v) in issues {
        var k :| 0 <= k < |issues| && issues[k] == UnusedFinding(records, v);
        if order[k] != v {
          UnusedMessageDistinct(order[k], v);
        }
        assert order[k] == v;
        assert order[k] in order;
      }
    }
  }

  /** A report holds no definition records, so the next search for any name gives line 0. */
  lemma SecondCheckFindsLineZero(issues: seq<Issue>, names: set<string>, records: seq<Issue>, v: string)
    requires UnusedReport(issues, names, records)
    ensures UnusedFinding(issues, v).line == 0
  {
    UnusedReportFacts(issues, names, records);
    NoDefinitionsLineZero(issues, v);
  }

  /** Part way through the loop: `order` lists the names handled so far, `pending` those still to do. */
  ghost predicate Progress(order: seq<string>, pending: set<string>, names: set<string>) {
    && Distinct(order)
    && pending <= names
    && (forall v :: v in order ==> v in names && v !in pending)
    && (forall v :: v in names ==> v in order || v in pending)
  }

  lemma ProgressStep(order: seq<string>, pending: set<string>, names: set<string>, v: string)
    requires Progress(order, pending, names) && v in pending
    ensures Progress(order + [v], pending - {v}, names)
  {
  }

  lemma ProgressDone(order: seq<string>, names: set<string>)
    requires Progress(order, {}, names)
    ensures IsEnumeration(order, names)
  {
  }

  /** One iteration of the loop in `check_unused_variables`. */
  lemma FindingStep(records: seq<Issue>, order: seq<string>, v: string)
    ensures FirstDefinitionLine(DropUnused(records) + FindingsFor(records, order), v) == FirstDefinitionLine(records, v)
    ensures FindingsFor(records, order + [v]) == FindingsFor(records, order) + [UnusedFinding(records, v)]
  {
    FirstDefinitionSkipsUnused(DropUnused(records), FindingsFor(records, order), v);
    FirstDefinitionDropUnused(records, v);
  }

  // ------------------------------------------------------ the visitor class

  /** `StaticAnalyzer(ast.NodeVisitor)`. */
  class StaticAnalyzer {
    var issues: seq<Issue>
    var definedVars: set<string>
    var usedVars: set<string>
    var functions: set<string>
    const aiAnalyzer: AiAnalyzer.Classifier

    function ViewOf(): View
      reads this
    {
      View(issues, definedVars, usedVars, functions)
    }

    /** `__init__`, given the classifier it loaded. */
    constructor (ai: AiAnalyzer.Classifier)
      ensures ViewOf() == View([], {}, {}, {})
      ensures aiAnalyzer == ai
    {
      issues := [];
      definedVars := {};
      usedVars := {};
      functions := {};
      aiAnalyzer := ai;
    }

    /**
     * `visit_Name`: a Store adds the name to `defined_vars` and appends one
     * definition record; a Load adds it to `used_vars`; a Del changes nothing.
     */
    method VisitName(id: string, ctx: Ctx, lineno: int)
      modifies this
      ensures functions == old(functions)
      ensures ctx == Store ==> definedVars == old(definedVars) + {id} && usedVars == old(usedVars)
                               && issues == old(issues) + [VariableDefinition(lineno, id)]
      ensures ctx == Load ==> usedVars == old(usedVars) + {id} && definedVars == old(definedVars)
                              && issues == old(issues)
      ensures ctx == Del ==> ViewOf() == old(ViewOf())
    {
      if ctx == Store {
        definedVars := definedVars + {id};
        issues := issues + [VariableDefinition(lineno, id)];
      } else if ctx == Load {
        usedVars := usedVars + {id};
      }
    }

    /**
     * `visit_FunctionDef`: the function's name is added to `functions`, and then
     * the nodes inside the definition are walked; the name itself touches neither
     * the variable sets nor the records.
     */
    method VisitFunctionDef(name: string, children: seq<Node>)
      modifies this
      ensures ViewOf() == After(old(ViewOf()).(functions := old(functions) + {name}), EventsOf(children))
      decreases children, 1
    {
      functions := functions + {name};
      GenericVisit(children);
    }

    /** `generic_visit`: visit the children in order. */
    method GenericVisit(children: seq<Node>)
      modifies this
      ensures ViewOf() == After(old(ViewOf()), EventsOf(children))
      decreases children, 0
    {
      var i := 0;
      while i < |children|
        invariant 0 <= i <= |children|
        invariant ViewOf() == After(old(ViewOf()), EventsOf(children[..i]))
      {
        Visit(children[i]);
        AfterAppend(old(ViewOf()), EventsOf(children[..i]), Events(children[i]));
        EventsOfExtend(children, i);
        i := i + 1;
      }
      assert children[..i] == children;
    }

    /** `visit`: dispatch on the node kind; the fields end up as the pre-order walk dictates. */
    method Visit(n: Node)
      modifies this
      ensures ViewOf() == After(old(ViewOf()), Events(n))
      decreases n, 2
    {
      match n
      case Name(id, ctx, lineno) =>
        VisitName(id, ctx, lineno);
        assert After(old(ViewOf()), [NameSeen(id, ctx, lineno)]) == Step(old(ViewOf()), NameSeen(id, ctx, lineno));
      case FunctionDef(name, children) =>
        VisitFunctionDef(name, children);
        AfterAppend(old(ViewOf()), [FunctionSeen(name)], EventsOf(children));
      case Other(children) =>
        GenericVisit(children);
    }

    /**
     * `check_unused_variables`: afterwards `issues` holds exactly one
     * `unused_variable` finding per name in `defined_vars - used_vars`, in the
     * set's iteration order, each carrying the line of that name's first
     * definition record before the call; the definition records are gone.
     */
    method CheckUnusedVariables()
      modifies this
      ensures definedVars == old(definedVars) && usedVars == old(usedVars) && functions == old(functions)
      ensures UnusedReport(issues, definedVars - usedVars, old(issues))
    {
      ghost var records := issues;
      issues := DropUnused(issues);
      ghost var kept := issues;
      var pending := definedVars - usedVars;
      ghost var order: seq<string> := [];
      while pending != {}
        invariant definedVars == old(definedVars) && usedVars == old(usedVars) && functions == old(functions)
        invariant issues == kept + FindingsFor(records, order)
        invariant Progress(order, pending, definedVars - usedVars)
        decreases pending
      {
        var v :| v in pending;
        FindingStep(records, order, v);
        ProgressStep(order, pending, definedVars - usedVars, v);
        var line := FirstDefinitionLine(issues, v);
        issues := issues + [UnusedVariable(line, UnusedMessage(v))];
        order := order + [v];
        pending := pending - {v};
      }
      DropDefinitionsSplit(kept, FindingsFor(records, order));
      issues := DropDefinitions(issues);
      ProgressDone(order, definedVars - usedVars);
    }
  }

  // ----------------------------------------------------------- analyze_code

  /** A value of the result dictionary. */
  datatype Value =
    | Message(text: string)
    | CodeIssues(issues: seq<Issue>)
    | MemoryLeaks(leaks: seq<LeakWarning>)
    | AiFindings(findings: seq<AiAnalyzer.AiIssue>)

  type Envelope = map<string, Value>

  /** The three sections of a successful analysis. */
  const Sections: set<string> := {"code_analysis", "memory_leaks", "ai_analysis"}

  /** The error envelope: a single `error` entry whose text prefixes the exception's message with "Analysis failed: ". */
  function ErrorEnvelope(msg: string): Envelope {
    map["error" := Message("Analysis failed: " + msg)]
  }

  /** The sections a successful analysis of `code`, whose tree is `tree`, holds. */
  ghost predicate SuccessfulAnalysis(results: Envelope, code: string, tree: Node, classifier: AiAnalyzer.Classifier) {
    var evs := Events(tree);
    && results.Keys == Sections
    && results["memory_leaks"].MemoryLeaks?
    && ReportsUnclosedLines(code, results["memory_leaks"].leaks)
    && results["code_analysis"].CodeIssues?
    && UnusedReport(results["code_analysis"].issues, NamesIn(evs, Store) - NamesIn(evs, Load), Definitions(evs))
    && results["ai_analysis"].AiFindings?
    && AiAnalyzer.AnalysisOf(classifier, code, results["ai_analysis"].findings)
  }

  /** The envelope of an analysis that raised nothing. */
  function Completed(issues: seq<Issue>, leaks: seq<LeakWarning>, findings: seq<AiAnalyzer.AiIssue>): Envelope {
    map["code_analysis" := CodeIssues(issues), "memory_leaks" := MemoryLeaks(leaks), "ai_analysis" := AiFindings(findings)]
  }

  /** The completed envelope of the three sections' results is a successful analysis. */
  lemma CompletedIsSuccessful(code: string, tree: Node, classifier: AiAnalyzer.Classifier,
                              issues: seq<Issue>, leaks: seq<LeakWarning>, findings: seq<AiAnalyzer.AiIssue>)
    requires ReportsUnclosedLines(code, leaks)
    requires UnusedReport(issues, NamesIn(Events(tree), Store) - NamesIn(Events(tree), Load), Definitions(Events(tree)))
    requires AiAnalyzer.AnalysisOf(classifier, code, findings)
    ensures SuccessfulAnalysis(Completed(issues, leaks, findings), code, tree, classifier)
  {
  }

  /**
   * `analyze_code`. `parse` stands for `ast.parse` and `loadAi` for the
   * classifier that `StaticAnalyzer()` loads; an `Err` is the exception raised.
   * Either exception gives the error envelope alone, never the initial empty
   * sections; otherwise the three sections are present and hold the leak
   * scan's warnings, one finding per name stored but never loaded anywhere in
   * the tree, and the classifier's findings. The source fills its result
   * dictionary section by section; since an exception discards it, only the
   * completed dictionary can be observed, and the model builds it once.
   */
  method AnalyzeCode(code: string, parse: string -> Result<Node>, loadAi: Result<AiAnalyzer.Classifier>)
    returns (results: Envelope)
    ensures parse(code).Err? ==> results == ErrorEnvelope(parse(code).msg)
    ensures parse(code).Ok? && loadAi.Err? ==> results == ErrorEnvelope(loadAi.msg)
    ensures parse(code).Ok? && loadAi.Ok? ==> SuccessfulAnalysis(results, code, parse(code).value, loadAi.value)
  {
    var parsed := parse(code);
    if parsed.Err? {
      return ErrorEnvelope(parsed.msg);
    }
    if loadAi.Err? {
      return ErrorEnvelope(loadAi.msg);
    }
    var analyzer := new StaticAnalyzer(loadAi.value);

    var leaks := DetectMemoryLeaks(code);

    ghost var evs := Events(parsed.value);
    analyzer.Visit(parsed.value);
    AfterSummary(View([], {}, {}, {}), evs);
    assert analyzer.issues == Definitions(evs);
    assert analyzer.definedVars - analyzer.usedVars == NamesIn(evs, Store) - NamesIn(evs, Load);
    analyzer.CheckUnusedVariables();

    var ai := AiAnalyzer.Analyze(analyzer.aiAnalyzer, code);
    results := Completed(analyzer.issues, leaks, ai);
    CompletedIsSuccessful(code, parsed.value, loadAi.value, analyzer.issues, leaks, ai);
  }

  /** The lines of an analysis' findings are the names' first Store lines in the walk. */
  lemma FindingLinesAreFirstStores(evs: seq<Event>, v: string)
    ensures UnusedFinding(Definitions(evs), v) == UnusedVariable(FirstStoreLine(evs, v), UnusedMessage(v))
  {
    FirstDefinitionIsFirstStore(evs, v);
  }

  /**
   * A name is reported unused exactly when some `Name` node stores it and none
   * loads it, wherever in the tree (scopes are not told apart).
   */
  lemma UnusedIsNameBased(evs: seq<Event>, v: string)
    ensures v in NamesIn(evs, Store) - NamesIn(evs, Load) <==>
      (exists i :: 0 <= i < |evs| && IsNameEvent(evs[i], v, Store)) &&
      (forall i :: 0 <= i < |evs| ==> !IsNameEvent(evs[i], v, Load))
  {
    NamesInMembers(evs, Store, v);
    NamesInMembers(evs, Load, v);
  }
}
