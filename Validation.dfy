/**
 * The validation pipeline of sre_validation_system.py: the JSON cleanup and the three-attempt
 * loop of `LLMService.invoke_with_json_response`, the five analysis stages with their error
 * wrapping, `final_decision_node`, and `validate_code_with_llm` running the stages in their fixed
 * order.
 *
 * The language model is a function from the attempt number to what that call produced (a text
 * or a raised error); `json.loads` is a function `parse` from text to a value or a decode error;
 * Python's `str()` of a non-string value inside an f-string is a function `render`.
 */
module Validation {
  import opened Strings
  import opened Json

  // ---------------------------------------------------------------------------------------------
  // Cleaning the reply text

  /** Strip, drop a leading "```json" and a trailing "```", strip again. */
  function Unfence(text: string): string {
    var c := Strip(text);
    var c1 := if StartsWith(c, "```json") then c[7..] else c;
    var c2 := if EndsWith(c1, "```") then c1[..|c1| - 3] else c1;
    Strip(c2)
  }

  /** From the first '{' to the last '}', when there is a '}' after the first '{'. */
  function BraceSpan(c: string): string {
    var start := Find(c, '{');
    var end := RFind(c, '}') + 1;
    if start != -1 && end > start then c[start..end] else c
  }

  /** The text handed to `json.loads`. */
  function CleanJsonText(text: string): string {
    BraceSpan(Unfence(text))
  }

  /** In a text with a '}' after its first '{', the last '}' comes after the first '{'. */
  lemma BraceOrder(c: string)
    requires '{' in c && '}' in c[Find(c, '{')..]
    ensures 0 <= Find(c, '{') < RFind(c, '}') < |c|
  {
    var start := Find(c, '{');
    var tail := c[start..];
    var i :| 0 <= i < |tail| && tail[i] == '}';
    assert c[start + i] == '}';
    RFindLast(c, '}', start + i);
  }

  /** A braced text is cut exactly at its first '{' and its last '}'. */
  lemma BraceSpanBraced(c: string)
    requires '{' in c && '}' in c[Find(c, '{')..]
    ensures var r := BraceSpan(c); var start, last := Find(c, '{'), RFind(c, '}');
      0 <= start < last < |c| && r == c[start..last + 1]
      && r[0] == '{' && r[|r| - 1] == '}'
      && '{' !in c[..start] && '}' !in c[last + 1..]
  {
    BraceOrder(c);
    BraceSpanCut(c, Find(c, '{'), RFind(c, '}'));
  }

  lemma BraceSpanCut(c: string, start: int, last: int)
    requires start == Find(c, '{') && last == RFind(c, '}') && 0 <= start < last < |c|
    ensures var r := BraceSpan(c);
      r == c[start..last + 1] && |r| == last + 1 - start && r[0] == '{' && r[|r| - 1] == '}'
  {
    var r := c[start..last + 1];
    assert r[0] == c[start] && r[|r| - 1] == c[last];
  }

  /** Without a '}' after the first '{' the text is left as it is. */
  lemma BraceSpanUnbraced(c: string)
    requires '{' !in c || '}' !in c[Find(c, '{')..]
    ensures BraceSpan(c) == c
  {
  }

  /** A text that opens with '{' and closes with '}' has nothing to strip or unfence. */
  lemma UnfenceBraced(r: string)
    requires |r| > 0 && r[0] == '{' && r[|r| - 1] == '}'
    ensures Unfence(r) == r
  {
    StripStripped(r);
    assert !StartsWith(r, "```json") by {
      assert r[0] != "```json"[0];
    }
    assert !EndsWith(r, "```") by {
      if |r| >= 3 {
        assert r[|r| - 3..][2] == r[|r| - 1];
      }
    }
  }

  /** A text that opens with '{' and closes with '}' is its own brace span. */
  lemma BraceSpanWhole(r: string)
    requires |r| > 0 && r[0] == '{' && r[|r| - 1] == '}'
    ensures BraceSpan(r) == r
  {
    assert Find(r, '{') == 0;
    RFindLast(r, '}', |r| - 1);
    assert r[0..|r|] == r;
  }

  /** The cleanup leaves its own braced result unchanged. */
  lemma CleanFixpoint(text: string)
    requires var c := Unfence(text); '{' in c && '}' in c[Find(c, '{')..]
    ensures CleanJsonText(CleanJsonText(text)) == CleanJsonText(text)
  {
    var r := CleanJsonText(text);
    BraceSpanBraced(Unfence(text));
    UnfenceBraced(r);
    BraceSpanWhole(r);
  }

  // ---------------------------------------------------------------------------------------------
  // The three-attempt call

  /** What one call of the model produced: its reply text, or the error it raised. */
  datatype Attempt = Answered(text: string) | Raised(message: string)

  /** A value, or the message of the exception that stands in for it. */
  datatype Outcome = Ok(value: Json) | Fail(message: string)

  /** One attempt inside the `try`: a raised call, or the reply cleaned and parsed. */
  function AttemptOutcome(a: Attempt, parse: string -> Outcome): Outcome {
    match a
    case Answered(text) => parse(CleanJsonText(text))
    case Raised(m) => Fail(m)
  }

  /** `"429"`, `"quota"` or `"rate limit"` in the lower-cased message. */
  predicate IsRateLimit(message: string) {
    var m := Lower(message);
    Contains(m, "429") || Contains(m, "quota") || Contains(m, "rate limit")
  }

  /** `"json"` in the (again lower-cased) lower-cased message. */
  predicate IsJsonError(message: string) {
    Contains(Lower(Lower(message)), "json")
  }

  const MaxAttempts: nat := 3

  function Obj1(k: string, v: string): Json {
    JObj(map[k := JStr(v)])
  }

  function Obj2(k1: string, v1: string, k2: string, v2: string): Json {
    JObj(map[k1 := JStr(v1), k2 := JStr(v2)])
  }

  function RateLimitError(): Json {
    Obj2("error", "Rate limit exceeded", "raw_response", "Rate limit error")
  }

  function ParseError(message: string): Json {
    Obj2("error", "Failed to parse LLM response", "raw_response", message)
  }

  function CallFailed(message: string): Json {
    Obj1("error", "LLM call failed: " + message)
  }

  /** What the call returns when attempts `attempt..` remain, and how many more calls it makes. */
  function InvokeFrom(call: nat -> Attempt, parse: string -> Outcome, attempt: nat): (r: (Json, nat))
    requires attempt < MaxAttempts
    decreases MaxAttempts - attempt
  {
    match AttemptOutcome(call(attempt), parse)
    case Ok(v) => (v, 1)
    case Fail(m) =>
      if IsRateLimit(m) then
        if attempt < MaxAttempts - 1 then var n := InvokeFrom(call, parse, attempt + 1); (n.0, n.1 + 1)
        else (RateLimitError(), 1)
      else if IsJsonError(m) then (ParseError(m), 1)
      else if attempt < MaxAttempts - 1 then var n := InvokeFrom(call, parse, attempt + 1); (n.0, n.1 + 1)
      else (CallFailed(m), 1)
  }

  /** `invoke_with_json_response`: the value returned. */
  function Invoke(call: nat -> Attempt, parse: string -> Outcome): Json {
    InvokeFrom(call, parse, 0).0
  }

  /** One unfolding of `InvokeFrom`, by the outcome of the attempt. */
  lemma InvokeStep(call: nat -> Attempt, parse: string -> Outcome, attempt: nat, o: Outcome)
    requires attempt < MaxAttempts && o == AttemptOutcome(call(attempt), parse)
    ensures o.Ok? ==> InvokeFrom(call, parse, attempt) == (o.value, 1)
    ensures o.Fail? && attempt < MaxAttempts - 1 && (IsRateLimit(o.message) || !IsJsonError(o.message)) ==>
      var n := InvokeFrom(call, parse, attempt + 1); InvokeFrom(call, parse, attempt) == (n.0, n.1 + 1)
    ensures o.Fail? && attempt == MaxAttempts - 1 && IsRateLimit(o.message) ==>
      InvokeFrom(call, parse, attempt) == (RateLimitError(), 1)
    ensures o.Fail? && !IsRateLimit(o.message) && IsJsonError(o.message) ==>
      InvokeFrom(call, parse, attempt) == (ParseError(o.message), 1)
    ensures o.Fail? && attempt == MaxAttempts - 1 && !IsRateLimit(o.message) && !IsJsonError(o.message) ==>
      InvokeFrom(call, parse, attempt) == (CallFailed(o.message), 1)
  {
  }

  /** One pass of the loop body of `invoke_with_json_response`: either a value to return, or
      (`done` false) a move on to the next attempt. */
  method TryAttempt(call: nat -> Attempt, parse: string -> Outcome, attempt: nat) returns (done: bool, r: Json)
    requires attempt < MaxAttempts
    ensures done ==> InvokeFrom(call, parse, attempt) == (r, 1)
    ensures !done ==> attempt < MaxAttempts - 1
    ensures !done ==> InvokeFrom(call, parse, attempt).0 == InvokeFrom(call, parse, attempt + 1).0
    ensures !done ==> InvokeFrom(call, parse, attempt).1 == InvokeFrom(call, parse, attempt + 1).1 + 1
  {
    var outcome := AttemptOutcome(call(attempt), parse);
    InvokeStep(call, parse, attempt, outcome);
    if outcome.Ok? {
      return true, outcome.value;
    }
    var m := outcome.message;
    if IsRateLimit(m) {
      if attempt < MaxAttempts - 1 {
        return false, JNull;
      } else {
        return true, RateLimitError();
      }
    }
    if IsJsonError(m) {
      return true, ParseError(m);
    }
    if attempt < MaxAttempts - 1 {
      return false, JNull;
    } else {
      return true, CallFailed(m);
    }
  }

  /** The loop of `invoke_with_json_response`; `calls` counts the model calls it made. */
  method InvokeWithJsonResponse(call: nat -> Attempt, parse: string -> Outcome) returns (r: Json, calls: nat)
    ensures (r, calls) == InvokeFrom(call, parse, 0)
  {
    ghost var goal := InvokeFrom(call, parse, 0);
    var attempt: nat := 0;
    while attempt < MaxAttempts
      invariant attempt < MaxAttempts
      invariant goal.0 == InvokeFrom(call, parse, attempt).0
      invariant goal.1 == InvokeFrom(call, parse, attempt).1 + attempt
      decreases MaxAttempts - attempt
    {
      var done, value := TryAttempt(call, parse, attempt);
      if done {
        return value, attempt + 1;
      }
      attempt := attempt + 1;
    }
    assert false;
  }

  /** At most three calls are made, and at least one. */
  lemma {:induction false} InvokeCalls(call: nat -> Attempt, parse: string -> Outcome, attempt: nat)
    requires attempt < MaxAttempts
    ensures 1 <= InvokeFrom(call, parse, attempt).1 <= MaxAttempts - attempt
    decreases MaxAttempts - attempt
  {
    if attempt < MaxAttempts - 1 {
      InvokeCalls(call, parse, attempt + 1);
    }
  }

  /** Rate limiting on every attempt gives the rate-limit error object after three calls. */
  lemma RateLimitedThrice(call: nat -> Attempt, parse: string -> Outcome)
    requires forall a: nat :: a < MaxAttempts ==>
      AttemptOutcome(call(a), parse).Fail? && IsRateLimit(AttemptOutcome(call(a), parse).message)
    ensures InvokeFrom(call, parse, 0) == (RateLimitError(), 3)
  {
    assert AttemptOutcome(call(2), parse).Fail?;
    assert AttemptOutcome(call(1), parse).Fail?;
    assert AttemptOutcome(call(0), parse).Fail?;
  }

  /** A decode error that is not a rate-limit message ends the loop at once, without retrying. */
  lemma JsonErrorStops(call: nat -> Attempt, parse: string -> Outcome, attempt: nat)
    requires attempt < MaxAttempts
    requires var o := AttemptOutcome(call(attempt), parse);
      o.Fail? && !IsRateLimit(o.message) && IsJsonError(o.message)
    ensures InvokeFrom(call, parse, attempt) == (ParseError(AttemptOutcome(call(attempt), parse).message), 1)
  {
  }

  /** Rate limiting is tested before JSON errors: a message that is both is retried. */
  lemma RateLimitBeforeJson(call: nat -> Attempt, parse: string -> Outcome, attempt: nat)
    requires attempt < MaxAttempts - 1
    requires var o := AttemptOutcome(call(attempt), parse); o.Fail? && IsRateLimit(o.message)
    ensures var n := InvokeFrom(call, parse, attempt + 1);
      InvokeFrom(call, parse, attempt) == (n.0, n.1 + 1)
  {
  }

  /** Any other failure on the last attempt is reported with its message. */
  lemma LastFailureReported(call: nat -> Attempt, parse: string -> Outcome)
    requires var o := AttemptOutcome(call(MaxAttempts - 1), parse);
      o.Fail? && !IsRateLimit(o.message) && !IsJsonError(o.message)
    ensures InvokeFrom(call, parse, MaxAttempts - 1) == (CallFailed(AttemptOutcome(call(MaxAttempts - 1), parse).message), 1)
  {
  }

  // ---------------------------------------------------------------------------------------------
  // The analysis stages

  datatype Stage = ErrorAnalysis | CodeDiff | LogicCheck | SemanticCheck | SecurityCheck

  /** The single key each stage writes. */
  function StageKey(s: Stage): string {
    match s
    case ErrorAnalysis => "error_analysis"
    case CodeDiff => "code_diff_analysis"
    case LogicCheck => "logic_validation"
    case SemanticCheck => "semantic_validation"
    case SecurityCheck => "security_validation"
  }

  /** The stages in the order the workflow's edges run them. */
  const StageOrder: seq<Stage> := [ErrorAnalysis, CodeDiff, LogicCheck, SemanticCheck, SecurityCheck]

  lemma StageKeysDistinct(s: Stage, t: Stage)
    ensures StageKey(s) == StageKey(t) <==> s == t
  {
    var ks, kt := StageKey(s), StageKey(t);
    if s != t {
      assert |ks| != |kt| || ks[2] != kt[2];
    }
  }

  /** The first two items of a list, or two characters of a string, as `x[:2]`. */
  function Items(v: Json): seq<Json>
    requires Sliceable(v)
  {
    if v.JArr? then v.items else seq(|v.s|, i requires 0 <= i < |v.s| => JStr([v.s[i]]))
  }

  /** The statements that display a stage's result raise `AttributeError` or `TypeError` on it:
      `.get` on a value that is no dictionary, a slice of a truthy value that cannot be sliced. */
  predicate DisplayRaises(s: Stage, analysis: Json) {
    if !analysis.JObj? then true
    else
      var f := analysis.fields;
      match s
      case LogicCheck =>
        Truthy(Get(f, "logical_reasoning", JNull)) && !Sliceable(Get(f, "logical_reasoning", JStr("")))
      case SecurityCheck =>
        var vulns := Get(f, "vulnerabilities_found", JArr([]));
        var recs := Get(f, "security_recommendations", JArr([]));
        (Truthy(vulns) && !Sliceable(vulns))
        || (Truthy(recs) && (!Sliceable(recs)
              || exists i :: 0 <= i < |Items(recs)| && i < 2 && !Sliceable(Items(recs)[i])))
      case _ => false
  }

  /** What a node of the model needs: whether constructing `LLMService()` (outside the `try`)
      raised, the attempts of its call, and the message of an exception raised while displaying. */
  datatype NodeCall = NodeCall(setupError: Option<string>, call: nat -> Attempt, displayError: string)

  /** A node either returns its update or lets an exception out. */
  datatype NodeResult = Update(delta: map<string, Json>) | Escapes(message: string)

  /** One analysis stage: `{key: analysis}`, or `{key: {"error": str(e)}}` when displaying it raised. */
  function StageNode(s: Stage, n: NodeCall, parse: string -> Outcome): (r: NodeResult)
    ensures n.setupError.Some? <==> r.Escapes?
    ensures r.Update? ==> r.delta.Keys == {StageKey(s)} && r.delta[StageKey(s)].JObj?
  {
    if n.setupError.Some? then Escapes(n.setupError.value)
    else
      var analysis := Invoke(n.call, parse);
      if DisplayRaises(s, analysis) then Update(map[StageKey(s) := Obj1("error", n.displayError)])
      else Update(map[StageKey(s) := analysis])
  }

  /** The value a stage stores under its key, when its setup succeeds. */
  function StageValue(s: Stage, n: NodeCall, parse: string -> Outcome): Json
    requires n.setupError.None?
  {
    StageNode(s, n, parse).delta[StageKey(s)]
  }

  /** A stage that displays its result without error stores exactly what the call returned. */
  lemma StageKeepsAnalysis(s: Stage, n: NodeCall, parse: string -> Outcome)
    requires n.setupError.None? && !DisplayRaises(s, Invoke(n.call, parse))
    ensures StageNode(s, n, parse) == Update(map[StageKey(s) := Invoke(n.call, parse)])
  {
  }

  // ---------------------------------------------------------------------------------------------
  // The final decision

  /** An f-string field: a string as it is, anything else through `str()`. */
  function Show(v: Json, render: Json -> string): string {
    if v.JStr? then v.s else render(v)
  }

  /** `state.get(stage, {}).get(field, 'Unknown')` for the report's summary. */
  function SummaryField(state: map<string, Json>, stage: string, field: string): Json {
    var a := Get(state, stage, JObj(map[]));
    if a.JObj? then Get(a.fields, field, JStr("Unknown")) else JNull
  }

  /** A missing stage or a missing field reads as 'Unknown'. */
  lemma SummaryUnknown(state: map<string, Json>, stage: string, field: string)
    requires stage !in state || (state[stage].JObj? && field !in state[stage].fields)
    ensures SummaryField(state, stage, field) == JStr("Unknown")
  {
  }

  /** The summary raises when a stage's value is not a dictionary. */
  predicate SummaryRaises(state: map<string, Json>) {
    exists k :: k in state && k in {"error_analysis", "logic_validation", "security_validation", "semantic_validation"}
      && !state[k].JObj?
  }

  /** The detailed report text. */
  function Report(final: Json, reasoning: Json, d: map<string, Json>, state: map<string, Json>, render: Json -> string): string {
    "\nSRE VALIDATION REPORT\n====================\n\nDECISION: " + Show(final, render)
    + "\nREASONING: " + Show(reasoning, render)
    + "\n\nOVERALL ASSESSMENT: " + Show(Get(d, "overall_assessment", JStr("No assessment provided")), render)
    + "\nDEPLOYMENT RISK: " + Show(Get(d, "deployment_risk", JStr("Unknown")), render)
    + "\n\nANALYSIS SUMMARY:\n- Error Type: " + Show(SummaryField(state, "error_analysis", "error_type"), render)
    + "\n- Error Severity: " + Show(SummaryField(state, "error_analysis", "severity"), render)
    + "\n- Logic Correctness: " + Show(SummaryField(state, "logic_validation", "logic_correctness"), render)
    + "\n- Security Risk: " + Show(SummaryField(state, "security_validation", "risk_level"), render)
    + "\n- Code Quality: " + Show(SummaryField(state, "semantic_validation", "code_style_compliance"), render)
    + "\n"
  }

  /** The combined recommendations `recommended_actions + minor_improvements`, if `+` succeeds. */
  function Recommendations(d: map<string, Json>): Option<Json> {
    Add(Get(d, "recommended_actions", JArr([])), Get(d, "minor_improvements", JArr([])))
  }

  /** The statements of `final_decision_node` after the call raise on this reply. */
  predicate DecisionRaises(decision: Json, state: map<string, Json>) {
    if !decision.JObj? then true
    else
      var d := decision.fields;
      var recs := Recommendations(d);
      var issues := Get(d, "critical_issues", JArr([]));
      recs.None?
      || SummaryRaises(state)
      || !Sliceable(Get(d, "decision_reasoning", JStr("No reasoning provided")))
      || (Truthy(recs.value) && !Sliceable(recs.value))
      || (Truthy(issues) && !Sliceable(issues))
  }

  /** The four decision keys every outcome carries. */
  function DecisionUpdate(decision: Json, report: string, recs: Json, reasons: Json): map<string, Json> {
    map["decision" := decision, "detailed_report" := JStr(report), "recommendations" := recs,
        "failure_reasons" := reasons]
  }

  /** The REJECT update of a failed decision or workflow. */
  function SystemFailure(prefix: string, message: string): map<string, Json> {
    DecisionUpdate(JStr("REJECT"), prefix + message,
      JArr([JStr("Manual review required due to system failure")]), JArr([JStr("System error: " + message)]))
  }

  /** A system failure is a REJECT with one recommendation and one "System error" reason. */
  lemma SystemFailureShape(prefix: string, message: string)
    ensures var r := SystemFailure(prefix, message);
      r.Keys == {"decision", "detailed_report", "recommendations", "failure_reasons"}
      && "decision" in r && r["decision"] == JStr("REJECT")
      && "detailed_report" in r && r["detailed_report"] == JStr(prefix + message)
      && "recommendations" in r && r["recommendations"] == JArr([JStr("Manual review required due to system failure")])
      && "failure_reasons" in r && r["failure_reasons"] == JArr([JStr("System error: " + message)])
  {
  }

  /** `final_decision_node`. */
  function DecisionNode(state: map<string, Json>, n: NodeCall, parse: string -> Outcome, render: Json -> string): (r: NodeResult)
    ensures n.setupError.Some? <==> r.Escapes?
    ensures r.Update? ==> r.delta.Keys == {"decision", "detailed_report", "recommendations", "failure_reasons"}
  {
    if n.setupError.Some? then Escapes(n.setupError.value)
    else
      var decision := Invoke(n.call, parse);
      if DecisionRaises(decision, state) then Update(SystemFailure("Decision process failed: ", n.displayError))
      else
        var d := decision.fields;
        var final := Get(d, "decision", JStr("NEEDS_REVIEW"));
        var reasoning := Get(d, "decision_reasoning", JStr("No reasoning provided"));
        var issues := Get(d, "critical_issues", JArr([]));
        Update(DecisionUpdate(final, Report(final, reasoning, d, state, render), Recommendations(d).value, issues))
  }

  /** A reply that displays without error fills the four keys from its own fields. */
  lemma DecisionFields(state: map<string, Json>, n: NodeCall, parse: string -> Outcome, render: Json -> string)
    requires n.setupError.None?
    requires !DecisionRaises(Invoke(n.call, parse), state)
    ensures var d := Invoke(n.call, parse).fields;
      var r := DecisionNode(state, n, parse, render);
      r.Update? && Recommendations(d).Some?
      && r.delta["decision"] == Get(d, "decision", JStr("NEEDS_REVIEW"))
      && r.delta["recommendations"] == Recommendations(d).value
      && r.delta["failure_reasons"] == Get(d, "critical_issues", JArr([]))
  {
  }

  /** A reply without a "decision" key (the error object of a failed call among them) yields
      NEEDS_REVIEW, with the lists defaulting to empty. */
  lemma MissingDecisionNeedsReview(state: map<string, Json>, n: NodeCall, parse: string -> Outcome, render: Json -> string)
    requires n.setupError.None? && !SummaryRaises(state)
    requires var v := Invoke(n.call, parse);
      v.JObj? && "decision" !in v.fields && "recommended_actions" !in v.fields
      && "minor_improvements" !in v.fields && "critical_issues" !in v.fields && "decision_reasoning" !in v.fields
    ensures var r := DecisionNode(state, n, parse, render);
      r.Update? && r.delta["decision"] == JStr("NEEDS_REVIEW")
      && r.delta["recommendations"] == JArr([]) && r.delta["failure_reasons"] == JArr([])
  {
    var d := Invoke(n.call, parse).fields;
    assert Get(d, "recommended_actions", JArr([])) == JArr([]) && Get(d, "minor_improvements", JArr([])) == JArr([]);
    assert JArr([]).items + JArr([]).items == [];
    assert Recommendations(d) == Some(JArr([]));
    assert !DecisionRaises(Invoke(n.call, parse), state);
    DecisionFields(state, n, parse, render);
  }

  /** A reply that displays without error: recommendations are the two lists concatenated and the
      failure reasons are the critical issues. */
  lemma DecisionLists(state: map<string, Json>, n: NodeCall, parse: string -> Outcome, render: Json -> string)
    requires n.setupError.None?
    requires var v := Invoke(n.call, parse); !DecisionRaises(v, state)
    requires var d := Invoke(n.call, parse).fields;
      Get(d, "recommended_actions", JArr([])).JArr? && Get(d, "minor_improvements", JArr([])).JArr?
    ensures var d := Invoke(n.call, parse).fields;
      var r := DecisionNode(state, n, parse, render);
      r.Update?
      && r.delta["recommendations"]
         == JArr(Get(d, "recommended_actions", JArr([])).items + Get(d, "minor_improvements", JArr([])).items)
      && r.delta["failure_reasons"] == Get(d, "critical_issues", JArr([]))
      && r.delta["decision"] == Get(d, "decision", JStr("NEEDS_REVIEW"))
  {
    DecisionFields(state, n, parse, render);
  }

  // ---------------------------------------------------------------------------------------------
  // The workflow

  /** The nodes of the workflow. */
  datatype Node = Analyze(stage: Stage) | Decide

  /** A state reached, or the message of the exception that stopped the workflow. */
  datatype Progress = Reached(state: map<string, Json>) | Stopped(message: string)

  /** What each analysis node returns in this run. */
  function StageResults(calls: Node -> NodeCall, parse: string -> Outcome): Stage -> NodeResult {
    s => StageNode(s, calls(Analyze(s)), parse)
  }

  /** Every update of a stage writes that stage's key alone, and a dictionary under it. */
  predicate WellShaped(results: Stage -> NodeResult) {
    forall s: Stage :: results(s).Update? ==>
      results(s).delta.Keys == {StageKey(s)} && results(s).delta[StageKey(s)].JObj?
  }

  /** The stage nodes are well shaped, and a stage updates exactly when its setup succeeds. */
  lemma StageResultsWellShaped(calls: Node -> NodeCall, parse: string -> Outcome)
    ensures WellShaped(StageResults(calls, parse))
    ensures forall s: Stage :: StageResults(calls, parse)(s).Update? <==> calls(Analyze(s)).setupError.None?
  {
    forall s: Stage
      ensures var r := StageResults(calls, parse)(s);
        (r.Update? <==> calls(Analyze(s)).setupError.None?)
        && (r.Update? ==> r.delta.Keys == {StageKey(s)} && r.delta[StageKey(s)].JObj?)
    {
      assert StageResults(calls, parse)(s) == StageNode(s, calls(Analyze(s)), parse);
    }
  }

  /** The state after the analysis stages of `stages`, merging each update in turn, or the
      exception that escaped. */
  function RunStages(state: map<string, Json>, stages: seq<Stage>, results: Stage -> NodeResult): Progress
    decreases |stages|
  {
    if stages == [] then Reached(state)
    else
      match results(stages[0])
      case Escapes(m) => Stopped(m)
      case Update(delta) => RunStages(state + delta, stages[1..], results)
  }

  /** The keys written by the stages of `stages`. */
  ghost function StageKeys(stages: seq<Stage>): set<string> {
    set i | 0 <= i < |stages| :: StageKey(stages[i])
  }

  predicate DistinctStages(stages: seq<Stage>) {
    forall i, j :: 0 <= i < j < |stages| ==> stages[i] != stages[j]
  }

  lemma StageKeysCons(stages: seq<Stage>)
    requires stages != []
    ensures StageKeys(stages) == {StageKey(stages[0])} + StageKeys(stages[1..])
  {
    var rest := stages[1..];
    forall k | k in StageKeys(stages) ensures k in {StageKey(stages[0])} + StageKeys(rest) {
      var i :| 0 <= i < |stages| && k == StageKey(stages[i]);
      if i > 0 {
        assert k == StageKey(rest[i - 1]);
      }
    }
    forall k | k in StageKeys(rest) ensures k in StageKeys(stages) {
      var i :| 0 <= i < |rest| && k == StageKey(rest[i]);
      assert k == StageKey(stages[i + 1]);
    }
  }

  /** The first of distinct stages writes a key no later stage writes. */
  lemma DistinctHeadKey(stages: seq<Stage>)
    requires stages != [] && DistinctStages(stages)
    ensures StageKey(stages[0]) !in StageKeys(stages[1..])
  {
  }

  /** When every stage returns an update, all of them run: their keys are added, each holding a
      dictionary, and the other keys keep their values. */
  lemma {:induction false} RunStagesReached(state: map<string, Json>, stages: seq<Stage>, results: Stage -> NodeResult)
    requires WellShaped(results)
    requires forall i :: 0 <= i < |stages| ==> results(stages[i]).Update?
    ensures var o := RunStages(state, stages, results);
      o.Reached?
      && o.state.Keys == state.Keys + StageKeys(stages)
      && (forall k :: k in state && k !in StageKeys(stages) ==> o.state[k] == state[k])
      && (forall k :: k in StageKeys(stages) ==> o.state[k].JObj?)
    decreases |stages|
  {
    if stages != [] {
      var rest := stages[1..];
      var delta := results(stages[0]).delta;
      assert forall i :: 0 <= i < |rest| ==> rest[i] == stages[i + 1];
      RunStagesReached(state + delta, rest, results);
      StageKeysCons(stages);
    }
  }

  /** With distinct stages, each stage key holds exactly what that stage returned. */
  lemma {:induction false} RunStagesValues(state: map<string, Json>, stages: seq<Stage>, results: Stage -> NodeResult)
    requires WellShaped(results)
    requires forall i :: 0 <= i < |stages| ==> results(stages[i]).Update?
    requires DistinctStages(stages)
    ensures var o := RunStages(state, stages, results);
      o.Reached?
      && forall i :: 0 <= i < |stages| ==>
           StageKey(stages[i]) in o.state && o.state[StageKey(stages[i])] == results(stages[i]).delta[StageKey(stages[i])]
    decreases |stages|
  {
    RunStagesReached(state, stages, results);
    if stages != [] {
      var rest := stages[1..];
      var delta := results(stages[0]).delta;
      assert forall i :: 0 <= i < |rest| ==> rest[i] == stages[i + 1];
      RunStagesValues(state + delta, rest, results);
      RunStagesReached(state + delta, rest, results);
      DistinctHeadKey(stages);
    }
  }

  /** The first stage that lets an exception out stops the run with it. */
  lemma {:induction false} RunStagesStopped(state: map<string, Json>, stages: seq<Stage>, results: Stage -> NodeResult,
                                            j: nat)
    requires j < |stages| && results(stages[j]).Escapes?
    requires forall i :: 0 <= i < j ==> results(stages[i]).Update?
    ensures RunStages(state, stages, results) == Stopped(results(stages[j]).message)
    decreases j
  {
    if j > 0 {
      var rest := stages[1..];
      assert forall i :: 0 <= i < |rest| ==> rest[i] == stages[i + 1];
      RunStagesStopped(state + results(stages[0]).delta, rest, results, j - 1);
    }
  }

  /** The first stage that lets an exception out. */
  lemma {:induction false} FirstEscape(stages: seq<Stage>, results: Stage -> NodeResult) returns (j: nat)
    requires exists i :: 0 <= i < |stages| && results(stages[i]).Escapes?
    ensures j < |stages| && results(stages[j]).Escapes?
    ensures forall i :: 0 <= i < j ==> results(stages[i]).Update?
    decreases |stages|
  {
    if results(stages[0]).Escapes? {
      j := 0;
    } else {
      var rest := stages[1..];
      var i :| 0 <= i < |stages| && results(stages[i]).Escapes?;
      assert results(rest[i - 1]).Escapes?;
      var k := FirstEscape(rest, results);
      j := k + 1;
      assert forall i :: 0 < i < j ==> stages[i] == rest[i - 1];
    }
  }

  /** The five stage keys. */
  function StageKeySet(): set<string> {
    {"error_analysis", "code_diff_analysis", "logic_validation", "semantic_validation", "security_validation"}
  }

  /** The fixed order runs no stage twice. */
  lemma StageOrderDistinct()
    ensures DistinctStages(StageOrder)
  {
  }

  /** Where a stage sits in the fixed order. */
  function StageIndex(s: Stage): (i: nat)
    ensures i < |StageOrder| && StageOrder[i] == s
  {
    match s
    case ErrorAnalysis => 0
    case CodeDiff => 1
    case LogicCheck => 2
    case SemanticCheck => 3
    case SecurityCheck => 4
  }

  /** The fixed order writes the five stage keys. */
  lemma StageOrderKeys()
    ensures StageKeys(StageOrder) == StageKeySet()
  {
    var o := StageOrder;
    assert StageKey(o[0]) in StageKeys(o) && StageKey(o[1]) in StageKeys(o) && StageKey(o[2]) in StageKeys(o)
      && StageKey(o[3]) in StageKeys(o) && StageKey(o[4]) in StageKeys(o);
    forall k | k in StageKeys(o) ensures k in StageKeySet() {
      var i :| 0 <= i < |o| && k == StageKey(o[i]);
      assert i == 0 || i == 1 || i == 2 || i == 3 || i == 4;
    }
  }

  /** The stages in their fixed order, then the decision; an exception escaping any node gives the
      REJECT result. */
  function RunWorkflow(init: map<string, Json>, results: Stage -> NodeResult,
                       decide: map<string, Json> -> NodeResult): map<string, Json>
  {
    match RunStages(init, StageOrder, results)
    case Stopped(m) => SystemFailure("Workflow failed: ", m)
    case Reached(state) =>
      match decide(state)
      case Escapes(m) => SystemFailure("Workflow failed: ", m)
      case Update(delta) => state + delta
  }

  /** When every stage updates, the stages' state holds the inputs unchanged and each stage's own
      dictionary; the result adds the decision's update to it. */
  lemma WorkflowCompletes(init: map<string, Json>, results: Stage -> NodeResult, decide: map<string, Json> -> NodeResult)
    requires WellShaped(results) && forall s: Stage :: results(s).Update?
    requires forall s: Stage :: StageKey(s) !in init
    ensures var o := RunStages(init, StageOrder, results);
      o.Reached?
      && o.state.Keys == init.Keys + StageKeys(StageOrder)
      && (forall k :: k in init ==> o.state[k] == init[k])
      && (forall s: Stage :: StageKey(s) in o.state && o.state[StageKey(s)] == results(s).delta[StageKey(s)])
      && RunWorkflow(init, results, decide)
         == if decide(o.state).Update? then o.state + decide(o.state).delta
            else SystemFailure("Workflow failed: ", decide(o.state).message)
  {
    StageOrderDistinct();
    RunStagesReached(init, StageOrder, results);
    RunStagesValues(init, StageOrder, results);
    var o := RunStages(init, StageOrder, results);
    forall s: Stage ensures StageKey(s) in o.state && o.state[StageKey(s)] == results(s).delta[StageKey(s)] {
      var i := StageIndex(s);
    }
  }

  /** A state in which every stage key holds a dictionary lets the report summary through. */
  lemma SummaryAfterStages(state: map<string, Json>)
    requires forall s: Stage :: StageKey(s) in state && state[StageKey(s)].JObj?
    ensures !SummaryRaises(state)
  {
    assert StageKey(ErrorAnalysis) == "error_analysis" && StageKey(LogicCheck) == "logic_validation"
      && StageKey(SecurityCheck) == "security_validation" && StageKey(SemanticCheck) == "semantic_validation";
  }

  /** When some stage lets an exception out, the first such stage's exception gives the REJECT
      result, and the decision never runs. */
  lemma WorkflowStops(init: map<string, Json>, results: Stage -> NodeResult, decide: map<string, Json> -> NodeResult)
    requires exists s: Stage :: results(s).Escapes?
    ensures exists j :: 0 <= j < |StageOrder| && results(StageOrder[j]).Escapes?
                        && (forall i :: 0 <= i < j ==> results(StageOrder[i]).Update?)
                        && RunWorkflow(init, results, decide) == SystemFailure("Workflow failed: ", results(StageOrder[j]).message)
  {
    var s :| results(s).Escapes?;
    assert results(StageOrder[StageIndex(s)]).Escapes?;
    var j := FirstEscape(StageOrder, results);
    RunStagesStopped(init, StageOrder, results, j);
  }

  /** The initial state of the workflow. */
  function Initial(originalCode: string, fixedCode: string, originalError: string, changeContext: string): map<string, Json> {
    map["original_code" := JStr(originalCode), "fixed_code" := JStr(fixedCode),
        "original_error" := JStr(originalError), "change_context" := JStr(changeContext)]
  }

  /** `validate_code_with_llm` on the model's answers. */
  function ValidateCode(originalCode: string, fixedCode: string, originalError: string, changeContext: string,
                        calls: Node -> NodeCall, parse: string -> Outcome, render: Json -> string): map<string, Json>
  {
    RunWorkflow(Initial(originalCode, fixedCode, originalError, changeContext), StageResults(calls, parse),
      Decider(calls, parse, render))
  }

  /** What the decision node returns on a given state in this run. */
  function Decider(calls: Node -> NodeCall, parse: string -> Outcome, render: Json -> string): map<string, Json> -> NodeResult {
    st => DecisionNode(st, calls(Decide), parse, render)
  }

  /** An exception escaping a stage, or the decision on any state, gives the REJECT result. */
  lemma WorkflowFails(init: map<string, Json>, results: Stage -> NodeResult, decide: map<string, Json> -> NodeResult)
    requires WellShaped(results) && forall s: Stage :: StageKey(s) !in init
    requires (exists s: Stage :: results(s).Escapes?) || (forall st :: decide(st).Escapes?)
    ensures exists m :: RunWorkflow(init, results, decide) == SystemFailure("Workflow failed: ", m)
  {
    if exists s: Stage :: results(s).Escapes? {
      WorkflowStops(init, results, decide);
    } else {
      WorkflowCompletes(init, results, decide);
      var st := RunStages(init, StageOrder, results).state;
      assert RunWorkflow(init, results, decide) == SystemFailure("Workflow failed: ", decide(st).message);
    }
  }

  /** A decision node whose setup raises lets the exception out on every state. */
  lemma DeciderEscapes(calls: Node -> NodeCall, parse: string -> Outcome, render: Json -> string)
    requires calls(Decide).setupError.Some?
    ensures forall st :: Decider(calls, parse, render)(st).Escapes?
  {
    forall st ensures Decider(calls, parse, render)(st).Escapes? {
      assert Decider(calls, parse, render)(st) == DecisionNode(st, calls(Decide), parse, render);
    }
  }

  /** When any node lets an exception out, the result is a REJECT system failure. */
  lemma ValidateCodeFails(originalCode: string, fixedCode: string, originalError: string, changeContext: string,
                          calls: Node -> NodeCall, parse: string -> Outcome, render: Json -> string)
    requires exists nd: Node :: calls(nd).setupError.Some?
    ensures exists m :: ValidateCode(originalCode, fixedCode, originalError, changeContext, calls, parse, render)
                        == SystemFailure("Workflow failed: ", m)
  {
    var results := StageResults(calls, parse);
    var decide := Decider(calls, parse, render);
    StageResultsWellShaped(calls, parse);
    var nd :| calls(nd).setupError.Some?;
    if nd.Analyze? {
      assert results(nd.stage).Escapes?;
    } else {
      DeciderEscapes(calls, parse, render);
    }
    KeysApart(originalCode, fixedCode, originalError, changeContext);
    WorkflowFails(Initial(originalCode, fixedCode, originalError, changeContext), results, decide);
  }

  /** The four keys of the decision's update. */
  function DecisionKeys(): set<string> {
    {"decision", "detailed_report", "recommendations", "failure_reasons"}
  }

  /** No stage writes a decision key, and no input key is a stage or decision key. */
  lemma KeysApart(originalCode: string, fixedCode: string, originalError: string, changeContext: string)
    ensures forall s: Stage :: StageKey(s) !in DecisionKeys()
    ensures forall s: Stage :: StageKey(s) !in Initial(originalCode, fixedCode, originalError, changeContext)
    ensures Initial(originalCode, fixedCode, originalError, changeContext).Keys !! DecisionKeys()
  {
    forall s: Stage
      ensures StageKey(s) !in DecisionKeys()
      ensures StageKey(s) !in Initial(originalCode, fixedCode, originalError, changeContext)
    {
      var k := StageKey(s);
      assert k[0] == 'e' || k[0] == 'c' || k[0] == 'l' || k[0] == 's';
      assert k[0] == 'c' ==> k[1] == 'o';
      assert k[0] == 's' ==> k[1] == 'e';
    }
  }

  /** When every node returns its update, the result holds the inputs unchanged, every stage's own
      value and the decision's keys. */
  lemma WorkflowResult(init: map<string, Json>, results: Stage -> NodeResult, decide: map<string, Json> -> NodeResult,
                       dkeys: set<string>)
    requires WellShaped(results) && forall s: Stage :: results(s).Update?
    requires forall st :: decide(st).Update? && decide(st).delta.Keys == dkeys
    requires forall s: Stage :: StageKey(s) !in init && StageKey(s) !in dkeys
    requires init.Keys !! dkeys
    ensures var r := RunWorkflow(init, results, decide);
      r.Keys == init.Keys + StageKeys(StageOrder) + dkeys
      && (forall k :: k in init ==> k in r && r[k] == init[k])
      && (forall s: Stage :: StageKey(s) in r && r[StageKey(s)] == results(s).delta[StageKey(s)])
  {
    WorkflowCompletes(init, results, decide);
  }

  /** A decision node whose setup succeeds returns the four decision keys on every state. */
  lemma DeciderUpdates(calls: Node -> NodeCall, parse: string -> Outcome, render: Json -> string)
    requires calls(Decide).setupError.None?
    ensures forall st :: Decider(calls, parse, render)(st).Update?
                         && Decider(calls, parse, render)(st).delta.Keys == DecisionKeys()
  {
    forall st ensures Decider(calls, parse, render)(st).Update? && Decider(calls, parse, render)(st).delta.Keys == DecisionKeys() {
      assert Decider(calls, parse, render)(st) == DecisionNode(st, calls(Decide), parse, render);
    }
  }

  /** When no node lets an exception out, the result holds the four inputs, the five stage values
      as their nodes returned them, and the four decision keys. */
  lemma ValidateCodeCompletes(originalCode: string, fixedCode: string, originalError: string, changeContext: string,
                              calls: Node -> NodeCall, parse: string -> Outcome, render: Json -> string)
    requires forall nd: Node :: calls(nd).setupError.None?
    ensures var r := ValidateCode(originalCode, fixedCode, originalError, changeContext, calls, parse, render);
      var init := Initial(originalCode, fixedCode, originalError, changeContext);
      r.Keys == init.Keys + StageKeys(StageOrder) + DecisionKeys()
      && (forall k :: k in init ==> k in r && r[k] == init[k])
      && (forall s: Stage :: StageKey(s) in r && r[StageKey(s)] == StageValue(s, calls(Analyze(s)), parse))
  {
    var init := Initial(originalCode, fixedCode, originalError, changeContext);
    KeysApart(originalCode, fixedCode, originalError, changeContext);
    StageResultsWellShaped(calls, parse);
    DeciderUpdates(calls, parse, render);
    WorkflowResult(init, StageResults(calls, parse), Decider(calls, parse, render), DecisionKeys());
    forall s: Stage ensures StageResults(calls, parse)(s).delta[StageKey(s)] == StageValue(s, calls(Analyze(s)), parse) {
      assert StageResults(calls, parse)(s) == StageNode(s, calls(Analyze(s)), parse);
    }
  }
}
