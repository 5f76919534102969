/**
 * `testing_node` in nodes/testing_node.py: list the relevant files as they were backed up and as
 * they are now, hand both listings and the error to the validator, and fold its verdict into the
 * state. A REJECT counts one retry and leaves feedback for the next fixer round; a validator that
 * raises yields NEEDS_REVIEW.
 *
 * The validator is a parameter; `ValidatedBy` plugs in the validation workflow of
 * sre_validation_system.py.
 */
module TestingNode {
  import opened Strings
  import opened Json
  import opened FileIndex
  import opened Session
  import Validation

  /** The change context the testing node passes to the validator. */
  const ChangeContext: string := "Gemini fix applied based on Spring Boot error.log"

  /** How a call of `validate_code_with_llm` ended: with its result dictionary, by raising
      `ResourceExhausted`, or by raising any other exception (with the exception's text). */
  datatype Verdict = Validated(result: map<string, Json>) | QuotaExhausted(message: string) | Failed(message: string)

  /** The validator: (original code, fixed code, original error, change context) to its verdict. */
  type Validator = (string, string, string, string) -> Verdict

  /** The one-character strings of `s`, which is what `sep.join(s)` joins for a string `s`. */
  function Chars(s: string): (r: seq<string>)
    ensures |r| == |s| && forall i :: 0 <= i < |s| ==> r[i] == [s[i]]
  {
    seq(|s|, i requires 0 <= i < |s| => [s[i]])
  }

  predicate AllStrings(items: seq<Json>) {
    forall i :: 0 <= i < |items| ==> items[i].JStr?
  }

  function Strs(items: seq<Json>): (r: seq<string>)
    requires AllStrings(items)
    ensures |r| == |items| && forall i :: 0 <= i < |items| ==> JStr(r[i]) == items[i]
  {
    seq(|items|, i requires 0 <= i < |items| => items[i].s)
  }

  /** The order in which `json.loads` read a dictionary's keys, which `JObj` does not keep. */
  type KeyOrder = map<string, Json> -> seq<string>

  /** A key order that lists each key of the dictionary once and nothing else. */
  ghost predicate ListsKeys(keys: KeyOrder) {
    forall m: map<string, Json> :: Distinct(keys(m)) && (forall k :: k in keys(m) <==> k in m)
  }

  /** `sep.join(v)`: the characters of a string, the items of a list of strings, or the keys of a
      dictionary in the order `keys` gives; `None` stands for the `TypeError` any other value
      raises. */
  function JoinJson(sep: string, v: Json, keys: KeyOrder): Option<string> {
    match v
    case JStr(s) => Some(Join(sep, Chars(s)))
    case JArr(items) => if AllStrings(items) then Some(Join(sep, Strs(items))) else None
    case JObj(fields) => Some(Join(sep, keys(fields)))
    case _ => None
  }

  /** The summary line of a rejection: the reasons joined with "; ", or a fixed text when there
      are none. */
  function RejectSummary(reasons: Json, keys: KeyOrder): Option<string> {
    if !Truthy(reasons) then Some("REJECTED. No clear reason provided.")
    else
      var joined := JoinJson("; ", reasons, keys);
      if joined.None? then None else Some("REJECTED. Reasons: " + joined.value)
  }

  /** The feedback a rejection leaves for the next fixer round. */
  function RejectFeedback(summary: string, report: string): string {
    summary + "\n\n--- FULL VALIDATION REPORT ---\n" + report
  }

  /** The state returned when the validator raised: NEEDS_REVIEW, with the retry counter read with
      a default of 0 and not advanced. */
  function Fallback(s: Session, report: string, recs: seq<Json>, reason: string, feedback: string): Session {
    s.(decision := Some(JStr("NEEDS_REVIEW")),
       detailedReport := Some(JStr(report)),
       recommendations := Some(JArr(recs)),
       failureReasons := Some(JArr([JStr(reason)])),
       retries := Some(s.retries.GetOr(0)),
       testFailureReason := Some(feedback))
  }

  /** The texts of the two states returned when the validator raises. */
  const QuotaReport: string := "Gemini API quota exhausted. LLM validation could not proceed."
  const QuotaAdvice: string := "Wait for quota reset or use a different API key."
  const QuotaNote: string := "\U{274C} LLM validation skipped due to Gemini quota exhaustion.\n\n"
  const ErrorReport: string := "LLM validation failed due to an unexpected error: "
  const ErrorAdvice1: string := "Check logs for error details"
  const ErrorAdvice2: string := "Retry after fixing the error"
  const ErrorNote: string := "\U{274C} LLM validation failed due to: "

  function QuotaFallback(s: Session, message: string): Session {
    Fallback(s, QuotaReport, [JStr(QuotaAdvice)], "QuotaExceeded", QuotaNote + message)
  }

  function ErrorFallback(s: Session, message: string): Session {
    Fallback(s, ErrorReport + message, [JStr(ErrorAdvice1), JStr(ErrorAdvice2)], "UnexpectedError", ErrorNote + message)
  }

  /** The state after a validator result: its four decision fields (`None` when absent), and on a
      REJECT one more retry and the rejection feedback; `None` when building the feedback raises. */
  function Judged(s: Session, result: map<string, Json>, keys: KeyOrder): Option<Session> {
    var retries := s.retries.GetOr(0);
    var updated := s.(decision := Some(Get(result, "decision", JNull)),
                      detailedReport := Some(Get(result, "detailed_report", JNull)),
                      recommendations := Some(Get(result, "recommendations", JNull)),
                      failureReasons := Some(Get(result, "failure_reasons", JNull)),
                      retries := Some(retries));
    if Get(result, "decision", JNull) != JStr("REJECT") then Some(updated)
    else
      var summary := RejectSummary(Get(result, "failure_reasons", JArr([])), keys);
      var report := Get(result, "detailed_report", JStr(""));
      if summary.None? || !report.JStr? then None
      else Some(updated.(retries := Some(retries + 1), testFailureReason := Some(RejectFeedback(summary.value, report.s))))
  }

  /** The call of the validator inside the `try`: on the listings of the relevant files, once as
      backed up and once as they are now. A missing `original_error` raises a `KeyError` there. */
  function Consult(s: Session, validate: Validator): Verdict
    requires s.relevantFiles.Some? && s.backup.Some?
  {
    var rel := s.relevantFiles.value;
    if s.originalError.None? then Failed("'original_error'")
    else validate(Listed(rel.order, s.backup.value.values), Listed(rel.order, ContentMap(rel)),
                  s.originalError.value, ChangeContext)
  }

  /** The state the node returns for a verdict. */
  function Absorb(s: Session, v: Verdict, keys: KeyOrder): Option<Session> {
    match v
    case QuotaExhausted(m) => Some(QuotaFallback(s, m))
    case Failed(m) => Some(ErrorFallback(s, m))
    case Validated(result) => Judged(s, result, keys)
  }

  /** `testing_node`. `None` stands for an exception that escapes the node: a missing
      `relevant_files` or `original_code_backup` key, or feedback that cannot be built. */
  function TestingNode(s: Session, validate: Validator, keys: KeyOrder): Option<Session> {
    if s.relevantFiles.None? || s.backup.None? then None else Absorb(s, Consult(s, validate), keys)
  }

  // ---------------------------------------------------------------------------------------------
  // What the testing node promises

  /** What the validator is shown: the relevant files in order, each with its backed-up code (empty
      when it has none) and with its current code. */
  lemma TestingListings(s: Session)
    requires s.relevantFiles.Some? && s.backup.Some?
    ensures var rel := s.relevantFiles.value;
      var original := Sections(rel.order, s.backup.value.values);
      var fixed := Sections(rel.order, ContentMap(rel));
      |original| == |rel.order| && |fixed| == |rel.order|
      && forall i :: 0 <= i < |rel.order| ==>
           original[i] == FileSection(rel.order[i], Lookup(s.backup.value.values, rel.order[i]))
           && (rel.order[i] in rel.entries ==> fixed[i] == FileSection(rel.order[i], rel.entries[rel.order[i]].content))
  {
    var rel := s.relevantFiles.value;
    SectionsAt(rel.order, s.backup.value.values);
    SectionsAt(rel.order, ContentMap(rel));
  }

  /** A REJECT whose feedback cannot be built: the reasons do not join, or the report is no string. */
  predicate FeedbackRaises(result: map<string, Json>, keys: KeyOrder) {
    Get(result, "decision", JNull) == JStr("REJECT")
    && (RejectSummary(Get(result, "failure_reasons", JArr([])), keys).None? || !Get(result, "detailed_report", JStr("")).JStr?)
  }

  /** The node escapes exactly when the state lacks the relevant files or the backup, or when the
      feedback of a REJECT cannot be built. */
  lemma TestingCrashes(s: Session, validate: Validator, keys: KeyOrder)
    ensures TestingNode(s, validate, keys).None? <==>
      s.relevantFiles.None? || s.backup.None?
      || (var v := Consult(s, validate); v.Validated? && FeedbackRaises(v.result, keys))
  {
  }

  /** A REJECT costs one retry and leaves the reasons and the report as feedback. */
  lemma RejectCountsRetry(s: Session, result: map<string, Json>, keys: KeyOrder)
    requires Get(result, "decision", JNull) == JStr("REJECT")
    requires RejectSummary(Get(result, "failure_reasons", JArr([])), keys).Some?
    requires "detailed_report" in result && result["detailed_report"].JStr?
    ensures var r := Absorb(s, Validated(result), keys);
      r.Some? && r.value.retries == Some(s.retries.GetOr(0) + 1)
      && r.value.decision == Some(JStr("REJECT"))
      && r.value.testFailureReason
         == Some(RejectFeedback(RejectSummary(Get(result, "failure_reasons", JArr([])), keys).value, result["detailed_report"].s))
  {
  }

  /** The reasons of a REJECT, a list of strings, appear in its feedback joined with "; ". */
  lemma RejectListsReasons(s: Session, result: map<string, Json>, items: seq<Json>, keys: KeyOrder)
    requires Get(result, "decision", JNull) == JStr("REJECT")
    requires "failure_reasons" in result && result["failure_reasons"] == JArr(items)
    requires items != [] && AllStrings(items)
    requires "detailed_report" in result && result["detailed_report"].JStr?
    ensures var r := Absorb(s, Validated(result), keys);
      r.Some? && r.value.retries == Some(s.retries.GetOr(0) + 1)
      && r.value.testFailureReason
        == Some(RejectFeedback("REJECTED. Reasons: " + Join("; ", Strs(items)), result["detailed_report"].s))
  {
    assert Truthy(JArr(items));
    RejectCountsRetry(s, result, keys);
  }

  /** Reasons given as a dictionary do not raise: its keys, in the order they were read, appear
      joined with "; " after "REJECTED. Reasons: ". */
  lemma RejectJoinsKeys(s: Session, result: map<string, Json>, fields: map<string, Json>, keys: KeyOrder)
    requires Get(result, "decision", JNull) == JStr("REJECT")
    requires "failure_reasons" in result && result["failure_reasons"] == JObj(fields) && fields != map[]
    requires "detailed_report" in result && result["detailed_report"].JStr?
    ensures var r := Absorb(s, Validated(result), keys);
      r.Some? && r.value.retries == Some(s.retries.GetOr(0) + 1)
      && r.value.testFailureReason
        == Some(RejectFeedback("REJECTED. Reasons: " + Join("; ", keys(fields)), result["detailed_report"].s))
  {
    assert Truthy(JObj(fields));
    RejectCountsRetry(s, result, keys);
  }

  /** In a sequence of two or more copies of `k`, the last element occurs before its position. */
  lemma LastRepeats(ks: seq<string>, k: string)
    requires |ks| > 1 && forall j :: j in ks ==> j == k
    ensures ks[|ks| - 1] in ks[..|ks| - 1]
  {
    assert ks[0] in ks && ks[|ks| - 1] in ks;
    assert ks[0] in ks[..|ks| - 1];
  }

  /** A dictionary of one reason shows that reason alone, whatever the key order. */
  lemma {:induction false} SingleKeyReason(k: string, v: Json, keys: KeyOrder)
    requires ListsKeys(keys)
    ensures RejectSummary(JObj(map[k := v]), keys) == Some("REJECTED. Reasons: " + k)
  {
    var ks := keys(map[k := v]);
    assert Distinct(ks) && forall j :: j in ks <==> j == k;
    assert |ks| > 0 by { assert k in ks; }
    DistinctSingleton(ks, k);
    assert Truthy(JObj(map[k := v])) by { assert k in map[k := v]; }
  }

  /** A repetition-free sequence whose only element is `k` is `[k]`. */
  lemma {:induction false} DistinctSingleton(ks: seq<string>, k: string)
    requires Distinct(ks) && |ks| > 0 && forall j :: j in ks <==> j == k
    ensures ks == [k]
  {
    assert ks[0] in ks;
    if |ks| > 1 {
      LastRepeats(ks, k);
      assert false;
    }
    assert ks == [ks[0]];
  }

  /** Any other result keeps the retry counter and the previous feedback. */
  lemma OtherVerdictKeepsCount(s: Session, result: map<string, Json>, keys: KeyOrder)
    requires Get(result, "decision", JNull) != JStr("REJECT")
    ensures var r := Absorb(s, Validated(result), keys);
      r.Some? && r.value.retries == Some(s.retries.GetOr(0))
      && r.value.testFailureReason == s.testFailureReason
      && r.value.decision == Some(Get(result, "decision", JNull))
      && r.value.failureReasons == Some(Get(result, "failure_reasons", JNull))
  {
  }

  /** A validator that raises gives NEEDS_REVIEW without counting a retry, with the kind of the
      exception as the one failure reason and its text in the feedback. */
  lemma RaisingValidatorNeedsReview(s: Session, v: Verdict, keys: KeyOrder)
    requires !v.Validated?
    ensures var r := Absorb(s, v, keys);
      r.Some? && r.value.decision == Some(JStr("NEEDS_REVIEW")) && r.value.retries == Some(s.retries.GetOr(0))
      && r.value.failureReasons == Some(JArr([JStr(if v.QuotaExhausted? then "QuotaExceeded" else "UnexpectedError")]))
      && r.value.testFailureReason.Some? && EndsWith(r.value.testFailureReason.value, v.message)
  {
  }

  /** A state without the error text is reported as a validator error, not as a crash. */
  lemma MissingErrorIsReported(s: Session, validate: Validator, keys: KeyOrder)
    requires s.relevantFiles.Some? && s.backup.Some? && s.originalError.None?
    ensures TestingNode(s, validate, keys) == Some(ErrorFallback(s, "'original_error'"))
  {
  }

  /** The node writes only the decision fields, the feedback and the retry counter; the retry
      counter is set, and is the old one or one more. */
  lemma TestingKeepsRepairState(s: Session, validate: Validator, keys: KeyOrder)
    requires TestingNode(s, validate, keys).Some?
    ensures var r := TestingNode(s, validate, keys).value;
      r.fileIndex == s.fileIndex && r.relevantFiles == s.relevantFiles && r.backup == s.backup
      && r.pathMap == s.pathMap && r.originalCode == s.originalCode && r.fixedCode == s.fixedCode
      && r.originalError == s.originalError
      && r.retries.Some? && s.retries.GetOr(0) <= r.retries.value <= s.retries.GetOr(0) + 1
  {
    AbsorbKeeps(s, Consult(s, validate), keys);
  }

  lemma AbsorbKeeps(s: Session, v: Verdict, keys: KeyOrder)
    requires Absorb(s, v, keys).Some?
    ensures var r := Absorb(s, v, keys).value;
      r.fileIndex == s.fileIndex && r.relevantFiles == s.relevantFiles && r.backup == s.backup
      && r.pathMap == s.pathMap && r.originalCode == s.originalCode && r.fixedCode == s.fixedCode
      && r.originalError == s.originalError
      && r.retries.Some? && s.retries.GetOr(0) <= r.retries.value <= s.retries.GetOr(0) + 1
  {
  }

  // ---------------------------------------------------------------------------------------------
  // With the validation workflow as the validator

  /** The validator of sre_validation_system.py, answering with the given model calls. */
  function ValidatedBy(calls: Validation.Node -> Validation.NodeCall, parse: string -> Validation.Outcome,
                       render: Json -> string): Validator
  {
    (o: string, f: string, e: string, c: string) => Validated(Validation.ValidateCode(o, f, e, c, calls, parse, render))
  }

  /** When a validation node cannot even be set up, the workflow reports a system failure, which the
      testing node counts as a rejection: one more retry, and the failure as feedback. */
  lemma SystemFailureCountsRetry(s: Session, calls: Validation.Node -> Validation.NodeCall,
                                 parse: string -> Validation.Outcome, render: Json -> string, keys: KeyOrder)
    requires s.relevantFiles.Some? && s.backup.Some? && s.originalError.Some?
    requires exists nd: Validation.Node :: calls(nd).setupError.Some?
    ensures var r := TestingNode(s, ValidatedBy(calls, parse, render), keys);
      r.Some? && r.value.decision == Some(JStr("REJECT")) && r.value.retries == Some(s.retries.GetOr(0) + 1)
      && exists m :: r.value.testFailureReason
           == Some(RejectFeedback("REJECTED. Reasons: " + ("System error: " + m), "Workflow failed: " + m))
  {
    var rel := s.relevantFiles.value;
    var o, f := Listed(rel.order, s.backup.value.values), Listed(rel.order, ContentMap(rel));
    Validation.ValidateCodeFails(o, f, s.originalError.value, ChangeContext, calls, parse, render);
    var m :| Validation.ValidateCode(o, f, s.originalError.value, ChangeContext, calls, parse, render)
             == Validation.SystemFailure("Workflow failed: ", m);
    var result := Validation.SystemFailure("Workflow failed: ", m);
    assert Consult(s, ValidatedBy(calls, parse, render)) == Validated(result);
    SystemFailureFeedback(s, m, keys);
  }

  lemma SystemFailureFeedback(s: Session, m: string, keys: KeyOrder)
    ensures var r := Absorb(s, Validated(Validation.SystemFailure("Workflow failed: ", m)), keys);
      r.Some? && r.value.decision == Some(JStr("REJECT")) && r.value.retries == Some(s.retries.GetOr(0) + 1)
      && r.value.testFailureReason
         == Some(RejectFeedback("REJECTED. Reasons: " + ("System error: " + m), "Workflow failed: " + m))
  {
    var result := Validation.SystemFailure("Workflow failed: ", m);
    Validation.SystemFailureShape("Workflow failed: ", m);
    var items := [JStr("System error: " + m)];
    assert Strs(items) == ["System error: " + m];
    RejectListsReasons(s, result, items, keys);
    RejectCountsRetry(s, result, keys);
  }
}
