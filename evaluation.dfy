/*
 * The evaluation harness of evaluation_system/python_eval/eval.py: the
 * scoring rules of `Evaluator` for factual and tool tasks, the dispatch on
 * the task type, the loop of `run_evaluation` that yields one result per
 * task, and the grouping of the results by task type in `print_summary`.
 * The agent and the model that judges reasoning answers are parameters.
 */
module AgentEvaluation {
  import opened Wrappers
  import opened Text
  import opened Grouping

  /** The entries of a task's `metadata` that the evaluator reads; an entry
      that is absent reads as None, or as the empty list. */
  datatype Metadata = Metadata(
    evidenceSnippet: Option<string>,
    requiredFields: seq<string>,
    tolerance: Option<real>,
    keySteps: seq<string>,
    intermediateValues: seq<string>)

  datatype Task = Task(id: int, task: string, expected: string, evalType: string, metadata: Metadata)

  datatype EvaluationResult = EvaluationResult(
    taskId: int,
    taskType: string,
    question: string,
    agent: string,
    success: bool,
    response: string,
    accuracy: real,
    latency: real,
    cost: real,
    error: string)

  /** The `(success, accuracy)` pair every scoring rule returns. */
  datatype Score = Score(success: bool, accuracy: real)

  // ---------------------------------------------------------------------
  // Factual questions
  // ---------------------------------------------------------------------

  /** Lowercase, then strip surrounding white space. */
  function Normalize(s: string): string {
    Strip(Lower(s))
  }

  /** The lowercased evidence snippet occurs in the normalised response;
      an absent or empty snippet never counts. */
  predicate CitationHit(normalizedResponse: string, snippet: Option<string>) {
    snippet.Some? && snippet.value != [] && Contains(normalizedResponse, Lower(snippet.value))
  }

  /** `evaluate_factual`: success is the normalised expected answer occurring
      in the normalised response; a citation alone earns half. */
  function EvaluateFactual(response: string, expected: string, snippet: Option<string>): (s: Score)
    ensures s.success <==> Contains(Normalize(response), Normalize(expected))
    ensures s.accuracy == 1.0 <==> s.success
    ensures s.accuracy == 0.5 <==> !s.success && CitationHit(Normalize(response), snippet)
    ensures s.accuracy == 0.0 <==> !s.success && !CitationHit(Normalize(response), snippet)
  {
    var normalizedResponse := Normalize(response);
    var normalizedExpected := Normalize(expected);
    var exactMatch := Contains(normalizedResponse, normalizedExpected);
    var citationHit := CitationHit(normalizedResponse, snippet);
    var accuracy := if exactMatch then 1.0 else if citationHit then 0.5 else 0.0;
    Score(exactMatch, accuracy)
  }

  /** Without a snippet the accuracy is all or nothing. */
  lemma FactualWithoutSnippet(response: string, expected: string)
    ensures EvaluateFactual(response, expected, None).accuracy == if EvaluateFactual(response, expected, None).success then 1.0 else 0.0
  {
  }

  lemma {:induction false} LowerOfSpace(w: string)
    requires AllSpace(w)
    ensures Lower(w) == w
  {
    forall i | 0 <= i < |w| ensures Lower(w)[i] == w[i] {
      assert IsSpace(w[i]);
    }
  }

  /** Folding case and then stripping ignores case and surrounding white space. */
  lemma NormalizeIgnoresCaseAndPadding(w1: string, s: string, w2: string)
    requires AllSpace(w1) && AllSpace(w2)
    ensures Normalize(w1 + Lower(s) + w2) == Normalize(s)
  {
    LowerConcat(w1 + Lower(s), w2);
    LowerConcat(w1, Lower(s));
    LowerOfSpace(w1);
    LowerOfSpace(w2);
    LowerIdempotent(s);
    assert Lower(w1 + Lower(s) + w2) == w1 + Lower(s) + w2;
    StripIgnoresPadding(w1, Lower(s), w2);
  }

  /** The factual score is the same whatever the case of the response or of
      the expected answer, and whatever white space surrounds them. */
  lemma FactualIgnoresCaseAndPadding(response: string, expected: string, snippet: Option<string>,
                                     w1: string, w2: string, w3: string, w4: string)
    requires AllSpace(w1) && AllSpace(w2) && AllSpace(w3) && AllSpace(w4)
    ensures EvaluateFactual(w1 + Lower(response) + w2, w3 + Lower(expected) + w4, snippet)
         == EvaluateFactual(response, expected, snippet)
  {
    NormalizeIgnoresCaseAndPadding(w1, response, w2);
    NormalizeIgnoresCaseAndPadding(w3, expected, w4);
  }

  /** An expected answer that is empty after stripping matches any response. */
  lemma BlankExpectedAlwaysMatches(response: string, expected: string, snippet: Option<string>)
    requires Normalize(expected) == []
    ensures EvaluateFactual(response, expected, snippet) == Score(true, 1.0)
  {
    ContainsEmpty(Normalize(response));
  }

  /** Stripping the response never loses a match: a non-blank expected
      answer is found exactly when it occurs anywhere in the lowercased
      response. */
  lemma FactualMatchIgnoresStrip(response: string, expected: string, snippet: Option<string>)
    requires Normalize(expected) != []
    ensures EvaluateFactual(response, expected, snippet).success <==> Contains(Lower(response), Normalize(expected))
  {
    var lowered, pat := Lower(response), Normalize(expected);
    if Contains(Strip(lowered), pat) {
      ContainsStripped(lowered);
      ContainsTransitive(lowered, Strip(lowered), pat);
    }
    if Contains(lowered, pat) {
      var i :| 0 <= i <= |lowered| && OccursAt(lowered, pat, i);
      TrimmedOccursInStripped(lowered, pat, i);
    }
  }

  /** The factual example of the evaluator's own test: the expected answer
      opens the response, so the score is full whatever the snippet. */
  lemma FactualExample()
    ensures EvaluateFactual("Paris is the capital of France", "Paris", Some("capital of France")) == Score(true, 1.0)
  {
    var response := "Paris is the capital of France";
    ExampleNormalized();
    assert OccursAt(response, "Paris", 0);
    FoldedOccurrence(response, "Paris", "paris", 0);
    FactualMatchIgnoresStrip(response, "Paris", Some("capital of France"));
  }

  lemma ExampleNormalized()
    ensures Lower("Paris") == "paris" && Normalize("Paris") == "paris"
  {
    assert Lower("Paris") == "paris";
    StripOfTrimmed("paris");
  }

  lemma StripOfTrimmed(s: string)
    requires s != [] && !IsSpace(s[0]) && !IsSpace(s[|s| - 1])
    ensures Strip(s) == s
  {
    StripByOfPadded([], s, [], IsSpace);
    assert [] + s + [] == s;
  }

  // ---------------------------------------------------------------------
  // Tool tasks
  // ---------------------------------------------------------------------

  /** The response mentions a search, in any case, or holds a brace. */
  predicate ToolInvoked(response: string) {
    Contains(Lower(response), "search") || Contains(response, "{")
  }

  /** Every required field occurs in the response, case ignored on both sides. */
  predicate FieldsPresent(response: string, fields: seq<string>) {
    forall i :: 0 <= i < |fields| ==> Contains(Lower(response), Lower(fields[i]))
  }

  /** No tolerance is given, or the number search finds something in the response. */
  predicate WithinTolerance(response: string, tolerance: Option<real>) {
    tolerance.None? || |FindNumbers(response)| > 0
  }

  /** `evaluate_tool`: all three checks hold, for full marks or none. */
  function EvaluateTool(response: string, fields: seq<string>, tolerance: Option<real>): (s: Score)
    ensures s.success <==> ToolInvoked(response) && FieldsPresent(response, fields) && WithinTolerance(response, tolerance)
    ensures s.accuracy == if s.success then 1.0 else 0.0
  {
    var success := ToolInvoked(response) && FieldsPresent(response, fields) && WithinTolerance(response, tolerance);
    Score(success, if success then 1.0 else 0.0)
  }

  /** Only whether a tolerance is given matters, never its value, and the
      number search succeeds exactly when the response has a digit. */
  lemma ToleranceValueIgnored(response: string, fields: seq<string>, t1: real, t2: real)
    ensures EvaluateTool(response, fields, Some(t1)) == EvaluateTool(response, fields, Some(t2))
    ensures WithinTolerance(response, Some(t1)) <==> HasDigit(response)
  {
  }

  /** With no required fields and no tolerance, the tool check is only the
      search test. */
  lemma ToolWithoutFields(response: string)
    ensures EvaluateTool(response, [], None).success <==> ToolInvoked(response)
  {
  }

  /** Requiring more fields never turns a failure into a success. */
  lemma MoreFieldsNeverHelp(response: string, fields: seq<string>, extra: seq<string>, tolerance: Option<real>)
    ensures EvaluateTool(response, fields + extra, tolerance).success ==> EvaluateTool(response, fields, tolerance).success
  {
    if FieldsPresent(response, fields + extra) {
      forall i | 0 <= i < |fields| ensures Contains(Lower(response), Lower(fields[i])) {
        assert (fields + extra)[i] == fields[i];
      }
    }
  }

  /** The tool example of the evaluator's own test: the response reports a
      search and names all three fields, so the score is full. */
  lemma ToolExample()
    ensures EvaluateTool(ToolResponse, ["temperature", "condition", "location"], None) == Score(true, 1.0)
  {
    var fields := ["temperature", "condition", "location"];
    var rest0, rest1, rest2 := "': '22°C', '", "': 'sunny', '", "': 'Tokyo'}";
    var head := "Search results: {'";
    assert OccursAt(head, "Search", 0) && Lower("Search") == "search";
    OccursInMiddle([], head, fields[0] + rest0 + fields[1] + rest1 + fields[2] + rest2);
    OccursWithin(ToolResponse, head, "Search", 0, 0);
    FoldedOccurrence(ToolResponse, "Search", "search", 0);
    forall i | 0 <= i < |fields| ensures Contains(Lower(ToolResponse), Lower(fields[i])) {
      LowerOfLowercase(fields[i]);
      if i == 0 {
        OccursInMiddle(head, fields[0], rest0 + fields[1] + rest1 + fields[2] + rest2);
        FoldedOccurrence(ToolResponse, fields[0], fields[0], |head|);
      } else if i == 1 {
        OccursInMiddle(head + fields[0] + rest0, fields[1], rest1 + fields[2] + rest2);
        FoldedOccurrence(ToolResponse, fields[1], fields[1], |head + fields[0] + rest0|);
      } else {
        OccursInMiddle(head + fields[0] + rest0 + fields[1] + rest1, fields[2], rest2);
        FoldedOccurrence(ToolResponse, fields[2], fields[2], |head + fields[0] + rest0 + fields[1] + rest1|);
      }
    }
  }

  /** The response of the tool example, piece by piece around its fields. */
  const ToolResponse: string :=
    "Search results: {'" + "temperature" + "': '22°C', '" + "condition" + "': 'sunny', '" + "location" + "': 'Tokyo'}"

  /** A phrase found in the response is found, folded, in the folded response. */
  lemma FoldedOccurrence(response: string, phrase: string, folded: string, i: nat)
    requires OccursAt(response, phrase, i) && Lower(phrase) == folded
    ensures Contains(Lower(response), folded)
  {
    LowerPreservesOccurrence(response, phrase, i);
    assert i <= |Lower(response)|;
  }

  /** A string with no capital letter is its own lowercase form. */
  lemma LowerOfLowercase(s: string)
    requires forall i :: 0 <= i < |s| ==> !IsUpperAscii(s[i])
    ensures Lower(s) == s
  {
  }

  // ---------------------------------------------------------------------
  // Reasoning tasks, judged by a language model
  // ---------------------------------------------------------------------

  /** The entries read from the judge's JSON reply; an absent one is None. */
  datatype Verdict = Verdict(reasoningCorrect: Option<bool>, accuracy: Option<real>)

  /** `evaluate_reasoning`: the judge's reply, with False and 0.0 for absent
      entries; None stands for a call or a parse that raised. */
  function EvaluateReasoning(verdict: Option<Verdict>): (s: Score)
    ensures verdict.None? ==> s == Score(false, 0.0)
    ensures verdict.Some? ==> (s.success <==> verdict.value.reasoningCorrect == Some(true))
    ensures verdict.Some? && verdict.value.accuracy.Some? ==> s.accuracy == verdict.value.accuracy.value
    ensures verdict.Some? && verdict.value.accuracy.None? ==> s.accuracy == 0.0
  {
    match verdict
    case None => Score(false, 0.0)
    case Some(v) =>
      Score(
        match v.reasoningCorrect { case Some(b) => b case None => false },
        match v.accuracy { case Some(a) => a case None => 0.0 })
  }

  /** The judge sees the response, the key steps and the intermediate values. */
  type Judge = (string, seq<string>, seq<string>) -> Option<Verdict>

  // ---------------------------------------------------------------------
  // One task, and the loop over all of them
  // ---------------------------------------------------------------------

  /** What `agent.run` gave back for one question: the response, the latency
      and the cost, or the message of the exception it raised. */
  datatype AgentReply = Replied(response: string, latency: real, cost: real) | Raised(message: string)

  /** The agent's reply to the `n`-th question it is asked (counting from 0);
      the agent keeps running totals, so the position matters. */
  type Agent = (nat, string) -> AgentReply

  /** The dispatch on `eval_type`; an unknown type scores nothing. */
  function Evaluate(task: Task, response: string, judge: Judge): (s: Score)
    ensures task.evalType == "factual" ==> s == EvaluateFactual(response, task.expected, task.metadata.evidenceSnippet)
    ensures task.evalType == "tool" ==> s == EvaluateTool(response, task.metadata.requiredFields, task.metadata.tolerance)
    ensures task.evalType == "reasoning" ==>
      s == EvaluateReasoning(judge(response, task.metadata.keySteps, task.metadata.intermediateValues))
    ensures task.evalType !in {"factual", "tool", "reasoning"} ==> s == Score(false, 0.0)
  {
    if task.evalType == "factual" then EvaluateFactual(response, task.expected, task.metadata.evidenceSnippet)
    else if task.evalType == "tool" then EvaluateTool(response, task.metadata.requiredFields, task.metadata.tolerance)
    else if task.evalType == "reasoning" then
      EvaluateReasoning(judge(response, task.metadata.keySteps, task.metadata.intermediateValues))
    else Score(false, 0.0)
  }

  /** The result of the `n`-th task. */
  function ResultFor(agentName: string, n: nat, task: Task, agent: Agent, judge: Judge): EvaluationResult {
    match agent(n, task.task)
    case Replied(response, latency, cost) =>
      var s := Evaluate(task, response, judge);
      EvaluationResult(task.id, task.evalType, task.task, agentName, s.success, response, s.accuracy, latency, cost, "")
    case Raised(message) =>
      EvaluationResult(task.id, task.evalType, task.task, agentName, false, "", 0.0, 0.0, 0.0, message)
  }

  /** `run_evaluation` after the tasks are loaded: an agent name other than
      "react", in any case, is refused before any task runs. */
  function EvaluationOf(agentName: string, tasks: seq<Task>, agent: Agent, judge: Judge): Result<seq<EvaluationResult>, string> {
    if Lower(agentName) != "react" then Failure("Unknown agent: " + agentName)
    else Success(seq(|tasks|, n requires 0 <= n < |tasks| => ResultFor(agentName, n, tasks[n], agent, judge)))
  }

  /** `run_evaluation`: the loop over the tasks, each reply scored or the
      exception it raised recorded. */
  method RunEvaluation(agentName: string, tasks: seq<Task>, agent: Agent, judge: Judge)
    returns (r: Result<seq<EvaluationResult>, string>)
    ensures r == EvaluationOf(agentName, tasks, agent, judge)
  {
    if Lower(agentName) != "react" {
      return Failure("Unknown agent: " + agentName);
    }
    var results: seq<EvaluationResult> := [];
    var i := 0;
    while i < |tasks|
      invariant 0 <= i <= |tasks|
      invariant |results| == i
      invariant forall n :: 0 <= n < i ==> results[n] == ResultFor(agentName, n, tasks[n], agent, judge)
    {
      var result := ResultFor(agentName, i, tasks[i], agent, judge);
      results := results + [result];
      i := i + 1;
    }
    ghost var expected := EvaluationOf(agentName, tasks, agent, judge).value;
    assert |expected| == |results|;
    assert forall n :: 0 <= n < |tasks| ==> expected[n] == results[n];
    assert expected == results;
    return Success(results);
  }

  /** The agent name decides alone whether the run is refused. */
  lemma UnknownAgentRefused(agentName: string, tasks: seq<Task>, agent: Agent, judge: Judge)
    ensures EvaluationOf(agentName, tasks, agent, judge).Failure? <==> Lower(agentName) != "react"
    ensures EvaluationOf(agentName, tasks, agent, judge).Failure? ==>
      EvaluationOf(agentName, tasks, agent, judge).error == "Unknown agent: " + agentName
  {
  }

  /** One result per task, in task order, that names its task and the agent
      as it was given. */
  lemma OneResultPerTask(agentName: string, tasks: seq<Task>, agent: Agent, judge: Judge, n: nat)
    requires EvaluationOf(agentName, tasks, agent, judge).Success?
    ensures |EvaluationOf(agentName, tasks, agent, judge).value| == |tasks|
    ensures n < |tasks| ==>
      var r := EvaluationOf(agentName, tasks, agent, judge).value[n];
      r.taskId == tasks[n].id && r.taskType == tasks[n].evalType && r.question == tasks[n].task && r.agent == agentName
  {
  }

  /** A task whose agent call raised is recorded as a failure with the message
      and nothing else; the tasks after it still run. */
  lemma RaisedIsRecorded(agentName: string, n: nat, task: Task, agent: Agent, judge: Judge)
    requires agent(n, task.task).Raised?
    ensures var r := ResultFor(agentName, n, task, agent, judge);
      !r.success && r.response == [] && r.accuracy == 0.0 && r.latency == 0.0 && r.cost == 0.0
      && r.error == agent(n, task.task).message
  {
  }

  /** A task of an unknown type fails with no accuracy, but keeps the
      agent's response, latency and cost. */
  lemma UnknownTypeFails(agentName: string, n: nat, task: Task, agent: Agent, judge: Judge)
    requires task.evalType !in {"factual", "tool", "reasoning"} && agent(n, task.task).Replied?
    ensures var r := ResultFor(agentName, n, task, agent, judge);
      !r.success && r.accuracy == 0.0 && r.response == agent(n, task.task).response && r.error == []
  {
  }

  /** A successful factual or tool result always has full accuracy. */
  lemma SuccessMeansFullMarks(agentName: string, n: nat, task: Task, agent: Agent, judge: Judge)
    requires task.evalType in {"factual", "tool"}
    ensures ResultFor(agentName, n, task, agent, judge).success ==> ResultFor(agentName, n, task, agent, judge).accuracy == 1.0
  {
  }

  // ---------------------------------------------------------------------
  // The summary by task type
  // ---------------------------------------------------------------------

  function TypeOf(r: EvaluationResult): string { r.taskType }
  function Succeeded(r: EvaluationResult): bool { r.success }

  /** One row of the table by task type: how many results, and how many
      succeeded. */
  datatype TypeRow = TypeRow(taskType: string, count: nat, successCount: nat)

  /** The counts `print_summary` prints: totals, then one row per task type
      in order of first appearance. */
  datatype EvalSummary = EvalSummary(totalTasks: nat, successfulTasks: nat, rows: seq<TypeRow>)

  function RowsOf(order: seq<string>, groups: map<string, seq<EvaluationResult>>): (rows: seq<TypeRow>)
    requires forall k :: k in order ==> k in groups
    ensures |rows| == |order|
    ensures forall i :: 0 <= i < |order| ==>
      rows[i] == TypeRow(order[i], |groups[order[i]]|, CountIf(groups[order[i]], Succeeded))
  {
    if order == [] then []
    else
      var t := order[|order| - 1];
      RowsOf(order[..|order| - 1], groups) + [TypeRow(t, |groups[t]|, CountIf(groups[t], Succeeded))]
  }

  /** The summary of a non-empty list, stated group by group. */
  ghost predicate IsSummaryOf(results: seq<EvaluationResult>, s: EvalSummary) {
    && s.totalTasks == |results|
    && s.successfulTasks == CountIf(results, Succeeded)
    && |s.rows| == |Distinct(Keys(results, TypeOf))|
    && forall i :: 0 <= i < |s.rows| ==>
         var t := Distinct(Keys(results, TypeOf))[i];
         s.rows[i] == TypeRow(t, |Select(results, TypeOf, t)|, CountIf(Select(results, TypeOf, t), Succeeded))
  }

  /** The `task_types` dictionary: each result appended to the list of its type. */
  method GroupByType(results: seq<EvaluationResult>) returns (order: seq<string>, groups: map<string, seq<EvaluationResult>>)
    ensures IsGrouping(results, TypeOf, order, groups)
  {
    order, groups := [], map[];
    var i := 0;
    while i < |results|
      invariant 0 <= i <= |results|
      invariant order == DistinctUpTo(results, TypeOf, i)
      invariant groups == GroupsUpTo(results, TypeOf, i)
    {
      var result := results[i];
      GroupedIffSeen(results, TypeOf, i, result.taskType);
      if result.taskType !in groups {
        groups := groups[result.taskType := []];
        order := order + [result.taskType];
      }
      groups := groups[result.taskType := groups[result.taskType] + [result]];
      i := i + 1;
    }
    GroupsAreSelections(results, TypeOf);
  }

  /** `print_summary`: nothing for an empty list, otherwise the totals and
      the rows by task type. */
  method Summarize(results: seq<EvaluationResult>) returns (s: Option<EvalSummary>)
    ensures results == [] <==> s.None?
    ensures s.Some? ==> IsSummaryOf(results, s.value)
  {
    if results == [] {
      return None;
    }
    var successfulTasks := CountIf(results, Succeeded);
    var order, groups := GroupByType(results);
    var rows := [];
    var j := 0;
    while j < |order|
      invariant 0 <= j <= |order|
      invariant rows == RowsOf(order[..j], groups)
    {
      var t := order[j];
      var typeResults := groups[t];
      var successCount := CountIf(typeResults, Succeeded);
      assert order[..j + 1][..j] == order[..j];
      rows := rows + [TypeRow(t, |typeResults|, successCount)];
      j := j + 1;
    }
    assert order[..|order|] == order;
    s := Some(EvalSummary(|results|, successfulTasks, rows));
    RowsSummarize(results, order, groups);
  }

  /** One row per group of the grouping, in its order, is the summary. */
  lemma RowsSummarize(results: seq<EvaluationResult>, order: seq<string>, groups: map<string, seq<EvaluationResult>>)
    requires IsGrouping(results, TypeOf, order, groups)
    ensures IsSummaryOf(results, EvalSummary(|results|, CountIf(results, Succeeded), RowsOf(order, groups)))
  {
    var rows := RowsOf(order, groups);
    forall i | 0 <= i < |rows|
      ensures rows[i] == TypeRow(order[i], |Select(results, TypeOf, order[i])|, CountIf(Select(results, TypeOf, order[i]), Succeeded))
    {
      assert order[i] in order;
    }
  }

  /** Every result lands in the group of its own type and in no other, the
      groups come in order of first appearance, and their sizes add up to the
      number of results. */
  lemma GroupsPartitionResults(results: seq<EvaluationResult>, s: EvalSummary, i: nat, j: nat)
    requires IsSummaryOf(results, s)
    ensures SumSizes(Distinct(Keys(results, TypeOf)), results, TypeOf) == s.totalTasks
    ensures forall n :: 0 <= n < |results| ==> results[n] in Select(results, TypeOf, results[n].taskType)
    ensures forall n, t :: 0 <= n < |results| && t != results[n].taskType ==> results[n] !in Select(results, TypeOf, t)
    ensures i < j < |s.rows| ==>
      s.rows[i].taskType in Keys(results, TypeOf) && s.rows[j].taskType in Keys(results, TypeOf)
      && FirstIndex(Keys(results, TypeOf), s.rows[i].taskType) < FirstIndex(Keys(results, TypeOf), s.rows[j].taskType)
  {
    PartitionSizes(results, TypeOf);
    forall n | 0 <= n < |results| ensures results[n] in Select(results, TypeOf, results[n].taskType) {
      SelectMembers(results, TypeOf, results[n].taskType);
    }
    forall n, t | 0 <= n < |results| && t != results[n].taskType ensures results[n] !in Select(results, TypeOf, t) {
      SelectMembers(results, TypeOf, t);
    }
    if i < j < |s.rows| {
      DistinctInFirstOccurrenceOrder(Keys(results, TypeOf), i, j);
    }
  }
}
