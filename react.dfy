/*
 * The ReAct agent of evaluation_system/python_eval/eval.py: one "think"
 * call to the language model, then either a search followed by an "act"
 * call, or the answer read off the thought. The language model and the
 * search service are parameters: `llm` maps a prompt to what the chat
 * completion call yields, `search` maps a query to the text the search
 * step returns (an error text included, since that step never raises).
 */
module ReAct {
  import opened Wrappers
  import opened Text

  /** What one chat completion yields: the reply and the token counts, or
      the message of the exception it raised. */
  datatype LlmOutcome =
    | Completed(content: string, promptTokens: nat, completionTokens: nat, totalTokens: nat)
    | LlmFailed(message: string)

  /** `call_llm`'s answer: the text, the tokens used and their price. */
  datatype LlmAnswer = LlmAnswer(text: string, tokens: nat, cost: real)

  const Model := "gpt-4o-mini"
  const SearchMarker := "SEARCH:"
  const AnswerMarker := "ANSWER:"

  /** The dollar price of one call: $0.15 per million prompt tokens and
      $0.60 per million completion tokens. */
  function PriceOf(promptTokens: nat, completionTokens: nat): (cost: real)
    ensures cost >= 0.0
    ensures promptTokens == 0 && completionTokens == 0 ==> cost == 0.0
  {
    promptTokens as real * 0.00015 / 1000.0 + completionTokens as real * 0.0006 / 1000.0
  }

  /** `call_llm`: a failed call is reported as text, with no tokens and no cost. */
  function AnswerOf(outcome: LlmOutcome): (a: LlmAnswer)
    ensures outcome.LlmFailed? ==> a == LlmAnswer("LLM error: " + outcome.message, 0, 0.0)
    ensures outcome.Completed? ==> a.text == outcome.content && a.tokens == outcome.totalTokens
    ensures a.cost >= 0.0
  {
    match outcome
    case Completed(content, p, c, t) => LlmAnswer(content, t, PriceOf(p, c))
    case LlmFailed(message) => LlmAnswer("LLM error: " + message, 0, 0.0)
  }

  /** The two prompts the agent sends. The model is given the prompt by
      what it is made of; `PromptText` is the message it stands for. */
  datatype Prompt = ThinkPrompt(question: string) | ActPrompt(question: string, searchResults: string)

  function PromptText(p: Prompt): string {
    match p
    case ThinkPrompt(question) =>
      "You are a ReAct agent. Analyze this question and decide:\n"
      + "1. Can you answer directly? Respond with \"ANSWER: [your answer]\"\n"
      + "2. Do you need to search? Respond with \"SEARCH: [search query]\"\n\n"
      + "Question: " + question
    case ActPrompt(question, searchResults) =>
      "Based on the search results, provide a complete answer to the question.\n\n"
      + "Question: " + question + "\n"
      + "Search Results: " + searchResults + "\n\n"
      + "Provide a clear, accurate answer:"
  }

  /** What the agent makes of its first thought. */
  datatype Decision = SearchFor(query: string) | AnswerWith(answer: string) | Verbatim(thought: string)

  /** The second piece of the thought split at the marker, stripped. */
  function Payload(thought: string, marker: string): string
    requires |marker| > 0 && Contains(thought, marker)
  {
    SplitHasSecondPiece(thought, marker);
    Strip(Split(thought, marker)[1])
  }

  /** The branch of `run` on the thought: a search marker wins over an
      answer marker, and a thought with neither is the response itself. */
  function Decide(thought: string): (d: Decision)
    ensures d.SearchFor? <==> Contains(thought, SearchMarker)
    ensures d.AnswerWith? <==> !Contains(thought, SearchMarker) && Contains(thought, AnswerMarker)
    ensures d.Verbatim? ==> d.thought == thought
  {
    if Contains(thought, SearchMarker) then SearchFor(Payload(thought, SearchMarker))
    else if Contains(thought, AnswerMarker) then AnswerWith(Payload(thought, AnswerMarker))
    else Verbatim(thought)
  }

  /** The payload is the text between the first occurrence of the marker and
      the next one (or the end), stripped; a later marker cuts it short. */
  lemma PayloadBetweenMarkers(thought: string, marker: string)
    requires |marker| > 0 && Contains(thought, marker)
    ensures var start := FindFirst(thought, marker).value + |marker|;
      match FindFrom(thought, marker, start)
      case None => Payload(thought, marker) == Strip(thought[start..])
      case Some(k) => Payload(thought, marker) == Strip(thought[start..k])
  {
    SecondPieceBetweenSeparators(thought, marker);
  }

  /** The payload has no white space at either end, and is no longer than
      the thought. */
  lemma PayloadIsTrimmed(thought: string, marker: string)
    requires |marker| > 0 && Contains(thought, marker)
    ensures TrimmedBy(Payload(thought, marker), IsSpace)
    ensures |Payload(thought, marker)| <= |thought|
  {
    SplitHasSecondPiece(thought, marker);
    SplitPiecesAreFree(thought, marker, 0);
    JoinSplit(thought, marker);
    PieceShorter(Split(thought, marker), marker);
  }

  lemma {:induction false} PieceShorter(parts: seq<string>, sep: string)
    requires |parts| >= 2
    ensures |parts[1]| <= |Join(parts, sep)|
  {
    assert Join(parts, sep) == parts[0] + sep + Join(parts[1..], sep);
    var rest := parts[1..];
    if |rest| > 1 {
      assert Join(rest, sep) == rest[0] + sep + Join(rest[1..], sep);
    }
  }

  /** The response the agent gives to `question`. */
  function Respond(question: string, llm: Prompt -> LlmOutcome, search: string -> string): string {
    var thought := AnswerOf(llm(ThinkPrompt(question))).text;
    match Decide(thought)
    case SearchFor(query) => AnswerOf(llm(ActPrompt(question, search(query)))).text
    case AnswerWith(answer) => answer
    case Verbatim(t) => t
  }

  /** The answers of the model calls `run` makes for `question`, in order:
      the thought, and the act step when the thought asks for a search. */
  function Calls(question: string, llm: Prompt -> LlmOutcome, search: string -> string): (cs: seq<LlmAnswer>)
    ensures 1 <= |cs| <= 2 && cs[0] == AnswerOf(llm(ThinkPrompt(question)))
    ensures |cs| == 2 <==> Contains(cs[0].text, SearchMarker)
    ensures |cs| == 2 ==> Respond(question, llm, search) == cs[1].text
  {
    var think := AnswerOf(llm(ThinkPrompt(question)));
    match Decide(think.text)
    case SearchFor(query) => [think, AnswerOf(llm(ActPrompt(question, search(query))))]
    case _ => [think]
  }

  function TokensOf(cs: seq<LlmAnswer>): nat {
    if cs == [] then 0 else TokensOf(cs[..|cs| - 1]) + cs[|cs| - 1].tokens
  }

  function CostOf(cs: seq<LlmAnswer>): real {
    if cs == [] then 0.0 else CostOf(cs[..|cs| - 1]) + cs[|cs| - 1].cost
  }

  lemma TotalsOfCalls(a: LlmAnswer, b: LlmAnswer)
    ensures TokensOf([a]) == a.tokens && CostOf([a]) == a.cost
    ensures TokensOf([a, b]) == a.tokens + b.tokens && CostOf([a, b]) == a.cost + b.cost
  {
    assert [a, b][..1] == [a];
    assert [a][..0] == [];
  }

  /** The payload after the one marker of `before + marker + after` is `after`, trimmed. */
  lemma PayloadAfterOnlyMarker(before: string, marker: string, after: string)
    requires |marker| > 0 && Borderless(marker)
    requires !Contains(before, marker) && !Contains(after, marker)
    ensures Contains(before + marker + after, marker)
    ensures Payload(before + marker + after, marker) == Strip(after)
  {
    var thought := before + marker + after;
    var start := |before| + |marker|;
    assert OccursAt(thought, marker, |before|) by {
      assert thought[|before|..start] == marker;
    }
    FirstOccurrenceAfter(before, marker, after);
    PayloadBetweenMarkers(thought, marker);
    assert thought[start..] == after;
  }

  /** A direct answer closing the thought is returned trimmed. */
  lemma DirectAnswer(question: string, llm: Prompt -> LlmOutcome, search: string -> string, before: string, answer: string)
    requires AnswerOf(llm(ThinkPrompt(question))).text == before + AnswerMarker + answer
    requires !Contains(before + AnswerMarker + answer, SearchMarker)
    requires !Contains(before, AnswerMarker) && !Contains(answer, AnswerMarker)
    ensures Respond(question, llm, search) == Strip(answer)
  {
    AnswerMarkerIsBorderless();
    PayloadAfterOnlyMarker(before, AnswerMarker, answer);
  }

  /** No proper prefix of `marker` is also a suffix of it, so two
      occurrences of it can never overlap. */
  predicate Borderless(marker: string) {
    forall d :: 0 < d < |marker| ==> marker[d..] != marker[..|marker| - d]
  }

  lemma AnswerMarkerIsBorderless()
    ensures Borderless(AnswerMarker)
  {
    forall d | 0 < d < |AnswerMarker| ensures AnswerMarker[d..] != AnswerMarker[..|AnswerMarker| - d] {
      assert AnswerMarker[d..][0] != 'A' == AnswerMarker[..|AnswerMarker| - d][0];
    }
  }

  /** In `before + marker + after`, with no marker inside `before` or `after`,
      the marker is found right after `before` and not again. */
  lemma FirstOccurrenceAfter(before: string, marker: string, after: string)
    requires |marker| > 0 && Borderless(marker)
    requires !Contains(before, marker) && !Contains(after, marker)
    ensures FindFirst(before + marker + after, marker) == Some(|before|)
    ensures FindFrom(before + marker + after, marker, |before| + |marker|).None?
  {
    var s := before + marker + after;
    assert OccursAt(s, marker, |before|) by { assert s[|before|..|before| + |marker|] == marker; }
    NoOccurrenceBefore(before, marker, after);
    NoOccurrenceAfter(before, marker, after);
    FindFromIsFirst(s, marker, 0, |before|);
  }

  lemma NoOccurrenceBefore(before: string, marker: string, after: string)
    requires |marker| > 0 && Borderless(marker) && !Contains(before, marker)
    ensures forall j :: 0 <= j < |before| ==> !OccursAt(before + marker + after, marker, j)
  {
    var s := before + marker + after;
    assert OccursAt(s, marker, |before|) by { assert s[|before|..|before| + |marker|] == marker; }
    forall j | 0 <= j < |before| ensures !OccursAt(s, marker, j) {
      if OccursAt(s, marker, j) {
        if j + |marker| <= |before| {
          assert before[j..j + |marker|] == s[j..j + |marker|];
          assert OccursAt(before, marker, j);
        } else {
          OverlapGivesBorder(s, marker, j, |before|);
        }
      }
    }
  }

  lemma NoOccurrenceAfter(before: string, marker: string, after: string)
    requires |marker| > 0 && Borderless(marker) && !Contains(after, marker)
    ensures forall j :: |before| < j ==> !OccursAt(before + marker + after, marker, j)
  {
    var s := before + marker + after;
    var n := |before| + |marker|;
    assert OccursAt(s, marker, |before|) by { assert s[|before|..n] == marker; }
    forall j | |before| < j ensures !OccursAt(s, marker, j) {
      if OccursAt(s, marker, j) {
        if j < n {
          OverlapGivesBorder(s, marker, |before|, j);
        } else {
          assert after[j - n..j - n + |marker|] == s[j..j + |marker|];
          assert OccursAt(after, marker, j - n);
        }
      }
    }
  }

  /** Two occurrences of `marker` less than its length apart make a suffix
      of it equal to a prefix. */
  lemma OverlapGivesBorder(s: string, marker: string, i: int, j: int)
    requires i < j < i + |marker|
    requires OccursAt(s, marker, i) && OccursAt(s, marker, j)
    ensures marker[j - i..] == marker[..|marker| - (j - i)]
  {
    var d := j - i;
    forall m | 0 <= m < |marker| - d ensures marker[d..][m] == marker[..|marker| - d][m] {
      assert marker[d + m] == s[i + d + m];
      assert marker[m] == s[j + m];
    }
  }

  lemma FindFromIsFirst(s: string, pat: string, start: nat, i: nat)
    requires start <= i && OccursAt(s, pat, i)
    requires forall j :: start <= j < i ==> !OccursAt(s, pat, j)
    ensures FindFrom(s, pat, start) == Some(i)
  {
  }

  /** `ReActAgent`: the model's name and the running totals of tokens and cost. */
  class ReActAgent {
    const model: string
    var totalTokens: nat
    var totalCost: real

    constructor ()
      ensures model == Model && totalTokens == 0 && totalCost == 0.0
    {
      model := Model;
      totalTokens := 0;
      totalCost := 0.0;
    }

    /** `call_llm`: the answer to one prompt, added to the running totals. */
    method CallLlm(llm: Prompt -> LlmOutcome, prompt: Prompt) returns (a: LlmAnswer)
      modifies this
      ensures a == AnswerOf(llm(prompt))
      ensures totalTokens == old(totalTokens) + a.tokens
      ensures totalCost == old(totalCost) + a.cost
    {
      match llm(prompt)
      case Completed(content, promptTokens, completionTokens, tokens) =>
        var cost := PriceOf(promptTokens, completionTokens);
        totalTokens := totalTokens + tokens;
        totalCost := totalCost + cost;
        a := LlmAnswer(content, tokens, cost);
      case LlmFailed(message) =>
        a := LlmAnswer("LLM error: " + message, 0, 0.0);
    }

    /** `run`: the response and the agent's running cost, which covers every
        question it has answered so far, not only this one. */
    method Run(llm: Prompt -> LlmOutcome, search: string -> string, question: string) returns (response: string, cost: real)
      modifies this
      ensures response == Respond(question, llm, search)
      ensures totalTokens == old(totalTokens) + TokensOf(Calls(question, llm, search))
      ensures totalCost == old(totalCost) + CostOf(Calls(question, llm, search))
      ensures cost == totalCost
    {
      var thought := CallLlm(llm, ThinkPrompt(question));
      if Contains(thought.text, SearchMarker) {
        var searchQuery := Payload(thought.text, SearchMarker);
        var searchResults := search(searchQuery);
        var act := CallLlm(llm, ActPrompt(question, searchResults));
        response := act.text;
        assert Calls(question, llm, search) == [thought, act];
        TotalsOfCalls(thought, act);
      } else if Contains(thought.text, AnswerMarker) {
        response := Payload(thought.text, AnswerMarker);
        assert Calls(question, llm, search) == [thought];
        TotalsOfCalls(thought, thought);
      } else {
        response := thought.text;
        assert Calls(question, llm, search) == [thought];
        TotalsOfCalls(thought, thought);
      }
      cost := totalCost;
    }
  }
}
