/** Text extraction from the three provider responses: each nested, fallible traversal against a
    flat one, and the contract they share. */
module Providers {
  import opened Wrappers
  import opened ProviderErrors
  import opened Text
  import opened CollectOutput

  /** Collecting an iterator of results: every value, or the first error met. */
  function CollectAll<T>(results: seq<Result<T, ProviderError>>): Result<seq<T>, ProviderError>
    decreases |results|
  {
    if results == [] then Success([])
    else
      var first :- results[0];
      var rest :- CollectAll(results[1..]);
      Success([first] + rest)
  }

  ghost predicate FirstErrorAt<T>(results: seq<Result<T, ProviderError>>, i: nat, error: ProviderError) {
    && i < |results| && results[i] == Failure(error)
    && forall j :: 0 <= j < i ==> results[j].Success?
  }

  ghost predicate HasFirstError<T>(results: seq<Result<T, ProviderError>>, error: ProviderError) {
    exists i: nat :: FirstErrorAt(results, i, error)
  }

  lemma FirstErrorIsUnique<T>(results: seq<Result<T, ProviderError>>, a: ProviderError, b: ProviderError)
    requires HasFirstError(results, a) && HasFirstError(results, b)
    ensures a == b
  {
    var i: nat :| FirstErrorAt(results, i, a);
    var j: nat :| FirstErrorAt(results, j, b);
    assert results[i].Failure? && results[j].Failure?;
  }

  lemma {:induction false} FindFirstError<T>(results: seq<Result<T, ProviderError>>)
    ensures CollectAll(results).Failure? ==> HasFirstError(results, CollectAll(results).error)
    ensures CollectAll(results).Success? ==>
              && |CollectAll(results).value| == |results|
              && forall i :: 0 <= i < |results| ==> results[i] == Success(CollectAll(results).value[i])
    decreases |results|
  {
    if results != [] {
      var tail := results[1..];
      FindFirstError(tail);
      if results[0].Failure? {
        assert FirstErrorAt(results, 0, results[0].error);
      } else if CollectAll(tail).Failure? {
        var i: nat :| FirstErrorAt(tail, i, CollectAll(tail).error);
        forall j | 0 <= j < i + 1 ensures results[j].Success? {
          assert j > 0 ==> results[j] == tail[j - 1];
        }
        assert FirstErrorAt(results, i + 1, CollectAll(tail).error);
      } else {
        forall i | 0 <= i < |results| ensures results[i] == Success(CollectAll(results).value[i]) {
          assert i > 0 ==> results[i] == tail[i - 1];
        }
      }
    }
  }

  /** Collecting fails exactly with the first error in order, and otherwise keeps every value in
      its place. */
  lemma {:induction false} CollectAllMeaning<T>(results: seq<Result<T, ProviderError>>, error: ProviderError)
    ensures CollectAll(results) == Failure(error) <==> HasFirstError(results, error)
    ensures CollectAll(results).Success? ==>
              && |CollectAll(results).value| == |results|
              && forall i :: 0 <= i < |results| ==> results[i] == Success(CollectAll(results).value[i])
  {
    FindFirstError(results);
    if HasFirstError(results, error) {
      var i: nat :| FirstErrorAt(results, i, error);
      assert results[i].Failure?;
      FirstErrorIsUnique(results, CollectAll(results).error, error);
    }
  }

  lemma {:induction false} CollectAllOfConcat<T>(a: seq<Result<T, ProviderError>>, b: seq<Result<T, ProviderError>>)
    ensures CollectAll(a + b) ==
            if CollectAll(a).Failure? then CollectAll(a)
            else if CollectAll(b).Failure? then CollectAll(b)
            else Success(CollectAll(a).value + CollectAll(b).value)
    decreases |a|
  {
    if a == [] {
      assert a + b == b;
      if CollectAll(b).Success? {
        assert [] + CollectAll(b).value == CollectAll(b).value;
      }
    } else {
      assert (a + b)[1..] == a[1..] + b;
      CollectAllOfConcat(a[1..], b);
      if a[0].Success? && CollectAll(a[1..]).Success? && CollectAll(b).Success? {
        var x, y := CollectAll(a[1..]).value, CollectAll(b).value;
        assert [a[0].value] + (x + y) == [a[0].value] + x + y;
      }
    }
  }

  // ---------------------------------------------------------------- OpenAI

  datatype OpenAiContent = OpenAiContent(kind: string, text: Option<string>)
  datatype OpenAiOutput = OpenAiOutput(kind: string, role: Option<string>,
    status: Option<string>, content: seq<OpenAiContent>)
  datatype OpenAiResponse = OpenAiResponse(status: string, hasError: bool,
    hasIncompleteDetails: bool, output: seq<OpenAiOutput>)

  function ContentText(content: OpenAiContent): Result<string, ProviderError> {
    if content.kind == "output_text" then
      (if content.text.Some? then Success(content.text.value) else Failure(MalformedResponse))
    else if content.kind == "refusal" then Failure(RejectedResponse)
    else Failure(UnsupportedResponse)
  }

  function ContentTexts(contents: seq<OpenAiContent>): (r: seq<Result<string, ProviderError>>)
    ensures |r| == |contents| && forall i :: 0 <= i < |r| ==> r[i] == ContentText(contents[i])
  {
    seq(|contents|, i requires 0 <= i < |contents| => ContentText(contents[i]))
  }

  /** One step of the outer fold over output items. */
  function FoldItem(texts: seq<string>, messages: nat, item: OpenAiOutput): Result<(seq<string>, nat), ProviderError> {
    if item.kind == "reasoning" && item.content == [] then Success((texts, messages))
    else if item.kind == "message" then
      if item.role != Some("assistant") || item.status != Some("completed") then Failure(IncompleteResponse)
      else
        var more :- CollectAll(ContentTexts(item.content));
        Success((texts + more, messages + 1))
    else Failure(UnsupportedResponse)
  }

  function FoldItems(texts: seq<string>, messages: nat, items: seq<OpenAiOutput>)
    : Result<(seq<string>, nat), ProviderError>
    decreases |items|
  {
    if items == [] then Success((texts, messages))
    else
      var next :- FoldItem(texts, messages, items[0]);
      FoldItems(next.0, next.1, items[1..])
  }

  predicate OpenAiComplete(response: OpenAiResponse) {
    response.status == "completed" && !response.hasError && !response.hasIncompleteDetails
  }

  function OpenAiText(response: OpenAiResponse, limit: Usize): Result<string, ProviderError> {
    if !OpenAiComplete(response) then Failure(IncompleteResponse)
    else
      var folded :- FoldItems([], 0, response.output);
      if folded.1 == 0 then Failure(EmptyResponse) else Collect(folded.0, limit)
  }

  /** An item laid flat: its header's fault, or the verdicts on its contents in order. */
  function FlatItem(item: OpenAiOutput): seq<Result<string, ProviderError>> {
    if item.kind == "reasoning" && item.content == [] then []
    else if item.kind != "message" then [Failure(UnsupportedResponse)]
    else if item.role != Some("assistant") || item.status != Some("completed") then [Failure(IncompleteResponse)]
    else ContentTexts(item.content)
  }

  function Flat(items: seq<OpenAiOutput>): seq<Result<string, ProviderError>> {
    if items == [] then [] else FlatItem(items[0]) + Flat(items[1..])
  }

  function Messages(items: seq<OpenAiOutput>): nat {
    if items == [] then 0 else (if items[0].kind == "message" then 1 else 0) + Messages(items[1..])
  }

  /** What a collected traversal adds to the fold's accumulator. */
  function Added(texts: seq<string>, messages: nat, collected: Result<seq<string>, ProviderError>, more: nat)
    : Result<(seq<string>, nat), ProviderError>
  {
    if collected.Failure? then Failure(collected.error) else Success((texts + collected.value, messages + more))
  }

  lemma AddedTwice(texts: seq<string>, messages: nat, first: seq<string>, a: nat,
    rest: Result<seq<string>, ProviderError>, b: nat)
    ensures rest.Success? ==>
              Added(texts + first, messages + a, rest, b)
              == Added(texts, messages, Success(first + rest.value), a + b)
    ensures rest.Failure? ==> Added(texts + first, messages + a, rest, b) == Failure(rest.error)
  {
    if rest.Success? {
      assert texts + first + rest.value == texts + (first + rest.value);
    }
  }

  lemma {:induction false} FoldItemsIsFlat(texts: seq<string>, messages: nat, items: seq<OpenAiOutput>)
    ensures FoldItems(texts, messages, items) == Added(texts, messages, CollectAll(Flat(items)), Messages(items))
    decreases |items|
  {
    if items == [] {
      assert texts + [] == texts;
    } else {
      var item, rest := items[0], items[1..];
      var first := CollectAll(FlatItem(item));
      CollectAllOfConcat(FlatItem(item), Flat(rest));
      FlatItemVerdict(texts, messages, item);
      if first.Success? {
        var counted := if item.kind == "message" then 1 else 0;
        FoldItemsIsFlat(texts + first.value, messages + counted, rest);
        AddedTwice(texts, messages, first.value, counted, CollectAll(Flat(rest)), Messages(rest));
      }
    }
  }

  lemma FlatItemVerdict(texts: seq<string>, messages: nat, item: OpenAiOutput)
    ensures FoldItem(texts, messages, item) ==
            Added(texts, messages, CollectAll(FlatItem(item)), if item.kind == "message" then 1 else 0)
  {
    assert texts + [] == texts;
    assert "message" != "reasoning" by { assert "message"[0] != "reasoning"[0]; }
    var faults: seq<Result<string, ProviderError>> := [Failure(UnsupportedResponse)];
    assert CollectAll(faults) == Failure(UnsupportedResponse);
  }

  lemma {:induction false} NoMessagesNoTexts(items: seq<OpenAiOutput>)
    requires Messages(items) == 0 && CollectAll(Flat(items)).Success?
    ensures Flat(items) == []
  {
    if items != [] {
      CollectAllOfConcat(FlatItem(items[0]), Flat(items[1..]));
      NoMessagesNoTexts(items[1..]);
    }
  }

  /** The nested fold is the flat traversal: the first fault in document order wins, over any size
      or emptiness error; otherwise the texts of all messages, joined under the bound. The separate
      check for zero messages never changes the outcome. */
  lemma OpenAiIsFlatTraversal(response: OpenAiResponse, limit: Usize)
    requires OpenAiComplete(response)
    ensures OpenAiText(response, limit) ==
            match CollectAll(Flat(response.output))
            case Failure(error) => Failure(error)
            case Success(texts) => Joined(texts, limit)
  {
    var items := response.output;
    FoldItemsIsFlat([], 0, items);
    if CollectAll(Flat(items)).Success? {
      var texts := CollectAll(Flat(items)).value;
      assert [] + texts == texts;
      CollectIsJoined(texts, limit);
      if Messages(items) == 0 {
        NoMessagesNoTexts(items);
      }
    }
  }

  // ---------------------------------------------------------------- Anthropic

  datatype AnthropicContent = AnthropicContent(kind: string, text: Option<string>,
    thinking: Option<string>, signature: Option<string>)
  datatype AnthropicResponse = AnthropicResponse(kind: string, role: string,
    stopReason: string, content: seq<AnthropicContent>)

  /** A text part, an accepted but silent thinking block, or a fault. */
  function AnthropicPart(content: AnthropicContent): Result<Option<string>, ProviderError> {
    if content.kind == "text" then
      if content.thinking.Some? || content.signature.Some? then Failure(UnsupportedResponse)
      else if content.text.None? then Failure(MalformedResponse)
      else Success(content.text)
    else if content.kind == "thinking" && content.text.None? && content.thinking == Some("")
            && content.signature.Some? && content.signature.value != "" then Success(None)
    else Failure(UnsupportedResponse)
  }

  function AnthropicParts(contents: seq<AnthropicContent>): (r: seq<Result<Option<string>, ProviderError>>)
    ensures |r| == |contents| && forall i :: 0 <= i < |r| ==> r[i] == AnthropicPart(contents[i])
  {
    seq(|contents|, i requires 0 <= i < |contents| => AnthropicPart(contents[i]))
  }

  function Flatten(options: seq<Option<string>>): seq<string> {
    if options == [] then [] else (if options[0].Some? then [options[0].value] else []) + Flatten(options[1..])
  }

  function AnthropicGate(response: AnthropicResponse): Option<ProviderError> {
    if response.kind != "message" || response.role != "assistant" then Some(MalformedResponse)
    else if response.stopReason == "end_turn" then None
    else if response.stopReason == "refusal" then Some(RejectedResponse)
    else if response.stopReason in ["max_tokens", "pause_turn", "model_context_window_exceeded"]
    then Some(IncompleteResponse)
    else Some(UnsupportedResponse)
  }

  function AnthropicText(response: AnthropicResponse, limit: Usize): Result<string, ProviderError> {
    if AnthropicGate(response).Some? then Failure(AnthropicGate(response).value)
    else
      var options :- CollectAll(AnthropicParts(response.content));
      Collect(Flatten(options), limit)
  }

  // ---------------------------------------------------------------- Gemini

  datatype GeminiPart = GeminiPart(text: Option<string>, thought: bool, hasOther: bool)
  datatype GeminiCandidate = GeminiCandidate(
    role: string, parts: seq<GeminiPart>, finishReason: Option<string>, blocked: seq<Option<bool>>)
  datatype GeminiResponse = GeminiResponse(candidates: seq<GeminiCandidate>, blockReason: Option<string>)

  function GeminiPartText(part: GeminiPart): Result<string, ProviderError> {
    if part.thought || part.hasOther || part.text.None? then Failure(UnsupportedResponse) else Success(part.text.value)
  }

  function GeminiParts(parts: seq<GeminiPart>): (r: seq<Result<string, ProviderError>>)
    ensures |r| == |parts| && forall i :: 0 <= i < |r| ==> r[i] == GeminiPartText(parts[i])
  {
    seq(|parts|, i requires 0 <= i < |parts| => GeminiPartText(parts[i]))
  }

  function GeminiGate(response: GeminiResponse): Option<ProviderError> {
    if response.blockReason.Some? then Some(RejectedResponse)
    else if |response.candidates| == 0 then Some(RejectedResponse)
    else if |response.candidates| > 1 then Some(UnsupportedResponse)
    else
      var candidate := response.candidates[0];
      if candidate.finishReason.None? || candidate.finishReason.value == "MAX_TOKENS" then Some(IncompleteResponse)
      else if candidate.finishReason.value in ["SAFETY", "RECITATION", "BLOCKLIST",
          "PROHIBITED_CONTENT", "SPII", "IMAGE_SAFETY"]
      then Some(RejectedResponse)
      else if candidate.finishReason.value != "STOP" then Some(UnsupportedResponse)
      else if Some(true) in candidate.blocked then Some(RejectedResponse)
      else if candidate.role != "model" then Some(MalformedResponse)
      else None
  }

  function GeminiText(response: GeminiResponse, limit: Usize): Result<string, ProviderError> {
    if GeminiGate(response).Some? then Failure(GeminiGate(response).value)
    else
      var texts :- CollectAll(GeminiParts(response.candidates[0].parts));
      Collect(texts, limit)
  }

  // ---------------------------------------------------------------- the shared contract

  datatype Response = OpenAi(openAi: OpenAiResponse) | Anthropic(anthropic: AnthropicResponse)
    | Gemini(gemini: GeminiResponse)

  function ExtractText(response: Response, limit: Usize): Result<string, ProviderError> {
    match response
    case OpenAi(r) => OpenAiText(r, limit)
    case Anthropic(r) => AnthropicText(r, limit)
    case Gemini(r) => GeminiText(r, limit)
  }

  function Silent(results: seq<Result<string, ProviderError>>): (r: seq<Result<Option<string>, ProviderError>>)
    ensures |r| == |results|
    ensures forall i :: 0 <= i < |r| ==> r[i] == if results[i].Success? then Success(Some(results[i].value))
              else Failure(results[i].error)
  {
    seq(|results|, i requires 0 <= i < |results| =>
      if results[i].Success? then Success(Some(results[i].value)) else Failure(results[i].error))
  }

  /** The fault that refuses a response before its parts are looked at. */
  function Gate(response: Response): Option<ProviderError> {
    match response
    case OpenAi(r) => if OpenAiComplete(r) then None else Some(IncompleteResponse)
    case Anthropic(r) => AnthropicGate(r)
    case Gemini(r) => GeminiGate(r)
  }

  /** What a response must be for its parts to be looked at at all. */
  ghost predicate Admitted(response: Response) {
    match response
    case OpenAi(r) => r.status == "completed" && !r.hasError && !r.hasIncompleteDetails
    case Anthropic(r) => r.kind == "message" && r.role == "assistant" && r.stopReason == "end_turn"
    case Gemini(r) =>
      && r.blockReason.None? && |r.candidates| == 1
      && r.candidates[0].finishReason == Some("STOP") && r.candidates[0].role == "model"
      && forall i :: 0 <= i < |r.candidates[0].blocked| ==> r.candidates[0].blocked[i] != Some(true)
  }

  lemma GateIffAdmitted(response: Response)
    ensures Gate(response).None? <==> Admitted(response)
  {
    match response
    case OpenAi(_) =>
    case Anthropic(r) =>
      assert "end_turn"[0] != "refusal"[0];
    case Gemini(r) =>
      assert "STOP"[1] != "SAFETY"[1] && |"STOP"| == 4 && |"SPII"| == 4 && "STOP"[1] != "SPII"[1];
  }

  /** The verdicts on the parts of an admitted response, in document order. */
  function PartVerdicts(response: Response): seq<Result<Option<string>, ProviderError>> {
    match response
    case OpenAi(r) => Silent(Flat(r.output))
    case Anthropic(r) => AnthropicParts(r.content)
    case Gemini(r) => if |r.candidates| == 1 then Silent(GeminiParts(r.candidates[0].parts)) else []
  }

  /** The texts of the accepted parts. */
  function AcceptedTexts(verdicts: seq<Result<Option<string>, ProviderError>>): seq<string> {
    if verdicts == [] then []
    else (if verdicts[0].Success? && verdicts[0].value.Some? then [verdicts[0].value.value] else [])
         + AcceptedTexts(verdicts[1..])
  }

  lemma {:induction false} SilentCollects(results: seq<Result<string, ProviderError>>)
    ensures CollectAll(results).Success? <==> CollectAll(Silent(results)).Success?
    ensures CollectAll(results).Success? ==> AcceptedTexts(Silent(results)) == CollectAll(results).value
    ensures CollectAll(results).Failure? ==> CollectAll(Silent(results)) == Failure(CollectAll(results).error)
    decreases |results|
  {
    if results != [] {
      SilentCollects(results[1..]);
      assert Silent(results)[1..] == Silent(results[1..]);
    }
  }

  lemma {:induction false} FlattenIsAccepted(verdicts: seq<Result<Option<string>, ProviderError>>)
    requires CollectAll(verdicts).Success?
    ensures Flatten(CollectAll(verdicts).value) == AcceptedTexts(verdicts)
    decreases |verdicts|
  {
    if verdicts != [] {
      FlattenIsAccepted(verdicts[1..]);
      assert CollectAll(verdicts).value[1..] == CollectAll(verdicts[1..]).value;
    }
  }

  /** All three extractors compute one thing: gate, then first fault, then the bounded join. */
  lemma ExtractIsUniform(response: Response, limit: Usize)
    ensures ExtractText(response, limit) ==
            if Gate(response).Some? then Failure(Gate(response).value)
            else match CollectAll(PartVerdicts(response))
                 case Failure(error) => Failure(error)
                 case Success(_) => Joined(AcceptedTexts(PartVerdicts(response)), limit)
  {
    if Gate(response).None? {
      match response
      case OpenAi(r) =>
        OpenAiIsFlatTraversal(r, limit);
        SilentCollects(Flat(r.output));
      case Anthropic(r) =>
        var verdicts := AnthropicParts(r.content);
        if CollectAll(verdicts).Success? {
          FlattenIsAccepted(verdicts);
          CollectIsJoined(Flatten(CollectAll(verdicts).value), limit);
        }
      case Gemini(r) =>
        var results := GeminiParts(r.candidates[0].parts);
        SilentCollects(results);
        if CollectAll(results).Success? {
          CollectIsJoined(CollectAll(results).value, limit);
        }
    }
  }

  /** Ok text, from any provider, is the newline-join of exactly the accepted non-blank texts,
      within the bound and not blank, and comes only from a response without a single fault; and
      one faulty part, at any position, makes the whole response the first such fault. */
  lemma UniformContract(response: Response, limit: Usize)
    ensures var r, verdicts := ExtractText(response, limit), PartVerdicts(response);
            && (r.Success? ==>
                  && Admitted(response)
                  && (forall i :: 0 <= i < |verdicts| ==> verdicts[i].Success?)
                  && r.value == Join("\n", NonBlank(AcceptedTexts(verdicts)))
                  && Utf8Len(r.value) <= limit && !AllWhitespace(r.value))
            && (Admitted(response) && (exists i :: 0 <= i < |verdicts| && verdicts[i].Failure?) ==>
                  r.Failure? && HasFirstError(verdicts, r.error))
  {
    GateIffAdmitted(response);
    ExtractIsUniform(response, limit);
    var verdicts := PartVerdicts(response);
    FindFirstError(verdicts);
    CollectIsJoined(AcceptedTexts(verdicts), limit);
    CollectMeaning(AcceptedTexts(verdicts), limit);
  }

  // ---------------------------------------------------------------- said of the response itself

  ghost predicate AcceptableContent(c: OpenAiContent) {
    c.kind == "output_text" && c.text.Some?
  }

  ghost predicate AcceptableItem(item: OpenAiOutput) {
    || (item.kind == "reasoning" && item.content == [])
    || (item.kind == "message" && item.role == Some("assistant") && item.status == Some("completed")
        && forall i :: 0 <= i < |item.content| ==> AcceptableContent(item.content[i]))
  }

  ghost predicate AcceptableItems(items: seq<OpenAiOutput>) {
    forall i :: 0 <= i < |items| ==> AcceptableItem(items[i])
  }

  ghost predicate AcceptableBlock(c: AnthropicContent) {
    || (c.kind == "text" && c.text.Some? && c.thinking.None? && c.signature.None?)
    || (c.kind == "thinking" && c.text.None? && c.thinking == Some("") && c.signature.Some? && c.signature != Some(""))
  }

  ghost predicate AcceptablePart(p: GeminiPart) {
    p.text.Some? && !p.thought && !p.hasOther
  }

  ghost predicate AcceptableParts(parts: seq<GeminiPart>) {
    forall i :: 0 <= i < |parts| ==> AcceptablePart(parts[i])
  }

  /** Every part of the response is one the extractor takes. */
  ghost predicate Acceptable(response: Response) {
    match response
    case OpenAi(r) => AcceptableItems(r.output)
    case Anthropic(r) => forall i :: 0 <= i < |r.content| ==> AcceptableBlock(r.content[i])
    case Gemini(r) => r.candidates != [] && AcceptableParts(r.candidates[0].parts)
  }

  function ContentValues(contents: seq<OpenAiContent>): seq<string> {
    if contents == [] then []
    else (if contents[0].text.Some? then [contents[0].text.value] else []) + ContentValues(contents[1..])
  }

  function ItemValues(items: seq<OpenAiOutput>): seq<string> {
    if items == [] then [] else ContentValues(items[0].content) + ItemValues(items[1..])
  }

  function BlockValues(contents: seq<AnthropicContent>): seq<string> {
    if contents == [] then []
    else (if contents[0].text.Some? then [contents[0].text.value] else []) + BlockValues(contents[1..])
  }

  function PartValues(parts: seq<GeminiPart>): seq<string> {
    if parts == [] then []
    else (if parts[0].text.Some? then [parts[0].text.value] else []) + PartValues(parts[1..])
  }

  /** Every text in the response, in document order. */
  function TextsOf(response: Response): seq<string> {
    match response
    case OpenAi(r) => ItemValues(r.output)
    case Anthropic(r) => BlockValues(r.content)
    case Gemini(r) => if r.candidates == [] then [] else PartValues(r.candidates[0].parts)
  }

  lemma {:induction false} CollectsIff<T>(results: seq<Result<T, ProviderError>>)
    ensures CollectAll(results).Success? <==> forall i :: 0 <= i < |results| ==> results[i].Success?
  {
    FindFirstError(results);
    if CollectAll(results).Failure? {
      var i: nat :| FirstErrorAt(results, i, CollectAll(results).error);
      assert results[i].Failure?;
    }
  }

  lemma {:induction false} MessageTexts(contents: seq<OpenAiContent>)
    requires CollectAll(ContentTexts(contents)).Success?
    ensures CollectAll(ContentTexts(contents)).value == ContentValues(contents)
  {
    if contents == [] {
      assert ContentTexts(contents) == [];
    } else {
      assert ContentTexts(contents)[1..] == ContentTexts(contents[1..]);
      MessageTexts(contents[1..]);
    }
  }

  lemma {:induction false} ContentsAccepted(contents: seq<OpenAiContent>)
    ensures CollectAll(ContentTexts(contents)).Success? <==>
            forall i :: 0 <= i < |contents| ==> AcceptableContent(contents[i])
    ensures CollectAll(ContentTexts(contents)).Success? ==>
              CollectAll(ContentTexts(contents)).value == ContentValues(contents)
  {
    CollectsIff(ContentTexts(contents));
    if CollectAll(ContentTexts(contents)).Success? {
      MessageTexts(contents);
    }
  }

  lemma ItemAccepted(item: OpenAiOutput)
    ensures CollectAll(FlatItem(item)).Success? <==> AcceptableItem(item)
    ensures AcceptableItem(item) ==> CollectAll(FlatItem(item)).value == ContentValues(item.content)
  {
    ContentsAccepted(item.content);
    assert "message" != "reasoning" by { assert "message"[0] != "reasoning"[0]; }
    var faults: seq<Result<string, ProviderError>> := FlatItem(item);
    if |faults| == 1 && faults[0].Failure? {
      assert CollectAll(faults).Failure?;
    }
  }

  lemma {:induction false} ItemsAccepted(items: seq<OpenAiOutput>)
    ensures CollectAll(Flat(items)).Success? <==> AcceptableItems(items)
    ensures CollectAll(Flat(items)).Success? ==> CollectAll(Flat(items)).value == ItemValues(items)
  {
    if items != [] {
      ItemAccepted(items[0]);
      ItemsAccepted(items[1..]);
      CollectAllOfConcat(FlatItem(items[0]), Flat(items[1..]));
      assert AcceptableItems(items) <==> AcceptableItem(items[0]) && AcceptableItems(items[1..]);
    }
  }

  lemma BlockAccepted(c: AnthropicContent)
    ensures AnthropicPart(c).Success? <==> AcceptableBlock(c)
    ensures AnthropicPart(c).Success? ==> AnthropicPart(c).value == c.text
  {
    assert "text" != "thinking" by { assert |"text"| != |"thinking"|; }
  }

  lemma {:induction false} BlockTexts(contents: seq<AnthropicContent>)
    requires CollectAll(AnthropicParts(contents)).Success?
    ensures AcceptedTexts(AnthropicParts(contents)) == BlockValues(contents)
  {
    if contents == [] {
      assert AnthropicParts(contents) == [];
    } else {
      assert AnthropicParts(contents)[1..] == AnthropicParts(contents[1..]);
      BlockAccepted(contents[0]);
      BlockTexts(contents[1..]);
    }
  }

  lemma {:induction false} BlocksAccepted(contents: seq<AnthropicContent>)
    ensures CollectAll(AnthropicParts(contents)).Success? <==>
            forall i :: 0 <= i < |contents| ==> AcceptableBlock(contents[i])
    ensures CollectAll(AnthropicParts(contents)).Success? ==>
              AcceptedTexts(AnthropicParts(contents)) == BlockValues(contents)
  {
    CollectsIff(AnthropicParts(contents));
    forall i | 0 <= i < |contents| ensures AnthropicParts(contents)[i].Success? <==> AcceptableBlock(contents[i]) {
      BlockAccepted(contents[i]);
    }
    if CollectAll(AnthropicParts(contents)).Success? {
      BlockTexts(contents);
    }
  }

  lemma {:induction false} PartTexts(parts: seq<GeminiPart>)
    requires CollectAll(GeminiParts(parts)).Success?
    ensures CollectAll(GeminiParts(parts)).value == PartValues(parts)
  {
    if parts == [] {
      assert GeminiParts(parts) == [];
    } else {
      assert GeminiParts(parts)[1..] == GeminiParts(parts[1..]);
      PartTexts(parts[1..]);
    }
  }

  lemma {:induction false} PartsAccepted(parts: seq<GeminiPart>)
    ensures CollectAll(GeminiParts(parts)).Success? <==>
            forall i :: 0 <= i < |parts| ==> AcceptablePart(parts[i])
    ensures CollectAll(GeminiParts(parts)).Success? ==> CollectAll(GeminiParts(parts)).value == PartValues(parts)
  {
    CollectsIff(GeminiParts(parts));
    if CollectAll(GeminiParts(parts)).Success? {
      PartTexts(parts);
    }
  }

  /** An admitted response has no faulty verdict exactly when each of its parts is acceptable, and
      the accepted texts are then all the texts it holds, in document order. */
  lemma FaultlessIffAcceptable(response: Response)
    requires Admitted(response)
    ensures CollectAll(PartVerdicts(response)).Success? <==> Acceptable(response)
    ensures Acceptable(response) ==> AcceptedTexts(PartVerdicts(response)) == TextsOf(response)
  {
    match response
    case OpenAi(r) =>
      ItemsAccepted(r.output);
      SilentCollects(Flat(r.output));
    case Anthropic(r) => BlocksAccepted(r.content);
    case Gemini(r) =>
      var parts := r.candidates[0].parts;
      PartsAccepted(parts);
      SilentCollects(GeminiParts(parts));
  }

  /** The whole contract of the three extractors, in terms of the response alone: they return a
      text exactly when the response is admitted, every part is acceptable, and the newline-join of
      its non-blank texts is that text, is not empty and fits the bound. */
  lemma {:induction false} ExtractsExactly(response: Response, limit: Usize, text: string)
    ensures ExtractText(response, limit) == Success(text) <==>
            && Admitted(response) && Acceptable(response)
            && NonBlank(TextsOf(response)) != []
            && text == Join("\n", NonBlank(TextsOf(response))) && Utf8Len(text) <= limit
  {
    GateIffAdmitted(response);
    ExtractIsUniform(response, limit);
    if Admitted(response) {
      FaultlessIffAcceptable(response);
    }
  }

  // ---------------------------------------------------------------- which error

  /** Why a response is refused before its parts are looked at: never for more than one reason, and
      for none exactly when it is admitted. */
  ghost predicate RefusedWith(response: Response, error: ProviderError) {
    match response
    case OpenAi(r) => error == IncompleteResponse && !Admitted(response)
    case Anthropic(r) =>
      var shaped := r.kind == "message" && r.role == "assistant";
      var cut := r.stopReason in {"max_tokens", "pause_turn", "model_context_window_exceeded"};
      || (error == MalformedResponse && !shaped)
      || (error == RejectedResponse && shaped && r.stopReason == "refusal")
      || (error == IncompleteResponse && shaped && cut)
      || (error == UnsupportedResponse && shaped && !cut && r.stopReason !in {"end_turn", "refusal"})
    case Gemini(r) =>
      if r.blockReason.Some? || |r.candidates| != 1 then
        error == if r.blockReason.None? && |r.candidates| > 1 then UnsupportedResponse else RejectedResponse
      else CandidateRefusedWith(r.candidates[0], error)
  }

  ghost predicate CandidateRefusedWith(c: GeminiCandidate, error: ProviderError) {
    var unsafe := c.finishReason in {Some("SAFETY"), Some("RECITATION"), Some("BLOCKLIST"),
                                     Some("PROHIBITED_CONTENT"), Some("SPII"), Some("IMAGE_SAFETY")};
    var stopped := c.finishReason == Some("STOP");
    || (error == IncompleteResponse && c.finishReason in {None, Some("MAX_TOKENS")})
    || (error == RejectedResponse && (unsafe || (stopped && Some(true) in c.blocked)))
    || (error == MalformedResponse && stopped && Some(true) !in c.blocked && c.role != "model")
    || (error == UnsupportedResponse && !stopped && !unsafe && c.finishReason !in {None, Some("MAX_TOKENS")})
  }

  lemma StopReasonsDiffer(s: string)
    ensures s == "end_turn" ==> s !in {"refusal", "max_tokens", "pause_turn", "model_context_window_exceeded"}
    ensures s == "refusal" ==> s !in {"max_tokens", "pause_turn", "model_context_window_exceeded"}
  {
    assert |"end_turn"| == 8 && |"refusal"| == 7 && |"max_tokens"| == 10 && |"pause_turn"| == 10;
  }

  lemma FinishReasonsDiffer(s: string)
    ensures s == "STOP" ==>
              s !in {"MAX_TOKENS", "SAFETY", "RECITATION", "BLOCKLIST", "PROHIBITED_CONTENT", "SPII", "IMAGE_SAFETY"}
    ensures s == "MAX_TOKENS" ==>
              s !in {"SAFETY", "RECITATION", "BLOCKLIST", "PROHIBITED_CONTENT", "SPII", "IMAGE_SAFETY"}
  {
    assert "STOP"[1] != "SPII"[1];
    assert |"STOP"| == 4 && |"MAX_TOKENS"| == 10 && |"SAFETY"| == 6 && |"BLOCKLIST"| == 9;
    assert "MAX_TOKENS"[0] != "RECITATION"[0];
  }

  lemma AnthropicGateNames(r: AnthropicResponse, error: ProviderError)
    ensures AnthropicGate(r) == Some(error) <==> RefusedWith(Anthropic(r), error)
  {
    StopReasonsDiffer(r.stopReason);
  }

  lemma GeminiGateNames(r: GeminiResponse, error: ProviderError)
    ensures GeminiGate(r) == Some(error) <==> RefusedWith(Gemini(r), error)
  {
    if |r.candidates| == 1 && r.candidates[0].finishReason.Some? {
      FinishReasonsDiffer(r.candidates[0].finishReason.value);
    }
  }

  lemma GateNamesTheReason(response: Response, error: ProviderError)
    ensures Gate(response) == Some(error) <==> RefusedWith(response, error)
  {
    match response
    case OpenAi(_) => GateIffAdmitted(response);
    case Anthropic(r) => AnthropicGateNames(r, error);
    case Gemini(r) => GeminiGateNames(r, error);
  }

  /** And the extractors fail exactly so: refused as a whole, or else with the first fault of a part
      in document order, or else because nothing is left to return or too much. */
  lemma ExtractFailsExactly(response: Response, limit: Usize, error: ProviderError)
    ensures ExtractText(response, limit) == Failure(error) <==>
            || RefusedWith(response, error)
            || (Admitted(response) && HasFirstError(PartVerdicts(response), error))
            || (Admitted(response) && Acceptable(response) && LeftoverFault(NonBlank(TextsOf(response)), limit, error))
  {
    GateNamesTheReason(response, error);
    GateIffAdmitted(response);
    ExtractIsUniform(response, limit);
    if Admitted(response) {
      FaultlessIffAcceptable(response);
      CollectAllMeaning(PartVerdicts(response), error);
    }
  }

  ghost predicate LeftoverFault(texts: seq<string>, limit: Usize, error: ProviderError) {
    || (error == EmptyResponse && texts == [])
    || (error == Exceeded("output") && texts != [] && Utf8Len(Join("\n", texts)) > limit)
  }

  /** Why a part is refused. */
  ghost predicate ContentFault(c: OpenAiContent, error: ProviderError) {
    || (error == MalformedResponse && c.kind == "output_text" && c.text.None?)
    || (error == RejectedResponse && c.kind == "refusal")
    || (error == UnsupportedResponse && c.kind !in {"output_text", "refusal"})
  }

  ghost predicate BlockFault(c: AnthropicContent, error: ProviderError) {
    || (error == MalformedResponse && c.kind == "text" && c.text.None? && c.thinking.None? && c.signature.None?)
    || (error == UnsupportedResponse && c.kind == "text" && (c.thinking.Some? || c.signature.Some?))
    || (error == UnsupportedResponse && c.kind != "text" && !AcceptableBlock(c))
  }

  lemma PartFaults(a: OpenAiContent, b: AnthropicContent, c: GeminiPart, error: ProviderError)
    ensures ContentText(a) == Failure(error) <==> ContentFault(a, error)
    ensures AnthropicPart(b) == Failure(error) <==> BlockFault(b, error)
    ensures GeminiPartText(c) == Failure(error) <==> error == UnsupportedResponse && !AcceptablePart(c)
  {
    BlockAccepted(b);
    assert |"output_text"| == 11 && |"refusal"| == 7 && |"text"| == 4 && |"thinking"| == 8;
  }

  /** The fault of an output item as a whole, before its contents. */
  ghost predicate ItemFault(item: OpenAiOutput, error: ProviderError) {
    || (error == IncompleteResponse && item.kind == "message"
        && (item.role != Some("assistant") || item.status != Some("completed")))
    || (error == UnsupportedResponse && item.kind != "message" && !(item.kind == "reasoning" && item.content == []))
  }

  /** An item fails with its own fault, or else with the first fault of its contents. */
  lemma ItemFails(item: OpenAiOutput, error: ProviderError)
    ensures CollectAll(FlatItem(item)) == Failure(error) <==>
            || ItemFault(item, error)
            || (item.kind == "message" && item.role == Some("assistant") && item.status == Some("completed")
                && HasFirstError(ContentTexts(item.content), error))
  {
    assert "message" != "reasoning" by { assert "message"[0] != "reasoning"[0]; }
    CollectAllMeaning(ContentTexts(item.content), error);
    var fault: seq<Result<string, ProviderError>> := FlatItem(item);
    if |fault| == 1 && fault[0].Failure? {
      assert CollectAll(fault) == Failure(fault[0].error);
    }
  }

  // ---------------------------------------------------------------- in document order

  lemma {:induction false} FlatOfAppend(a: seq<OpenAiOutput>, b: seq<OpenAiOutput>)
    ensures Flat(a + b) == Flat(a) + Flat(b)
    decreases |a|
  {
    if a == [] {
      assert a + b == b;
    } else {
      assert (a + b)[1..] == a[1..] + b;
      FlatOfAppend(a[1..], b);
      assert FlatItem(a[0]) + (Flat(a[1..]) + Flat(b)) == FlatItem(a[0]) + Flat(a[1..]) + Flat(b);
    }
  }

  lemma {:induction false} ItemValuesOfAppend(a: seq<OpenAiOutput>, b: seq<OpenAiOutput>)
    ensures ItemValues(a + b) == ItemValues(a) + ItemValues(b)
    decreases |a|
  {
    if a == [] {
      assert a + b == b;
    } else {
      assert (a + b)[1..] == a[1..] + b;
      ItemValuesOfAppend(a[1..], b);
    }
  }

  lemma {:induction false} ContentValuesOfAppend(a: seq<OpenAiContent>, b: seq<OpenAiContent>)
    ensures ContentValues(a + b) == ContentValues(a) + ContentValues(b)
    decreases |a|
  {
    if a == [] {
      assert a + b == b;
    } else {
      assert (a + b)[1..] == a[1..] + b;
      ContentValuesOfAppend(a[1..], b);
    }
  }

  lemma {:induction false} BlockValuesOfAppend(a: seq<AnthropicContent>, b: seq<AnthropicContent>)
    ensures BlockValues(a + b) == BlockValues(a) + BlockValues(b)
    decreases |a|
  {
    if a == [] {
      assert a + b == b;
    } else {
      assert (a + b)[1..] == a[1..] + b;
      BlockValuesOfAppend(a[1..], b);
    }
  }

  lemma {:induction false} PartValuesOfAppend(a: seq<GeminiPart>, b: seq<GeminiPart>)
    ensures PartValues(a + b) == PartValues(a) + PartValues(b)
    decreases |a|
  {
    if a == [] {
      assert a + b == b;
    } else {
      assert (a + b)[1..] == a[1..] + b;
      PartValuesOfAppend(a[1..], b);
    }
  }

  /** Texts come in document order: those of a response whose output is two stretches are those of
      the one and then of the other, and a single part gives its own text. */
  lemma {:induction false} TextsInDocumentOrder(
    a: seq<OpenAiOutput>, b: seq<OpenAiOutput>, item: OpenAiOutput, x: OpenAiContent, rest: seq<OpenAiContent>)
    ensures Flat(a + [item] + b) == Flat(a) + FlatItem(item) + Flat(b)
    ensures ItemValues(a + [item] + b) == ItemValues(a) + ContentValues(item.content) + ItemValues(b)
    ensures ContentValues([x] + rest) == (if x.text.Some? then [x.text.value] else []) + ContentValues(rest)
  {
    FlatOfAppend(a + [item], b);
    FlatOfAppend(a, [item]);
    assert Flat([item]) == FlatItem(item);
    ItemValuesOfAppend(a + [item], b);
    ItemValuesOfAppend(a, [item]);
    ContentValuesOfAppend([x], rest);
    assert ItemValues([item]) == ContentValues(item.content);
  }

  /** The same for the lists of the other two providers. */
  lemma {:induction false} PartsInDocumentOrder(
    a: seq<AnthropicContent>, b: seq<AnthropicContent>, x: AnthropicContent,
    c: seq<GeminiPart>, d: seq<GeminiPart>, y: GeminiPart)
    ensures BlockValues(a + [x] + b) ==
            BlockValues(a) + (if x.text.Some? then [x.text.value] else []) + BlockValues(b)
    ensures PartValues(c + [y] + d) == PartValues(c) + (if y.text.Some? then [y.text.value] else []) + PartValues(d)
  {
    BlockValuesOfAppend(a + [x], b);
    BlockValuesOfAppend(a, [x]);
    PartValuesOfAppend(c + [y], d);
    PartValuesOfAppend(c, [y]);
  }
}
