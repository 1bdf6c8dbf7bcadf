/**
 * The language-model fallback `/api/ai-sanitize` of worker/src/index.ts: a
 * URL without parameters is answered at once with full confidence;
 * otherwise the model is asked, through a single `sanitize_url` tool, to
 * split the parameter names into tracking and essential ones, and its tool
 * call is passed back. URL parsing, the model and `JSON.parse` are
 * parameters.
 */
module AiSanitize {
  import opened Base
  import opened Urls
  import opened Rules

  /** What the prompt tells the model about the URL. */
  datatype AiRequest = AiRequest(url: string, host: string, path: string, params: seq<string>)

  /** One entry of `response.tool_calls`. */
  datatype ToolCall = ToolCall(name: string, arguments: string)

  /** The decoded arguments of a `sanitize_url` call. */
  datatype AiArgs = AiArgs(
    sanitizedUrl: string,
    removedParams: seq<string>,
    keptParams: seq<string>,
    confidence: real,
    suggestedRule: Option<SuggestedRule>)

  /** The success payload; `error` is set only when the model gave no usable call. */
  datatype AiSuggestion = AiSuggestion(
    sanitizedUrl: string,
    confidence: real,
    removedParams: seq<string>,
    keptParams: seq<string>,
    suggestedRule: Option<SuggestedRule>,
    error: Option<string>)

  /**
   * 400 "Missing url", 400 "Invalid URL", and the two ways the handler
   * throws: the model call fails, or the tool arguments are not JSON.
   */
  datatype AiError = MissingUrl | InvalidUrl | ModelFailed | MalformedArguments

  /** What the handler calls out to: `new URL`, `AI.run` (None when it throws), `JSON.parse`. */
  datatype AiServices = AiServices(
    parse: string -> Option<Url>,
    ask: AiRequest -> Option<seq<ToolCall>>,
    decode: string -> Option<AiArgs>)

  const ToolName := "sanitize_url"
  const CouldNotAnalyze := "AI could not analyze URL"

  /**
   * The handler: the request body's `url` to the answer. A missing or empty
   * URL and one that does not parse are rejected before anything else; an
   * answer marked as a failure carries zero confidence, removes nothing and
   * suggests no rule.
   */
  function AiSanitizeUrl(s: AiServices, url: Option<string>): (r: Result<AiSuggestion, AiError>)
    ensures r == Err(MissingUrl) <==> url.None? || url.value == ""
    ensures r == Err(InvalidUrl) <==> url.Some? && url.value != "" && s.parse(url.value).None?
    ensures r.Ok? && r.value.error.Some? ==>
      r.value.error == Some(CouldNotAnalyze) && r.value.confidence == 0.0 &&
      r.value.removedParams == [] && r.value.suggestedRule.None? && r.value.sanitizedUrl == url.value
  {
    if url.None? || url.value == "" then Err(MissingUrl)
    else
      match s.parse(url.value)
      case None => Err(InvalidUrl)
      case Some(u) =>
        var params := Keys(u.query);
        if params == [] then Ok(AiSuggestion(url.value, 1.0, [], [], None, None))
        else
          match s.ask(AiRequest(url.value, u.host, u.path, params))
          case None => Err(ModelFailed)
          case Some(calls) =>
            if calls == [] || calls[0].name != ToolName then
              Ok(AiSuggestion(url.value, 0.0, [], params, None, Some(CouldNotAnalyze)))
            else
              match s.decode(calls[0].arguments)
              case None => Err(MalformedArguments)
              case Some(args) =>
                Ok(AiSuggestion(args.sanitizedUrl, args.confidence, args.removedParams, args.keptParams, args.suggestedRule, None))
  }

  /**
   * A URL without query parameters comes back unchanged with confidence 1
   * and nothing removed, and the model is never asked.
   */
  lemma NoParamsShortCircuit(s: AiServices, url: string, u: Url)
    requires url != "" && s.parse(url) == Some(u) && u.query == []
    ensures AiSanitizeUrl(s, Some(url)) == Ok(AiSuggestion(url, 1.0, [], [], None, None))
    ensures forall ask: AiRequest -> Option<seq<ToolCall>> :: AiSanitizeUrl(s.(ask := ask), Some(url)) == AiSanitizeUrl(s, Some(url))
  {
    assert Keys(u.query) == [];
  }

  /**
   * When the model answers without a `sanitize_url` call first, the answer
   * says so: zero confidence, the URL unchanged, every parameter kept, no
   * rule, and the failure message. It is never passed off as a result.
   */
  lemma NoToolCallIsReported(s: AiServices, url: string, u: Url, calls: seq<ToolCall>)
    requires url != "" && s.parse(url) == Some(u) && u.query != []
    requires s.ask(AiRequest(url, u.host, u.path, Keys(u.query))) == Some(calls)
    requires calls == [] || calls[0].name != ToolName
    ensures AiSanitizeUrl(s, Some(url)) == Ok(AiSuggestion(url, 0.0, [], Keys(u.query), None, Some(CouldNotAnalyze)))
  {
    assert Keys(u.query) != [] by {
      assert |Keys(u.query)| == |u.query|;
    }
  }

  /**
   * Only the first tool call counts: later calls never change the answer,
   * and a well-formed first call is passed back field for field, with no
   * failure marker.
   */
  lemma FirstToolCallDecides(s: AiServices, url: string, u: Url, first: ToolCall, rest: seq<ToolCall>, args: AiArgs)
    requires url != "" && s.parse(url) == Some(u) && u.query != []
    requires s.ask(AiRequest(url, u.host, u.path, Keys(u.query))) == Some([first] + rest)
    requires first.name == ToolName && s.decode(first.arguments) == Some(args)
    ensures AiSanitizeUrl(s, Some(url)) ==
      Ok(AiSuggestion(args.sanitizedUrl, args.confidence, args.removedParams, args.keptParams, args.suggestedRule, None))
  {
    assert Keys(u.query) != [] by {
      assert |Keys(u.query)| == |u.query|;
    }
    assert ([first] + rest)[0] == first;
  }

  /**
   * Every successful answer either comes from the model's tool call or is
   * one of the two fixed answers: confidence 1 for a URL without
   * parameters, or confidence 0 with the failure marker and every
   * parameter kept.
   */
  lemma AnswerOrigins(s: AiServices, url: string, u: Url)
    requires url != "" && s.parse(url) == Some(u)
    requires AiSanitizeUrl(s, Some(url)).Ok?
    ensures var r := AiSanitizeUrl(s, Some(url)).value;
      (u.query == [] && r.confidence == 1.0 && r.sanitizedUrl == url && r.error.None?) ||
      (r.error == Some(CouldNotAnalyze) && r.confidence == 0.0 && r.keptParams == Keys(u.query) && r.sanitizedUrl == url) ||
      (exists calls: seq<ToolCall>, args: AiArgs ::
        s.ask(AiRequest(url, u.host, u.path, Keys(u.query))) == Some(calls) && calls != [] &&
        calls[0].name == ToolName && s.decode(calls[0].arguments) == Some(args) &&
        r == AiSuggestion(args.sanitizedUrl, args.confidence, args.removedParams, args.keptParams, args.suggestedRule, None))
  {
    var params := Keys(u.query);
    assert |params| == |u.query|;
    if params != [] {
      var calls := s.ask(AiRequest(url, u.host, u.path, params)).value;
      if calls != [] && calls[0].name == ToolName {
        var args := s.decode(calls[0].arguments).value;
        assert s.ask(AiRequest(url, u.host, u.path, Keys(u.query))) == Some(calls);
      }
    }
  }
}
