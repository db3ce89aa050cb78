/** The llm-proxy filter: a callback state machine that parses one request and its response, and bumps counters. */
module LlmFilter {
  import opened ByteText
  import opened SseFraming
  import opened LlmParsers

  datatype Kind = OpenAiKind | AnthropicKind | CustomKind

  datatype Counter = RequestTotal | RequestError | InputTokens | OutputTokens | TotalTokens

  /** One `IncrementCounterValue` call. */
  datatype Bump = Bump(counter: Counter, amount: nat, kind: Kind, model: string)

  /** The request and response decoders, per API kind, and the streaming payload decoders. */
  datatype Codec = Codec(
    request: (Kind, Bytes) -> Option<(string, bool)>,
    response: (Kind, Bytes) -> Option<LLMUsage>,
    json: Json)

  datatype SseParser = OpenAiStream(openai: Framed<OpenAi>) | AnthropicStream(anthropic: Framed<Anthropic>)

  /** Envoy's callbacks. `whole` is the complete body the filter reads back when it parses. */
  datatype Callback =
    | RequestHeaders(rule: Option<Kind>, endOfStream: bool, isJson: bool)
    | RequestBody(endOfStream: bool, whole: Bytes)
    | RequestTrailers(whole: Bytes)
    | ResponseHeaders(endOfStream: bool, ok: bool, isSse: bool, isJson: bool)
    | ResponseBody(chunks: seq<Bytes>, endOfStream: bool, whole: Bytes)
    | ResponseTrailers(whole: Bytes)

  /** `requestSent` and `gotChunk` say whether the two timestamps are set; `log` is the counter calls so far. */
  datatype State = State(
    matched: bool,
    hasError: bool,
    kind: Kind,
    parser: Option<SseParser>,
    model: string,
    isStream: bool,
    usage: LLMUsage,
    requestSent: bool,
    gotChunk: bool,
    log: seq<Bump>)

  const INIT: State := State(false, false, OpenAiKind, None, "", false, NO_USAGE, false, false, [])

  // ----- What each callback does. -----

  function NewParser(kind: Kind): SseParser {
    if kind.AnthropicKind? then AnthropicStream(Framed([], ANTHROPIC_INIT)) else OpenAiStream(Framed([], OPENAI_INIT))
  }

  function FeedParser(json: Json, p: SseParser, chunks: seq<Bytes>): SseParser {
    match p
    case OpenAiStream(f) => OpenAiStream(FeedAll(OpenAiParser(json), f, chunks))
    case AnthropicStream(f) => AnthropicStream(FeedAll(AnthropicParser(json), f, chunks))
  }

  /** The error the parser reported, or the usage it would finish with. */
  function ParserVerdict(p: SseParser): Verdict {
    match p
    case OpenAiStream(f) => OpenAiVerdict(f.st)
    case AnthropicStream(f) => AnthropicVerdict(f.st)
  }

  /** What `Finish` returns: the usage so far, never an error. */
  function ParserUsage(p: SseParser): LLMUsage {
    match p
    case OpenAiStream(f) => f.st.usage
    case AnthropicStream(f) => AnthropicUsage(f.st)
  }

  function OnError(f: State): State {
    f.(hasError := true,
       log := f.log + [Bump(RequestError, 1, f.kind, f.model)]
              + (if f.requestSent then [] else [Bump(RequestTotal, 1, f.kind, f.model)]))
  }

  function OnRequestSuccess(f: State): State {
    f.(requestSent := true, log := f.log + [Bump(RequestTotal, 1, f.kind, f.model)])
  }

  function TokenBumps(kind: Kind, model: string, u: LLMUsage): seq<Bump> {
    [Bump(InputTokens, u.input, kind, model), Bump(OutputTokens, u.output, kind, model),
     Bump(TotalTokens, u.total, kind, model)]
  }

  function OnResponseSuccess(f: State, u: LLMUsage): State {
    f.(usage := u, log := f.log + TokenBumps(f.kind, f.model, u))
  }

  function ParseRequestBody(c: Codec, f: State, whole: Bytes): State {
    if whole == [] || c.request(f.kind, whole).None? then OnError(f)
    else
      var (model, stream) := c.request(f.kind, whole).value;
      if model == "" then OnError(f.(model := model))
      else OnRequestSuccess(f.(model := model, isStream := stream))
  }

  function ParseResponseBody(c: Codec, f: State, whole: Bytes): State {
    if whole == [] || c.response(f.kind, whole).None? then OnError(f)
    else OnResponseSuccess(f, c.response(f.kind, whole).value)
  }

  function FinishResponse(c: Codec, f: State, whole: Bytes): State {
    match f.parser
    case None => ParseResponseBody(c, f, whole)
    case Some(p) => OnResponseSuccess(f, ParserUsage(p))
  }

  function Step(c: Codec, f: State, cb: Callback): State {
    match cb
    case RequestHeaders(rule, end, isJson) =>
      if rule.None? then f
      else
        var g := f.(matched := true, kind := rule.value);
        if end || !isJson then OnError(g) else g
    case RequestBody(end, whole) =>
      if !f.matched || f.hasError || !end then f else ParseRequestBody(c, f, whole)
    case RequestTrailers(whole) =>
      if !f.matched || f.hasError then f else ParseRequestBody(c, f, whole)
    case ResponseHeaders(end, ok, isSse, isJson) =>
      if !f.matched || f.hasError then f
      else if end || !ok then OnError(f)
      else if isSse then f.(parser := Some(NewParser(f.kind)))
      else if !isJson then OnError(f)
      else f
    case ResponseBody(chunks, end, whole) =>
      if !f.matched || f.hasError then f
      else
        var g := f.(gotChunk := true);
        if g.parser.Some? then
          var p := FeedParser(c.json, g.parser.value, chunks);
          if ParserVerdict(p).Failed? then OnError(g.(parser := Some(p)))
          else if end then FinishResponse(c, g.(parser := Some(p)), whole)
          else g.(parser := Some(p))
        else if end then FinishResponse(c, g, whole)
        else g
    case ResponseTrailers(whole) =>
      if !f.matched || f.hasError then f else FinishResponse(c, f, whole)
  }

  function Run(c: Codec, f: State, cbs: seq<Callback>): State
    decreases |cbs|
  {
    if cbs == [] then f else Run(c, Step(c, f, cbs[0]), cbs[1..])
  }

  lemma FeedParserAppend(json: Json, p: SseParser, a: seq<Bytes>, b: seq<Bytes>)
    ensures FeedParser(json, p, a + b) == FeedParser(json, FeedParser(json, p, a), b)
  {
    match p
    case OpenAiStream(f) => FeedAllAppend(OpenAiParser(json), f, a, b);
    case AnthropicStream(f) => FeedAllAppend(AnthropicParser(json), f, a, b);
  }

  lemma FailedParserStays(json: Json, p: SseParser, chunks: seq<Bytes>)
    requires ParserVerdict(p).Failed?
    ensures FeedParser(json, p, chunks) == p
  {
    match p
    case OpenAiStream(f) => FeedAllClosed(OpenAiParser(json), f, chunks);
    case AnthropicStream(f) => FeedAllClosed(AnthropicParser(json), f, chunks);
  }

  // ----- The filter object. -----

  class Filter {
    const codec: Codec
    var matched: bool
    var hasError: bool
    var kind: Kind
    var parser: Option<SseParser>
    var model: string
    var isStream: bool
    var usage: LLMUsage
    var requestSent: bool
    var gotChunk: bool
    var log: seq<Bump>

    ghost function St(): State
      reads this
    {
      State(matched, hasError, kind, parser, model, isStream, usage, requestSent, gotChunk, log)
    }

    constructor (codec: Codec)
      ensures St() == INIT && this.codec == codec
    {
      this.codec := codec;
      matched, hasError, kind, parser, model := false, false, OpenAiKind, None, "";
      isStream, usage, requestSent, gotChunk, log := false, NO_USAGE, false, false, [];
    }

    method Error()
      modifies this
      ensures St() == OnError(old(St()))
    {
      hasError := true;
      log := log + [Bump(RequestError, 1, kind, model)];
      if !requestSent {
        log := log + [Bump(RequestTotal, 1, kind, model)];
      } else {
        assert log + [] == log;
      }
    }

    method ParseRequest(whole: Bytes)
      modifies this
      ensures St() == ParseRequestBody(codec, old(St()), whole)
    {
      if whole == [] {
        Error();
        return;
      }
      var req := codec.request(kind, whole);
      if req.None? {
        Error();
        return;
      }
      model := req.value.0;
      if model == "" {
        Error();
        return;
      }
      isStream := req.value.1;
      requestSent := true;
      log := log + [Bump(RequestTotal, 1, kind, model)];
    }

    method ResponseSuccess(u: LLMUsage)
      modifies this
      ensures St() == OnResponseSuccess(old(St()), u)
    {
      usage := u;
      log := log + [Bump(InputTokens, u.input, kind, model)];
      log := log + [Bump(OutputTokens, u.output, kind, model)];
      log := log + [Bump(TotalTokens, u.total, kind, model)];
    }

    method ParseResponse(whole: Bytes)
      modifies this
      ensures St() == ParseResponseBody(codec, old(St()), whole)
    {
      if whole == [] {
        Error();
        return;
      }
      var resp := codec.response(kind, whole);
      if resp.None? {
        Error();
        return;
      }
      ResponseSuccess(resp.value);
    }

    method OnRequestHeaders(rule: Option<Kind>, endOfStream: bool, isJson: bool)
      modifies this
      ensures St() == Step(codec, old(St()), RequestHeaders(rule, endOfStream, isJson))
    {
      if rule.None? { return; }
      matched := true;
      kind := rule.value;
      if endOfStream {
        Error();
        return;
      }
      if !isJson {
        Error();
      }
    }

    method OnRequestBody(endOfStream: bool, whole: Bytes)
      modifies this
      ensures St() == Step(codec, old(St()), RequestBody(endOfStream, whole))
    {
      if !matched || hasError { return; }
      if !endOfStream { return; }
      ParseRequest(whole);
    }

    method OnRequestTrailers(whole: Bytes)
      modifies this
      ensures St() == Step(codec, old(St()), RequestTrailers(whole))
    {
      if !matched || hasError { return; }
      ParseRequest(whole);
    }

    method OnResponseHeaders(endOfStream: bool, ok: bool, isSse: bool, isJson: bool)
      modifies this
      ensures St() == Step(codec, old(St()), ResponseHeaders(endOfStream, ok, isSse, isJson))
    {
      if !matched || hasError { return; }
      if endOfStream {
        Error();
        return;
      }
      if !ok {
        Error();
        return;
      }
      if isSse {
        parser := Some(NewParser(kind));
        return;
      }
      if !isJson {
        Error();
      }
    }

    /** `Finish` of both parsers returns no error, so the error branch is never taken. */
    method FinishStreaming()
      requires parser.Some?
      modifies this
      ensures St() == OnResponseSuccess(old(St()), old(ParserUsage(parser.value)))
    {
      ResponseSuccess(ParserUsage(parser.value));
    }

    method OnResponseBody(chunks: seq<Bytes>, endOfStream: bool, whole: Bytes)
      requires parser.Some? && !hasError ==> !ParserVerdict(parser.value).Failed?
      modifies this
      ensures St() == Step(codec, old(St()), ResponseBody(chunks, endOfStream, whole))
    {
      if !matched || hasError { return; }
      gotChunk := true;
      if parser.Some? {
        ghost var p0 := parser.value;
        for k := 0 to |chunks|
          invariant parser.Some? && !ParserVerdict(parser.value).Failed?
          invariant FeedParser(codec.json, parser.value, chunks[k..]) == FeedParser(codec.json, p0, chunks)
          invariant St() == old(St()).(gotChunk := true, parser := parser)
        {
          FeedParserAppend(codec.json, parser.value, [chunks[k]], chunks[k + 1..]);
          assert chunks[k..] == [chunks[k]] + chunks[k + 1..];
          parser := Some(FeedParser(codec.json, parser.value, [chunks[k]]));
          if ParserVerdict(parser.value).Failed? {
            FailedParserStays(codec.json, parser.value, chunks[k + 1..]);
            Error();
            return;
          }
        }
        assert chunks[|chunks|..] == [];
        if endOfStream {
          FinishStreaming();
        }
        return;
      }
      if !endOfStream { return; }
      ParseResponse(whole);
    }

    method OnResponseTrailers(whole: Bytes)
      modifies this
      ensures St() == Step(codec, old(St()), ResponseTrailers(whole))
    {
      if !matched || hasError { return; }
      if parser.Some? {
        FinishStreaming();
      } else {
        ParseResponse(whole);
      }
    }
  }
}
