/** What the llm-proxy filter counts over a whole stream of callbacks. */
module LlmLifecycle {
  import opened ByteText
  import opened SseFraming
  import opened LlmParsers
  import opened LlmFilter

  // ----- Legal callback sequences. -----

  /** How far one direction of the stream has got. */
  datatype Phase = Before | Open | Ended

  datatype Phases = Phases(request: Phase, response: Phase)

  /** Envoy's order in each direction: headers, then body pieces, then at most one end. The two directions may
      interleave freely. */
  predicate Allowed(ph: Phases, cb: Callback) {
    match cb
    case RequestHeaders(_, _, _) => ph.request.Before?
    case RequestBody(_, _) => ph.request.Open?
    case RequestTrailers(_) => ph.request.Open?
    case ResponseHeaders(_, _, _, _) => ph.response.Before?
    case ResponseBody(_, _, _) => ph.response.Open?
    case ResponseTrailers(_) => ph.response.Open?
  }

  function Advance(ph: Phases, cb: Callback): Phases {
    match cb
    case RequestHeaders(_, end, _) => ph.(request := if end then Ended else Open)
    case RequestBody(end, _) => if end then ph.(request := Ended) else ph
    case RequestTrailers(_) => ph.(request := Ended)
    case ResponseHeaders(end, _, _, _) => ph.(response := if end then Ended else Open)
    case ResponseBody(_, end, _) => if end then ph.(response := Ended) else ph
    case ResponseTrailers(_) => ph.(response := Ended)
  }

  predicate Legal(ph: Phases, cbs: seq<Callback>)
    decreases |cbs|
  {
    cbs == [] || (Allowed(ph, cbs[0]) && Legal(Advance(ph, cbs[0]), cbs[1..]))
  }

  // ----- Counting. -----

  function Count(log: seq<Bump>, c: Counter): nat
    decreases |log|
  {
    if log == [] then 0 else (if log[0].counter == c then 1 else 0) + Count(log[1..], c)
  }

  lemma {:induction false} CountAppend(a: seq<Bump>, b: seq<Bump>, c: Counter)
    ensures Count(a + b, c) == Count(a, c) + Count(b, c)
    decreases |a|
  {
    if a == [] {
      assert a + b == b;
    } else {
      assert (a + b)[1..] == a[1..] + b;
      CountAppend(a[1..], b, c);
    }
  }

  predicate IsToken(c: Counter) {
    c in {InputTokens, OutputTokens, TotalTokens}
  }

  ghost predicate NoTokensAfterError(log: seq<Bump>) {
    forall i, j :: 0 <= i < j < |log| && log[i].counter == RequestError ==> !IsToken(log[j].counter)
  }

  function TokensIn(log: seq<Bump>): seq<Bump>
    decreases |log|
  {
    if log == [] then []
    else if IsToken(log[0].counter) then [log[0]] + TokensIn(log[1..])
    else TokensIn(log[1..])
  }

  lemma {:induction false} TokensInAppend(a: seq<Bump>, b: seq<Bump>)
    ensures TokensIn(a + b) == TokensIn(a) + TokensIn(b)
    decreases |a|
  {
    if a == [] {
      assert a + b == b;
    } else {
      assert (a + b)[1..] == a[1..] + b;
      TokensInAppend(a[1..], b);
    }
  }

  /** The log, seen through what the lifecycle promises. */
  ghost predicate Tally(log: seq<Bump>, totals: nat, errors: nat, tokens: seq<Bump>) {
    && Count(log, RequestTotal) == totals
    && Count(log, RequestError) == errors
    && TokensIn(log) == tokens
    && NoTokensAfterError(log)
  }

  lemma OneBump(b: Bump)
    ensures Count([b], RequestTotal) == if b.counter.RequestTotal? then 1 else 0
    ensures Count([b], RequestError) == if b.counter.RequestError? then 1 else 0
    ensures TokensIn([b]) == if IsToken(b.counter) then [b] else []
  {
    assert [b][1..] == [];
  }

  /** Appending a bump that is no token. */
  lemma TallyAppend(log: seq<Bump>, b: Bump, totals: nat, errors: nat, tokens: seq<Bump>)
    requires Tally(log, totals, errors, tokens) && !IsToken(b.counter)
    ensures Tally(log + [b], totals + (if b.counter.RequestTotal? then 1 else 0),
                  errors + (if b.counter.RequestError? then 1 else 0), tokens)
  {
    OneBump(b);
    CountAppend(log, [b], RequestTotal);
    CountAppend(log, [b], RequestError);
    TokensInAppend(log, [b]);
    assert tokens + [] == tokens;
  }

  lemma ThreeBumps(kind: Kind, model: string, u: LLMUsage)
    ensures var b := TokenBumps(kind, model, u);
            Count(b, RequestTotal) == 0 && Count(b, RequestError) == 0 && TokensIn(b) == b
  {
    var b := TokenBumps(kind, model, u);
    OneBump(b[0]);
    OneBump(b[1]);
    OneBump(b[2]);
    assert b == [b[0]] + ([b[1]] + [b[2]]);
    TokensInAppend([b[1]], [b[2]]);
    TokensInAppend([b[0]], [b[1]] + [b[2]]);
    CountAppend([b[1]], [b[2]], RequestTotal);
    CountAppend([b[0]], [b[1]] + [b[2]], RequestTotal);
    CountAppend([b[1]], [b[2]], RequestError);
    CountAppend([b[0]], [b[1]] + [b[2]], RequestError);
  }

  lemma {:induction false} NoErrorCounted(log: seq<Bump>, i: nat)
    requires Count(log, RequestError) == 0 && i < |log|
    ensures log[i].counter != RequestError
    decreases i
  {
    if i > 0 { NoErrorCounted(log[1..], i - 1); }
  }

  /** Appending the token bumps when no error has been counted. */
  lemma TallyTokens(log: seq<Bump>, kind: Kind, model: string, u: LLMUsage, totals: nat)
    requires Tally(log, totals, 0, [])
    ensures Tally(log + TokenBumps(kind, model, u), totals, 0, TokenBumps(kind, model, u))
  {
    var b := TokenBumps(kind, model, u);
    ThreeBumps(kind, model, u);
    CountAppend(log, b, RequestTotal);
    CountAppend(log, b, RequestError);
    TokensInAppend(log, b);
    assert [] + b == b;
    forall i | 0 <= i < |log + b|
      ensures (log + b)[i].counter != RequestError
    {
      if i < |log| { NoErrorCounted(log, i); }
    }
  }

  // ----- The invariant. -----

  ghost predicate TokensBelong(f: State, tokens: seq<Bump>) {
    tokens == [] || exists model :: tokens == TokenBumps(f.kind, model, f.usage)
  }

  ghost predicate Inv(f: State, ph: Phases) {
    && (!f.matched ==> f.log == [] && !f.hasError && !f.requestSent && f.parser.None?)
    && (f.matched ==> !ph.request.Before?)
    && (f.requestSent ==> ph.request.Ended? && f.model != "")
    && (f.parser.Some? ==> !ph.response.Before?)
    && (f.parser.Some? && !f.hasError ==> !ParserVerdict(f.parser.value).Failed?)
    && Tally(f.log, if f.requestSent || f.hasError then 1 else 0, if f.hasError then 1 else 0, TokensIn(f.log))
    && TokensBelong(f, TokensIn(f.log))
    && (TokensIn(f.log) != [] ==> ph.response.Ended?)
  }

  lemma InitInv()
    ensures Inv(INIT, Phases(Before, Before))
  {
  }

  lemma ErrorKeepsTally(f: State, tokens: seq<Bump>)
    requires Tally(f.log, if f.requestSent then 1 else 0, 0, tokens) && !f.hasError
    ensures var g := OnError(f);
            Tally(g.log, 1, 1, tokens) && g.hasError && g == f.(hasError := true, log := g.log)
  {
    var e, t := Bump(RequestError, 1, f.kind, f.model), Bump(RequestTotal, 1, f.kind, f.model);
    TallyAppend(f.log, e, if f.requestSent then 1 else 0, 0, tokens);
    if f.requestSent {
      assert f.log + [e] + [] == f.log + [e];
    } else {
      TallyAppend(f.log + [e], t, 0, 1, tokens);
    }
  }

  lemma RequestParseKeepsInv(c: Codec, f: State, ph: Phases, whole: Bytes)
    requires Inv(f, ph) && f.matched && !f.hasError && ph.request.Open?
    ensures Inv(ParseRequestBody(c, f, whole), ph.(request := Ended))
  {
    var tokens := TokensIn(f.log);
    if whole == [] || c.request(f.kind, whole).None? {
      ErrorKeepsTally(f, tokens);
    } else {
      var (model, stream) := c.request(f.kind, whole).value;
      if model == "" {
        ErrorKeepsTally(f.(model := model), tokens);
      } else {
        TallyAppend(f.log, Bump(RequestTotal, 1, f.kind, model), 0, 0, tokens);
      }
    }
  }

  lemma ResponseEndKeepsInv(c: Codec, f: State, ph: Phases, whole: Bytes)
    requires Inv(f, ph) && f.matched && !f.hasError && ph.response.Open?
    ensures Inv(FinishResponse(c, f, whole), ph.(response := Ended))
  {
    var totals: nat := if f.requestSent then 1 else 0;
    assert TokensIn(f.log) == [];
    if f.parser.Some? {
      TallyTokens(f.log, f.kind, f.model, ParserUsage(f.parser.value), totals);
    } else if whole == [] || c.response(f.kind, whole).None? {
      ErrorKeepsTally(f, []);
    } else {
      TallyTokens(f.log, f.kind, f.model, c.response(f.kind, whole).value, totals);
    }
  }

  lemma StepKeepsInv(c: Codec, f: State, ph: Phases, cb: Callback)
    requires Inv(f, ph) && Allowed(ph, cb)
    ensures Inv(Step(c, f, cb), Advance(ph, cb))
  {
    if cb.RequestHeaders? {
      if cb.rule.Some? {
        var g := f.(matched := true, kind := cb.rule.value);
        assert TokensIn([]) == [];
        if cb.endOfStream || !cb.isJson { ErrorKeepsTally(g, []); }
      }
    } else if f.matched && !f.hasError {
      match cb
      case RequestBody(end, whole) => if end { RequestParseKeepsInv(c, f, ph, whole); }
      case RequestTrailers(whole) => RequestParseKeepsInv(c, f, ph, whole);
      case ResponseHeaders(end, ok, isSse, isJson) =>
        if end || !ok || (!isSse && !isJson) { ErrorKeepsTally(f, TokensIn(f.log)); }
      case ResponseBody(chunks, end, whole) => BodyKeepsInv(c, f, ph, chunks, end, whole);
      case ResponseTrailers(whole) => ResponseEndKeepsInv(c, f, ph, whole);
    }
  }

  lemma BodyKeepsInv(c: Codec, f: State, ph: Phases, chunks: seq<Bytes>, end: bool, whole: Bytes)
    requires Inv(f, ph) && f.matched && !f.hasError && ph.response.Open?
    ensures var cb := ResponseBody(chunks, end, whole); Inv(Step(c, f, cb), Advance(ph, cb))
  {
    var g := f.(gotChunk := true);
    if g.parser.Some? {
      var h := g.(parser := Some(FeedParser(c.json, g.parser.value, chunks)));
      if ParserVerdict(h.parser.value).Failed? {
        ErrorKeepsTally(h, TokensIn(f.log));
      } else if end {
        ResponseEndKeepsInv(c, h, ph, whole);
      }
    } else if end {
      ResponseEndKeepsInv(c, g, ph, whole);
    }
  }

  lemma {:induction false} RunKeepsInv(c: Codec, f: State, ph: Phases, cbs: seq<Callback>) returns (last: Phases)
    requires Inv(f, ph) && Legal(ph, cbs)
    ensures Inv(Run(c, f, cbs), last)
    decreases |cbs|
  {
    if cbs == [] {
      last := ph;
    } else {
      StepKeepsInv(c, f, ph, cbs[0]);
      last := RunKeepsInv(c, Step(c, f, cbs[0]), Advance(ph, cbs[0]), cbs[1..]);
    }
  }

  /** Over every legal callback sequence: the request is counted once if it has been parsed or has failed and not
      at all otherwise; at most one error; the three token counters are bumped together, at most once, with the
      usage of the response, and never after an error. */
  lemma CountedOnce(c: Codec, cbs: seq<Callback>)
    requires Legal(Phases(Before, Before), cbs)
    ensures var f := Run(c, INIT, cbs);
            && Count(f.log, RequestTotal) == (if f.requestSent || f.hasError then 1 else 0)
            && Count(f.log, RequestError) == (if f.hasError then 1 else 0)
            && TokensBelong(f, TokensIn(f.log))
            && NoTokensAfterError(f.log)
            && (!f.matched ==> f.log == [])
  {
    InitInv();
    var last := RunKeepsInv(c, INIT, Phases(Before, Before), cbs);
  }

  /** The filter itself does not check that the request has already been parsed: trailers after an end-of-stream
      body, which Envoy does not send, would count the request twice. */
  lemma TrailersAfterEndCountTwice(c: Codec, whole: Bytes, model: string)
    requires whole != [] && model != "" && c.request(OpenAiKind, whole) == Some((model, false))
    ensures var headers := RequestHeaders(Some(OpenAiKind), false, true);
            var cbs := [headers, RequestBody(true, whole), RequestTrailers(whole)];
            Count(Run(c, INIT, cbs).log, RequestTotal) == 2 && !Legal(Phases(Before, Before), cbs)
  {
    var h, b, t := RequestHeaders(Some(OpenAiKind), false, true), RequestBody(true, whole), RequestTrailers(whole);
    var cbs := [h, b, t];
    assert cbs[1..] == [b, t] && [b, t][1..] == [t] && [t][1..] == [];
    var f1 := Step(c, INIT, h);
    var f2 := Step(c, f1, b);
    var f3 := Step(c, f2, t);
    assert Run(c, f2, [t]) == f3;
    assert Run(c, f1, [b, t]) == f3;
    assert Run(c, INIT, cbs) == f3;
    var bump := Bump(RequestTotal, 1, OpenAiKind, model);
    assert f3.log == [bump] + [bump];
    OneBump(bump);
    CountAppend([bump], [bump], RequestTotal);
    assert !Legal(Phases(Ended, Before), [t]);
  }

  // ----- Streaming responses, whatever the callbacks. -----

  /** The body callbacks of a streamed response: its end is the last body callback's flag, or trailers. */
  function StreamCallbacks(bodies: seq<seq<Bytes>>, trailers: bool): seq<Callback>
    decreases |bodies|
  {
    if bodies == [] then (if trailers then [ResponseTrailers([])] else [])
    else [ResponseBody(bodies[0], !trailers && |bodies| == 1, [])] + StreamCallbacks(bodies[1..], trailers)
  }

  /** What a verdict adds to the log. */
  function VerdictBumps(f: State, v: Verdict): seq<Bump> {
    match v
    case Counted(u) => TokenBumps(f.kind, f.model, u)
    case Failed =>
      [Bump(RequestError, 1, f.kind, f.model)]
      + (if f.requestSent then [] else [Bump(RequestTotal, 1, f.kind, f.model)])
  }

  lemma {:induction false} ErrorIsFinal(c: Codec, f: State, bodies: seq<seq<Bytes>>, trailers: bool)
    requires f.hasError
    ensures Run(c, f, StreamCallbacks(bodies, trailers)) == f
    decreases |bodies|
  {
    var cbs := StreamCallbacks(bodies, trailers);
    if bodies == [] {
      if trailers { assert cbs[1..] == []; }
    } else {
      assert cbs[1..] == StreamCallbacks(bodies[1..], trailers);
      ErrorIsFinal(c, f, bodies[1..], trailers);
    }
  }

  lemma {:induction false} StreamRun(c: Codec, f: State, bodies: seq<seq<Bytes>>, trailers: bool)
    requires f.matched && !f.hasError && f.parser.Some? && !ParserVerdict(f.parser.value).Failed?
    requires trailers || bodies != []
    ensures Run(c, f, StreamCallbacks(bodies, trailers)).log
         == f.log + VerdictBumps(f, ParserVerdict(FeedParser(c.json, f.parser.value, Flatten(bodies))))
    decreases |bodies|
  {
    var cbs := StreamCallbacks(bodies, trailers);
    if bodies == [] {
      assert cbs[1..] == [];
      assert Run(c, f, cbs) == Step(c, f, cbs[0]);
    } else {
      var rest := StreamCallbacks(bodies[1..], trailers);
      assert cbs[1..] == rest;
      var p := FeedParser(c.json, f.parser.value, bodies[0]);
      var g := Step(c, f, cbs[0]);
      assert Run(c, f, cbs) == Run(c, g, rest);
      FeedParserAppend(c.json, f.parser.value, bodies[0], Flatten(bodies[1..]));
      if ParserVerdict(p).Failed? {
        FailedParserStays(c.json, p, Flatten(bodies[1..]));
        ErrorIsFinal(c, g, bodies[1..], trailers);
        ErrorBumps(f.(gotChunk := true, parser := Some(p)));
      } else if !trailers && |bodies| == 1 {
        assert rest == [] && Flatten(bodies[1..]) == [];
        assert FeedParser(c.json, p, []) == p;
      } else {
        StreamRun(c, g, bodies[1..], trailers);
      }
    }
  }

  lemma ErrorBumps(f: State)
    ensures OnError(f).log == f.log + VerdictBumps(f, Failed)
  {
  }

  /** An OpenAI stream adds exactly one verdict to the log, read off the bytes alone: neither the chunking nor the
      grouping into callbacks nor the way the stream ends matters. */
  lemma OpenAiStreamCounts(c: Codec, f: State, bodies: seq<seq<Bytes>>, trailers: bool)
    requires f.matched && !f.hasError && !f.kind.AnthropicKind? && f.parser == Some(NewParser(f.kind))
    requires trailers || bodies != []
    ensures Run(c, f, StreamCallbacks(bodies, trailers)).log
         == f.log + VerdictBumps(f, var ps := Payloads(Lines(Flatten(Flatten(bodies))));
                                    if Undecodable(c.json, ps) then Failed else Counted(LastUsage(c.json, ps)))
  {
    StreamRun(c, f, bodies, trailers);
    GroupingIsIrrelevant(OpenAiParser(c.json), Framed([], OPENAI_INIT), bodies);
    OpenAiStreamVerdict(c.json, bodies);
  }

  /** The same for an Anthropic stream that announces no usage event after `message_stop`. */
  lemma AnthropicStreamCounts(c: Codec, f: State, bodies: seq<seq<Bytes>>, trailers: bool)
    requires f.matched && !f.hasError && f.kind.AnthropicKind? && f.parser == Some(NewParser(f.kind))
    requires trailers || bodies != []
    requires SilentAfterClose(AnthropicParser(c.json), ANTHROPIC_INIT, Lines(Flatten(Flatten(bodies))), Announces)
    ensures Run(c, f, StreamCallbacks(bodies, trailers)).log
         == f.log + VerdictBumps(f, VerdictOf(Usages(c.json, "", Lines(Flatten(Flatten(bodies))))))
  {
    StreamRun(c, f, bodies, trailers);
    GroupingIsIrrelevant(AnthropicParser(c.json), Framed([], ANTHROPIC_INIT), bodies);
    AnthropicStreamVerdict(c.json, bodies);
  }
}
