/** What the llm-proxy filter counts, read off Envoy's callbacks alone: which ones make a request fail, when it counts,
    and which tokens are reported under which labels. */
module LlmAccounting {
  import opened ByteText
  import opened SseFraming
  import opened LlmParsers
  import opened LlmFilter
  import opened LlmLifecycle

  // ----- Reading the callbacks. -----

  /** The whole body with which a callback ends the request. */
  function RequestEnd(cb: Callback): Option<Bytes> {
    match cb
    case RequestBody(end, whole) => if end then Some(whole) else None
    case RequestTrailers(whole) => Some(whole)
    case _ => None
  }

  function ResponseEnd(cb: Callback): Option<Bytes> {
    match cb
    case ResponseBody(_, end, whole) => if end then Some(whole) else None
    case ResponseTrailers(whole) => Some(whole)
    case _ => None
  }

  /** The API of the rule that the request headers matched. */
  function MatchedKind(cbs: seq<Callback>): Option<Kind> {
    if cbs == [] then None
    else
      var n := |cbs| - 1;
      if cbs[n].RequestHeaders? && cbs[n].rule.Some? then cbs[n].rule else MatchedKind(cbs[..n])
  }

  /** A matched request has been read to its end. */
  predicate RequestEnded(cbs: seq<Callback>) {
    if cbs == [] then false
    else
      var n := |cbs| - 1;
      (RequestEnd(cbs[n]).Some? && MatchedKind(cbs[..n]).Some?) || RequestEnded(cbs[..n])
  }

  /** The model named by a matched request, once it has been read. */
  function RequestModel(c: Codec, cbs: seq<Callback>): string {
    if cbs == [] then ""
    else
      var n := |cbs| - 1;
      var kind, whole := MatchedKind(cbs[..n]), RequestEnd(cbs[n]);
      if kind.Some? && whole.Some? && c.request(kind.value, whole.value).Some?
      then c.request(kind.value, whole.value).value.0
      else RequestModel(c, cbs[..n])
  }

  /** The response to a matched request is a stream of server-sent events. */
  predicate Streams(cbs: seq<Callback>) {
    if cbs == [] then false
    else
      var n := |cbs| - 1;
      (cbs[n].ResponseHeaders? && cbs[n].isSse && MatchedKind(cbs[..n]).Some?) || Streams(cbs[..n])
  }

  /** The chunks of that stream so far. */
  function Streamed(cbs: seq<Callback>): seq<Bytes> {
    if cbs == [] then []
    else
      var n := |cbs| - 1;
      Streamed(cbs[..n]) + if cbs[n].ResponseBody? && Streams(cbs[..n]) then cbs[n].chunks else []
  }

  // ----- What makes a request fail. -----

  predicate BadRequest(c: Codec, kind: Kind, whole: Bytes) {
    whole == [] || c.request(kind, whole).None? || c.request(kind, whole).value.0 == ""
  }

  predicate BadResponse(c: Codec, kind: Kind, whole: Bytes) {
    whole == [] || c.response(kind, whole).None?
  }

  function AnthropicState(c: Codec, chunks: seq<Bytes>): Anthropic {
    FeedAll(AnthropicParser(c.json), Framed([], ANTHROPIC_INIT), chunks).st
  }

  /** A payload of the stream does not decode; every other API than Anthropic's speaks OpenAI. */
  predicate BadStream(c: Codec, kind: Kind, chunks: seq<Bytes>) {
    if kind.AnthropicKind? then AnthropicState(c, chunks).failed
    else Undecodable(c.json, Payloads(Lines(Flatten(chunks))))
  }

  /** This callback, after those before it, is one that makes the request fail: headers without a body or of the wrong
      type, an unreadable request, a response that is not 200 or has no body or is neither a stream nor JSON, an
      unreadable stream, or an unreadable response. */
  predicate FailsAt(c: Codec, before: seq<Callback>, cb: Callback) {
    var kind := MatchedKind(before);
    match cb
    case RequestHeaders(rule, end, isJson) => rule.Some? && (end || !isJson)
    case RequestBody(end, whole) => kind.Some? && end && BadRequest(c, kind.value, whole)
    case RequestTrailers(whole) => kind.Some? && BadRequest(c, kind.value, whole)
    case ResponseHeaders(end, ok, isSse, isJson) => kind.Some? && (end || !ok || (!isSse && !isJson))
    case ResponseBody(chunks, end, whole) =>
      && kind.Some?
      && (if Streams(before) then BadStream(c, kind.value, Streamed(before) + chunks)
          else end && BadResponse(c, kind.value, whole))
    case ResponseTrailers(whole) => kind.Some? && !Streams(before) && BadResponse(c, kind.value, whole)
  }

  ghost predicate HasFailed(c: Codec, cbs: seq<Callback>) {
    exists k :: 0 <= k < |cbs| && FailsAt(c, cbs[..k], cbs[k])
  }

  lemma FailedSnoc(c: Codec, cbs: seq<Callback>, cb: Callback)
    ensures HasFailed(c, cbs + [cb]) <==> HasFailed(c, cbs) || FailsAt(c, cbs, cb)
  {
    var all := cbs + [cb];
    assert all[..|cbs|] == cbs && all[|cbs|] == cb;
    assert forall k :: 0 <= k < |cbs| ==> all[..k] == cbs[..k] && all[k] == cbs[k];
  }

  // ----- What is reported. -----

  function ResponseUsage(c: Codec, kind: Kind, before: seq<Callback>, cb: Callback): LLMUsage
    requires ResponseEnd(cb).Some?
  {
    var chunks := Streamed(before) + if cb.ResponseBody? then cb.chunks else [];
    if !Streams(before) then
      if c.response(kind, ResponseEnd(cb).value).Some? then c.response(kind, ResponseEnd(cb).value).value else NO_USAGE
    else if kind.AnthropicKind? then
      var st := AnthropicState(c, chunks);
      LLMUsage(st.input, st.output, Add32(st.input, st.output))
    else LastUsage(c.json, Payloads(Lines(Flatten(chunks))))
  }

  /** The counter calls made by one callback. */
  ghost function Entry(c: Codec, before: seq<Callback>, cb: Callback): seq<Bump> {
    var kind, model := MatchedKind(before + [cb]), RequestModel(c, before);
    if kind.None? || HasFailed(c, before) then []
    else if FailsAt(c, before, cb) then
      [Bump(RequestError, 1, kind.value, model)]
      + (if RequestEnded(before) then [] else [Bump(RequestTotal, 1, kind.value, model)])
    else if RequestEnd(cb).Some? then [Bump(RequestTotal, 1, kind.value, RequestModel(c, before + [cb]))]
    else if ResponseEnd(cb).Some? then
      var u := ResponseUsage(c, kind.value, before, cb);
      [Bump(InputTokens, u.input, kind.value, model), Bump(OutputTokens, u.output, kind.value, model),
       Bump(TotalTokens, u.total, kind.value, model)]
    else []
  }

  ghost function LogOf(c: Codec, cbs: seq<Callback>): seq<Bump> {
    if cbs == [] then [] else LogOf(c, cbs[..|cbs| - 1]) + Entry(c, cbs[..|cbs| - 1], cbs[|cbs| - 1])
  }

  // ----- The filter agrees. -----

  lemma OpenAiState(c: Codec, chunks: seq<Bytes>)
    ensures var st := FeedAll(OpenAiParser(c.json), Framed([], OPENAI_INIT), chunks).st;
            var ps := Payloads(Lines(Flatten(chunks)));
            && (st.failed <==> Undecodable(c.json, ps))
            && (!st.failed ==> st.usage == LastUsage(c.json, ps))
  {
    assert [] + Flatten(chunks) == Flatten(chunks);
    ChunkingIndependent(OpenAiParser(c.json), Framed([], OPENAI_INIT), chunks);
    OpenAiFold(c.json, OPENAI_INIT, Lines(Flatten(chunks)));
  }

  /** The parser after some chunks. */
  function ParserAfter(c: Codec, kind: Kind, chunks: seq<Bytes>): SseParser {
    if kind.AnthropicKind? then AnthropicStream(FeedAll(AnthropicParser(c.json), Framed([], ANTHROPIC_INIT), chunks))
    else OpenAiStream(FeedAll(OpenAiParser(c.json), Framed([], OPENAI_INIT), chunks))
  }

  lemma ParserFailsIff(c: Codec, kind: Kind, chunks: seq<Bytes>)
    ensures ParserVerdict(ParserAfter(c, kind, chunks)).Failed? <==> BadStream(c, kind, chunks)
  {
    if !kind.AnthropicKind? { OpenAiState(c, chunks); }
  }

  /** Everything read off the callbacks so far. */
  datatype Reading = Reading(kind: Option<Kind>, ended: bool, model: string, streams: bool, streamed: seq<Bytes>,
                             failed: bool, log: seq<Bump>)

  ghost function ReadingOf(c: Codec, cbs: seq<Callback>): Reading {
    Reading(MatchedKind(cbs), RequestEnded(cbs), RequestModel(c, cbs), Streams(cbs), Streamed(cbs), HasFailed(c, cbs),
            LogOf(c, cbs))
  }

  // What one more callback adds to each part of the reading.

  predicate Fails(c: Codec, r: Reading, cb: Callback) {
    match cb
    case RequestHeaders(rule, end, isJson) => rule.Some? && (end || !isJson)
    case RequestBody(end, whole) => r.kind.Some? && end && BadRequest(c, r.kind.value, whole)
    case RequestTrailers(whole) => r.kind.Some? && BadRequest(c, r.kind.value, whole)
    case ResponseHeaders(end, ok, isSse, isJson) => r.kind.Some? && (end || !ok || (!isSse && !isJson))
    case ResponseBody(chunks, end, whole) =>
      && r.kind.Some?
      && (if r.streams then BadStream(c, r.kind.value, r.streamed + chunks)
          else end && BadResponse(c, r.kind.value, whole))
    case ResponseTrailers(whole) => r.kind.Some? && !r.streams && BadResponse(c, r.kind.value, whole)
  }

  function NextKind(r: Reading, cb: Callback): Option<Kind> {
    if cb.RequestHeaders? && cb.rule.Some? then cb.rule else r.kind
  }

  function NextModel(c: Codec, r: Reading, cb: Callback): string {
    var whole := RequestEnd(cb);
    if r.kind.Some? && whole.Some? && c.request(r.kind.value, whole.value).Some?
    then c.request(r.kind.value, whole.value).value.0 else r.model
  }

  function NextChunks(r: Reading, cb: Callback): seq<Bytes> {
    r.streamed + if cb.ResponseBody? && r.streams then cb.chunks else []
  }

  function UsageOf(c: Codec, r: Reading, kind: Kind, cb: Callback): LLMUsage
    requires ResponseEnd(cb).Some?
  {
    var chunks := r.streamed + if cb.ResponseBody? then cb.chunks else [];
    if !r.streams then
      if c.response(kind, ResponseEnd(cb).value).Some? then c.response(kind, ResponseEnd(cb).value).value else NO_USAGE
    else if kind.AnthropicKind? then
      var st := AnthropicState(c, chunks);
      LLMUsage(st.input, st.output, Add32(st.input, st.output))
    else LastUsage(c.json, Payloads(Lines(Flatten(chunks))))
  }

  function NextEntry(c: Codec, r: Reading, cb: Callback): seq<Bump> {
    var kind := NextKind(r, cb);
    if kind.None? || r.failed then []
    else if Fails(c, r, cb) then
      [Bump(RequestError, 1, kind.value, r.model)]
      + (if r.ended then [] else [Bump(RequestTotal, 1, kind.value, r.model)])
    else if RequestEnd(cb).Some? then [Bump(RequestTotal, 1, kind.value, NextModel(c, r, cb))]
    else if ResponseEnd(cb).Some? then
      var u := UsageOf(c, r, kind.value, cb);
      [Bump(InputTokens, u.input, kind.value, r.model), Bump(OutputTokens, u.output, kind.value, r.model),
       Bump(TotalTokens, u.total, kind.value, r.model)]
    else []
  }

  function Extend(c: Codec, r: Reading, cb: Callback): Reading {
    Reading(NextKind(r, cb), (RequestEnd(cb).Some? && r.kind.Some?) || r.ended, NextModel(c, r, cb),
            (cb.ResponseHeaders? && cb.isSse && r.kind.Some?) || r.streams, NextChunks(r, cb),
            r.failed || Fails(c, r, cb), r.log + NextEntry(c, r, cb))
  }

  lemma EntrySnoc(c: Codec, cbs: seq<Callback>, cb: Callback)
    requires MatchedKind(cbs + [cb]) == NextKind(ReadingOf(c, cbs), cb)
    requires RequestModel(c, cbs + [cb]) == NextModel(c, ReadingOf(c, cbs), cb)
    ensures Entry(c, cbs, cb) == NextEntry(c, ReadingOf(c, cbs), cb)
    ensures FailsAt(c, cbs, cb) == Fails(c, ReadingOf(c, cbs), cb)
  {
    var r := ReadingOf(c, cbs);
    assert FailsAt(c, cbs, cb) == Fails(c, r, cb);
    if ResponseEnd(cb).Some? && r.kind.Some? {
      assert ResponseUsage(c, r.kind.value, cbs, cb) == UsageOf(c, r, r.kind.value, cb);
    }
  }

  lemma PartsSnoc(c: Codec, cbs: seq<Callback>, cb: Callback)
    ensures var all, r := cbs + [cb], ReadingOf(c, cbs);
            && MatchedKind(all) == NextKind(r, cb) && RequestModel(c, all) == NextModel(c, r, cb)
            && RequestEnded(all) == ((RequestEnd(cb).Some? && r.kind.Some?) || r.ended)
            && Streams(all) == ((cb.ResponseHeaders? && cb.isSse && r.kind.Some?) || r.streams)
            && Streamed(all) == NextChunks(r, cb)
            && LogOf(c, all) == r.log + Entry(c, cbs, cb)
  {
    var all := cbs + [cb];
    assert all[..|all| - 1] == cbs && all[|all| - 1] == cb;
  }

  lemma ReadingSnoc(c: Codec, cbs: seq<Callback>, cb: Callback)
    ensures ReadingOf(c, cbs + [cb]) == Extend(c, ReadingOf(c, cbs), cb)
  {
    PartsSnoc(c, cbs, cb);
    EntrySnoc(c, cbs, cb);
    FailedSnoc(c, cbs, cb);
  }

  ghost predicate Agrees(c: Codec, r: Reading, f: State) {
    && f.matched == r.kind.Some?
    && (f.matched ==> f.kind == r.kind.value)
    && f.hasError == r.failed
    && (!f.hasError ==>
          && f.model == r.model && f.requestSent == r.ended && f.parser.Some? == r.streams
          && (!r.streams ==> r.streamed == []) && (!r.ended ==> r.model == "")
          && (f.parser.Some? ==> f.matched && f.parser.value == ParserAfter(c, f.kind, r.streamed)))
    && f.log == r.log
  }

  /** What the order of callbacks guarantees. */
  predicate InOrder(f: State, ph: Phases) {
    && (!f.matched ==> f.log == [] && !f.hasError && !f.requestSent && f.parser.None?)
    && (f.matched ==> !ph.request.Before?)
    && (f.requestSent ==> ph.request.Ended?)
    && (f.parser.Some? ==> !ph.response.Before?)
  }

  /** A callback that the filter passes over: the request has failed, or is none of its business. */
  lemma PassedOver(c: Codec, r: Reading, f: State, ph: Phases, cb: Callback)
    requires Agrees(c, r, f) && InOrder(f, ph) && Allowed(ph, cb)
    requires f.hasError || (!f.matched && !(cb.RequestHeaders? && cb.rule.Some?))
    ensures Agrees(c, Extend(c, r, cb), Step(c, f, cb))
  {
    assert Step(c, f, cb) == f && NextEntry(c, r, cb) == [] && r.log + [] == r.log;
  }

  lemma MatchAgrees(c: Codec, r: Reading, f: State, ph: Phases, cb: Callback)
    requires Agrees(c, r, f) && InOrder(f, ph) && Allowed(ph, cb) && !f.hasError
    requires cb.RequestHeaders? && cb.rule.Some?
    ensures Agrees(c, Extend(c, r, cb), Step(c, f, cb))
  {
    assert r.log == [] && !f.matched;
  }

  lemma RequestAgrees(c: Codec, r: Reading, f: State, ph: Phases, cb: Callback)
    requires Agrees(c, r, f) && InOrder(f, ph) && Allowed(ph, cb) && f.matched && !f.hasError
    requires cb.RequestBody? || cb.RequestTrailers?
    ensures Agrees(c, Extend(c, r, cb), Step(c, f, cb))
  {
    assert r.log + [] == r.log && r.streamed + [] == r.streamed && !r.ended;
  }

  lemma HeadersAgree(c: Codec, r: Reading, f: State, ph: Phases, cb: Callback)
    requires Agrees(c, r, f) && InOrder(f, ph) && Allowed(ph, cb) && f.matched && !f.hasError && cb.ResponseHeaders?
    ensures Agrees(c, Extend(c, r, cb), Step(c, f, cb))
  {
    assert r.log + [] == r.log && r.streamed + [] == r.streamed && !r.streams;
  }

  lemma FedAgrees(c: Codec, r: Reading, f: State, chunks: seq<Bytes>)
    requires Agrees(c, r, f) && f.matched && !f.hasError && f.parser.Some?
    ensures FeedParser(c.json, f.parser.value, chunks) == ParserAfter(c, f.kind, r.streamed + chunks)
    ensures ParserVerdict(ParserAfter(c, f.kind, r.streamed + chunks)).Failed? <==>
            BadStream(c, f.kind, r.streamed + chunks)
    ensures !BadStream(c, f.kind, r.streamed + chunks) && !f.kind.AnthropicKind? ==>
              ParserUsage(ParserAfter(c, f.kind, r.streamed + chunks)) ==
              LastUsage(c.json, Payloads(Lines(Flatten(r.streamed + chunks))))
  {
    FeedParserAppend(c.json, ParserAfter(c, f.kind, []), r.streamed, chunks);
    ParserFailsIff(c, f.kind, r.streamed + chunks);
    if !f.kind.AnthropicKind? { OpenAiState(c, r.streamed + chunks); }
  }

  lemma StreamedBodyAgrees(c: Codec, r: Reading, f: State, ph: Phases, cb: Callback)
    requires Agrees(c, r, f) && InOrder(f, ph) && Allowed(ph, cb) && f.matched && !f.hasError && f.parser.Some?
    requires cb.ResponseBody?
    ensures Agrees(c, Extend(c, r, cb), Step(c, f, cb))
  {
    FedAgrees(c, r, f, cb.chunks);
    assert r.log + [] == r.log;
  }

  lemma StreamedEndAgrees(c: Codec, r: Reading, f: State, ph: Phases, cb: Callback)
    requires Agrees(c, r, f) && InOrder(f, ph) && Allowed(ph, cb) && f.matched && !f.hasError && f.parser.Some?
    requires cb.ResponseTrailers? && !ParserVerdict(f.parser.value).Failed?
    ensures Agrees(c, Extend(c, r, cb), Step(c, f, cb))
  {
    FedAgrees(c, r, f, []);
    assert r.streamed + [] == r.streamed;
  }

  lemma WholeBodyAgrees(c: Codec, r: Reading, f: State, ph: Phases, cb: Callback)
    requires Agrees(c, r, f) && InOrder(f, ph) && Allowed(ph, cb) && f.matched && !f.hasError && f.parser.None?
    requires cb.ResponseBody? || cb.ResponseTrailers?
    ensures Agrees(c, Extend(c, r, cb), Step(c, f, cb))
  {
    assert r.log + [] == r.log;
  }

  lemma StepAgrees(c: Codec, r: Reading, f: State, ph: Phases, cb: Callback)
    requires Agrees(c, r, f) && InOrder(f, ph) && Allowed(ph, cb)
    requires f.parser.Some? && !f.hasError ==> !ParserVerdict(f.parser.value).Failed?
    ensures Agrees(c, Extend(c, r, cb), Step(c, f, cb))
  {
    if f.hasError || (!f.matched && !(cb.RequestHeaders? && cb.rule.Some?)) {
      PassedOver(c, r, f, ph, cb);
    } else if cb.RequestHeaders? {
      MatchAgrees(c, r, f, ph, cb);
    } else if cb.RequestBody? || cb.RequestTrailers? {
      RequestAgrees(c, r, f, ph, cb);
    } else if cb.ResponseHeaders? {
      HeadersAgree(c, r, f, ph, cb);
    } else if f.parser.None? {
      WholeBodyAgrees(c, r, f, ph, cb);
    } else if cb.ResponseBody? {
      StreamedBodyAgrees(c, r, f, ph, cb);
    } else {
      StreamedEndAgrees(c, r, f, ph, cb);
    }
  }

  lemma InvIsInOrder(f: State, ph: Phases)
    requires Inv(f, ph)
    ensures InOrder(f, ph) && (f.parser.Some? && !f.hasError ==> !ParserVerdict(f.parser.value).Failed?)
  {
  }

  function ExtendAll(c: Codec, r: Reading, cbs: seq<Callback>): Reading
    decreases |cbs|
  {
    if cbs == [] then r else ExtendAll(c, Extend(c, r, cbs[0]), cbs[1..])
  }

  lemma {:induction false} ExtendAllSnoc(c: Codec, r: Reading, cbs: seq<Callback>, cb: Callback)
    ensures ExtendAll(c, r, cbs + [cb]) == Extend(c, ExtendAll(c, r, cbs), cb)
    decreases |cbs|
  {
    var all := cbs + [cb];
    if cbs == [] {
      assert all[0] == cb && all[1..] == [];
    } else {
      assert all[0] == cbs[0] && all[1..] == cbs[1..] + [cb];
      ExtendAllSnoc(c, Extend(c, r, cbs[0]), cbs[1..], cb);
    }
  }

  const NOTHING: Reading := Reading(None, false, "", false, [], false, [])

  lemma {:induction false} ReadingOfAll(c: Codec, cbs: seq<Callback>, none: Reading)
    requires none == NOTHING
    ensures ReadingOf(c, cbs) == ExtendAll(c, none, cbs)
    decreases |cbs|
  {
    if cbs != [] {
      var init, last := cbs[..|cbs| - 1], cbs[|cbs| - 1];
      ReadingOfAll(c, init, none);
      ReadingSnoc(c, init, last);
      ExtendAllSnoc(c, none, init, last);
      assert cbs == init + [last];
    }
  }

  lemma OneStep(c: Codec, r: Reading, f: State, ph: Phases, cb: Callback)
    requires Agrees(c, r, f) && Inv(f, ph) && Allowed(ph, cb)
    ensures Agrees(c, Extend(c, r, cb), Step(c, f, cb)) && Inv(Step(c, f, cb), Advance(ph, cb))
  {
    InvIsInOrder(f, ph);
    StepAgrees(c, r, f, ph, cb);
    StepKeepsInv(c, f, ph, cb);
  }

  lemma {:induction false} RunAgrees(c: Codec, r: Reading, f: State, ph: Phases, cbs: seq<Callback>)
    requires Agrees(c, r, f) && Inv(f, ph) && Legal(ph, cbs)
    ensures Agrees(c, ExtendAll(c, r, cbs), Run(c, f, cbs))
    decreases |cbs|
  {
    if cbs != [] {
      OneStep(c, r, f, ph, cbs[0]);
      RunAgrees(c, Extend(c, r, cbs[0]), Step(c, f, cbs[0]), Advance(ph, cbs[0]), cbs[1..]);
    }
  }

  /** Over every legal callback sequence the counter calls are exactly those read off the callbacks, with their labels
      and amounts. So a request error is counted, once, if and only if some callback makes the request fail; and the
      request is counted, once, if and only if it has failed or a matched request has been read to its end. */
  lemma CountersFromCallbacks(c: Codec, cbs: seq<Callback>)
    requires Legal(Phases(Before, Before), cbs)
    ensures var log := Run(c, INIT, cbs).log;
            && log == LogOf(c, cbs)
            && Count(log, RequestError) == (if HasFailed(c, cbs) then 1 else 0)
            && Count(log, RequestTotal) == (if HasFailed(c, cbs) || RequestEnded(cbs) then 1 else 0)
  {
    InitInv();
    RunAgrees(c, NOTHING, INIT, Phases(Before, Before), cbs);
    ReadingOfAll(c, cbs, NOTHING);
    CountedOnce(c, cbs);
  }

  // ----- Tokens. -----

  /** The response to a request that has not failed comes to its end at `k`. */
  ghost predicate Completes(c: Codec, cbs: seq<Callback>, k: nat)
    requires k < |cbs|
  {
    MatchedKind(cbs[..k]).Some? && ResponseEnd(cbs[k]).Some? && !HasFailed(c, cbs[..k + 1])
  }

  /** What is then reported. */
  ghost function Report(c: Codec, cbs: seq<Callback>, k: nat): seq<Bump>
    requires k < |cbs| && Completes(c, cbs, k)
  {
    var kind, model := MatchedKind(cbs[..k]).value, RequestModel(c, cbs[..k]);
    var u := ResponseUsage(c, kind, cbs[..k], cbs[k]);
    [Bump(InputTokens, u.input, kind, model), Bump(OutputTokens, u.output, kind, model),
     Bump(TotalTokens, u.total, kind, model)]
  }

  lemma TokensOfEntry(c: Codec, cbs: seq<Callback>, cb: Callback)
    ensures var all, n := cbs + [cb], |cbs|;
            TokensIn(Entry(c, cbs, cb)) == if Completes(c, all, n) then Report(c, all, n) else []
  {
    var all, n := cbs + [cb], |cbs|;
    assert all[..n] == cbs && all[n] == cb && all[..n + 1] == all;
    FailedSnoc(c, cbs, cb);
    var e := Entry(c, cbs, cb);
    if Completes(c, all, n) {
      var kind := MatchedKind(cbs).value;
      PartsSnoc(c, cbs, cb);
      var u := ResponseUsage(c, kind, cbs, cb);
      ThreeBumps(kind, RequestModel(c, cbs), u);
    } else {
      NoTokens(c, cbs, cb);
    }
  }

  lemma NoTokens(c: Codec, cbs: seq<Callback>, cb: Callback)
    requires MatchedKind(cbs).None? || ResponseEnd(cb).None? || HasFailed(c, cbs) || FailsAt(c, cbs, cb)
    ensures TokensIn(Entry(c, cbs, cb)) == []
  {
    var e := Entry(c, cbs, cb);
    if |e| == 1 {
      OneBump(e[0]);
      assert e == [e[0]];
    } else if |e| == 2 {
      OneBump(e[0]);
      OneBump(e[1]);
      assert e == [e[0]] + [e[1]];
      TokensInAppend([e[0]], [e[1]]);
    }
  }

  lemma CompletesInPrefix(c: Codec, cbs: seq<Callback>, cb: Callback, k: nat)
    requires k < |cbs|
    ensures Completes(c, cbs + [cb], k) == Completes(c, cbs, k)
    ensures Completes(c, cbs, k) ==> Report(c, cbs + [cb], k) == Report(c, cbs, k)
  {
    var all := cbs + [cb];
    assert all[..k] == cbs[..k] && all[..k + 1] == cbs[..k + 1] && all[k] == cbs[k];
  }

  lemma TokensSnoc(c: Codec, cbs: seq<Callback>, cb: Callback)
    ensures var all, n := cbs + [cb], |cbs|;
            TokensIn(LogOf(c, all)) ==
            TokensIn(LogOf(c, cbs)) + if Completes(c, all, n) then Report(c, all, n) else []
  {
    PartsSnoc(c, cbs, cb);
    TokensOfEntry(c, cbs, cb);
    TokensInAppend(LogOf(c, cbs), Entry(c, cbs, cb));
  }

  lemma {:induction false} NoReport(c: Codec, cbs: seq<Callback>)
    requires forall k: nat :: k < |cbs| ==> !Completes(c, cbs, k)
    ensures TokensIn(LogOf(c, cbs)) == []
    decreases |cbs|
  {
    if cbs != [] {
      var n := |cbs| - 1;
      var init, last := cbs[..n], cbs[n];
      assert cbs == init + [last];
      forall k: nat | k < n
        ensures !Completes(c, init, k)
      {
        CompletesInPrefix(c, init, last, k);
      }
      NoReport(c, init);
      TokensSnoc(c, init, last);
    }
  }

  lemma {:induction false} OneReport(c: Codec, cbs: seq<Callback>, k: nat)
    requires k < |cbs| && Completes(c, cbs, k)
    requires forall j: nat :: j < |cbs| && j != k ==> !Completes(c, cbs, j)
    ensures TokensIn(LogOf(c, cbs)) == Report(c, cbs, k)
    decreases |cbs|
  {
    var n := |cbs| - 1;
    var init, last := cbs[..n], cbs[n];
    assert cbs == init + [last];
    forall j: nat | j < n
      ensures Completes(c, init, j) == Completes(c, cbs, j)
    {
      CompletesInPrefix(c, init, last, j);
    }
    TokensSnoc(c, init, last);
    if k == n {
      NoReport(c, init);
    } else {
      CompletesInPrefix(c, init, last, k);
      OneReport(c, init, k);
      assert Report(c, cbs, k) + [] == Report(c, cbs, k);
    }
  }

  lemma {:induction false} NoEndAfter(ph: Phases, cbs: seq<Callback>, k: nat)
    requires Legal(ph, cbs) && ph.response.Ended? && k < |cbs|
    ensures ResponseEnd(cbs[k]).None?
    decreases k
  {
    if k > 0 { NoEndAfter(Advance(ph, cbs[0]), cbs[1..], k - 1); }
  }

  lemma {:induction false} EndsOnce(ph: Phases, cbs: seq<Callback>, j: nat, k: nat)
    requires Legal(ph, cbs) && j < k < |cbs| && ResponseEnd(cbs[j]).Some?
    ensures ResponseEnd(cbs[k]).None?
    decreases j
  {
    if j == 0 {
      NoEndAfter(Advance(ph, cbs[0]), cbs[1..], k - 1);
    } else {
      EndsOnce(Advance(ph, cbs[0]), cbs[1..], j - 1, k - 1);
    }
  }

  /** Over every legal callback sequence: the token counters are bumped if and only if the response to a request that
      has not failed comes to its end, and then once each, with the counts of that response, the matched API and the
      model named by then. */
  lemma TokensFromCallbacks(c: Codec, cbs: seq<Callback>)
    requires Legal(Phases(Before, Before), cbs)
    ensures var tokens := TokensIn(Run(c, INIT, cbs).log);
            && (tokens != [] <==> exists k: nat :: k < |cbs| && Completes(c, cbs, k))
            && forall k: nat :: k < |cbs| && Completes(c, cbs, k) ==> tokens == Report(c, cbs, k)
  {
    CountersFromCallbacks(c, cbs);
    if forall k: nat :: k < |cbs| ==> !Completes(c, cbs, k) { NoReport(c, cbs); }
    forall k: nat | k < |cbs| && Completes(c, cbs, k)
      ensures TokensIn(LogOf(c, cbs)) == Report(c, cbs, k)
    {
      forall j: nat | j < |cbs| && j != k
        ensures !Completes(c, cbs, j)
      {
        if j < k && ResponseEnd(cbs[j]).Some? { EndsOnce(Phases(Before, Before), cbs, j, k); }
        if k < j { EndsOnce(Phases(Before, Before), cbs, k, j); }
      }
      OneReport(c, cbs, k);
    }
  }
}
