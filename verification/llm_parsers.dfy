/** llm-proxy's two streaming usage parsers. Both report a decoding error to the filter, which then stops
    feeding them; the streaming verdict is that error or the usage at the end of the stream. */
module LlmParsers {
  import opened ByteText
  import opened SseFraming

  const TWO_TO_32: int := 0x1_0000_0000
  type uint32 = x: int | 0 <= x < 0x1_0000_0000

  datatype LLMUsage = LLMUsage(input: uint32, output: uint32, total: uint32)

  datatype Verdict = Failed | Counted(usage: LLMUsage)

  const NO_USAGE: LLMUsage := LLMUsage(0, 0, 0)
  const EVENT_PREFIX: Bytes := "event: "
  const DATA_PREFIX: Bytes := "data: "

  /** uint32 addition: the true sum exactly when it fits in 32 bits. */
  function Add32(a: uint32, b: uint32): (r: uint32)
    ensures r == a + b <==> a + b < TWO_TO_32
    ensures r == a + b || r == a + b - TWO_TO_32
  {
    (a + b) % TWO_TO_32
  }

  /** The JSON library: the usage in an OpenAI chunk, and in the two Anthropic events that carry one. */
  datatype Json = Json(
    openaiChunk: Bytes -> Option<LLMUsage>,
    messageStart: Bytes -> Option<(uint32, uint32)>,
    messageDelta: Bytes -> Option<uint32>)

  // ----- Feeding body callback by body callback. -----

  function FeedBodies<S>(m: Machine<S>, f: Framed<S>, bodies: seq<seq<Bytes>>): Framed<S>
    decreases |bodies|
  {
    if bodies == [] then f else FeedBodies(m, FeedAll(m, f, bodies[0]), bodies[1..])
  }

  lemma {:induction false} FeedAllAppend<S>(m: Machine<S>, f: Framed<S>, a: seq<Bytes>, b: seq<Bytes>)
    ensures FeedAll(m, f, a + b) == FeedAll(m, FeedAll(m, f, a), b)
    decreases |a|
  {
    if a == [] {
      assert a + b == b;
    } else {
      assert (a + b)[1..] == a[1..] + b;
      FeedAllAppend(m, Feed(m, f, a[0]), a[1..], b);
    }
  }

  /** How chunks are grouped into body callbacks does not matter. */
  lemma {:induction false} GroupingIsIrrelevant<S>(m: Machine<S>, f: Framed<S>, bodies: seq<seq<Bytes>>)
    ensures FeedBodies(m, f, bodies) == FeedAll(m, f, Flatten(bodies))
    decreases |bodies|
  {
    if bodies != [] {
      GroupingIsIrrelevant(m, FeedAll(m, f, bodies[0]), bodies[1..]);
      FeedAllAppend(m, f, bodies[0], Flatten(bodies[1..]));
    }
  }

  // ----- OpenAI. -----

  datatype OpenAi = OpenAi(done: bool, failed: bool, usage: LLMUsage)

  const OPENAI_INIT: OpenAi := OpenAi(false, false, NO_USAGE)

  function OpenAiPayload(json: Json, st: OpenAi, data: Bytes): OpenAi {
    if data == "[DONE]" then st.(done := true)
    else
      match json.openaiChunk(data)
      case None => st.(failed := true)
      case Some(u) => if u != NO_USAGE then st.(usage := u) else st
  }

  function OpenAiLine(json: Json, st: OpenAi, raw: Bytes): OpenAi {
    var line := TrimSpace(raw);
    if HasPrefix(line, DATA_PREFIX) then OpenAiPayload(json, st, line[|DATA_PREFIX|..]) else st
  }

  function OpenAiParser(json: Json): Machine<OpenAi> {
    Machine((st, line) => OpenAiLine(json, st, line),
            (st: OpenAi) => st.done || st.failed,
            (st: OpenAi) => st.done || st.failed)
  }

  function OpenAiVerdict(st: OpenAi): Verdict {
    if st.failed then Failed else Counted(st.usage)
  }

  class OpenAiSSEParser {
    const json: Json
    var buf: Bytes
    var done: bool
    var usage: LLMUsage

    ghost function View(failed: bool): Framed<OpenAi>
      reads this
    {
      Framed(buf, OpenAi(done, failed, usage))
    }

    constructor (json: Json)
      ensures View(false) == Framed([], OPENAI_INIT) && this.json == json
    {
      this.json := json;
      buf, done, usage := [], false, NO_USAGE;
    }

    method Feed(data: Bytes) returns (failed: bool)
      modifies this
      ensures View(failed) == SseFraming.Feed(OpenAiParser(json), old(View(false)), data)
    {
      if done { return false; }
      buf := buf + data;
      failed := ParseEvents();
    }

    method ParseEvents() returns (failed: bool)
      requires !done
      modifies this
      ensures View(failed) == Drain(OpenAiParser(json), old(View(false)))
    {
      while true
        invariant !done && Drain(OpenAiParser(json), View(false)) == Drain(OpenAiParser(json), old(View(false)))
        decreases |buf|
      {
        var idx := IndexOf(buf, '\n');
        if idx < 0 { return false; }
        var line := TrimSpace(buf[..idx]);
        buf := buf[idx + 1..];
        if !HasPrefix(line, DATA_PREFIX) { continue; }
        var payload := line[|DATA_PREFIX|..];
        if payload == "[DONE]" {
          done := true;
          return false;
        }
        var chunk := json.openaiChunk(payload);
        if chunk.None? { return true; }
        if chunk.value != NO_USAGE {
          usage := chunk.value;
        }
      }
    }

    method Finish() returns (u: LLMUsage)
      ensures Counted(u) == OpenAiVerdict(View(false).st)
    {
      u := usage;
    }
  }

  /** The data payloads before the end marker. */
  function Payloads(lines: seq<Bytes>): seq<Bytes>
    decreases |lines|
  {
    if lines == [] then []
    else
      var line := TrimSpace(lines[0]);
      if !HasPrefix(line, DATA_PREFIX) then Payloads(lines[1..])
      else if line[|DATA_PREFIX|..] == "[DONE]" then []
      else [line[|DATA_PREFIX|..]] + Payloads(lines[1..])
  }

  predicate Undecodable(json: Json, payloads: seq<Bytes>) {
    exists k :: 0 <= k < |payloads| && json.openaiChunk(payloads[k]).None?
  }

  /** The last usage that is not all zero. */
  function LastUsage(json: Json, payloads: seq<Bytes>): LLMUsage
    decreases |payloads|
  {
    if payloads == [] then NO_USAGE
    else
      var n := |payloads| - 1;
      var u := json.openaiChunk(payloads[n]);
      if u.Some? && u.value != NO_USAGE then u.value else LastUsage(json, payloads[..n])
  }

  lemma {:induction false} LastUsageAppend(json: Json, a: seq<Bytes>, b: seq<Bytes>)
    ensures LastUsage(json, a + b) == if LastUsage(json, b) != NO_USAGE then LastUsage(json, b) else LastUsage(json, a)
    decreases |b|
  {
    if b == [] {
      assert a + b == a;
    } else {
      var n := |b| - 1;
      assert (a + b)[..|a + b| - 1] == a + b[..n];
      LastUsageAppend(json, a, b[..n]);
    }
  }

  lemma {:induction false} OpenAiFold(json: Json, st: OpenAi, lines: seq<Bytes>)
    requires !st.done && !st.failed
    ensures var ps := Payloads(lines);
            var r := Fold(OpenAiParser(json), st, lines);
            && (r.failed <==> Undecodable(json, ps))
            && (!r.failed ==> r.usage == if LastUsage(json, ps) != NO_USAGE then LastUsage(json, ps) else st.usage)
    decreases |lines|
  {
    if lines != [] {
      var next := OpenAiLine(json, st, lines[0]);
      var line, later := TrimSpace(lines[0]), Payloads(lines[1..]);
      if !HasPrefix(line, DATA_PREFIX) {
        OpenAiFold(json, next, lines[1..]);
      } else {
        var p := line[|DATA_PREFIX|..];
        if p != "[DONE]" {
          var ps := [p] + later;
          assert Payloads(lines) == ps;
          assert ps[0] == p && forall k :: 0 <= k < |later| ==> ps[k + 1] == later[k];
          if json.openaiChunk(p).Some? {
            OpenAiFold(json, next, lines[1..]);
            assert Undecodable(json, ps) <==> Undecodable(json, later) by {
              if Undecodable(json, ps) {
                var k :| 0 <= k < |ps| && json.openaiChunk(ps[k]).None?;
                assert json.openaiChunk(later[k - 1]).None?;
              }
            }
            LastUsageAppend(json, [p], later);
            assert [p][..0] == [];
            assert LastUsage(json, [p]) == json.openaiChunk(p).value;
          }
        }
      }
    }
  }

  /** For every cutting and grouping of the stream: an error if some payload before `[DONE]` does not decode,
      else the last usage that is not all zero. */
  lemma OpenAiStreamVerdict(json: Json, bodies: seq<seq<Bytes>>)
    ensures OpenAiVerdict(FeedBodies(OpenAiParser(json), Framed([], OPENAI_INIT), bodies).st)
         == var ps := Payloads(Lines(Flatten(Flatten(bodies))));
            if Undecodable(json, ps) then Failed else Counted(LastUsage(json, ps))
  {
    var m, chunks := OpenAiParser(json), Flatten(bodies);
    GroupingIsIrrelevant(m, Framed([], OPENAI_INIT), bodies);
    assert [] + Flatten(chunks) == Flatten(chunks);
    ChunkingIndependent(m, Framed([], OPENAI_INIT), chunks);
    OpenAiFold(json, OPENAI_INIT, Lines(Flatten(chunks)));
  }

  // ----- Anthropic. -----

  datatype Anthropic = Anthropic(done: bool, failed: bool, input: uint32, output: uint32, event: Bytes)

  const ANTHROPIC_INIT: Anthropic := Anthropic(false, false, 0, 0, "")

  /** `parseAnthropicChunk`: the usage an event carries, or an error. */
  function AnthropicChunk(json: Json, name: Bytes, data: Bytes): Option<LLMUsage> {
    if name == "message_start" then
      match json.messageStart(data)
      case None => None
      case Some(u) => Some(LLMUsage(u.0, u.1, Add32(u.0, u.1)))
    else if name == "message_delta" then
      match json.messageDelta(data)
      case None => None
      case Some(out) => Some(LLMUsage(0, out, 0))
    else Some(NO_USAGE)
  }

  function AnthropicEvent(json: Json, st: Anthropic, name: Bytes, data: Bytes): Anthropic {
    if name == "message_stop" then st.(done := true)
    else
      match AnthropicChunk(json, name, data)
      case None => st.(failed := true)
      case Some(u) =>
        if u != NO_USAGE then
          st.(input := if u.input > 0 then u.input else st.input,
              output := if u.output > 0 then u.output else st.output)
        else st
  }

  function AnthropicLine(json: Json, st: Anthropic, raw: Bytes): Anthropic {
    var line := TrimSpace(raw);
    if HasPrefix(line, EVENT_PREFIX) then st.(event := line[|EVENT_PREFIX|..])
    else if HasPrefix(line, DATA_PREFIX) then
      var r := AnthropicEvent(json, st, st.event, line[|DATA_PREFIX|..]);
      if r.failed then r else r.(event := "")
    else st
  }

  function AnthropicParser(json: Json): Machine<Anthropic> {
    Machine((st, line) => AnthropicLine(json, st, line),
            (st: Anthropic) => st.failed,
            (st: Anthropic) => st.done || st.failed)
  }

  function AnthropicUsage(st: Anthropic): LLMUsage {
    LLMUsage(st.input, st.output, Add32(st.input, st.output))
  }

  function AnthropicVerdict(st: Anthropic): Verdict {
    if st.failed then Failed else Counted(AnthropicUsage(st))
  }

  class AnthropicSSEParser {
    const json: Json
    var buf: Bytes
    var done: bool
    var input: uint32
    var output: uint32
    var event: Bytes

    ghost function View(failed: bool): Framed<Anthropic>
      reads this
    {
      Framed(buf, Anthropic(done, failed, input, output, event))
    }

    constructor (json: Json)
      ensures View(false) == Framed([], ANTHROPIC_INIT) && this.json == json
    {
      this.json := json;
      buf, done, input, output, event := [], false, 0, 0, "";
    }

    method Feed(data: Bytes) returns (failed: bool)
      modifies this
      ensures View(failed) == SseFraming.Feed(AnthropicParser(json), old(View(false)), data)
    {
      if done { return false; }
      buf := buf + data;
      failed := ParseEvents();
    }

    method ParseEvents() returns (failed: bool)
      modifies this
      ensures View(failed) == Drain(AnthropicParser(json), old(View(false)))
    {
      while true
        invariant Drain(AnthropicParser(json), View(false)) == Drain(AnthropicParser(json), old(View(false)))
        decreases |buf|
      {
        var idx := IndexOf(buf, '\n');
        if idx < 0 { return false; }
        var line := TrimSpace(buf[..idx]);
        buf := buf[idx + 1..];
        if HasPrefix(line, EVENT_PREFIX) {
          event := line[|EVENT_PREFIX|..];
          continue;
        }
        if HasPrefix(line, DATA_PREFIX) {
          failed := ProcessEvent(event, line[|DATA_PREFIX|..]);
          if failed { return; }
          event := "";
        }
      }
    }

    method ProcessEvent(name: Bytes, data: Bytes) returns (failed: bool)
      modifies this
      ensures buf == old(buf) && View(failed).st == AnthropicEvent(json, old(View(false).st), name, data)
    {
      if name == "message_stop" {
        done := true;
        return false;
      }
      var chunk := AnthropicChunk(json, name, data);
      if chunk.None? { return true; }
      if chunk.value != NO_USAGE {
        if chunk.value.input > 0 {
          input := chunk.value.input;
        }
        if chunk.value.output > 0 {
          output := chunk.value.output;
        }
      }
      return false;
    }

    method Finish() returns (u: LLMUsage)
      ensures Counted(u) == AnthropicVerdict(View(false).st)
    {
      u := LLMUsage(input, output, Add32(input, output));
    }
  }

  lemma EventStaysClosed(json: Json, st: Anthropic, name: Bytes, data: Bytes)
    ensures st.done ==> AnthropicEvent(json, st, name, data).done
    ensures st.failed ==> AnthropicEvent(json, st, name, data).failed
  {
  }

  lemma LineStaysClosed(json: Json, st: Anthropic, raw: Bytes)
    ensures st.done ==> AnthropicLine(json, st, raw).done
    ensures st.failed ==> AnthropicLine(json, st, raw).failed
  {
    var line := TrimSpace(raw);
    if !HasPrefix(line, EVENT_PREFIX) && HasPrefix(line, DATA_PREFIX) {
      EventStaysClosed(json, st, st.event, line[|DATA_PREFIX|..]);
    }
  }

  lemma AnthropicTwoStops(json: Json)
    ensures TwoStops(AnthropicParser(json))
  {
    forall st: Anthropic, line: Bytes
      ensures st.done || st.failed ==> AnthropicLine(json, st, line).done || AnthropicLine(json, st, line).failed
    {
      LineStaysClosed(json, st, line);
    }
  }

  /** The exact condition: the verdict is the same for every cutting of a stream if and only if no line after
      `message_stop` changes the verdict. */
  lemma AnthropicVerdictIgnoresCutsIff(json: Json, s: Bytes)
    ensures SameForEveryCutting(AnthropicParser(json), ANTHROPIC_INIT, s, AnthropicVerdict)
       <==> QuietAfterClose(AnthropicParser(json), ANTHROPIC_INIT, Lines(s), AnthropicVerdict)
  {
    AnthropicTwoStops(json);
    ChunkingIndependentIff(AnthropicParser(json), ANTHROPIC_INIT, s, AnthropicVerdict);
  }

  /** The line announces an event that can change the verdict. */
  predicate Announces(raw: Bytes) {
    var line := TrimSpace(raw);
    HasPrefix(line, EVENT_PREFIX) && line[|EVENT_PREFIX|..] in {"message_start", "message_delta"}
  }

  /** No usage event is pending. */
  predicate Calm(st: Anthropic) {
    !st.failed && st.event !in {"message_start", "message_delta"}
  }

  lemma SilenceIsHarmless(json: Json)
    ensures Harmless(AnthropicParser(json), AnthropicVerdict, Calm, Announces)
    ensures ClosesCalm(AnthropicParser(json), Calm)
  {
    forall st: Anthropic, line: Bytes
      ensures Calm(st) && !Announces(line) ==>
                && Calm(AnthropicLine(json, st, line))
                && AnthropicVerdict(AnthropicLine(json, st, line)) == AnthropicVerdict(st)
      ensures !st.done && !st.failed && AnthropicLine(json, st, line).done && !AnthropicLine(json, st, line).failed ==>
                Calm(AnthropicLine(json, st, line))
    {
      SilentLine(json, st, line);
    }
  }

  lemma SilentLine(json: Json, st: Anthropic, line: Bytes)
    ensures var next := AnthropicLine(json, st, line);
            && (Calm(st) && !Announces(line) ==> Calm(next) && AnthropicVerdict(next) == AnthropicVerdict(st))
            && (!st.done && !st.failed && next.done && !next.failed ==> Calm(next))
  {
  }

  // ----- The Anthropic verdict without the parser. -----

  type Counts = Option<(uint32, uint32)>

  /** The input and output counts an event carries, or None for a payload that does not decode: a `message_start` has
      both, a `message_delta` only the output, and no other event has any. */
  function CountsIn(json: Json, name: Bytes, payload: Bytes): Counts {
    if name == "message_start" then json.messageStart(payload)
    else if name != "message_delta" then Some((0, 0))
    else if json.messageDelta(payload) == None then None
    else Some((0, json.messageDelta(payload).value))
  }

  /** The counts of each data line up to `message_stop`. */
  function Usages(json: Json, pending: Bytes, lines: seq<Bytes>): seq<Counts>
    decreases |lines|
  {
    if lines == [] then []
    else
      var line := TrimSpace(lines[0]);
      if HasPrefix(line, EVENT_PREFIX) then Usages(json, line[|EVENT_PREFIX|..], lines[1..])
      else if !HasPrefix(line, DATA_PREFIX) then Usages(json, pending, lines[1..])
      else if pending == "message_stop" then []
      else [CountsIn(json, pending, line[|DATA_PREFIX|..])] + Usages(json, "", lines[1..])
  }

  predicate SomeUndecodable(us: seq<Counts>) {
    exists k :: 0 <= k < |us| && us[k].None?
  }

  /** The last positive input count. */
  function LastInput(us: seq<Counts>): uint32
    decreases |us|
  {
    if us == [] then 0
    else
      var u := us[|us| - 1];
      if u.Some? && u.value.0 > 0 then u.value.0 else LastInput(us[..|us| - 1])
  }

  /** The last positive output count. */
  function LastOutput(us: seq<Counts>): uint32
    decreases |us|
  {
    if us == [] then 0
    else
      var u := us[|us| - 1];
      if u.Some? && u.value.1 > 0 then u.value.1 else LastOutput(us[..|us| - 1])
  }

  function VerdictOf(us: seq<Counts>): Verdict {
    if SomeUndecodable(us) then Failed
    else Counted(LLMUsage(LastInput(us), LastOutput(us), Add32(LastInput(us), LastOutput(us))))
  }

  lemma {:induction false} LastOfCons(u: Counts, us: seq<Counts>)
    ensures LastInput([u] + us) == if LastInput(us) > 0 || u.None? then LastInput(us) else u.value.0
    ensures LastOutput([u] + us) == if LastOutput(us) > 0 || u.None? then LastOutput(us) else u.value.1
    decreases |us|
  {
    var all := [u] + us;
    if us == [] {
      assert all[..|all| - 1] == [];
    } else {
      assert all[..|all| - 1] == [u] + us[..|us| - 1];
      LastOfCons(u, us[..|us| - 1]);
    }
  }

  lemma UndecodableCons(u: Counts, us: seq<Counts>)
    ensures SomeUndecodable([u] + us) <==> u.None? || SomeUndecodable(us)
  {
    var all := [u] + us;
    assert all[0] == u && forall k :: 0 <= k < |us| ==> all[k + 1] == us[k];
    if SomeUndecodable(all) && u.Some? {
      var k :| 0 <= k < |all| && all[k].None?;
      assert us[k - 1].None?;
    }
  }

  /** From `st` on, the counts `us` lead to `r`. */
  ghost predicate LeadsTo(st: Anthropic, us: seq<Counts>, r: Anthropic) {
    && (r.failed <==> SomeUndecodable(us))
    && (!r.failed ==> r.input == (if LastInput(us) > 0 then LastInput(us) else st.input))
    && (!r.failed ==> r.output == (if LastOutput(us) > 0 then LastOutput(us) else st.output))
  }

  /** What one data line does to the counts. */
  lemma DataCounts(json: Json, st: Anthropic, data: Bytes, us: seq<Counts>, r: Anthropic)
    requires !st.done && !st.failed && st.event != "message_stop"
    requires var next := AnthropicEvent(json, st, st.event, data);
             if next.failed then r.failed else LeadsTo(next, us, r)
    ensures LeadsTo(st, [CountsIn(json, st.event, data)] + us, r)
  {
    var u := CountsIn(json, st.event, data);
    LastOfCons(u, us);
    UndecodableCons(u, us);
  }

  lemma {:induction false} AnthropicFold(json: Json, st: Anthropic, lines: seq<Bytes>)
    requires !st.done && !st.failed
    ensures LeadsTo(st, Usages(json, st.event, lines), Ideal(AnthropicParser(json), st, lines))
    decreases |lines|
  {
    if lines != [] {
      var line, rest := TrimSpace(lines[0]), lines[1..];
      var next, r := AnthropicLine(json, st, lines[0]), Ideal(AnthropicParser(json), st, lines);
      if !next.done && !next.failed { AnthropicFold(json, next, rest); }
      if !HasPrefix(line, EVENT_PREFIX) && HasPrefix(line, DATA_PREFIX) && st.event != "message_stop" {
        DataCounts(json, st, line[|DATA_PREFIX|..], Usages(json, "", rest), r);
      }
    }
  }

  /** For every cutting and grouping of a stream that announces no usage event after `message_stop`: an error if
      some usage payload before it does not decode, else the last positive counts and their 32-bit sum. */
  lemma AnthropicStreamVerdict(json: Json, bodies: seq<seq<Bytes>>)
    requires SilentAfterClose(AnthropicParser(json), ANTHROPIC_INIT, Lines(Flatten(Flatten(bodies))), Announces)
    ensures AnthropicVerdict(FeedBodies(AnthropicParser(json), Framed([], ANTHROPIC_INIT), bodies).st)
         == VerdictOf(Usages(json, "", Lines(Flatten(Flatten(bodies)))))
  {
    var s := Flatten(Flatten(bodies));
    GroupingIsIrrelevant(AnthropicParser(json), Framed([], ANTHROPIC_INIT), bodies);
    AnthropicTwoStops(json);
    SilenceIsHarmless(json);
    SilentIsQuiet(AnthropicParser(json), ANTHROPIC_INIT, Lines(s), AnthropicVerdict, Calm, Announces);
    AnthropicVerdictIgnoresCutsIff(json, s);
    AnthropicFold(json, ANTHROPIC_INIT, Lines(s));
  }
}
