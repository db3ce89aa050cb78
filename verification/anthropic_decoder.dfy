/** The anthropic decoder: an accumulator for the Messages API stream, whose events name themselves on a
    separate `event:` line. */
module AnthropicDecoder {
  import opened ByteText
  import opened SseFraming

  datatype Usage = Usage(inputTokens: int, outputTokens: int, cacheCreation: int, cacheRead: int)

  datatype Block = Block(kind: string, text: string, id: string, name: string, input: Bytes,
                         toolUseId: string, content: Bytes)

  datatype DeltaKind = TextDelta | InputJsonDelta | OtherDelta

  /** A decoded event. `Ignored` stands for an event of another name and for a payload that does not decode. */
  datatype Event =
    | MessageStart(role: string, usage: Option<Usage>)
    | BlockStart(index: int, block: Block)
    | BlockDelta(index: int, delta: DeltaKind, piece: string)
    | MessageDelta(outputTokens: Option<int>)
    | MessageStop
    | Ignored

  /** The JSON library: one decoder per event payload. */
  datatype Json = Json(
    messageStart: Bytes -> Option<(string, Option<Usage>)>,
    blockStart: Bytes -> Option<(int, Block)>,
    blockDelta: Bytes -> Option<(int, DeltaKind, string)>,
    messageDelta: Bytes -> Option<Option<int>>)

  /** `panicked` records that the Go code indexed the block slice out of range. */
  datatype State = State(
    done: bool,
    panicked: bool,
    role: string,
    usage: Option<Usage>,
    blocks: seq<Block>,
    texts: map<int, string>,
    jsons: map<int, string>,
    event: Bytes)

  datatype Response = Response(role: string, content: seq<Block>, usage: Option<Usage>)

  const EVENT_PREFIX: Bytes := "event: "
  const DATA_PREFIX: Bytes := "data: "
  const EMPTY_BLOCK: Block := Block("", "", "", "", [], "", [])
  const INIT: State := State(false, false, "", None, [], map[], map[], "")

  function Get(m: map<int, string>, i: int): string {
    if i in m then m[i] else ""
  }

  function Decode(json: Json, name: Bytes, data: Bytes): Event {
    if name == "message_start" && json.messageStart(data).Some? then
      MessageStart(json.messageStart(data).value.0, json.messageStart(data).value.1)
    else if name == "content_block_start" && json.blockStart(data).Some? then
      BlockStart(json.blockStart(data).value.0, json.blockStart(data).value.1)
    else if name == "content_block_delta" && json.blockDelta(data).Some? then
      var d := json.blockDelta(data).value;
      BlockDelta(d.0, d.1, d.2)
    else if name == "message_delta" && json.messageDelta(data).Some? then
      MessageDelta(json.messageDelta(data).value)
    else if name == "message_stop" then MessageStop
    else Ignored
  }

  /** The slice grown so that `n` is an index of it. */
  function Grow(blocks: seq<Block>, n: nat): (r: seq<Block>)
    ensures |r| == (if |blocks| > n then |blocks| else n + 1) && blocks <= r
    ensures forall i :: |blocks| <= i < |r| ==> r[i] == EMPTY_BLOCK
    decreases n + 1 - |blocks|
  {
    if |blocks| <= n then Grow(blocks + [EMPTY_BLOCK], n) else blocks
  }

  function Apply(st: State, e: Event): State {
    match e
    case MessageStart(role, usage) => st.(role := role, usage := if usage.Some? then usage else st.usage)
    case BlockStart(i, block) =>
      if i < 0 then st.(panicked := true) else st.(blocks := Grow(st.blocks, i)[i := block])
    case BlockDelta(i, TextDelta, piece) => st.(texts := st.texts[i := Get(st.texts, i) + piece])
    case BlockDelta(i, InputJsonDelta, piece) => st.(jsons := st.jsons[i := Get(st.jsons, i) + piece])
    case BlockDelta(_, OtherDelta, _) => st
    case MessageDelta(out) =>
      if out.Some? && st.usage.Some? then st.(usage := Some(st.usage.value.(outputTokens := out.value))) else st
    case MessageStop => st.(done := true)
    case Ignored => st
  }

  function LineStep(json: Json, st: State, raw: Bytes): State {
    var line := TrimSpace(raw);
    if HasPrefix(line, EVENT_PREFIX) then st.(event := line[|EVENT_PREFIX|..])
    else if HasPrefix(line, DATA_PREFIX) then
      Apply(st, Decode(json, st.event, line[|DATA_PREFIX|..])).(event := "")
    else st
  }

  /** Buffered lines are consumed to the end even after `message_stop`; only later feeds are refused. */
  function Parser(json: Json): Machine<State> {
    Machine((st, line) => LineStep(json, st, line),
            (st: State) => st.panicked,
            (st: State) => st.done || st.panicked)
  }

  function Fill(st: State, i: int, b: Block): Block {
    if b.kind == "text" && i in st.texts then b.(text := st.texts[i])
    else if b.kind == "tool_use" && i in st.jsons then b.(input := st.jsons[i])
    else b
  }

  function Filled(st: State): seq<Block> {
    seq(|st.blocks|, i requires 0 <= i < |st.blocks| => Fill(st, i, st.blocks[i]))
  }

  /** `finish`. */
  function Assemble(st: State): Response {
    Response(st.role, Filled(st), st.usage)
  }

  /** What a caller sees of a state: the response, unless the parser has panicked. */
  function Outcome(st: State): Option<Response> {
    if st.panicked then None else Some(Assemble(st))
  }

  class Accumulator {
    const json: Json
    var buf: Bytes
    var done: bool
    var panicked: bool
    var role: string
    var usage: Option<Usage>
    var blocks: seq<Block>
    var texts: map<int, string>
    var jsons: map<int, string>
    var event: Bytes

    ghost function St(): State
      reads this
    {
      State(done, panicked, role, usage, blocks, texts, jsons, event)
    }

    ghost function View(): Framed<State>
      reads this
    {
      Framed(buf, St())
    }

    constructor (json: Json)
      ensures View() == Framed([], INIT) && this.json == json
    {
      this.json := json;
      buf, done, panicked, role, usage := [], false, false, "", None;
      blocks, texts, jsons, event := [], map[], map[], "";
    }

    /** Feeding is the framing's `Feed`, with this decoder's line handler and its two stopping conditions. */
    method Feed(data: Bytes)
      requires !panicked
      modifies this
      ensures View() == SseFraming.Feed(Parser(json), old(View()), data)
    {
      if done { return; }
      buf := buf + data;
      ParseEvents();
    }

    method ParseEvents()
      requires !panicked
      modifies this
      ensures View() == Drain(Parser(json), old(View()))
    {
      while true
        invariant !panicked && Drain(Parser(json), View()) == Drain(Parser(json), old(View()))
        decreases |buf|
      {
        var idx := IndexOf(buf, '\n');
        if idx < 0 { return; }
        var line := TrimSpace(buf[..idx]);
        buf := buf[idx + 1..];
        if HasPrefix(line, EVENT_PREFIX) {
          event := line[|EVENT_PREFIX|..];
          continue;
        }
        if HasPrefix(line, DATA_PREFIX) {
          ProcessEvent(event, line[|DATA_PREFIX|..]);
          event := "";
          if panicked { return; }
        }
      }
    }

    method ProcessEvent(name: Bytes, data: Bytes)
      modifies this
      ensures buf == old(buf) && St() == Apply(old(St()), Decode(json, name, data))
    {
      if name == "message_start" {
        var msg := json.messageStart(data);
        if msg.None? { return; }
        role := msg.value.0;
        if msg.value.1.Some? {
          usage := msg.value.1;
        }
      } else if name == "content_block_start" {
        var start := json.blockStart(data);
        if start.None? { return; }
        var i := start.value.0;
        while |blocks| <= i
          invariant buf == old(buf) && St().(blocks := old(blocks)) == old(St())
          invariant i >= 0 ==> Grow(blocks, i) == Grow(old(blocks), i)
          invariant i < 0 ==> blocks == old(blocks)
          decreases i + 1 - |blocks|
        {
          blocks := blocks + [EMPTY_BLOCK];
        }
        if i < 0 {
          panicked := true;
          return;
        }
        blocks := blocks[i := start.value.1];
      } else if name == "content_block_delta" {
        var d := json.blockDelta(data);
        if d.None? { return; }
        match d.value.1
        case TextDelta => texts := texts[d.value.0 := Get(texts, d.value.0) + d.value.2];
        case InputJsonDelta => jsons := jsons[d.value.0 := Get(jsons, d.value.0) + d.value.2];
        case OtherDelta =>
      } else if name == "message_delta" {
        var md := json.messageDelta(data);
        if md.None? { return; }
        if md.value.Some? && usage.Some? {
          usage := Some(usage.value.(outputTokens := md.value.value));
        }
      } else if name == "message_stop" {
        done := true;
      }
    }

    /** The response shares its blocks with the accumulator, so finishing writes into them. */
    method Finish() returns (resp: Response)
      modifies this`blocks
      ensures resp == Assemble(old(St())) && St() == old(St()).(blocks := resp.content)
    {
      ghost var st := St();
      var content := blocks;
      for i := 0 to |content|
        invariant |content| == |st.blocks| && St() == st.(blocks := content)
        invariant forall k :: 0 <= k < i ==> content[k] == Fill(st, k, st.blocks[k])
        invariant forall k :: i <= k < |content| ==> content[k] == st.blocks[k]
      {
        if content[i].kind == "text" {
          if i in texts {
            content := content[i := content[i].(text := texts[i])];
          }
        } else if content[i].kind == "tool_use" {
          if i in jsons {
            content := content[i := content[i].(input := jsons[i])];
          }
        }
        blocks := content;
      }
      assert content == Filled(st);
      resp := Response(role, content, usage);
    }
  }

  /** Finishing again changes nothing, although the first time wrote into the blocks. */
  lemma FinishTwice(st: State)
    ensures Assemble(st.(blocks := Filled(st))) == Assemble(st)
  {
    var again := st.(blocks := Filled(st));
    forall i | 0 <= i < |st.blocks|
      ensures Filled(again)[i] == Filled(st)[i]
    {
    }
    assert Filled(again) == Filled(st);
  }

  // ----- Cuts. -----

  lemma ApplyStaysClosed(st: State, e: Event)
    ensures (st.done ==> Apply(st, e).done) && (st.panicked ==> Apply(st, e).panicked)
  {
  }

  lemma LineStaysClosed(json: Json, st: State, raw: Bytes)
    ensures st.done ==> LineStep(json, st, raw).done
    ensures st.panicked ==> LineStep(json, st, raw).panicked
  {
    var line := TrimSpace(raw);
    if !HasPrefix(line, EVENT_PREFIX) && HasPrefix(line, DATA_PREFIX) {
      ApplyStaysClosed(st, Decode(json, st.event, line[|DATA_PREFIX|..]));
    }
  }

  lemma TwoStopsHolds(json: Json)
    ensures TwoStops(Parser(json))
  {
    forall st: State, line: Bytes
      ensures st.done || st.panicked ==> LineStep(json, st, line).done || LineStep(json, st, line).panicked
    {
      LineStaysClosed(json, st, line);
    }
  }

  /** The exact condition: the decoded response is the same for every cutting of a stream if and only if no line
      after `message_stop` changes the response. */
  lemma DecodingIgnoresCutsIff(json: Json, s: Bytes)
    ensures SameForEveryCutting(Parser(json), INIT, s, Outcome)
       <==> QuietAfterClose(Parser(json), INIT, Lines(s), Outcome)
  {
    TwoStopsHolds(json);
    ChunkingIndependentIff(Parser(json), INIT, s, Outcome);
  }

  predicate Effective(name: Bytes) {
    name in {"message_start", "content_block_start", "content_block_delta", "message_delta"}
  }

  /** The line announces an event that can change the response. */
  predicate Announces(raw: Bytes) {
    var line := TrimSpace(raw);
    HasPrefix(line, EVENT_PREFIX) && Effective(line[|EVENT_PREFIX|..])
  }

  /** The pending event name and the `done` flag are not part of what is shown. */
  lemma PendingIsNotShown(a: State, b: State)
    requires a.(event := "", done := false) == b.(event := "", done := false)
    ensures Outcome(a) == Outcome(b)
  {
    assert Filled(a) == Filled(b);
  }

  /** Nothing effective is pending. */
  predicate Calm(st: State) {
    !st.panicked && !Effective(st.event)
  }

  lemma SilentLine(json: Json, st: State, line: Bytes)
    ensures var next := LineStep(json, st, line);
            && (Calm(st) && !Announces(line) ==> Calm(next) && Outcome(next) == Outcome(st))
            && (!st.done && !st.panicked && next.done && !next.panicked ==> Calm(next))
  {
    if Calm(st) && !Announces(line) { PendingIsNotShown(st, LineStep(json, st, line)); }
  }

  lemma SilenceIsHarmless(json: Json)
    ensures Harmless(Parser(json), Outcome, Calm, Announces) && ClosesCalm(Parser(json), Calm)
  {
    forall st: State, line: Bytes
      ensures Calm(st) && !Announces(line) ==>
                Calm(LineStep(json, st, line)) && Outcome(LineStep(json, st, line)) == Outcome(st)
      ensures !st.done && !st.panicked && LineStep(json, st, line).done && !LineStep(json, st, line).panicked ==>
                Calm(LineStep(json, st, line))
    {
      SilentLine(json, st, line);
    }
  }

  /** If no line after the closing one announces an effective event, the cuts do not matter. */
  lemma QuietStreamIgnoresCuts(json: Json, s: Bytes, chunks: seq<Bytes>)
    requires SilentAfterClose(Parser(json), INIT, Lines(s), Announces)
    requires Flatten(chunks) == s
    ensures Outcome(FeedAll(Parser(json), Framed([], INIT), chunks).st)
         == Outcome(Ideal(Parser(json), INIT, Lines(s)))
  {
    TwoStopsHolds(json);
    SilenceIsHarmless(json);
    SilentIsQuiet(Parser(json), INIT, Lines(s), Outcome, Calm, Announces);
    DecodingIgnoresCutsIff(json, s);
  }
}
