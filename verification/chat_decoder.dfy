/** The chat-completions decoder: an accumulator that reassembles an OpenAI response from a stream of deltas. */
module ChatDecoder {
  import opened ByteText
  import opened ContentParts
  import opened SseFraming
  import opened SortedKeys

  datatype Usage = Usage(promptTokens: int, completionTokens: int, totalTokens: int, details: Option<(int, int)>)

  datatype ToolCall = ToolCall(id: string, kind: string, name: string, arguments: string)

  datatype ToolDelta = ToolDelta(index: int, id: string, kind: string, name: string, arguments: string)

  /** One choice of a streaming chunk; `content` is still raw JSON. */
  datatype Delta = Delta(index: int, role: string, content: Bytes, toolCalls: seq<ToolDelta>)

  datatype Chunk = Chunk(choices: seq<Delta>, usage: Option<Usage>)

  /** The JSON library: decoding a payload, a string or an array of parts, and encoding a string. */
  datatype Json = Json(
    chunk: Bytes -> Option<Chunk>,
    str: Bytes -> Option<string>,
    parts: Bytes -> Option<seq<ContentPart>>,
    quote: string -> Bytes)

  datatype Choice = Choice(index: int, role: string, content: Bytes, toolCalls: seq<ToolCall>)

  datatype Response = Response(choices: seq<Choice>, usage: Option<Usage>)

  datatype State = State(
    done: bool,
    usage: Option<Usage>,
    roles: map<int, string>,
    contents: map<int, string>,
    tools: map<int, map<int, ToolCall>>,
    maxIdx: int)

  const DATA_PREFIX: Bytes := "data: "
  const INIT: State := State(false, None, map[], map[], map[], -1)

  function Get<K, V>(m: map<K, V>, k: K, default: V): V {
    if k in m then m[k] else default
  }

  // ----- What one line does. -----

  function ExtractContent(json: Json, raw: Bytes): string {
    ContentText(raw, json.str, json.parts)
  }

  function ToolStep(calls: map<int, ToolCall>, d: ToolDelta): map<int, ToolCall> {
    if d.index in calls then
      calls[d.index := calls[d.index].(arguments := calls[d.index].arguments + d.arguments)]
    else
      calls[d.index := ToolCall(d.id, d.kind, d.name, d.arguments)]
  }

  function ToolFold(calls: map<int, ToolCall>, ds: seq<ToolDelta>): map<int, ToolCall>
    decreases |ds|
  {
    if ds == [] then calls else ToolFold(ToolStep(calls, ds[0]), ds[1..])
  }

  function DeltaStep(json: Json, st: State, d: Delta): State {
    var text := ExtractContent(json, d.content);
    st.(maxIdx := if d.index > st.maxIdx then d.index else st.maxIdx,
        roles := if d.role != "" then st.roles[d.index := d.role] else st.roles,
        contents := if text != "" then st.contents[d.index := Get(st.contents, d.index, "") + text] else st.contents,
        tools := if d.toolCalls != []
                 then st.tools[d.index := ToolFold(Get(st.tools, d.index, map[]), d.toolCalls)] else st.tools)
  }

  function DeltaFold(json: Json, st: State, ds: seq<Delta>): State
    decreases |ds|
  {
    if ds == [] then st else DeltaFold(json, DeltaStep(json, st, ds[0]), ds[1..])
  }

  function ChunkStep(json: Json, st: State, c: Chunk): State {
    DeltaFold(json, if c.usage.Some? then st.(usage := c.usage) else st, c.choices)
  }

  function PayloadStep(json: Json, st: State, data: Bytes): State {
    match json.chunk(data)
    case None => st
    case Some(c) => ChunkStep(json, st, c)
  }

  function LineStep(json: Json, st: State, raw: Bytes): State {
    var line := TrimSpace(raw);
    if !HasPrefix(line, DATA_PREFIX) then st
    else
      var data := line[|DATA_PREFIX|..];
      if data == "[DONE]" then st.(done := true) else PayloadStep(json, st, data)
  }

  function Parser(json: Json): Machine<State> {
    Machine((st, line) => LineStep(json, st, line), (st: State) => st.done, (st: State) => st.done)
  }

  function CallsInOrder(calls: map<int, ToolCall>, idxs: seq<int>): seq<ToolCall>
    requires forall k :: 0 <= k < |idxs| ==> idxs[k] in calls
  {
    seq(|idxs|, k requires 0 <= k < |idxs| => calls[idxs[k]])
  }

  function RawContent(json: Json, text: string): Bytes {
    if text == "" then [] else json.quote(text)
  }

  function FinishChoice(json: Json, st: State, i: int): Choice {
    var calls := Get(st.tools, i, map[]);
    Choice(i, Get(st.roles, i, ""), RawContent(json, Get(st.contents, i, "")), CallsInOrder(calls, Sorted(calls.Keys)))
  }

  function FinishChoices(json: Json, st: State, n: nat): (cs: seq<Choice>) {
    if n == 0 then [] else FinishChoices(json, st, n - 1) + [FinishChoice(json, st, n - 1)]
  }

  /** `finish`. */
  function Assemble(json: Json, st: State): Response {
    Response(if st.maxIdx < 0 then [] else FinishChoices(json, st, st.maxIdx + 1), st.usage)
  }

  lemma {:induction false} FinishChoicesAt(json: Json, st: State, n: nat, i: nat)
    requires i < n
    ensures |FinishChoices(json, st, n)| == n && FinishChoices(json, st, n)[i] == FinishChoice(json, st, i)
    decreases n
  {
    if i < n - 1 { FinishChoicesAt(json, st, n - 1, i); }
    else if n > 1 { FinishChoicesAt(json, st, n - 1, 0); }
  }

  lemma NoCalls(none: map<int, ToolCall>)
    requires none == map[]
    ensures CallsInOrder(none, Sorted(none.Keys)) == []
  {
    assert Sorted(none.Keys) == [];
  }

  method PickCalls(m: map<int, ToolCall>, idxs: seq<int>) returns (calls: seq<ToolCall>)
    requires forall k :: 0 <= k < |idxs| ==> idxs[k] in m
    ensures calls == CallsInOrder(m, idxs)
  {
    calls := [];
    for k := 0 to |idxs|
      invariant |calls| == k && forall t :: 0 <= t < k ==> calls[t] == m[idxs[t]]
    {
      calls := calls + [m[idxs[k]]];
    }
  }

  /** The tool calls of one choice: the keys, collected in whatever order the map yields them and then sorted. */
  method OrderedCalls(m: map<int, ToolCall>) returns (calls: seq<ToolCall>)
    ensures calls == CallsInOrder(m, Sorted(m.Keys))
  {
    var keys := CollectKeys(m.Keys);
    var idxs := SortInts(keys);
    SortedIsTheOnlyOne(idxs, m.Keys);
    calls := PickCalls(m, idxs);
  }

  // ----- The accumulator object. -----

  class Accumulator {
    const json: Json
    var buf: Bytes
    var done: bool
    var usage: Option<Usage>
    var roles: map<int, string>
    var contents: map<int, string>
    var tools: map<int, map<int, ToolCall>>
    var maxIdx: int

    ghost function St(): State
      reads this
    {
      State(done, usage, roles, contents, tools, maxIdx)
    }

    ghost function View(): Framed<State>
      reads this
    {
      Framed(buf, St())
    }

    constructor (json: Json)
      ensures View() == Framed([], INIT) && this.json == json
    {
      this.json := json;
      buf, done, usage, maxIdx := [], false, None, -1;
      roles, contents, tools := map[], map[], map[];
    }

    /** Feeding is the framing's `Feed`, with this decoder's line handler. */
    method Feed(data: Bytes)
      modifies this
      ensures View() == SseFraming.Feed(Parser(json), old(View()), data)
    {
      if done { return; }
      buf := buf + data;
      ParseEvents();
    }

    method ParseEvents()
      requires !done
      modifies this
      ensures View() == Drain(Parser(json), old(View()))
    {
      while true
        invariant !done && Drain(Parser(json), View()) == Drain(Parser(json), old(View()))
        decreases |buf|
      {
        var idx := IndexOf(buf, '\n');
        if idx < 0 { return; }
        var line := TrimSpace(buf[..idx]);
        buf := buf[idx + 1..];
        if !HasPrefix(line, DATA_PREFIX) {
          continue;
        }
        var data := line[|DATA_PREFIX|..];
        if data == "[DONE]" {
          done := true;
          return;
        }
        ProcessChunk(data);
      }
    }

    method ProcessChunk(data: Bytes)
      modifies this
      ensures buf == old(buf) && done == old(done) && St() == PayloadStep(json, old(St()), data)
    {
      var decoded := json.chunk(data);
      if decoded.None? { return; }
      var chunk := decoded.value;
      if chunk.usage.Some? {
        usage := chunk.usage;
      }
      for i := 0 to |chunk.choices|
        invariant buf == old(buf) && done == old(done)
        invariant DeltaFold(json, St(), chunk.choices[i..]) == ChunkStep(json, old(St()), chunk)
      {
        ProcessChoice(chunk.choices[i]);
        assert chunk.choices[i..][1..] == chunk.choices[i + 1..];
      }
    }

    method ProcessChoice(choice: Delta)
      modifies this
      ensures buf == old(buf) && St() == DeltaStep(json, old(St()), choice)
    {
      var idx := choice.index;
      if idx > maxIdx {
        maxIdx := idx;
      }
      if choice.role != "" {
        roles := roles[idx := choice.role];
      }
      var content := ExtractContent(json, choice.content);
      if content != "" {
        contents := contents[idx := Get(contents, idx, "") + content];
      }
      AddToolCalls(idx, choice.toolCalls);
    }

    method AddToolCalls(idx: int, deltas: seq<ToolDelta>)
      modifies this`tools
      ensures tools == if deltas == [] then old(tools)
                       else old(tools)[idx := ToolFold(Get(old(tools), idx, map[]), deltas)]
    {
      for k := 0 to |deltas|
        invariant k == 0 ==> tools == old(tools)
        invariant k > 0 ==> idx in tools && tools == old(tools)[idx := tools[idx]]
        invariant ToolFold(Get(tools, idx, map[]), deltas[k..]) == ToolFold(Get(old(tools), idx, map[]), deltas)
      {
        var d := deltas[k];
        if idx !in tools {
          tools := tools[idx := map[]];
        }
        ghost var calls := tools[idx];
        if d.index in tools[idx] {
          var call := tools[idx][d.index];
          tools := tools[idx := tools[idx][d.index := call.(arguments := call.arguments + d.arguments)]];
        } else {
          tools := tools[idx := tools[idx][d.index := ToolCall(d.id, d.kind, d.name, d.arguments)]];
        }
        assert tools[idx] == ToolStep(calls, d);
        assert deltas[k..][1..] == deltas[k + 1..];
      }
    }

    method Finish() returns (resp: Response)
      ensures resp == Assemble(json, St())
    {
      if maxIdx < 0 {
        return Response([], usage);
      }
      var choices: seq<Choice> := [];
      for i := 0 to maxIdx + 1
        invariant choices == FinishChoices(json, St(), i)
      {
        var content := Get(contents, i, "");
        var raw: Bytes := [];
        if content != "" {
          raw := json.quote(content);
        }
        var calls: seq<ToolCall> := [];
        if i in tools {
          calls := OrderedCalls(tools[i]);
        } else {
          NoCalls(map[]);
        }
        choices := choices + [Choice(i, Get(roles, i, ""), raw, calls)];
      }
      resp := Response(choices, usage);
    }
  }
}
