/** What the chat-completions decoder returns, stated without its maps: every choice is read off its own
    deltas, whatever order they arrived in and however the bytes were cut. */
module ChatReassembly {
  import opened ByteText
  import opened ContentParts
  import opened SseFraming
  import opened SortedKeys
  import opened ChatDecoder

  // ----- Reading a list of deltas choice by choice. -----

  /** The deltas of choice `i`, in order. */
  function Project(ds: seq<Delta>, i: int): seq<Delta>
    decreases |ds|
  {
    if ds == [] then []
    else if ds[0].index == i then [ds[0]] + Project(ds[1..], i)
    else Project(ds[1..], i)
  }

  function AllText(json: Json, p: seq<Delta>): string
    decreases |p|
  {
    if p == [] then "" else ExtractContent(json, p[0].content) + AllText(json, p[1..])
  }

  function LastRole(p: seq<Delta>): string
    decreases |p|
  {
    if p == [] then "" else if LastRole(p[1..]) != "" then LastRole(p[1..]) else p[0].role
  }

  function AllTools(p: seq<Delta>): seq<ToolDelta>
    decreases |p|
  {
    if p == [] then [] else p[0].toolCalls + AllTools(p[1..])
  }

  /** All argument fragments of tool call `j`, in order. */
  function ArgumentsOf(tds: seq<ToolDelta>, j: int): string
    decreases |tds|
  {
    if tds == [] then "" else (if tds[0].index == j then tds[0].arguments else "") + ArgumentsOf(tds[1..], j)
  }

  /** The first delta of tool call `j`: it alone carries the id, type and name. */
  function HeaderOf(tds: seq<ToolDelta>, j: int): Option<ToolDelta>
    decreases |tds|
  {
    if tds == [] then None else if tds[0].index == j then Some(tds[0]) else HeaderOf(tds[1..], j)
  }

  function IndicesOf(tds: seq<ToolDelta>): set<int> {
    set d | d in tds :: d.index
  }

  function CallOf(tds: seq<ToolDelta>, j: int): ToolCall {
    match HeaderOf(tds, j)
    case None => ToolCall("", "", "", "")
    case Some(h) => ToolCall(h.id, h.kind, h.name, ArgumentsOf(tds, j))
  }

  function CallsOf(tds: seq<ToolDelta>): seq<ToolCall> {
    var idxs := Sorted(IndicesOf(tds));
    seq(|idxs|, k requires 0 <= k < |idxs| => CallOf(tds, idxs[k]))
  }

  function LastIndex(ds: seq<Delta>): (n: int)
    ensures n >= -1
    decreases |ds|
  {
    if ds == [] then -1
    else if ds[0].index > LastIndex(ds[1..]) then ds[0].index
    else LastIndex(ds[1..])
  }

  function ChoiceOf(json: Json, ds: seq<Delta>, i: int): Choice {
    var p := Project(ds, i);
    var text := AllText(json, p);
    Choice(i, LastRole(p), if text == "" then [] else json.quote(text), CallsOf(AllTools(p)))
  }

  /** The response, choice by choice. */
  function Reference(json: Json, ds: seq<Delta>, usage: Option<Usage>): Response {
    Response(seq(LastIndex(ds) + 1, i => ChoiceOf(json, ds, i)), usage)
  }

  // ----- The accumulator's maps agree with that reading. -----

  lemma StepText(json: Json, st: State, d: Delta)
    ensures Get(DeltaStep(json, st, d).contents, d.index, "")
         == Get(st.contents, d.index, "") + ExtractContent(json, d.content)
  {
    assert Get(st.contents, d.index, "") + "" == Get(st.contents, d.index, "");
  }

  lemma {:induction false} FoldText(json: Json, st: State, ds: seq<Delta>, i: int)
    ensures Get(DeltaFold(json, st, ds).contents, i, "") == Get(st.contents, i, "") + AllText(json, Project(ds, i))
    decreases |ds|
  {
    if ds == [] {
      assert Get(st.contents, i, "") + "" == Get(st.contents, i, "");
    } else {
      FoldText(json, DeltaStep(json, st, ds[0]), ds[1..], i);
      if ds[0].index == i {
        StepText(json, st, ds[0]);
        var later := AllText(json, Project(ds[1..], i));
        AppendAssociative(Get(st.contents, i, ""), ExtractContent(json, ds[0].content), later);
        assert Project(ds, i)[1..] == Project(ds[1..], i);
      }
    }
  }

  lemma {:induction false} FoldRole(json: Json, st: State, ds: seq<Delta>, i: int)
    ensures Get(DeltaFold(json, st, ds).roles, i, "")
         == if LastRole(Project(ds, i)) != "" then LastRole(Project(ds, i)) else Get(st.roles, i, "")
    decreases |ds|
  {
    if ds != [] {
      FoldRole(json, DeltaStep(json, st, ds[0]), ds[1..], i);
      if ds[0].index == i { assert Project(ds, i) == [ds[0]] + Project(ds[1..], i); }
    }
  }

  lemma {:induction false} ToolFoldAppend(calls: map<int, ToolCall>, a: seq<ToolDelta>, b: seq<ToolDelta>)
    ensures ToolFold(calls, a + b) == ToolFold(ToolFold(calls, a), b)
    decreases |a|
  {
    if a == [] {
      assert a + b == b;
    } else {
      assert (a + b)[1..] == a[1..] + b;
      ToolFoldAppend(ToolStep(calls, a[0]), a[1..], b);
    }
  }

  lemma {:induction false} FoldTools(json: Json, st: State, ds: seq<Delta>, i: int)
    ensures Get(DeltaFold(json, st, ds).tools, i, map[])
         == ToolFold(Get(st.tools, i, map[]), AllTools(Project(ds, i)))
    decreases |ds|
  {
    if ds != [] {
      var d, next := ds[0], DeltaStep(json, st, ds[0]);
      FoldTools(json, next, ds[1..], i);
      if d.index == i {
        assert Project(ds, i) == [d] + Project(ds[1..], i);
        ToolFoldAppend(Get(st.tools, i, map[]), d.toolCalls, AllTools(Project(ds[1..], i)));
        assert Get(next.tools, i, map[]) == ToolFold(Get(st.tools, i, map[]), d.toolCalls);
      }
    }
  }

  lemma {:induction false} FoldRest(json: Json, st: State, ds: seq<Delta>)
    requires st.maxIdx >= -1
    ensures var r := DeltaFold(json, st, ds);
            && r.usage == st.usage && r.done == st.done
            && r.maxIdx == if LastIndex(ds) > st.maxIdx then LastIndex(ds) else st.maxIdx
    decreases |ds|
  {
    if ds != [] { FoldRest(json, DeltaStep(json, st, ds[0]), ds[1..]); }
  }

  lemma {:induction false} ToolFoldAt(calls: map<int, ToolCall>, tds: seq<ToolDelta>, j: int)
    ensures j in ToolFold(calls, tds) <==> j in calls || HeaderOf(tds, j).Some?
    ensures j in calls ==>
              ToolFold(calls, tds)[j] == calls[j].(arguments := calls[j].arguments + ArgumentsOf(tds, j))
    ensures j !in calls && HeaderOf(tds, j).Some? ==> ToolFold(calls, tds)[j] == CallOf(tds, j)
    decreases |tds|
  {
    if tds != [] {
      var d, next := tds[0], ToolStep(calls, tds[0]);
      ToolFoldAt(next, tds[1..], j);
      if d.index == j && j in calls {
        assert (calls[j].arguments + d.arguments) + ArgumentsOf(tds[1..], j)
            == calls[j].arguments + (d.arguments + ArgumentsOf(tds[1..], j));
      }
    }
  }

  lemma {:induction false} HeaderIffIndex(tds: seq<ToolDelta>, j: int)
    ensures HeaderOf(tds, j).Some? <==> j in IndicesOf(tds)
    ensures HeaderOf(tds, j).Some? ==> HeaderOf(tds, j).value.index == j
    decreases |tds|
  {
    if tds != [] {
      HeaderIffIndex(tds[1..], j);
      assert tds[0] in tds;
      assert tds == [tds[0]] + tds[1..];
      if j in IndicesOf(tds) && j !in IndicesOf(tds[1..]) {
        var d :| d in tds && d.index == j;
        assert d == tds[0] || d in tds[1..];
      }
    }
  }

  lemma CallsAgree(tds: seq<ToolDelta>)
    ensures var m := ToolFold(map[], tds); CallsInOrder(m, Sorted(m.Keys)) == CallsOf(tds)
  {
    var m := ToolFold(map[], tds);
    forall j: int
      ensures (j in m <==> j in IndicesOf(tds)) && (j in m ==> m[j] == CallOf(tds, j))
    {
      ToolFoldAt(map[], tds, j);
      HeaderIffIndex(tds, j);
    }
    SortedIsTheOnlyOne(Sorted(IndicesOf(tds)), m.Keys);
  }

  lemma ChoiceAgrees(json: Json, usage: Option<Usage>, ds: seq<Delta>, i: int)
    ensures FinishChoice(json, DeltaFold(json, INIT.(usage := usage), ds), i) == ChoiceOf(json, ds, i)
  {
    var st := INIT.(usage := usage);
    FoldText(json, st, ds, i);
    FoldRole(json, st, ds, i);
    FoldTools(json, st, ds, i);
    CallsAgree(AllTools(Project(ds, i)));
    assert "" + AllText(json, Project(ds, i)) == AllText(json, Project(ds, i));
  }

  /** Whatever the deltas, the assembled response is the one read off choice by choice: contents and
      arguments are in-order concatenations, tool calls come in index order, unmentioned choices are empty. */
  lemma AssembledIsReference(json: Json, usage: Option<Usage>, ds: seq<Delta>)
    ensures Assemble(json, DeltaFold(json, INIT.(usage := usage), ds)) == Reference(json, ds, usage)
  {
    var st := DeltaFold(json, INIT.(usage := usage), ds);
    FoldRest(json, INIT.(usage := usage), ds);
    var n := LastIndex(ds) + 1;
    if n > 0 {
      forall i | 0 <= i < n
        ensures |FinishChoices(json, st, n)| == n && FinishChoices(json, st, n)[i] == ChoiceOf(json, ds, i)
      {
        FinishChoicesAt(json, st, n, i);
        ChoiceAgrees(json, usage, ds, i);
      }
      assert FinishChoices(json, st, n)[0] == ChoiceOf(json, ds, 0);
    }
  }

  // ----- Interleaving. -----

  lemma {:induction false} LastIndexByProjection(ds: seq<Delta>, i: int)
    ensures LastIndex(ds) >= 0 ==> Project(ds, LastIndex(ds)) != []
    ensures i > LastIndex(ds) ==> Project(ds, i) == []
    decreases |ds|
  {
    if ds != [] { LastIndexByProjection(ds[1..], i); }
  }

  /** Deltas of different choices commute: two lists with the same deltas per choice give the same response. */
  lemma InterleavingIsIrrelevant(json: Json, usage: Option<Usage>, ds: seq<Delta>, es: seq<Delta>)
    requires forall i :: Project(ds, i) == Project(es, i)
    ensures Assemble(json, DeltaFold(json, INIT.(usage := usage), ds))
         == Assemble(json, DeltaFold(json, INIT.(usage := usage), es))
  {
    AssembledIsReference(json, usage, ds);
    AssembledIsReference(json, usage, es);
    LastIndexByProjection(ds, LastIndex(es));
    LastIndexByProjection(es, LastIndex(ds));
    assert LastIndex(ds) == LastIndex(es);
  }

  // ----- Reassembling an original response. -----

  datatype IndexedCall = IndexedCall(index: int, call: ToolCall)

  datatype OriginalChoice = OriginalChoice(role: string, content: string, calls: seq<IndexedCall>)

  /** `tds` are the calls' arguments cut anywhere and interleaved anyhow; the first piece of a call names it. */
  ghost predicate CutsCalls(tds: seq<ToolDelta>, calls: seq<IndexedCall>) {
    && Increasing(seq(|calls|, k requires 0 <= k < |calls| => calls[k].index))
    && IndicesOf(tds) == (set c | c in calls :: c.index)
    && (forall c :: c in calls ==>
          && ArgumentsOf(tds, c.index) == c.call.arguments
          && HeaderOf(tds, c.index).Some?
          && var h := HeaderOf(tds, c.index).value;
             h.id == c.call.id && h.kind == c.call.kind && h.name == c.call.name)
  }

  /** Each delta says its piece, as a string or otherwise. */
  ghost predicate SayPieces(json: Json, p: seq<Delta>, pieces: seq<string>) {
    |pieces| == |p| && forall k :: 0 <= k < |p| ==> Says(p[k].content, json.str, json.parts, pieces[k])
  }

  /** The deltas' pieces, joined in order, are the text. */
  ghost predicate CutsText(json: Json, p: seq<Delta>, text: string) {
    exists pieces :: SayPieces(json, p, pieces) && Flatten(pieces) == text
  }

  /** `ds` is the original response cut into deltas, interleaved across choices in any way. */
  ghost predicate Cuts(json: Json, ds: seq<Delta>, original: seq<OriginalChoice>) {
    && LastIndex(ds) == |original| - 1
    && forall i :: 0 <= i < |original| ==>
         var p := Project(ds, i);
         && LastRole(p) == original[i].role
         && CutsText(json, p, original[i].content)
         && CutsCalls(AllTools(p), original[i].calls)
  }

  lemma {:induction false} PiecesAreAllText(json: Json, p: seq<Delta>, pieces: seq<string>)
    requires SayPieces(json, p, pieces)
    ensures Flatten(pieces) == AllText(json, p)
    decreases |p|
  {
    if p != [] {
      ContentSays(p[0].content, json.str, json.parts, pieces[0]);
      PiecesAreAllText(json, p[1..], pieces[1..]);
    }
  }

  /** The law of the JSON library: what it prints for a text reads back as that text. */
  predicate Quotes(json: Json, text: string) {
    json.quote(text) != [] && json.str(json.quote(text)) == Some(text)
  }

  /** The choice carries the original: index, role and tool calls are the same, and the content is absent for an empty
      text and otherwise JSON that reads as the text. */
  ghost predicate Restores(json: Json, choice: Choice, i: int, original: OriginalChoice) {
    && choice.index == i && choice.role == original.role
    && (original.content == "" ==> choice.content == [])
    && (original.content != "" ==> choice.content != [] && json.str(choice.content) == Some(original.content))
    && |choice.toolCalls| == |original.calls|
    && forall k :: 0 <= k < |original.calls| ==> choice.toolCalls[k] == original.calls[k].call
  }

  lemma CallsRestored(tds: seq<ToolDelta>, calls: seq<IndexedCall>)
    requires CutsCalls(tds, calls)
    ensures CallsOf(tds) == seq(|calls|, k requires 0 <= k < |calls| => calls[k].call)
  {
    var idxs := seq(|calls|, k requires 0 <= k < |calls| => calls[k].index);
    forall x
      ensures x in idxs <==> x in IndicesOf(tds)
    {
      if x in IndicesOf(tds) {
        var c :| c in calls && c.index == x;
        var k :| 0 <= k < |calls| && calls[k] == c;
        assert idxs[k] == x;
      }
      if x in idxs {
        var k :| 0 <= k < |idxs| && idxs[k] == x;
        assert calls[k] in calls;
      }
    }
    SortedIsTheOnlyOne(idxs, IndicesOf(tds));
    forall k | 0 <= k < |calls|
      ensures CallOf(tds, idxs[k]) == calls[k].call
    {
      assert calls[k] in calls;
    }
  }

  /** However a response is cut and interleaved, the accumulator puts it back together. */
  lemma Reassembly(json: Json, usage: Option<Usage>, ds: seq<Delta>, original: seq<OriginalChoice>)
    requires Cuts(json, ds, original) && forall i :: 0 <= i < |original| ==> Quotes(json, original[i].content)
    ensures var resp := Assemble(json, DeltaFold(json, INIT.(usage := usage), ds));
            && resp.usage == usage
            && |resp.choices| == |original|
            && forall i :: 0 <= i < |original| ==> Restores(json, resp.choices[i], i, original[i])
  {
    AssembledIsReference(json, usage, ds);
    forall i | 0 <= i < |original|
      ensures Restores(json, ChoiceOf(json, ds, i), i, original[i])
    {
      var p := Project(ds, i);
      CallsRestored(AllTools(p), original[i].calls);
      var pieces :| SayPieces(json, p, pieces) && Flatten(pieces) == original[i].content;
      PiecesAreAllText(json, p, pieces);
      assert Quotes(json, original[i].content);
    }
  }

  // ----- From bytes to response. -----

  function AllDeltas(events: seq<Chunk>): seq<Delta>
    decreases |events|
  {
    if events == [] then [] else events[0].choices + AllDeltas(events[1..])
  }

  function LastUsage(usage: Option<Usage>, events: seq<Chunk>): Option<Usage>
    decreases |events|
  {
    if events == [] then usage
    else LastUsage(if events[0].usage.Some? then events[0].usage else usage, events[1..])
  }

  function ChunkFold(json: Json, st: State, events: seq<Chunk>): State
    decreases |events|
  {
    if events == [] then st else ChunkFold(json, ChunkStep(json, st, events[0]), events[1..])
  }

  lemma {:induction false} DeltaFoldAppend(json: Json, st: State, a: seq<Delta>, b: seq<Delta>)
    ensures DeltaFold(json, st, a + b) == DeltaFold(json, DeltaFold(json, st, a), b)
    decreases |a|
  {
    if a == [] {
      assert a + b == b;
    } else {
      assert (a + b)[1..] == a[1..] + b;
      DeltaFoldAppend(json, DeltaStep(json, st, a[0]), a[1..], b);
    }
  }

  lemma {:induction false} UsageIsSeparate(json: Json, st: State, ds: seq<Delta>, usage: Option<Usage>)
    ensures DeltaFold(json, st.(usage := usage), ds) == DeltaFold(json, st, ds).(usage := usage)
    decreases |ds|
  {
    if ds != [] {
      UsageIsSeparate(json, DeltaStep(json, st, ds[0]), ds[1..], usage);
      assert DeltaStep(json, st.(usage := usage), ds[0]) == DeltaStep(json, st, ds[0]).(usage := usage);
    }
  }

  lemma {:induction false} ChunkFoldIsDeltaFold(json: Json, st: State, events: seq<Chunk>)
    ensures ChunkFold(json, st, events)
         == DeltaFold(json, st.(usage := LastUsage(st.usage, events)), AllDeltas(events))
    decreases |events|
  {
    if events == [] {
      assert st.(usage := st.usage) == st;
    } else {
      var c := events[0];
      var u := if c.usage.Some? then c.usage else st.usage;
      var last := LastUsage(u, events[1..]);
      var next := ChunkStep(json, st, c);
      assert next == DeltaFold(json, st.(usage := u), c.choices);
      UsageIsSeparate(json, st, c.choices, u);
      UsageIsSeparate(json, st, c.choices, last);
      assert next.usage == u;
      ChunkFoldIsDeltaFold(json, next, events[1..]);
      assert next.(usage := last) == DeltaFold(json, st.(usage := last), c.choices);
      DeltaFoldAppend(json, st.(usage := last), c.choices, AllDeltas(events[1..]));
    }
  }

  /** What a line of the stream carries: an event, if it is a `data:` line whose payload decodes, and nothing if the
      payload does not or the line is any other, blank ones and comments among them. Spaces around it do not count. */
  ghost predicate Carries(json: Json, line: Bytes, event: Option<Chunk>) {
    && '\n' !in line
    && if "data: " <= TrimSpace(line) then
         var payload := TrimSpace(line)[6..];
         payload != "[DONE]" && event == json.chunk(payload)
       else event.None?
  }

  ghost predicate CarryAll(json: Json, lines: seq<Bytes>, events: seq<Option<Chunk>>) {
    |lines| == |events| && forall k :: 0 <= k < |lines| ==> Carries(json, lines[k], events[k])
  }

  function Carried(events: seq<Option<Chunk>>): seq<Chunk>
    decreases |events|
  {
    if events == [] then [] else (if events[0].Some? then [events[0].value] else []) + Carried(events[1..])
  }

  lemma DoneLine(json: Json, st: State)
    ensures LineStep(json, st, "data: [DONE]") == st.(done := true)
  {
    var line: Bytes := "data: [DONE]";
    assert !IsSpace(line[..1]) && !IsSpace(line[..2]) && !IsSpace(line[..3]);
    assert !IsSpace(line[|line| - 1..]) && !IsSpace(line[|line| - 2..]) && !IsSpace(line[|line| - 3..]);
    assert TrimSpace(line) == line;
    assert DATA_PREFIX <= line && line[|DATA_PREFIX|..] == "[DONE]";
  }

  lemma LineCarries(json: Json, st: State, line: Bytes, event: Option<Chunk>)
    requires Carries(json, line, event)
    ensures LineStep(json, st, line) == if event.Some? then ChunkStep(json, st, event.value) else st
  {
  }

  lemma ChunkFoldCons(json: Json, st: State, c: Chunk, cs: seq<Chunk>)
    ensures ChunkFold(json, st, [c] + cs) == ChunkFold(json, ChunkStep(json, st, c), cs)
  {
    assert ([c] + cs)[1..] == cs;
  }

  lemma FoldCons(json: Json, st: State, line: Bytes, rest: seq<Bytes>)
    ensures var m, next := Parser(json), LineStep(json, st, line);
            Fold(m, st, [line] + rest) == if next.done then next else Fold(m, next, rest)
  {
    var m := Parser(json);
    assert ([line] + rest)[1..] == rest && m.step(st, line) == LineStep(json, st, line);
  }

  lemma CarriedStep(json: Json, st: State, line: Bytes, events: seq<Option<Chunk>>)
    requires events != [] && Carries(json, line, events[0])
    ensures var e := events[0]; var next := if e.Some? then ChunkStep(json, st, e.value) else st;
            && LineStep(json, st, line) == next && next.done == st.done
            && ChunkFold(json, st, Carried(events)) == ChunkFold(json, next, Carried(events[1..]))
  {
    var e, more := events[0], events[1..];
    LineCarries(json, st, line, e);
    if e.Some? {
      StepKeepsDone(json, st, e.value);
      ChunkFoldCons(json, st, e.value, Carried(more));
    } else {
      assert [] + Carried(more) == Carried(more);
    }
  }

  lemma CarryRest(json: Json, lines: seq<Bytes>, events: seq<Option<Chunk>>)
    requires CarryAll(json, lines, events) && lines != []
    ensures Carries(json, lines[0], events[0]) && CarryAll(json, lines[1..], events[1..])
  {
    forall k | 0 <= k < |lines[1..]|
      ensures Carries(json, lines[1..][k], events[1..][k])
    {
      assert Carries(json, lines[k + 1], events[k + 1]);
    }
  }

  lemma {:induction false} FoldCarried(json: Json, st: State, lines: seq<Bytes>, events: seq<Option<Chunk>>)
    requires !st.done && CarryAll(json, lines, events)
    ensures var r := ChunkFold(json, st, Carried(events)); !r.done && Fold(Parser(json), st, lines) == r
    decreases |lines|
  {
    if lines != [] {
      var line, rest := lines[0], lines[1..];
      CarryRest(json, lines, events);
      CarriedStep(json, st, line, events);
      FoldCons(json, st, line, rest);
      assert lines == [line] + rest;
      FoldCarried(json, LineStep(json, st, line), rest, events[1..]);
    }
  }

  lemma LinesSent(lines: seq<Bytes>, end: Bytes, tail: Bytes)
    requires '\n' !in end && forall k :: 0 <= k < |lines| ==> '\n' !in lines[k]
    ensures Lines(Unlines(lines + [end]) + tail) == lines + ([end] + Lines(tail))
  {
    var sent := lines + [end];
    LinesOfUnlines(sent);
    LinesAppend(Unlines(sent), tail);
    assert [] + tail == tail;
    AppendAssociative(lines, [end], Lines(tail));
  }

  lemma NoNewlines(json: Json, lines: seq<Bytes>, events: seq<Option<Chunk>>)
    requires CarryAll(json, lines, events)
    ensures forall k :: 0 <= k < |lines| ==> '\n' !in lines[k]
  {
    forall k | 0 <= k < |lines|
      ensures '\n' !in lines[k]
    {
      assert Carries(json, lines[k], events[k]);
    }
  }

  lemma FoldToEnd(json: Json, lines: seq<Bytes>, events: seq<Option<Chunk>>, end: Bytes, after: seq<Bytes>)
    requires CarryAll(json, lines, events)
    requires forall st: State :: LineStep(json, st, end) == st.(done := true)
    ensures Fold(Parser(json), INIT, lines + ([end] + after)) ==
            ChunkFold(json, INIT, Carried(events)).(done := true)
  {
    FoldCarried(json, INIT, lines, events);
    FoldAppend(Parser(json), INIT, lines, [end] + after);
    FoldCons(json, ChunkFold(json, INIT, Carried(events)), end, after);
  }

  lemma WireFold(json: Json, lines: seq<Bytes>, events: seq<Option<Chunk>>, tail: Bytes)
    requires CarryAll(json, lines, events)
    ensures Fold(Parser(json), INIT, Lines(Unlines(lines + ["data: [DONE]"]) + tail)) ==
            ChunkFold(json, INIT, Carried(events)).(done := true)
  {
    var end: Bytes := "data: [DONE]";
    NoNewlines(json, lines, events);
    LinesSent(lines, end, tail);
    forall st: State
      ensures LineStep(json, st, end) == st.(done := true)
    {
      DoneLine(json, st);
    }
    FoldToEnd(json, lines, events, end, Lines(tail));
  }

  lemma {:induction false} FoldKeepsDone(json: Json, st: State, ds: seq<Delta>)
    ensures DeltaFold(json, st, ds).done == st.done
    decreases |ds|
  {
    if ds != [] { FoldKeepsDone(json, DeltaStep(json, st, ds[0]), ds[1..]); }
  }

  lemma StepKeepsDone(json: Json, st: State, c: Chunk)
    ensures ChunkStep(json, st, c).done == st.done
  {
    FoldKeepsDone(json, if c.usage.Some? then st.(usage := c.usage) else st, c.choices);
  }

  /** For every byte stream and every cutting of it: the fold over the stream's complete lines. */
  lemma DecodingIgnoresCuts(json: Json, chunks: seq<Bytes>)
    ensures FeedAll(Parser(json), Framed([], INIT), chunks).st
         == Fold(Parser(json), INIT, Lines(Flatten(chunks)))
  {
    assert [] + Flatten(chunks) == Flatten(chunks);
    ChunkingIndependent(Parser(json), Framed([], INIT), chunks);
  }

  /** End to end: a response cut into deltas, encoded as events, sent as lines among others, cut anywhere by the network
      and followed by anything, comes back whole. */
  lemma StreamRoundTrip(json: Json, original: seq<OriginalChoice>, lines: seq<Bytes>, events: seq<Option<Chunk>>,
                        tail: Bytes, chunks: seq<Bytes>)
    requires CarryAll(json, lines, events)
    requires Cuts(json, AllDeltas(Carried(events)), original)
    requires forall i :: 0 <= i < |original| ==> Quotes(json, original[i].content)
    requires Flatten(chunks) == Unlines(lines + ["data: [DONE]"]) + tail
    ensures var resp := Assemble(json, FeedAll(Parser(json), Framed([], INIT), chunks).st);
            && resp.usage == LastUsage(None, Carried(events))
            && |resp.choices| == |original|
            && forall i :: 0 <= i < |original| ==> Restores(json, resp.choices[i], i, original[i])
  {
    var cs := Carried(events);
    DecodingIgnoresCuts(json, chunks);
    WireFold(json, lines, events, tail);
    ChunkFoldIsDeltaFold(json, INIT, cs);
    var st := ChunkFold(json, INIT, cs);
    DoneIsNotShown(json, st);
    Reassembly(json, LastUsage(None, cs), AllDeltas(cs), original);
  }

  lemma DoneIsNotShown(json: Json, st: State)
    ensures Assemble(json, st.(done := true)) == Assemble(json, st)
  {
    if st.maxIdx >= 0 {
      DoneIsNotShownIn(json, st, st.(done := true), st.maxIdx + 1);
    }
  }

  lemma {:induction false} DoneIsNotShownIn(json: Json, st: State, t: State, n: nat)
    requires t == st.(done := true)
    ensures FinishChoices(json, t, n) == FinishChoices(json, st, n)
    decreases n
  {
    if n > 0 {
      DoneIsNotShownIn(json, st, t, n - 1);
      assert FinishChoice(json, t, n - 1) == FinishChoice(json, st, n - 1);
    }
  }
}
