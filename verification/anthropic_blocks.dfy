/** What an Anthropic stream decodes to, read off its events block by block; and the stream whose decoding
    depends on how it is cut. */
module AnthropicBlocks {
  import opened ByteText
  import opened SseFraming
  import opened AnthropicDecoder

  function EventFold(st: State, evs: seq<Event>): State
    decreases |evs|
  {
    if evs == [] then st else EventFold(Apply(st, evs[0]), evs[1..])
  }

  predicate IsPiece(e: Event, i: int, kind: DeltaKind) {
    e.BlockDelta? && e.index == i && e.delta == kind
  }

  predicate HasPiece(evs: seq<Event>, i: int, kind: DeltaKind)
    decreases |evs|
  {
    evs != [] && (IsPiece(evs[0], i, kind) || HasPiece(evs[1..], i, kind))
  }

  /** The deltas of one kind for block `i`, joined in order. */
  function Pieces(evs: seq<Event>, i: int, kind: DeltaKind): string
    decreases |evs|
  {
    if evs == [] then ""
    else (if IsPiece(evs[0], i, kind) then evs[0].piece else "") + Pieces(evs[1..], i, kind)
  }

  /** The block the last `content_block_start` for `i` announced, over `default`. */
  function Announced(evs: seq<Event>, i: int, default: Block): Block
    decreases |evs|
  {
    if evs == [] then default
    else Announced(evs[1..], i, if evs[0].BlockStart? && evs[0].index == i then evs[0].block else default)
  }

  /** One more than the largest announced index. */
  function BlockCount(evs: seq<Event>): nat
    decreases |evs|
  {
    if evs == [] then 0
    else
      var n := BlockCount(evs[1..]);
      if evs[0].BlockStart? && evs[0].index >= n then evs[0].index + 1 else n
  }

  predicate NegativeStart(evs: seq<Event>)
    decreases |evs|
  {
    evs != [] && ((evs[0].BlockStart? && evs[0].index < 0) || NegativeStart(evs[1..]))
  }

  function BlockOf(evs: seq<Event>, i: int): Block {
    var b := Announced(evs, i, EMPTY_BLOCK);
    if b.kind == "text" && HasPiece(evs, i, TextDelta) then b.(text := Pieces(evs, i, TextDelta))
    else if b.kind == "tool_use" && HasPiece(evs, i, InputJsonDelta) then
      b.(input := Pieces(evs, i, InputJsonDelta))
    else b
  }

  // ----- The accumulator agrees. -----

  lemma {:induction false} FoldPieces(st: State, evs: seq<Event>, i: int)
    ensures var r := EventFold(st, evs);
            && (i in r.texts <==> i in st.texts || HasPiece(evs, i, TextDelta))
            && Get(r.texts, i) == Get(st.texts, i) + Pieces(evs, i, TextDelta)
            && (i in r.jsons <==> i in st.jsons || HasPiece(evs, i, InputJsonDelta))
            && Get(r.jsons, i) == Get(st.jsons, i) + Pieces(evs, i, InputJsonDelta)
    decreases |evs|
  {
    if evs == [] {
      assert Get(st.texts, i) + "" == Get(st.texts, i) && Get(st.jsons, i) + "" == Get(st.jsons, i);
    } else {
      var e := evs[0];
      FoldPieces(Apply(st, e), evs[1..], i);
      PieceStep(st, e, i);
      AppendAssociative(Get(st.texts, i), PieceOf(e, i, TextDelta), Pieces(evs[1..], i, TextDelta));
      AppendAssociative(Get(st.jsons, i), PieceOf(e, i, InputJsonDelta), Pieces(evs[1..], i, InputJsonDelta));
    }
  }

  function PieceOf(e: Event, i: int, kind: DeltaKind): string {
    if IsPiece(e, i, kind) then e.piece else ""
  }

  lemma PieceStep(st: State, e: Event, i: int)
    ensures var r := Apply(st, e);
            && (i in r.texts <==> i in st.texts || IsPiece(e, i, TextDelta))
            && Get(r.texts, i) == Get(st.texts, i) + PieceOf(e, i, TextDelta)
            && (i in r.jsons <==> i in st.jsons || IsPiece(e, i, InputJsonDelta))
            && Get(r.jsons, i) == Get(st.jsons, i) + PieceOf(e, i, InputJsonDelta)
  {
    assert Get(st.texts, i) + "" == Get(st.texts, i) && Get(st.jsons, i) + "" == Get(st.jsons, i);
  }

  lemma ApplyBlocks(st: State, e: Event, i: nat)
    requires e.BlockStart? ==> e.index >= 0
    ensures var r := Apply(st, e);
            && r.panicked == st.panicked
            && |r.blocks| == (if e.BlockStart? && e.index >= |st.blocks| then e.index + 1 else |st.blocks|)
            && (i < |r.blocks| ==>
                  r.blocks[i] == if e.BlockStart? && e.index == i then e.block
                                 else if i < |st.blocks| then st.blocks[i] else EMPTY_BLOCK)
  {
    if e.BlockStart? {
      var g := Grow(st.blocks, e.index);
      assert i < |st.blocks| ==> g[i] == st.blocks[i];
    }
  }

  lemma {:induction false} FoldBlocks(st: State, evs: seq<Event>, i: nat)
    requires !NegativeStart(evs)
    ensures var r := EventFold(st, evs);
            && r.panicked == st.panicked
            && |r.blocks| == (if BlockCount(evs) > |st.blocks| then BlockCount(evs) else |st.blocks|)
            && (i < |r.blocks| ==>
                  r.blocks[i] == Announced(evs, i, if i < |st.blocks| then st.blocks[i] else EMPTY_BLOCK))
    decreases |evs|
  {
    if evs != [] {
      ApplyBlocks(st, evs[0], i);
      FoldBlocks(Apply(st, evs[0]), evs[1..], i);
    }
  }

  lemma {:induction false} PanicsIffNegative(st: State, evs: seq<Event>)
    ensures EventFold(st, evs).panicked <==> st.panicked || NegativeStart(evs)
    decreases |evs|
  {
    if evs != [] { PanicsIffNegative(Apply(st, evs[0]), evs[1..]); }
  }

  lemma BlockHoldsItsDeltas(evs: seq<Event>, i: nat)
    requires !NegativeStart(evs) && i < |EventFold(INIT, evs).blocks|
    ensures var r := EventFold(INIT, evs); Fill(r, i, r.blocks[i]) == BlockOf(evs, i)
  {
    FoldBlocks(INIT, evs, i);
    FoldPieces(INIT, evs, i);
    var text, input := Pieces(evs, i, TextDelta), Pieces(evs, i, InputJsonDelta);
    assert "" + text == text && "" + input == input;
  }

  /** Each announced text or tool_use block with at least one delta holds exactly its deltas, joined in order;
      the parser panics if and only if a block is announced at a negative index. */
  lemma BlocksHoldTheirDeltas(evs: seq<Event>)
    ensures EventFold(INIT, evs).panicked <==> NegativeStart(evs)
    ensures !NegativeStart(evs) ==>
              Assemble(EventFold(INIT, evs)).content == seq(BlockCount(evs), i => BlockOf(evs, i))
  {
    var r := EventFold(INIT, evs);
    PanicsIffNegative(INIT, evs);
    if !NegativeStart(evs) {
      FoldBlocks(INIT, evs, 0);
      forall i | 0 <= i < |r.blocks|
        ensures Fill(r, i, r.blocks[i]) == BlockOf(evs, i)
      {
        BlockHoldsItsDeltas(evs, i);
      }
    }
  }

  /** The output count of the last `message_delta` that carries one. */
  function LastOutput(evs: seq<Event>, default: int): int
    decreases |evs|
  {
    if evs == [] then default
    else LastOutput(evs[1..], if evs[0].MessageDelta? && evs[0].outputTokens.Some?
                              then evs[0].outputTokens.value else default)
  }

  predicate StartsUsage(e: Event) {
    e.MessageStart? && e.usage.Some?
  }

  /** Without a new start, the role stays. */
  lemma {:induction false} RoleStays(st: State, evs: seq<Event>)
    requires forall k :: 0 <= k < |evs| ==> !evs[k].MessageStart?
    ensures EventFold(st, evs).role == st.role
    decreases |evs|
  {
    if evs != [] { RoleStays(Apply(st, evs[0]), evs[1..]); }
  }

  /** After the usage has started, only the output count moves, and it follows the last `message_delta`; before that,
      nothing does. */
  lemma {:induction false} UsageFollowsDeltas(st: State, evs: seq<Event>)
    requires forall k :: 0 <= k < |evs| ==> !StartsUsage(evs[k])
    ensures EventFold(st, evs).usage ==
            if st.usage.None? then None
            else Some(st.usage.value.(outputTokens := LastOutput(evs, st.usage.value.outputTokens)))
    decreases |evs|
  {
    if evs != [] { UsageFollowsDeltas(Apply(st, evs[0]), evs[1..]); }
  }

  /** The role of the last `message_start`. */
  ghost predicate IsRole(evs: seq<Event>, role: string) {
    && ((forall k :: 0 <= k < |evs| ==> !evs[k].MessageStart?) ==> role == "")
    && forall k :: 0 <= k < |evs| && evs[k].MessageStart? && (forall j :: k < j < |evs| ==> !evs[j].MessageStart?) ==>
         role == evs[k].role
  }

  /** The usage of the last `message_start` that has one, with the output count of the last `message_delta` after it. */
  ghost predicate IsUsage(evs: seq<Event>, usage: Option<Usage>) {
    && ((forall k :: 0 <= k < |evs| ==> !StartsUsage(evs[k])) ==> usage == None)
    && forall k :: 0 <= k < |evs| && StartsUsage(evs[k]) && (forall j :: k < j < |evs| ==> !StartsUsage(evs[j])) ==>
         var u := evs[k].usage.value;
         usage == Some(u.(outputTokens := LastOutput(evs[k + 1..], u.outputTokens)))
  }

  lemma {:induction false} LastStartDecides(st: State, evs: seq<Event>, k: nat)
    requires k < |evs| && evs[k].MessageStart? && forall j :: k < j < |evs| ==> !evs[j].MessageStart?
    ensures EventFold(st, evs).role == evs[k].role
    decreases k
  {
    if k == 0 {
      RoleStays(Apply(st, evs[0]), evs[1..]);
    } else {
      LastStartDecides(Apply(st, evs[0]), evs[1..], k - 1);
    }
  }

  lemma {:induction false} LastUsageDecides(st: State, evs: seq<Event>, k: nat)
    requires k < |evs| && StartsUsage(evs[k]) && forall j :: k < j < |evs| ==> !StartsUsage(evs[j])
    ensures var u := evs[k].usage.value;
            EventFold(st, evs).usage == Some(u.(outputTokens := LastOutput(evs[k + 1..], u.outputTokens)))
    decreases k
  {
    if k == 0 {
      UsageFollowsDeltas(Apply(st, evs[0]), evs[1..]);
    } else {
      LastUsageDecides(Apply(st, evs[0]), evs[1..], k - 1);
      assert evs[1..][k..] == evs[k + 1..];
    }
  }

  /** The response is the one the events describe. */
  ghost predicate Describes(evs: seq<Event>, r: Response) {
    && r.content == seq(BlockCount(evs), i => BlockOf(evs, i))
    && IsRole(evs, r.role)
    && IsUsage(evs, r.usage)
  }

  lemma FoldIsDescribed(evs: seq<Event>)
    requires !NegativeStart(evs)
    ensures Outcome(EventFold(INIT, evs)).Some? && Describes(evs, Outcome(EventFold(INIT, evs)).value)
  {
    BlocksHoldTheirDeltas(evs);
    if forall k :: 0 <= k < |evs| ==> !evs[k].MessageStart? { RoleStays(INIT, evs); }
    if forall k :: 0 <= k < |evs| ==> !StartsUsage(evs[k]) { UsageFollowsDeltas(INIT, evs); }
    forall k | 0 <= k < |evs| && evs[k].MessageStart? && forall j :: k < j < |evs| ==> !evs[j].MessageStart?
      ensures EventFold(INIT, evs).role == evs[k].role
    {
      LastStartDecides(INIT, evs, k);
    }
    forall k | 0 <= k < |evs| && StartsUsage(evs[k]) && forall j :: k < j < |evs| ==> !StartsUsage(evs[j])
      ensures EventFold(INIT, evs).usage ==
              Some(evs[k].usage.value.(outputTokens := LastOutput(evs[k + 1..], evs[k].usage.value.outputTokens)))
    {
      LastUsageDecides(INIT, evs, k);
    }
  }

  // ----- From lines to events. -----

  /** The payload of an event of this name carries `e`; an unknown name or a payload that does not decode carries
      nothing. */
  predicate Sends(json: Json, name: Bytes, payload: Bytes, e: Event) {
    match e
    case MessageStart(role, usage) => name == "message_start" && json.messageStart(payload) == Some((role, usage))
    case BlockStart(i, block) => name == "content_block_start" && json.blockStart(payload) == Some((i, block))
    case BlockDelta(i, kind, piece) =>
      name == "content_block_delta" && json.blockDelta(payload) == Some((i, kind, piece))
    case MessageDelta(out) => name == "message_delta" && json.messageDelta(payload) == Some(out)
    case MessageStop => name == "message_stop"
    case Ignored =>
      && (name == "message_start" ==> json.messageStart(payload) == None)
      && (name == "content_block_start" ==> json.blockStart(payload) == None)
      && (name == "content_block_delta" ==> json.blockDelta(payload) == None)
      && (name == "message_delta" ==> json.messageDelta(payload) == None)
      && name != "message_stop"
  }

  lemma DecodeSends(json: Json, name: Bytes, payload: Bytes, e: Event)
    ensures Sends(json, name, payload, e) <==> e == Decode(json, name, payload)
  {
  }

  /** The lines read as these events, up to `message_stop`: each data line carries one, under the name of the last event
      line since the previous data line. What follows `message_stop` announces nothing that matters. */
  ghost predicate Reads(json: Json, pending: Bytes, lines: seq<Bytes>, evs: seq<Event>)
    decreases |lines|
  {
    if lines == [] then evs == []
    else
      var line := TrimSpace(lines[0]);
      if EVENT_PREFIX <= line then Reads(json, line[|EVENT_PREFIX|..], lines[1..], evs)
      else if DATA_PREFIX <= line then
        && evs != [] && Sends(json, pending, line[|DATA_PREFIX|..], evs[0])
        && (if evs[0].MessageStop? then evs == [MessageStop] && forall k :: 1 <= k < |lines| ==> !Announces(lines[k])
            else Reads(json, "", lines[1..], evs[1..]))
      else Reads(json, pending, lines[1..], evs)
  }

  /** The same from the second line and event on. */
  ghost predicate ReadsOn(json: Json, lines: seq<Bytes>, evs: seq<Event>)
    requires lines != [] && evs != []
  {
    if evs[0].MessageStop? then evs == [MessageStop] && forall k :: 1 <= k < |lines| ==> !Announces(lines[k])
    else Reads(json, "", lines[1..], evs[1..])
  }

  lemma ApplyKeepsName(st: State, e: Event, name: Bytes)
    ensures Apply(st.(event := name), e) == Apply(st, e).(event := name)
  {
    var t := st.(event := name);
    if e.BlockDelta? {
      assert t.texts == st.texts && t.jsons == st.jsons;
    } else if e.BlockStart? {
      assert t.blocks == st.blocks;
    }
  }

  lemma {:induction false} EventNameIsSeparate(st: State, evs: seq<Event>, name: Bytes)
    ensures EventFold(st.(event := name), evs) == EventFold(st, evs).(event := name)
    decreases |evs|
  {
    if evs != [] {
      EventNameIsSeparate(Apply(st, evs[0]), evs[1..], name);
      ApplyKeepsName(st, evs[0], name);
    }
  }

  /** The same state but for the event name that is pending. */
  ghost predicate SameButName(a: State, b: State) {
    a == b.(event := a.event)
  }

  lemma SameButNameFold(a: State, b: State, evs: seq<Event>)
    requires SameButName(a, b)
    ensures SameButName(EventFold(a, evs), EventFold(b, evs))
  {
    EventNameIsSeparate(b, evs, a.event);
  }

  /** What one line does to the state, in terms of the events it reads as. */
  lemma LineReads(json: Json, st: State, lines: seq<Bytes>, evs: seq<Event>)
    requires lines != [] && Reads(json, st.event, lines, evs)
    ensures var next := LineStep(json, st, lines[0]);
            || (SameButName(next, st) && Reads(json, next.event, lines[1..], evs))
            || (evs != [] && SameButName(next, Apply(st, evs[0])) && next.event == "" && ReadsOn(json, lines, evs))
  {
    var line := TrimSpace(lines[0]);
    if !(EVENT_PREFIX <= line) && DATA_PREFIX <= line {
      DecodeSends(json, st.event, line[|DATA_PREFIX|..], evs[0]);
    }
  }

  lemma NotNegativeLater(st: State, evs: seq<Event>)
    requires evs != [] && !NegativeStart(evs) && !st.panicked
    ensures !NegativeStart(evs[1..]) && !Apply(st, evs[0]).panicked
    ensures !st.done ==> (Apply(st, evs[0]).done <==> evs[0].MessageStop?)
  {
  }

  lemma SilentLater(json: Json, st: State, lines: seq<Bytes>)
    requires lines != []
    requires var m, next := Parser(json), LineStep(json, st, lines[0]);
             if next.done || next.panicked then forall k :: 1 <= k < |lines| ==> !Announces(lines[k])
             else SilentAfterClose(m, next, lines[1..], Announces)
    ensures SilentAfterClose(Parser(json), st, lines, Announces)
  {
    var m, next := Parser(json), LineStep(json, st, lines[0]);
    if !next.done && !next.panicked {
      forall k | Cut(m, st, lines) <= k < |lines|
        ensures !Announces(lines[k])
      {
        assert lines[k] == lines[1..][k - 1];
      }
    }
  }

  /** Reading up to the closing line is applying the events, and after it the stream is silent. */
  lemma {:induction false} LinesAreEvents(json: Json, st: State, lines: seq<Bytes>, evs: seq<Event>)
    requires !st.done && !st.panicked && Reads(json, st.event, lines, evs) && !NegativeStart(evs)
    ensures SameButName(Ideal(Parser(json), st, lines), EventFold(st, evs))
    ensures SilentAfterClose(Parser(json), st, lines, Announces)
    decreases |lines|
  {
    if lines != [] {
      var next := LineStep(json, st, lines[0]);
      LineReads(json, st, lines, evs);
      if SameButName(next, st) && Reads(json, next.event, lines[1..], evs) {
        LinesAreEvents(json, next, lines[1..], evs);
        SameButNameFold(next, st, evs);
      } else {
        NotNegativeLater(st, evs);
        SameButNameFold(next, Apply(st, evs[0]), evs[1..]);
        if !evs[0].MessageStop? { LinesAreEvents(json, next, lines[1..], evs[1..]); }
      }
      SilentLater(json, st, lines);
    }
  }

  /** End to end: every cutting of a stream that reads as the events `evs` decodes to the response they describe. */
  lemma StreamDecodesToItsBlocks(json: Json, chunks: seq<Bytes>, evs: seq<Event>)
    requires Reads(json, "", Lines(Flatten(chunks)), evs) && !NegativeStart(evs)
    ensures var r := Outcome(FeedAll(Parser(json), Framed([], INIT), chunks).st);
            r.Some? && Describes(evs, r.value)
  {
    var s := Flatten(chunks);
    LinesAreEvents(json, INIT, Lines(s), evs);
    QuietStreamIgnoresCuts(json, s, chunks);
    PendingIsNotShown(Ideal(Parser(json), INIT, Lines(s)), EventFold(INIT, evs));
    FoldIsDescribed(evs);
  }

  // ----- On the wire. -----

  /** One server-sent event: its name, its payload, and what that carries. */
  datatype Item = Item(name: Bytes, payload: Bytes, event: Event)

  /** Name and payload survive line framing, and the payload carries the event. */
  ghost predicate Sound(json: Json, x: Item) {
    && '\n' !in x.name && TrimSpace(EVENT_PREFIX + x.name) == EVENT_PREFIX + x.name
    && Framable(x.payload) && Sends(json, x.name, x.payload, x.event)
  }

  /** The lines of one event: its name, its payload and a blank line. */
  function ItemLines(x: Item, blank: Bytes, rest: seq<Bytes>): seq<Bytes> {
    [EVENT_PREFIX + x.name] + ([DATA_PREFIX + x.payload] + ([blank] + rest))
  }

  /** The lines a server sends, and those that follow. */
  function WireLines(items: seq<Item>, tail: seq<Bytes>): seq<Bytes>
    decreases |items|
  {
    if items == [] then tail else ItemLines(items[0], "", WireLines(items[1..], tail))
  }

  function Wire(items: seq<Item>): Bytes {
    Unlines(WireLines(items, []))
  }

  function EventsSent(items: seq<Item>): seq<Event>
    decreases |items|
  {
    if items == [] then [] else [items[0].event] + EventsSent(items[1..])
  }

  ghost predicate OneLiners(lines: seq<Bytes>) {
    forall k :: 0 <= k < |lines| ==> '\n' !in lines[k]
  }

  lemma OneLinersCons(line: Bytes, lines: seq<Bytes>)
    requires '\n' !in line && OneLiners(lines)
    ensures OneLiners([line] + lines)
  {
  }

  lemma ItemIsOneLiners(json: Json, x: Item, blank: Bytes, rest: seq<Bytes>)
    requires Sound(json, x) && blank == "" && OneLiners(rest)
    ensures OneLiners(ItemLines(x, blank, rest))
  {
    var a, b, event, data := EVENT_PREFIX + x.name, DATA_PREFIX + x.payload, EVENT_PREFIX, DATA_PREFIX;
    assert '\n' !in event && '\n' !in data;
    OneLinersCons(blank, rest);
    OneLinersCons(b, [blank] + rest);
    OneLinersCons(a, [b] + ([blank] + rest));
  }

  lemma {:induction false} WireIsOneLiners(json: Json, items: seq<Item>, tail: seq<Bytes>)
    requires (forall k :: 0 <= k < |items| ==> Sound(json, items[k])) && OneLiners(tail)
    ensures OneLiners(WireLines(items, tail))
    decreases |items|
  {
    if items != [] {
      WireIsOneLiners(json, items[1..], tail);
      assert Sound(json, items[0]);
      var blank: Bytes := "";
      ItemIsOneLiners(json, items[0], blank, WireLines(items[1..], tail));
    }
  }

  lemma ItemLinesAppend(x: Item, blank: Bytes, a: seq<Bytes>, b: seq<Bytes>)
    ensures ItemLines(x, blank, a) + b == ItemLines(x, blank, a + b)
  {
  }

  lemma {:induction false} WireLinesAppend(items: seq<Item>, none: seq<Bytes>, tail: seq<Bytes>)
    requires none == []
    ensures WireLines(items, none) + tail == WireLines(items, tail)
    decreases |items|
  {
    if items == [] {
      assert none + tail == tail;
    } else {
      var blank: Bytes := "";
      WireLinesAppend(items[1..], none, tail);
      ItemLinesAppend(items[0], blank, WireLines(items[1..], none), tail);
    }
  }

  lemma ReadsName(json: Json, pending: Bytes, name: Bytes, rest: seq<Bytes>, evs: seq<Event>)
    requires TrimSpace(EVENT_PREFIX + name) == EVENT_PREFIX + name
    ensures Reads(json, pending, [EVENT_PREFIX + name] + rest, evs) == Reads(json, name, rest, evs)
  {
    var line := EVENT_PREFIX + name;
    var lines := [line] + rest;
    assert lines[0] == line && lines[1..] == rest && line[|EVENT_PREFIX|..] == name;
  }

  lemma ReadsPayload(json: Json, pending: Bytes, payload: Bytes, rest: seq<Bytes>, e: Event, evs: seq<Event>)
    requires Framable(payload) && Sends(json, pending, payload, e) && !e.MessageStop?
    requires Reads(json, "", rest, evs)
    ensures Reads(json, pending, [DATA_PREFIX + payload] + rest, [e] + evs)
  {
    var line := DATA_PREFIX + payload;
    var lines, all := [line] + rest, [e] + evs;
    assert lines[0] == line && lines[1..] == rest && line[|DATA_PREFIX|..] == payload && line[0] == 'd';
    assert all[0] == e && all[1..] == evs;
  }

  lemma ReadsStop(json: Json, payload: Bytes, rest: seq<Bytes>)
    requires Framable(payload) && forall k :: 0 <= k < |rest| ==> !Announces(rest[k])
    ensures Reads(json, "message_stop", [DATA_PREFIX + payload] + rest, [MessageStop])
  {
    var line := DATA_PREFIX + payload;
    var lines, all := [line] + rest, [MessageStop];
    assert lines[0] == line && line[|DATA_PREFIX|..] == payload && line[0] == 'd';
    assert forall k :: 1 <= k < |lines| ==> lines[k] == rest[k - 1];
    assert all[0].MessageStop?;
  }

  lemma BlankIsSilent(blank: Bytes)
    requires blank == ""
    ensures TrimSpace(blank) == blank && !Announces(blank)
  {
  }

  lemma ReadsBlank(json: Json, rest: seq<Bytes>, blank: Bytes, evs: seq<Event>)
    requires blank == ""
    ensures Reads(json, "", [blank] + rest, evs) == Reads(json, "", rest, evs)
  {
    BlankIsSilent(blank);
    var lines := [blank] + rest;
    assert lines[0] == blank && lines[1..] == rest;
  }

  /** One event followed by lines that read as the later ones. */
  lemma ItemReads(json: Json, x: Item, rest: seq<Bytes>, blank: Bytes, pending: Bytes, evs: seq<Event>)
    requires Sound(json, x) && blank == ""
    requires if x.event.MessageStop? then evs == [] && forall k :: 0 <= k < |rest| ==> !Announces(rest[k])
             else Reads(json, "", rest, evs)
    ensures Reads(json, pending, ItemLines(x, blank, rest), [x.event] + evs)
  {
    var after := [blank] + rest;
    if x.event.MessageStop? {
      BlankIsSilent(blank);
      assert forall k :: 1 <= k < |after| ==> after[k] == rest[k - 1];
      ReadsStop(json, x.payload, after);
      assert [x.event] + evs == [MessageStop];
    } else {
      ReadsBlank(json, rest, blank, evs);
      ReadsPayload(json, x.name, x.payload, after, x.event, evs);
    }
    ReadsName(json, pending, x.name, [DATA_PREFIX + x.payload] + after, [x.event] + evs);
  }

  /** Exactly the last event is `message_stop`. */
  predicate StopsOnce(items: seq<Item>) {
    items != [] && forall k :: 0 <= k < |items| ==> (items[k].event.MessageStop? <==> k == |items| - 1)
  }

  lemma {:induction false} WireReads(json: Json, items: seq<Item>, tail: seq<Bytes>, pending: Bytes)
    requires forall k :: 0 <= k < |items| ==> Sound(json, items[k])
    requires StopsOnce(items) && forall k :: 0 <= k < |tail| ==> !Announces(tail[k])
    ensures Reads(json, pending, WireLines(items, tail), EventsSent(items))
    decreases |items|
  {
    var x, later, blank: Bytes := items[0], items[1..], "";
    assert Sound(json, x);
    if later != [] { WireReads(json, later, tail, blank); }
    ItemReads(json, x, WireLines(later, tail), blank, pending, EventsSent(later));
  }

  /** A whole message: events sent under their names, ended by `message_stop`, cut anywhere by the network and followed
      by anything that announces no further event. Each block comes back with exactly the pieces sent for it, the role
      and the usage with the last counts sent. */
  lemma MessageRoundTrip(json: Json, items: seq<Item>, tail: Bytes, chunks: seq<Bytes>)
    requires forall k :: 0 <= k < |items| ==> Sound(json, items[k])
    requires StopsOnce(items) && forall k :: 0 <= k < |Lines(tail)| ==> !Announces(Lines(tail)[k])
    requires !NegativeStart(EventsSent(items)) && Flatten(chunks) == Wire(items) + tail
    ensures var r := Outcome(FeedAll(Parser(json), Framed([], INIT), chunks).st);
            r.Some? && Describes(EventsSent(items), r.value)
  {
    var none: seq<Bytes> := [];
    WireIsOneLiners(json, items, none);
    LinesOfUnlines(WireLines(items, none));
    LinesAppend(Wire(items), tail);
    WireLinesAppend(items, none, Lines(tail));
    assert [] + tail == tail;
    WireReads(json, items, Lines(tail), "");
    StreamDecodesToItsBlocks(json, chunks, EventsSent(items));
  }

  // ----- A stream whose decoding depends on the cuts. -----

  lemma TrimmedLine(line: Bytes)
    requires |line| >= 3
    requires !IsSpace(line[..1]) && !IsSpace(line[..2]) && !IsSpace(line[..3])
    requires !IsSpace(line[|line| - 1..]) && !IsSpace(line[|line| - 2..]) && !IsSpace(line[|line| - 3..])
    ensures TrimSpace(line) == line
  {
  }

  /** The payload survives line framing. */
  predicate Framable(payload: Bytes) {
    '\n' !in payload && TrimSpace(DATA_PREFIX + payload) == DATA_PREFIX + payload
  }

  lemma EventLine(json: Json, st: State, name: Bytes)
    requires name == "message_stop" || name == "message_start"
    ensures LineStep(json, st, EVENT_PREFIX + name) == st.(event := name) && '\n' !in EVENT_PREFIX + name
  {
    var line := EVENT_PREFIX + name;
    EventIsTrimmed(name);
    assert line[|EVENT_PREFIX|..] == name;
  }

  lemma EventIsTrimmed(name: Bytes)
    requires name == "message_stop" || name == "message_start"
    ensures TrimSpace(EVENT_PREFIX + name) == EVENT_PREFIX + name && '\n' !in EVENT_PREFIX + name
  {
    var line := EVENT_PREFIX + name;
    TrimmedLine(line);
  }

  lemma DataLine(json: Json, st: State, payload: Bytes)
    requires Framable(payload)
    ensures LineStep(json, st, DATA_PREFIX + payload) == Apply(st, Decode(json, st.event, payload)).(event := "")
  {
    var line := DATA_PREFIX + payload;
    assert line[0] == 'd' && !HasPrefix(line, EVENT_PREFIX);
    assert line[|DATA_PREFIX|..] == payload;
  }

  /** Four lines, the second of which closes the machine without stopping it. */
  lemma ClosedHalfway<S>(m: Machine<S>, lines: seq<Bytes>, s0: S, s1: S, s2: S, s3: S, s4: S)
    requires |lines| == 4
    requires m.step(s0, lines[0]) == s1 && m.step(s1, lines[1]) == s2
    requires m.step(s2, lines[2]) == s3 && m.step(s3, lines[3]) == s4
    requires !m.closed(s1) && m.closed(s2) && !m.stop(s1) && !m.stop(s2) && !m.stop(s3) && !m.stop(s4)
    ensures Cut(m, s0, lines) == 2 && Ideal(m, s0, lines) == s2 && Fold(m, s0, lines) == s4
  {
    var l1 := lines[1..];
    var l2 := l1[1..];
    var l3 := l2[1..];
    assert l3[1..] == [];
    assert Fold(m, s3, l3) == s4;
    assert Fold(m, s2, l2) == s4;
    assert Fold(m, s1, l1) == s4;
    assert Cut(m, s1, l1) == 1 && Ideal(m, s1, l1) == s2;
  }

  /** Four lines, and the states they lead through. */
  ghost predicate LateSteps(json: Json, lines: seq<Bytes>, s1: State, s2: State, s3: State, s4: State) {
    && |lines| == 4 && (forall k :: 0 <= k < 4 ==> '\n' !in lines[k])
    && LineStep(json, INIT, lines[0]) == s1 && LineStep(json, s1, lines[1]) == s2
    && LineStep(json, s2, lines[2]) == s3 && LineStep(json, s3, lines[3]) == s4
    && !s1.done && s2.done && !s1.panicked && !s2.panicked && !s3.panicked && !s4.panicked
    && s2.role != s4.role
  }

  /** A `message_start` with a role, sent after `message_stop`. */
  lemma LateStates(json: Json, payload: Bytes, stop: Bytes, start: Bytes)
    returns (lines: seq<Bytes>, s1: State, s2: State, s3: State, s4: State)
    requires json.messageStart(payload).Some? && json.messageStart(payload).value.0 != "" && Framable(payload)
    requires stop == "message_stop" && start == "message_start"
    ensures LateSteps(json, lines, s1, s2, s3, s4)
  {
    var a, b, data := EVENT_PREFIX + stop, EVENT_PREFIX + start, DATA_PREFIX + payload;
    lines := [a, data, b, data];
    EventLine(json, INIT, stop);
    s1 := INIT.(event := stop);
    DataLine(json, s1, payload);
    s2 := s1.(done := true, event := "");
    EventLine(json, s2, start);
    s3 := s2.(event := start);
    DataLine(json, s3, payload);
    s4 := LineStep(json, s3, data);
  }

  /** Any `message_start` with a role, sent after `message_stop`, counts when it arrives in the same feed and does not
      otherwise. */
  lemma LateEventDependsOnCuts(json: Json, payload: Bytes, role: string, usage: Option<Usage>) returns (s: Bytes)
    requires json.messageStart(payload) == Some((role, usage)) && role != "" && Framable(payload)
    ensures !SameForEveryCutting(Parser(json), INIT, s, Outcome)
  {
    var stop: Bytes, start: Bytes := "message_stop", "message_start";
    var lines, s1, s2, s3, s4 := LateStates(json, payload, stop, start);
    s := LateStream(json, lines, s1, s2, s3, s4);
  }

  lemma LateStream(json: Json, lines: seq<Bytes>, s1: State, s2: State, s3: State, s4: State) returns (s: Bytes)
    requires LateSteps(json, lines, s1, s2, s3, s4)
    ensures !SameForEveryCutting(Parser(json), INIT, s, Outcome)
  {
    s := Unlines(lines);
    LinesOfUnlines(lines);
    ClosedHalfway(Parser(json), lines, INIT, s1, s2, s3, s4);
    assert lines[..4] == lines;
    assert Outcome(s4) != Outcome(s2);
    DecodingIgnoresCutsIff(json, s);
  }
}
