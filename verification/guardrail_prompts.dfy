/** The guardrail filter's view of a chat request: reading the user prompts and putting masked ones back. */
module GuardrailPrompts {
  import opened ByteText
  import opened ContentParts

  /** One message; `content` is raw JSON and `extras` its other fields. */
  datatype Message = Message(role: string, content: Bytes, extras: Bytes)

  datatype Request = Request(messages: seq<Message>, extras: Bytes)

  /** The JSON library and `%q`. `encode` fails when some raw content is not valid JSON. */
  datatype Codec = Codec(
    decode: Bytes -> Option<Request>,
    encode: Request -> Option<Bytes>,
    str: Bytes -> Option<string>,
    parts: Bytes -> Option<seq<ContentPart>>,
    quote: string -> Bytes,
    textPart: string -> Bytes)

  predicate IsUser(m: Message) {
    m.role == "user"
  }

  function TextOf(c: Codec, raw: Bytes): string {
    ContentText(raw, c.str, c.parts)
  }

  /** Encoding a request and decoding it again keeps its messages up to formatting. */
  ghost predicate Survives(c: Codec, r: Request) {
    c.encode(r).Some? ==>
      var d := c.decode(c.encode(r).value);
      && d.Some? && |d.value.messages| == |r.messages|
      && forall i :: 0 <= i < |r.messages| ==> Same(c, d.value.messages[i], r.messages[i])
  }

  ghost predicate Same(c: Codec, a: Message, b: Message) {
    a.role == b.role && TextOf(c, a.content) == TextOf(c, b.content)
  }

  /** What `%q` prints is accepted as JSON only when it decodes to the quoted string. */
  ghost predicate QuotesSafely(c: Codec, r: Request, i: nat, s: string) {
    c.encode(r).Some? && i < |r.messages| && r.messages[i].content == c.quote(s) ==>
      c.quote(s) != [] && c.str(c.quote(s)) == Some(s)
  }

  predicate OnlyUsers(r: Request) {
    forall i :: 0 <= i < |r.messages| ==> IsUser(r.messages[i])
  }

  /** What the JSON library promises of the requests the filter builds, which hold user messages only (a role that is
      not valid UTF-8 would not survive); a single text part is an object, neither a string nor an array. */
  ghost predicate Lawful(c: Codec) {
    && (forall r: Request :: OnlyUsers(r) ==> Survives(c, r))
    && (forall r: Request, i: nat, s: string :: QuotesSafely(c, r, i, s))
    && (forall s: string :: c.str(c.textPart(s)) == None && c.parts(c.textPart(s)) == None)
  }

  // ----- Reading. -----

  function UserTexts(c: Codec, ms: seq<Message>): seq<string>
    decreases |ms|
  {
    if ms == [] then []
    else if IsUser(ms[0]) then [TextOf(c, ms[0].content)] + UserTexts(c, ms[1..])
    else UserTexts(c, ms[1..])
  }

  /** The messages of the user, in order. */
  function Users(ms: seq<Message>): seq<Message>
    decreases |ms|
  {
    if ms == [] then [] else if IsUser(ms[0]) then [ms[0]] + Users(ms[1..]) else Users(ms[1..])
  }

  /** The prompts are what the user's messages say, one each and in order. */
  ghost predicate AreSaid(c: Codec, us: seq<Message>, texts: seq<string>) {
    |texts| == |us| && forall i :: 0 <= i < |us| ==> Says(us[i].content, c.str, c.parts, texts[i])
  }

  lemma {:induction false} TextsAreSaid(c: Codec, ms: seq<Message>)
    ensures AreSaid(c, Users(ms), UserTexts(c, ms))
    decreases |ms|
  {
    if ms != [] {
      TextsAreSaid(c, ms[1..]);
      ContentSays(ms[0].content, c.str, c.parts, TextOf(c, ms[0].content));
    }
  }

  /** `ParseChatRequest`. */
  method ParseChatRequest(c: Codec, body: Bytes) returns (r: Option<seq<string>>)
    ensures r == Prompts(c, body)
    ensures r.None? <==> c.decode(body).None?
    ensures r.Some? ==> AreSaid(c, Users(c.decode(body).value.messages), r.value)
  {
    var req := c.decode(body);
    if req.None? { return None; }
    var ms := req.value.messages;
    var userParts: seq<string> := [];
    assert ms[0..] == ms;
    for i := 0 to |ms|
      invariant userParts + UserTexts(c, ms[i..]) == UserTexts(c, ms)
    {
      assert ms[i..][1..] == ms[i + 1..];
      if IsUser(ms[i]) {
        AppendAssociative(userParts, [TextOf(c, ms[i].content)], UserTexts(c, ms[i + 1..]));
        userParts := userParts + [TextOf(c, ms[i].content)];
      }
    }
    assert ms[|ms|..] == [] && userParts + [] == userParts;
    TextsAreSaid(c, ms);
    return Some(userParts);
  }

  function Prompts(c: Codec, body: Bytes): Option<seq<string>> {
    match c.decode(body)
    case None => None
    case Some(r) => Some(UserTexts(c, r.messages))
  }

  // ----- Replacing. -----

  /** The content that carries a masked prompt: quoted for a string, a lone text part for anything that also decodes
      as an array, empty otherwise. */
  function Masked(c: Codec, m: Message, text: string): Bytes {
    if m.content != [] && c.parts(m.content).Some? then c.textPart(text)
    else if m.content != [] && c.str(m.content).Some? then c.quote(text)
    else []
  }

  /** The loop over the messages, from message `i` and prompt `k` on; None is the error. */
  function ReplaceFrom(c: Codec, ms: seq<Message>, texts: seq<string>, k: nat): Option<seq<Message>>
    requires k <= |texts|
    decreases |ms|
  {
    if ms == [] then Some([])
    else if k == |texts| then None
    else if !IsUser(ms[0]) then ReplaceFrom(c, ms[1..], texts, k)
    else
      match ReplaceFrom(c, ms[1..], texts, k + 1)
      case None => None
      case Some(rest) => Some([ms[0].(content := Masked(c, ms[0], texts[k]))] + rest)
  }

  function Replaced(c: Codec, body: Bytes, texts: seq<string>): Option<Bytes> {
    match c.decode(body)
    case None => None
    case Some(req) =>
      match ReplaceFrom(c, req.messages, texts, 0)
      case None => None
      case Some(ms) => c.encode(req.(messages := ms))
  }

  /** `ReplaceUserPrompts`. */
  method ReplaceUserPrompts(c: Codec, body: Bytes, texts: seq<string>) returns (r: Option<Bytes>)
    ensures r == Replaced(c, body, texts)
  {
    var decoded := c.decode(body);
    if decoded.None? { return None; }
    var ms := decoded.value.messages;
    var k := 0;
    var m: seq<Message> := [];
    assert ms[0..] == ms;
    assert forall rest: seq<Message> :: m + rest == rest;
    for i := 0 to |ms|
      invariant 0 <= k <= |texts|
      invariant match ReplaceFrom(c, ms[i..], texts, k)
                case None => ReplaceFrom(c, ms, texts, 0).None?
                case Some(rest) => ReplaceFrom(c, ms, texts, 0) == Some(m + rest)
    {
      assert ms[i..][1..] == ms[i + 1..];
      if k == |texts| { return None; }
      if !IsUser(ms[i]) { continue; }
      var content: Bytes := [];
      if ms[i].content != [] && c.str(ms[i].content).Some? {
        content := c.quote(texts[k]);
      }
      if ms[i].content != [] && c.parts(ms[i].content).Some? {
        content := c.textPart(texts[k]);
      }
      ghost var rest := ReplaceFrom(c, ms[i + 1..], texts, k + 1);
      if rest.Some? { AppendAssociative(m, [ms[i].(content := content)], rest.value); }
      m := m + [ms[i].(content := content)];
      k := k + 1;
    }
    assert ms[|ms|..] == [] && m + [] == m;
    return c.encode(decoded.value.(messages := m));
  }

  // ----- What replacing keeps. -----

  /** The loop fails exactly when some message is reached after the prompts have run out: it is not enough to have a
      prompt per user message, a trailing message of any other role needs one to spare. */
  lemma {:induction false} ReplaceSucceedsIff(c: Codec, ms: seq<Message>, texts: seq<string>, k: nat)
    requires k <= |texts|
    ensures ReplaceFrom(c, ms, texts, k).Some? <==> ms == [] || k + |Users(ms[..|ms| - 1])| < |texts|
    decreases |ms|
  {
    if ms != [] {
      var init := ms[..|ms| - 1];
      if |ms| == 1 {
        assert init == [] && ms[1..] == [];
      } else {
        assert ms[1..][..|ms| - 2] == init[1..] && init[0] == ms[0];
        if k < |texts| { ReplaceSucceedsIff(c, ms[1..], texts, if IsUser(ms[0]) then k + 1 else k); }
      }
    }
  }

  /** `r` is the user message `m` with its prompt replaced: content that decodes as an array becomes a lone text part,
      any other string the quoted text, anything else nothing. */
  predicate IsReplaced(c: Codec, m: Message, r: Message, text: string) {
    && IsUser(m) && r.role == m.role && r.extras == m.extras
    && (m.content == [] ==> r.content == [])
    && (m.content != [] && c.parts(m.content).Some? ==> r.content == c.textPart(text))
    && (m.content != [] && c.parts(m.content).None? ==>
          r.content == if c.str(m.content).Some? then c.quote(text) else [])
  }

  lemma OneMoreReplaced(c: Codec, m: Message, r: Message, us: seq<Message>, rest: seq<Message>, texts: seq<string>,
                        k: nat)
    requires |us| == |rest| && k + 1 + |us| <= |texts| && IsReplaced(c, m, r, texts[k])
    requires forall i :: 0 <= i < |us| ==> IsReplaced(c, us[i], rest[i], texts[k + 1 + i])
    ensures forall i :: 0 <= i < |us| + 1 ==> IsReplaced(c, ([m] + us)[i], ([r] + rest)[i], texts[k + i])
  {
    forall i | 0 <= i < |us| + 1
      ensures IsReplaced(c, ([m] + us)[i], ([r] + rest)[i], texts[k + i])
    {
      if i > 0 { assert IsReplaced(c, us[i - 1], rest[i - 1], texts[k + 1 + (i - 1)]); }
    }
  }

  /** On success the result is exactly the user messages, in order, each with its prompt replaced: every other
      message is dropped. */
  lemma {:induction false} OnlyUsersRemain(c: Codec, ms: seq<Message>, texts: seq<string>, k: nat)
    requires k <= |texts| && ReplaceFrom(c, ms, texts, k).Some?
    ensures |ReplaceFrom(c, ms, texts, k).value| == |Users(ms)| && k + |Users(ms)| <= |texts|
    ensures forall i :: 0 <= i < |Users(ms)| ==>
              IsReplaced(c, Users(ms)[i], ReplaceFrom(c, ms, texts, k).value[i], texts[k + i])
    decreases |ms|
  {
    if ms != [] {
      var user := IsUser(ms[0]);
      OnlyUsersRemain(c, ms[1..], texts, if user then k + 1 else k);
      if user {
        var us, rest := Users(ms[1..]), ReplaceFrom(c, ms[1..], texts, k + 1).value;
        var first := ms[0].(content := Masked(c, ms[0], texts[k]));
        assert ReplaceFrom(c, ms, texts, k) == Some([first] + rest) && Users(ms) == [ms[0]] + us;
        OneMoreReplaced(c, ms[0], first, us, rest, texts, k);
      }
    }
  }

  ghost predicate AreReplaced(c: Codec, us: seq<Message>, ms: seq<Message>, texts: seq<string>) {
    |ms| == |us| <= |texts| && forall i :: 0 <= i < |us| ==> IsReplaced(c, us[i], ms[i], texts[i])
  }

  lemma OneReplacement(c: Codec, us: seq<Message>, a: seq<Message>, b: seq<Message>, texts: seq<string>)
    requires AreReplaced(c, us, a, texts) && AreReplaced(c, us, b, texts)
    ensures a == b
  {
    assert forall i :: 0 <= i < |us| ==> IsReplaced(c, us[i], a[i], texts[i]) && IsReplaced(c, us[i], b[i], texts[i]);
  }

  /** Replacing gives `out` if and only if the body decodes, a prompt is left whenever a message is reached, and `out`
      encodes the request with its messages cut down to the user's, each carrying its new prompt. */
  lemma ReplacedIff(c: Codec, body: Bytes, texts: seq<string>, out: Bytes)
    ensures Replaced(c, body, texts) == Some(out) <==>
            && c.decode(body).Some?
            && (var r := c.decode(body).value;
                && (r.messages == [] || |Users(r.messages[..|r.messages| - 1])| < |texts|)
                && exists ms :: AreReplaced(c, Users(r.messages), ms, texts)
                                && c.encode(Request(ms, r.extras)) == Some(out))
  {
    if c.decode(body).Some? {
      var r := c.decode(body).value;
      var sent := ReplaceFrom(c, r.messages, texts, 0);
      ReplaceSucceedsIff(c, r.messages, texts, 0);
      if sent.Some? {
        OnlyUsersRemain(c, r.messages, texts, 0);
        assert forall i :: 0 <= i < |Users(r.messages)| ==> texts[0 + i] == texts[i];
        assert AreReplaced(c, Users(r.messages), sent.value, texts);
        forall ms | AreReplaced(c, Users(r.messages), ms, texts)
          ensures ms == sent.value
        {
          OneReplacement(c, Users(r.messages), ms, sent.value, texts);
        }
      }
    }
  }

  lemma {:induction false} TextsOfUsers(c: Codec, ms: seq<Message>)
    requires forall i :: 0 <= i < |ms| ==> IsUser(ms[i])
    ensures |UserTexts(c, ms)| == |ms|
    ensures forall i :: 0 <= i < |ms| ==> UserTexts(c, ms)[i] == TextOf(c, ms[i].content)
    decreases |ms|
  {
    if ms != [] { TextsOfUsers(c, ms[1..]); }
  }

  /** The content is a string and nothing else: JSON null also decodes as an array. */
  predicate PlainString(c: Codec, m: Message) {
    m.content != [] && c.str(m.content).Some? && c.parts(m.content).None?
  }

  lemma MaskedText(c: Codec, sent: Request, i: nat, m: Message, text: string)
    requires Lawful(c) && c.encode(sent).Some? && i < |sent.messages|
    requires sent.messages[i].content == Masked(c, m, text)
    ensures TextOf(c, sent.messages[i].content) == if PlainString(c, m) then text else ""
  {
    if PlainString(c, m) { assert QuotesSafely(c, sent, i, text); }
  }

  /** What reading back a replaced request gives, prompt by prompt. */
  lemma ReadBack(c: Codec, body: Bytes, texts: seq<string>)
    requires Lawful(c) && Replaced(c, body, texts).Some?
    ensures var us := Users(c.decode(body).value.messages);
            var p := Prompts(c, Replaced(c, body, texts).value);
            && p.Some? && |p.value| == |us| <= |texts|
            && forall i :: 0 <= i < |us| ==> p.value[i] == if PlainString(c, us[i]) then texts[i] else ""
  {
    var req := c.decode(body).value;
    OnlyUsersRemain(c, req.messages, texts, 0);
    var us, sent := Users(req.messages), req.(messages := ReplaceFrom(c, req.messages, texts, 0).value);
    assert forall i :: 0 <= i < |us| ==> texts[0 + i] == texts[i];
    ReadBackMessages(c, sent, us, texts);
  }

  lemma ReadBackMessages(c: Codec, sent: Request, us: seq<Message>, texts: seq<string>)
    requires Lawful(c) && c.encode(sent).Some? && |sent.messages| == |us| <= |texts|
    requires forall i :: 0 <= i < |us| ==> IsReplaced(c, us[i], sent.messages[i], texts[i])
    ensures var p := Prompts(c, c.encode(sent).value);
            && p.Some? && |p.value| == |us|
            && forall i :: 0 <= i < |us| ==> p.value[i] == if PlainString(c, us[i]) then texts[i] else ""
  {
    assert OnlyUsers(sent) by {
      forall i | 0 <= i < |us|
        ensures IsUser(sent.messages[i])
      {
        assert IsReplaced(c, us[i], sent.messages[i], texts[i]);
      }
    }
    assert Survives(c, sent);
    var back := c.decode(c.encode(sent).value).value.messages;
    forall i | 0 <= i < |back|
      ensures IsUser(back[i])
    {
      assert Same(c, back[i], sent.messages[i]) && IsReplaced(c, us[i], sent.messages[i], texts[i]);
    }
    TextsOfUsers(c, back);
    forall i | 0 <= i < |us|
      ensures TextOf(c, back[i].content) == if PlainString(c, us[i]) then texts[i] else ""
    {
      assert Same(c, back[i], sent.messages[i]) && IsReplaced(c, us[i], sent.messages[i], texts[i]);
      MaskedText(c, sent, i, us[i], texts[i]);
    }
  }

  /** Whenever replacing succeeds, reading the prompts back gives the given texts, cut to the number of user messages,
      if and only if every user message whose text is not empty had plain string content. */
  lemma ReplaceThenParseIff(c: Codec, body: Bytes, texts: seq<string>)
    requires Lawful(c) && Replaced(c, body, texts).Some?
    ensures var us := Users(c.decode(body).value.messages);
            && |us| <= |texts|
            && (Prompts(c, Replaced(c, body, texts).value) == Some(texts[..|us|])
                <==> forall i :: 0 <= i < |us| ==> PlainString(c, us[i]) || texts[i] == "")
  {
    ReadBack(c, body, texts);
    var us := Users(c.decode(body).value.messages);
    var p := Prompts(c, Replaced(c, body, texts).value).value;
    if p == texts[..|us|] {
      forall i | 0 <= i < |us|
        ensures PlainString(c, us[i]) || texts[i] == ""
      {
        assert p[i] == texts[..|us|][i];
      }
    }
    if forall i :: 0 <= i < |us| ==> PlainString(c, us[i]) || texts[i] == "" {
      assert p == texts[..|us|];
    }
  }

  /** Content that is an array is lost: a lone text part is put in its place, which reads back as nothing. */
  lemma ArrayContentIsLost(c: Codec, body: Bytes, m: Message, text: string)
    requires Lawful(c) && Replaced(c, body, [text]).Some? && c.decode(body).value.messages == [m]
    requires IsUser(m) && m.content != [] && c.parts(m.content).Some? && text != ""
    ensures Prompts(c, Replaced(c, body, [text]).value) == Some([""])
  {
    ReadBack(c, body, [text]);
    var ms := [m];
    assert |ms[1..]| == 0 && Users(ms[1..]) == [];
    assert Users(ms) == [m] + Users(ms[1..]);
    var p := Prompts(c, Replaced(c, body, [text]).value).value;
    var us := Users(ms);
    assert us[0] == m && !PlainString(c, us[0]);
    assert p == [""];
  }
}
