/** Which style every character of a terminal text is shown in: the converted output, read back as HTML, against the
    control sequences of the text. */
module AnsiStyles {
  import opened ByteText
  import opened Decimal
  import opened AnsiHtml
  import opened AnsiLaws

  /** A character and the opening tags it stands inside, outermost first. */
  datatype Glyph = Glyph(c: char, tags: seq<string>)

  // ----- Reading the output. -----

  const ENTITIES: map<string, char> :=
    map["&lt;" := '<', "&gt;" := '>', "&amp;" := '&', "&#39;" := '\'', "&#34;" := '"']

  /** The characters an HTML reader shows, entities decoded, each inside the tags open at that point. */
  function Shown(s: string, open: seq<string>): seq<Glyph>
    decreases |s|
  {
    if s == [] then []
    else if s[0] == '<' then
      var k := IndexOf(s, '>');
      if k < 1 then []
      else if s[1] == '/' then Shown(s[k + 1..], if open == [] then [] else open[..|open| - 1])
      else Shown(s[k + 1..], open + [s[..k + 1]])
    else if s[0] == '&' then
      var k := IndexOf(s, ';');
      if k < 0 || s[..k + 1] !in ENTITIES then []
      else [Glyph(ENTITIES[s[..k + 1]], open)] + Shown(s[k + 1..], open)
    else [Glyph(s[0], open)] + Shown(s[1..], open)
  }

  // ----- Reading the input. -----

  /** A terminal text is a row of characters and control sequences, each sequence giving some codes. */
  datatype Token = Text(c: char) | Sequence(codes: seq<string>)

  function Spell(t: Token): string {
    match t
    case Text(c) => [c]
    case Sequence(codes) => [ESC, '['] + (Joined(codes, ';') + ['m'])
  }

  function SpellAll(ts: seq<Token>): string {
    if ts == [] then [] else Spell(ts[0]) + SpellAll(ts[1..])
  }

  /** `s` begins with a control sequence that ends at `k`. */
  predicate SequenceTo(s: string, k: int) {
    2 <= k < |s| && s[0] == ESC && s[1] == '[' && s[k] == 'm' && forall i :: 2 <= i < k ==> IsParam(s[i])
  }

  predicate StartsSequence(s: string) {
    exists k :: 2 <= k < |s| && SequenceTo(s, k)
  }

  predicate AreNumbers(codes: seq<string>) {
    forall i :: 0 <= i < |codes| ==> AllDigits(codes[i])
  }

  /** The tokens are those of their text: no character of theirs begins a control sequence. */
  predicate AreTokens(ts: seq<Token>) {
    ts != [] ==>
      && AreTokens(ts[1..])
      && (ts[0].Text? ==> !StartsSequence(SpellAll(ts)))
      && (ts[0].Sequence? ==> ts[0].codes != [] && AreNumbers(ts[0].codes))
  }

  // ----- The styles. -----

  const CLASSES: map<int, string> :=
    map[1 := "ansi-bold", 2 := "ansi-dim", 3 := "ansi-italic", 4 := "ansi-underline"]

  const COLORS: map<int, string> :=
    map[30 := "#4b5563", 31 := "#fca5a5", 32 := "#86efac", 33 := "#fde68a",
        34 := "#93c5fd", 35 := "#d8b4fe", 36 := "#67e8f9", 37 := "#e2e8f0",
        90 := "#9ca3af", 91 := "#fca5a5", 92 := "#86efac", 93 := "#fde68a",
        94 := "#93c5fd", 95 := "#d8b4fe", 96 := "#67e8f9", 97 := "#f8fafc"]

  /** A code resets when it is empty, zero, or too large for a 64-bit integer. */
  predicate Resets(code: string)
    requires AllDigits(code)
  {
    code == "" || Value(code) == 0 || Value(code) >= 0x8000_0000_0000_0000
  }

  /** The tags of the known codes, in order. */
  function TagsOf(codes: seq<string>): seq<string>
    requires AreNumbers(codes)
  {
    if codes == [] then []
    else
      var init, code := codes[..|codes| - 1], Value(codes[|codes| - 1]);
      if code in CLASSES then TagsOf(init) + ["<span class=\"" + CLASSES[code] + "\">"]
      else if code in COLORS then TagsOf(init) + ["<span style=\"color:" + COLORS[code] + "\">"]
      else TagsOf(init)
  }

  /** How many codes stand before the last reset and with it. */
  function UpToReset(codes: seq<string>): nat
    requires AreNumbers(codes)
  {
    if codes == [] then 0
    else if Resets(codes[|codes| - 1]) then |codes|
    else UpToReset(codes[..|codes| - 1])
  }

  lemma {:induction false} ResetIsLast(codes: seq<string>)
    requires AreNumbers(codes)
    ensures var k := UpToReset(codes);
            k <= |codes| && (k > 0 ==> Resets(codes[k - 1])) && forall i :: k <= i < |codes| ==> !Resets(codes[i])
  {
    if codes != [] { ResetIsLast(codes[..|codes| - 1]); }
  }

  /** The tags of the known codes given since the last reset. */
  function InForce(codes: seq<string>): seq<string>
    requires AreNumbers(codes)
  {
    ResetIsLast(codes);
    TagsOf(codes[UpToReset(codes)..])
  }

  /** One glyph per text character, in order, each inside the tags in force where it stands; `given` are the codes
      given so far. */
  ghost predicate Styled(ts: seq<Token>, given: seq<string>, glyphs: seq<Glyph>)
    requires AreTokens(ts) && AreNumbers(given)
    decreases |ts|
  {
    if ts == [] then glyphs == []
    else
      match ts[0]
      case Text(c) =>
        && glyphs != []
        && glyphs[0].c == c
        && glyphs[0].tags == InForce(given)
        && Styled(ts[1..], given, glyphs[1..])
      case Sequence(codes) => Styled(ts[1..], given + codes, glyphs)
  }

  // ----- What one code does to the tags in force. -----

  lemma TagsSnoc(codes: seq<string>, code: string)
    requires AreNumbers(codes) && AllDigits(code)
    ensures AreNumbers(codes + [code])
    ensures var v := Value(code);
            TagsOf(codes + [code]) ==
            if v in CLASSES then TagsOf(codes) + ["<span class=\"" + CLASSES[v] + "\">"]
            else if v in COLORS then TagsOf(codes) + ["<span style=\"color:" + COLORS[v] + "\">"]
            else TagsOf(codes)
  {
    var all := codes + [code];
    assert all[..|all| - 1] == codes && all[|all| - 1] == code;
  }

  lemma CodeInForce(given: seq<string>, code: string)
    requires AreNumbers(given) && AllDigits(code)
    ensures AreNumbers(given + [code])
    ensures var v := Value(code);
            InForce(given + [code]) ==
            if Resets(code) then []
            else if v in CLASSES then InForce(given) + ["<span class=\"" + CLASSES[v] + "\">"]
            else if v in COLORS then InForce(given) + ["<span style=\"color:" + COLORS[v] + "\">"]
            else InForce(given)
  {
    var all := given + [code];
    assert all[..|all| - 1] == given && all[|all| - 1] == code;
    if !Resets(code) {
      var k := UpToReset(given);
      ResetIsLast(given);
      assert all[k..] == given[k..] + [code];
      TagsSnoc(given[k..], code);
    }
  }

  /** The tables of the conversion, one entry for one code. */
  lemma Tables(code: int)
    ensures Class(code) == if code in CLASSES then Some(CLASSES[code]) else None
    ensures Color(code) == if code in COLORS then Some(COLORS[code]) else None
  {
  }

  // ----- Tags in the output. -----

  lemma ShownOpen(tag: string, rest: string, open: seq<string>)
    requires IsOpenTag(tag)
    ensures Shown(tag + rest, open) == Shown(rest, open + [tag])
  {
    var s, k := tag + rest, |tag| - 1;
    assert s[..k] == tag[..k];
    FirstPosition(s, '>', k);
    assert s[k + 1..] == rest && s[..k + 1] == tag;
  }

  lemma ShownClose(tag: string, rest: string, open: seq<string>)
    requires IsCloseTag(tag) && open != []
    ensures Shown(tag + rest, open) == Shown(rest, open[..|open| - 1])
  {
    var s, k := tag + rest, |tag| - 1;
    assert s[..k] == tag[..k];
    FirstPosition(s, '>', k);
    assert s[k + 1..] == rest;
  }

  // ----- One sequence. -----

  /** Reading `html` first takes the open tags from `tags` to `after` and shows nothing. */
  ghost predicate Moves(html: string, tags: seq<string>, after: seq<string>) {
    forall rest {:trigger Shown(html + rest, tags)} :: Shown(html + rest, tags) == Shown(rest, after)
  }

  lemma MovesOn(a: string, b: string, tags: seq<string>, mid: seq<string>, after: seq<string>)
    requires Moves(a, tags, mid) && Moves(b, mid, after)
    ensures Moves(a + b, tags, after)
  {
    forall rest
      ensures Shown(a + b + rest, tags) == Shown(rest, after)
    {
      AppendAssociative(a, b, rest);
      assert Shown(a + (b + rest), tags) == Shown(b + rest, mid);
    }
  }

  lemma MovesNot(tags: seq<string>)
    ensures Moves("", tags, tags)
  {
    forall rest: string
      ensures Shown("" + rest, tags) == Shown(rest, tags)
    {
      assert "" + rest == rest;
    }
  }

  lemma MovesOpen(tag: string, tags: seq<string>)
    requires IsOpenTag(tag)
    ensures Moves(tag, tags, tags + [tag])
  {
    forall rest
      ensures Shown(tag + rest, tags) == Shown(rest, tags + [tag])
    {
      ShownOpen(tag, rest, tags);
    }
  }

  lemma MovesClose(tag: string, tags: seq<string>)
    requires IsCloseTag(tag) && tags != []
    ensures Moves(tag, tags, tags[..|tags| - 1])
  {
    forall rest
      ensures Shown(tag + rest, tags) == Shown(rest, tags[..|tags| - 1])
    {
      ShownClose(tag, rest, tags);
    }
  }

  lemma {:induction false} MovesCloses(tag: string, tags: seq<string>)
    requires IsCloseTag(tag)
    ensures Moves(Repeat(tag, |tags|), tags, [])
    decreases |tags|
  {
    if tags == [] {
      MovesNot(tags);
    } else {
      var outer := tags[..|tags| - 1];
      MovesClose(tag, tags);
      MovesCloses(tag, outer);
      MovesOn(tag, Repeat(tag, |outer|), tags, outer, []);
    }
  }

  lemma MovesReset(tags: seq<string>)
    ensures Moves(Repeat(CLOSE_TAG, |tags|), tags, [])
  {
    var tag := CLOSE_TAG;
    assert IsCloseTag(tag);
    MovesCloses(tag, tags);
  }

  lemma CodeStyles(given: seq<string>, code: string)
    requires AreNumbers(given) && AllDigits(code)
    ensures AreNumbers(given + [code])
    ensures var p, tags, after := CodeStep(code, |InForce(given)|), InForce(given), InForce(given + [code]);
            p.open == |after| && Moves(p.html, tags, after)
  {
    var tags, v := InForce(given), Value(code);
    CodeInForce(given, code);
    if Resets(code) {
      MovesReset(tags);
    } else {
      Tables(v);
      OpenTagIsTag(v);
      if OpenTag(v).Some? {
        MovesOpen(OpenTag(v).value, tags);
      } else {
        MovesNot(tags);
      }
    }
  }

  lemma {:induction false} CodesStyles(given: seq<string>, codes: seq<string>)
    requires AreNumbers(given) && AreNumbers(codes)
    ensures AreNumbers(given + codes)
    ensures var p, tags, after := CodesStep(codes, |InForce(given)|), InForce(given), InForce(given + codes);
            p.open == |after| && Moves(p.html, tags, after)
    decreases |codes|
  {
    if codes == [] {
      assert given + codes == given;
      MovesNot(InForce(given));
    } else {
      var code, more := codes[0], codes[1..];
      var next := given + [code];
      CodeStyles(given, code);
      CodesStyles(next, more);
      assert next + more == given + codes;
      var p := CodeStep(code, |InForce(given)|);
      MovesOn(p.html, CodesStep(more, p.open).html, InForce(given), InForce(next), InForce(given + codes));
    }
  }

  // ----- One token. -----

  lemma {:induction false} RunOf(a: string, b: string)
    requires forall i :: 0 <= i < |a| ==> IsParam(a[i])
    requires b != [] && !IsParam(b[0])
    ensures RunLen(a + b) == |a|
  {
    if a == [] {
      assert a + b == b;
    } else {
      assert (a + b)[1..] == a[1..] + b;
      RunOf(a[1..], b);
    }
  }

  /** The pattern matches exactly where a control sequence starts. */
  lemma MatchIsSequence(s: string)
    ensures MatchLen(s) > 0 <==> StartsSequence(s)
    ensures MatchLen(s) > 0 ==> SequenceTo(s, MatchLen(s) - 1)
    ensures forall k :: SequenceTo(s, k) ==> MatchLen(s) == k + 1
  {
    if MatchLen(s) > 0 {
      assert SequenceTo(s, MatchLen(s) - 1);
    }
    forall k | SequenceTo(s, k)
      ensures MatchLen(s) == k + 1
    {
      RunOf(s[2..k], s[k..]);
      assert s[2..] == s[2..k] + s[k..];
    }
  }

  lemma {:induction false} JoinedAreParams(codes: seq<string>)
    requires AreNumbers(codes)
    ensures forall i :: 0 <= i < |Joined(codes, ';')| ==> IsParam(Joined(codes, ';')[i])
  {
    if |codes| > 1 { JoinedAreParams(codes[1..]); }
  }

  lemma SequenceMatches(codes: seq<string>, rest: string)
    requires codes != [] && AreNumbers(codes)
    ensures var s, n := Spell(Sequence(codes)) + rest, |Joined(codes, ';')| + 3;
            MatchLen(s) == n && s[2..n - 1] == Joined(codes, ';') && s[n..] == rest
  {
    var s, k := Spell(Sequence(codes)) + rest, |Joined(codes, ';')| + 2;
    JoinedAreParams(codes);
    assert s[2..k] == Joined(codes, ';');
    assert forall i :: 2 <= i < k ==> s[i] == Joined(codes, ';')[i - 2];
    assert SequenceTo(s, k);
    MatchIsSequence(s);
  }

  lemma RenderPlain(a: string, b: string, open: nat)
    requires ESC !in a
    ensures Render(a + b, open) == a + Render(b, open)
  {
    var s := a + b;
    forall i | 0 <= i < |a|
      ensures MatchLen(s[i..]) == 0
    {
      assert s[i..][0] == a[i];
    }
    RenderText(s, 0, |a|, open);
    assert s[0..] == s && s[0..|a|] == a && s[|a|..] == b;
  }

  lemma ShownEntity(entity: string, rest: string, open: seq<string>)
    requires entity in ENTITIES
    requires |entity| > 1 && entity[0] == '&' && entity[|entity| - 1] == ';' && ';' !in entity[..|entity| - 1]
    ensures Shown(entity + rest, open) == [Glyph(ENTITIES[entity], open)] + Shown(rest, open)
  {
    var s, k := entity + rest, |entity| - 1;
    assert s[..k] == entity[..k];
    FirstPosition(s, ';', k);
    assert s[..k + 1] == entity && s[k + 1..] == rest;
  }

  lemma ShownChar(c: char, rest: string, open: seq<string>)
    ensures Shown(EscapeChar(c) + rest, open) == [Glyph(c, open)] + Shown(rest, open)
  {
    var e := EscapeChar(c);
    if e == [c] {
      assert ([c] + rest)[1..] == rest;
    } else {
      ShownEntity(e, rest, open);
    }
  }

  // ----- The whole text. -----

  lemma TextStyles(c: char, rest: string, open: seq<string>)
    requires !StartsSequence([c] + rest)
    ensures var html := Render(Escape([c] + rest), |open|);
            Shown(html, open) == [Glyph(c, open)] + Shown(Render(Escape(rest), |open|), open)
  {
    var s, e := [c] + rest, EscapeChar(c);
    MatchIsSequence(s);
    MatchSurvivesEscaping(s);
    assert s[1..] == rest;
    assert Escape(s) == e + Escape(rest);
    if c == ESC {
      assert Escape(s)[1..] == Escape(rest);
      RenderChar(Escape(s), |open|);
    } else {
      assert e == [e[0]] + e[1..];
      RenderPlain(e, Escape(rest), |open|);
    }
    ShownChar(c, Render(Escape(rest), |open|), open);
  }

  lemma RenderSequence(codes: seq<string>, rest: string, open: nat)
    requires codes != [] && AreNumbers(codes)
    ensures var p := CodesStep(codes, open);
            Render(Escape(Spell(Sequence(codes)) + rest), open) == p.html + Render(Escape(rest), p.open)
  {
    var s, n := Spell(Sequence(codes)) + rest, |Joined(codes, ';')| + 3;
    SequenceMatches(codes, rest);
    MatchSurvivesEscaping(s);
    SplitJoined(codes, ';');
    var html := Escape(s);
    assert html[2..n - 1] == s[2..n - 1] && html[n..] == Escape(rest);
  }

  lemma SequenceStyles(codes: seq<string>, rest: string, given: seq<string>)
    requires codes != [] && AreNumbers(codes) && AreNumbers(given)
    ensures AreNumbers(given + codes)
    ensures var html, tags, after := Escape(Spell(Sequence(codes)) + rest), InForce(given), InForce(given + codes);
            Shown(Render(html, |tags|), tags) == Shown(Render(Escape(rest), |after|), after)
  {
    RenderSequence(codes, rest, |InForce(given)|);
    CodesStyles(given, codes);
  }

  lemma {:induction false} TokensStyles(ts: seq<Token>, given: seq<string>)
    requires AreTokens(ts) && AreNumbers(given)
    ensures var tags := InForce(given);
            Styled(ts, given, Shown(Render(Escape(SpellAll(ts)), |tags|), tags))
    decreases |ts|
  {
    var tags := InForce(given);
    if ts == [] {
      var closes := Repeat(CLOSE_TAG, |tags|);
      MovesReset(tags);
      assert closes + "" == closes;
      assert Shown(closes + "", tags) == Shown("", []);
    } else {
      var rest := SpellAll(ts[1..]);
      match ts[0] {
        case Text(c) =>
          TextStyles(c, rest, tags);
          var more := Shown(Render(Escape(rest), |tags|), tags);
          assert ([Glyph(c, tags)] + more)[1..] == more;
          TokensStyles(ts[1..], given);
        case Sequence(codes) =>
          SequenceStyles(codes, rest, given);
          TokensStyles(ts[1..], given + codes);
      }
    }
  }

  // ----- Every text has its tokens. -----

  lemma SplitAreNumbers(params: string)
    requires forall i :: 0 <= i < |params| ==> IsParam(params[i])
    ensures AreNumbers(Split(params, ';')) && Joined(Split(params, ';'), ';') == params
  {
    JoinedSplit(params, ';');
    var codes := Split(params, ';');
    assert forall i, j :: 0 <= i < |codes| && 0 <= j < |codes[i]| ==> codes[i][j] in codes[i];
  }

  lemma OneMore(t: Token, ts: seq<Token>)
    requires AreTokens(ts)
    requires t.Text? ==> !StartsSequence([t.c] + SpellAll(ts))
    requires t.Sequence? ==> t.codes != [] && AreNumbers(t.codes)
    ensures AreTokens([t] + ts) && SpellAll([t] + ts) == Spell(t) + SpellAll(ts)
  {
    assert ([t] + ts)[1..] == ts;
  }

  lemma FirstSequence(s: string) returns (n: nat, codes: seq<string>)
    requires StartsSequence(s)
    ensures 0 < n <= |s| && codes != [] && AreNumbers(codes) && s[..n] == Spell(Sequence(codes))
  {
    MatchIsSequence(s);
    n := MatchLen(s);
    var params := s[2..n - 1];
    SplitAreNumbers(params);
    codes := Split(params, ';');
    assert s[..n] == [ESC, '['] + (params + ['m']);
  }

  lemma {:induction false} TokensOf(s: string) returns (ts: seq<Token>)
    ensures AreTokens(ts) && SpellAll(ts) == s
    decreases |s|
  {
    if s == [] {
      ts := [];
    } else if StartsSequence(s) {
      var n, codes := FirstSequence(s);
      var more := TokensOf(s[n..]);
      OneMore(Sequence(codes), more);
      assert s == s[..n] + s[n..];
      ts := [Sequence(codes)] + more;
    } else {
      var more := TokensOf(s[1..]);
      assert s == [s[0]] + s[1..];
      OneMore(Text(s[0]), more);
      ts := [Text(s[0])] + more;
    }
  }

  /** For every text: whatever its characters and control sequences are, the output shows exactly its characters, in
      order, each inside the tags of the known codes given since the last reset before it. */
  lemma EveryCharacterStyled(text: string)
    ensures exists ts :: AreTokens(ts) && SpellAll(ts) == text
    ensures forall ts :: AreTokens(ts) && SpellAll(ts) == text ==>
              Styled(ts, [], Shown(Render(Escape(text), 0), []))
  {
    var own := TokensOf(text);
    forall ts | AreTokens(ts) && SpellAll(ts) == text
      ensures Styled(ts, [], Shown(Render(Escape(text), 0), []))
    {
      TokensStyles(ts, []);
      assert InForce([]) == [];
    }
  }

  /** `ansiToHTML`. */
  method AnsiToHtml(text: string) returns (html: string)
    ensures Nested(html, 0)
    ensures exists ts :: AreTokens(ts) && SpellAll(ts) == text
    ensures forall ts :: AreTokens(ts) && SpellAll(ts) == text ==> Styled(ts, [], Shown(html, []))
  {
    var escaped := Escape(text);
    html := Convert(escaped);
    OutputLaws(text);
    EveryCharacterStyled(text);
  }
}
