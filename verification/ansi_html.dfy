/** The UI's terminal output: ANSI escape sequences become nested HTML spans. */
module AnsiHtml {
  import opened ByteText
  import opened Decimal

  const ESC: char := 0x1b as char

  // ----- Escaping and matching. -----

  function EscapeChar(c: char): (r: string)
    ensures r != [] && ESC !in r[1..] && '<' !in r && '>' !in r
    ensures r == [c] || (r[0] == '&' && c != ESC && !IsParam(c) && c != 'm')
  {
    if c == '<' then "&lt;"
    else if c == '>' then "&gt;"
    else if c == '&' then "&amp;"
    else if c == '\'' then "&#39;"
    else if c == '"' then "&#34;"
    else [c]
  }

  /** `html.EscapeString`. */
  function Escape(t: string): string {
    if t == [] then [] else EscapeChar(t[0]) + Escape(t[1..])
  }

  predicate IsParam(c: char) {
    '0' <= c <= '9' || c == ';'
  }

  /** The length of the leading run of digits and semicolons. */
  function RunLen(s: string): (k: nat)
    ensures k <= |s| && (forall i :: 0 <= i < k ==> IsParam(s[i])) && (k < |s| ==> !IsParam(s[k]))
  {
    if s == [] || !IsParam(s[0]) then 0 else 1 + RunLen(s[1..])
  }

  /** The length of `params m` at the start of `s`, or 0. */
  function BodyLen(s: string): (n: nat)
    ensures n <= |s|
  {
    var k := RunLen(s);
    if k < |s| && s[k] == 'm' then k + 1 else 0
  }

  /** The length of a match of `ESC [ params m` at the start of `s`, or 0. */
  function MatchLen(s: string): (n: nat)
    ensures n <= |s| && (n > 0 ==> n >= 3 && s[0] == ESC)
  {
    if |s| < 2 || s[0] != ESC || s[1] != '[' || BodyLen(s[2..]) == 0 then 0 else 2 + BodyLen(s[2..])
  }

  /** The text with every match removed, scanning left to right. */
  function StripAnsi(s: string): string
    decreases |s|
  {
    if s == [] then []
    else if MatchLen(s) > 0 then StripAnsi(s[MatchLen(s)..])
    else [s[0]] + StripAnsi(s[1..])
  }

  // ----- Codes and tags. -----

  /** `strconv.Atoi` on a piece between semicolons: an error when empty or above the largest 64-bit integer. */
  function Atoi(digits: string): Option<int> {
    if digits == [] || !AllDigits(digits) || Value(digits) > 0x7fff_ffff_ffff_ffff then None else Some(Value(digits))
  }

  /** A tag as it stands in the output. */
  ghost predicate IsTag(tag: string) {
    |tag| >= 2 && tag[0] == '<' && tag[|tag| - 1] == '>' && '>' !in tag[..|tag| - 1]
  }

  function Class(code: int): Option<string> {
    if code == 1 then Some("ansi-bold")
    else if code == 2 then Some("ansi-dim")
    else if code == 3 then Some("ansi-italic")
    else if code == 4 then Some("ansi-underline")
    else None
  }

  function Color(code: int): Option<string> {
    if code == 30 then Some("#4b5563")
    else if code == 31 || code == 91 then Some("#fca5a5")
    else if code == 32 || code == 92 then Some("#86efac")
    else if code == 33 || code == 93 then Some("#fde68a")
    else if code == 34 || code == 94 then Some("#93c5fd")
    else if code == 35 || code == 95 then Some("#d8b4fe")
    else if code == 36 || code == 96 then Some("#67e8f9")
    else if code == 37 then Some("#e2e8f0")
    else if code == 90 then Some("#9ca3af")
    else if code == 97 then Some("#f8fafc")
    else None
  }

  /** The tag a code opens, if any. */
  function OpenTag(code: int): Option<string> {
    if Class(code).Some? then Some("<span class=\"" + Class(code).value + "\">")
    else if Color(code).Some? then Some("<span style=\"color:" + Color(code).value + "\">")
    else None
  }

  const CLOSE_TAG: string := "</span>"

  function Repeat(tag: string, n: nat): string {
    if n == 0 then "" else tag + Repeat(tag, n - 1)
  }

  datatype Piece = Piece(html: string, open: nat)

  function CodeStep(cs: string, open: nat): Piece {
    match Atoi(cs)
    case None => Piece(Repeat(CLOSE_TAG, open), 0)
    case Some(code) =>
      if code == 0 then Piece(Repeat(CLOSE_TAG, open), 0)
      else if OpenTag(code).Some? then Piece(OpenTag(code).value, open + 1)
      else Piece("", open)
  }

  function CodesStep(codes: seq<string>, open: nat): Piece
    decreases |codes|
  {
    if codes == [] then Piece("", open)
    else
      var p := CodeStep(codes[0], open);
      var q := CodesStep(codes[1..], p.open);
      Piece(p.html + q.html, q.open)
  }

  /** The output for the rest of the escaped text, with `open` spans open. */
  function Render(s: string, open: nat): string
    decreases |s|
  {
    if s == [] then Repeat(CLOSE_TAG, open)
    else
      var n := MatchLen(s);
      if n > 0 then
        var p := CodesStep(Split(s[2..n - 1], ';'), open);
        p.html + Render(s[n..], p.open)
      else [s[0]] + Render(s[1..], open)
  }

  // ----- The conversion loop. -----

  /** The first position from `from` on where the pattern matches, or the end. */
  method FindNext(s: string, from: nat) returns (start: nat)
    requires from <= |s|
    ensures from <= start <= |s|
    ensures start < |s| ==> MatchLen(s[start..]) > 0
    ensures forall i :: from <= i < start ==> MatchLen(s[i..]) == 0
  {
    start := from;
    while start < |s|
      invariant from <= start <= |s|
      invariant forall i :: from <= i < start ==> MatchLen(s[i..]) == 0
    {
      if MatchLen(s[start..]) > 0 { return; }
      start := start + 1;
    }
  }

  lemma RenderChar(s: string, open: nat)
    requires s != [] && MatchLen(s) == 0
    ensures Render(s, open) == [s[0]] + Render(s[1..], open)
  {
  }

  lemma {:induction false} RenderText(s: string, a: nat, b: nat, open: nat)
    requires a <= b <= |s| && forall i :: a <= i < b ==> MatchLen(s[i..]) == 0
    ensures Render(s[a..], open) == s[a..b] + Render(s[b..], open)
    decreases b - a
  {
    if a == b {
      assert s[a..b] + Render(s[b..], open) == Render(s[b..], open);
    } else {
      RenderText(s, a + 1, b, open);
      RenderChar(s[a..], open);
      assert s[a..][1..] == s[a + 1..];
      assert s[a..b] == [s[a]] + s[a + 1..b];
      AppendAssociative([s[a]], s[a + 1..b], Render(s[b..], open));
    }
  }

  /** The text before a match and the tags of the match itself. */
  method EmitMatch(s: string, last: nat, start: nat, open: nat) returns (piece: string, next: nat, open': nat)
    requires last <= start < |s| && (forall i :: last <= i < start ==> MatchLen(s[i..]) == 0)
    requires MatchLen(s[start..]) > 0
    ensures start < next <= |s| && Render(s[last..], open) == piece + Render(s[next..], open')
  {
    var text, found := s[last..start], s[start..];
    var n := MatchLen(found);
    var p, o := EmitCodes(Split(found[2..n - 1], ';'), open);
    RenderText(s, last, start, open);
    next, open' := start + n, o;
    ghost var rest := Render(found[n..], o);
    assert found[n..] == s[next..];
    assert Render(found, open) == p + rest;
    AppendAssociative(text, p, rest);
    piece := text + p;
  }

  method Convert(escaped: string) returns (html: string)
    ensures html == Render(escaped, 0)
  {
    var open: nat, last: nat := 0, 0;
    html := "";
    ghost var goal := Render(escaped, 0);
    assert escaped[0..] == escaped;
    assert html + Render(escaped[0..], 0) == goal;
    var start := FindNext(escaped, 0);
    while start < |escaped|
      invariant last <= start <= |escaped|
      invariant forall i :: last <= i < start ==> MatchLen(escaped[i..]) == 0
      invariant start < |escaped| ==> MatchLen(escaped[start..]) > 0
      invariant html + Render(escaped[last..], open) == goal
      decreases |escaped| - start
    {
      var piece, next, o := EmitMatch(escaped, last, start, open);
      AppendAssociative(html, piece, Render(escaped[next..], o));
      html, last, open := html + piece, next, o;
      start := FindNext(escaped, last);
    }
    RenderText(escaped, last, |escaped|, open);
    var tail := EmitCloses(open);
    assert Render(escaped[|escaped|..], open) == tail;
    AppendAssociative(html, escaped[last..], tail);
    assert escaped[last..] == escaped[last..|escaped|];
    html := html + escaped[last..] + tail;
  }

  method EmitCodes(codes: seq<string>, open0: nat) returns (b: string, open: nat)
    ensures Piece(b, open) == CodesStep(codes, open0)
  {
    b, open := "", open0;
    for i := 0 to |codes|
      invariant Piece(b + CodesStep(codes[i..], open).html, CodesStep(codes[i..], open).open) == CodesStep(codes, open0)
    {
      assert codes[i..][1..] == codes[i + 1..];
      ghost var p := CodeStep(codes[i], open);
      AppendAssociative(b, p.html, CodesStep(codes[i + 1..], p.open).html);
      var code := Atoi(codes[i]);
      if code.None? || code.value == 0 {
        var closes := EmitCloses(open);
        b := b + closes;
        open := 0;
        continue;
      }
      var name := Class(code.value);
      if name.Some? {
        b := b + ("<span class=\"" + name.value + "\">");
        open := open + 1;
        continue;
      }
      var color := Color(code.value);
      if color.Some? {
        b := b + ("<span style=\"color:" + color.value + "\">");
        open := open + 1;
      } else {
        assert b + "" == b;
      }
    }
  }

  method EmitCloses(open: nat) returns (b: string)
    ensures b == Repeat(CLOSE_TAG, open)
  {
    b := "";
    var n: nat := open;
    while n > 0
      invariant n <= open && b + Repeat(CLOSE_TAG, n) == Repeat(CLOSE_TAG, open)
    {
      AppendAssociative(b, CLOSE_TAG, Repeat(CLOSE_TAG, n - 1));
      b := b + CLOSE_TAG;
      n := n - 1;
    }
    assert b + "" == b;
  }
}
