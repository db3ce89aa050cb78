/** What the converted output means: well-nested spans around exactly the escaped, stripped text. */
module AnsiLaws {
  import opened ByteText
  import opened AnsiHtml

  // ----- Reading the output as a string. -----

  /** The output with every tag, from `<` to the next `>`, erased. */
  function EraseTags(s: string): string
    decreases |s|
  {
    if s == [] then []
    else if s[0] != '<' then [s[0]] + EraseTags(s[1..])
    else
      var k := IndexOf(s, '>');
      if k < 0 then [] else EraseTags(s[k + 1..])
  }

  /** Reading left to right from depth `d`, every closing tag has an opening one and nothing stays open. */
  predicate Nested(s: string, d: nat)
    decreases |s|
  {
    if s == [] then d == 0
    else if s[0] != '<' then Nested(s[1..], d)
    else
      var k := IndexOf(s, '>');
      && k >= 1
      && (if s[1] == '/' then d > 0 && Nested(s[k + 1..], d - 1) else Nested(s[k + 1..], d + 1))
  }

  ghost predicate IsCloseTag(tag: string) {
    IsTag(tag) && tag[1] == '/'
  }

  ghost predicate IsOpenTag(tag: string) {
    IsTag(tag) && tag[1] != '/'
  }

  lemma TagSteps(tag: string, rest: string, d: nat)
    requires IsTag(tag)
    ensures EraseTags(tag + rest) == EraseTags(rest)
    ensures IsCloseTag(tag) && d > 0 ==> Nested(tag + rest, d) == Nested(rest, d - 1)
    ensures IsOpenTag(tag) ==> Nested(tag + rest, d) == Nested(rest, d + 1)
  {
    var s, k := tag + rest, |tag| - 1;
    assert s[..k] == tag[..k];
    FirstPosition(s, '>', k);
    assert s[k + 1..] == rest;
  }

  /** `n` copies of `tag` put in front of `rest`, one by one. */
  function Before(tag: string, n: nat, rest: string): string {
    if n == 0 then rest else tag + Before(tag, n - 1, rest)
  }

  lemma {:induction false} RepeatIsBefore(tag: string, n: nat, rest: string)
    ensures Repeat(tag, n) + rest == Before(tag, n, rest)
  {
    if n > 0 {
      RepeatIsBefore(tag, n - 1, rest);
      AppendAssociative(tag, Repeat(tag, n - 1), rest);
    }
  }

  lemma {:induction false} BeforeSteps(tag: string, n: nat, rest: string, d: nat)
    requires IsCloseTag(tag) && n <= d
    ensures EraseTags(Before(tag, n, rest)) == EraseTags(rest)
    ensures Nested(Before(tag, n, rest), d) == Nested(rest, d - n)
    decreases n
  {
    if n > 0 {
      TagSteps(tag, Before(tag, n - 1, rest), d);
      BeforeSteps(tag, n - 1, rest, d - 1);
    }
  }

  lemma ClosesSteps(n: nat, rest: string, d: nat)
    requires n <= d
    ensures EraseTags(Repeat(CLOSE_TAG, n) + rest) == EraseTags(rest)
    ensures Nested(Repeat(CLOSE_TAG, n) + rest, d) == Nested(rest, d - n)
  {
    var tag := CLOSE_TAG;
    assert IsCloseTag(tag);
    RepeatIsBefore(tag, n, rest);
    BeforeSteps(tag, n, rest, d);
  }

  lemma NamesHaveNoAngle(code: int)
    ensures Class(code).Some? ==> '>' !in Class(code).value
    ensures Color(code).Some? ==> '>' !in Color(code).value
  {
  }

  lemma SpanIsOpenTag(start: string, name: string)
    requires |start| >= 2 && start[0] == '<' && start[1] != '/' && '>' !in start && '>' !in name
    ensures IsOpenTag(start + name + "\">")
  {
    var tag := start + name + "\">";
    assert tag[..|tag| - 1] == start + name + "\"";
  }

  lemma OpenTagIsTag(code: int)
    ensures OpenTag(code).Some? ==> IsOpenTag(OpenTag(code).value)
  {
    NamesHaveNoAngle(code);
    if Class(code).Some? {
      SpanIsOpenTag("<span class=\"", Class(code).value);
    } else if Color(code).Some? {
      SpanIsOpenTag("<span style=\"color:", Color(code).value);
    }
  }

  lemma CodeSteps(cs: string, rest: string, open: nat)
    ensures var p := CodeStep(cs, open);
            EraseTags(p.html + rest) == EraseTags(rest) && Nested(p.html + rest, open) == Nested(rest, p.open)
  {
    var a := Atoi(cs);
    if a.None? || a.value == 0 {
      ClosesSteps(open, rest, open);
    } else if OpenTag(a.value).Some? {
      OpenTagIsTag(a.value);
      TagSteps(OpenTag(a.value).value, rest, open);
    } else {
      assert "" + rest == rest;
    }
  }

  lemma {:induction false} CodesSteps(codes: seq<string>, rest: string, open: nat)
    ensures var p := CodesStep(codes, open);
            EraseTags(p.html + rest) == EraseTags(rest) && Nested(p.html + rest, open) == Nested(rest, p.open)
    decreases |codes|
  {
    if codes == [] {
      assert "" + rest == rest;
    } else {
      var p := CodeStep(codes[0], open);
      var q := CodesStep(codes[1..], p.open);
      AppendAssociative(p.html, q.html, rest);
      CodeSteps(codes[0], q.html + rest, open);
      CodesSteps(codes[1..], rest, p.open);
    }
  }

  // ----- The two output laws. -----

  lemma {:induction false} RenderLaws(s: string, open: nat)
    requires '<' !in s
    ensures EraseTags(Render(s, open)) == StripAnsi(s)
    ensures Nested(Render(s, open), open)
    decreases |s|
  {
    if s == [] {
      ClosesSteps(open, "", open);
      assert Repeat(CLOSE_TAG, open) + "" == Repeat(CLOSE_TAG, open);
    } else if MatchLen(s) > 0 {
      var n := MatchLen(s);
      var p := CodesStep(Split(s[2..n - 1], ';'), open);
      CodesSteps(Split(s[2..n - 1], ';'), Render(s[n..], p.open), open);
      RenderLaws(s[n..], p.open);
    } else {
      RenderChar(s, open);
      var r := [s[0]] + Render(s[1..], open);
      assert r[1..] == Render(s[1..], open);
      RenderLaws(s[1..], open);
    }
  }

  lemma {:induction false} EscapedHasNoAngle(t: string)
    ensures '<' !in Escape(t)
  {
    if t != [] { EscapedHasNoAngle(t[1..]); }
  }

  // ----- Escaping commutes with stripping. -----

  lemma {:induction false} EscapeRun(t: string)
    ensures var k := RunLen(t);
            && RunLen(Escape(t)) == k
            && Escape(t) == t[..k] + Escape(t[k..])
  {
    if t != [] && IsParam(t[0]) {
      var c, u := t[0], t[1..];
      EscapeRun(u);
      RunCons(c, Escape(u));
      assert Escape(t) == [c] + Escape(u);
      assert t[..RunLen(t)] == [c] + u[..RunLen(u)] && t[RunLen(t)..] == u[RunLen(u)..];
      AppendAssociative([c], u[..RunLen(u)], Escape(u[RunLen(u)..]));
    } else {
      assert t[..0] + Escape(t[0..]) == Escape(t);
    }
  }

  lemma RunCons(c: char, s: string)
    requires IsParam(c)
    ensures RunLen([c] + s) == 1 + RunLen(s)
  {
    assert ([c] + s)[1..] == s;
  }

  lemma BodySurvivesEscaping(u: string)
    ensures BodyLen(Escape(u)) == BodyLen(u)
    ensures Escape(u) == u[..BodyLen(u)] + Escape(u[BodyLen(u)..])
  {
    var k := RunLen(u);
    EscapeRun(u);
    if k < |u| {
      var v := u[k..];
      assert Escape(u)[k] == EscapeChar(v[0])[0];
      if u[k] == 'm' {
        assert Escape(v) == ['m'] + Escape(v[1..]);
        assert v[1..] == u[k + 1..] && u[..k + 1] == u[..k] + ['m'];
        AppendAssociative(u[..k], ['m'], Escape(v[1..]));
      }
    }
  }

  lemma EscapeTwo(t: string)
    requires |t| >= 2 && t[0] == ESC
    ensures Escape(t) == [ESC] + (EscapeChar(t[1]) + Escape(t[2..]))
  {
    assert t[1..][1..] == t[2..];
  }

  lemma NoMatchSurvives(t: string)
    requires |t| < 2 || t[0] != ESC || t[1] != '['
    ensures MatchLen(Escape(t)) == 0
  {
    if t != [] {
      var e := EscapeChar(t[0]) + Escape(t[1..]);
      assert e[0] == EscapeChar(t[0])[0];
      if t[0] == ESC {
        if |t| == 1 {
          assert e == [ESC];
        } else {
          EscapeTwo(t);
          assert e[1] == EscapeChar(t[1])[0];
        }
      }
    }
  }

  lemma EscapeBracket(u: string)
    ensures Escape([ESC, '['] + u) == [ESC, '['] + Escape(u)
  {
    EscapeTwo([ESC, '['] + u);
    assert ([ESC, '['] + u)[2..] == u;
    assert EscapeChar('[') == ['['];
    AppendAssociative([ESC], ['['], Escape(u));
  }

  lemma MatchAfterBracket(v: string)
    ensures MatchLen([ESC, '['] + v) == if BodyLen(v) == 0 then 0 else 2 + BodyLen(v)
  {
    assert ([ESC, '['] + v)[2..] == v;
  }

  lemma MatchSurvives(u: string)
    ensures var t := [ESC, '['] + u;
            && MatchLen(Escape(t)) == MatchLen(t)
            && (MatchLen(t) > 0 ==> Escape(t) == t[..MatchLen(t)] + Escape(t[MatchLen(t)..]))
  {
    var t, n := [ESC, '['] + u, BodyLen(u);
    EscapeBracket(u);
    BodySurvivesEscaping(u);
    MatchAfterBracket(u);
    MatchAfterBracket(Escape(u));
    if n > 0 {
      assert t[..2 + n] == [ESC, '['] + u[..n] && t[2 + n..] == u[n..];
      AppendAssociative([ESC, '['], u[..n], Escape(u[n..]));
    }
  }

  /** Escaping neither makes nor breaks a match at the start of the text. */
  lemma MatchSurvivesEscaping(t: string)
    ensures MatchLen(Escape(t)) == MatchLen(t)
    ensures MatchLen(t) > 0 ==> Escape(t) == t[..MatchLen(t)] + Escape(t[MatchLen(t)..])
  {
    if |t| < 2 || t[0] != ESC || t[1] != '[' {
      NoMatchSurvives(t);
    } else {
      assert t == [ESC, '['] + t[2..];
      MatchSurvives(t[2..]);
    }
  }

  lemma {:induction false} StripPlain(a: string, b: string)
    requires ESC !in a
    ensures StripAnsi(a + b) == a + StripAnsi(b)
  {
    if a == [] {
      assert a + b == b;
    } else {
      assert (a + b)[1..] == a[1..] + b;
      StripPlain(a[1..], b);
      assert StripAnsi(a + b) == [a[0]] + StripAnsi(a[1..] + b);
      AppendAssociative([a[0]], a[1..], StripAnsi(b));
    }
  }

  lemma {:induction false} EscapeCommutesWithStrip(t: string)
    ensures StripAnsi(Escape(t)) == Escape(StripAnsi(t))
    decreases |t|
  {
    if t != [] {
      var n := MatchLen(t);
      MatchSurvivesEscaping(t);
      if n > 0 {
        EscapeCommutesWithStrip(t[n..]);
        assert Escape(t)[n..] == Escape(t[n..]);
      } else {
        var e := EscapeChar(t[0]);
        EscapeCommutesWithStrip(t[1..]);
        assert StripAnsi(t) == [t[0]] + StripAnsi(t[1..]);
        assert ([t[0]] + StripAnsi(t[1..]))[1..] == StripAnsi(t[1..]);
        if t[0] == ESC {
          assert e == [ESC] && Escape(t)[1..] == Escape(t[1..]);
        } else {
          assert e == [e[0]] + e[1..];
          StripPlain(e, Escape(t[1..]));
        }
      }
    }
  }

  /** For every text: the spans of the output are well nested, and erasing them leaves exactly the text with its
      ANSI sequences removed, escaped. */
  lemma OutputLaws(text: string)
    ensures var html := Render(Escape(text), 0);
            && Nested(html, 0)
            && EraseTags(html) == StripAnsi(Escape(text)) == Escape(StripAnsi(text))
  {
    EscapedHasNoAngle(text);
    RenderLaws(Escape(text), 0);
    EscapeCommutesWithStrip(text);
  }
}
