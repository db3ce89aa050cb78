/** The line framing shared by the four streaming parsers.

    Each parser appends a body chunk to a buffer, cuts the complete lines off the front and hands them to
    its own line handler.  They differ in when they stop: `stop` ends the loop over buffered lines, `closed`
    makes later feeds do nothing.  The OpenAI parsers use one condition for both; the Anthropic parsers keep
    consuming buffered lines after `message_stop`, so there `closed` is weaker than `stop`. */
module SseFraming {
  import opened ByteText

  datatype Machine<!S> = Machine(step: (S, Bytes) -> S, stop: S -> bool, closed: S -> bool)

  datatype Framed<S> = Framed(buf: Bytes, st: S)

  /** `parseEvents`: handle complete lines until none is left or the machine stops. */
  function Drain<S>(m: Machine<S>, f: Framed<S>): Framed<S>
    decreases |f.buf|
  {
    var k := IndexOf(f.buf, '\n');
    if k < 0 then f
    else
      var next := Framed(f.buf[k + 1..], m.step(f.st, f.buf[..k]));
      if m.stop(next.st) then next else Drain(m, next)
  }

  /** `feed`. */
  function Feed<S>(m: Machine<S>, f: Framed<S>, data: Bytes): Framed<S> {
    if m.closed(f.st) then f else Drain(m, Framed(f.buf + data, f.st))
  }

  function FeedAll<S>(m: Machine<S>, f: Framed<S>, chunks: seq<Bytes>): Framed<S>
    decreases |chunks|
  {
    if chunks == [] then f else FeedAll(m, Feed(m, f, chunks[0]), chunks[1..])
  }

  // ----- The simple reading of a stream: split it into lines, ignore the unterminated tail, fold. -----

  function Lines(s: Bytes): seq<Bytes> {
    var k := IndexOf(s, '\n');
    if k < 0 then [] else [s[..k]] + Lines(s[k + 1..])
  }

  function Rest(s: Bytes): Bytes {
    var k := IndexOf(s, '\n');
    if k < 0 then s else Rest(s[k + 1..])
  }

  function Fold<S>(m: Machine<S>, st: S, lines: seq<Bytes>): S {
    if lines == [] then st
    else
      var next := m.step(st, lines[0]);
      if m.stop(next) then next else Fold(m, next, lines[1..])
  }

  lemma IndexOfAppend(a: Bytes, b: Bytes, c: char)
    ensures IndexOf(a, c) >= 0 ==> IndexOf(a + b, c) == IndexOf(a, c)
  {
    var k := IndexOf(a, c);
    if k >= 0 {
      assert (a + b)[..k] == a[..k];
      FirstPosition(a + b, c, k);
    }
  }

  lemma {:induction false} RestHasNoNewline(s: Bytes)
    ensures '\n' !in Rest(s)
    decreases |s|
  {
    var k := IndexOf(s, '\n');
    if k >= 0 { RestHasNoNewline(s[k + 1..]); }
  }

  lemma LinesCons(line: Bytes, rest: Bytes)
    requires '\n' !in line
    ensures Lines(line + "\n" + rest) == [line] + Lines(rest)
    ensures Rest(line + "\n" + rest) == Rest(rest)
  {
    var s := line + "\n" + rest;
    assert s[..|line|] == line && s[|line| + 1..] == rest;
    FirstPosition(s, '\n', |line|);
  }

  /** Lines put back together, each with its terminator. */
  function Unlines(lines: seq<Bytes>): Bytes {
    if lines == [] then [] else lines[0] + "\n" + Unlines(lines[1..])
  }

  lemma {:induction false} LinesOfUnlines(lines: seq<Bytes>)
    requires forall k :: 0 <= k < |lines| ==> '\n' !in lines[k]
    ensures Lines(Unlines(lines)) == lines && Rest(Unlines(lines)) == []
  {
    if lines != [] {
      LinesOfUnlines(lines[1..]);
      LinesCons(lines[0], Unlines(lines[1..]));
    }
  }

  lemma {:induction false} LinesAppend(a: Bytes, b: Bytes)
    ensures Lines(a + b) == Lines(a) + Lines(Rest(a) + b)
    ensures Rest(a + b) == Rest(Rest(a) + b)
    decreases |a|
  {
    var k := IndexOf(a, '\n');
    if k >= 0 {
      IndexOfAppend(a, b, '\n');
      assert (a + b)[k + 1..] == a[k + 1..] + b;
      assert (a + b)[..k] == a[..k];
      LinesAppend(a[k + 1..], b);
    }
  }

  lemma {:induction false} DrainIsFold<S>(m: Machine<S>, f: Framed<S>)
    ensures Drain(m, f).st == Fold(m, f.st, Lines(f.buf))
    ensures Drain(m, f).buf == Rest(f.buf) || m.stop(Drain(m, f).st)
    decreases |f.buf|
  {
    var k := IndexOf(f.buf, '\n');
    if k >= 0 {
      var next := Framed(f.buf[k + 1..], m.step(f.st, f.buf[..k]));
      if !m.stop(next.st) { DrainIsFold(m, next); }
    }
  }

  lemma {:induction false} FoldAppend<S>(m: Machine<S>, st: S, xs: seq<Bytes>, ys: seq<Bytes>)
    requires !m.stop(st)
    ensures Fold(m, st, xs + ys) ==
            if m.stop(Fold(m, st, xs)) then Fold(m, st, xs) else Fold(m, Fold(m, st, xs), ys)
    decreases |xs|
  {
    if xs == [] {
      assert xs + ys == ys;
    } else {
      assert (xs + ys)[1..] == xs[1..] + ys;
      var next := m.step(st, xs[0]);
      if !m.stop(next) { FoldAppend(m, next, xs[1..], ys); }
    }
  }

  lemma {:induction false} FeedAllClosed<S>(m: Machine<S>, f: Framed<S>, chunks: seq<Bytes>)
    requires m.closed(f.st)
    ensures FeedAll(m, f, chunks) == f
    decreases |chunks|
  {
    if chunks != [] { FeedAllClosed(m, f, chunks[1..]); }
  }

  // ----- One condition: the result never depends on how the stream is cut. -----

  /** A machine whose loop and whose later feeds stop on the same condition. */
  ghost predicate OneStop<S(!new)>(m: Machine<S>) {
    forall s: S :: m.stop(s) == m.closed(s)
  }

  /** One feed, and what it leaves for the next. */
  lemma FeedStep<S>(m: Machine<S>, f: Framed<S>, data: Bytes)
    requires !m.closed(f.st)
    ensures Feed(m, f, data).st == Fold(m, f.st, Lines(f.buf + data))
    ensures m.stop(Feed(m, f, data).st)
            || (Feed(m, f, data).buf == Rest(f.buf + data) && '\n' !in Feed(m, f, data).buf)
  {
    DrainIsFold(m, Framed(f.buf + data, f.st));
    RestHasNoNewline(f.buf + data);
  }

  lemma LinesOfChunks(buf: Bytes, chunks: seq<Bytes>)
    requires chunks != []
    ensures Lines(buf + Flatten(chunks))
         == Lines(buf + chunks[0]) + Lines(Rest(buf + chunks[0]) + Flatten(chunks[1..]))
  {
    assert buf + Flatten(chunks) == (buf + chunks[0]) + Flatten(chunks[1..]);
    LinesAppend(buf + chunks[0], Flatten(chunks[1..]));
  }

  lemma RestOfChunks(buf: Bytes, chunks: seq<Bytes>)
    requires chunks != []
    ensures Rest(buf + Flatten(chunks)) == Rest(Rest(buf + chunks[0]) + Flatten(chunks[1..]))
  {
    assert buf + Flatten(chunks) == (buf + chunks[0]) + Flatten(chunks[1..]);
    LinesAppend(buf + chunks[0], Flatten(chunks[1..]));
  }

  lemma NoLines(buf: Bytes, chunks: seq<Bytes>)
    requires chunks == [] && '\n' !in buf
    ensures Lines(buf + Flatten(chunks)) == []
  {
    assert buf + Flatten(chunks) == buf;
  }

  /** However the network cuts the stream, the state is the fold over the stream's complete lines, and until the
      machine stops the buffer is the unterminated rest. */
  lemma {:induction false} ChunkingIndependent<S(!new)>(m: Machine<S>, f: Framed<S>, chunks: seq<Bytes>)
    requires OneStop(m) && !m.closed(f.st) && '\n' !in f.buf
    ensures FeedAll(m, f, chunks).st == Fold(m, f.st, Lines(f.buf + Flatten(chunks)))
    ensures m.stop(FeedAll(m, f, chunks).st) || FeedAll(m, f, chunks).buf == Rest(f.buf + Flatten(chunks))
    decreases |chunks|
  {
    if chunks == [] {
      NoLines(f.buf, chunks);
      assert f.buf + Flatten(chunks) == f.buf;
    } else {
      var g := Feed(m, f, chunks[0]);
      FeedStep(m, f, chunks[0]);
      LinesOfChunks(f.buf, chunks);
      FoldAppend(m, f.st, Lines(f.buf + chunks[0]), Lines(Rest(f.buf + chunks[0]) + Flatten(chunks[1..])));
      if m.stop(g.st) {
        FeedAllClosed(m, g, chunks[1..]);
      } else {
        RestOfChunks(f.buf, chunks);
        ChunkingIndependent(m, g, chunks[1..]);
      }
    }
  }

  // ----- Two conditions: exactly when the result does not depend on the cuts. -----

  /** `closed` holds at every stop and, once it holds, keeps holding. */
  ghost predicate TwoStops<S(!new)>(m: Machine<S>) {
    && (forall s: S :: m.stop(s) ==> m.closed(s))
    && (forall s: S, line: Bytes :: m.closed(s) ==> m.closed(m.step(s, line)))
  }

  /** The number of lines consumed up to and including the one that closes the machine. */
  function Cut<S>(m: Machine<S>, st: S, lines: seq<Bytes>): (n: nat)
    ensures n <= |lines|
  {
    if lines == [] then 0
    else
      var next := m.step(st, lines[0]);
      if m.closed(next) then 1 else 1 + Cut(m, next, lines[1..])
  }

  /** What a reader expects: nothing counts after the closing line. */
  function Ideal<S>(m: Machine<S>, st: S, lines: seq<Bytes>): S {
    Fold(m.(stop := m.closed), st, lines)
  }

  lemma {:induction false} IdealIsFoldToCut<S(!new)>(m: Machine<S>, st: S, lines: seq<Bytes>)
    requires TwoStops(m)
    ensures Ideal(m, st, lines) == Fold(m, st, lines[..Cut(m, st, lines)])
    ensures Cut(m, st, lines) == |lines| || m.closed(Ideal(m, st, lines))
    decreases |lines|
  {
    if lines != [] {
      var next := m.step(st, lines[0]);
      var n := Cut(m, st, lines);
      assert lines[..n][0] == lines[0];
      assert lines[..n][1..] == lines[1..][..n - 1];
      if !m.closed(next) { IdealIsFoldToCut(m, next, lines[1..]); }
    }
  }

  lemma {:induction false} ClosedStaysClosed<S(!new)>(m: Machine<S>, st: S, lines: seq<Bytes>)
    requires TwoStops(m) && m.closed(st)
    ensures m.closed(Fold(m, st, lines))
    decreases |lines|
  {
    if lines != [] && !m.stop(m.step(st, lines[0])) {
      ClosedStaysClosed(m, m.step(st, lines[0]), lines[1..]);
    }
  }

  /** Past the cut the machine is closed; before it, it is not. */
  lemma {:induction false} ClosedFromCutOn<S(!new)>(m: Machine<S>, st: S, lines: seq<Bytes>, n: nat)
    requires TwoStops(m) && !m.closed(st) && n <= |lines|
    ensures n < Cut(m, st, lines) ==> !m.closed(Fold(m, st, lines[..n]))
    ensures Cut(m, st, lines) <= n && m.closed(Ideal(m, st, lines)) ==> m.closed(Fold(m, st, lines[..n]))
    decreases |lines|
  {
    if lines != [] && n > 0 {
      var next := m.step(st, lines[0]);
      assert lines[..n][0] == lines[0];
      assert lines[..n][1..] == lines[1..][..n - 1];
      if m.closed(next) {
        if !m.stop(next) { ClosedStaysClosed(m, next, lines[1..][..n - 1]); }
      } else {
        ClosedFromCutOn(m, next, lines[1..], n - 1);
      }
    }
  }

  /** Every cutting of the stream ends on some line at or after the closing one. */
  lemma {:induction false} EveryCuttingEndsPastCut<S(!new)>(m: Machine<S>, f: Framed<S>, chunks: seq<Bytes>)
    returns (n: nat)
    requires TwoStops(m) && !m.closed(f.st) && '\n' !in f.buf
    ensures n <= |Lines(f.buf + Flatten(chunks))|
    ensures Cut(m, f.st, Lines(f.buf + Flatten(chunks))) <= n
    ensures FeedAll(m, f, chunks).st == Fold(m, f.st, Lines(f.buf + Flatten(chunks))[..n])
    decreases |chunks|
  {
    if chunks == [] {
      NoLines(f.buf, chunks);
      n := 0;
    } else {
      var g := Feed(m, f, chunks[0]);
      FeedStep(m, f, chunks[0]);
      LinesOfChunks(f.buf, chunks);
      var xs, ys := Lines(f.buf + chunks[0]), Lines(Rest(f.buf + chunks[0]) + Flatten(chunks[1..]));
      if m.closed(g.st) {
        FeedAllClosed(m, g, chunks[1..]);
        n := |xs|;
        assert (xs + ys)[..n] == xs;
        ClosedFromCutOn(m, f.st, xs + ys, n);
      } else {
        var j := EveryCuttingEndsPastCut(m, g, chunks[1..]);
        n := |xs| + j;
        assert (xs + ys)[..n] == xs + ys[..j];
        FoldAppend(m, f.st, xs, ys[..j]);
        CutAppend(m, f.st, xs, ys);
      }
    }
  }

  lemma {:induction false} CutAppend<S(!new)>(m: Machine<S>, st: S, xs: seq<Bytes>, ys: seq<Bytes>)
    requires TwoStops(m) && !m.closed(Fold(m, st, xs))
    ensures Cut(m, st, xs + ys) == |xs| + Cut(m, Fold(m, st, xs), ys)
    decreases |xs|
  {
    if xs == [] {
      assert xs + ys == ys;
    } else {
      assert (xs + ys)[1..] == xs[1..] + ys;
      var next := m.step(st, xs[0]);
      if m.closed(next) {
        if !m.stop(next) { ClosedStaysClosed(m, next, xs[1..]); }
        assert false;
      }
      CutAppend(m, next, xs[1..], ys);
    }
  }

  /** The first `n` lines with their terminators are a prefix of the stream. */
  lemma {:induction false} PrefixOfLines(s: Bytes, n: nat) returns (p: nat)
    requires n <= |Lines(s)|
    ensures p <= |s| && Lines(s[..p]) == Lines(s)[..n] && Rest(s[..p]) == []
    decreases n
  {
    if n == 0 {
      p := 0;
    } else {
      var k := IndexOf(s, '\n');
      var line, rest := s[..k], s[k + 1..];
      assert s == line + "\n" + rest;
      LinesCons(line, rest);
      var q := PrefixOfLines(rest, n - 1);
      LinesCons(line, rest[..q]);
      p := k + 1 + q;
      assert s[..p] == line + "\n" + rest[..q];
      assert ([line] + Lines(rest))[..n] == [line] + Lines(rest)[..n - 1];
    }
  }

  lemma FlattenTwo(a: Bytes, b: Bytes)
    ensures Flatten([a, b]) == a + b
  {
    assert [a, b][1..] == [b];
    assert Flatten([b]) == b + Flatten([b][1..]);
  }

  lemma FeedTwo<S>(m: Machine<S>, f: Framed<S>, a: Bytes, b: Bytes)
    ensures FeedAll(m, f, [a, b]) == Feed(m, Feed(m, f, a), b)
  {
    assert [a, b][1..] == [b];
    assert FeedAll(m, Feed(m, f, a), [b]) == FeedAll(m, Feed(m, Feed(m, f, a), b), [b][1..]);
  }

  /** Any line from the closing one on is where some cutting ends: put the boundary right after it. */
  lemma SomeCuttingEndsAt<S(!new)>(m: Machine<S>, st: S, s: Bytes, n: nat) returns (chunks: seq<Bytes>)
    requires TwoStops(m) && !m.closed(st) && Cut(m, st, Lines(s)) <= n <= |Lines(s)|
    ensures Flatten(chunks) == s
    ensures FeedAll(m, Framed([], st), chunks).st == Fold(m, st, Lines(s)[..n])
  {
    var p := PrefixOfLines(s, n);
    var lines := Lines(s);
    var a, b := s[..p], s[p..];
    chunks := [a, b];
    FlattenTwo(a, b);
    assert a + b == s;
    FeedTwo(m, Framed([], st), a, b);
    var g := Feed(m, Framed([], st), a);
    assert [] + a == a;
    FeedStep(m, Framed([], st), a);
    IdealIsFoldToCut(m, st, lines);
    ClosedFromCutOn(m, st, lines, n);
    if !m.closed(g.st) {
      LinesAppend(a, b);
      assert [] + b == b;
      assert g.buf == [] && n == |lines| && Lines(b) == [];
      FeedStep(m, g, b);
    }
  }

  /** `obs` shows the same of the final state for every cutting of `s`. */
  ghost predicate SameForEveryCutting<S(!new), R(!new)>(m: Machine<S>, st: S, s: Bytes, obs: S -> R) {
    forall chunks: seq<Bytes> | Flatten(chunks) == s ::
      obs(FeedAll(m, Framed([], st), chunks).st) == obs(Ideal(m, st, Lines(s)))
  }

  /** None of the lines after the closing one changes what `obs` shows. */
  ghost predicate QuietAfterClose<S(!new), R(!new)>(m: Machine<S>, st: S, lines: seq<Bytes>, obs: S -> R) {
    forall n: nat | Cut(m, st, lines) <= n <= |lines| ::
      obs(Fold(m, st, lines[..n])) == obs(Ideal(m, st, lines))
  }

  /** The exact condition, stream by stream. */
  lemma ChunkingIndependentIff<S(!new), R(!new)>(m: Machine<S>, st: S, s: Bytes, obs: S -> R)
    requires TwoStops(m) && !m.closed(st)
    ensures SameForEveryCutting(m, st, s, obs) <==> QuietAfterClose(m, st, Lines(s), obs)
  {
    var lines := Lines(s);
    if QuietAfterClose(m, st, lines, obs) {
      forall chunks: seq<Bytes> | Flatten(chunks) == s
        ensures obs(FeedAll(m, Framed([], st), chunks).st) == obs(Ideal(m, st, lines))
      {
        assert [] + Flatten(chunks) == s;
        var n := EveryCuttingEndsPastCut(m, Framed([], st), chunks);
      }
    }
    if SameForEveryCutting(m, st, s, obs) {
      forall n: nat | Cut(m, st, lines) <= n <= |lines|
        ensures obs(Fold(m, st, lines[..n])) == obs(Ideal(m, st, lines))
      {
        var chunks := SomeCuttingEndsAt(m, st, s, n);
      }
    }
  }

  /** Past the cut, the fold goes on from the ideal result. */
  lemma FoldPastCut<S(!new)>(m: Machine<S>, st: S, lines: seq<Bytes>, n: nat)
    requires TwoStops(m) && !m.closed(st) && Cut(m, st, lines) <= n <= |lines|
    ensures var r := Ideal(m, st, lines);
            Fold(m, st, lines[..n]) == if m.stop(r) then r else Fold(m, r, lines[Cut(m, st, lines)..n])
  {
    var c := Cut(m, st, lines);
    IdealIsFoldToCut(m, st, lines);
    assert lines[..n] == lines[..c] + lines[c..n];
    FoldAppend(m, st, lines[..c], lines[c..n]);
  }

  /** It is enough to look at what the remaining lines do to the ideal result. */
  lemma QuietIfTailIsQuiet<S(!new), R(!new)>(m: Machine<S>, st: S, lines: seq<Bytes>, obs: S -> R)
    requires TwoStops(m) && !m.closed(st)
    requires var c, r := Cut(m, st, lines), Ideal(m, st, lines);
             m.closed(r) && !m.stop(r) ==> forall n: nat :: c <= n <= |lines| ==> obs(Fold(m, r, lines[c..n])) == obs(r)
    ensures QuietAfterClose(m, st, lines, obs)
  {
    var c, r := Cut(m, st, lines), Ideal(m, st, lines);
    IdealIsFoldToCut(m, st, lines);
    forall n: nat | c <= n <= |lines|
      ensures obs(Fold(m, st, lines[..n])) == obs(r)
    {
      FoldPastCut(m, st, lines, n);
      if !m.closed(r) { assert lines[c..n] == []; }
    }
  }

  // ----- A sufficient condition that can be read off the lines. -----

  /** No line after the closing one announces anything. */
  ghost predicate SilentAfterClose<S>(m: Machine<S>, st: S, lines: seq<Bytes>, announces: Bytes -> bool) {
    forall k :: Cut(m, st, lines) <= k < |lines| ==> !announces(lines[k])
  }

  /** In a calm state, a line that announces nothing leaves the state calm and shows nothing. */
  ghost predicate Harmless<S(!new), R(!new)>(m: Machine<S>, obs: S -> R, calm: S -> bool, announces: Bytes -> bool) {
    forall s: S, line: Bytes :: calm(s) && !announces(line) ==>
      calm(m.step(s, line)) && obs(m.step(s, line)) == obs(s)
  }

  /** The line that closes the machine without stopping it leaves it calm. */
  ghost predicate ClosesCalm<S(!new)>(m: Machine<S>, calm: S -> bool) {
    forall s: S, line: Bytes :: !m.closed(s) && m.closed(m.step(s, line)) && !m.stop(m.step(s, line)) ==>
      calm(m.step(s, line))
  }

  lemma {:induction false} CalmTail<S(!new), R(!new)>(m: Machine<S>, st: S, lines: seq<Bytes>, obs: S -> R,
                                                      calm: S -> bool, announces: Bytes -> bool)
    requires Harmless(m, obs, calm, announces) && calm(st)
    requires forall k :: 0 <= k < |lines| ==> !announces(lines[k])
    ensures obs(Fold(m, st, lines)) == obs(st)
    decreases |lines|
  {
    if lines != [] && !m.stop(m.step(st, lines[0])) {
      CalmTail(m, m.step(st, lines[0]), lines[1..], obs, calm, announces);
    }
  }

  lemma {:induction false} CalmAtCut<S(!new)>(m: Machine<S>, st: S, lines: seq<Bytes>, calm: S -> bool)
    requires ClosesCalm(m, calm) && !m.closed(st)
    ensures var r := Ideal(m, st, lines); m.closed(r) && !m.stop(r) ==> calm(r)
    decreases |lines|
  {
    if lines != [] && !m.closed(m.step(st, lines[0])) { CalmAtCut(m, m.step(st, lines[0]), lines[1..], calm); }
  }

  /** Silence after the closing line is quiet. */
  lemma SilentIsQuiet<S(!new), R(!new)>(m: Machine<S>, st: S, lines: seq<Bytes>, obs: S -> R, calm: S -> bool,
                                        announces: Bytes -> bool)
    requires TwoStops(m) && !m.closed(st) && Harmless(m, obs, calm, announces) && ClosesCalm(m, calm)
    requires SilentAfterClose(m, st, lines, announces)
    ensures QuietAfterClose(m, st, lines, obs)
  {
    var c, r := Cut(m, st, lines), Ideal(m, st, lines);
    CalmAtCut(m, st, lines, calm);
    if m.closed(r) && !m.stop(r) {
      forall n: nat | c <= n <= |lines|
        ensures obs(Fold(m, r, lines[c..n])) == obs(r)
      {
        CalmTail(m, r, lines[c..n], obs, calm, announces);
      }
    }
    QuietIfTailIsQuiet(m, st, lines, obs);
  }
}
