/** `boe logs --tail n`: the last lines of a file, found by scanning backwards in fixed-size chunks. */
module TailLogs {
  import opened ByteText

  // ----- The simple reading: cut the file into lines and keep the last ones. -----

  /** The lines of `s`, each with its newline; the last line may lack one. */
  function LinesOf(s: Bytes): seq<Bytes>
    decreases |s|
  {
    if s == [] then []
    else
      var k := IndexOf(s, '\n');
      if k < 0 then [s] else [s[..k + 1]] + LinesOf(s[k + 1..])
  }

  function LastLines(s: Bytes, n: nat): Bytes {
    var lines := LinesOf(s);
    Flatten(lines[FirstKept(|lines|, n)..])
  }

  lemma {:induction false} LinesJoin(s: Bytes)
    ensures Flatten(LinesOf(s)) == s
    decreases |s|
  {
    if s != [] {
      var k := IndexOf(s, '\n');
      if k < 0 {
        assert Flatten([s]) == s + Flatten([s][1..]);
      } else {
        LinesJoin(s[k + 1..]);
        assert s == s[..k + 1] + s[k + 1..];
      }
    }
  }

  lemma FirstLine(line: Bytes, rest: Bytes)
    requires '\n' !in line
    ensures LinesOf(line + ['\n'] + rest) == [line + ['\n']] + LinesOf(rest)
  {
    var s, k := line + ['\n'] + rest, |line|;
    assert s[..k] == line;
    FirstPosition(s, '\n', k);
    assert s[..k + 1] == line + ['\n'] && s[k + 1..] == rest;
  }

  lemma {:induction false} LinesSplit(a: Bytes, b: Bytes)
    requires a == [] || a[|a| - 1] == '\n'
    ensures LinesOf(a + b) == LinesOf(a) + LinesOf(b)
    decreases |a|
  {
    if a == [] {
      assert a + b == b;
    } else {
      var k := IndexOf(a, '\n');
      assert k >= 0;
      var line, rest := a[..k], a[k + 1..];
      assert a == line + ['\n'] + rest && a + b == line + ['\n'] + (rest + b);
      FirstLine(line, rest);
      FirstLine(line, rest + b);
      LinesSplit(rest, b);
      AppendAssociative([line + ['\n']], LinesOf(rest), LinesOf(b));
    }
  }

  lemma DropCons<T>(h: T, t: seq<T>, j: nat)
    requires 0 < j <= |t| + 1
    ensures ([h] + t)[j..] == t[j - 1..]
  {
  }

  /** The lines from the `j`-th on are the lines of a suffix. */
  lemma {:induction false} TailLines(s: Bytes, j: nat) returns (p: nat)
    requires j <= |LinesOf(s)|
    ensures p <= |s| && LinesOf(s)[j..] == LinesOf(s[p..])
    decreases j
  {
    var k := IndexOf(s, '\n');
    if j == 0 {
      p := 0;
      assert s[0..] == s;
    } else if k < 0 {
      p := |s|;
      assert s[p..] == [];
    } else {
      var rest := s[k + 1..];
      var q := TailLines(rest, j - 1);
      p := k + 1 + q;
      assert rest[q..] == s[p..];
      DropCons(s[..k + 1], LinesOf(rest), j);
    }
  }

  function FirstKept(total: nat, n: nat): nat {
    if n < total then total - n else 0
  }

  lemma LastIsSuffix(s: Bytes, n: nat) returns (p: nat)
    ensures p <= |s| && LastLines(s, n) == s[p..]
    ensures LinesOf(s[p..]) == LinesOf(s)[FirstKept(|LinesOf(s)|, n)..]
  {
    p := TailLines(s, FirstKept(|LinesOf(s)|, n));
    LinesJoin(s[p..]);
  }

  /** `tail` is the last `n` of the lines, or all of them. */
  ghost predicate AreLast(lines: seq<Bytes>, tail: seq<Bytes>, n: nat) {
    |tail| == (if n < |lines| then n else |lines|) && tail == lines[|lines| - |tail|..]
  }

  /** What is printed is a suffix of the file, holds exactly the wanted number of lines, and they are the last ones. */
  lemma LastLinesAreTheLastLines(s: Bytes, n: nat)
    ensures AreLast(LinesOf(s), LinesOf(LastLines(s, n)), n)
    ensures |LastLines(s, n)| <= |s| && LastLines(s, n) == s[|s| - |LastLines(s, n)|..]
  {
    var p := LastIsSuffix(s, n);
    KeptAreLast(LinesOf(s), LinesOf(s[p..]), n);
    assert |s| - |s[p..]| == p;
  }

  lemma KeptAreLast(lines: seq<Bytes>, tail: seq<Bytes>, n: nat)
    requires tail == lines[FirstKept(|lines|, n)..]
    ensures AreLast(lines, tail, n)
  {
  }

  // ----- Counting newlines. -----

  function Newlines(s: Bytes): nat {
    if s == [] then 0 else (if s[0] == '\n' then 1 else 0) + Newlines(s[1..])
  }

  lemma {:induction false} NewlinesAppend(a: Bytes, b: Bytes)
    ensures Newlines(a + b) == Newlines(a) + Newlines(b)
  {
    if a == [] {
      assert a + b == b;
    } else {
      assert (a + b)[1..] == a[1..] + b;
      NewlinesAppend(a[1..], b);
    }
  }

  lemma {:induction false} NoNewlines(s: Bytes)
    requires '\n' !in s
    ensures Newlines(s) == 0
  {
    if s != [] { NoNewlines(s[1..]); }
  }

  /** Where the scan starts: a final newline does not count as an extra line. */
  function ScanEnd(s: Bytes): (e: nat)
    ensures e <= |s|
  {
    if s != [] && s[|s| - 1] == '\n' then |s| - 1 else |s|
  }

  lemma NewlinesAround(a: Bytes, b: Bytes)
    requires '\n' !in a
    ensures Newlines(a + ['\n'] + b) == 1 + Newlines(b)
  {
    var nl: Bytes := ['\n'];
    NewlinesAppend(a + nl, b);
    NewlinesAppend(a, nl);
    NoNewlines(a);
    assert nl[1..] == [];
    assert Newlines(nl) == 1 + Newlines(nl[1..]);
  }

  lemma OneLine(s: Bytes)
    requires s != [] && '\n' !in s[..|s| - 1]
    ensures |LinesOf(s)| == 1 && Newlines(s[..ScanEnd(s)]) == 0
  {
    var n := |s| - 1;
    if s[n] == '\n' {
      FirstPosition(s, '\n', n);
      assert s[n + 1..] == [];
      NoNewlines(s[..n]);
    } else {
      assert s == s[..n] + [s[n]] && s[..|s|] == s;
      NoNewlines(s);
    }
  }

  lemma ScanEndOf(line: Bytes, rest: Bytes)
    requires rest != []
    ensures ScanEnd(line + ['\n'] + rest) == |line| + 1 + ScanEnd(rest)
  {
    var s := line + ['\n'] + rest;
    assert s[|s| - 1] == rest[|rest| - 1];
  }

  lemma FrontOf(line: Bytes, rest: Bytes, n: nat)
    requires n <= |rest|
    ensures (line + ['\n'] + rest)[..|line| + 1 + n] == line + ['\n'] + rest[..n]
  {
  }

  lemma NewlinesOfFront(line: Bytes, rest: Bytes, n: nat)
    requires '\n' !in line && n <= |rest|
    ensures Newlines((line + ['\n'] + rest)[..|line| + 1 + n]) == 1 + Newlines(rest[..n])
  {
    FrontOf(line, rest, n);
    NewlinesAround(line, rest[..n]);
  }

  lemma {:induction false} LineCount(s: Bytes)
    requires s != []
    ensures |LinesOf(s)| == 1 + Newlines(s[..ScanEnd(s)])
    decreases |s|
  {
    var n := |s| - 1;
    var k := IndexOf(s[..n], '\n');
    if k < 0 {
      OneLine(s);
    } else {
      assert s[..n][..k] == s[..k] && s[..n][k] == s[k];
      var line, rest := s[..k], s[k + 1..];
      assert s == line + ['\n'] + rest;
      FirstLine(line, rest);
      ScanEndOf(line, rest);
      NewlinesOfFront(line, rest, ScanEnd(rest));
      LineCount(rest);
    }
  }

  lemma LastOfSplit(a: Bytes, b: Bytes)
    requires LinesOf(a + b) == LinesOf(a) + LinesOf(b)
    ensures LastLines(a + b, |LinesOf(b)|) == b
  {
    LinesJoin(b);
    DropFront(LinesOf(a), LinesOf(b));
  }

  lemma SuffixLineCount(f: Bytes, start: nat)
    requires start <= ScanEnd(f) && f != [] && f[start..] != []
    ensures |LinesOf(f[start..])| == 1 + Newlines(f[start..ScanEnd(f)])
  {
    var b := f[start..];
    LineCount(b);
    assert b[..ScanEnd(b)] == f[start..ScanEnd(f)];
  }

  /** A suffix that starts right after a newline and has `n - 1` newlines before the scan end is the last `n` lines. */
  lemma SuffixIsLastLines(f: Bytes, start: nat, n: nat)
    requires 0 < start <= ScanEnd(f) && f[start - 1] == '\n' && n == 1 + Newlines(f[start..ScanEnd(f)])
    ensures f[start..] == LastLines(f, n)
  {
    var a, b := f[..start], f[start..];
    assert a + b == f && |b| > 0;
    LinesSplit(a, b);
    SuffixLineCount(f, start);
    LastOfSplit(a, b);
  }

  lemma DropFront(a: seq<Bytes>, b: seq<Bytes>)
    ensures |a + b| - |b| == |a| && (a + b)[|a|..] == b && (a == [] ==> (a + b)[0..] == b)
  {
  }

  lemma WholeFileIsLastLines(f: Bytes, n: nat)
    requires f != [] && Newlines(f[..ScanEnd(f)]) < n
    ensures f == LastLines(f, n)
  {
    LineCount(f);
    LinesJoin(f);
    assert LinesOf(f)[0..] == LinesOf(f);
  }

  /** The newlines from `p` to the scan end. */
  function CountFrom(f: Bytes, p: nat): nat
    requires p <= ScanEnd(f)
    decreases |f| - p
  {
    if p == ScanEnd(f) then 0 else (if f[p] == '\n' then 1 else 0) + CountFrom(f, p + 1)
  }

  lemma {:induction false} CountIsNewlines(f: Bytes, p: nat)
    requires p <= ScanEnd(f)
    ensures CountFrom(f, p) == Newlines(f[p..ScanEnd(f)])
    decreases |f| - p
  {
    if p < ScanEnd(f) {
      assert f[p..ScanEnd(f)][1..] == f[p + 1..ScanEnd(f)];
      CountIsNewlines(f, p + 1);
    }
  }

  // ----- The backward scan. -----

  /** `ReadAt`: fill the front of the buffer from the file. */
  method ReadAt(f: Bytes, buf: array<char>, off: nat, len: nat)
    requires off + len <= |f| && len <= buf.Length
    modifies buf
    ensures buf[..len] == f[off..off + len]
  {
    for i := 0 to len
      invariant forall k :: 0 <= k < i ==> buf[k] == f[off + k]
    {
      buf[i] := f[off + i];
    }
  }

  /** Where the output starts, given how many newlines still had to be found when the scan reached `pos`. */
  ghost predicate Found(f: Bytes, n: int, pos: nat, remaining: int, start: nat) {
    && pos <= ScanEnd(f) && remaining >= 0
    && (remaining > 0 ==> start == 0 && remaining + CountFrom(f, pos) == n)
    && (remaining == 0 ==>
          0 < start <= ScanEnd(f) && f[start - 1] == '\n' && n == 1 + CountFrom(f, start))
  }

  /** Looking at one byte more. */
  lemma FoundStep(f: Bytes, n: int, p: nat, remaining: int)
    requires p < ScanEnd(f) && remaining > 0 && Found(f, n, p + 1, remaining, 0)
    ensures f[p] != '\n' ==> Found(f, n, p, remaining, 0)
    ensures f[p] == '\n' ==> Found(f, n, p, remaining - 1, if remaining == 1 then p + 1 else 0)
  {
  }

  /** Once found, the scan stops wherever it is. */
  lemma FoundStays(f: Bytes, n: int, pos: nat, earlier: nat, start: nat)
    requires Found(f, n, pos, 0, start) && earlier <= pos
    ensures Found(f, n, earlier, 0, start)
  {
  }

  /** One chunk, scanned backwards. */
  method ScanChunk(f: Bytes, n: int, buf: array<char>, chunkStart: nat, pos: nat, remaining0: int)
    returns (remaining: int, start: nat)
    requires chunkStart <= pos <= ScanEnd(f) && pos - chunkStart <= buf.Length
    requires buf[..pos - chunkStart] == f[chunkStart..pos]
    requires remaining0 > 0 && Found(f, n, pos, remaining0, 0)
    ensures Found(f, n, chunkStart, remaining, start)
  {
    remaining, start := remaining0, 0;
    var i: int := pos - chunkStart - 1;
    while i >= 0 && remaining > 0
      invariant -1 <= i < pos - chunkStart
      invariant Found(f, n, chunkStart + i + 1, remaining, start)
    {
      FoundStep(f, n, chunkStart + i, remaining);
      assert buf[i] == buf[..pos - chunkStart][i] == f[chunkStart + i];
      if buf[i] == '\n' {
        remaining := remaining - 1;
        if remaining == 0 {
          start := chunkStart + i + 1;
        }
      }
      i := i - 1;
    }
    if remaining == 0 { FoundStays(f, n, chunkStart + i + 1, chunkStart, start); }
  }

  /** For every file, chunk size and positive `n`: exactly the last `n` lines, or the whole file if it has fewer. */
  method PrintLastLines(f: Bytes, n: int, chunkSize: nat) returns (out: Bytes)
    requires chunkSize > 0
    ensures n > 0 ==> out == LastLines(f, n)
    ensures n <= 0 ==> out == f
  {
    var size := |f|;
    if size == 0 { return []; }
    var scanEnd := size;
    if f[size - 1] == '\n' {
      scanEnd := scanEnd - 1;
    }
    var remaining, startPos: nat, pos: nat := n, 0, scanEnd;
    var buf := new char[chunkSize];
    while pos > 0 && remaining > 0
      invariant if n > 0 then Found(f, n, pos, remaining, startPos) else remaining <= 0 && startPos == 0
      decreases pos
    {
      var chunkStart: nat := if pos < chunkSize then 0 else pos - chunkSize;
      ReadAt(f, buf, chunkStart, pos - chunkStart);
      remaining, startPos := ScanChunk(f, n, buf, chunkStart, pos, remaining);
      pos := chunkStart;
    }
    assert f[0..scanEnd] == f[..ScanEnd(f)] && f[0..] == f;
    CountIsNewlines(f, startPos);
    if n > 0 && remaining == 0 {
      SuffixIsLastLines(f, startPos, n);
    } else if n > 0 {
      WholeFileIsLastLines(f, n);
    }
    out := f[startPos..];
  }
}
