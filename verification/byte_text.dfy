/** Byte strings and the few `bytes`/`strings` operations the modelled code uses.

    A Go string or byte slice is a sequence of bytes; here each byte is one `char` whose code is the
    byte's value. */
module ByteText {
  datatype Option<+T> = None | Some(value: T)

  type Bytes = seq<char>

  ghost predicate IsFirst(s: Bytes, c: char, k: int) {
    0 <= k < |s| && s[k] == c && c !in s[..k]
  }

  lemma {:induction false} HasFirst(s: Bytes, c: char)
    requires c in s
    ensures exists k :: IsFirst(s, c, k)
  {
    if s[0] == c {
      assert IsFirst(s, c, 0);
    } else {
      HasFirst(s[1..], c);
      var k :| IsFirst(s[1..], c, k);
      assert s[..k + 1] == [s[0]] + s[1..][..k];
      assert IsFirst(s, c, k + 1);
    }
  }

  lemma OneFirst(s: Bytes, c: char, j: int, k: int)
    requires IsFirst(s, c, j) && IsFirst(s, c, k)
    ensures j == k
  {
    assert forall i | 0 <= i < k :: s[i] == s[..k][i];
    assert forall i | 0 <= i < j :: s[i] == s[..j][i];
  }

  /** The first position of `c`, or -1 (`bytes.IndexByte`). */
  function IndexOf(s: Bytes, c: char): (k: int)
    ensures -1 <= k < |s|
    ensures k >= 0 ==> s[k] == c && c !in s[..k]
    ensures k < 0 ==> c !in s
  {
    if c !in s then -1
    else
      HasFirst(s, c);
      assert forall j, k | IsFirst(s, c, j) && IsFirst(s, c, k) :: j == k by {
        forall j, k | IsFirst(s, c, j) && IsFirst(s, c, k) ensures j == k { OneFirst(s, c, j, k); }
      }
      var k :| 0 <= k < |s| && s[k] == c && c !in s[..k];
      k
  }

  /** What pins down a first position. */
  lemma FirstPosition(s: Bytes, c: char, k: nat)
    requires k < |s| && s[k] == c && c !in s[..k]
    ensures IndexOf(s, c) == k
  {
    OneFirst(s, c, k, IndexOf(s, c));
  }

  /** `strings.HasPrefix`. */
  predicate HasPrefix(s: Bytes, p: Bytes) {
    p <= s
  }

  /** The UTF-8 encodings of the runes `unicode.IsSpace` accepts. */
  predicate IsSpace(r: Bytes) {
    || (|r| == 1 && (r[0] == ' ' || 9 <= r[0] as int <= 13))
    || (|r| == 2 && r[0] as int == 0xC2 && (r[1] as int == 0x85 || r[1] as int == 0xA0))
    || (|r| == 3 && r[0] as int == 0xE1 && r[1] as int == 0x9A && r[2] as int == 0x80)
    || (|r| == 3 && r[0] as int == 0xE2 && r[1] as int == 0x80
        && (0x80 <= r[2] as int <= 0x8A || r[2] as int in {0xA8, 0xA9, 0xAF}))
    || (|r| == 3 && r[0] as int == 0xE2 && r[1] as int == 0x81 && r[2] as int == 0x9F)
    || (|r| == 3 && r[0] as int == 0xE3 && r[1] as int == 0x80 && r[2] as int == 0x80)
  }

  function TrimLeft(s: Bytes): Bytes {
    if |s| >= 1 && IsSpace(s[..1]) then TrimLeft(s[1..])
    else if |s| >= 2 && IsSpace(s[..2]) then TrimLeft(s[2..])
    else if |s| >= 3 && IsSpace(s[..3]) then TrimLeft(s[3..])
    else s
  }

  function TrimRight(s: Bytes): Bytes {
    if |s| >= 1 && IsSpace(s[|s| - 1..]) then TrimRight(s[..|s| - 1])
    else if |s| >= 2 && IsSpace(s[|s| - 2..]) then TrimRight(s[..|s| - 2])
    else if |s| >= 3 && IsSpace(s[|s| - 3..]) then TrimRight(s[..|s| - 3])
    else s
  }

  /** `bytes.TrimSpace`. */
  function TrimSpace(s: Bytes): Bytes {
    TrimRight(TrimLeft(s))
  }

  function Flatten<T>(parts: seq<seq<T>>): seq<T> {
    if parts == [] then [] else parts[0] + Flatten(parts[1..])
  }

  lemma AppendAssociative<T>(a: seq<T>, b: seq<T>, c: seq<T>)
    ensures (a + b) + c == a + (b + c)
  {
  }

  lemma AroundIndex<T>(s: seq<T>, i: nat)
    requires i < |s|
    ensures s == (s[..i] + [s[i]]) + s[i + 1..]
  {
  }

  lemma {:induction false} FlattenAppend<T>(a: seq<seq<T>>, b: seq<seq<T>>)
    ensures Flatten(a + b) == Flatten(a) + Flatten(b)
  {
    if a == [] {
      assert a + b == b;
    } else {
      FlattenAppend(a[1..], b);
      assert (a + b)[1..] == a[1..] + b;
      AppendAssociative(a[0], Flatten(a[1..]), Flatten(b));
    }
  }

  /** `strings.Split` on one byte. */
  function Split(s: Bytes, sep: char): (parts: seq<Bytes>)
    ensures parts != []
  {
    var k := IndexOf(s, sep);
    if k < 0 then [s] else [s[..k]] + Split(s[k + 1..], sep)
  }

  /** `strings.Join` with one byte. */
  function Joined(parts: seq<Bytes>, sep: char): Bytes {
    if parts == [] then [] else if |parts| == 1 then parts[0] else parts[0] + ([sep] + Joined(parts[1..], sep))
  }

  lemma SplitFirst(a: Bytes, b: Bytes, sep: char)
    requires sep !in a
    ensures Split(a + ([sep] + b), sep) == [a] + Split(b, sep)
  {
    var s, k := a + ([sep] + b), |a|;
    assert s[..k] == a && s[k + 1..] == b;
    FirstPosition(s, sep, k);
  }

  lemma {:induction false} SplitJoined(parts: seq<Bytes>, sep: char)
    requires parts != [] && forall i :: 0 <= i < |parts| ==> sep !in parts[i]
    ensures Split(Joined(parts, sep), sep) == parts
  {
    var first, more := parts[0], parts[1..];
    if more == [] {
      assert parts == [first];
    } else {
      SplitJoined(more, sep);
      SplitFirst(first, Joined(more, sep), sep);
      assert parts == [first] + more;
    }
  }

  lemma {:induction false} JoinedSplit(s: Bytes, sep: char)
    ensures Joined(Split(s, sep), sep) == s
    ensures forall i, c :: 0 <= i < |Split(s, sep)| && c in Split(s, sep)[i] ==> c in s && c != sep
  {
    var k := IndexOf(s, sep);
    if k >= 0 {
      var tail := s[k + 1..];
      JoinedSplit(tail, sep);
      var parts := Split(tail, sep);
      assert ([s[..k]] + parts)[1..] == parts;
      assert s == s[..k] + ([sep] + tail);
    }
  }
}
