/** What trimming leaves of a line. */
module ByteTrim {
  import opened ByteText

  predicate StartsWithSpace(s: Bytes) {
    || (|s| >= 1 && IsSpace(s[..1]))
    || (|s| >= 2 && IsSpace(s[..2]))
    || (|s| >= 3 && IsSpace(s[..3]))
  }

  predicate EndsWithSpace(s: Bytes) {
    var n := |s|;
    || (n >= 1 && IsSpace(s[n - 1..]))
    || (n >= 2 && IsSpace(s[n - 2..]))
    || (n >= 3 && IsSpace(s[n - 3..]))
  }

  predicate AreSpaces(rs: seq<Bytes>) {
    forall i :: 0 <= i < |rs| ==> IsSpace(rs[i])
  }

  lemma LeftStep(s: Bytes) returns (k: nat)
    requires StartsWithSpace(s)
    ensures 0 < k <= |s| && IsSpace(s[..k]) && TrimLeft(s) == TrimLeft(s[k..])
  {
    k := if IsSpace(s[..1]) then 1 else if IsSpace(s[..2]) then 2 else 3;
  }

  lemma RightStep(s: Bytes) returns (m: nat)
    requires EndsWithSpace(s)
    ensures m < |s| && IsSpace(s[m..]) && TrimRight(s) == TrimRight(s[..m])
  {
    var n := |s|;
    m := if IsSpace(s[n - 1..]) then n - 1 else if IsSpace(s[n - 2..]) then n - 2 else n - 3;
  }

  lemma {:induction false} LeftTrimmed(s: Bytes) returns (ls: seq<Bytes>)
    ensures s == Flatten(ls) + TrimLeft(s) && AreSpaces(ls) && !StartsWithSpace(TrimLeft(s))
    decreases |s|
  {
    if StartsWithSpace(s) {
      var k := LeftStep(s);
      var first := s[..k];
      var more := LeftTrimmed(s[k..]);
      ls := [first] + more;
      assert ls[1..] == more;
      assert s == first + s[k..];
      AppendAssociative(first, Flatten(more), TrimLeft(s));
    } else {
      ls := [];
      assert TrimLeft(s) == s;
    }
  }

  lemma OneFlat(r: Bytes)
    ensures Flatten([r]) == r
  {
    var one := [r];
    assert |one[1..]| == 0 && Flatten(one) == r + Flatten(one[1..]);
  }

  lemma NoRightStep(s: Bytes)
    requires !EndsWithSpace(s)
    ensures TrimRight(s) == s
  {
  }

  /** `t` is `s` without the spaces `rs` at its end. */
  ghost predicate Cut(s: Bytes, t: Bytes, rs: seq<Bytes>) {
    s == t + Flatten(rs) && AreSpaces(rs)
  }

  lemma CutOneMore(s: Bytes, m: nat, t: Bytes, rs: seq<Bytes>)
    requires m <= |s| && Cut(s[..m], t, rs) && IsSpace(s[m..])
    ensures Cut(s, t, rs + [s[m..]])
  {
    var last := s[m..];
    OneFlat(last);
    FlattenAppend(rs, [last]);
    assert s == s[..m] + last;
    AppendAssociative(t, Flatten(rs), last);
  }

  lemma {:induction false} RightTrimmed(s: Bytes) returns (rs: seq<Bytes>)
    ensures Cut(s, TrimRight(s), rs) && !EndsWithSpace(TrimRight(s))
    decreases |s|
  {
    if EndsWithSpace(s) {
      var m := RightStep(s);
      var more := RightTrimmed(s[..m]);
      CutOneMore(s, m, TrimRight(s[..m]), more);
      rs := more + [s[m..]];
    } else {
      NoRightStep(s);
      rs := [];
      assert s + [] == s;
    }
  }

  lemma PrefixStarts(inner: Bytes, t: Bytes)
    requires t <= inner && StartsWithSpace(t)
    ensures StartsWithSpace(inner)
  {
    assert |t| >= 1 ==> t[..1] == inner[..1];
    assert |t| >= 2 ==> t[..2] == inner[..2];
    assert |t| >= 3 ==> t[..3] == inner[..3];
  }

  /** `s` is `t` between spaces. */
  ghost predicate Surrounds(s: Bytes, t: Bytes) {
    exists ls, rs :: AreSpaces(ls) && AreSpaces(rs) && s == Flatten(ls) + t + Flatten(rs)
  }

  lemma TrimmedWithin(s: Bytes)
    ensures Surrounds(s, TrimSpace(s)) && TrimSpace(s) <= TrimLeft(s)
  {
    var ls := LeftTrimmed(s);
    var rs := RightTrimmed(TrimLeft(s));
    AppendAssociative(Flatten(ls), TrimSpace(s), Flatten(rs));
  }

  lemma NoSpaceLeft(s: Bytes)
    ensures !StartsWithSpace(TrimLeft(s)) && !EndsWithSpace(TrimRight(s))
  {
    var ls := LeftTrimmed(s);
    var rs := RightTrimmed(s);
  }

  /** Trimming takes nothing but spaces from both ends, and all of them. */
  lemma Trimmed(s: Bytes)
    ensures Surrounds(s, TrimSpace(s)) && !StartsWithSpace(TrimSpace(s)) && !EndsWithSpace(TrimSpace(s))
  {
    var inner := TrimLeft(s);
    TrimmedWithin(s);
    NoSpaceLeft(s);
    NoSpaceLeft(inner);
    if StartsWithSpace(TrimSpace(s)) { PrefixStarts(inner, TrimSpace(s)); }
  }
}
