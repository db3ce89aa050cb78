/** Version precedence as `golang.org/x/mod/semver` computes it (section 11 of SemVer 2.0.0), on version strings
    without the leading "v". A string that is not a version is less than every version and equal to its like. */
module Semver {
  import opened ByteText
  import opened Decimal

  datatype Ident = Num(n: nat) | Alpha(s: string)

  /** Build metadata takes no part in the order. `pre` is empty for a release. */
  datatype Version = Version(major: nat, minor: nat, patch: nat, pre: seq<Ident>)

  // ----- Parsing. -----

  function DigitRun(s: string): (n: nat)
    ensures n <= |s| && AllDigits(s[..n]) && (n < |s| ==> !IsDigit(s[n]))
  {
    if s == [] || !IsDigit(s[0]) then 0 else 1 + DigitRun(s[1..])
  }

  /** A number without leading zeros, and what follows it. */
  function ParseInt(s: string): Option<(nat, string)> {
    var n := DigitRun(s);
    if n == 0 || (s[0] == '0' && n > 1) then None else Some((Value(s[..n]), s[n..]))
  }

  predicate IsIdentChar(c: char) {
    IsDigit(c) || 'A' <= c <= 'Z' || 'a' <= c <= 'z' || c == '-'
  }

  predicate IsIdent(s: string) {
    s != [] && forall i :: 0 <= i < |s| ==> IsIdentChar(s[i])
  }

  function ParseIdent(s: string): Option<Ident> {
    if !IsIdent(s) then None
    else if !AllDigits(s) then Some(Alpha(s))
    else if s[0] == '0' && |s| > 1 then None
    else Some(Num(Value(s)))
  }

  function ParseIdents(parts: seq<string>): Option<seq<Ident>>
    decreases |parts|
  {
    if parts == [] then Some([])
    else
      match (ParseIdent(parts[0]), ParseIdents(parts[1..]))
      case (Some(x), Some(xs)) => Some([x] + xs)
      case _ => None
  }

  predicate IsBuild(s: string) {
    forall part :: part in Split(s, '.') ==> IsIdent(part)
  }

  /** What may follow the patch number: a prerelease, then build metadata. */
  function ParseTail(s: string): Option<seq<Ident>> {
    if s == [] then Some([])
    else
      var plus := IndexOf(s, '+');
      var pre := if plus < 0 then s else s[..plus];
      if plus >= 0 && !IsBuild(s[plus + 1..]) then None
      else if pre == [] then Some([])
      else if pre[0] != '-' then None
      else ParseIdents(Split(pre[1..], '.'))
  }

  /** A dot and a number. */
  function ParsePart(s: string): Option<(nat, string)> {
    if s == [] || s[0] != '.' then None else ParseInt(s[1..])
  }

  /** `major`, `major.minor` or the full form; the short forms stand for zeros. */
  function Parse(s: string): Option<Version> {
    match ParseInt(s)
    case None => None
    case Some((major, rest)) => if rest == [] then Some(Version(major, 0, 0, [])) else ParseMinor(major, rest)
  }

  function ParseMinor(major: nat, s: string): Option<Version> {
    match ParsePart(s)
    case None => None
    case Some((minor, rest)) =>
      if rest == [] then Some(Version(major, minor, 0, [])) else ParsePatch(major, minor, rest)
  }

  function ParsePatch(major: nat, minor: nat, s: string): Option<Version> {
    match ParsePart(s)
    case None => None
    case Some((patch, rest)) =>
      match ParseTail(rest)
      case None => None
      case Some(pre) => Some(Version(major, minor, patch, pre))
  }

  // ----- The order. -----

  function CmpInt(a: int, b: int): int {
    if a < b then -1 else if a > b then 1 else 0
  }

  /** The first difference decides. */
  function Then(c: int, d: int): int {
    if c != 0 then c else d
  }

  function CmpString(a: string, b: string): int
    decreases |a|
  {
    if a == [] || b == [] then CmpInt(|a|, |b|) else Then(CmpInt(a[0] as int, b[0] as int), CmpString(a[1..], b[1..]))
  }

  /** Numbers come before words. */
  function CmpIdent(a: Ident, b: Ident): int {
    match (a, b)
    case (Num(m), Num(n)) => CmpInt(m, n)
    case (Num(_), Alpha(_)) => -1
    case (Alpha(_), Num(_)) => 1
    case (Alpha(s), Alpha(t)) => CmpString(s, t)
  }

  function CmpIdents(a: seq<Ident>, b: seq<Ident>): int
    decreases |a|
  {
    if a == [] || b == [] then CmpInt(|a|, |b|) else Then(CmpIdent(a[0], b[0]), CmpIdents(a[1..], b[1..]))
  }

  /** A prerelease comes before its release. */
  function CmpPre(a: seq<Ident>, b: seq<Ident>): int {
    if a == [] || b == [] then CmpInt(|b|, |a|) else CmpIdents(a, b)
  }

  function CmpVersion(a: Version, b: Version): int {
    Then(CmpInt(a.major, b.major), Then(CmpInt(a.minor, b.minor), Then(CmpInt(a.patch, b.patch), CmpPre(a.pre, b.pre))))
  }

  /** `semver.Compare`. */
  function Compare(v: string, w: string): int {
    match (Parse(v), Parse(w))
    case (None, None) => 0
    case (None, Some(_)) => -1
    case (Some(_), None) => 1
    case (Some(a), Some(b)) => CmpVersion(a, b)
  }

  // ----- It is a total order of versions, and a total preorder of strings. -----

  /** What a comparison of three values must satisfy. */
  ghost predicate Ordered(ab: int, bc: int, ac: int, ba: int) {
    && ba == -ab
    && (ab <= 0 && bc <= 0 ==> ac <= 0)
    && (ab <= 0 && bc <= 0 && ac == 0 ==> ab == 0 && bc == 0)
    && (ab == 0 ==> ac == bc)
  }

  lemma {:induction false} StringOrdered(a: string, b: string, c: string)
    ensures Ordered(CmpString(a, b), CmpString(b, c), CmpString(a, c), CmpString(b, a))
    ensures CmpString(a, b) == 0 ==> a == b
    decreases |a| + |b|
  {
    if a != [] && b != [] {
      StringOrdered(a[1..], b[1..], if c == [] then [] else c[1..]);
      assert a == [a[0]] + a[1..] && b == [b[0]] + b[1..];
    }
  }

  lemma IdentOrdered(a: Ident, b: Ident, c: Ident)
    ensures Ordered(CmpIdent(a, b), CmpIdent(b, c), CmpIdent(a, c), CmpIdent(b, a))
    ensures CmpIdent(a, b) == 0 ==> a == b
  {
    if a.Alpha? && b.Alpha? { StringOrdered(a.s, b.s, if c.Alpha? then c.s else []); }
  }

  lemma {:induction false} IdentsOrdered(a: seq<Ident>, b: seq<Ident>, c: seq<Ident>)
    ensures Ordered(CmpIdents(a, b), CmpIdents(b, c), CmpIdents(a, c), CmpIdents(b, a))
    ensures CmpIdents(a, b) == 0 ==> a == b
    decreases |a| + |b|
  {
    if a != [] && b != [] {
      IdentsOrdered(a[1..], b[1..], if c == [] then [] else c[1..]);
      IdentOrdered(a[0], b[0], if c == [] then b[0] else c[0]);
      assert a == [a[0]] + a[1..] && b == [b[0]] + b[1..];
    }
  }

  lemma PreOrdered(a: seq<Ident>, b: seq<Ident>, c: seq<Ident>)
    ensures Ordered(CmpPre(a, b), CmpPre(b, c), CmpPre(a, c), CmpPre(b, a))
    ensures CmpPre(a, b) == 0 ==> a == b
  {
    IdentsOrdered(a, b, c);
  }

  lemma IntOrdered(a: int, b: int, c: int)
    ensures Ordered(CmpInt(a, b), CmpInt(b, c), CmpInt(a, c), CmpInt(b, a))
  {
  }

  lemma VersionOrdered(a: Version, b: Version, c: Version)
    ensures Ordered(CmpVersion(a, b), CmpVersion(b, c), CmpVersion(a, c), CmpVersion(b, a))
    ensures CmpVersion(a, b) == 0 <==> a == b
  {
    PreOrdered(a.pre, b.pre, c.pre);
    PreOrdered(a.pre, a.pre, a.pre);
    IntOrdered(a.major, b.major, c.major);
    IntOrdered(a.minor, b.minor, c.minor);
    IntOrdered(a.patch, b.patch, c.patch);
  }

  predicate Le(v: string, w: string) {
    Compare(v, w) <= 0
  }

  /** `Compare` is a total preorder: reflexive, antisymmetric in sign, transitive. */
  lemma CompareIsTotalPreorder(v: string, w: string, x: string)
    ensures Compare(v, v) == 0
    ensures Compare(w, v) == -Compare(v, w)
    ensures Le(v, w) && Le(w, x) ==> Le(v, x)
    ensures Compare(v, w) == 0 <==> Parse(v) == Parse(w)
  {
    if Parse(v).Some? {
      VersionOrdered(Parse(v).value, Parse(v).value, Parse(v).value);
      if Parse(w).Some? {
        var c := if Parse(x).Some? then Parse(x).value else Parse(v).value;
        VersionOrdered(Parse(v).value, Parse(w).value, c);
      }
    }
  }

  // ----- Printed versions. -----

  lemma {:induction false} RunIs(digits: string, rest: string)
    requires AllDigits(digits) && (rest != [] ==> !IsDigit(rest[0]))
    ensures DigitRun(digits + rest) == |digits|
    decreases |digits|
  {
    if digits == [] {
      assert digits + rest == rest;
    } else {
      assert (digits + rest)[1..] == digits[1..] + rest;
      RunIs(digits[1..], rest);
    }
  }

  /** A numeral as versions spell it. */
  predicate IsNumeral(s: string) {
    s != [] && AllDigits(s) && (s[0] == '0' ==> |s| == 1)
  }

  lemma ParseIntOf(digits: string, rest: string)
    requires IsNumeral(digits) && (rest != [] ==> !IsDigit(rest[0]))
    ensures ParseInt(digits + rest) == Some((Value(digits), rest))
  {
    RunIs(digits, rest);
    assert (digits + rest)[..|digits|] == digits && (digits + rest)[|digits|..] == rest;
  }

  lemma IntSplit(s: string) returns (digits: string, rest: string)
    requires ParseInt(s).Some?
    ensures s == digits + rest && IsNumeral(digits) && ParseInt(s).value == (Value(digits), rest)
    ensures rest != [] ==> !IsDigit(rest[0])
  {
    var n := DigitRun(s);
    digits, rest := s[..n], s[n..];
  }

  lemma ParsePartOf(digits: string, rest: string)
    requires IsNumeral(digits) && (rest != [] ==> !IsDigit(rest[0]))
    ensures ParsePart("." + digits + rest) == Some((Value(digits), rest))
  {
    ParseIntOf(digits, rest);
    assert ("." + digits + rest)[1..] == digits + rest;
  }

  lemma ParseMajor(a: string, rest: string)
    requires IsNumeral(a) && rest != [] && rest[0] == '.'
    ensures Parse(a + rest) == ParseMinor(Value(a), rest)
  {
    ParseIntOf(a, rest);
  }

  /** A printed release reads back as its three numbers. */
  lemma ReleaseParses(a: string, b: string, c: string, end: string)
    requires IsNumeral(a) && IsNumeral(b) && IsNumeral(c) && end == []
    ensures Parse(a + ("." + b + ("." + c + end))) == Some(Version(Value(a), Value(b), Value(c), []))
  {
    var patch := "." + c + end;
    var minor := "." + b + patch;
    ParseMajor(a, minor);
    ParsePartOf(b, patch);
    ParsePartOf(c, end);
  }

  /** A version with a dot is a major number and the rest. */
  lemma MajorSplit(v: string) returns (major: string, tail: string)
    requires Parse(v).Some? && '.' in v
    ensures v == major + tail && IsNumeral(major) && tail != [] && Parse(v) == ParseMinor(Value(major), tail)
  {
    major, tail := IntSplit(v);
    assert tail == [] ==> v == major;
  }

  lemma PartSplit(s: string) returns (digits: string, rest: string)
    requires ParsePart(s).Some?
    ensures s == "." + digits + rest && IsNumeral(digits) && ParsePart(s) == Some((Value(digits), rest))
  {
    digits, rest := IntSplit(s[1..]);
    assert s == "." + s[1..];
    AppendAssociative(".", digits, rest);
  }

  lemma MinorSplit(major: nat, s: string) returns (minor: string, rest: string)
    requires ParseMinor(major, s).Some?
    ensures s == "." + minor + rest && (rest != [] ==> rest[0] == '.') && IsNumeral(minor)
    ensures ParseMinor(major, s).value.major == major && ParseMinor(major, s).value.minor == Value(minor)
  {
    minor, rest := PartSplit(s);
    if rest != [] { assert ParsePatch(major, Value(minor), rest).Some?; }
  }
}
