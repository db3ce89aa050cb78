/** Versions as SemVer 2.0.0 describes them: how they are written (sections 2, 9 and 10) and which precedes which
    (section 11). */
module SemverLaws {
  import opened ByteText
  import opened Decimal
  import opened Semver

  // ----- Precedence. -----

  /** Up to `i` the two agree. */
  ghost predicate Agree<T>(a: seq<T>, b: seq<T>, i: int) {
    0 <= i <= |a| && i <= |b| && a[..i] == b[..i]
  }

  /** The first differing character decides, and a prefix comes before its extensions. */
  ghost predicate WordBefore(a: string, b: string) {
    exists i :: Agree(a, b, i) && i < |b| && (i == |a| || a[i] < b[i])
  }

  /** Numbers compare numerically and come before words; words compare in ASCII order. */
  ghost predicate IdentBefore(a: Ident, b: Ident) {
    || (a.Num? && b.Num? && a.n < b.n)
    || (a.Num? && b.Alpha?)
    || (a.Alpha? && b.Alpha? && WordBefore(a.s, b.s))
  }

  /** The first differing identifier decides, and with none the one with fewer identifiers comes first. */
  ghost predicate IdentsBefore(a: seq<Ident>, b: seq<Ident>) {
    exists i :: Agree(a, b, i) && i < |b| && (i == |a| || IdentBefore(a[i], b[i]))
  }

  /** Major, minor and patch number decide in this order; then a prerelease comes before its release, and two
      prereleases compare by their identifiers. */
  ghost predicate Precedes(a: Version, b: Version) {
    if a.major != b.major then a.major < b.major
    else if a.minor != b.minor then a.minor < b.minor
    else if a.patch != b.patch then a.patch < b.patch
    else a.pre != [] && (b.pre == [] || IdentsBefore(a.pre, b.pre))
  }

  /** Where the heads agree, agreement moves between the sequences and their tails; elsewhere it stops at once. */
  lemma AgreeCons<T>(a: seq<T>, b: seq<T>)
    requires a != [] && b != []
    ensures Agree(a, b, 0)
    ensures a[0] != b[0] ==> forall i :: Agree(a, b, i) ==> i == 0
    ensures a[0] == b[0] ==> forall i :: Agree(a[1..], b[1..], i) ==> Agree(a, b, i + 1)
    ensures a[0] == b[0] ==> forall i :: i > 0 && Agree(a, b, i) ==> Agree(a[1..], b[1..], i - 1)
  {
    forall i | i > 0 && Agree(a, b, i)
      ensures a[0] == b[0] && Agree(a[1..], b[1..], i - 1)
    {
      assert a[..i][0] == b[..i][0];
      assert a[1..][..i - 1] == a[..i][1..] && b[1..][..i - 1] == b[..i][1..];
    }
    if a[0] == b[0] {
      forall i | Agree(a[1..], b[1..], i)
        ensures Agree(a, b, i + 1)
      {
        assert a[..i + 1] == [a[0]] + a[1..][..i] && b[..i + 1] == [b[0]] + b[1..][..i];
      }
    }
  }

  lemma WordStep(a: string, b: string)
    requires a != [] && b != []
    ensures WordBefore(a, b) <==> a[0] < b[0] || (a[0] == b[0] && WordBefore(a[1..], b[1..]))
  {
    AgreeCons(a, b);
    if WordBefore(a, b) && a[0] == b[0] {
      var i :| Agree(a, b, i) && i < |b| && (i == |a| || a[i] < b[i]);
      assert Agree(a[1..], b[1..], i - 1);
    }
    if a[0] == b[0] && WordBefore(a[1..], b[1..]) {
      var i :| Agree(a[1..], b[1..], i) && i < |b[1..]| && (i == |a[1..]| || a[1..][i] < b[1..][i]);
      assert Agree(a, b, i + 1);
    }
  }

  lemma IdentsStep(a: seq<Ident>, b: seq<Ident>)
    requires a != [] && b != []
    ensures IdentsBefore(a, b) <==>
            if a[0] == b[0] then IdentsBefore(a[1..], b[1..]) else IdentBefore(a[0], b[0])
  {
    AgreeCons(a, b);
    if IdentsBefore(a, b) && a[0] == b[0] {
      IdentNotBeforeItself(a[0]);
      var i :| Agree(a, b, i) && i < |b| && (i == |a| || IdentBefore(a[i], b[i]));
      assert Agree(a[1..], b[1..], i - 1);
    }
    if a[0] == b[0] && IdentsBefore(a[1..], b[1..]) {
      var i :| Agree(a[1..], b[1..], i) && i < |b[1..]| && (i == |a[1..]| || IdentBefore(a[1..][i], b[1..][i]));
      assert Agree(a, b, i + 1);
    }
  }

  lemma IdentNotBeforeItself(x: Ident)
    ensures !IdentBefore(x, x)
  {
  }

  lemma EmptyWord(a: string, b: string)
    requires a == [] || b == []
    ensures WordBefore(a, b) <==> |a| < |b|
  {
    assert Agree(a, b, 0);
  }

  lemma NoIdents(a: seq<Ident>, b: seq<Ident>)
    requires a == [] || b == []
    ensures IdentsBefore(a, b) <==> |a| < |b|
  {
    assert Agree(a, b, 0);
  }

  lemma {:induction false} WordOrder(a: string, b: string)
    ensures CmpString(a, b) < 0 <==> WordBefore(a, b)
    decreases |a|
  {
    if a == [] || b == [] {
      EmptyWord(a, b);
    } else {
      WordStep(a, b);
      WordOrder(a[1..], b[1..]);
    }
  }

  lemma IdentOrder(a: Ident, b: Ident)
    ensures CmpIdent(a, b) < 0 <==> IdentBefore(a, b)
    ensures CmpIdent(a, b) == 0 <==> a == b
  {
    IdentOrdered(a, b, b);
    IdentOrdered(a, a, a);
    if a.Alpha? && b.Alpha? { WordOrder(a.s, b.s); }
  }

  lemma {:induction false} IdentsOrder(a: seq<Ident>, b: seq<Ident>)
    ensures CmpIdents(a, b) < 0 <==> IdentsBefore(a, b)
    decreases |a|
  {
    if a == [] || b == [] {
      NoIdents(a, b);
    } else {
      IdentsStep(a, b);
      IdentOrder(a[0], b[0]);
      IdentsOrder(a[1..], b[1..]);
    }
  }

  lemma VersionOrder(a: Version, b: Version)
    ensures CmpVersion(a, b) < 0 <==> Precedes(a, b)
  {
    IdentsOrder(a.pre, b.pre);
  }

  /** `semver.Compare` is precedence, with every string that is no version below every version; greater is less with
      the arguments exchanged. */
  lemma ComparesByPrecedence(v: string, w: string)
    ensures Compare(v, w) < 0 <==>
            Parse(w).Some? && (Parse(v).None? || Precedes(Parse(v).value, Parse(w).value))
    ensures Compare(v, w) > 0 <==> Compare(w, v) < 0
  {
    CompareIsTotalPreorder(v, w, w);
    if Parse(v).Some? && Parse(w).Some? { VersionOrder(Parse(v).value, Parse(w).value); }
  }

  // ----- The written form. -----

  function Write(x: Ident): string {
    match x
    case Num(n) => Dec(n)
    case Alpha(s) => s
  }

  function WriteAll(xs: seq<Ident>): seq<string> {
    if xs == [] then [] else [Write(xs[0])] + WriteAll(xs[1..])
  }

  /** A word has a letter or a hyphen, so that it is no number. */
  predicate AreIdents(xs: seq<Ident>) {
    forall i :: 0 <= i < |xs| ==> xs[i].Alpha? ==> IsIdent(xs[i].s) && !AllDigits(xs[i].s)
  }

  predicate AreWords(parts: seq<string>) {
    forall i :: 0 <= i < |parts| ==> IsIdent(parts[i])
  }

  /** What follows the patch number: the prerelease after a hyphen, the build metadata after a plus. */
  function Tail(pre: seq<Ident>, build: seq<string>): string {
    (if pre == [] then "" else "-" + Joined(WriteAll(pre), '.')) +
    (if build == [] then "" else "+" + Joined(build, '.'))
  }

  /** `s` is version `v` in full, or short for it with zeros left out. */
  ghost predicate Spells(s: string, v: Version) {
    || (s == Dec(v.major) && v == Version(v.major, 0, 0, []))
    || (s == Dec(v.major) + ("." + Dec(v.minor) + "") && v == Version(v.major, v.minor, 0, []))
    || (AreIdents(v.pre) && exists build :: AreWords(build) && s == Full(v, build))
  }

  function Full(v: Version, build: seq<string>): string {
    Dec(v.major) + ("." + Dec(v.minor) + ("." + Dec(v.patch) + Tail(v.pre, build)))
  }

  // Numerals.

  lemma {:induction false} NumeralIsPositive(s: string)
    requires IsNumeral(s) && s[0] != '0'
    ensures Value(s) > 0
    decreases |s|
  {
    if |s| > 1 { NumeralIsPositive(s[..|s| - 1]); }
  }

  lemma {:induction false} DecOfValue(s: string)
    requires IsNumeral(s)
    ensures Dec(Value(s)) == s
    decreases |s|
  {
    var n := |s| - 1;
    if n == 0 {
      assert s == [s[0]] && s[..0] == [];
    } else {
      var init := s[..n];
      DecOfValue(init);
      NumeralIsPositive(init);
      assert s == init + [s[n]];
    }
  }

  lemma DecIsNumeral(n: nat)
    ensures IsNumeral(Dec(n)) && Value(Dec(n)) == n
  {
    DecHasNoLeadingZero(n);
    ValueOfDec(n);
  }

  // Identifiers.

  lemma IdentRoundTrip(s: string, x: Ident)
    ensures ParseIdent(s) == Some(x) <==> s == Write(x) && (x.Alpha? ==> IsIdent(x.s) && !AllDigits(x.s))
  {
    if x.Num? {
      DecIsNumeral(x.n);
      assert IsIdent(Dec(x.n));
    }
    if ParseIdent(s).Some? && AllDigits(s) { DecOfValue(s); }
  }

  lemma {:induction false} IdentsRoundTrip(parts: seq<string>, xs: seq<Ident>)
    ensures ParseIdents(parts) == Some(xs) <==> parts == WriteAll(xs) && AreIdents(xs)
    decreases |parts|
  {
    if parts != [] && xs != [] {
      IdentRoundTrip(parts[0], xs[0]);
      IdentsRoundTrip(parts[1..], xs[1..]);
      assert xs == [xs[0]] + xs[1..] && parts == [parts[0]] + parts[1..];
    }
  }

  // The tail.

  lemma {:induction false} WrittenAreWords(xs: seq<Ident>)
    requires AreIdents(xs)
    ensures |WriteAll(xs)| == |xs| && AreWords(WriteAll(xs))
  {
    if xs != [] { WrittenAreWords(xs[1..]); }
  }

  lemma {:induction false} WordsJoined(parts: seq<string>)
    requires parts != [] && AreWords(parts)
    ensures Joined(parts, '.') != [] && '+' !in Joined(parts, '.')
    decreases |parts|
  {
    assert IsIdent(parts[0]) && '+' !in parts[0];
    if |parts| > 1 { WordsJoined(parts[1..]); }
  }

  lemma WordsSplit(parts: seq<string>)
    requires parts != [] && AreWords(parts)
    ensures Split(Joined(parts, '.'), '.') == parts
  {
    assert forall i :: 0 <= i < |parts| ==> IsIdent(parts[i]) && '.' !in parts[i];
    SplitJoined(parts, '.');
  }

  lemma PreParses(pre: seq<Ident>, text: string)
    requires AreIdents(pre) && pre != [] && text == Joined(WriteAll(pre), '.')
    ensures '+' !in text && ParseIdents(Split(text, '.')) == Some(pre)
  {
    var parts := WriteAll(pre);
    WrittenAreWords(pre);
    WordsJoined(parts);
    WordsSplit(parts);
    IdentsRoundTrip(parts, pre);
  }

  lemma BuildParses(build: seq<string>, text: string)
    requires AreWords(build) && build != [] && text == Joined(build, '.')
    ensures IsBuild(text)
  {
    WordsSplit(build);
  }

  lemma TailParses(pre: seq<Ident>, build: seq<string>)
    requires AreIdents(pre) && AreWords(build)
    ensures ParseTail(Tail(pre, build)) == Some(pre)
    ensures Tail(pre, build) != [] ==> !IsDigit(Tail(pre, build)[0])
  {
    var a := if pre == [] then "" else "-" + Joined(WriteAll(pre), '.');
    var s := Tail(pre, build);
    if pre != [] {
      PreParses(pre, Joined(WriteAll(pre), '.'));
      assert a[1..] == Joined(WriteAll(pre), '.');
    }
    if build == [] {
      assert s == a;
    } else {
      BuildParses(build, Joined(build, '.'));
      PlusParses(a, Joined(build, '.'));
    }
  }

  lemma PlusParses(a: string, b: string)
    requires '+' !in a && IsBuild(b)
    ensures ParseTail(a + ("+" + b)) ==
            if a == [] then Some([]) else if a[0] != '-' then None else ParseIdents(Split(a[1..], '.'))
  {
    var s := a + ("+" + b);
    assert s[..|a|] == a && s[|a| + 1..] == b;
    FirstPosition(s, '+', |a|);
  }

  lemma PreSplit(text: string, pre: seq<Ident>)
    requires text != [] && text[0] == '-' && ParseIdents(Split(text[1..], '.')) == Some(pre)
    ensures AreIdents(pre) && pre != [] && text == "-" + Joined(WriteAll(pre), '.')
  {
    var parts := Split(text[1..], '.');
    IdentsRoundTrip(parts, pre);
    JoinedSplit(text[1..], '.');
    assert text == "-" + text[1..];
  }

  lemma BuildSplit(text: string) returns (build: seq<string>)
    requires IsBuild(text)
    ensures AreWords(build) && build != [] && text == Joined(build, '.')
  {
    build := Split(text, '.');
    JoinedSplit(text, '.');
  }

  lemma TailSplit(s: string, pre: seq<Ident>) returns (build: seq<string>)
    requires ParseTail(s) == Some(pre)
    ensures AreIdents(pre) && AreWords(build) && s == Tail(pre, build)
  {
    var plus := IndexOf(s, '+');
    var a := if plus < 0 then s else s[..plus];
    build := [];
    if plus >= 0 {
      build := BuildSplit(s[plus + 1..]);
      assert s == a + ("+" + s[plus + 1..]);
    } else {
      assert s == a + "";
    }
    if a != [] { PreSplit(a, pre); }
  }

  // The whole.

  lemma FullParses(v: Version, build: seq<string>)
    requires AreIdents(v.pre) && AreWords(build)
    ensures Parse(Full(v, build)) == Some(v)
  {
    var tail := Tail(v.pre, build);
    var patch := "." + Dec(v.patch) + tail;
    var minor := "." + Dec(v.minor) + patch;
    TailParses(v.pre, build);
    DecIsNumeral(v.major);
    DecIsNumeral(v.minor);
    DecIsNumeral(v.patch);
    ParseMajor(Dec(v.major), minor);
    ParsePartOf(Dec(v.minor), patch);
    ParsePartOf(Dec(v.patch), tail);
  }

  lemma ShortParses(major: nat, minor: nat)
    ensures Parse(Dec(major)) == Some(Version(major, 0, 0, []))
    ensures Parse(Dec(major) + ("." + Dec(minor) + "")) == Some(Version(major, minor, 0, []))
  {
    DecIsNumeral(major);
    DecIsNumeral(minor);
    ParseIntOf(Dec(major), "");
    assert Dec(major) + "" == Dec(major);
    ParseMajor(Dec(major), "." + Dec(minor) + "");
    ParsePartOf(Dec(minor), "");
  }

  lemma PartIsSpelled(s: string) returns (n: nat, rest: string)
    requires ParsePart(s).Some?
    ensures ParsePart(s) == Some((n, rest)) && s == "." + Dec(n) + rest
  {
    var digits: string;
    digits, rest := PartSplit(s);
    n := Value(digits);
    DecOfValue(digits);
  }

  lemma PatchSplit(major: nat, minor: nat, s: string, v: Version) returns (build: seq<string>)
    requires ParsePatch(major, minor, s) == Some(v)
    ensures v.major == major && v.minor == minor && AreIdents(v.pre) && AreWords(build)
    ensures s == "." + Dec(v.patch) + Tail(v.pre, build)
  {
    var n, rest := PartIsSpelled(s);
    build := TailSplit(rest, v.pre);
  }

  /** What follows the major number. */
  ghost predicate SpellsMinor(s: string, v: Version) {
    || (s == "." + Dec(v.minor) + "" && v == Version(v.major, v.minor, 0, []))
    || (AreIdents(v.pre)
        && exists build :: AreWords(build) && s == "." + Dec(v.minor) + ("." + Dec(v.patch) + Tail(v.pre, build)))
  }

  lemma MinorIsSpelled(major: nat, s: string, v: Version)
    requires ParseMinor(major, s) == Some(v)
    ensures v.major == major && SpellsMinor(s, v)
  {
    var n, rest := PartIsSpelled(s);
    if rest != [] { var build := PatchSplit(major, n, rest, v); }
  }

  lemma ParsedIsSpelled(s: string, v: Version)
    requires Parse(s) == Some(v)
    ensures Spells(s, v)
  {
    var a, rest := IntSplit(s);
    DecOfValue(a);
    if rest == [] {
      assert s == a;
    } else {
      MinorIsSpelled(Value(a), rest, v);
      if !(rest == "." + Dec(v.minor) + "" && v == Version(v.major, v.minor, 0, [])) {
        var build :| AreWords(build) && rest == "." + Dec(v.minor) + ("." + Dec(v.patch) + Tail(v.pre, build));
        assert s == Full(v, build);
      }
    }
  }

  /** A string parses as a version if and only if it is that version written out. */
  lemma ParsesIffSpelled(s: string, v: Version)
    ensures Parse(s) == Some(v) <==> Spells(s, v)
  {
    if Parse(s) == Some(v) { ParsedIsSpelled(s, v); }
    if Spells(s, v) {
      ShortParses(v.major, v.minor);
      if AreIdents(v.pre) && exists build :: AreWords(build) && s == Full(v, build) {
        var build :| AreWords(build) && s == Full(v, build);
        FullParses(v, build);
      }
    }
  }
}
