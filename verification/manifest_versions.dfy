/** Envoy version constraints in extension manifests: the implicit maximum, defaults, and inheritance from a parent. */
module ManifestVersions {
  import opened ByteText
  import opened Decimal
  import opened Semver

  datatype Manifest = Manifest(name: string, parent: string, version: string, composerVersion: string,
                               minEnvoy: string, maxEnvoy: string, filterTypes: seq<string>)

  // ----- The implicit maximum. -----

  /** `strconv.Atoi`, in 64 bits. */
  function Atoi(s: string): Option<int> {
    var signed := s != [] && (s[0] == '-' || s[0] == '+');
    var digits := if signed then s[1..] else s;
    if digits == [] || !AllDigits(digits) then None
    else
      var n: int := if s[0] == '-' then 0 - Value(digits) else Value(digits);
      if -0x8000_0000_0000_0000 <= n <= 0x7fff_ffff_ffff_ffff then Some(n) else None
  }

  /** `%d` of a 64-bit sum: the largest integer plus one wraps around. */
  function PrintSucc(n: int): string {
    var next := if n == 0x7fff_ffff_ffff_ffff then -0x8000_0000_0000_0000 else n + 1;
    if next < 0 then "-" + Dec(-next) else Dec(next)
  }

  function BeforeDot(s: string): string {
    if IndexOf(s, '.') < 0 then s else s[..IndexOf(s, '.')]
  }

  function NextMinor(major: string, minor: string): string {
    match Atoi(minor)
    case None => ""
    case Some(n) => major + "." + PrintSucc(n) + ".0"
  }

  /** `ImplicitMaxEnvoyVersion`: the next minor version, or nothing. */
  function ImplicitMax(minVersion: string): string {
    var k := IndexOf(minVersion, '.');
    if k < 0 then "" else NextMinor(minVersion[..k], BeforeDot(minVersion[k + 1..]))
  }

  /** A numeral's digits contain no dot. */
  lemma DotAfter(digits: string, rest: string)
    requires AllDigits(digits) && rest != [] && rest[0] == '.'
    ensures IndexOf(digits + rest, '.') == |digits|
  {
    var s := digits + rest;
    assert s[..|digits|] == digits;
    FirstPosition(s, '.', |digits|);
  }

  lemma Regroup(a: string, dot: string, b: string, c: string)
    ensures a + dot + b + c == a + (dot + b + c) && a + dot + b + c == a + (dot + (b + c))
  {
  }

  lemma PrintedMax(major: string, n: nat)
    requires IsNumeral(major)
    ensures Parse(major + "." + Dec(n) + ".0") == Some(Version(Value(major), n, 0, []))
  {
    DecHasNoLeadingZero(n);
    ValueOfDec(n);
    var zero, dot, end := "0", ".", "";
    var b, patch := Dec(n), dot + zero + end;
    assert zero == Dec(0);
    ValueOfDec(0);
    assert patch == ".0";
    ReleaseParses(major, b, zero, end);
    Regroup(major, dot, b, patch);
  }

  lemma WrappedMax(major: string)
    requires IsNumeral(major)
    ensures Parse(major + "." + PrintSucc(0x7fff_ffff_ffff_ffff) + ".0").None?
  {
    var text := PrintSucc(0x7fff_ffff_ffff_ffff);
    assert text[0] == '-';
    var tail := "." + (text + ".0");
    assert major + "." + text + ".0" == major + tail;
    ParseMajor(major, tail);
    assert tail[1..][0] == '-';
  }

  lemma AtoiOf(minor: string)
    requires IsNumeral(minor)
    ensures Atoi(minor) == if Value(minor) > 0x7fff_ffff_ffff_ffff then None else Some(Value(minor))
  {
  }

  lemma DotsOf(v: string, major: string, minor: string, rest: string)
    requires v == major + ("." + minor + rest)
    requires IsNumeral(major) && IsNumeral(minor) && (rest != [] ==> rest[0] == '.')
    ensures IndexOf(v, '.') == |major| && v[..|major|] == major && BeforeDot(v[|major| + 1..]) == minor
  {
    var after := minor + rest;
    var tail := "." + minor + rest;
    assert tail[1..] == after;
    DotAfter(major, tail);
    assert v[|major| + 1..] == after;
    BeforeDotOf(minor, rest);
  }

  lemma BeforeDotOf(minor: string, rest: string)
    requires IsNumeral(minor) && (rest != [] ==> rest[0] == '.')
    ensures BeforeDot(minor + rest) == minor
  {
    var after := minor + rest;
    if rest != [] {
      DotAfter(minor, rest);
      assert after[..|minor|] == minor;
    } else {
      assert after == minor && '.' !in minor;
    }
  }

  lemma ImplicitMaxIs(v: string) returns (major: string, minor: string)
    requires Parse(v).Some? && '.' in v
    ensures IsNumeral(major) && IsNumeral(minor) && ImplicitMax(v) == NextMinor(major, minor)
    ensures Parse(v).value.major == Value(major) && Parse(v).value.minor == Value(minor)
  {
    var tail: string, rest: string;
    major, tail := MajorSplit(v);
    minor, rest := MinorSplit(Value(major), tail);
    DotsOf(v, major, minor, rest);
  }

  const MAX_INT := 0x7fff_ffff_ffff_ffff

  lemma NextMinorIs(major: string, minor: string)
    requires IsNumeral(major) && IsNumeral(minor)
    ensures IsNextMinor(NextMinor(major, minor), Value(major), Value(minor))
  {
    AtoiOf(minor);
    if Value(minor) == MAX_INT {
      WrappedMax(major);
    } else if Value(minor) < MAX_INT {
      PrintedMax(major, Value(minor) + 1);
    }
  }

  lemma NextIsGreater(v: string, w: string)
    requires Parse(v).Some? && Parse(w).Some?
    requires Parse(w).value.major == Parse(v).value.major && Parse(w).value.minor > Parse(v).value.minor
    ensures Compare(w, v) > 0
  {
  }

  /** What the implicit maximum `w` of a valid minimum `v` is. Without a minor number, or with one that does not fit 64
      bits, there is none; otherwise it is the first release of the next minor version, which is greater than the
      minimum, except that the very largest minor number wraps around to a string that is not a version. */
  ghost predicate IsImplicitMax(v: string, w: string)
    requires Parse(v).Some?
  {
    var minor := Parse(v).value.minor;
    if '.' !in v || minor > MAX_INT then w == ""
    else if minor == MAX_INT then w != "" && Parse(w).None?
    else Parse(w) == Some(Version(Parse(v).value.major, minor + 1, 0, [])) && Compare(w, v) > 0
  }

  /** `w` denotes the next minor version, as far as one can be printed. */
  ghost predicate IsNextMinor(w: string, major: nat, minor: nat) {
    && (minor > MAX_INT ==> w == "")
    && (minor == MAX_INT ==> w != "" && Parse(w).None?)
    && (minor < MAX_INT ==> Parse(w) == Some(Version(major, minor + 1, 0, [])))
  }

  lemma NextIsImplicitMax(v: string, w: string)
    requires Parse(v).Some? && '.' in v && IsNextMinor(w, Parse(v).value.major, Parse(v).value.minor)
    ensures IsImplicitMax(v, w)
  {
    if Parse(v).value.minor < MAX_INT { NextIsGreater(v, w); }
  }

  lemma ImplicitMaxExceeds(v: string)
    requires Parse(v).Some?
    ensures IsImplicitMax(v, ImplicitMax(v))
  {
    if '.' in v {
      var major, minor := ImplicitMaxIs(v);
      NextMinorIs(major, minor);
      NextIsImplicitMax(v, ImplicitMax(v));
    }
  }

  // ----- Defaults and inheritance. -----

  function Or(s: string, other: string): string {
    if s == "" then other else s
  }

  /** A minimum without a maximum gets the implicit one. */
  function FillMax(m: Manifest): Manifest {
    if m.minEnvoy != "" && m.maxEnvoy == "" then m.(maxEnvoy := ImplicitMax(m.minEnvoy)) else m
  }

  function Defaulted(m: Manifest): Manifest {
    FillMax(if m.filterTypes == [] then m.(filterTypes := ["http"]) else m)
  }

  function Inherit(m: Manifest, parent: Manifest): Manifest {
    FillMax(m.(version := Or(m.version, parent.version), composerVersion := Or(m.composerVersion, parent.version),
               minEnvoy := Or(m.minEnvoy, parent.minEnvoy), maxEnvoy := Or(m.maxEnvoy, parent.maxEnvoy)))
  }

  /** The maximum that goes with minimum `min`, when `own` is the one set, if any. */
  ghost predicate IsMaxFor(min: string, own: string, max: string) {
    && (own != "" ==> max == own)
    && (own == "" && min == "" ==> max == "")
    && (own == "" && min != "" ==> if Parse(min).Some? then IsImplicitMax(min, max) else max == ImplicitMax(min))
  }

  /** `r` is `m` with its defaults: an HTTP filter if no type is set, and the maximum its minimum implies. */
  ghost predicate HasDefaults(m: Manifest, r: Manifest) {
    && r.filterTypes == (if m.filterTypes == [] then ["http"] else m.filterTypes)
    && IsMaxFor(m.minEnvoy, m.maxEnvoy, r.maxEnvoy)
    && r == m.(filterTypes := r.filterTypes, maxEnvoy := r.maxEnvoy)
  }

  /** `r` is `m` with every version field it lacks taken from its parent, the composer version from the parent's own
      version, and then the maximum its minimum implies. */
  ghost predicate Inherits(m: Manifest, p: Manifest, r: Manifest) {
    && r.version == (if m.version != "" then m.version else p.version)
    && r.composerVersion == (if m.composerVersion != "" then m.composerVersion else p.version)
    && r.minEnvoy == (if m.minEnvoy != "" then m.minEnvoy else p.minEnvoy)
    && IsMaxFor(r.minEnvoy, if m.maxEnvoy != "" then m.maxEnvoy else p.maxEnvoy, r.maxEnvoy)
    && r.name == m.name && r.parent == m.parent && r.filterTypes == m.filterTypes
  }

  lemma FillsMax(min: string)
    ensures min != "" && Parse(min).Some? ==> IsImplicitMax(min, ImplicitMax(min))
  {
    if Parse(min).Some? { ImplicitMaxExceeds(min); }
  }

  /** What is missing is filled, and from where. */
  lemma DefaultsAndInheritance(m: Manifest, parent: Manifest)
    ensures HasDefaults(m, Defaulted(m)) && Inherits(m, parent, Inherit(m, parent))
  {
    FillsMax(m.minEnvoy);
    FillsMax(Or(m.minEnvoy, parent.minEnvoy));
  }

  /** Nothing that was set changes. */
  ghost predicate FillsOnly(m: Manifest, r: Manifest) {
    && r.name == m.name && r.parent == m.parent
    && (m.version != "" ==> r.version == m.version)
    && (m.composerVersion != "" ==> r.composerVersion == m.composerVersion)
    && (m.minEnvoy != "" ==> r.minEnvoy == m.minEnvoy)
    && (m.maxEnvoy != "" ==> r.maxEnvoy == m.maxEnvoy)
    && (m.filterTypes != [] ==> r.filterTypes == m.filterTypes)
  }

  /** Defaults and inheritance only fill in what is missing, doing either twice is doing it once, and what a child that
      set nothing inherits is its parent's versions and bounds. */
  lemma FillingLaws(m: Manifest, parent: Manifest)
    ensures FillsOnly(m, Defaulted(m)) && FillsOnly(m, Inherit(m, parent))
    ensures Defaulted(Defaulted(m)) == Defaulted(m)
    ensures Inherit(Inherit(m, parent), parent) == Inherit(m, parent)
    ensures m.minEnvoy == "" && m.maxEnvoy == "" && Defaulted(parent) == parent ==>
              Inherit(m, parent).minEnvoy == parent.minEnvoy && Inherit(m, parent).maxEnvoy == parent.maxEnvoy
  {
  }

  /** A manifest in memory. */
  class ManifestObject {
    const name: string
    const parent: string
    var version: string
    var composerVersion: string
    var minEnvoy: string
    var maxEnvoy: string
    var filterTypes: seq<string>

    ghost function View(): Manifest
      reads this
    {
      Manifest(name, parent, version, composerVersion, minEnvoy, maxEnvoy, filterTypes)
    }

    constructor (m: Manifest)
      ensures View() == m
    {
      name, parent, version, composerVersion := m.name, m.parent, m.version, m.composerVersion;
      minEnvoy, maxEnvoy, filterTypes := m.minEnvoy, m.maxEnvoy, m.filterTypes;
    }

    method ApplyDefaults()
      modifies this
      ensures View() == Defaulted(old(View()))
    {
      if filterTypes == [] { filterTypes := ["http"]; }
      if minEnvoy != "" && maxEnvoy == "" { maxEnvoy := ImplicitMax(minEnvoy); }
    }

    /** The parent may be the manifest itself. */
    method ResolveVersionsWithParent(p: ManifestObject)
      modifies this
      ensures View() == Inherit(old(View()), old(p.View()))
    {
      if version == "" { version := p.version; }
      if composerVersion == "" { composerVersion := p.version; }
      if minEnvoy == "" { minEnvoy := p.minEnvoy; }
      if maxEnvoy == "" { maxEnvoy := p.maxEnvoy; }
      if minEnvoy != "" && maxEnvoy == "" { maxEnvoy := ImplicitMax(minEnvoy); }
    }
  }
}
