/** Choosing the Envoy version to run from the bounds of all extensions. The order of versions is a parameter here;
    `SemverFits` shows that `semver.Compare` is one. */
module VersionBounds {
  import opened ByteText
  import opened Decimal
  import opened Semver
  import opened ManifestVersions

  type Order = (string, string) -> int

  ghost predicate Preorder(cmp: Order) {
    && (forall a: string, b: string :: cmp(b, a) == -cmp(a, b))
    && (forall a: string, b: string, c: string :: cmp(a, b) <= 0 && cmp(b, c) <= 0 ==> cmp(a, c) <= 0)
  }

  predicate IsDev(v: string) {
    v == "dev" || v == "dev-latest"
  }

  /** Strings that are not versions, such as the empty one, come first. */
  ghost predicate VersionOrder(cmp: Order) {
    && Preorder(cmp)
    && (forall a: string :: cmp("", a) <= 0)
  }

  lemma SemverFits()
    ensures VersionOrder(Compare)
  {
    forall a: string, b: string, c: string
      ensures Compare(b, a) == -Compare(a, b)
      ensures Compare(a, b) <= 0 && Compare(b, c) <= 0 ==> Compare(a, c) <= 0
    {
      CompareIsTotalPreorder(a, b, c);
    }
    var none := "";
    assert DigitRun(none) == 0 && Parse(none).None?;
  }

  // ----- Supported versions. -----

  /** The version lies within the manifest's bounds. */
  predicate Within(cmp: Order, m: Manifest, v: string) {
    (m.minEnvoy != "" ==> cmp(m.minEnvoy, v) <= 0) && (m.maxEnvoy != "" ==> cmp(v, m.maxEnvoy) <= 0)
  }

  /** `SupportsEnvoyVersion`: development builds always pass. */
  method SupportsEnvoyVersion(cmp: Order, m: Manifest, v: string) returns (r: bool)
    requires Preorder(cmp)
    ensures r <==> IsDev(v) || Within(cmp, m, v)
  {
    if v == "dev" || v == "dev-latest" { return true; }
    if m.minEnvoy != "" && cmp(v, m.minEnvoy) < 0 { return false; }
    if m.maxEnvoy != "" && cmp(v, m.maxEnvoy) > 0 { return false; }
    return true;
  }

  ghost predicate WithinAll(cmp: Order, ms: seq<Manifest>, v: string) {
    forall i :: 0 <= i < |ms| ==> Within(cmp, ms[i], v)
  }

  predicate DeclaresMin(ms: seq<Manifest>, v: string) {
    v != "" && exists i :: 0 <= i < |ms| && ms[i].minEnvoy == v
  }

  predicate DeclaresMax(ms: seq<Manifest>, v: string) {
    v != "" && exists i :: 0 <= i < |ms| && ms[i].maxEnvoy == v
  }

  /** Some minimum lies above some maximum. */
  ghost predicate Infeasible(cmp: Order, ms: seq<Manifest>) {
    exists lo, hi :: DeclaresMin(ms, lo) && DeclaresMax(ms, hi) && cmp(lo, hi) > 0
  }

  lemma WithinAllIff(cmp: Order, ms: seq<Manifest>, v: string)
    ensures WithinAll(cmp, ms, v) <==>
            && (forall lo :: DeclaresMin(ms, lo) ==> cmp(lo, v) <= 0)
            && (forall hi :: DeclaresMax(ms, hi) ==> cmp(v, hi) <= 0)
  {
    if (forall lo :: DeclaresMin(ms, lo) ==> cmp(lo, v) <= 0) &&
       (forall hi :: DeclaresMax(ms, hi) ==> cmp(v, hi) <= 0) {
      forall i | 0 <= i < |ms|
        ensures Within(cmp, ms[i], v)
      {
        assert ms[i].minEnvoy != "" ==> DeclaresMin(ms, ms[i].minEnvoy);
        assert ms[i].maxEnvoy != "" ==> DeclaresMax(ms, ms[i].maxEnvoy);
      }
    }
  }

  // ----- Resolution. -----

  const NO_MIN := "0.0.0"
  const NO_MAX := "9999.9999.9999"

  /** Some minimum counts: it lies above the value the scan starts from. */
  ghost predicate SomeMinAbove(cmp: Order, ms: seq<Manifest>) {
    exists lo :: DeclaresMin(ms, lo) && cmp(lo, NO_MIN) > 0
  }

  ghost predicate SomeMaxBelow(cmp: Order, ms: seq<Manifest>) {
    exists hi :: DeclaresMax(ms, hi) && cmp(hi, NO_MAX) < 0
  }

  /** The bounds conflict, and both sides have a bound inside the sentinels. */
  ghost predicate Fails(cmp: Order, ms: seq<Manifest>) {
    Infeasible(cmp, ms) && SomeMinAbove(cmp, ms) && SomeMaxBelow(cmp, ms)
  }

  ghost predicate IsGreatestMin(cmp: Order, ms: seq<Manifest>, h: string) {
    DeclaresMin(ms, h) && forall lo :: DeclaresMin(ms, lo) ==> cmp(lo, h) <= 0
  }

  ghost predicate IsLeastMax(cmp: Order, ms: seq<Manifest>, l: string) {
    DeclaresMax(ms, l) && forall hi :: DeclaresMax(ms, hi) ==> cmp(l, hi) <= 0
  }

  method HighestMinEnvoyVersion(cmp: Order, ms: seq<Manifest>) returns (r: string)
    requires Preorder(cmp)
    ensures r != "" <==> SomeMinAbove(cmp, ms)
    ensures r != "" ==> IsGreatestMin(cmp, ms, r)
  {
    var highest := NO_MIN;
    for i := 0 to |ms|
      invariant highest == NO_MIN || (DeclaresMin(ms, highest) && cmp(highest, NO_MIN) > 0)
      invariant forall j :: 0 <= j < i && ms[j].minEnvoy != "" ==> cmp(ms[j].minEnvoy, highest) <= 0
    {
      if ms[i].minEnvoy != "" && cmp(ms[i].minEnvoy, highest) > 0 {
        highest := ms[i].minEnvoy;
      }
    }
    if highest == NO_MIN { return ""; }
    return highest;
  }

  method LowestMaxEnvoyVersion(cmp: Order, ms: seq<Manifest>) returns (r: string)
    requires Preorder(cmp)
    ensures r != "" <==> SomeMaxBelow(cmp, ms)
    ensures r != "" ==> IsLeastMax(cmp, ms, r)
  {
    var lowest := NO_MAX;
    for i := 0 to |ms|
      invariant lowest == NO_MAX || (DeclaresMax(ms, lowest) && cmp(lowest, NO_MAX) < 0)
      invariant forall j :: 0 <= j < i && ms[j].maxEnvoy != "" ==> cmp(lowest, ms[j].maxEnvoy) <= 0
    {
      if ms[i].maxEnvoy != "" && cmp(ms[i].maxEnvoy, lowest) < 0 {
        lowest := ms[i].maxEnvoy;
      }
    }
    if lowest == NO_MAX { return ""; }
    return lowest;
  }

  /** `ResolveMinimumCompatibleEnvoyVersion`; None is the error and "" leaves the version open. It fails exactly when
      the bounds are infeasible and both sides have a bound inside the sentinels. A version it returns lies within all
      bounds exactly when the bounds are feasible; no smaller version does when a minimum is in play, and no greater
      one otherwise. */
  method ResolveMinimumCompatibleEnvoyVersion(cmp: Order, ms: seq<Manifest>) returns (r: Option<string>)
    requires Preorder(cmp)
    ensures r.None? <==> Fails(cmp, ms)
    ensures r == Some("") <==> !SomeMinAbove(cmp, ms) && !SomeMaxBelow(cmp, ms)
    ensures r.Some? && r.value != "" ==> (WithinAll(cmp, ms, r.value) <==> !Infeasible(cmp, ms))
    ensures r.Some? && SomeMinAbove(cmp, ms) ==> forall v :: WithinAll(cmp, ms, v) ==> cmp(r.value, v) <= 0
    ensures r.Some? && !SomeMinAbove(cmp, ms) && SomeMaxBelow(cmp, ms) ==>
              forall v :: WithinAll(cmp, ms, v) ==> cmp(v, r.value) <= 0
  {
    var highestMin := HighestMinEnvoyVersion(cmp, ms);
    var lowestMax := LowestMaxEnvoyVersion(cmp, ms);
    if highestMin != "" { MinDecides(cmp, ms, highestMin); }
    if lowestMax != "" { MaxDecides(cmp, ms, lowestMax); }
    if highestMin != "" && lowestMax != "" && cmp(highestMin, lowestMax) > 0 { return None; }
    if highestMin != "" {
      if lowestMax != "" { BothDecide(cmp, ms, highestMin, lowestMax); }
      return Some(highestMin);
    }
    if lowestMax != "" { return Some(lowestMax); }
    return Some("");
  }

  lemma MinDecides(cmp: Order, ms: seq<Manifest>, h: string)
    requires Preorder(cmp) && IsGreatestMin(cmp, ms, h)
    ensures WithinAll(cmp, ms, h) <==> !Infeasible(cmp, ms)
    ensures forall v :: WithinAll(cmp, ms, v) ==> cmp(h, v) <= 0
  {
    forall v | WithinAll(cmp, ms, v)
      ensures cmp(h, v) <= 0
    {
      WithinAllIff(cmp, ms, v);
    }
    WithinAllIff(cmp, ms, h);
  }

  lemma MaxDecides(cmp: Order, ms: seq<Manifest>, l: string)
    requires Preorder(cmp) && IsLeastMax(cmp, ms, l)
    ensures WithinAll(cmp, ms, l) <==> !Infeasible(cmp, ms)
    ensures forall v :: WithinAll(cmp, ms, v) ==> cmp(v, l) <= 0
  {
    forall v | WithinAll(cmp, ms, v)
      ensures cmp(v, l) <= 0
    {
      WithinAllIff(cmp, ms, v);
    }
    WithinAllIff(cmp, ms, l);
  }

  lemma BothDecide(cmp: Order, ms: seq<Manifest>, h: string, l: string)
    requires Preorder(cmp) && IsGreatestMin(cmp, ms, h) && IsLeastMax(cmp, ms, l)
    ensures Infeasible(cmp, ms) <==> cmp(h, l) > 0
  {
  }

  // ----- Versions. -----

  /** The string is a version: it comes after those that are not. */
  predicate IsVersion(cmp: Order, v: string) {
    cmp(v, "") > 0
  }

  ghost predicate SomeVersionFits(cmp: Order, ms: seq<Manifest>) {
    exists v :: IsVersion(cmp, v) && WithinAll(cmp, ms, v)
  }

  /** Some version fits if and only if no bounds conflict and every declared maximum is a version. */
  lemma VersionFitsIff(cmp: Order, ms: seq<Manifest>)
    requires VersionOrder(cmp) && IsVersion(cmp, NO_MIN)
    ensures SomeVersionFits(cmp, ms) <==>
            !Infeasible(cmp, ms) && forall hi :: DeclaresMax(ms, hi) ==> IsVersion(cmp, hi)
  {
    forall v | WithinAll(cmp, ms, v)
      ensures !Infeasible(cmp, ms) && forall hi :: DeclaresMax(ms, hi) ==> cmp(v, hi) <= 0
    {
      WithinAllIff(cmp, ms, v);
    }
    if !Infeasible(cmp, ms) && forall hi :: DeclaresMax(ms, hi) ==> IsVersion(cmp, hi) {
      var h := GreatestMin(cmp, ms, |ms|);
      var l := LeastMax(cmp, ms, |ms|);
      var v := if h != "" then h else if l != "" then l else NO_MIN;
      WithinAllIff(cmp, ms, v);
      assert WithinAll(cmp, ms, v);
    }
  }

  /** The greatest declared minimum, or the empty string when none is a version. */
  lemma {:induction false} GreatestMin(cmp: Order, ms: seq<Manifest>, n: nat) returns (v: string)
    requires n <= |ms| && VersionOrder(cmp)
    ensures v == "" || (DeclaresMin(ms, v) && IsVersion(cmp, v))
    ensures forall i :: 0 <= i < n && ms[i].minEnvoy != "" ==> cmp(ms[i].minEnvoy, v) <= 0
    decreases n
  {
    if n == 0 {
      v := "";
    } else {
      v := GreatestMin(cmp, ms, n - 1);
      var m := ms[n - 1].minEnvoy;
      if m != "" && cmp(m, v) > 0 { v := m; }
    }
  }

  /** The least declared maximum, or the empty string when there is none. */
  lemma {:induction false} LeastMax(cmp: Order, ms: seq<Manifest>, n: nat) returns (v: string)
    requires n <= |ms| && Preorder(cmp)
    ensures v == "" || DeclaresMax(ms, v)
    ensures forall i :: 0 <= i < n && ms[i].maxEnvoy != "" ==> v != "" && cmp(v, ms[i].maxEnvoy) <= 0
    decreases n
  {
    if n == 0 {
      v := "";
    } else {
      v := LeastMax(cmp, ms, n - 1);
      var m := ms[n - 1].maxEnvoy;
      if m != "" && (v == "" || cmp(m, v) < 0) { v := m; }
    }
  }

  ghost predicate ValidBounds(cmp: Order, ms: seq<Manifest>) {
    && (forall lo :: DeclaresMin(ms, lo) ==> IsVersion(cmp, lo))
    && (forall hi :: DeclaresMax(ms, hi) ==> IsVersion(cmp, hi))
  }

  /** For valid bounds, resolution fails exactly when no version fits all of them, if and only if conflicting bounds
      reach inside the sentinels on both sides. */
  lemma FailureIsRightIff(cmp: Order, ms: seq<Manifest>)
    requires VersionOrder(cmp) && IsVersion(cmp, NO_MIN) && ValidBounds(cmp, ms)
    ensures (Fails(cmp, ms) <==> !SomeVersionFits(cmp, ms)) <==>
            (Infeasible(cmp, ms) ==> SomeMinAbove(cmp, ms) && SomeMaxBelow(cmp, ms))
  {
    VersionFitsIff(cmp, ms);
  }

  /** Every declared bound lies strictly between the sentinels. */
  ghost predicate Inside(cmp: Order, ms: seq<Manifest>) {
    && (forall lo :: DeclaresMin(ms, lo) ==> cmp(NO_MIN, lo) < 0 && cmp(lo, NO_MAX) < 0)
    && (forall hi :: DeclaresMax(ms, hi) ==> cmp(NO_MIN, hi) < 0 && cmp(hi, NO_MAX) < 0)
  }

  lemma InsideIsRight(cmp: Order, ms: seq<Manifest>)
    requires VersionOrder(cmp) && IsVersion(cmp, NO_MIN) && Inside(cmp, ms)
    ensures Fails(cmp, ms) <==> !SomeVersionFits(cmp, ms)
  {
    FailureIsRightIff(cmp, ms);
  }

  /** With the bounds strictly between the sentinels, resolution fails exactly when no version in the sense of SemVer is
      supported by every manifest. */
  lemma FailsIffNoVersionFits(ms: seq<Manifest>)
    requires Inside(Compare, ms)
    ensures Fails(Compare, ms) <==> !exists v :: Parse(v).Some? && WithinAll(Compare, ms, v)
  {
    SemverFits();
    VersionsAreParsed();
    SentinelsAre();
    ReleaseIs(0, 0, 0);
    InsideIsRight(Compare, ms);
  }

  /** And otherwise what it returns lies within all bounds. */
  lemma ReturnedVersionFits(ms: seq<Manifest>)
    requires Inside(Compare, ms) && !Fails(Compare, ms)
    ensures !Infeasible(Compare, ms)
    ensures forall h :: IsGreatestMin(Compare, ms, h) ==> WithinAll(Compare, ms, h)
    ensures forall l :: IsLeastMax(Compare, ms, l) ==> WithinAll(Compare, ms, l)
  {
    SemverFits();
    InsideFits(Compare, ms);
  }

  lemma InsideFits(cmp: Order, ms: seq<Manifest>)
    requires Preorder(cmp) && Inside(cmp, ms) && !Fails(cmp, ms)
    ensures !Infeasible(cmp, ms)
    ensures forall h :: IsGreatestMin(cmp, ms, h) ==> WithinAll(cmp, ms, h)
    ensures forall l :: IsLeastMax(cmp, ms, l) ==> WithinAll(cmp, ms, l)
  {
    forall h | IsGreatestMin(cmp, ms, h)
      ensures WithinAll(cmp, ms, h) <==> !Infeasible(cmp, ms)
    {
      MinDecides(cmp, ms, h);
    }
    forall l | IsLeastMax(cmp, ms, l)
      ensures WithinAll(cmp, ms, l) <==> !Infeasible(cmp, ms)
    {
      MaxDecides(cmp, ms, l);
    }
  }

  lemma VersionsAreParsed()
    ensures forall v: string :: IsVersion(Compare, v) <==> Parse(v).Some?
  {
    var none := "";
    assert DigitRun(none) == 0 && Parse(none).None?;
  }

  // ----- A conflict outside the sentinels. -----

  function Release(a: nat, b: nat, c: nat): string {
    Dec(a) + ("." + Dec(b) + ("." + Dec(c) + []))
  }

  lemma ReleaseIs(a: nat, b: nat, c: nat)
    ensures Parse(Release(a, b, c)) == Some(Version(a, b, c, []))
  {
    DecHasNoLeadingZero(a);
    DecHasNoLeadingZero(b);
    DecHasNoLeadingZero(c);
    ValueOfDec(a);
    ValueOfDec(b);
    ValueOfDec(c);
    ReleaseParses(Dec(a), Dec(b), Dec(c), []);
  }

  lemma SentinelsAre()
    ensures NO_MIN == Release(0, 0, 0) && NO_MAX == Release(9999, 9999, 9999)
  {
    assert Dec(99) == "99" && Dec(999) == Dec(99) + "9" && Dec(9999) == Dec(999) + "9";
  }

  lemma BeyondSentinel(v: string)
    requires v == Release(10000, 0, 0)
    ensures Compare(v, NO_MAX) > 0 && Compare(v, NO_MIN) > 0
  {
    SentinelsAre();
    ReleaseIs(10000, 0, 0);
    ReleaseIs(0, 0, 0);
    ReleaseIs(9999, 9999, 9999);
  }

  lemma Unseen(cmp: Order, a: Manifest, b: Manifest)
    requires Preorder(cmp) && a.minEnvoy != "" && a.maxEnvoy == "" && b.minEnvoy == "" && b.maxEnvoy == NO_MAX
    requires cmp(a.minEnvoy, NO_MIN) > 0 && cmp(a.minEnvoy, NO_MAX) > 0
    ensures var ms := [a, b];
            Infeasible(cmp, ms) && SomeMinAbove(cmp, ms) && !SomeMaxBelow(cmp, ms) && !Within(cmp, b, a.minEnvoy)
  {
    var ms := [a, b];
    assert ms[0].minEnvoy == a.minEnvoy && ms[1].maxEnvoy == b.maxEnvoy;
    assert DeclaresMin(ms, a.minEnvoy) && DeclaresMax(ms, b.maxEnvoy);
    assert cmp(NO_MAX, NO_MAX) == 0;
  }

  /** The check misses a conflict beyond the upper sentinel: an extension that wants at least 10000.0.0 and one that
      allows at most 9999.9999.9999 get 10000.0.0, which the second does not support. */
  lemma MissedConflict(a: Manifest, b: Manifest)
    requires a.minEnvoy == Release(10000, 0, 0) && a.maxEnvoy == "" && b.minEnvoy == "" && b.maxEnvoy == NO_MAX
    ensures var ms := [a, b];
            && Infeasible(Compare, ms) && SomeMinAbove(Compare, ms) && !SomeMaxBelow(Compare, ms)
            && !Within(Compare, b, a.minEnvoy)
  {
    SemverFits();
    BeyondSentinel(a.minEnvoy);
    Unseen(Compare, a, b);
  }
}
