/** The keys of a map in increasing order: `sort.Ints` applied to the keys Go collects in any order. */
module SortedKeys {
  lemma EmptyOrInhabited<T>(s: set<T>)
    ensures s == {} || exists x :: x in s
  {
    if forall x :: x !in s { assert s == {}; }
  }

  lemma Element<T>(s: set<T>) returns (x: T)
    requires s != {}
    ensures x in s
  {
    EmptyOrInhabited(s);
    x :| x in s;
  }

  lemma {:induction false} HasLeast(s: set<int>)
    requires s != {}
    ensures exists m :: m in s && forall x :: x in s ==> m <= x
    decreases s
  {
    var x := Element(s);
    var rest := s - {x};
    if rest == {} {
      assert forall y :: y in s ==> y == x || y in rest;
    } else {
      HasLeast(rest);
      var m :| m in rest && forall y :: y in rest ==> m <= y;
      assert forall y :: y in s ==> y == x || y in rest;
      var least := if x <= m then x else m;
      assert least in s;
    }
  }

  function Least(s: set<int>): (m: int)
    requires s != {}
    ensures m in s && forall x :: x in s ==> m <= x
  {
    HasLeast(s);
    var m :| m in s && forall x :: x in s ==> m <= x;
    m
  }

  ghost predicate Increasing(r: seq<int>) {
    forall i, j :: 0 <= i < j < |r| ==> r[i] < r[j]
  }

  function Sorted(s: set<int>): (r: seq<int>)
    ensures Increasing(r)
    ensures forall x :: x in r <==> x in s
    decreases |s|
  {
    if s == {} then []
    else
      var m := Least(s);
      [m] + Sorted(s - {m})
  }

  /** Only one increasing sequence holds exactly the elements of `s`. */
  lemma {:induction false} SortedIsTheOnlyOne(r: seq<int>, s: set<int>)
    requires Increasing(r) && forall x :: x in r <==> x in s
    ensures Sorted(s) == r
    decreases |r|
  {
    if r == [] {
      EmptyOrInhabited(s);
    } else {
      assert r[0] in r;
      var m := Least(s);
      assert m in r;
      forall x
        ensures x in r[1..] <==> x in s - {m}
      {
        if x in s - {m} {
          var i :| 0 <= i < |r| && r[i] == x;
          assert r[1..][i - 1] == x;
        }
      }
      SortedIsTheOnlyOne(r[1..], s - {m});
    }
  }

  ghost predicate Distinct(r: seq<int>) {
    forall i, j :: 0 <= i < j < |r| ==> r[i] != r[j]
  }

  /** Ranging over a map: every key once, in an order nothing is known about. */
  method CollectKeys(keys: set<int>) returns (r: seq<int>)
    ensures Distinct(r) && forall x :: x in r <==> x in keys
  {
    r := [];
    var rest := keys;
    while rest != {}
      invariant Distinct(r) && rest <= keys && forall x :: x in r <==> x in keys - rest
      decreases |rest|
    {
      ghost var some := Element(rest);
      assert some in rest;
      var k :| k in rest;
      assert k !in r && forall i :: 0 <= i < |r| ==> r[i] in r;
      r := r + [k];
      rest := rest - {k};
    }
  }

  /** `sort.Ints` on distinct keys. */
  method SortInts(xs: seq<int>) returns (r: seq<int>)
    requires Distinct(xs)
    ensures Increasing(r) && forall x :: x in r <==> x in xs
  {
    r := [];
    for i := 0 to |xs|
      invariant Increasing(r) && forall x :: x in r <==> x in xs[..i]
    {
      assert xs[..i + 1] == xs[..i] + [xs[i]];
      assert xs[i] !in xs[..i];
      r := Insert(r, xs[i]);
    }
    assert xs[..|xs|] == xs;
  }

  method Insert(s: seq<int>, x: int) returns (r: seq<int>)
    requires Increasing(s) && x !in s
    ensures Increasing(r) && forall y :: y in r <==> y == x || y in s
  {
    var k := 0;
    while k < |s| && s[k] < x
      invariant 0 <= k <= |s| && forall i :: 0 <= i < k ==> s[i] < x
    {
      k := k + 1;
    }
    r := s[..k] + [x] + s[k..];
    assert s == s[..k] + s[k..];
    assert k < |s| ==> s[k] in s && s[k] > x;
  }
}
