/** Resolving the loaded manifests against their parents, which Go does in an arbitrary map order. */
module ManifestLoading {
  import opened ByteText
  import opened ManifestVersions
  import SortedKeys

  type Table = map<string, Manifest>

  predicate ParentKnown(all: Table, name: string)
    requires name in all
  {
    all[name].parent == "" || all[name].parent in all
  }

  /** One turn of the loop: the manifest inherits from its parent as it stands now. */
  function ResolveOne(all: Table, name: string): Option<Table>
    requires name in all
  {
    if all[name].parent == "" then Some(all)
    else if all[name].parent !in all then None
    else Some(all[name := Inherit(all[name], all[all[name].parent])])
  }

  /** The loop over the names in a given order; None is the error. */
  function ResolveAll(all: Table, order: seq<string>): (r: Option<Table>)
    requires forall k :: k in order ==> k in all
    ensures r.Some? ==> r.value.Keys == all.Keys
    decreases |order|
  {
    if order == [] then Some(all)
    else
      match ResolveOne(all, order[0])
      case None => None
      case Some(next) => ResolveAll(next, order[1..])
  }

  // ----- The loop itself, on manifests in memory. -----

  ghost predicate Separate(objs: map<string, ManifestObject>) {
    forall j, k :: j in objs && k in objs && j != k ==> objs[j] != objs[k]
  }

  ghost function Views(objs: map<string, ManifestObject>): Table
    reads objs.Values
  {
    map k | k in objs :: objs[k].View()
  }

  method ResolveVersions(objs: map<string, ManifestObject>, name: string) returns (ok: bool)
    requires name in objs && Separate(objs)
    modifies objs[name]
    ensures ok <==> ResolveOne(old(Views(objs)), name).Some?
    ensures ok ==> Views(objs) == ResolveOne(old(Views(objs)), name).value
  {
    var m := objs[name];
    if m.parent != "" {
      if m.parent !in objs { return false; }
      m.ResolveVersionsWithParent(objs[m.parent]);
      ghost var all := old(Views(objs));
      assert Views(objs) == all[name := Inherit(all[name], all[all[name].parent])];
    } else {
      assert Views(objs) == old(Views(objs));
    }
    return true;
  }

  method ResolveManifests(objs: map<string, ManifestObject>, order: seq<string>) returns (ok: bool)
    requires Separate(objs) && forall k :: k in order ==> k in objs
    modifies objs.Values
    ensures ok <==> ResolveAll(old(Views(objs)), order).Some?
    ensures ok ==> Views(objs) == ResolveAll(old(Views(objs)), order).value
  {
    assert order[0..] == order;
    for i := 0 to |order|
      invariant ResolveAll(Views(objs), order[i..]) == ResolveAll(old(Views(objs)), order)
    {
      assert order[i..][0] == order[i] && order[i..][1..] == order[i + 1..];
      var done := ResolveVersions(objs, order[i]);
      if !done { return false; }
    }
    assert order[|order|..] == [];
    return true;
  }

  // ----- Every order. -----

  /** Go's walk of a map: every key exactly once. */
  ghost predicate Walk(all: Table, order: seq<string>) {
    && (forall k :: k in order <==> k in all)
    && (forall i, j :: 0 <= i < j < |order| ==> order[i] != order[j])
  }

  predicate HasGrandparent(all: Table, name: string) {
    && name in all && all[name].parent != "" && all[name].parent in all && all[name].parent != name
    && all[all[name].parent].parent != "" && all[all[name].parent].parent in all
  }

  /** Inheriting from the parent before or after it has itself inherited gives the same manifest. */
  predicate Steady(all: Table, name: string)
    requires HasGrandparent(all, name)
  {
    var m := all[name];
    var p := all[m.parent];
    Inherit(m, p) == Inherit(m, Inherit(p, all[p.parent]))
  }

  ghost predicate AllSteady(all: Table) {
    forall k :: HasGrandparent(all, k) ==> Steady(all, k)
  }

  /** Each manifest inherits once, from its parent as loaded. */
  function Settled(all: Table, name: string): Manifest
    requires name in all
  {
    var p := all[name].parent;
    if p != "" && p in all then Inherit(all[name], all[p]) else all[name]
  }

  function AllSettled(all: Table): Table {
    map k | k in all :: Settled(all, k)
  }

  ghost predicate AllKnown(all: Table) {
    forall k :: k in all ==> ParentKnown(all, k)
  }

  /** The state of the loop when the names in `todo` are left. */
  ghost predicate Midway(all: Table, now: Table, todo: seq<string>) {
    && now.Keys == all.Keys
    && (forall k :: k in all ==> now[k].parent == all[k].parent)
    && (forall k :: k in todo ==> k in all && now[k] == all[k])
    && (forall k :: k in all && k !in todo ==> now[k] == Settled(all, k))
    && (forall i, j :: 0 <= i < j < |todo| ==> todo[i] != todo[j])
  }

  /** What a manifest inherits does not depend on whether its parent went first. */
  lemma SettledNow(all: Table, now: Table, todo: seq<string>, name: string)
    requires Midway(all, now, todo) && name in todo && AllKnown(all) && AllSteady(all) && all[name].parent != ""
    ensures all[name].parent in all && Inherit(now[name], now[all[name].parent]) == Settled(all, name)
  {
    var p := all[name].parent;
    assert ParentKnown(all, name);
    if p !in todo {
      assert ParentKnown(all, p);
      if HasGrandparent(all, name) { assert Steady(all, name); }
    }
  }

  lemma InheritKeepsParent(m: Manifest, p: Manifest)
    ensures Inherit(m, p).parent == m.parent
  {
  }

  lemma SteadyStep(all: Table, now: Table, todo: seq<string>)
    requires Midway(all, now, todo) && todo != [] && AllKnown(all) && AllSteady(all)
    ensures ResolveOne(now, todo[0]).Some? && Midway(all, ResolveOne(now, todo[0]).value, todo[1..])
  {
    var name := todo[0];
    assert name in todo && ParentKnown(all, name);
    var p := all[name].parent;
    var next := now;
    if p != "" {
      SettledNow(all, now, todo, name);
      InheritKeepsParent(now[name], now[p]);
      next := now[name := Settled(all, name)];
    }
    assert ResolveOne(now, name) == Some(next);
    forall k | k in all && k !in todo[1..]
      ensures next[k] == Settled(all, k)
    {
      if k != name { assert k !in todo; }
    }
  }

  lemma NothingLeft(all: Table, now: Table)
    requires Midway(all, now, [])
    ensures now == AllSettled(all)
  {
  }

  lemma {:induction false} SteadyRun(all: Table, now: Table, todo: seq<string>)
    requires Midway(all, now, todo) && AllKnown(all) && AllSteady(all)
    ensures ResolveAll(now, todo) == Some(AllSettled(all))
    decreases |todo|
  {
    if todo == [] {
      NothingLeft(all, now);
    } else {
      SteadyStep(all, now, todo);
      SteadyRun(all, ResolveOne(now, todo[0]).value, todo[1..]);
    }
  }

  /** Names and parents never change, so an unknown parent is an error in every order. */
  lemma {:induction false} UnknownParentFails(all: Table, order: seq<string>)
    requires forall k :: k in order ==> k in all
    ensures ResolveAll(all, order).Some? <==> forall k :: k in order ==> ParentKnown(all, k)
    decreases |order|
  {
    if order != [] {
      assert order[0] in order && forall k :: k in order <==> k == order[0] || k in order[1..];
      if ParentKnown(all, order[0]) {
        var next := ResolveOne(all, order[0]).value;
        UnknownParentFails(next, order[1..]);
        assert forall k :: k in order ==> (ParentKnown(next, k) <==> ParentKnown(all, k));
      }
    }
  }

  lemma {:induction false} Untouched(all: Table, order: seq<string>, name: string)
    requires name in all && name !in order && forall k :: k in order ==> k in all
    ensures ResolveAll(all, order).Some? ==> ResolveAll(all, order).value[name] == all[name]
    decreases |order|
  {
    if order != [] && ResolveOne(all, order[0]).Some? {
      assert order[0] in order;
      Untouched(ResolveOne(all, order[0]).value, order[1..], name);
    }
  }

  /** Some order starts with the given names. */
  lemma {:induction false} WalkRest(names: set<string>) returns (order: seq<string>)
    ensures forall k :: k in order <==> k in names
    ensures forall i, j :: 0 <= i < j < |order| ==> order[i] != order[j]
    decreases names
  {
    if names == {} {
      order := [];
    } else {
      var x := SortedKeys.Element(names);
      var rest := WalkRest(names - {x});
      order := [x] + rest;
    }
  }

  lemma ResolveCons(all: Table, name: string, rest: seq<string>)
    requires name in all && (forall k :: k in rest ==> k in all) && ParentKnown(all, name)
    ensures ResolveAll(all, [name] + rest) == ResolveAll(ResolveOne(all, name).value, rest)
  {
    var order := [name] + rest;
    assert order[0] == name && order[1..] == rest;
  }

  lemma ChildFirst(all: Table, name: string) returns (order: seq<string>)
    requires HasGrandparent(all, name) && AllKnown(all)
    ensures Walk(all, order) && ResolveAll(all, order).Some?
    ensures ResolveAll(all, order).value[name] == Inherit(all[name], all[all[name].parent])
  {
    var rest := WalkRest(all.Keys - {name});
    order := [name] + rest;
    UnknownParentFails(all, order);
    assert ParentKnown(all, name);
    ResolveCons(all, name, rest);
    Untouched(ResolveOne(all, name).value, rest, name);
  }

  lemma TwoTurns(all: Table, name: string)
    requires HasGrandparent(all, name)
    ensures var parent := all[name].parent;
            var p := all[parent];
            && ResolveOne(all, parent) == Some(all[parent := Inherit(p, all[p.parent])])
            && ResolveOne(all[parent := Inherit(p, all[p.parent])], name).Some?
            && ResolveOne(all[parent := Inherit(p, all[p.parent])], name).value[name] ==
               Inherit(all[name], Inherit(p, all[p.parent]))
  {
  }

  lemma ParentFirst(all: Table, name: string) returns (order: seq<string>)
    requires HasGrandparent(all, name) && AllKnown(all)
    ensures Walk(all, order) && ResolveAll(all, order).Some?
    ensures var p := all[all[name].parent];
            ResolveAll(all, order).value[name] == Inherit(all[name], Inherit(p, all[p.parent]))
  {
    var parent := all[name].parent;
    var rest := WalkRest(all.Keys - {name, parent});
    order := StartWith(all, parent, name, rest);
    UnknownParentFails(all, order);
    TwoTurns(all, name);
    ResolveCons(all, parent, [name] + rest);
    var one := ResolveOne(all, parent).value;
    ResolveCons(one, name, rest);
    Untouched(ResolveOne(one, name).value, rest, name);
  }

  lemma StartWith(all: Table, a: string, b: string, rest: seq<string>) returns (order: seq<string>)
    requires a in all && b in all && a != b
    requires forall k :: k in rest <==> k in all && k != a && k != b
    requires forall i, j :: 0 <= i < j < |rest| ==> rest[i] != rest[j]
    ensures order == [a] + ([b] + rest) && Walk(all, order)
  {
    order := [a] + ([b] + rest);
    assert forall i :: 2 <= i < |order| ==> order[i] == rest[i - 2];
  }

  ghost predicate OrderIndependent(all: Table) {
    forall a, b :: Walk(all, a) && Walk(all, b) ==> ResolveAll(all, a) == ResolveAll(all, b)
  }

  lemma SteadyIsIndependent(all: Table, order: seq<string>)
    requires Walk(all, order) && AllKnown(all) && AllSteady(all)
    ensures ResolveAll(all, order) == Some(AllSettled(all))
  {
    SteadyRun(all, all, order);
  }

  /** The manifests that come out do not depend on Go's map order if and only if inheriting from each parent gives the
      same before and after that parent has inherited from its own; in particular when every parent is a root. */
  lemma OrderIndependentIff(all: Table)
    requires AllKnown(all)
    ensures OrderIndependent(all) <==> AllSteady(all)
  {
    if AllSteady(all) {
      forall a, b | Walk(all, a) && Walk(all, b)
        ensures ResolveAll(all, a) == ResolveAll(all, b)
      {
        SteadyIsIndependent(all, a);
        SteadyIsIndependent(all, b);
      }
    }
    if OrderIndependent(all) {
      forall k | HasGrandparent(all, k)
        ensures Steady(all, k)
      {
        var a := ChildFirst(all, k);
        var b := ParentFirst(all, k);
        assert ResolveAll(all, a) == ResolveAll(all, b);
      }
    }
  }

  /** Loading fails in every order when a parent is missing, and in no order otherwise. */
  lemma LoadFailsIff(all: Table, order: seq<string>)
    requires Walk(all, order)
    ensures ResolveAll(all, order).None? <==> !AllKnown(all)
  {
    UnknownParentFails(all, order);
  }

  /** When every parent is a root, each manifest gets exactly its own parent's versions, whatever the order. */
  lemma RootParents(all: Table, order: seq<string>)
    requires Walk(all, order) && AllKnown(all)
    requires forall k :: k in all && all[k].parent != "" ==> all[all[k].parent].parent == ""
    ensures ResolveAll(all, order) == Some(AllSettled(all))
  {
    assert AllSteady(all);
    SteadyIsIndependent(all, order);
  }

  /** Three generations where it does depend on the order: whether the child gets the grandparent's bounds is decided
      by whether its parent went first. */
  lemma GrandparentDependsOnOrder(all: Table, child: Manifest, parent: Manifest, root: Manifest)
    requires all == map["child" := child, "parent" := parent, "root" := root]
    requires child.parent == "parent" && parent.parent == "root" && root.parent == ""
    requires child.minEnvoy == "" && child.maxEnvoy == "" && parent.minEnvoy == "" && parent.maxEnvoy == ""
    requires root.minEnvoy == "1.0.0" && root.maxEnvoy == "2.0.0"
    ensures !OrderIndependent(all)
  {
    assert AllKnown(all) && HasGrandparent(all, "child");
    assert !Steady(all, "child");
    OrderIndependentIff(all);
  }

  // ----- The condition, field by field. -----

  /** The grandparent sets something that neither the child nor the parent has. The composer version comes from the
      parent's version. */
  predicate Supplies(m: Manifest, p: Manifest, g: Manifest) {
    || ((m.version == "" || m.composerVersion == "") && p.version == "" && g.version != "")
    || (m.minEnvoy == "" && p.minEnvoy == "" && g.minEnvoy != "")
    || (m.maxEnvoy == "" && p.maxEnvoy == "" && g.maxEnvoy != "")
  }

  predicate IsDefaulted(m: Manifest) {
    Defaulted(m) == m
  }

  /** With its defaults applied, a manifest without a maximum has no minimum that implies one. */
  lemma NoMaxNoImplied(m: Manifest)
    requires IsDefaulted(m) && m.maxEnvoy == "" && m.minEnvoy != ""
    ensures ImplicitMax(m.minEnvoy) == ""
  {
  }

  lemma SameVersionsIff(m: Manifest, p: Manifest, g: Manifest)
    ensures var a, b := Inherit(m, p), Inherit(m, Inherit(p, g));
            && (a.version == b.version && a.composerVersion == b.composerVersion <==>
                !((m.version == "" || m.composerVersion == "") && p.version == "" && g.version != ""))
            && (a.minEnvoy == b.minEnvoy <==> !(m.minEnvoy == "" && p.minEnvoy == "" && g.minEnvoy != ""))
            && a.name == b.name && a.parent == b.parent && a.filterTypes == b.filterTypes
  {
  }

  lemma SameMaxIff(m: Manifest, p: Manifest, g: Manifest)
    requires IsDefaulted(m) && IsDefaulted(p) && IsDefaulted(g)
    requires !(m.minEnvoy == "" && p.minEnvoy == "" && g.minEnvoy != "")
    ensures Inherit(m, p).maxEnvoy == Inherit(m, Inherit(p, g)).maxEnvoy <==>
            !(m.maxEnvoy == "" && p.maxEnvoy == "" && g.maxEnvoy != "")
  {
    if m.maxEnvoy == "" && p.maxEnvoy == "" {
      if m.minEnvoy != "" { NoMaxNoImplied(m); }
      if p.minEnvoy != "" { NoMaxNoImplied(p); }
      if g.minEnvoy != "" && g.maxEnvoy == "" { NoMaxNoImplied(g); }
    }
  }

  /** For manifests with their defaults applied, which is how they are loaded, the order shows exactly when the
      grandparent supplies something. */
  lemma SteadyIff(m: Manifest, p: Manifest, g: Manifest)
    requires IsDefaulted(m) && IsDefaulted(p) && IsDefaulted(g)
    ensures Inherit(m, p) == Inherit(m, Inherit(p, g)) <==> !Supplies(m, p, g)
  {
    var a, b := Inherit(m, p), Inherit(m, Inherit(p, g));
    SameVersionsIff(m, p, g);
    if a.minEnvoy == b.minEnvoy { SameMaxIff(m, p, g); }
    assert a == b <==> && a.name == b.name && a.parent == b.parent && a.filterTypes == b.filterTypes
                       && a.version == b.version && a.composerVersion == b.composerVersion
                       && a.minEnvoy == b.minEnvoy && a.maxEnvoy == b.maxEnvoy;
  }

  /** Loaded manifests resolve to the same in every order if and only if no grandparent supplies something that its
      grandchild and the parent between them lack. */
  lemma OrderIndependentIffNothingSupplied(all: Table)
    requires AllKnown(all) && forall k :: k in all ==> IsDefaulted(all[k])
    ensures OrderIndependent(all) <==>
            forall k :: HasGrandparent(all, k) ==>
              !Supplies(all[k], all[all[k].parent], all[all[all[k].parent].parent])
  {
    OrderIndependentIff(all);
    forall k | HasGrandparent(all, k)
      ensures Steady(all, k) <==> !Supplies(all[k], all[all[k].parent], all[all[all[k].parent].parent])
    {
      SteadyIff(all[k], all[all[k].parent], all[all[all[k].parent].parent]);
    }
  }
}
