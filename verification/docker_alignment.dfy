/** The order of extensions inside the container: rewriting the UI's command line for Docker gives the UI's command line
    for the mounted extensions, so everything proved of the first holds of the second. */
module DockerAlignment {
  import opened ByteText
  import opened CliArgs
  import opened EnvoyConfig
  import opened CliAlignment
  import opened DockerArgs
  import opened DockerLaws

  /** The extension as the container sees it. */
  function Mounted(debug: bool, abs: string -> Option<string>, e: Ext): Ext
    requires IsLocal(e) ==> abs(e.localPath).Some?
  {
    if IsLocal(e) then e.(localPath := Target(debug, abs(e.localPath).value)) else e
  }

  function AllMounted(debug: bool, abs: string -> Option<string>, exts: seq<Ext>): (r: seq<Ext>)
    requires PathsResolve(abs, exts)
    ensures |r| == |exts| && forall i :: 0 <= i < |exts| ==> r[i] == Mounted(debug, abs, exts[i])
    decreases |exts|
  {
    if exts == [] then [] else [Mounted(debug, abs, exts[0])] + AllMounted(debug, abs, exts[1..])
  }

  /** No value would be taken for a flag that the rewriting treats specially. */
  predicate OrdinaryValues(debug: bool, e: Ext) {
    (!IsLocal(e) ==> Ordinary(debug, e.name)) && Ordinary(debug, e.config) && Ordinary(debug, e.filterType)
  }

  lemma OptionsAreOrdinary(debug: bool)
    ensures Ordinary(debug, "--config") && Ordinary(debug, "--filter-type")
  {
    var c, t := "--config", "--filter-type";
    assert '=' !in c && c[2] == 'c' && '=' !in t && t[2] == 'f';
  }

  /** One extension's flag and value are rewritten to those of the mounted extension. */
  lemma ExtArgMoves(debug: bool, abs: string -> Option<string>, e: Ext, rest: seq<string>)
    requires OrdinaryValues(debug, e) && Absolute(abs) && (IsLocal(e) ==> abs(e.localPath).Some?)
    ensures Process(debug, abs, ExtArg(e) + rest) == ExtArg(Mounted(debug, abs, e)) + Process(debug, abs, rest)
  {
    if IsLocal(e) {
      LocalStep(debug, abs, e.localPath);
      TargetIsAbsolute(debug, abs(e.localPath).value);
      Consume(debug, abs, ExtArg(e), ExtArg(Mounted(debug, abs, e)), rest);
    } else {
      var flag := "--extension";
      ExtensionIsOrdinary(debug);
      MoveRemote(debug, abs, flag, e.name, rest);
    }
  }

  lemma {:induction false} ExtArgsMove(debug: bool, abs: string -> Option<string>, exts: seq<Ext>, rest: seq<string>)
    requires Absolute(abs) && PathsResolve(abs, exts) && forall e :: e in exts ==> OrdinaryValues(debug, e)
    ensures Process(debug, abs, FlatMap(ExtArg, exts) + rest) ==
            FlatMap(ExtArg, AllMounted(debug, abs, exts)) + Process(debug, abs, rest)
    decreases |exts|
  {
    if exts == [] {
      assert FlatMap(ExtArg, exts) + rest == rest;
    } else {
      var e, later := exts[0], FlatMap(ExtArg, exts[1..]);
      assert e in exts && OrdinaryValues(debug, e);
      ExtArgsMove(debug, abs, exts[1..], rest);
      AppendAssociative(ExtArg(e), later, rest);
      ExtArgMoves(debug, abs, e, later + rest);
      var moved := AllMounted(debug, abs, exts);
      assert moved[0] == Mounted(debug, abs, e) && moved[1..] == AllMounted(debug, abs, exts[1..]);
      AppendAssociative(ExtArg(moved[0]), FlatMap(ExtArg, moved[1..]), Process(debug, abs, rest));
    }
  }

  /** Pairs of ordinary words that do not mention the path stay as they are. */
  lemma {:induction false} PairsStay(debug: bool, abs: string -> Option<string>, f: Ext -> seq<string>, exts: seq<Ext>,
                                     rest: seq<string>)
    requires PathsResolve(abs, exts)
    requires forall e :: e in exts ==> |f(e)| == 2 && Ordinary(debug, f(e)[0]) && Ordinary(debug, f(e)[1])
    requires forall e: Ext, path: string :: f(e.(localPath := path)) == f(e)
    ensures Process(debug, abs, FlatMap(f, exts) + rest) ==
            FlatMap(f, AllMounted(debug, abs, exts)) + Process(debug, abs, rest)
    decreases |exts|
  {
    if exts == [] {
      assert FlatMap(f, exts) + rest == rest;
    } else {
      var e, later := exts[0], FlatMap(f, exts[1..]);
      assert e in exts && f(e) == [f(e)[0], f(e)[1]];
      PairsStay(debug, abs, f, exts[1..], rest);
      AppendAssociative(f(e), later, rest);
      MoveRemote(debug, abs, f(e)[0], f(e)[1], later + rest);
      var moved := AllMounted(debug, abs, exts);
      assert moved[0] == Mounted(debug, abs, e) && moved[1..] == AllMounted(debug, abs, exts[1..]);
      assert f(moved[0]) == f(e);
      AppendAssociative(f(e), FlatMap(f, moved[1..]), Process(debug, abs, rest));
    }
  }

  lemma ConfigsStay(debug: bool, abs: string -> Option<string>, exts: seq<Ext>, rest: seq<string>)
    requires PathsResolve(abs, exts) && forall e :: e in exts ==> OrdinaryValues(debug, e)
    ensures Process(debug, abs, FlatMap(ConfigArg, exts) + rest) ==
            FlatMap(ConfigArg, AllMounted(debug, abs, exts)) + Process(debug, abs, rest)
  {
    OptionsAreOrdinary(debug);
    forall e | e in exts
      ensures |ConfigArg(e)| == 2 && Ordinary(debug, ConfigArg(e)[0]) && Ordinary(debug, ConfigArg(e)[1])
    {
      assert OrdinaryValues(debug, e);
    }
    PairsStay(debug, abs, ConfigArg, exts, rest);
  }

  lemma FilterTypePairsStay(debug: bool, abs: string -> Option<string>, exts: seq<Ext>)
    requires PathsResolve(abs, exts) && forall e :: e in exts ==> OrdinaryValues(debug, e)
    ensures Process(debug, abs, FlatMap(FilterTypeArg, exts)) ==
            FlatMap(FilterTypeArg, AllMounted(debug, abs, exts))
  {
    var words, kept, none := FlatMap(FilterTypeArg, exts), FlatMap(FilterTypeArg, AllMounted(debug, abs, exts)), [];
    OptionsAreOrdinary(debug);
    forall e | e in exts
      ensures |FilterTypeArg(e)| == 2 && Ordinary(debug, FilterTypeArg(e)[0]) && Ordinary(debug, FilterTypeArg(e)[1])
    {
      assert OrdinaryValues(debug, e);
    }
    PairsStay(debug, abs, FilterTypeArg, exts, none);
    assert words + none == words && kept + none == kept;
  }

  lemma FilterTypesStay(debug: bool, abs: string -> Option<string>, exts: seq<Ext>)
    requires PathsResolve(abs, exts) && forall e :: e in exts ==> OrdinaryValues(debug, e)
    ensures Process(debug, abs, FilterTypeArgs(exts)) == FilterTypeArgs(AllMounted(debug, abs, exts))
  {
    var moved := AllMounted(debug, abs, exts);
    assert forall i :: 0 <= i < |exts| ==> moved[i].filterType == exts[i].filterType;
    if HasFilterType(exts) { FilterTypePairsStay(debug, abs, exts); }
  }

  lemma TailStays(debug: bool, abs: string -> Option<string>, exts: seq<Ext>)
    requires PathsResolve(abs, exts) && forall e :: e in exts ==> OrdinaryValues(debug, e)
    ensures Process(debug, abs, Tail(exts)) == Tail(AllMounted(debug, abs, exts))
  {
    ConfigsStay(debug, abs, exts, FilterTypeArgs(exts));
    FilterTypesStay(debug, abs, exts);
  }

  /** The rewritten command line is the one the UI would build for the mounted extensions. */
  lemma RewrittenIsMounted(debug: bool, abs: string -> Option<string>, before: seq<Item>, exts: seq<Ext>)
    requires Absolute(abs) && AllValid(debug, abs, before) && PathsResolve(abs, exts)
    requires forall e :: e in exts ==> OrdinaryValues(debug, e)
    ensures Process(debug, abs, Argv(AllWords(before), exts)) ==
            Argv(AllWords(AllMoved(debug, abs, before)), AllMounted(debug, abs, exts))
  {
    RewritingIsItemwise(debug, abs, before, FlatMap(ExtArg, exts) + Tail(exts));
    ExtArgsMove(debug, abs, exts, Tail(exts));
    TailStays(debug, abs, exts);
  }

  lemma OneWordIsClean(arg: string)
    requires |arg| > 7 && arg[2] == 'l' && (arg[3] == 'i' || arg[7] == '=')
    ensures !IsFlag(arg)
  {
    var local, ext, config, types := "--local", "--extension", "--config", "--filter-type";
    assert |local| == 7 && ext[2] == 'e' && config[2] == 'c' && types[2] == 'f';
  }

  lemma MovedWordsAreClean(debug: bool, abs: string -> Option<string>, item: Item)
    requires ValidItem(debug, abs, item) && forall w :: w in Words(item) ==> !IsFlag(w)
    ensures forall x, w :: x in Moved(debug, abs, item) && w in Words(x) ==> !IsFlag(w)
  {
    assert Words(item)[0] in Words(item);
    var moved := Moved(debug, abs, item);
    if item.Tls? || item.TlsEq? || item.LocalEq? {
      assert |Words(moved[0])| == 1;
      OneWordIsClean(Words(moved[0])[0]);
    }
  }

  lemma {:induction false} MovedPrefixIsClean(debug: bool, abs: string -> Option<string>, items: seq<Item>)
    requires AllValid(debug, abs, items) && forall w :: w in AllWords(items) ==> !IsFlag(w)
    ensures forall w :: w in AllWords(AllMoved(debug, abs, items)) ==> !IsFlag(w)
    decreases |items|
  {
    if items != [] {
      var item, rest := items[0], items[1..];
      assert item in items;
      assert forall w :: w in AllWords(items) <==> w in Words(item) || w in AllWords(rest);
      MovedPrefixIsClean(debug, abs, rest);
      MovedWordsAreClean(debug, abs, item);
      var moved, more := Moved(debug, abs, item), AllMoved(debug, abs, rest);
      WordsOfMoved(moved, more);
      if moved != [] { SingleItem(moved[0]); }
      assert moved == [] || moved == [moved[0]];
    }
  }

  lemma MountedIsClean(debug: bool, abs: string -> Option<string>, e: Ext)
    requires Absolute(abs) && Clean(e) && (IsLocal(e) ==> abs(e.localPath).Some?)
    ensures Clean(Mounted(debug, abs, e))
  {
    if IsLocal(e) { TargetIsAbsolute(debug, abs(e.localPath).value); }
  }

  lemma MountedArgsAreClean(debug: bool, abs: string -> Option<string>, before: seq<Item>, exts: seq<Ext>)
    requires Absolute(abs) && AllValid(debug, abs, before) && PathsResolve(abs, exts)
    requires CleanArgs(AllWords(before), exts)
    ensures CleanArgs(AllWords(AllMoved(debug, abs, before)), AllMounted(debug, abs, exts))
  {
    MovedPrefixIsClean(debug, abs, before);
    var moved := AllMounted(debug, abs, exts);
    forall e | e in moved
      ensures Clean(e)
    {
      var i :| 0 <= i < |moved| && moved[i] == e;
      assert exts[i] in exts;
      MountedIsClean(debug, abs, exts[i]);
    }
  }

  /** End to end inside Docker: the container sorts the mounted extensions into the UI's order, and pairs the `i`-th
      with the UI's config `i` and filter type `i`. */
  lemma EndToEndInDocker(debug: bool, abs: string -> Option<string>, inside: string -> Option<string>,
                         before: seq<Item>, exts: seq<Ext>, mounted: seq<Ext>, downloaded: seq<Manifest>,
                         local: seq<Manifest>, slots: seq<Option<Manifest>>, g: Generators, rest: Params, i: nat)
    requires Absolute(abs) && AllValid(debug, abs, before) && PathsResolve(abs, exts)
    requires CleanArgs(AllWords(before), exts) && forall e :: e in exts ==> OrdinaryValues(debug, e)
    requires mounted == AllMounted(debug, abs, exts)
    requires PathsResolve(inside, mounted) && Loaded(inside, mounted, downloaded, local)
    requires forall e :: e in mounted ==> !Shadowed(inside, downloaded, e)
    requires Filled(inside, downloaded + local, ExtMarks(inside, mounted), slots) && i < |exts|
    ensures RunsInOrder(inside, Process(debug, abs, Argv(AllWords(before), exts)), mounted, downloaded + local, slots,
                        g, rest, i)
    ensures mounted[i].config == exts[i].config && mounted[i].filterType == exts[i].filterType
  {
    RewrittenIsMounted(debug, abs, before, exts);
    MountedArgsAreClean(debug, abs, before, exts);
    EndToEnd(inside, AllWords(AllMoved(debug, abs, before)), mounted, downloaded, local, slots, g, rest, i);
  }

  lemma {:induction false} LocalsAt(exts: seq<Ext>)
    ensures forall path :: path in Locals(exts) <==>
              exists i :: 0 <= i < |exts| && IsLocal(exts[i]) && exts[i].localPath == path
    decreases |exts|
  {
    if exts != [] {
      LocalsAt(exts[1..]);
      forall path
        ensures path in Locals(exts) <==> exists i :: 0 <= i < |exts| && IsLocal(exts[i]) && exts[i].localPath == path
      {
        if path in Locals(exts[1..]) {
          var i :| 0 <= i < |exts[1..]| && IsLocal(exts[1..][i]) && exts[1..][i].localPath == path;
          assert exts[i + 1] == exts[1..][i];
        }
        if exists i :: 1 <= i < |exts| && IsLocal(exts[i]) && exts[i].localPath == path {
          var i :| 1 <= i < |exts| && IsLocal(exts[i]) && exts[i].localPath == path;
          assert exts[1..][i - 1] == exts[i];
        }
      }
    }
  }

  /** Which host directory is behind an extension in the container. When no two local extensions share a base name, the
      volume mounted at the path of extension `i` is that of its own host path, and no other volume is mounted there. */
  lemma OwnMountOnly(abs: string -> Option<string>, exts: seq<Ext>, i: nat, k: nat)
    requires PathsResolve(abs, exts) && !NamesClash(ExtMarks(abs, exts))
    requires i < |exts| && IsLocal(exts[i]) && k < |Locals(exts)| && Mounts(abs, Locals(exts)).Some?
    ensures exts[i].localPath in Locals(exts)
    ensures abs(Locals(exts)[k]).Some? && |Mounts(abs, Locals(exts)).value| == 2 * |Locals(exts)|
    ensures var host, target := abs(Locals(exts)[k]).value, Target(false, abs(Locals(exts)[k]).value);
            && Mounts(abs, Locals(exts)).value[2 * k + 1] == host + ":" + target
            && (target == AllMounted(false, abs, exts)[i].localPath <==> abs(exts[i].localPath) == Some(host))
  {
    LocalsAt(exts);
    MountOf(abs, Locals(exts), k);
    assert exts[i] in exts;
    var path := Locals(exts)[k];
    assert path in Locals(exts);
    var j :| 0 <= j < |exts| && IsLocal(exts[j]) && exts[j].localPath == path;
    var marks := ExtMarks(abs, exts);
    assert exts[j] in exts && marks[j] == Local(abs(path).value) && marks[i] == Local(abs(exts[i].localPath).value);
    TargetInjective(abs(path).value, abs(exts[i].localPath).value);
  }
}
