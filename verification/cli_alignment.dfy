/** The round trip of extension order: what the UI lists is what the CLI runs, position by position. */
module CliAlignment {
  import opened ByteText
  import opened CliArgs
  import opened EnvoyConfig

  // ----- The recorded marks are the extensions. -----

  predicate NoFlag(args: seq<string>) {
    forall a :: a in args ==> !IsExtFlag(a)
  }

  function Value(e: Ext): string {
    if IsLocal(e) then e.localPath else e.name
  }

  /** No value given for an extension is itself `--local` or `--extension`. */
  predicate PlainValues(e: Ext) {
    !IsExtFlag(Value(e)) && !IsExtFlag(e.config) && !IsExtFlag(e.filterType)
  }

  ghost predicate NoStray(prefix: seq<string>, exts: seq<Ext>) {
    NoFlag(prefix) && forall e :: e in exts ==> PlainValues(e)
  }

  predicate PathsResolve(abs: string -> Option<string>, exts: seq<Ext>) {
    forall e :: e in exts && IsLocal(e) ==> abs(e.localPath).Some?
  }

  function ExtMark(abs: string -> Option<string>, e: Ext): Mark
    requires IsLocal(e) ==> abs(e.localPath).Some?
  {
    if IsLocal(e) then Local(abs(e.localPath).value) else Remote(e.name)
  }

  function ExtMarks(abs: string -> Option<string>, exts: seq<Ext>): (r: seq<Mark>)
    requires PathsResolve(abs, exts)
    ensures |r| == |exts| && forall i :: 0 <= i < |exts| ==> r[i] == ExtMark(abs, exts[i])
    decreases |exts|
  {
    if exts == [] then [] else [ExtMark(abs, exts[0])] + ExtMarks(abs, exts[1..])
  }

  lemma {:induction false} MarksSkip(abs: string -> Option<string>, a: seq<string>, b: seq<string>)
    requires NoFlag(a)
    ensures Marks(abs, a + b) == Marks(abs, b)
    decreases |a|
  {
    if a == [] {
      assert a + b == b;
    } else {
      assert a[0] in a && forall x :: x in a[1..] ==> x in a;
      MarksSkip(abs, a[1..], b);
      assert (a + b)[1..] == a[1..] + b;
    }
  }

  lemma MarksOfPair(abs: string -> Option<string>, flag: string, value: string, rest: seq<string>)
    requires IsExtFlag(flag) && !IsExtFlag(value) && (flag == "--local" ==> abs(value).Some?)
    ensures Marks(abs, [flag, value] + rest) ==
            Prepend([if flag == "--local" then Local(abs(value).value) else Remote(value)], Marks(abs, rest))
  {
    var args := [flag, value] + rest;
    assert args[1..] == [value] + rest && args[1..][1..] == rest;
  }

  lemma {:induction false} MarksOfExts(abs: string -> Option<string>, exts: seq<Ext>, rest: seq<string>)
    requires PathsResolve(abs, exts) && forall e :: e in exts ==> PlainValues(e)
    requires Marks(abs, rest) == Ok([])
    ensures Marks(abs, FlatMap(ExtArg, exts) + rest) == Ok(ExtMarks(abs, exts))
    decreases |exts|
  {
    if exts == [] {
      assert FlatMap(ExtArg, exts) + rest == rest;
    } else {
      var e := exts[0];
      assert e in exts && PlainValues(e);
      MarksOfExts(abs, exts[1..], rest);
      var flag := if IsLocal(e) then "--local" else "--extension";
      assert ExtArg(e) == [flag, Value(e)];
      AppendAssociative(ExtArg(e), FlatMap(ExtArg, exts[1..]), rest);
      MarksOfPair(abs, flag, Value(e), FlatMap(ExtArg, exts[1..]) + rest);
    }
  }

  // ----- Counting flags: exactly when the marks are right. -----

  function Flags(args: seq<string>): nat
    decreases |args|
  {
    if args == [] then 0 else (if IsExtFlag(args[0]) then 1 else 0) + Flags(args[1..])
  }

  lemma {:induction false} FlagsAppend(a: seq<string>, b: seq<string>)
    ensures Flags(a + b) == Flags(a) + Flags(b)
    decreases |a|
  {
    if a == [] {
      assert a + b == b;
    } else {
      FlagsAppend(a[1..], b);
      assert (a + b)[1..] == a[1..] + b;
    }
  }

  lemma {:induction false} MarksCount(abs: string -> Option<string>, args: seq<string>)
    requires Marks(abs, args).Ok?
    ensures |Marks(abs, args).value| == Flags(args)
    decreases |args|
  {
    if args != [] { MarksCount(abs, args[1..]); }
  }

  lemma {:induction false} NoFlagIff(args: seq<string>)
    ensures Flags(args) == 0 <==> NoFlag(args)
    decreases |args|
  {
    if args != [] {
      NoFlagIff(args[1..]);
      assert forall a :: a in args <==> a == args[0] || a in args[1..];
    }
  }

  lemma FlagsOfPair(a: string, b: string)
    ensures Flags([a, b]) == (if IsExtFlag(a) then 1 else 0) + (if IsExtFlag(b) then 1 else 0)
  {
    var args, last := [a, b], [b];
    assert args[1..] == last && |last[1..]| == 0;
    assert Flags(last) == (if IsExtFlag(b) then 1 else 0) + Flags(last[1..]);
  }

  /** A list of pairs that each start with the same kind of word. */
  lemma {:induction false} FlagsOfPairs(f: Ext -> seq<string>, exts: seq<Ext>, marks: bool)
    requires forall e :: e in exts ==> |f(e)| == 2 && IsExtFlag(f(e)[0]) == marks
    ensures Flags(FlatMap(f, exts)) >= if marks then |exts| else 0
    ensures Flags(FlatMap(f, exts)) == (if marks then |exts| else 0) <==>
            forall e :: e in exts ==> !IsExtFlag(f(e)[1])
    decreases |exts|
  {
    if exts != [] {
      var e := exts[0];
      assert e in exts && forall x :: x in exts <==> x == e || x in exts[1..];
      FlagsOfPairs(f, exts[1..], marks);
      assert f(e) == [f(e)[0], f(e)[1]];
      FlagsOfPair(f(e)[0], f(e)[1]);
      FlagsAppend(f(e), FlatMap(f, exts[1..]));
    }
  }

  lemma FlagsOfTail(exts: seq<Ext>)
    ensures Flags(Tail(exts)) == 0 <==> forall e :: e in exts ==> !IsExtFlag(e.config) && !IsExtFlag(e.filterType)
  {
    FlagsAppend(FlatMap(ConfigArg, exts), FilterTypeArgs(exts));
    FlagsOfPairs(ConfigArg, exts, false);
    FlagsOfPairs(FilterTypeArg, exts, false);
    assert Flags(FlatMap(ConfigArg, exts)) == 0 <==> forall e :: e in exts ==> !IsExtFlag(ConfigArg(e)[1]);
    assert HasFilterType(exts) ==>
             (Flags(FilterTypeArgs(exts)) == 0 <==> forall e :: e in exts ==> !IsExtFlag(FilterTypeArg(e)[1]));
  }

  function Argv(prefix: seq<string>, exts: seq<Ext>): seq<string> {
    prefix + (FlatMap(ExtArg, exts) + Tail(exts))
  }

  /** The CLI records the extensions of the UI, in order, if and only if no other argument is itself one of the two
      flags. */
  lemma MarksAreExtsIff(abs: string -> Option<string>, prefix: seq<string>, exts: seq<Ext>)
    requires PathsResolve(abs, exts)
    ensures Marks(abs, Argv(prefix, exts)) == Ok(ExtMarks(abs, exts)) <==> NoStray(prefix, exts)
  {
    var body := FlatMap(ExtArg, exts) + Tail(exts);
    FlagsOfTail(exts);
    NoFlagIff(Tail(exts));
    if NoStray(prefix, exts) {
      assert forall e :: e in exts ==> PlainValues(e);
      assert Tail(exts) + [] == Tail(exts);
      MarksSkip(abs, Tail(exts), []);
      MarksOfExts(abs, exts, Tail(exts));
      MarksSkip(abs, prefix, body);
    }
    if Marks(abs, Argv(prefix, exts)) == Ok(ExtMarks(abs, exts)) {
      MarksCount(abs, Argv(prefix, exts));
      FlagsAppend(prefix, body);
      FlagsAppend(FlatMap(ExtArg, exts), Tail(exts));
      FlagsOfPairs(ExtArg, exts, true);
      NoFlagIff(prefix);
      assert forall e :: e in exts ==> !IsExtFlag(ExtArg(e)[1]);
    }
  }

  /** The flag forms the scan does not see: one word, and a list of references in one value. */
  lemma OtherFormsAreNotRecorded(abs: string -> Option<string>, v: string, a: Manifest, b: Manifest)
    requires a.remote && b.remote
    ensures Marks(abs, ["--local=" + v]) == Ok([])
    ensures !AllFound(abs, [a, b], [Remote(a.remoteRef + "," + b.remoteRef)])
  {
    var both := Remote(a.remoteRef + "," + b.remoteRef);
    assert |both.key| == |a.remoteRef| + 1 + |b.remoteRef|;
    assert !Matches(abs, a, both) && !Matches(abs, b, both);
    assert Find(abs, [a, b], both).None?;
    assert Find(abs, [a, b], [both][0]).None?;
    var arg := "--local=" + v;
    assert |arg| == 8 + |v| && arg[7] == '=';
    assert |"--local"| == 7 && |"--extension"| == 11 && "--extension"[7] != '=';
    var args := [arg];
    assert |args[1..]| == 0;
  }

  // ----- The manifests land in their places. -----

  function Remotes(exts: seq<Ext>): seq<string>
    decreases |exts|
  {
    if exts == [] then [] else (if IsLocal(exts[0]) then [] else [exts[0].name]) + Remotes(exts[1..])
  }

  function Locals(exts: seq<Ext>): seq<string>
    decreases |exts|
  {
    if exts == [] then [] else (if IsLocal(exts[0]) then [exts[0].localPath] else []) + Locals(exts[1..])
  }

  lemma {:induction false} LocalsAndRemotes(exts: seq<Ext>)
    ensures |Remotes(exts)| + |Locals(exts)| == |exts|
    ensures forall e :: e in exts ==> if IsLocal(e) then e.localPath in Locals(exts) else e.name in Remotes(exts)
    decreases |exts|
  {
    if exts != [] {
      LocalsAndRemotes(exts[1..]);
      assert forall e :: e in exts ==> e == exts[0] || e in exts[1..];
    }
  }

  /** What the run command loads: a remote manifest for each reference, a local one for each path. */
  ghost predicate Loaded(abs: string -> Option<string>, exts: seq<Ext>, downloaded: seq<Manifest>, local: seq<Manifest>)
  {
    && |downloaded| == |Remotes(exts)| && |local| == |Locals(exts)|
    && (forall j :: 0 <= j < |downloaded| ==> downloaded[j].remote && downloaded[j].remoteRef == Remotes(exts)[j])
    && (forall j :: 0 <= j < |local| ==> !local[j].remote && abs(local[j].dir) == abs(Locals(exts)[j]))
  }

  /** The manifest is one loaded for this extension. */
  predicate Answers(abs: string -> Option<string>, m: Manifest, e: Ext) {
    if IsLocal(e) then !m.remote && abs(m.dir) == abs(e.localPath) else m.remote && m.remoteRef == e.name
  }

  /** A downloaded manifest lies in the very directory that was given as a local path. */
  predicate Shadowed(abs: string -> Option<string>, downloaded: seq<Manifest>, e: Ext) {
    IsLocal(e) && exists j :: 0 <= j < |downloaded| && abs(downloaded[j].dir) == abs(e.localPath)
  }

  lemma SomeManifestMatches(abs: string -> Option<string>, exts: seq<Ext>, downloaded: seq<Manifest>,
                            local: seq<Manifest>, i: nat)
    requires i < |exts| && PathsResolve(abs, exts) && Loaded(abs, exts, downloaded, local)
    ensures exists j :: 0 <= j < |downloaded + local| && Matches(abs, (downloaded + local)[j], ExtMark(abs, exts[i]))
  {
    LocalsAndRemotes(exts);
    var e := exts[i];
    assert e in exts;
    if IsLocal(e) {
      var j :| 0 <= j < |Locals(exts)| && Locals(exts)[j] == e.localPath;
      assert (downloaded + local)[|downloaded| + j] == local[j];
    } else {
      var j :| 0 <= j < |Remotes(exts)| && Remotes(exts)[j] == e.name;
      assert (downloaded + local)[j] == downloaded[j];
    }
  }

  /** Every slot is filled, and slot `i` holds a manifest loaded for extension `i` if and only if no downloaded manifest
      shadows its path. */
  lemma SlotIsRightIff(abs: string -> Option<string>, exts: seq<Ext>, downloaded: seq<Manifest>,
                       local: seq<Manifest>, i: nat)
    requires i < |exts| && PathsResolve(abs, exts) && Loaded(abs, exts, downloaded, local)
    ensures var slot := Slot(abs, downloaded + local, ExtMarks(abs, exts), i);
            slot.Some? && (Answers(abs, slot.value, exts[i]) <==> !Shadowed(abs, downloaded, exts[i]))
  {
    var ms, mark, e := downloaded + local, ExtMark(abs, exts[i]), exts[i];
    SomeManifestMatches(abs, exts, downloaded, local, i);
    var m := Find(abs, ms, mark).value;
    var k :| 0 <= k < |ms| && ms[k] == m && Matches(abs, ms[k], mark)
             && forall j :: 0 <= j < k ==> !Matches(abs, ms[j], mark);
    assert e in exts;
    if Shadowed(abs, downloaded, e) {
      var j :| 0 <= j < |downloaded| && abs(downloaded[j].dir) == abs(e.localPath);
      assert ms[j] == downloaded[j] && Matches(abs, ms[j], mark);
      assert k <= j && m == downloaded[k];
    } else if IsLocal(e) {
      assert k >= |downloaded|;
      assert m == local[k - |downloaded|];
    }
  }

  /** A shadowed path: the extension downloaded into the directory that was also given as local takes both slots. */
  lemma DownloadTakesLocalSlot(abs: string -> Option<string>, path: string, downloaded: Manifest, local: Manifest)
    requires path != "" && abs(path).Some?
    requires downloaded.dir == path && downloaded.remote && local.dir == path && !local.remote
    ensures var exts := [Ext(downloaded.remoteRef, "", "", ""), Ext("", path, "", "")];
            && PathsResolve(abs, exts)
            && Loaded(abs, exts, [downloaded], [local])
            && Slot(abs, [downloaded] + [local], ExtMarks(abs, exts), 1) == Some(downloaded)
  {
    var r, l := Ext(downloaded.remoteRef, "", "", ""), Ext("", path, "", "");
    var exts, one := [r, l], [l];
    assert exts[1..] == one && |one[1..]| == 0;
    assert Remotes(one) == [] + Remotes(one[1..]) && Locals(one) == [path] + Locals(one[1..]);
    assert Remotes(exts) == [downloaded.remoteRef] + Remotes(one) && Locals(exts) == [] + Locals(one);
    var ms := [downloaded] + [local];
    assert ms[0] == downloaded && Matches(abs, ms[0], ExtMark(abs, l));
  }

  // ----- Configs and filter types. -----

  /** The values Kong collects for a repeated flag. */
  function Values(flag: string, args: seq<string>): seq<string>
    decreases |args|
  {
    if |args| < 2 then []
    else if args[0] == flag then [args[1]] + Values(flag, args[2..])
    else Values(flag, args[1..])
  }

  lemma {:induction false} ValuesSkip(flag: string, a: seq<string>, b: seq<string>)
    requires flag !in a
    ensures Values(flag, a + b) == Values(flag, b)
    decreases |a|
  {
    if a == [] {
      assert a + b == b;
    } else {
      ValuesSkip(flag, a[1..], b);
      assert (a + b)[1..] == a[1..] + b;
      if |a + b| < 2 { assert b == []; }
    }
  }

  /** The values of the pairs that start with the flag. */
  function Picked(flag: string, f: Ext -> seq<string>, exts: seq<Ext>): seq<string>
    requires forall e :: e in exts ==> |f(e)| == 2
    decreases |exts|
  {
    if exts == [] then []
    else (if f(exts[0])[0] == flag then [f(exts[0])[1]] else []) + Picked(flag, f, exts[1..])
  }

  lemma ValuesOfPair(flag: string, a: string, v: string, rest: seq<string>)
    requires v != flag
    ensures Values(flag, [a, v] + rest) == (if a == flag then [v] else []) + Values(flag, rest)
  {
    var args := [a, v] + rest;
    assert args[2..] == rest && args[1..] == [v] + rest && args[1..][1..] == rest;
    if a != flag && rest == [] { assert Values(flag, args[1..]) == []; }
  }

  lemma {:induction false} ValuesOfPairs(flag: string, f: Ext -> seq<string>, exts: seq<Ext>, rest: seq<string>)
    requires forall e :: e in exts ==> |f(e)| == 2 && f(e)[1] != flag
    ensures Values(flag, FlatMap(f, exts) + rest) == Picked(flag, f, exts) + Values(flag, rest)
    decreases |exts|
  {
    if exts == [] {
      assert FlatMap(f, exts) + rest == rest;
    } else {
      var e := exts[0];
      assert e in exts;
      ValuesOfPairs(flag, f, exts[1..], rest);
      assert f(e) == [f(e)[0], f(e)[1]];
      AppendAssociative(f(e), FlatMap(f, exts[1..]), rest);
      ValuesOfPair(flag, f(e)[0], f(e)[1], FlatMap(f, exts[1..]) + rest);
      AppendAssociative(if f(e)[0] == flag then [f(e)[1]] else [], Picked(flag, f, exts[1..]), Values(flag, rest));
    }
  }

  predicate IsFlag(a: string) {
    IsExtFlag(a) || a == "--config" || a == "--filter-type"
  }

  /** No value is one of the four flags the UI prints. */
  predicate Clean(e: Ext) {
    !IsFlag(Value(e)) && !IsFlag(e.config) && !IsFlag(e.filterType)
  }

  ghost predicate CleanArgs(prefix: seq<string>, exts: seq<Ext>) {
    (forall a :: a in prefix ==> !IsFlag(a)) && forall e :: e in exts ==> Clean(e)
  }

  function FilterTypesPicked(flag: string, exts: seq<Ext>): seq<string> {
    if HasFilterType(exts) then Picked(flag, FilterTypeArg, exts) else []
  }

  lemma ValuesOfArgv(flag: string, prefix: seq<string>, exts: seq<Ext>)
    requires CleanArgs(prefix, exts) && IsFlag(flag)
    ensures Values(flag, Argv(prefix, exts)) ==
            Picked(flag, ExtArg, exts) + (Picked(flag, ConfigArg, exts) + FilterTypesPicked(flag, exts))
  {
    var types := FilterTypeArgs(exts);
    assert forall e :: e in exts ==> Clean(e);
    ValuesSkip(flag, prefix, FlatMap(ExtArg, exts) + Tail(exts));
    ValuesOfPairs(flag, ExtArg, exts, Tail(exts));
    ValuesOfPairs(flag, ConfigArg, exts, types);
    if HasFilterType(exts) {
      ValuesOfPairs(flag, FilterTypeArg, exts, []);
      assert types + [] == types && Picked(flag, FilterTypeArg, exts) + [] == Picked(flag, FilterTypeArg, exts);
    }
  }

  lemma {:induction false} PickedExts(exts: seq<Ext>)
    ensures Picked("--extension", ExtArg, exts) == Remotes(exts)
    ensures Picked("--local", ExtArg, exts) == Locals(exts)
    decreases |exts|
  {
    if exts != [] { PickedExts(exts[1..]); }
  }

  /** All pairs start with `head`. */
  lemma {:induction false} PickedAll(flag: string, head: string, f: Ext -> seq<string>, exts: seq<Ext>)
    requires forall e :: e in exts ==> |f(e)| == 2 && f(e)[0] == head
    ensures flag != head ==> Picked(flag, f, exts) == []
    ensures flag == head ==> |Picked(flag, f, exts)| == |exts|
    ensures flag == head ==> forall i :: 0 <= i < |exts| ==> Picked(flag, f, exts)[i] == f(exts[i])[1]
    decreases |exts|
  {
    if exts != [] {
      assert exts[0] in exts;
      PickedAll(flag, head, f, exts[1..]);
    }
  }

  lemma {:induction false} NoPickedExts(flag: string, exts: seq<Ext>)
    requires !IsExtFlag(flag)
    ensures Picked(flag, ExtArg, exts) == []
    decreases |exts|
  {
    if exts != [] { NoPickedExts(flag, exts[1..]); }
  }

  lemma ReferencesCollected(flag: string, prefix: seq<string>, exts: seq<Ext>)
    requires CleanArgs(prefix, exts) && IsExtFlag(flag)
    ensures Values(flag, Argv(prefix, exts)) == Picked(flag, ExtArg, exts)
  {
    var c, t := "--config", "--filter-type";
    ValuesOfArgv(flag, prefix, exts);
    PickedAll(flag, c, ConfigArg, exts);
    PickedAll(flag, t, FilterTypeArg, exts);
    assert FilterTypesPicked(flag, exts) == [];
  }

  lemma ConfigsCollected(flag: string, prefix: seq<string>, exts: seq<Ext>, i: nat)
    requires CleanArgs(prefix, exts) && i < |exts| && flag == "--config"
    ensures At(Values(flag, Argv(prefix, exts)), i) == exts[i].config
  {
    var t := "--filter-type";
    ValuesOfArgv(flag, prefix, exts);
    NoPickedExts(flag, exts);
    PickedAll(flag, flag, ConfigArg, exts);
    PickedAll(flag, t, FilterTypeArg, exts);
    assert FilterTypesPicked(flag, exts) == [];
  }

  lemma FilterTypesCollected(flag: string, prefix: seq<string>, exts: seq<Ext>, i: nat)
    requires CleanArgs(prefix, exts) && i < |exts| && flag == "--filter-type"
    ensures At(Values(flag, Argv(prefix, exts)), i) == exts[i].filterType
  {
    var c := "--config";
    ValuesOfArgv(flag, prefix, exts);
    NoPickedExts(flag, exts);
    PickedAll(flag, c, ConfigArg, exts);
    PickedAll(flag, flag, FilterTypeArg, exts);
    assert Values(flag, Argv(prefix, exts)) == FilterTypesPicked(flag, exts);
  }

  /** Kong hands the run command the references, the paths and, position by position, each extension's config and
      filter type. */
  lemma OptionsAreAligned(prefix: seq<string>, exts: seq<Ext>, i: nat)
    requires CleanArgs(prefix, exts) && i < |exts|
    ensures var argv := Argv(prefix, exts);
            && Values("--extension", argv) == Remotes(exts)
            && Values("--local", argv) == Locals(exts)
            && At(Values("--config", argv), i) == exts[i].config
            && At(Values("--filter-type", argv), i) == exts[i].filterType
  {
    PickedExts(exts);
    var e, l, c, t := "--extension", "--local", "--config", "--filter-type";
    ReferencesCollected(e, prefix, exts);
    ReferencesCollected(l, prefix, exts);
    ConfigsCollected(c, prefix, exts, i);
    FilterTypesCollected(t, prefix, exts, i);
  }

  /** The parameters the run command generates its config from. */
  ghost function RunParams(argv: seq<string>, ms: seq<Manifest>, rest: Params): Params {
    rest.(extensions := ms, configs := Values("--config", argv), filterTypes := Values("--filter-type", argv))
  }

  /** The slots as a list, once none is nil. */
  function Unwrap(slots: seq<Option<Manifest>>): (ms: seq<Manifest>)
    requires forall j :: 0 <= j < |slots| ==> slots[j].Some?
    ensures |ms| == |slots| && forall j :: 0 <= j < |ms| ==> slots[j] == Some(ms[j])
  {
    seq(|slots|, j requires 0 <= j < |slots| => slots[j].value)
  }

  /** Every flag finds its manifest, and there are as many manifests as flags: the sort succeeds. */
  lemma SortSucceeds(abs: string -> Option<string>, exts: seq<Ext>, downloaded: seq<Manifest>, local: seq<Manifest>)
    requires PathsResolve(abs, exts) && Loaded(abs, exts, downloaded, local)
    ensures AllFound(abs, downloaded + local, ExtMarks(abs, exts)) && |downloaded + local| == |exts|
  {
    LocalsAndRemotes(exts);
    var ms, marks := downloaded + local, ExtMarks(abs, exts);
    forall i | 0 <= i < |marks|
      ensures Find(abs, ms, marks[i]).Some?
    {
      SomeManifestMatches(abs, exts, downloaded, local, i);
    }
  }

  /** And then it leaves no slot nil. */
  lemma NoSlotIsNil(abs: string -> Option<string>, ms: seq<Manifest>, marks: seq<Mark>, slots: seq<Option<Manifest>>)
    requires AllFound(abs, ms, marks) && |marks| == |ms| && Filled(abs, ms, marks, slots)
    ensures |slots| == |ms| && forall j :: 0 <= j < |slots| ==> slots[j].Some?
  {
  }

  /** What running `argv` promises for `exts`: the flags are recorded and the sort succeeds; no slot is nil; the `i`-th
      manifest was loaded for extension `i`; and in the generated lists the block made from it with config `i` and
      filter type `i` stands right after the blocks of the extensions before it. */
  ghost predicate RunsInOrder(abs: string -> Option<string>, argv: seq<string>, exts: seq<Ext>, loaded: seq<Manifest>,
                              slots: seq<Option<Manifest>>, g: Generators, rest: Params, i: nat)
    requires PathsResolve(abs, exts) && i < |exts|
  {
    && Marks(abs, argv) == Ok(ExtMarks(abs, exts))
    && AllFound(abs, loaded, ExtMarks(abs, exts)) && |loaded| == |exts|
    && |slots| == |exts| && (forall j :: 0 <= j < |slots| ==> slots[j].Some?)
    && Answers(abs, Unwrap(slots)[i], exts[i])
    && PairsBlock(RunParams(argv, Unwrap(slots), rest), g, exts[i], i)
  }

  /** In the generated config: the resources made from the `i`-th manifest with this extension's config and filter type
      stand, in every list, right after those of the extensions before it; and its HTTP filters stand between its native
      ones. */
  ghost predicate PairsBlock(p: Params, g: Generators, e: Ext, i: nat)
    requires i < |p.extensions|
  {
    forall bs, cs, r :: IsConfig(g, p, bs, cs, r) ==>
      && |bs| == |p.extensions|
      && IsBlock(g, p.extensions[i], e.config, e.filterType, At(p.before, i), At(p.after, i), bs[i])
      && InPlace(bs, cs, r, i)
  }

  ghost predicate InPlace(bs: seq<Resources>, cs: seq<Cluster>, r: Resources, i: nat)
    requires i < |bs|
  {
    && r.http == Listed(Http, bs[..i]) + bs[i].http + Listed(Http, bs[i + 1..])
    && r.network == Listed(Network, bs[..i]) + bs[i].network + Listed(Network, bs[i + 1..])
    && r.listener == Listed(Listener, bs[..i]) + bs[i].listener + Listed(Listener, bs[i + 1..])
    && r.udp == Listed(Udp, bs[..i]) + bs[i].udp + Listed(Udp, bs[i + 1..])
    && r.clusters == Listed(Clusters, bs[..i]) + bs[i].clusters + Listed(Clusters, bs[i + 1..]) + cs
  }

  lemma ConfigPairs(p: Params, g: Generators, e: Ext, i: nat)
    requires i < |p.extensions| && At(p.configs, i) == e.config && At(p.filterTypes, i) == e.filterType
    ensures PairsBlock(p, g, e, i)
  {
    forall bs, cs, r | IsConfig(g, p, bs, cs, r)
      ensures && |bs| == |p.extensions|
              && IsBlock(g, p.extensions[i], e.config, e.filterType, At(p.before, i), At(p.after, i), bs[i])
              && InPlace(bs, cs, r, i)
    {
      assert IsBlockAt(g, p, i, bs[i]);
      var front := r.clusters[..|r.clusters| - |cs|];
      assert r.clusters == front + cs;
      BlockPosition(bs, r.(clusters := front), i);
    }
  }

  /** End to end, from the UI's list to the generated config, when every reference loads, no value is a flag and no
      downloaded manifest shadows a local path. */
  lemma EndToEnd(abs: string -> Option<string>, prefix: seq<string>, exts: seq<Ext>, downloaded: seq<Manifest>,
                 local: seq<Manifest>, slots: seq<Option<Manifest>>, g: Generators, rest: Params, i: nat)
    requires CleanArgs(prefix, exts) && PathsResolve(abs, exts) && Loaded(abs, exts, downloaded, local)
    requires forall e :: e in exts ==> !Shadowed(abs, downloaded, e)
    requires Filled(abs, downloaded + local, ExtMarks(abs, exts), slots) && i < |exts|
    ensures RunsInOrder(abs, Argv(prefix, exts), exts, downloaded + local, slots, g, rest, i)
  {
    assert NoStray(prefix, exts) by {
      assert forall e :: e in exts && Clean(e) ==> PlainValues(e);
    }
    MarksAreExtsIff(abs, prefix, exts);
    SortSucceeds(abs, exts, downloaded, local);
    NoSlotIsNil(abs, downloaded + local, ExtMarks(abs, exts), slots);
    SlotIsRightIff(abs, exts, downloaded, local, i);
    OptionsAreAligned(prefix, exts, i);
    assert exts[i] in exts;
    var ms := Unwrap(slots);
    assert slots[i] == Slot(abs, downloaded + local, ExtMarks(abs, exts), i);
    var p := RunParams(Argv(prefix, exts), ms, rest);
    ConfigPairs(p, g, exts[i], i);
  }
}
