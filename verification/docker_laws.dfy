/** What the Docker rewriting keeps: every argument's meaning, the order, and each extension's position. */
module DockerLaws {
  import opened ByteText
  import opened CliArgs
  import opened CliAlignment
  import opened DockerArgs

  // ----- For every command line: the host-only flags are gone. -----

  ghost predicate Absolute(abs: string -> Option<string>) {
    forall s: string :: abs(s).Some? ==> abs(s).value != [] && abs(s).value[0] == '/'
  }

  /** The argument concerns only the host. */
  predicate HostOnly(arg: string) {
    "--docker" <= arg || "--pull=" <= arg
  }

  lemma TargetIsAbsolute(debug: bool, path: string)
    requires path != [] && path[0] == '/'
    ensures Target(debug, path) != [] && Target(debug, path)[0] == '/'
  {
  }

  lemma TlsArgStart(arg: string)
    requires IsTls(arg)
    ensures |TlsArg(arg)| > 2 && TlsArg(arg)[2] == 'l'
  {
    assert FlagOf(arg)[2] == 'l';
  }

  predicate IsPull(arg: string) {
    arg == "--pull"
  }

  lemma StepOutput(debug: bool, abs: string -> Option<string>, arg: string, following: Option<string>, o: string)
    requires Absolute(abs) && o in Step(debug, abs, arg, following).0
    ensures !HostOnly(o)
    ensures IsPull(o) ==> following.None? && Step(debug, abs, arg, following).0 == [arg]
  {
    if o != arg {
      if |o| > 2 && o[2] == 'l' {
      } else if IsTls(arg) {
        TlsArgStart(arg);
      } else {
        TargetIsAbsolute(debug, abs(following.value).value);
      }
    }
  }

  /** A `--pull` in the output is its last word, and was the last word of the input. */
  ghost predicate PullOnlyLast(args: seq<string>, out: seq<string>) {
    forall k :: 0 <= k < |out| && IsPull(out[k]) ==> k == |out| - 1 && args != [] && IsPull(args[|args| - 1])
  }

  lemma PullOnlyLastStep(args: seq<string>, a: seq<string>, rest: seq<string>, b: seq<string>)
    requires args != [] && |rest| <= |args| && rest == args[|args| - |rest|..] && PullOnlyLast(rest, b)
    requires forall o :: o in a && IsPull(o) ==> |args| == 1 && a == [args[0]] && b == []
    ensures PullOnlyLast(args, a + b)
  {
    var out := a + b;
    forall k | 0 <= k < |out| && IsPull(out[k])
      ensures k == |out| - 1 && IsPull(args[|args| - 1])
    {
      if k < |a| {
        assert out[k] == a[k] && a[k] in a;
      } else {
        assert out[k] == b[k - |a|];
      }
    }
  }

  /** No docker flag and no pull policy reaches the container, whatever the arguments; only a `--pull` whose value is
      missing does, and then it is the last word on both sides. */
  lemma {:induction false} HostFlagsAreGone(debug: bool, abs: string -> Option<string>, args: seq<string>)
    requires Absolute(abs)
    ensures forall o :: o in Process(debug, abs, args) ==> !HostOnly(o)
    ensures PullOnlyLast(args, Process(debug, abs, args))
    decreases |args|
  {
    if args != [] {
      var f := Following(args, 0);
      var s := Step(debug, abs, args[0], f);
      var rest := From(args, if s.1 then 2 else 1);
      HostFlagsAreGone(debug, abs, rest);
      forall o | o in s.0
        ensures !HostOnly(o) && (IsPull(o) ==> |args| == 1 && s.0 == [args[0]] && rest == [])
      {
        StepOutput(debug, abs, args[0], f, o);
      }
      PullOnlyLastStep(args, s.0, rest, Process(debug, abs, rest));
    }
  }

  // ----- Argument by argument. -----

  /** A flag with its value, as the CLI reads it, or a single argument that is none of the rewritten flags. */
  datatype Item =
    | DockerFlag(arg: string)
    | ImageVersion(v: string)
    | PullEq(v: string)
    | Pull(v: string)
    | DebugServer(v: string)
    | DebugServerEq(v: string)
    | LocalEq(v: string)
    | LocalExt(v: string)
    | RemoteExt(v: string)
    | TlsEq(key: bool, v: string)
    | Tls(key: bool, v: string)
    | Other(arg: string)

  function TlsFlag(key: bool): string {
    if key then "--listener-key" else "--listener-cert"
  }

  function Words(item: Item): seq<string> {
    match item
    case DockerFlag(arg) => [arg]
    case ImageVersion(v) => ["--docker-image-version", v]
    case PullEq(v) => ["--pull=" + v]
    case Pull(v) => ["--pull", v]
    case DebugServer(v) => ["--debug-server-path", v]
    case DebugServerEq(v) => ["--debug-server-path=" + v]
    case LocalEq(v) => ["--local=" + v]
    case LocalExt(v) => ["--local", v]
    case RemoteExt(v) => ["--extension", v]
    case TlsEq(key, v) => [TlsFlag(key) + "=" + v]
    case Tls(key, v) => [TlsFlag(key), v]
    case Other(arg) => [arg]
  }

  predicate IsTlsWord(arg: string) {
    exists key :: arg == TlsFlag(key) || TlsFlag(key) + "=" <= arg
  }

  lemma TlsWords(arg: string)
    ensures IsTls(arg) ==> IsTlsWord(arg)
  {
    if IsTls(arg) {
      var key := FlagOf(arg) == TlsFlag(true);
      var k := IndexOf(arg, '=');
      if k >= 0 { assert arg[..k + 1] == TlsFlag(key) + "="; }
    }
  }

  /** The argument is none that the rewriting looks for. */
  predicate Ordinary(debug: bool, arg: string) {
    && !HostOnly(arg) && arg != "--pull" && !("--local=" <= arg) && arg != "--local" && !IsTlsWord(arg)
    && (debug ==> arg != "--debug-server-path" && !("--debug-server-path=" <= arg))
  }

  predicate ValidItem(debug: bool, abs: string -> Option<string>, item: Item) {
    match item
    case DockerFlag(arg) => "--docker" <= arg && arg != "--docker-image-version"
    case DebugServer(_) => debug
    case DebugServerEq(_) => debug
    case LocalEq(v) => abs(v).Some?
    case LocalExt(v) => abs(v).Some?
    case RemoteExt(v) => Ordinary(debug, v)
    case Other(arg) => Ordinary(debug, arg)
    case _ => true
  }

  /** What the item means in the container: host-only flags vanish, files are found at their mount points, and
      everything else is the same. */
  function Moved(debug: bool, abs: string -> Option<string>, item: Item): seq<Item>
    requires ValidItem(debug, abs, item)
  {
    match item
    case LocalEq(v) => [LocalEq(Target(debug, abs(v).value))]
    case LocalExt(v) => [LocalExt(Target(debug, abs(v).value))]
    case RemoteExt(_) => [item]
    case TlsEq(key, _) => [TlsEq(key, if key then LISTENER_KEY else LISTENER_CERT)]
    case Tls(key, _) => [TlsEq(key, if key then LISTENER_KEY else LISTENER_CERT)]
    case Other(_) => [item]
    case _ => []
  }

  function AllWords(items: seq<Item>): seq<string>
    decreases |items|
  {
    if items == [] then [] else Words(items[0]) + AllWords(items[1..])
  }

  predicate AllValid(debug: bool, abs: string -> Option<string>, items: seq<Item>) {
    forall x :: x in items ==> ValidItem(debug, abs, x)
  }

  function AllMoved(debug: bool, abs: string -> Option<string>, items: seq<Item>): seq<Item>
    requires AllValid(debug, abs, items)
    decreases |items|
  {
    if items == [] then []
    else assert items[0] in items; Moved(debug, abs, items[0]) + AllMoved(debug, abs, items[1..])
  }

  lemma TlsForms(key: bool, v: string)
    ensures IsTls(TlsFlag(key)) && IsTls(TlsFlag(key) + "=" + v)
    ensures FlagOf(TlsFlag(key)) == TlsFlag(key) && '=' !in TlsFlag(key)
    ensures FlagOf(TlsFlag(key) + "=" + v) == TlsFlag(key)
  {
    var flag := TlsFlag(key);
    assert '=' !in flag;
    var arg := flag + "=" + v;
    assert arg[|flag|] == '=' && arg[..|flag|] == flag;
    FirstPosition(arg, '=', |flag|);
  }

  /** One argument, or a flag and its value, become `out` and nothing else is touched. */
  ghost predicate StepsTo(debug: bool, abs: string -> Option<string>, words: seq<string>, out: seq<string>) {
    || (|words| == 1 && forall f: Option<string> :: Step(debug, abs, words[0], f) == (out, false))
    || (|words| == 2 && Step(debug, abs, words[0], Some(words[1])) == (out, true))
  }

  lemma Consume(debug: bool, abs: string -> Option<string>, words: seq<string>, out: seq<string>, rest: seq<string>)
    requires StepsTo(debug, abs, words, out)
    ensures Process(debug, abs, words + rest) == out + Process(debug, abs, rest)
  {
    var args := words + rest;
    assert args[0] == words[0];
    if |words| == 1 {
      assert From(args, 1) == rest;
    } else {
      assert args[1] == words[1] && From(args, 2) == rest;
    }
  }

  lemma OrdinaryStep(debug: bool, abs: string -> Option<string>, arg: string)
    requires Ordinary(debug, arg)
    ensures StepsTo(debug, abs, [arg], [arg])
  {
    TlsWords(arg);
    assert arg != "--docker-image-version" by {
      var version, docker := "--docker-image-version", "--docker";
      assert docker <= version;
    }
  }

  lemma DroppedStep(debug: bool, abs: string -> Option<string>, item: Item)
    requires ValidItem(debug, abs, item) && Moved(debug, abs, item) == []
    ensures StepsTo(debug, abs, Words(item), [])
  {
    var words := Words(item);
    match item
    case DockerFlag(arg) =>
    case ImageVersion(v) =>
    case PullEq(v) => assert words[0][2] == 'p';
    case Pull(v) => assert words[0][2] == 'p' && |words[0]| == 6;
    case DebugServer(v) => assert words[0][3] == 'e';
    case DebugServerEq(v) => assert words[0][3] == 'e' && words[0][19] == '=';
  }

  lemma TlsStep(debug: bool, abs: string -> Option<string>, arg: string, f: Option<string>)
    requires IsTls(arg) && |arg| > 7 && arg[2] == 'l' && arg[3] == 'i'
    ensures Step(debug, abs, arg, f) == ([TlsArg(arg)], '=' !in arg)
  {
    var d, p, l, s := "--docker", "--pull=", "--local=", "--debug-server-path=";
    assert !(d <= arg) && !(p <= arg) && !(l <= arg) && !(s <= arg);
    assert arg != "--docker-image-version" && arg != "--pull" && arg != "--debug-server-path" && arg != "--local";
  }

  lemma TlsEqStep(debug: bool, abs: string -> Option<string>, key: bool, v: string, f: Option<string>)
    ensures Step(debug, abs, TlsFlag(key) + "=" + v, f) ==
            ([TlsFlag(key) + "=" + if key then LISTENER_KEY else LISTENER_CERT], false)
  {
    var flag := TlsFlag(key);
    TlsForms(key, v);
    var arg := flag + "=" + v;
    assert flag[2] == 'l' && flag[3] == 'i' && |flag| > 7;
    assert arg[2] == flag[2] && arg[3] == flag[3] && arg[|flag|] == '=';
    TlsStep(debug, abs, arg, f);
  }

  lemma TlsPairStep(debug: bool, abs: string -> Option<string>, key: bool, v: string)
    ensures Step(debug, abs, TlsFlag(key), Some(v)) ==
            ([TlsFlag(key) + "=" + if key then LISTENER_KEY else LISTENER_CERT], true)
  {
    var flag := TlsFlag(key);
    TlsForms(key, v);
    assert flag[2] == 'l' && flag[3] == 'i' && |flag| > 7;
    TlsStep(debug, abs, flag, Some(v));
  }

  lemma LocalEqStep(debug: bool, abs: string -> Option<string>, v: string, f: Option<string>)
    requires abs(v).Some?
    ensures Step(debug, abs, "--local=" + v, f) == (["--local=" + Target(debug, abs(v).value)], false)
  {
    var arg := "--local=" + v;
    assert arg[8..] == v && arg[2] == 'l';
    var d, p, s := "--docker", "--pull=", "--debug-server-path=";
    assert !(d <= arg) && !(p <= arg) && !(s <= arg);
    assert arg != "--docker-image-version" && arg != "--pull" && arg != "--debug-server-path";
  }

  lemma LocalStep(debug: bool, abs: string -> Option<string>, v: string)
    requires abs(v).Some?
    ensures Step(debug, abs, "--local", Some(v)) == (["--local", Target(debug, abs(v).value)], true)
  {
    var arg := "--local";
    assert arg[2] == 'l' && |arg| == 7;
    var d, p, s, l := "--docker", "--pull=", "--debug-server-path=", "--local=";
    assert !(d <= arg) && !(p <= arg) && !(s <= arg) && !(l <= arg);
  }

  lemma SingleItem(item: Item)
    ensures AllWords([item]) == Words(item)
  {
    var items := [item];
    assert |items[1..]| == 0;
    assert AllWords(items[1..]) == [] && Words(item) + [] == Words(item);
  }

  lemma WordsOfMoved(a: seq<Item>, b: seq<Item>)
    requires |a| <= 1
    ensures AllWords(a + b) == AllWords(a) + AllWords(b)
  {
    if a == [] {
      assert a + b == b;
    } else {
      SingleItem(a[0]);
      assert a == [a[0]] && (a + b)[1..] == b;
    }
  }

  lemma MoveOne(debug: bool, abs: string -> Option<string>, item: Item, rest: seq<string>)
    requires ValidItem(debug, abs, item) && !item.RemoteExt?
    ensures Process(debug, abs, Words(item) + rest) ==
            AllWords(Moved(debug, abs, item)) + Process(debug, abs, rest)
  {
    var moved := Moved(debug, abs, item);
    if moved == [] {
      DroppedStep(debug, abs, item);
      Consume(debug, abs, Words(item), [], rest);
      assert AllWords(moved) == [] && [] + Process(debug, abs, rest) == Process(debug, abs, rest);
    } else {
      SingleItem(moved[0]);
      assert moved == [moved[0]];
      assert StepsTo(debug, abs, Words(item), Words(moved[0])) by {
        if item.Tls? {
          TlsPairStep(debug, abs, item.key, item.v);
        } else if item.TlsEq? {
          forall f: Option<string>
            ensures Step(debug, abs, Words(item)[0], f) == (Words(moved[0]), false)
          {
            TlsEqStep(debug, abs, item.key, item.v, f);
          }
        } else if item.LocalExt? {
          LocalStep(debug, abs, item.v);
        } else if item.LocalEq? {
          forall f: Option<string>
            ensures Step(debug, abs, Words(item)[0], f) == (Words(moved[0]), false)
          {
            LocalEqStep(debug, abs, item.v, f);
          }
        } else {
          OrdinaryStep(debug, abs, item.arg);
        }
      }
      Consume(debug, abs, Words(item), Words(moved[0]), rest);
    }
  }

  lemma MoveRemote(debug: bool, abs: string -> Option<string>, flag: string, v: string, rest: seq<string>)
    requires Ordinary(debug, flag) && Ordinary(debug, v)
    ensures Process(debug, abs, [flag, v] + rest) == [flag, v] + Process(debug, abs, rest)
  {
    OrdinaryStep(debug, abs, flag);
    OrdinaryStep(debug, abs, v);
    Consume(debug, abs, [flag], [flag], [v] + rest);
    Consume(debug, abs, [v], [v], rest);
    assert [flag, v] + rest == [flag] + ([v] + rest);
    assert [flag, v] + Process(debug, abs, rest) == [flag] + ([v] + Process(debug, abs, rest));
  }

  lemma ExtensionIsOrdinary(debug: bool)
    ensures Ordinary(debug, "--extension")
  {
    var flag := "--extension";
    assert flag[2] == 'e';
  }

  /** The rewriting works item by item: whatever surrounds it and whatever follows, each flag and its value become
      exactly their container form, in the same order. */
  lemma {:induction false} RewritingIsItemwise(debug: bool, abs: string -> Option<string>, items: seq<Item>,
                                               after: seq<string>)
    requires AllValid(debug, abs, items)
    ensures Process(debug, abs, AllWords(items) + after) ==
            AllWords(AllMoved(debug, abs, items)) + Process(debug, abs, after)
    decreases |items|
  {
    if items == [] {
      assert AllWords(items) + after == after;
      assert AllWords(AllMoved(debug, abs, items)) + Process(debug, abs, after) == Process(debug, abs, after);
    } else {
      var item, rest := items[0], items[1..];
      assert item in items;
      RewritingIsItemwise(debug, abs, rest, after);
      AppendAssociative(Words(item), AllWords(rest), after);
      WordsOfMoved(Moved(debug, abs, item), AllMoved(debug, abs, rest));
      var moved, later := AllWords(Moved(debug, abs, item)), AllWords(AllMoved(debug, abs, rest));
      AppendAssociative(moved, later, Process(debug, abs, after));
      if item.RemoteExt? {
        var flag := "--extension";
        ExtensionIsOrdinary(debug);
        MoveRemote(debug, abs, flag, item.v, AllWords(rest) + after);
        SingleItem(item);
      } else {
        MoveOne(debug, abs, item, AllWords(rest) + after);
      }
    }
  }

  /** A flag that takes a value. */
  datatype Bare = BareImageVersion | BarePull | BareDebugServer | BareLocal | BareTls(key: bool)

  function BareWord(b: Bare): string {
    match b
    case BareImageVersion => "--docker-image-version"
    case BarePull => "--pull"
    case BareDebugServer => "--debug-server-path"
    case BareLocal => "--local"
    case BareTls(key) => TlsFlag(key)
  }

  /** What is left of it when it stands last, without its value. */
  function BareEnd(b: Bare): seq<string> {
    match b
    case BareImageVersion => []
    case BareTls(key) => [TlsFlag(key) + "=" + if key then LISTENER_KEY else LISTENER_CERT]
    case _ => [BareWord(b)]
  }

  lemma BareTlsStep(debug: bool, abs: string -> Option<string>, key: bool)
    ensures Step(debug, abs, TlsFlag(key), None).0 == BareEnd(BareTls(key))
  {
    var flag := TlsFlag(key);
    TlsForms(key, []);
    assert flag[2] == 'l' && flag[3] == 'i' && |flag| > 7;
    TlsStep(debug, abs, flag, None);
  }

  lemma BareStays(debug: bool, abs: string -> Option<string>, w: string)
    requires '=' !in w && |w| > 3 && w[3] != 'i' && !(w[2] == 'd' && w[3] == 'o')
    ensures Step(debug, abs, w, None).0 == [w]
  {
    var docker, pull, server, local := "--docker", "--pull=", "--debug-server-path=", "--local=";
    assert docker[2] == 'd' && docker[3] == 'o' && !(docker <= w);
    assert '=' in pull && '=' in server && '=' in local by {
      assert pull[6] == '=' && server[19] == '=' && local[7] == '=';
    }
    assert !(pull <= w) && !(server <= w) && !(local <= w);
    var cert, key := "--listener-cert", "--listener-key";
    assert cert[3] == 'i' && key[3] == 'i' && FlagOf(w) == w;
  }

  lemma BareStep(debug: bool, abs: string -> Option<string>, b: Bare)
    ensures Step(debug, abs, BareWord(b), None).0 == BareEnd(b)
  {
    var w := BareWord(b);
    if b.BareTls? {
      BareTlsStep(debug, abs, b.key);
    } else if b.BareImageVersion? {
      var docker := "--docker";
      assert docker <= w;
    } else {
      assert '=' !in w;
      BareStays(debug, abs, w);
    }
  }

  /** A flag whose value is missing at the end of the line: the image version is dropped, a TLS flag gets its container
      path all the same, and any other stays. */
  lemma BareFlagAtEnd(debug: bool, abs: string -> Option<string>, items: seq<Item>, b: Bare)
    requires AllValid(debug, abs, items)
    ensures Process(debug, abs, AllWords(items) + [BareWord(b)]) ==
            AllWords(AllMoved(debug, abs, items)) + BareEnd(b)
  {
    var w := BareWord(b);
    var last := [w];
    RewritingIsItemwise(debug, abs, items, last);
    BareStep(debug, abs, b);
    var s := Step(debug, abs, w, None);
    assert Following(last, 0) == None && |From(last, if s.1 then 2 else 1)| == 0;
    assert Process(debug, abs, last) == s.0 + [] && s.0 + [] == s.0;
  }

  // ----- Positions. -----

  /** No word of the item but the flag of an extension is `--local` or `--extension`. */
  predicate Quiet(item: Item) {
    if item.LocalExt? || item.RemoteExt? then !IsExtFlag(item.v) else NoFlag(Words(item))
  }

  /** What the scan for positions records of an item. */
  function ItemMarks(abs: string -> Option<string>, item: Item): seq<Mark>
    requires item.LocalExt? ==> abs(item.v).Some?
  {
    match item
    case LocalExt(v) => [Local(abs(v).value)]
    case RemoteExt(v) => [Remote(v)]
    case _ => []
  }

  ghost predicate Readable(abs: string -> Option<string>, items: seq<Item>) {
    forall x :: x in items ==> Quiet(x) && (x.LocalExt? ==> abs(x.v).Some?)
  }

  ghost function AllMarks(abs: string -> Option<string>, items: seq<Item>): seq<Mark>
    requires Readable(abs, items)
    decreases |items|
  {
    if items == [] then []
    else assert items[0] in items; ItemMarks(abs, items[0]) + AllMarks(abs, items[1..])
  }

  lemma {:induction false} MarksOfItems(abs: string -> Option<string>, items: seq<Item>)
    requires Readable(abs, items)
    ensures Marks(abs, AllWords(items)) == Ok(AllMarks(abs, items))
    decreases |items|
  {
    if items != [] {
      var item, rest := items[0], AllWords(items[1..]);
      assert item in items;
      MarksOfItems(abs, items[1..]);
      if item.LocalExt? || item.RemoteExt? {
        var flag := if item.LocalExt? then "--local" else "--extension";
        assert Words(item) == [flag, item.v];
        MarksOfPair(abs, flag, item.v, rest);
      } else {
        MarksSkip(abs, Words(item), rest);
        var marks := AllMarks(abs, items[1..]);
        assert AllMarks(abs, items) == [] + marks && [] + marks == marks;
      }
    }
  }

  function MovedMark(debug: bool, m: Mark): Mark {
    match m
    case Local(k) => Local(Target(debug, k))
    case Remote(_) => m
  }

  function MovedMarks(debug: bool, ms: seq<Mark>): (r: seq<Mark>)
    ensures |r| == |ms| && forall i :: 0 <= i < |ms| ==> r[i] == MovedMark(debug, ms[i])
  {
    seq(|ms|, i requires 0 <= i < |ms| => MovedMark(debug, ms[i]))
  }

  /** In the container, a mount point is its own absolute path. */
  ghost predicate Settled(debug: bool, abs: string -> Option<string>, inside: string -> Option<string>,
                          items: seq<Item>)
  {
    forall x :: x in items && x.LocalExt? && abs(x.v).Some? ==>
      inside(Target(debug, abs(x.v).value)) == Some(Target(debug, abs(x.v).value))
  }

  /** Neither a rewritten TLS flag nor a one-word local flag is the flag of an extension. */
  lemma OneWordIsQuiet(item: Item, arg: string)
    requires Words(item) == [arg] && |arg| > 7 && arg[2] == 'l' && (arg[3] == 'i' || arg[7] == '=')
    requires !item.LocalExt? && !item.RemoteExt?
    ensures Quiet(item)
  {
    var local, ext := "--local", "--extension";
    assert |local| == 7 && ext[2] == 'e';
  }

  lemma MovedIsQuiet(debug: bool, abs: string -> Option<string>, item: Item)
    requires Absolute(abs) && ValidItem(debug, abs, item) && Quiet(item)
    ensures forall x :: x in Moved(debug, abs, item) ==> Quiet(x)
  {
    var moved := Moved(debug, abs, item);
    if item.LocalExt? {
      TargetIsAbsolute(debug, abs(item.v).value);
    } else if item.Tls? || item.TlsEq? || item.LocalEq? {
      OneWordIsQuiet(moved[0], Words(moved[0])[0]);
    }
  }

  lemma MovedMarksAppend(debug: bool, a: seq<Mark>, b: seq<Mark>)
    ensures MovedMarks(debug, a + b) == MovedMarks(debug, a) + MovedMarks(debug, b)
  {
  }

  lemma MarkMoves(debug: bool, abs: string -> Option<string>, inside: string -> Option<string>, item: Item)
    requires ValidItem(debug, abs, item) && Settled(debug, abs, inside, [item])
    ensures forall x :: x in Moved(debug, abs, item) && x.LocalExt? ==> inside(x.v).Some?
    ensures (if Moved(debug, abs, item) == [] then [] else ItemMarks(inside, Moved(debug, abs, item)[0])) ==
            MovedMarks(debug, ItemMarks(abs, item))
  {
    assert item in [item];
  }

  lemma {:induction false} MarksMove(debug: bool, abs: string -> Option<string>, inside: string -> Option<string>,
                                     items: seq<Item>)
    requires Absolute(abs) && AllValid(debug, abs, items) && Readable(abs, items)
    requires Settled(debug, abs, inside, items)
    ensures Readable(inside, AllMoved(debug, abs, items))
    ensures AllMarks(inside, AllMoved(debug, abs, items)) == MovedMarks(debug, AllMarks(abs, items))
    decreases |items|
  {
    if items != [] {
      var item, rest := items[0], items[1..];
      assert item in items;
      MarksMove(debug, abs, inside, rest);
      MovedIsQuiet(debug, abs, item);
      MarkMoves(debug, abs, inside, item);
      var moved, more := Moved(debug, abs, item), AllMoved(debug, abs, rest);
      assert forall x :: x in moved + more <==> x in moved || x in more;
      MarksOfMoved(inside, moved, more);
      MovedMarksAppend(debug, ItemMarks(abs, item), AllMarks(abs, rest));
    }
  }

  lemma MarksOfMoved(abs: string -> Option<string>, a: seq<Item>, b: seq<Item>)
    requires |a| <= 1 && Readable(abs, a) && Readable(abs, b) && Readable(abs, a + b)
    ensures AllMarks(abs, a + b) == (if a == [] then [] else ItemMarks(abs, a[0])) + AllMarks(abs, b)
  {
    if a == [] {
      assert a + b == b;
    } else {
      assert (a + b)[0] == a[0] && (a + b)[1..] == b;
    }
  }

  /** Two extensions with different paths have the same name in the container. */
  ghost predicate NamesClash(ms: seq<Mark>) {
    exists i, j :: 0 <= i < |ms| && 0 <= j < |ms| && ms[i].Local? && ms[j].Local? && ms[i] != ms[j]
                   && Base(ms[i].key) == Base(ms[j].key)
  }

  /** Positions that were told apart are still told apart, and positions of the same extension still coincide. */
  ghost predicate SameGrouping(a: seq<Mark>, b: seq<Mark>)
    requires |a| == |b|
  {
    forall i, j :: 0 <= i < |a| && 0 <= j < |a| ==> (a[i] == a[j] <==> b[i] == b[j])
  }

  lemma TargetInjective(a: string, b: string)
    ensures Target(false, a) == Target(false, b) <==> Base(a) == Base(b)
  {
    var dir := EXTENSIONS_DIR + "/";
    assert Target(false, a)[|dir|..] == Base(a) && Target(false, b)[|dir|..] == Base(b);
  }

  lemma GroupingIff(debug: bool, ms: seq<Mark>)
    ensures SameGrouping(ms, MovedMarks(debug, ms)) <==> debug || !NamesClash(ms)
  {
    var moved := MovedMarks(debug, ms);
    if NamesClash(ms) && !debug {
      var i, j :| 0 <= i < |ms| && 0 <= j < |ms| && ms[i].Local? && ms[j].Local? && ms[i] != ms[j]
                  && Base(ms[i].key) == Base(ms[j].key);
      assert moved[i] == moved[j];
    } else {
      forall i, j | 0 <= i < |ms| && 0 <= j < |ms|
        ensures ms[i] == ms[j] <==> moved[i] == moved[j]
      {
        if !debug { TargetInjective(ms[i].key, ms[j].key); }
      }
    }
  }

  /** The container records the same extensions at the same positions: the same list of marks, with every local path
      replaced by its mount point. Distinct extensions stay distinct if and only if no two of them share a base name,
      or in debug mode. */
  lemma PositionsAreKept(debug: bool, abs: string -> Option<string>, inside: string -> Option<string>,
                         items: seq<Item>)
    requires Absolute(abs) && AllValid(debug, abs, items) && Readable(abs, items)
    requires Settled(debug, abs, inside, items)
    ensures var host := AllMarks(abs, items);
            && Marks(abs, AllWords(items)) == Ok(host)
            && Marks(inside, Process(debug, abs, AllWords(items))) == Ok(MovedMarks(debug, host))
            && (SameGrouping(host, MovedMarks(debug, host)) <==> debug || !NamesClash(host))
  {
    MarksOfItems(abs, items);
    RewritingIsItemwise(debug, abs, items, []);
    assert AllWords(items) + [] == AllWords(items);
    assert AllWords(AllMoved(debug, abs, items)) + [] == AllWords(AllMoved(debug, abs, items));
    MarksMove(debug, abs, inside, items);
    MarksOfItems(inside, AllMoved(debug, abs, items));
    GroupingIff(debug, AllMarks(abs, items));
  }

  // ----- Mounts. -----

  /** The mounts come in pairs, one per local extension, in order. */
  lemma {:induction false} MountOf(abs: string -> Option<string>, locals: seq<string>, i: nat)
    requires i < |locals|
    ensures Mounts(abs, locals).Some? ==>
              var mounts := Mounts(abs, locals).value;
              && |mounts| == 2 * |locals| && abs(locals[i]).Some? && mounts[2 * i] == "-v"
              && mounts[2 * i + 1] == abs(locals[i]).value + ":" + Target(false, abs(locals[i]).value)
    decreases |locals|
  {
    if |locals| > 1 && Mounts(abs, locals).Some? { MountOf(abs, locals[1..], if i == 0 then 0 else i - 1); }
  }

  /** Both spellings of a local extension are rewritten to the place where its own host path is mounted. */
  lemma RewrittenPathIsMounted(abs: string -> Option<string>, locals: seq<string>, i: nat)
    requires i < |locals| && Mounts(abs, locals).Some?
    ensures abs(locals[i]).Some? && |Mounts(abs, locals).value| == 2 * |locals|
    ensures var w := Target(false, abs(locals[i]).value);
            && Moved(false, abs, LocalExt(locals[i])) == [LocalExt(w)]
            && Moved(false, abs, LocalEq(locals[i])) == [LocalEq(w)]
            && Mounts(abs, locals).value[2 * i + 1] == abs(locals[i]).value + ":" + w
  {
    MountOf(abs, locals, i);
  }

  lemma {:induction false} AfterSlashOf(dir: string, name: string)
    requires '/' !in name
    ensures AfterSlash(dir + "/" + name) == name
    decreases |name|
  {
    var path := dir + "/" + name;
    if name != [] {
      var n := |name| - 1;
      AfterSlashOf(dir, name[..n]);
      assert path[..|path| - 1] == dir + "/" + name[..n];
      assert path[|path| - 1] == name[n] && name[n] in name;
    }
  }

  predicate AreSlashes(s: string) {
    forall i :: 0 <= i < |s| ==> s[i] == '/'
  }

  lemma {:induction false} TrimsSlashes(path: string, slashes: string)
    requires AreSlashes(slashes) && (path != [] ==> path[|path| - 1] != '/')
    ensures TrimSlashes(path + slashes) == path
    decreases |slashes|
  {
    var all := path + slashes;
    if slashes == [] {
      assert all == path;
    } else {
      var fewer := slashes[..|slashes| - 1];
      assert all[..|all| - 1] == path + fewer && all[|all| - 1] == '/';
      TrimsSlashes(path, fewer);
    }
  }

  /** `filepath.Base`: the last name of the path, whatever slashes follow it; a slash for slashes alone. */
  lemma BaseIsLastName(dir: string, name: string, slashes: string)
    requires name != [] && '/' !in name && AreSlashes(slashes)
    ensures Base(dir + "/" + name + slashes) == name
    ensures slashes != [] ==> Base(slashes) == "/"
  {
    var path := dir + "/" + name;
    assert path[|path| - 1] == name[|name| - 1] && name[|name| - 1] in name;
    TrimsSlashes(path, slashes);
    AfterSlashOf(dir, name);
    assert [] + slashes == slashes;
    TrimsSlashes([], slashes);
  }

  /** Extensions of the same name in different directories are mounted at the same place. */
  lemma SameNameCollides(a: string, b: string, name: string)
    requires name != [] && '/' !in name
    ensures Base(a + "/" + name) == name
    ensures Target(false, a + "/" + name) == Target(false, b + "/" + name) == "/var/boe/run/extensions/" + name
    ensures Target(true, a + "/" + name) == a + "/" + name
  {
    AfterSlashOf(a, name);
    AfterSlashOf(b, name);
    assert name[|name| - 1] in name;
    assert EXTENSIONS_DIR + "/" == "/var/boe/run/extensions/";
  }
}
