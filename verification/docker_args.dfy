/** Running in Docker: the command line is rewritten for the container and local extensions are mounted into it. */
module DockerArgs {
  import opened ByteText
  import opened CliArgs

  const EXTENSIONS_DIR := "/var/boe/run/extensions"
  const LISTENER_CERT := "/var/boe/run/tls/listener.crt"
  const LISTENER_KEY := "/var/boe/run/tls/listener.key"

  // ----- Paths. -----

  function TrimSlashes(path: string): string {
    if path != [] && path[|path| - 1] == '/' then TrimSlashes(path[..|path| - 1]) else path
  }

  function AfterSlash(path: string): string {
    if path == [] || path[|path| - 1] == '/' then [] else AfterSlash(path[..|path| - 1]) + [path[|path| - 1]]
  }

  /** `filepath.Base`. */
  function Base(path: string): string {
    if path == [] then "."
    else if TrimSlashes(path) == [] then "/"
    else AfterSlash(TrimSlashes(path))
  }

  /** Where the extension at an absolute host path appears in the container; in debug mode, at the same path. */
  function Target(debug: bool, path: string): string {
    if debug then path else EXTENSIONS_DIR + "/" + Base(path)
  }

  // ----- The arguments that are treated specially. -----

  predicate IsDocker(arg: string) {
    HasPrefix(arg, "--docker")
  }

  predicate IsPullEq(arg: string) {
    HasPrefix(arg, "--pull=")
  }

  predicate IsLocalEq(arg: string) {
    HasPrefix(arg, "--local=")
  }

  predicate IsDebugServerEq(arg: string) {
    HasPrefix(arg, "--debug-server-path=")
  }

  /** `strings.Cut` at the first '='. */
  function FlagOf(arg: string): string {
    if IndexOf(arg, '=') < 0 then arg else arg[..IndexOf(arg, '=')]
  }

  predicate IsTls(arg: string) {
    FlagOf(arg) == "--listener-cert" || FlagOf(arg) == "--listener-key"
  }

  function TlsArg(arg: string): string
    requires IsTls(arg)
  {
    FlagOf(arg) + "=" + if FlagOf(arg) == "--listener-cert" then LISTENER_CERT else LISTENER_KEY
  }

  /** What one argument becomes, given the one that follows, and whether the follower is used up as its value. */
  function Step(debug: bool, abs: string -> Option<string>, arg: string, following: Option<string>)
    : (seq<string>, bool)
  {
    var more := following.Some?;
    if arg == "--docker-image-version" && more then ([], true)
    else if IsDocker(arg) || IsPullEq(arg) then ([], false)
    else if arg == "--pull" && more then ([], true)
    else if debug && arg == "--debug-server-path" && more then ([], true)
    else if debug && IsDebugServerEq(arg) then ([], false)
    else if IsLocalEq(arg) && abs(arg[8..]).Some? then (["--local=" + Target(debug, abs(arg[8..]).value)], false)
    else if arg == "--local" && more && abs(following.value).Some? then
      (["--local", Target(debug, abs(following.value).value)], true)
    else if IsTls(arg) then ([TlsArg(arg)], '=' !in arg)
    else ([arg], false)
  }

  function Following(args: seq<string>, i: nat): Option<string> {
    if i + 1 < |args| then Some(args[i + 1]) else None
  }

  function From(args: seq<string>, i: nat): seq<string> {
    if i <= |args| then args[i..] else []
  }

  function Process(debug: bool, abs: string -> Option<string>, args: seq<string>): seq<string>
    decreases |args|
  {
    if args == [] then []
    else
      var s := Step(debug, abs, args[0], Following(args, 0));
      s.0 + Process(debug, abs, From(args, if s.1 then 2 else 1))
  }

  method LocalExtensionContainerPath(abs: string -> Option<string>, ext: string) returns (r: Option<string>)
    ensures r == if abs(ext).Some? then Some(Target(false, abs(ext).value)) else None
  {
    var path := abs(ext);
    if path.None? { return None; }
    return Some(EXTENSIONS_DIR + "/" + Base(path.value));
  }

  method ListenerTlsContainerArg(arg: string) returns (r: Option<string>)
    ensures r == if IsTls(arg) then Some(TlsArg(arg)) else None
  {
    var flag := FlagOf(arg);
    if flag == "--listener-cert" {
      return Some(flag + "=" + LISTENER_CERT);
    } else if flag == "--listener-key" {
      return Some(flag + "=" + LISTENER_KEY);
    }
    return None;
  }

  /** The body of the loop; `skip` is whether the next argument is passed over. */
  method StepArg(debug: bool, abs: string -> Option<string>, arg: string, following: Option<string>)
    returns (out: seq<string>, skip: bool)
    ensures (out, skip) == Step(debug, abs, arg, following)
  {
    if arg == "--docker-image-version" && following.Some? { return [], true; }
    if IsDocker(arg) { return [], false; }
    if IsPullEq(arg) { return [], false; }
    if arg == "--pull" && following.Some? { return [], true; }
    if debug {
      if arg == "--debug-server-path" && following.Some? { return [], true; }
      if IsDebugServerEq(arg) { return [], false; }
    }
    out, skip := RewriteArg(debug, abs, arg, following);
  }

  /** The part of the loop body that looks at local extensions and TLS files. */
  method RewriteArg(debug: bool, abs: string -> Option<string>, arg: string, following: Option<string>)
    returns (out: seq<string>, skip: bool)
    ensures (out, skip) ==
            if IsLocalEq(arg) && abs(arg[8..]).Some? then (["--local=" + Target(debug, abs(arg[8..]).value)], false)
            else if arg == "--local" && following.Some? && abs(following.value).Some? then
              (["--local", Target(debug, abs(following.value).value)], true)
            else if IsTls(arg) then ([TlsArg(arg)], '=' !in arg)
            else ([arg], false)
  {
    if debug {
      if IsLocalEq(arg) && abs(arg[8..]).Some? {
        return ["--local=" + abs(arg[8..]).value], false;
      }
      if arg == "--local" && following.Some? && abs(following.value).Some? {
        return ["--local", abs(following.value).value], true;
      }
    }
    if IsLocalEq(arg) {
      var newVal := LocalExtensionContainerPath(abs, arg[8..]);
      if newVal.Some? { return ["--local=" + newVal.value], false; }
    }
    if arg == "--local" && following.Some? {
      var newVal := LocalExtensionContainerPath(abs, following.value);
      if newVal.Some? { return ["--local", newVal.value], true; }
    }
    var tls := ListenerTlsContainerArg(arg);
    if tls.Some? { return [tls.value], '=' !in arg; }
    return [arg], false;
  }

  /** `processCommandArgs`; the first argument is the program. */
  method ProcessCommandArgs(debug: bool, abs: string -> Option<string>, args: seq<string>)
    returns (processed: seq<string>)
    ensures processed == Process(debug, abs, From(args, 1))
  {
    processed := [];
    var i: nat := 1;
    assert forall x: seq<string> :: [] + x == x;
    while i < |args|
      invariant processed + Process(debug, abs, From(args, i)) == Process(debug, abs, From(args, 1))
      decreases |args| - i
    {
      var out, skip := StepArg(debug, abs, args[i], Following(args, i));
      ProcessStep(debug, abs, args, i);
      AppendAssociative(processed, out, Process(debug, abs, From(args, if skip then i + 2 else i + 1)));
      processed := processed + out;
      if skip { i := i + 1; }
      i := i + 1;
    }
    assert From(args, i) == [] && processed + [] == processed;
  }

  lemma ProcessStep(debug: bool, abs: string -> Option<string>, args: seq<string>, i: nat)
    requires i < |args|
    ensures var s := Step(debug, abs, args[i], Following(args, i));
            Process(debug, abs, From(args, i)) == s.0 + Process(debug, abs, From(args, if s.1 then i + 2 else i + 1))
  {
    var rest := args[i..];
    assert From(args, i) == rest && rest[0] == args[i] && Following(rest, 0) == Following(args, i);
    assert From(rest, 1) == From(args, i + 1) && From(rest, 2) == From(args, i + 2);
  }

  // ----- Mounts. -----

  /** The volume arguments of the local extensions; None when a path cannot be made absolute. */
  function Mounts(abs: string -> Option<string>, locals: seq<string>): Option<seq<string>>
    decreases |locals|
  {
    if locals == [] then Some([])
    else
      match (abs(locals[0]), Mounts(abs, locals[1..]))
      case (Some(path), Some(rest)) => Some(["-v", path + ":" + Target(false, path)] + rest)
      case _ => None
  }

  function PrependMounts(done: seq<string>, rest: Option<seq<string>>): Option<seq<string>> {
    if rest.Some? then Some(done + rest.value) else None
  }

  /** `processLocalExtensions`. */
  method ProcessLocalExtensions(abs: string -> Option<string>, locals: seq<string>) returns (r: Option<seq<string>>)
    ensures r == Mounts(abs, locals)
  {
    var args: seq<string> := [];
    assert locals[0..] == locals && forall x: seq<string> :: [] + x == x;
    for i := 0 to |locals|
      invariant PrependMounts(args, Mounts(abs, locals[i..])) == Mounts(abs, locals)
    {
      assert locals[i..][1..] == locals[i + 1..];
      var path := abs(locals[i]);
      if path.None? { return None; }
      var containerPath := LocalExtensionContainerPath(abs, locals[i]);
      var mount := ["-v", path.value + ":" + containerPath.value];
      var rest := Mounts(abs, locals[i + 1..]);
      if rest.Some? { AppendAssociative(args, mount, rest.value); }
      args := args + mount;
    }
    assert args + [] == args;
    return Some(args);
  }
}
