/** Extension order across processes: the web UI prints a `boe run` command line, the CLI records where each
    `--extension` and `--local` flag stands, and `sort` puts the loaded manifests back into those places. */
module CliArgs {
  import opened ByteText

  /** A Go call that returns a value, returns an error, or panics. */
  datatype Outcome<+T> = Ok(value: T) | Err | Panic

  // ----- The command line the UI builds. -----

  datatype Ext = Ext(name: string, localPath: string, config: string, filterType: string)

  predicate IsLocal(e: Ext) {
    e.localPath != ""
  }

  function ExtArg(e: Ext): seq<string> {
    if IsLocal(e) then ["--local", e.localPath] else ["--extension", e.name]
  }

  function ConfigArg(e: Ext): seq<string> {
    ["--config", e.config]
  }

  function FilterTypeArg(e: Ext): seq<string> {
    ["--filter-type", e.filterType]
  }

  function FlatMap(f: Ext -> seq<string>, exts: seq<Ext>): seq<string>
    decreases |exts|
  {
    if exts == [] then [] else f(exts[0]) + FlatMap(f, exts[1..])
  }

  predicate HasFilterType(exts: seq<Ext>) {
    exists i :: 0 <= i < |exts| && exts[i].filterType != ""
  }

  function FilterTypeArgs(exts: seq<Ext>): seq<string> {
    if HasFilterType(exts) then FlatMap(FilterTypeArg, exts) else []
  }

  /** What comes after the extensions. */
  function Tail(exts: seq<Ext>): seq<string> {
    FlatMap(ConfigArg, exts) + FilterTypeArgs(exts)
  }

  /** What comes before the extensions; the free ports are passed only when they could be found. */
  function Head(action: string, baseArgs: seq<string>, ports: Option<(string, string)>): seq<string> {
    [action] + baseArgs +
    if ports.Some? then ["--listen-port", ports.value.0, "--admin-port", ports.value.1] else []
  }

  method AppendAll(args: seq<string>, f: Ext -> seq<string>, exts: seq<Ext>) returns (r: seq<string>)
    ensures r == args + FlatMap(f, exts)
  {
    r := args;
    assert exts[0..] == exts;
    for i := 0 to |exts|
      invariant r + FlatMap(f, exts[i..]) == args + FlatMap(f, exts)
    {
      assert exts[i..][1..] == exts[i + 1..];
      AppendAssociative(r, f(exts[i]), FlatMap(f, exts[i + 1..]));
      r := r + f(exts[i]);
    }
    assert r + FlatMap(f, exts[|exts|..]) == r;
  }

  method BuildArgs(action: string, baseArgs: seq<string>, ports: Option<(string, string)>, exts: seq<Ext>)
    returns (args: seq<string>)
    ensures args == Head(action, baseArgs, ports) + FlatMap(ExtArg, exts) + Tail(exts)
    ensures [action] + baseArgs <= args
    ensures ports.Some? ==>
              [action] + baseArgs + ["--listen-port", ports.value.0, "--admin-port", ports.value.1] <= args
  {
    args := [action] + baseArgs;
    if ports.Some? {
      args := args + ["--listen-port", ports.value.0, "--admin-port", ports.value.1];
    }
    assert args == Head(action, baseArgs, ports);
    args := AppendAll(args, ExtArg, exts);
    ghost var front := args;
    args := AppendAll(args, ConfigArg, exts);
    var hasFilterType := false;
    for i := 0 to |exts|
      invariant !hasFilterType && forall j :: 0 <= j < i ==> exts[j].filterType == ""
    {
      if exts[i].filterType != "" {
        hasFilterType := true;
        break;
      }
    }
    AppendAssociative(front, FlatMap(ConfigArg, exts), FilterTypeArgs(exts));
    if hasFilterType {
      args := AppendAll(args, FilterTypeArg, exts);
    }
  }

  // ----- Recording positions. -----

  /** One recorded flag: a local extension by absolute path, or a remote one by reference. */
  datatype Mark = Local(key: string) | Remote(key: string)

  predicate IsExtFlag(arg: string) {
    arg == "--local" || arg == "--extension"
  }

  function Prepend(done: seq<Mark>, rest: Outcome<seq<Mark>>): Outcome<seq<Mark>> {
    if rest.Ok? then Ok(done + rest.value) else rest
  }

  /** What one flag records; the value is the next argument, which may be missing. */
  function MarkAt(abs: string -> Option<string>, args: seq<string>): Outcome<Mark>
    requires args != [] && IsExtFlag(args[0])
  {
    if |args| == 1 then Panic
    else if args[0] == "--extension" then Ok(Remote(args[1]))
    else if abs(args[1]).Some? then Ok(Local(abs(args[1]).value))
    else Err
  }

  /** Every flag of the command line, in order. */
  function Marks(abs: string -> Option<string>, args: seq<string>): Outcome<seq<Mark>>
    decreases |args|
  {
    if args == [] then Ok([])
    else if !IsExtFlag(args[0]) then Marks(abs, args[1..])
    else
      match MarkAt(abs, args)
      case Panic => Panic
      case Err => Err
      case Ok(m) => Prepend([m], Marks(abs, args[1..]))
  }

  datatype Positions = Positions(local: map<string, seq<nat>>, remote: map<string, seq<nat>>)

  /** The places of `m` among the marks, in increasing order. */
  function IndicesOf(marks: seq<Mark>, m: Mark): (r: seq<nat>)
    ensures forall p :: p in r <==> 0 <= p < |marks| && marks[p] == m
    ensures forall i, j :: 0 <= i < j < |r| ==> r[i] < r[j]
    ensures m !in marks ==> r == []
  {
    if marks == [] then []
    else
      var n := |marks| - 1;
      var r := IndicesOf(marks[..n], m);
      assert forall i :: 0 <= i < |r| ==> r[i] in r;
      if marks[n] == m then r + [n] else r
  }

  function Mk(local: bool, key: string): Mark {
    if local then Local(key) else Remote(key)
  }

  /** The map holds, for each flag value, exactly the places where it was given. */
  ghost predicate RecordsKind(table: map<string, seq<nat>>, marks: seq<Mark>, local: bool) {
    && (forall k :: k in table <==> Mk(local, k) in marks)
    && (forall k :: k in table ==> table[k] == IndicesOf(marks, Mk(local, k)))
  }

  ghost predicate Records(p: Positions, marks: seq<Mark>) {
    RecordsKind(p.local, marks, true) && RecordsKind(p.remote, marks, false)
  }

  function Append(table: map<string, seq<nat>>, key: string, index: nat): map<string, seq<nat>> {
    table[key := (if key in table then table[key] else []) + [index]]
  }

  lemma IndicesSnoc(marks: seq<Mark>, m: Mark, x: Mark)
    ensures IndicesOf(marks + [m], x) == IndicesOf(marks, x) + if x == m then [|marks|] else []
  {
    assert (marks + [m])[..|marks|] == marks;
  }

  lemma AddSame(table: map<string, seq<nat>>, marks: seq<Mark>, local: bool, key: string)
    requires RecordsKind(table, marks, local)
    ensures RecordsKind(Append(table, key, |marks|), marks + [Mk(local, key)], local)
  {
    var m := Mk(local, key);
    forall k | k in Append(table, key, |marks|)
      ensures Append(table, key, |marks|)[k] == IndicesOf(marks + [m], Mk(local, k))
    {
      IndicesSnoc(marks, m, Mk(local, k));
    }
  }

  lemma AddOther(table: map<string, seq<nat>>, marks: seq<Mark>, local: bool, key: string)
    requires RecordsKind(table, marks, local)
    ensures RecordsKind(table, marks + [Mk(!local, key)], local)
  {
    forall k | k in table
      ensures table[k] == IndicesOf(marks + [Mk(!local, key)], Mk(local, k))
    {
      IndicesSnoc(marks, Mk(!local, key), Mk(local, k));
    }
  }

  lemma PrependTwice(done: seq<Mark>, m: Mark, rest: Outcome<seq<Mark>>)
    ensures Prepend(done, Prepend([m], rest)) == Prepend(done + [m], rest)
  {
    if rest.Ok? { AppendAssociative(done, [m], rest.value); }
  }

  /** `saveExtensionPositions`. */
  method SaveExtensionPositions(abs: string -> Option<string>, args: seq<string>) returns (r: Outcome<Positions>)
    ensures Marks(abs, args).Ok? <==> r.Ok?
    ensures Marks(abs, args).Panic? <==> r.Panic?
    ensures r.Ok? ==> Records(r.value, Marks(abs, args).value)
  {
    var index: nat := 0;
    var positions := Positions(map[], map[]);
    ghost var done: seq<Mark> := [];
    assert args[0..] == args && forall x: seq<Mark> :: [] + x == x;
    for i := 0 to |args|
      invariant index == |done| && Records(positions, done)
      invariant Prepend(done, Marks(abs, args[i..])) == Marks(abs, args)
    {
      ghost var rest := args[i..];
      assert rest[1..] == args[i + 1..];
      if args[i] == "--local" {
        if i + 1 == |args| { return Panic; }
        var key := abs(args[i + 1]);
        if key.None? { return Err; }
        AddSame(positions.local, done, true, key.value);
        AddOther(positions.remote, done, false, key.value);
        PrependTwice(done, Local(key.value), Marks(abs, rest[1..]));
        positions := positions.(local := Append(positions.local, key.value, index));
        index, done := index + 1, done + [Local(key.value)];
      } else if args[i] == "--extension" {
        if i + 1 == |args| { return Panic; }
        var key := args[i + 1];
        AddSame(positions.remote, done, false, key);
        AddOther(positions.local, done, true, key);
        PrependTwice(done, Remote(key), Marks(abs, rest[1..]));
        positions := positions.(remote := Append(positions.remote, key, index));
        index, done := index + 1, done + [Remote(key)];
      }
    }
    assert done + [] == done;
    return Ok(positions);
  }

  // ----- Sorting the manifests. -----

  /** `dir` is the directory of the manifest's path. */
  datatype Manifest = Manifest(name: string, dir: string, remote: bool, remoteRef: string, filterTypes: seq<string>)

  predicate Matches(abs: string -> Option<string>, m: Manifest, mark: Mark) {
    match mark
    case Local(k) => abs(m.dir) == Some(k)
    case Remote(k) => m.remote && m.remoteRef == k
  }

  /** The first manifest that matches (`slices.IndexFunc`). */
  function Find(abs: string -> Option<string>, ms: seq<Manifest>, mark: Mark): (r: Option<Manifest>)
    ensures r.Some? ==> exists i ::
              && 0 <= i < |ms| && ms[i] == r.value && Matches(abs, ms[i], mark)
              && forall j :: 0 <= j < i ==> !Matches(abs, ms[j], mark)
    ensures r.None? ==> forall i :: 0 <= i < |ms| ==> !Matches(abs, ms[i], mark)
    decreases |ms|
  {
    if ms == [] then None
    else if Matches(abs, ms[0], mark) then Some(ms[0])
    else
      var r := Find(abs, ms[1..], mark);
      assert r.Some? ==> exists i ::
               && 0 <= i < |ms| && ms[i] == r.value && Matches(abs, ms[i], mark)
               && forall j :: 0 <= j < i ==> !Matches(abs, ms[j], mark) by {
        if r.Some? {
          var i :| && 0 <= i < |ms[1..]| && ms[1..][i] == r.value && Matches(abs, ms[1..][i], mark)
                   && forall j :: 0 <= j < i ==> !Matches(abs, ms[1..][j], mark);
          assert ms[i + 1] == ms[1..][i];
          assert forall j :: 0 < j < i + 1 ==> ms[j] == ms[1..][j - 1];
        }
      }
      r
  }

  predicate AllFound(abs: string -> Option<string>, ms: seq<Manifest>, marks: seq<Mark>) {
    forall i :: 0 <= i < |marks| ==> Find(abs, ms, marks[i]).Some?
  }

  /** Slot `p` holds the manifest found for mark `p`; a slot beyond the marks stays nil. */
  function Slot(abs: string -> Option<string>, ms: seq<Manifest>, marks: seq<Mark>, p: nat): Option<Manifest> {
    if p < |marks| then Find(abs, ms, marks[p]) else None
  }

  ghost predicate Filled(abs: string -> Option<string>, ms: seq<Manifest>, marks: seq<Mark>,
                         slots: seq<Option<Manifest>>)
  {
    |slots| == |ms| && forall p :: 0 <= p < |slots| ==> slots[p] == Slot(abs, ms, marks, p)
  }

  /** The body of both loops of `sort`: find the manifest of one key and write it into its places. */
  method Place(abs: string -> Option<string>, ms: seq<Manifest>, mark: Mark, places: seq<nat>,
               slots: array<Option<Manifest>>)
    returns (r: Outcome<()>)
    modifies slots
    ensures r.Ok? ==> Find(abs, ms, mark).Some? && forall p :: p in places ==> p < slots.Length
    ensures r.Ok? ==> forall p :: 0 <= p < slots.Length ==>
              slots[p] == if p in places then Find(abs, ms, mark) else old(slots[p])
    ensures r.Err? ==> Find(abs, ms, mark).None?
    ensures r.Panic? ==> exists p :: p in places && p >= slots.Length
  {
    var found := Find(abs, ms, mark);
    if found.None? { return Err; }
    for i := 0 to |places|
      invariant forall p :: p in places[..i] ==> p < slots.Length
      invariant forall p :: 0 <= p < slots.Length ==>
                  slots[p] == if p in places[..i] then found else old(slots[p])
    {
      assert places[..i + 1] == places[..i] + [places[i]];
      assert places[i] in places;
      if places[i] >= slots.Length { return Panic; }
      slots[places[i]] := found;
    }
    assert places[..|places|] == places;
    return Ok(());
  }

  /** The slots once the marks in `seen` have been placed. */
  ghost predicate Placed(abs: string -> Option<string>, ms: seq<Manifest>, marks: seq<Mark>, seen: set<Mark>,
                         slots: seq<Option<Manifest>>)
  {
    && |slots| == |ms|
    && (forall p :: 0 <= p < |marks| && marks[p] in seen ==> p < |ms| && Find(abs, ms, marks[p]).Some?)
    && forall p :: 0 <= p < |slots| ==>
         slots[p] == if p < |marks| && marks[p] in seen then Find(abs, ms, marks[p]) else None
  }

  ghost function OfKind(marks: seq<Mark>, local: bool): set<Mark> {
    set m | m in marks && m.Local? == local
  }

  ghost predicate Lists(order: seq<string>, table: map<string, seq<nat>>) {
    forall k :: k in order <==> k in table
  }

  lemma PlaceStep(abs: string -> Option<string>, ms: seq<Manifest>, marks: seq<Mark>, seen: set<Mark>, m: Mark,
                  before: seq<Option<Manifest>>, after: seq<Option<Manifest>>)
    requires Placed(abs, ms, marks, seen, before) && |after| == |before| && Find(abs, ms, m).Some?
    requires forall p :: p in IndicesOf(marks, m) ==> p < |ms|
    requires forall p :: 0 <= p < |after| ==>
               after[p] == if p in IndicesOf(marks, m) then Find(abs, ms, m) else before[p]
    ensures Placed(abs, ms, marks, seen + {m}, after)
  {
  }

  /** The marks seen after the keys `order` of one map. */
  ghost function With(seen: set<Mark>, local: bool, order: seq<string>): set<Mark> {
    seen + set k | k in order :: Mk(local, k)
  }

  lemma WithStep(seen: set<Mark>, local: bool, order: seq<string>, i: nat)
    requires i < |order|
    ensures With(seen, local, order[..i + 1]) == With(seen, local, order[..i]) + {Mk(local, order[i])}
  {
    assert order[..i + 1] == order[..i] + [order[i]];
  }

  lemma WithAll(table: map<string, seq<nat>>, order: seq<string>, marks: seq<Mark>, local: bool, seen: set<Mark>)
    requires RecordsKind(table, marks, local) && Lists(order, table)
    ensures With(seen, local, order) == seen + OfKind(marks, local)
  {
    forall m: Mark | m.Local? == local
      ensures m.key in order <==> m in marks
    {
      assert m == Mk(local, m.key);
    }
    forall m | m in OfKind(marks, local)
      ensures m in With(seen, local, order)
    {
      assert m == Mk(local, m.key);
    }
  }

  /** Why placing one key fails. */
  lemma WhyNot(abs: string -> Option<string>, ms: seq<Manifest>, marks: seq<Mark>, m: Mark)
    requires m in marks
    ensures Find(abs, ms, m).None? ==> !AllFound(abs, ms, marks)
    ensures (exists p :: p in IndicesOf(marks, m) && p >= |ms|) ==> |marks| > |ms|
  {
  }

  /** One loop of `sort`, over the keys of one map in any order. */
  method PlaceAll(abs: string -> Option<string>, ms: seq<Manifest>, local: bool, table: map<string, seq<nat>>,
                  order: seq<string>, slots: array<Option<Manifest>>, ghost marks: seq<Mark>, ghost seen: set<Mark>)
    returns (r: Outcome<()>)
    requires RecordsKind(table, marks, local) && Lists(order, table) && Placed(abs, ms, marks, seen, slots[..])
    modifies slots
    ensures r.Ok? ==> Placed(abs, ms, marks, seen + OfKind(marks, local), slots[..])
    ensures r.Err? ==> !AllFound(abs, ms, marks)
    ensures r.Panic? ==> |marks| > |ms|
  {
    assert With(seen, local, order[..0]) == seen;
    for i := 0 to |order|
      invariant Placed(abs, ms, marks, With(seen, local, order[..i]), slots[..])
    {
      var mark := Mk(local, order[i]);
      assert order[i] in table;
      WhyNot(abs, ms, marks, mark);
      WithStep(seen, local, order, i);
      ghost var before := slots[..];
      var o := Place(abs, ms, mark, table[order[i]], slots);
      if !o.Ok? { return o; }
      PlaceStep(abs, ms, marks, With(seen, local, order[..i]), mark, before, slots[..]);
    }
    assert order[..|order|] == order;
    WithAll(table, order, marks, local, seen);
    return Ok(());
  }

  /** `sort`. The order in which Go walks each map is a parameter, and the result does not depend on it, except that
      when a manifest is missing and there are too few slots either failure may be met first. */
  method Sort(abs: string -> Option<string>, e: Positions, ms: seq<Manifest>, localOrder: seq<string>,
              remoteOrder: seq<string>, ghost marks: seq<Mark>)
    returns (r: Outcome<seq<Option<Manifest>>>)
    requires Records(e, marks) && Lists(localOrder, e.local) && Lists(remoteOrder, e.remote)
    ensures r.Ok? <==> AllFound(abs, ms, marks) && |marks| <= |ms|
    ensures r.Ok? ==> Filled(abs, ms, marks, r.value)
    ensures r.Err? ==> !AllFound(abs, ms, marks)
    ensures r.Panic? ==> |marks| > |ms|
  {
    var slots := new Option<Manifest>[|ms|](_ => None);
    var o := PlaceAll(abs, ms, true, e.local, localOrder, slots, marks, {});
    if o.Err? { return Err; }
    if o.Panic? { return Panic; }
    ghost var seen := {} + OfKind(marks, true);
    o := PlaceAll(abs, ms, false, e.remote, remoteOrder, slots, marks, seen);
    if o.Err? { return Err; }
    if o.Panic? { return Panic; }
    AllSeen(abs, ms, marks, seen + OfKind(marks, false), slots[..]);
    return Ok(slots[..]);
  }

  lemma AllSeen(abs: string -> Option<string>, ms: seq<Manifest>, marks: seq<Mark>, seen: set<Mark>,
                slots: seq<Option<Manifest>>)
    requires Placed(abs, ms, marks, seen, slots) && forall m :: m in marks ==> m in seen
    ensures AllFound(abs, ms, marks) && |marks| <= |ms| && Filled(abs, ms, marks, slots)
  {
    forall p | 0 <= p < |marks|
      ensures marks[p] in seen && p < |ms|
    {
      assert marks[p] in marks;
    }
    if marks != [] { assert marks[|marks| - 1] in seen; }
  }
}
