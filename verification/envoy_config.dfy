/** Config generation: one block of Envoy resources per extension, in order, then the extra clusters. */
module EnvoyConfig {
  import opened ByteText
  import opened CliArgs

  /** Filters and clusters stand for the protobuf messages. */
  type Filter = string
  type Cluster = string

  datatype Resources = Resources(http: seq<Filter>, network: seq<Filter>, listener: seq<Filter>, udp: seq<Filter>,
                                 clusters: seq<Cluster>)

  /** The parsers and generators that produce one extension's own pieces; None is their error. */
  datatype Generators = Generators(
    own: (Manifest, string) -> Option<Resources>,
    before: Manifest -> Option<seq<Filter>>,
    beforeOverride: string -> Option<seq<Filter>>,
    after: Manifest -> Option<seq<Filter>>,
    afterOverride: string -> Option<seq<Filter>>,
    cluster: (string, bool) -> Option<Cluster>,
    jsonCluster: string -> Option<Cluster>)

  datatype Params = Params(extensions: seq<Manifest>, configs: seq<string>, filterTypes: seq<string>,
                           before: seq<string>, after: seq<string>, clusters: seq<string>,
                           clustersInsecure: seq<string>, clustersJson: seq<string>)

  /** A positional option: absent positions read as empty. */
  function At(list: seq<string>, i: nat): string {
    if i < |list| then list[i] else ""
  }

  // ----- What the config must hold, extension by extension. -----

  /** The manifest whose resources are generated: one with several filter types is narrowed to the chosen one. */
  predicate IsChosen(m: Manifest, filterType: string, ext: Manifest) {
    if |m.filterTypes| > 1 then
      filterType != "" && filterType in m.filterTypes && ext == m.(filterTypes := [filterType])
    else ext == m
  }

  /** The native filters: the override of this position if it is set, else the manifest's own. */
  predicate IsNative(override: string, parse: string -> Option<seq<Filter>>, own: Option<seq<Filter>>,
                     filters: seq<Filter>)
  {
    if override != "" then parse(override) == Some(filters) else own == Some(filters)
  }

  /** The resources of one extension: its HTTP filters stand between the native ones, everything else is its own. */
  ghost predicate IsBlock(g: Generators, m: Manifest, config: string, filterType: string, before: string,
                          after: string, b: Resources)
  {
    exists ext: Manifest, own: Resources, first: seq<Filter>, last: seq<Filter> ::
      && IsChosen(m, filterType, ext) && g.own(ext, config) == Some(own)
      && IsNative(before, g.beforeOverride, g.before(ext), first)
      && IsNative(after, g.afterOverride, g.after(ext), last)
      && b == own.(http := first + own.http + last)
  }

  ghost predicate IsBlockAt(g: Generators, p: Params, i: nat, b: Resources)
    requires i < |p.extensions|
  {
    IsBlock(g, p.extensions[i], At(p.configs, i), At(p.filterTypes, i), At(p.before, i), At(p.after, i), b)
  }

  /** One block per extension, in order. */
  ghost predicate AreBlocks(g: Generators, p: Params, n: nat, bs: seq<Resources>)
    requires n <= |p.extensions|
  {
    |bs| == n && forall i :: 0 <= i < n ==> IsBlockAt(g, p, i, bs[i])
  }

  /** One of the five lists, block after block. */
  function Listed(list: Resources -> seq<string>, bs: seq<Resources>): seq<string>
    decreases |bs|
  {
    if bs == [] then [] else list(bs[0]) + Listed(list, bs[1..])
  }

  function Http(r: Resources): seq<Filter> { r.http }

  function Network(r: Resources): seq<Filter> { r.network }

  function Listener(r: Resources): seq<Filter> { r.listener }

  function Udp(r: Resources): seq<Filter> { r.udp }

  function Clusters(r: Resources): seq<Cluster> { r.clusters }

  /** Each list of `r` is the concatenation of the blocks' lists. */
  ghost predicate Collects(bs: seq<Resources>, r: Resources) {
    && r.http == Listed(Http, bs) && r.network == Listed(Network, bs) && r.listener == Listed(Listener, bs)
    && r.udp == Listed(Udp, bs) && r.clusters == Listed(Clusters, bs)
  }

  /** The clusters of one flag, each made from its own specification. */
  ghost predicate AreClusters(f: string -> Option<Cluster>, specs: seq<string>, cs: seq<Cluster>) {
    |cs| == |specs| && forall k :: 0 <= k < |specs| ==> f(specs[k]) == Some(cs[k])
  }

  /** The clusters added from the command line: with TLS, without, and given as JSON. */
  ghost predicate AreExtras(g: Generators, p: Params, cs: seq<Cluster>) {
    exists a, b, c ::
      && AreClusters(s => g.cluster(s, true), p.clusters, a)
      && AreClusters(s => g.cluster(s, false), p.clustersInsecure, b)
      && AreClusters(g.jsonCluster, p.clustersJson, c)
      && cs == a + b + c
  }

  // ----- The methods. -----

  method ParseClusters(f: string -> Option<Cluster>, specs: seq<string>) returns (r: Option<seq<Cluster>>)
    ensures r.Some? ==> AreClusters(f, specs, r.value)
    ensures r.None? ==> !exists cs :: AreClusters(f, specs, cs)
  {
    var clusters: seq<Cluster> := [];
    for i := 0 to |specs|
      invariant AreClusters(f, specs[..i], clusters)
    {
      var c := f(specs[i]);
      if c.None? { return None; }
      clusters := clusters + [c.value];
    }
    assert specs[..|specs|] == specs;
    return Some(clusters);
  }

  method ParseExtraClusters(g: Generators, p: Params) returns (r: Option<seq<Cluster>>)
    ensures r.Some? ==> AreExtras(g, p, r.value)
    ensures r.None? ==> !exists cs :: AreExtras(g, p, cs)
  {
    var tls := ParseClusters(s => g.cluster(s, true), p.clusters);
    if tls.None? { return None; }
    var plain := ParseClusters(s => g.cluster(s, false), p.clustersInsecure);
    if plain.None? { return None; }
    var json := ParseClusters(g.jsonCluster, p.clustersJson);
    if json.None? { return None; }
    return Some(tls.value + plain.value + json.value);
  }

  /** The `--filter-type` step of the loop. */
  method Choose(m: Manifest, filterTypes: seq<string>, i: nat) returns (r: Option<Manifest>)
    ensures r.Some? ==> IsChosen(m, At(filterTypes, i), r.value)
    ensures r.None? ==> !exists ext :: IsChosen(m, At(filterTypes, i), ext)
  {
    if |m.filterTypes| > 1 {
      if i < |filterTypes| && filterTypes[i] != "" {
        if filterTypes[i] !in m.filterTypes { return None; }
        return Some(m.(filterTypes := [filterTypes[i]]));
      }
      return None;
    }
    return Some(m);
  }

  /** One turn of the loop. */
  method GenerateBlock(g: Generators, p: Params, i: nat) returns (r: Option<Resources>)
    requires i < |p.extensions|
    ensures r.Some? ==> IsBlockAt(g, p, i, r.value)
    ensures r.None? ==> !exists b :: IsBlockAt(g, p, i, b)
  {
    var config := if i < |p.configs| then p.configs[i] else "";
    var ext := Choose(p.extensions[i], p.filterTypes, i);
    if ext.None? { return None; }
    var resources := g.own(ext.value, config);
    if resources.None? { return None; }
    var before := if i < |p.before| && p.before[i] != "" then g.beforeOverride(p.before[i]) else g.before(ext.value);
    if before.None? { return None; }
    var after := if i < |p.after| && p.after[i] != "" then g.afterOverride(p.after[i]) else g.after(ext.value);
    if after.None? { return None; }
    var own := resources.value;
    assert IsNative(At(p.before, i), g.beforeOverride, g.before(ext.value), before.value);
    assert IsNative(At(p.after, i), g.afterOverride, g.after(ext.value), after.value);
    return Some(own.(http := before.value + own.http + after.value));
  }

  ghost predicate Makeable(g: Generators, p: Params) {
    exists bs :: AreBlocks(g, p, |p.extensions|, bs)
  }

  lemma EachIsMakeable(g: Generators, p: Params, i: nat)
    requires i < |p.extensions| && Makeable(g, p)
    ensures exists b :: IsBlockAt(g, p, i, b)
  {
    var bs :| AreBlocks(g, p, |p.extensions|, bs);
    assert IsBlockAt(g, p, i, bs[i]);
  }

  /** What the whole config is: the blocks in order, in every list, and then the extra clusters. */
  ghost predicate IsConfig(g: Generators, p: Params, bs: seq<Resources>, cs: seq<Cluster>, r: Resources) {
    && AreBlocks(g, p, |p.extensions|, bs) && AreExtras(g, p, cs)
    && |cs| <= |r.clusters| && r.clusters[|r.clusters| - |cs|..] == cs
    && Collects(bs, r.(clusters := r.clusters[..|r.clusters| - |cs|]))
  }

  lemma ConfigOf(g: Generators, p: Params, bs: seq<Resources>, cs: seq<Cluster>, joined: Resources)
    requires AreBlocks(g, p, |p.extensions|, bs) && AreExtras(g, p, cs) && Collects(bs, joined)
    ensures IsConfig(g, p, bs, cs, joined.(clusters := joined.clusters + cs))
  {
    var r := joined.(clusters := joined.clusters + cs);
    assert r.clusters[..|r.clusters| - |cs|] == joined.clusters && r.clusters[|r.clusters| - |cs|..] == cs;
    assert r.(clusters := joined.clusters) == joined;
  }

  method JoinBlocks(g: Generators, p: Params) returns (r: Option<Resources>, ghost bs: seq<Resources>)
    ensures r.Some? <==> Makeable(g, p)
    ensures r.Some? ==> AreBlocks(g, p, |p.extensions|, bs) && Collects(bs, r.value)
  {
    var res := Resources([], [], [], [], []);
    bs := [];
    for i := 0 to |p.extensions|
      invariant AreBlocks(g, p, i, bs) && Collects(bs, res)
    {
      var b := GenerateBlock(g, p, i);
      if b.None? {
        if Makeable(g, p) { EachIsMakeable(g, p, i); }
        return None, [];
      }
      CollectsOneMore(bs, res, b.value);
      bs := bs + [b.value];
      res := Resources(res.http + b.value.http, res.network + b.value.network, res.listener + b.value.listener,
                       res.udp + b.value.udp, res.clusters + b.value.clusters);
    }
    return Some(res), bs;
  }

  /** `generateConfig`: fails exactly when some block or cluster cannot be made. */
  method GenerateConfig(g: Generators, p: Params) returns (r: Option<Resources>)
    ensures r.Some? <==> Makeable(g, p) && exists cs :: AreExtras(g, p, cs)
    ensures r.Some? ==> exists bs, cs :: IsConfig(g, p, bs, cs, r.value)
  {
    var joined, bs := JoinBlocks(g, p);
    if joined.None? { return None; }
    var extra := ParseExtraClusters(g, p);
    if extra.None? { return None; }
    ConfigOf(g, p, bs, extra.value, joined.value);
    return Some(joined.value.(clusters := joined.value.clusters + extra.value));
  }

  lemma {:induction false} ListedAppend(list: Resources -> seq<string>, a: seq<Resources>, b: seq<Resources>)
    ensures Listed(list, a + b) == Listed(list, a) + Listed(list, b)
    decreases |a|
  {
    if a == [] {
      assert a + b == b;
    } else {
      ListedAppend(list, a[1..], b);
      assert (a + b)[1..] == a[1..] + b;
      AppendAssociative(list(a[0]), Listed(list, a[1..]), Listed(list, b));
    }
  }

  lemma ListedSnoc(list: Resources -> seq<string>, bs: seq<Resources>, b: Resources)
    ensures Listed(list, bs + [b]) == Listed(list, bs) + list(b)
  {
    var one := [b];
    ListedAppend(list, bs, one);
    assert |one[1..]| == 0 && Listed(list, one) == list(b) + Listed(list, one[1..]);
  }

  lemma CollectsOneMore(bs: seq<Resources>, r: Resources, b: Resources)
    requires Collects(bs, r)
    ensures Collects(bs + [b], Resources(r.http + b.http, r.network + b.network, r.listener + b.listener,
                                         r.udp + b.udp, r.clusters + b.clusters))
  {
    ListedSnoc(Http, bs, b);
    ListedSnoc(Network, bs, b);
    ListedSnoc(Listener, bs, b);
    ListedSnoc(Udp, bs, b);
    ListedSnoc(Clusters, bs, b);
  }

  // ----- Where extension `i` ends up. -----

  /** The block stands right after those before it, and right before the rest. */
  lemma ListedSplit(list: Resources -> seq<string>, bs: seq<Resources>, i: nat)
    requires i < |bs|
    ensures Listed(list, bs) == Listed(list, bs[..i]) + list(bs[i]) + Listed(list, bs[i + 1..])
  {
    AroundIndex(bs, i);
    ListedAround(list, bs[..i], bs[i], bs[i + 1..]);
  }

  lemma ListedAround(list: Resources -> seq<string>, before: seq<Resources>, b: Resources, after: seq<Resources>)
    ensures Listed(list, (before + [b]) + after) == Listed(list, before) + list(b) + Listed(list, after)
  {
    ListedAppend(list, before + [b], after);
    ListedSnoc(list, before, b);
  }

  lemma BlockPosition(bs: seq<Resources>, r: Resources, i: nat)
    requires i < |bs| && Collects(bs, r)
    ensures r.http == Listed(Http, bs[..i]) + bs[i].http + Listed(Http, bs[i + 1..])
    ensures r.network == Listed(Network, bs[..i]) + bs[i].network + Listed(Network, bs[i + 1..])
    ensures r.listener == Listed(Listener, bs[..i]) + bs[i].listener + Listed(Listener, bs[i + 1..])
    ensures r.udp == Listed(Udp, bs[..i]) + bs[i].udp + Listed(Udp, bs[i + 1..])
    ensures r.clusters == Listed(Clusters, bs[..i]) + bs[i].clusters + Listed(Clusters, bs[i + 1..])
  {
    ListedSplit(Http, bs, i);
    ListedSplit(Network, bs, i);
    ListedSplit(Listener, bs, i);
    ListedSplit(Udp, bs, i);
    ListedSplit(Clusters, bs, i);
  }
}
