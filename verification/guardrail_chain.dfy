/** The Bedrock guardrail chain: one callout per deduplicated guardrail, each fed the previous one's output. */
module GuardrailChain {
  import opened ByteText
  import opened GuardrailPrompts

  // ----- Deduplication. -----

  datatype Guardrail = Guardrail(identifier: string, version: string)

  function Key(g: Guardrail): string {
    g.identifier + "#" + g.version
  }

  /** The guardrail at `i` is the first with its key. */
  predicate FirstWithKey(gs: seq<Guardrail>, i: nat)
    requires i < |gs|
  {
    forall j :: 0 <= j < i ==> Key(gs[j]) != Key(gs[i])
  }

  /** The first guardrail of each key among the first `n`, in order. */
  function Firsts(gs: seq<Guardrail>, n: nat): seq<Guardrail>
    requires n <= |gs|
  {
    if n == 0 then []
    else if FirstWithKey(gs, n - 1) then Firsts(gs, n - 1) + [gs[n - 1]]
    else Firsts(gs, n - 1)
  }

  method Dedup(gs: seq<Guardrail>) returns (list: seq<Guardrail>)
    ensures list == Firsts(gs, |gs|)
  {
    var allKeys: set<string> := {};
    list := [];
    for i := 0 to |gs|
      invariant list == Firsts(gs, i)
      invariant forall k :: k in allKeys <==> exists j :: 0 <= j < i && Key(gs[j]) == k
    {
      var k := Key(gs[i]);
      if k !in allKeys {
        allKeys := allKeys + {k};
        list := list + [gs[i]];
      }
    }
  }

  ghost predicate DistinctKeys(gs: seq<Guardrail>) {
    forall i, j :: 0 <= i < j < |gs| ==> Key(gs[i]) != Key(gs[j])
  }

  ghost predicate Precedes(list: seq<Guardrail>, a: Guardrail, b: Guardrail) {
    exists i, j :: 0 <= i < j < |list| && list[i] == a && list[j] == b
  }

  lemma PrecedesLater(list: seq<Guardrail>, last: Guardrail, a: Guardrail, b: Guardrail)
    ensures Precedes(list, a, b) ==> Precedes(list + [last], a, b)
    ensures a in list ==> Precedes(list + [last], a, last)
  {
    var all := list + [last];
    if Precedes(list, a, b) {
      var i, j :| 0 <= i < j < |list| && list[i] == a && list[j] == b;
      assert all[i] == a && all[j] == b;
    }
    if a in list {
      var i :| 0 <= i < |list| && list[i] == a;
      assert all[i] == a && all[|list|] == last;
    }
  }

  lemma {:induction false} FirstsHold(gs: seq<Guardrail>, n: nat, i: nat)
    requires i < n <= |gs| && FirstWithKey(gs, i)
    ensures gs[i] in Firsts(gs, n)
    decreases n
  {
    if i < n - 1 { FirstsHold(gs, n - 1, i); }
  }

  /** Deduplication keeps the order of the guardrails it keeps. */
  lemma {:induction false} FirstsInOrder(gs: seq<Guardrail>, n: nat, i: nat, j: nat)
    requires i < j < n <= |gs| && FirstWithKey(gs, i) && FirstWithKey(gs, j)
    ensures Precedes(Firsts(gs, n), gs[i], gs[j])
    decreases n
  {
    PrecedesLater(Firsts(gs, n - 1), gs[n - 1], gs[i], gs[j]);
    if j < n - 1 {
      FirstsInOrder(gs, n - 1, i, j);
    } else {
      FirstsHold(gs, j, i);
    }
  }

  lemma {:induction false} FirstsCome(gs: seq<Guardrail>, n: nat)
    requires n <= |gs|
    ensures forall g :: g in Firsts(gs, n) ==> exists j :: 0 <= j < n && gs[j] == g && FirstWithKey(gs, j)
    ensures DistinctKeys(Firsts(gs, n))
    decreases n
  {
    if n > 0 {
      FirstsCome(gs, n - 1);
      var last, prior := gs[n - 1], Firsts(gs, n - 1);
      if FirstWithKey(gs, n - 1) {
        var all := prior + [last];
        forall i, j | 0 <= i < j < |all|
          ensures Key(all[i]) != Key(all[j])
        {
          if j == |prior| {
            assert all[i] in prior;
            var m :| 0 <= m < n - 1 && gs[m] == all[i] && FirstWithKey(gs, m);
          }
        }
      }
    }
  }

  lemma {:induction false} FirstOfKey(gs: seq<Guardrail>, i: nat) returns (j: nat)
    requires i < |gs|
    ensures j <= i && Key(gs[j]) == Key(gs[i]) && FirstWithKey(gs, j)
    decreases i
  {
    if FirstWithKey(gs, i) {
      j := i;
    } else {
      var m :| 0 <= m < i && Key(gs[m]) == Key(gs[i]);
      j := FirstOfKey(gs, m);
    }
  }

  /** Two different guardrails share a key: possible, because the separator may occur in a name. */
  ghost predicate Collision(gs: seq<Guardrail>) {
    exists i, j :: 0 <= i < |gs| && 0 <= j < |gs| && gs[i] != gs[j] && Key(gs[i]) == Key(gs[j])
  }

  lemma KeyIsKept(gs: seq<Guardrail>, i: nat) returns (g: Guardrail)
    requires i < |gs|
    ensures g in Firsts(gs, |gs|) && Key(g) == Key(gs[i]) && (!Collision(gs) ==> g == gs[i])
  {
    var j := FirstOfKey(gs, i);
    FirstsHold(gs, |gs|, j);
    g := gs[j];
  }

  lemma FirstsAreGiven(gs: seq<Guardrail>)
    ensures forall g :: g in Firsts(gs, |gs|) ==> g in gs
  {
    FirstsCome(gs, |gs|);
  }

  lemma CollisionLoses(gs: seq<Guardrail>)
    requires Collision(gs)
    ensures exists i :: 0 <= i < |gs| && gs[i] !in Firsts(gs, |gs|)
  {
    FirstsCome(gs, |gs|);
    var i, j :| 0 <= i < |gs| && 0 <= j < |gs| && gs[i] != gs[j] && Key(gs[i]) == Key(gs[j]);
    NotBoth(Firsts(gs, |gs|), gs[i], gs[j]);
  }

  lemma FirstsAreDistinct(gs: seq<Guardrail>)
    ensures DistinctKeys(Firsts(gs, |gs|))
  {
    FirstsCome(gs, |gs|);
  }

  /** Deduplication keeps one guardrail per key, and adds none; it keeps every configured guardrail exactly when no two
      different ones share a key. */
  lemma DedupIsLosslessIff(gs: seq<Guardrail>)
    ensures var list := Firsts(gs, |gs|);
            && DistinctKeys(list)
            && (forall g :: g in list ==> g in gs)
            && (forall i :: 0 <= i < |gs| ==> exists g :: g in list && Key(g) == Key(gs[i]))
            && ((forall i :: 0 <= i < |gs| ==> gs[i] in list) <==> !Collision(gs))
  {
    var list := Firsts(gs, |gs|);
    FirstsAreDistinct(gs);
    FirstsAreGiven(gs);
    forall i | 0 <= i < |gs|
      ensures exists g :: g in list && Key(g) == Key(gs[i])
      ensures !Collision(gs) ==> gs[i] in list
    {
      var g := KeyIsKept(gs, i);
    }
    if Collision(gs) { CollisionLoses(gs); }
  }

  lemma NotBoth(list: seq<Guardrail>, a: Guardrail, b: Guardrail)
    requires DistinctKeys(list) && a != b && Key(a) == Key(b)
    ensures !(a in list && b in list)
  {
  }

  /** A key tells identifier and version apart as long as identifiers contain no separator. */
  lemma KeyIsInjective(a: Guardrail, b: Guardrail)
    requires '#' !in a.identifier && '#' !in b.identifier && Key(a) == Key(b)
    ensures a == b
  {
    var i, j := |a.identifier|, |b.identifier|;
    assert Key(a)[i] == '#' && Key(b)[j] == '#';
    assert Key(a)[..i] == a.identifier && Key(b)[..j] == b.identifier;
    FirstPosition(Key(a), '#', i);
    FirstPosition(Key(b), '#', j);
    assert Key(a)[i + 1..] == a.version && Key(b)[j + 1..] == b.version;
  }

  /** And it does not otherwise. */
  lemma KeysCanCollide()
    ensures var a, b := Guardrail("x#y", "1"), Guardrail("x", "y#1"); a != b && Key(a) == Key(b)
  {
    var a, b := Guardrail("x#y", "1"), Guardrail("x", "y#1");
    assert Key(a) == "x#y#1" && Key(b) == "x#y#1";
    assert |a.identifier| != |b.identifier|;
  }

  // ----- The chain. -----

  datatype Assessment = Assessment(filters: seq<string>, topics: seq<string>, entities: seq<string>)

  datatype GuardrailResponse = GuardrailResponse(action: string, assessments: seq<Assessment>, outputs: seq<string>)

  /** What comes back from a callout; `NullBody` is a body that decodes to a nil response. */
  datatype Reply = CalloutFailed | BadStatus | Undecodable | NullBody | Answered(resp: GuardrailResponse)

  /** What the filter asks of Envoy. `Panic` stands for following the nil response, or indexing an empty list of
      assessments. */
  datatype Action =
    | Callout(index: nat, prompts: seq<string>)
    | LocalResponse(status: int)
    | Continue(body: Bytes)
    | Panic

  datatype Chain = Chain(waiting: Option<(nat, Bytes)>, log: seq<Action>, buffer: Bytes)

  predicate AssessmentBlocks(a: Assessment) {
    "BLOCKED" in a.filters || "BLOCKED" in a.topics || "BLOCKED" in a.entities
  }

  predicate Blocks(r: GuardrailResponse) {
    r.action == "GUARDRAIL_INTERVENED" && exists i :: 0 <= i < |r.assessments| && AssessmentBlocks(r.assessments[i])
  }

  function Done(ch: Chain, a: Action): Chain {
    ch.(waiting := None, log := ch.log + [a])
  }

  /** Calling guardrail `k` with `body`; `started` is whether Envoy accepts the callout. */
  function CallOut(c: Codec, ch: Chain, k: nat, body: Bytes, started: bool): Chain {
    if Prompts(c, body).None? || !started then Done(ch, LocalResponse(502))
    else ch.(waiting := Some((k, body)), log := ch.log + [Callout(k, Prompts(c, body).value)])
  }

  /** `processRequestbody`: drain the body and call the first guardrail. */
  function Begin(c: Codec, n: nat, body: Bytes, started: bool): Chain {
    if body == [] || n == 0 then Chain(None, [], body) else CallOut(c, Chain(None, [], []), 0, body, started)
  }

  /** `OnHttpCalloutDone` for guardrail `k` of `n`. */
  function Next(c: Codec, n: nat, ch: Chain, reply: Reply, started: bool): Chain
    requires ch.waiting.Some?
  {
    var (k, body) := ch.waiting.value;
    if reply.NullBody? then Done(ch, Panic)
    else if !reply.Answered? then Done(ch, LocalResponse(502))
    else if Blocks(reply.resp) then Done(ch, LocalResponse(400))
    else
      match if reply.resp.outputs == [] then Some(body) else Replaced(c, body, reply.resp.outputs)
      case None => Done(ch, LocalResponse(502))
      case Some(newBody) =>
        if reply.resp.assessments == [] then Done(ch, Panic)
        else if k + 1 < n then CallOut(c, ch, k + 1, newBody, started)
        else Done(ch, Continue(newBody)).(buffer := ch.buffer + newBody)
  }

  // ----- The callback object. -----

  class Filter {
    const codec: Codec
    const guardrails: seq<Guardrail>
    var waiting: Option<(nat, Bytes)>
    var log: seq<Action>
    var buffer: Bytes

    ghost function View(): Chain
      reads this
    {
      Chain(waiting, log, buffer)
    }

    constructor (codec: Codec, guardrails: seq<Guardrail>, body: Bytes)
      ensures View() == Chain(None, [], body) && this.codec == codec && this.guardrails == guardrails
    {
      this.codec := codec;
      this.guardrails := guardrails;
      waiting, log, buffer := None, [], body;
    }

    method HttpCallout(k: nat, body: Bytes, started: bool)
      modifies this
      ensures View() == CallOut(codec, old(View()), k, body, started)
    {
      var prompts := ParseChatRequest(codec, body);
      waiting := None;
      if prompts.None? {
        log := log + [LocalResponse(502)];
        return;
      }
      if !started {
        log := log + [LocalResponse(502)];
        return;
      }
      waiting, log := Some((k, body)), log + [Callout(k, prompts.value)];
    }

    /** Returns whether the request may go on at once. */
    method ProcessRequestBody(started: bool) returns (proceed: bool)
      requires waiting.None? && log == []
      modifies this
      ensures View() == Begin(codec, |guardrails|, old(buffer), started)
      ensures proceed <==> old(buffer) == [] || guardrails == []
      ensures if proceed then buffer == old(buffer) && log == [] else buffer == [] && |log| == 1
    {
      var bodyBytes := buffer;
      if bodyBytes == [] { return true; }
      if guardrails == [] { return true; }
      buffer := [];
      HttpCallout(0, bodyBytes, started);
      return false;
    }

    method OnHttpCalloutDone(reply: Reply, started: bool)
      requires waiting.Some?
      modifies this
      ensures View() == Next(codec, |guardrails|, old(View()), reply, started)
    {
      var (index, body) := waiting.value;
      waiting := None;
      if reply.NullBody? {
        log := log + [Panic];
        return;
      }
      if !reply.Answered? {
        log := log + [LocalResponse(502)];
        return;
      }
      var resp := reply.resp;
      var blocked := IsBlocked(resp);
      if blocked {
        log := log + [LocalResponse(400)];
        return;
      }
      var newBody := body;
      if |resp.outputs| > 0 {
        var replaced := ReplaceUserPrompts(codec, body, resp.outputs);
        if replaced.None? {
          log := log + [LocalResponse(502)];
          return;
        }
        newBody := replaced.value;
      }
      if resp.assessments == [] {
        log := log + [Panic];
        return;
      }
      if index + 1 < |guardrails| {
        HttpCallout(index + 1, newBody, started);
        return;
      }
      buffer := buffer + newBody;
      log := log + [Continue(newBody)];
    }
  }

  /** The three nested loops that look for a blocking policy. */
  method IsBlocked(resp: GuardrailResponse) returns (blocked: bool)
    ensures blocked == Blocks(resp)
    ensures blocked <==> Refuses(resp)
  {
    BlocksIffRefuses(resp);
    blocked := false;
    if resp.action == "GUARDRAIL_INTERVENED" {
      for i := 0 to |resp.assessments|
        invariant blocked <==> exists j :: 0 <= j < i && AssessmentBlocks(resp.assessments[j])
      {
        var a := resp.assessments[i];
        var f := AnyBlocked(a.filters);
        var t := AnyBlocked(a.topics);
        var p := AnyBlocked(a.entities);
        if f { blocked := true; }
        if t { blocked := true; }
        if p { blocked := true; }
      }
    }
  }

  method AnyBlocked(actions: seq<string>) returns (found: bool)
    ensures found <==> "BLOCKED" in actions
  {
    found := false;
    for i := 0 to |actions|
      invariant !found && "BLOCKED" !in actions[..i]
    {
      if actions[i] == "BLOCKED" {
        found := true;
        break;
      }
    }
  }

  // ----- Whole runs. -----

  /** The response intervenes, and some policy of some assessment says so: a content filter, a topic or a sensitive
      entity is blocked. */
  ghost predicate Refuses(r: GuardrailResponse) {
    && r.action == "GUARDRAIL_INTERVENED"
    && exists a :: a in r.assessments && "BLOCKED" in a.filters + a.topics + a.entities
  }

  lemma BlocksIffRefuses(r: GuardrailResponse)
    ensures Blocks(r) <==> Refuses(r)
  {
    if Blocks(r) {
      var i :| 0 <= i < |r.assessments| && AssessmentBlocks(r.assessments[i]);
      var a := r.assessments[i];
      assert a in r.assessments && "BLOCKED" in a.filters + a.topics + a.entities;
    }
    if Refuses(r) {
      var a :| a in r.assessments && "BLOCKED" in a.filters + a.topics + a.entities;
      var i :| 0 <= i < |r.assessments| && r.assessments[i] == a;
      assert AssessmentBlocks(r.assessments[i]);
    }
  }

  /** The body after a reply: its outputs substituted, if it has any. */
  function Substituted(c: Codec, body: Bytes, r: GuardrailResponse): Option<Bytes> {
    if r.outputs == [] then Some(body) else Replaced(c, body, r.outputs)
  }

  /** The reply lets the request through to the next guardrail. */
  ghost predicate Passes(c: Codec, body: Bytes, reply: Reply) {
    && reply.Answered?
    && !Refuses(reply.resp)
    && Substituted(c, body, reply.resp).Some?
    && reply.resp.assessments != []
  }

  datatype Turn = Turn(reply: Reply, started: bool)

  /** The chain after some replies; a reply that comes when none is awaited does not exist. */
  function Run(c: Codec, n: nat, ch: Chain, turns: seq<Turn>): Chain
    decreases |turns|
  {
    if turns == [] || ch.waiting.None? then ch
    else Run(c, n, Next(c, n, ch, turns[0].reply, turns[0].started), turns[1..])
  }

  /** The body that reaches guardrail `k` when the first `k` replies pass. */
  ghost function BodyAt(c: Codec, body: Bytes, turns: seq<Turn>, k: nat): Option<Bytes>
    requires k <= |turns|
  {
    if k == 0 then Some(body)
    else
      match BodyAt(c, body, turns, k - 1)
      case None => None
      case Some(b) =>
        var reply := turns[k - 1].reply;
        if Passes(c, b, reply) then Substituted(c, b, reply.resp) else None
  }

  /** Guardrail `i` is called: the replies before it pass, its body parses and Envoy accepts the callout. */
  ghost predicate Called(c: Codec, body: Bytes, turns: seq<Turn>, started: bool, i: nat)
    requires i <= |turns|
  {
    && BodyAt(c, body, turns, i).Some?
    && Prompts(c, BodyAt(c, body, turns, i).value).Some?
    && (if i == 0 then started else turns[i - 1].started)
  }

  /** The log starts with the callouts to guardrails 0, 1, ..., `m - 1`, each with the prompts of its body. */
  ghost predicate CalloutsInOrder(c: Codec, body: Bytes, turns: seq<Turn>, started: bool, log: seq<Action>, m: nat) {
    && m <= |log| && m <= |turns| + 1
    && forall i: nat :: i < m ==>
         && Called(c, body, turns, started, i)
         && log[i] == Callout(i, Prompts(c, BodyAt(c, body, turns, i).value).value)
  }

  ghost predicate ReplyBlocks(r: Reply) {
    r.Answered? && Refuses(r.resp)
  }

  /** The reply makes the callback fail: a nil response, or an unblocked one without assessments. */
  ghost predicate ReplyPanics(c: Codec, body: Bytes, r: Reply) {
    || r.NullBody?
    || (r.Answered? && !Refuses(r.resp) && Substituted(c, body, r.resp).Some? && r.resp.assessments == [])
  }

  /** How the request ends after `m` callouts: continued exactly when all `n` passed, with the last body; refused with
      400 exactly when the last reply blocks; and 502 otherwise, except where the callback panics. */
  ghost predicate EndsWell(c: Codec, n: nat, body: Bytes, turns: seq<Turn>, started: bool, m: nat, last: Action,
                           buffer: Bytes)
    requires m <= |turns|
  {
    match last
    case Callout(_, _) => false
    case Continue(b) => m == n && BodyAt(c, body, turns, n) == Some(b) && buffer == b
    case Panic =>
      && m > 0 && Called(c, body, turns, started, m - 1)
      && ReplyPanics(c, BodyAt(c, body, turns, m - 1).value, turns[m - 1].reply)
    case LocalResponse(status) =>
      && buffer == []
      && (status == 400 || status == 502)
      && (status == 400 <==> m > 0 && ReplyBlocks(turns[m - 1].reply))
      && (m > 0 && BodyAt(c, body, turns, m - 1).Some? ==>
            !ReplyPanics(c, BodyAt(c, body, turns, m - 1).value, turns[m - 1].reply))
      && ((m < n && !Called(c, body, turns, started, m)) || BodyAt(c, body, turns, m).None?)
  }

  /** What holds after `used` replies: either one callout is outstanding, the last of an ordered list; or the request
      was answered or continued, once, and nothing is outstanding. */
  ghost predicate Inv(c: Codec, n: nat, body: Bytes, turns: seq<Turn>, started: bool, used: nat, ch: Chain) {
    && used <= |turns|
    && (ch.waiting.Some? ==>
          && used < n && |ch.log| == used + 1 && ch.buffer == []
          && CalloutsInOrder(c, body, turns, started, ch.log, used + 1)
          && ch.waiting == Some((used, BodyAt(c, body, turns, used).value)))
    && (ch.waiting.None? ==>
          && |ch.log| > 0
          && (var m := |ch.log| - 1;
              && m <= n && m <= |turns|
              && CalloutsInOrder(c, body, turns, started, ch.log, m)
              && EndsWell(c, n, body, turns, started, m, ch.log[m], ch.buffer)))
  }

  lemma BeginInv(c: Codec, n: nat, body: Bytes, turns: seq<Turn>, started: bool)
    requires body != [] && n > 0
    ensures Inv(c, n, body, turns, started, 0, Begin(c, n, body, started))
  {
    assert BodyAt(c, body, turns, 0) == Some(body);
    assert Called(c, body, turns, started, 0) <==> Prompts(c, body).Some? && started;
  }

  /** What the next reply adds to the log, given the body its guardrail saw. */
  lemma NextAction(c: Codec, n: nat, body: Bytes, turns: seq<Turn>, started: bool, used: nat, ch: Chain)
    requires Inv(c, n, body, turns, started, used, ch) && ch.waiting.Some? && used < |turns|
    ensures var next := Next(c, n, ch, turns[used].reply, turns[used].started);
            && |next.log| == used + 2 && next.log[..used + 1] == ch.log
            && (next.waiting.Some? ==>
                  && used + 1 < n && Called(c, body, turns, started, used + 1) && next.buffer == []
                  && next.waiting == Some((used + 1, BodyAt(c, body, turns, used + 1).value))
                  && next.log[used + 1] ==
                     Callout(used + 1, Prompts(c, BodyAt(c, body, turns, used + 1).value).value))
            && (next.waiting.None? ==>
                  EndsWell(c, n, body, turns, started, used + 1, next.log[used + 1], next.buffer))
  {
    var reply := turns[used].reply;
    var b := BodyAt(c, body, turns, used).value;
    assert BodyAt(c, body, turns, used + 1) ==
           if Passes(c, b, reply) then Substituted(c, b, reply.resp) else None;
    assert Called(c, body, turns, started, used);
    if reply.Answered? { BlocksIffRefuses(reply.resp); }
  }

  lemma NextInv(c: Codec, n: nat, body: Bytes, turns: seq<Turn>, started: bool, used: nat, ch: Chain)
    requires Inv(c, n, body, turns, started, used, ch) && ch.waiting.Some? && used < |turns|
    ensures Inv(c, n, body, turns, started, used + 1, Next(c, n, ch, turns[used].reply, turns[used].started))
  {
    var next := Next(c, n, ch, turns[used].reply, turns[used].started);
    NextAction(c, n, body, turns, started, used, ch);
    assert forall i :: 0 <= i < used + 1 ==> next.log[i] == ch.log[i];
  }

  lemma {:induction false} RunInv(c: Codec, n: nat, body: Bytes, turns: seq<Turn>, started: bool, used: nat, ch: Chain)
    returns (last: nat)
    requires Inv(c, n, body, turns, started, used, ch)
    ensures Inv(c, n, body, turns, started, last, Run(c, n, ch, turns[used..]))
    ensures Run(c, n, ch, turns[used..]).waiting.Some? ==> last == |turns|
    decreases |turns| - used
  {
    if used < |turns| && ch.waiting.Some? {
      NextInv(c, n, body, turns, started, used, ch);
      assert turns[used..][1..] == turns[used + 1..];
      last := RunInv(c, n, body, turns, started, used + 1, Next(c, n, ch, turns[used].reply, turns[used].started));
    } else {
      last := used;
    }
  }

  /** In every run over a non-empty body and at least one guardrail: the callouts go to guardrails 0, 1, 2, ... in
      order, each with the prompts of the previous body after substitution, and only after a passing reply; at most one
      is outstanding; and the request ends at most once, as `EndsWell` says. */
  lemma ChainIsOrdered(c: Codec, n: nat, body: Bytes, turns: seq<Turn>, started: bool)
    requires body != [] && n > 0
    ensures var ch := Run(c, n, Begin(c, n, body, started), turns);
            && |ch.log| > 0
            && (ch.waiting.Some? ==>
                  && |ch.log| == |turns| + 1 <= n
                  && CalloutsInOrder(c, body, turns, started, ch.log, |ch.log|))
            && (ch.waiting.None? ==>
                  && |ch.log| - 1 <= n && |ch.log| - 1 <= |turns|
                  && CalloutsInOrder(c, body, turns, started, ch.log, |ch.log| - 1)
                  && EndsWell(c, n, body, turns, started, |ch.log| - 1, ch.log[|ch.log| - 1], ch.buffer))
  {
    BeginInv(c, n, body, turns, started);
    assert turns[0..] == turns;
    var last := RunInv(c, n, body, turns, started, 0, Begin(c, n, body, started));
  }

  ghost predicate AllCalled(c: Codec, n: nat, body: Bytes, turns: seq<Turn>, started: bool)
    requires n <= |turns|
  {
    forall i: nat :: i < n ==> Called(c, body, turns, started, i)
  }

  predicate Continued(ch: Chain) {
    ch.waiting.None? && ch.log != [] && ch.log[|ch.log| - 1].Continue?
  }

  /** With a reply for each guardrail, the request is continued if and only if every guardrail could be called and
      every reply passes; and then the body that goes on is the last one. */
  lemma ContinuesIff(c: Codec, n: nat, body: Bytes, turns: seq<Turn>, started: bool)
    requires body != [] && n > 0 && |turns| == n
    ensures var ch := Run(c, n, Begin(c, n, body, started), turns);
            && (Continued(ch) <==> AllCalled(c, n, body, turns, started) && BodyAt(c, body, turns, n).Some?)
            && (Continued(ch) ==> ch.log[|ch.log| - 1] == Continue(BodyAt(c, body, turns, n).value))
  {
    ChainIsOrdered(c, n, body, turns, started);
    var ch := Run(c, n, Begin(c, n, body, started), turns);
    if ch.waiting.None? && BodyAt(c, body, turns, n).Some? { BodyPrefix(c, body, turns, |ch.log| - 1, n); }
  }

  lemma {:induction false} BodyPrefix(c: Codec, body: Bytes, turns: seq<Turn>, i: nat, n: nat)
    requires i <= n <= |turns| && BodyAt(c, body, turns, n).Some?
    ensures BodyAt(c, body, turns, i).Some?
    decreases n - i
  {
    if i < n { BodyPrefix(c, body, turns, i, n - 1); }
  }
}
