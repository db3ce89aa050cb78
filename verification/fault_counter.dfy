/** The fault filter's global in-flight counter, shared by all streams. */
module FaultCounter {

  /** The process-wide atomic counter. */
  class Counter {
    var active: int

    constructor ()
      ensures active == 0
    {
      active := 0;
    }
  }

  class Filter {
    const counter: Counter
    var matched: bool
    var counted: bool
    var entryInFlight: int

    constructor (counter: Counter)
      ensures this.counter == counter && !matched && !counted
    {
      this.counter := counter;
      matched, counted, entryInFlight := false, false, 0;
    }

    /** `sampled` says whether the route configuration yields a sample for this request. */
    method OnRequestHeaders(sampled: bool)
      modifies this, counter
      ensures matched == (old(matched) || sampled)
      ensures counted == (old(counted) || matched)
      ensures counter.active == old(counter.active) + (if counted && !old(counted) then 1 else 0)
      ensures matched ==> entryInFlight == old(counter.active)
    {
      var loadValue := counter.active;
      if sampled {
        matched := true;
      }
      if matched {
        entryInFlight := loadValue;
        StartRequest();
      }
    }

    method StartRequest()
      modifies this`counted, counter
      ensures counted && counter.active == old(counter.active) + (if old(counted) then 0 else 1)
    {
      if counted { return; }
      counted := true;
      counter.active := counter.active + 1;
    }

    /** Runs on stream completion and again on destruction; only the first one counts. */
    method ReleaseRequest()
      modifies this`counted, counter
      ensures !counted && counter.active == old(counter.active) - (if old(counted) then 1 else 0)
    {
      if !counted { return; }
      counted := false;
      counter.active := counter.active - 1;
    }
  }

  // ----- All interleavings: the flag and the atomic add are two separate steps. -----

  datatype Pending = Nothing | Adding | Removing

  datatype Stream = Stream(counted: bool, pending: Pending, destroyed: bool)

  datatype State = State(active: int, streams: map<nat, Stream>)

  const INIT: State := State(0, map[])

  datatype Event =
    | Created(id: nat)
    | RequestHeaders(id: nat, matched: bool)
    | StreamComplete(id: nat)
    | Destroyed(id: nat)
    | AtomicAdd(id: nat)

  predicate Enabled(s: State, e: Event) {
    match e
    case Created(id) => id !in s.streams
    case RequestHeaders(id, _) => id in s.streams && s.streams[id].pending.Nothing? && !s.streams[id].destroyed
    case StreamComplete(id) => id in s.streams && s.streams[id].pending.Nothing?
    case Destroyed(id) => id in s.streams && s.streams[id].pending.Nothing?
    case AtomicAdd(id) => id in s.streams && !s.streams[id].pending.Nothing?
  }

  function Release(f: Stream): Stream {
    if f.counted then f.(counted := false, pending := Removing) else f
  }

  function Step(s: State, e: Event): State
    requires Enabled(s, e)
  {
    match e
    case Created(id) => s.(streams := s.streams[id := Stream(false, Nothing, false)])
    case RequestHeaders(id, matched) =>
      var f := s.streams[id];
      if matched && !f.counted then s.(streams := s.streams[id := f.(counted := true, pending := Adding)]) else s
    case StreamComplete(id) => s.(streams := s.streams[id := Release(s.streams[id])])
    case Destroyed(id) => s.(streams := s.streams[id := Release(s.streams[id]).(destroyed := true)])
    case AtomicAdd(id) =>
      var f := s.streams[id];
      State(if f.pending.Adding? then s.active + 1 else s.active - 1, s.streams[id := f.(pending := Nothing)])
  }

  predicate Possible(s: State, es: seq<Event>)
    decreases |es|
  {
    es == [] || (Enabled(s, es[0]) && Possible(Step(s, es[0]), es[1..]))
  }

  function Trace(s: State, es: seq<Event>): State
    requires Possible(s, es)
    decreases |es|
  {
    if es == [] then s else Trace(Step(s, es[0]), es[1..])
  }

  /** The counter holds one unit for this stream. */
  predicate Holds(f: Stream) {
    (f.counted && f.pending.Nothing?) || f.pending.Removing?
  }

  function Holders(s: State): set<nat> {
    set id | id in s.streams && Holds(s.streams[id])
  }

  function Counted(s: State): set<nat> {
    set id | id in s.streams && s.streams[id].counted
  }

  predicate StreamOk(f: Stream) {
    && (f.pending.Adding? ==> f.counted) && (f.pending.Removing? ==> !f.counted)
    && (f.destroyed ==> !f.counted)
  }

  ghost predicate Inv(s: State) {
    s.active == |Holders(s)| && forall id :: id in s.streams ==> StreamOk(s.streams[id])
  }

  /** Only an atomic add moves a stream into or out of the counter. */
  lemma HoldersStay(s: State, e: Event)
    requires Inv(s) && Enabled(s, e) && !e.AtomicAdd?
    ensures Holders(Step(s, e)) == Holders(s)
  {
    var t := Step(s, e);
    assert e.id in s.streams ==> StreamOk(s.streams[e.id]);
    forall id
      ensures id in Holders(t) <==> id in Holders(s)
    {
      if id != e.id { assert id in t.streams <==> id in s.streams; }
    }
  }

  lemma HoldersMove(s: State, id: nat)
    requires Inv(s) && Enabled(s, AtomicAdd(id))
    ensures var t := Step(s, AtomicAdd(id));
            if s.streams[id].pending.Adding? then Holders(t) == Holders(s) + {id} && id !in Holders(s)
            else Holders(s) == Holders(t) + {id} && id !in Holders(t)
  {
    assert StreamOk(s.streams[id]);
  }

  lemma StreamsStep(s: State, e: Event)
    requires Inv(s) && Enabled(s, e)
    ensures forall id :: id in Step(s, e).streams ==> StreamOk(Step(s, e).streams[id])
  {
  }

  lemma StepKeepsInv(s: State, e: Event)
    requires Inv(s) && Enabled(s, e)
    ensures Inv(Step(s, e))
  {
    StreamsStep(s, e);
    if e.AtomicAdd? {
      HoldersMove(s, e.id);
    } else {
      HoldersStay(s, e);
    }
  }

  lemma {:induction false} TraceKeepsInv(s: State, es: seq<Event>)
    requires Inv(s) && Possible(s, es)
    ensures Inv(Trace(s, es))
    decreases |es|
  {
    if es != [] {
      StepKeepsInv(s, es[0]);
      TraceKeepsInv(Step(s, es[0]), es[1..]);
    }
  }

  lemma {:induction false} TraceSnoc(s: State, es: seq<Event>, e: Event)
    requires Possible(s, es + [e])
    ensures Possible(s, es) && Enabled(Trace(s, es), e) && Trace(s, es + [e]) == Step(Trace(s, es), e)
    decreases |es|
  {
    var all := es + [e];
    if es == [] {
      assert all == [e] && |all[1..]| == 0;
    } else {
      assert all[0] == es[0] && all[1..] == es[1..] + [e];
      TraceSnoc(Step(s, es[0]), es[1..], e);
    }
  }

  /** The stream's last matched request has seen neither completion nor destruction. */
  predicate InFlight(es: seq<Event>, id: nat) {
    exists i :: 0 <= i < |es| && es[i] == RequestHeaders(id, true) && NotReleased(es, id, i)
  }

  predicate NotReleased(es: seq<Event>, id: nat, i: nat) {
    forall j :: i < j < |es| ==> es[j] != StreamComplete(id) && es[j] != Destroyed(id)
  }

  lemma InFlightSnoc(es: seq<Event>, e: Event, id: nat)
    ensures InFlight(es + [e], id) <==>
            e == RequestHeaders(id, true) || (InFlight(es, id) && e != StreamComplete(id) && e != Destroyed(id))
  {
    var all, n := es + [e], |es|;
    assert all[n] == e && forall i :: 0 <= i < n ==> all[i] == es[i];
    if e == RequestHeaders(id, true) {
      assert NotReleased(all, id, n);
    } else if InFlight(es, id) && e != StreamComplete(id) && e != Destroyed(id) {
      var i :| 0 <= i < |es| && es[i] == RequestHeaders(id, true) && NotReleased(es, id, i);
      assert NotReleased(all, id, i);
    }
    if InFlight(all, id) && e != RequestHeaders(id, true) {
      var i :| 0 <= i < |all| && all[i] == RequestHeaders(id, true) && NotReleased(all, id, i);
      assert NotReleased(es, id, i);
    }
  }

  lemma {:induction false} CountedIsInFlight(es: seq<Event>, id: nat)
    requires Possible(INIT, es)
    ensures id in Counted(Trace(INIT, es)) <==> InFlight(es, id)
    decreases |es|
  {
    if es != [] {
      var n := |es| - 1;
      var init, e := es[..n], es[n];
      assert es == init + [e];
      TraceSnoc(INIT, init, e);
      CountedIsInFlight(init, id);
      InFlightSnoc(init, e, id);
    }
  }

  ghost function StreamsInFlight(es: seq<Event>): set<nat>
    requires Possible(INIT, es)
  {
    set id | id in Trace(INIT, es).streams && InFlight(es, id)
  }

  /** Across any interleaving: the counter is never negative; whenever no atomic add is outstanding it equals the
      number of streams in flight, those with a matched request and neither completion nor destruction since; and once
      every stream has been destroyed it is back to zero, however often completion and destruction fired. */
  lemma CounterIsExact(es: seq<Event>)
    requires Possible(INIT, es)
    ensures var s := Trace(INIT, es);
            var quiet := forall id :: id in s.streams ==> s.streams[id].pending.Nothing?;
            && s.active >= 0
            && (quiet ==> s.active == |StreamsInFlight(es)|)
            && (quiet && (forall id :: id in s.streams ==> s.streams[id].destroyed) ==> s.active == 0)
  {
    assert Holders(INIT) == {};
    TraceKeepsInv(INIT, es);
    var s := Trace(INIT, es);
    forall id
      ensures id in Counted(s) <==> id in StreamsInFlight(es)
    {
      CountedIsInFlight(es, id);
    }
    assert Counted(s) == StreamsInFlight(es);
    if forall id :: id in s.streams ==> s.streams[id].pending.Nothing? {
      assert Holders(s) == Counted(s);
      if forall id :: id in s.streams ==> s.streams[id].destroyed {
        assert Counted(s) == {};
      }
    }
  }

  function Waiting(s: State, p: Pending): set<nat> {
    set id | id in s.streams && s.streams[id].pending == p
  }

  /** While adds are outstanding, the counter is off by exactly the streams whose add is missing. */
  lemma CounterDrift(es: seq<Event>)
    requires Possible(INIT, es)
    ensures var s := Trace(INIT, es);
            s.active + |Waiting(s, Adding)| == |Counted(s)| + |Waiting(s, Removing)|
  {
    assert Holders(INIT) == {};
    TraceKeepsInv(INIT, es);
    var s := Trace(INIT, es);
    var union := Counted(s) + Waiting(s, Removing);
    assert union == Holders(s) + Waiting(s, Adding);
    assert |union| == |Counted(s)| + |Waiting(s, Removing)| by {
      assert Counted(s) !! Waiting(s, Removing);
    }
    assert |union| == |Holders(s)| + |Waiting(s, Adding)| by {
      assert Holders(s) !! Waiting(s, Adding);
    }
  }
}
