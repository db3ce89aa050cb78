/** The UI executor's single "running" slot, under any interleaving of runs, stops and finishes. */
module ExecutorSlot {
  import opened ByteText

  /** The two fields the mutex guards; a run is named by its number. */
  datatype Slot = Slot(running: Option<nat>, cancel: Option<nat>)

  const FREE: Slot := Slot(None, None)

  function Register(slot: Slot, run: nat): Slot {
    Slot(Some(run), Some(run))
  }

  function Release(slot: Slot, run: nat): Slot {
    if slot.running == Some(run) then FREE else slot
  }

  function Clear(slot: Slot): Slot {
    if slot.running.Some? && slot.cancel.Some? then FREE else slot
  }

  /** The critical sections of the executor. A killed run is reported to the caller, which knows its process. */
  class Executor {
    var running: Option<nat>
    var cancel: Option<nat>

    ghost function View(): Slot
      reads this
    {
      Slot(running, cancel)
    }

    constructor ()
      ensures View() == FREE
    {
      running, cancel := None, None;
    }

    method Take(run: nat) returns (killed: Option<nat>)
      modifies this
      ensures View() == Register(old(View()), run) && killed == old(running)
    {
      killed := None;
      if running.Some? {
        killed := running;
      }
      running := Some(run);
      cancel := Some(run);
    }

    method Leave(run: nat)
      modifies this
      ensures View() == Release(old(View()), run)
    {
      if running == Some(run) {
        running := None;
        cancel := None;
      }
    }

    method Stop() returns (stopped: Option<nat>, cancelled: Option<nat>)
      modifies this
      ensures View() == Clear(old(View()))
      ensures stopped == (if old(running).Some? && old(cancel).Some? then old(running) else None)
      ensures stopped.Some? ==> cancelled == old(cancel)
    {
      stopped, cancelled := None, None;
      if running.Some? && cancel.Some? {
        stopped, cancelled := running, cancel;
        running := None;
        cancel := None;
      }
    }
  }

  // ----- All interleavings. -----

  /** `Leaving` is a run that has given up the slot and not yet cancelled its context; it may have a process, for
      example when reading the output failed. */
  datatype Phase = Waiting | Started | Leaving(started: bool) | Finished

  /** `signalled` runs were sent SIGTERM, `cancelled` runs had their context cancelled; `lost` are the runs that
      were replaced before their process existed. */
  datatype State = State(
    slot: Slot,
    runs: seq<Phase>,
    signalled: set<nat>,
    cancelled: set<nat>,
    lost: set<nat>)

  const INIT: State := State(FREE, [], {}, {}, {})

  datatype Event =
    | RunBegins
    | ProcessStarts(run: nat)
    | SlotLeft(run: nat)
    | RunEnds(run: nat)
    | ClientGone(run: nat)
    | StopRequested

  predicate Live(s: State, run: nat) {
    run < |s.runs| && !s.runs[run].Finished?
  }

  predicate Enabled(s: State, e: Event) {
    match e
    case RunBegins => true
    case ProcessStarts(r) => r < |s.runs| && s.runs[r].Waiting?
    case SlotLeft(r) => Live(s, r) && !s.runs[r].Leaving?
    case RunEnds(r) => Live(s, r) && s.runs[r].Leaving?
    case ClientGone(r) => Live(s, r)
    case StopRequested => true
  }

  predicate HasProcess(p: Phase) {
    p.Started? || p.Finished? || (p.Leaving? && p.started)
  }

  /** `killProcessGroup`: nothing happens before the process exists. */
  function Kill(s: State, run: nat): set<nat> {
    if run < |s.runs| && HasProcess(s.runs[run]) then s.signalled + {run} else s.signalled
  }

  function Step(s: State, e: Event): State
    requires Enabled(s, e)
  {
    match e
    case RunBegins =>
      var prior := s.slot.running;
      s.(slot := Register(s.slot, |s.runs|), runs := s.runs + [Waiting],
         signalled := if prior.Some? then Kill(s, prior.value) else s.signalled,
         lost := if prior.Some? && prior.value < |s.runs| && s.runs[prior.value].Waiting?
                 then s.lost + {prior.value} else s.lost)
    case ProcessStarts(r) => s.(runs := s.runs[r := Started])
    case SlotLeft(r) => s.(slot := Release(s.slot, r), runs := s.runs[r := Leaving(s.runs[r].Started?)])
    case RunEnds(r) => s.(runs := s.runs[r := Finished], cancelled := s.cancelled + {r})
    case ClientGone(r) => s.(signalled := Kill(s, r), cancelled := s.cancelled + {r})
    case StopRequested =>
      if s.slot.running.Some? && s.slot.cancel.Some? then
        s.(slot := Clear(s.slot), signalled := Kill(s, s.slot.running.value),
           cancelled := s.cancelled + {s.slot.cancel.value})
      else s
  }

  predicate Possible(s: State, es: seq<Event>)
    decreases |es|
  {
    es == [] || (Enabled(s, es[0]) && Possible(Step(s, es[0]), es[1..]))
  }

  function Trace(s: State, es: seq<Event>): State
    requires Possible(s, es)
    decreases |es|
  {
    if es == [] then s else Trace(Step(s, es[0]), es[1..])
  }

  /** Nobody has tried to end the run. */
  predicate Untouched(s: State, run: nat) {
    run !in s.signalled && run !in s.cancelled
  }

  /** The run is out of its slot for one of the two reasons that leave it alone. */
  predicate Astray(s: State, run: nat) {
    run in s.lost || (run < |s.runs| && s.runs[run].Leaving?)
  }

  ghost predicate Inv(s: State) {
    && s.slot.running == s.slot.cancel
    && (s.slot.running.Some? ==>
          s.slot.running.value == |s.runs| - 1 && Live(s, |s.runs| - 1) && !s.runs[|s.runs| - 1].Leaving?)
    && (forall r: nat :: Live(s, r) && s.slot.running != Some(r) && Untouched(s, r) ==> Astray(s, r))
    && (forall r :: r in s.lost ==> r < |s.runs| - 1)
    && (forall r :: r in s.cancelled || r in s.signalled ==> r < |s.runs|)
  }

  lemma StepKeepsInv(s: State, e: Event)
    requires Inv(s) && Enabled(s, e)
    ensures Inv(Step(s, e))
  {
    var t := Step(s, e);
    forall r: nat | Live(t, r) && t.slot.running != Some(r) && Untouched(t, r)
      ensures Astray(t, r)
    {
      if r < |s.runs| {
        assert Live(s, r);
        assert Untouched(s, r);
      }
    }
  }

  lemma {:induction false} TraceKeepsInv(s: State, es: seq<Event>)
    requires Inv(s) && Possible(s, es)
    ensures Inv(Trace(s, es))
    decreases |es|
  {
    if es != [] {
      StepKeepsInv(s, es[0]);
      TraceKeepsInv(Step(s, es[0]), es[1..]);
    }
  }

  /** In every interleaving: the two slot fields are both set or both empty and name the latest registered run, which
      has not ended; and a live run that nobody has tried to end is outside the slot if and only if it was replaced
      before its process existed or is about to cancel itself. */
  lemma SlotNamesLatestRun(es: seq<Event>)
    requires Possible(INIT, es)
    ensures var s := Trace(INIT, es);
            && s.slot.running == s.slot.cancel
            && (s.slot.running.Some? ==> s.slot.running.value == |s.runs| - 1 && Live(s, |s.runs| - 1))
            && (forall r: nat :: Live(s, r) && Untouched(s, r) ==> (s.slot.running != Some(r) <==> Astray(s, r)))
  {
    TraceKeepsInv(INIT, es);
  }

  /** What takes a run out of its slot. */
  predicate Displaces(e: Event, run: int) {
    e.RunBegins? || e.StopRequested? || (e.SlotLeft? && e.run == run)
  }

  /** Other runs ending, starting or losing their client never clear the slot. */
  lemma {:induction false} SlotIsKept(s: State, es: seq<Event>, run: nat)
    requires s.slot == Slot(Some(run), Some(run)) && Possible(s, es)
    requires forall k :: 0 <= k < |es| ==> !Displaces(es[k], run)
    ensures Trace(s, es).slot == s.slot
    decreases |es|
  {
    if es != [] {
      assert !Displaces(es[0], run);
      SlotIsKept(Step(s, es[0]), es[1..], run);
    }
  }

  /** A run has begun since which no other has, none was stopped and it has not left. */
  predicate SlotHeld(es: seq<Event>, run: int) {
    exists i :: 0 <= i < |es| && es[i].RunBegins? && NoneDisplaces(es, i, run)
  }

  predicate NoneDisplaces(es: seq<Event>, i: int, run: int) {
    forall j :: i < j < |es| && 0 <= j ==> !Displaces(es[j], run)
  }

  lemma NoneDisplacesCons(es: seq<Event>, run: int)
    requires es != []
    ensures NoneDisplaces(es, -1, run) <==>
            NoneDisplaces(es[1..], -1, run) && !Displaces(es[0], run)
    ensures NoneDisplaces(es, 0, run) <==> NoneDisplaces(es[1..], -1, run)
    ensures SlotHeld(es, run) <==>
            SlotHeld(es[1..], run) || (es[0].RunBegins? && NoneDisplaces(es[1..], -1, run))
  {
    var rest := es[1..];
    assert forall j :: 0 <= j < |rest| ==> rest[j] == es[j + 1];
    assert forall j :: 1 <= j < |es| ==> es[j] == rest[j - 1];
    if SlotHeld(rest, run) {
      var i :| 0 <= i < |rest| && rest[i].RunBegins? && NoneDisplaces(rest, i, run);
      assert es[i + 1].RunBegins? && NoneDisplaces(es, i + 1, run);
    }
    if SlotHeld(es, run) {
      var i :| 0 <= i < |es| && es[i].RunBegins? && NoneDisplaces(es, i, run);
      assert i > 0 ==> rest[i - 1].RunBegins? && NoneDisplaces(rest, i - 1, run);
    }
  }

  lemma {:induction false} NoNewRun(s: State, es: seq<Event>, run: int)
    requires Possible(s, es) && NoneDisplaces(es, -1, run)
    ensures |Trace(s, es).runs| == |s.runs|
    decreases |es|
  {
    if es != [] {
      NoneDisplacesCons(es, run);
      NoNewRun(Step(s, es[0]), es[1..], run);
    }
  }

  lemma {:induction false} SlotFollows(s: State, es: seq<Event>)
    requires Inv(s) && Possible(s, es)
    ensures var t := Trace(s, es); var last := |t.runs| - 1;
            t.slot.running.Some? <==> SlotHeld(es, last) || (s.slot.running.Some? && NoneDisplaces(es, -1, last))
    decreases |es|
  {
    if es != [] {
      var s1 := Step(s, es[0]);
      var last := |Trace(s, es).runs| - 1;
      StepKeepsInv(s, es[0]);
      SlotFollows(s1, es[1..]);
      NoneDisplacesCons(es, last);
      if NoneDisplaces(es[1..], -1, last) { NoNewRun(s1, es[1..], last); }
    }
  }

  /** In every interleaving the slot is taken if and only if the latest run has neither left it nor been stopped. */
  lemma SlotTakenIff(es: seq<Event>)
    requires Possible(INIT, es)
    ensures var s := Trace(INIT, es); s.slot.running.Some? <==> SlotHeld(es, |s.runs| - 1)
  {
    SlotFollows(INIT, es);
  }

  /** A stop cancels the run in the slot, signals it if its process exists and frees the slot; with none it does
      nothing. A client that goes away ends its own run alike and leaves the slot. */
  lemma StopsWhatItNames(s: State, run: nat)
    requires Inv(s) && Live(s, run)
    ensures var t := Step(s, StopRequested);
            if s.slot.running == Some(run) then
              && t.slot == FREE && t.cancelled == s.cancelled + {run}
              && t.signalled == if s.runs[run].Started? then s.signalled + {run} else s.signalled
            else s.slot.running.None? ==> t == s
    ensures var t := Step(s, ClientGone(run));
            && t.slot == s.slot && t.cancelled == s.cancelled + {run}
            && t.signalled == if HasProcess(s.runs[run]) then s.signalled + {run} else s.signalled
  {
  }

  /** The run a new one replaces is signalled if and only if its process exists by then. */
  lemma ReplacedIsSignalledIff(s: State)
    requires Inv(s) && s.slot.running.Some? && s.slot.running.value !in s.signalled
    ensures var r, t := s.slot.running.value, Step(s, RunBegins);
            && (r in t.signalled <==> s.runs[r].Started?)
            && (r in t.lost <==> s.runs[r].Waiting?)
  {
  }

  /** Two live runs that nobody has tried to end cannot both be where they should be: one of them was replaced before
      it had started, or is between leaving the slot and its cancel. */
  lemma AtMostOneLeftAlone(es: seq<Event>, a: nat, b: nat)
    requires Possible(INIT, es)
    requires var s := Trace(INIT, es);
             && Live(s, a) && Live(s, b) && Untouched(s, a) && Untouched(s, b)
             && !Astray(s, a) && !Astray(s, b)
    ensures a == b
  {
    TraceKeepsInv(INIT, es);
  }

  lemma TraceCons(s: State, e: Event, rest: seq<Event>)
    requires Enabled(s, e) && Possible(Step(s, e), rest)
    ensures Possible(s, [e] + rest) && Trace(s, [e] + rest) == Trace(Step(s, e), rest)
  {
    var es := [e] + rest;
    assert es[0] == e && es[1..] == rest;
  }

  /** The first condition is needed: a run replaced before it starts goes on next to its replacement. */
  lemma ReplacedEarlyGoesOn() returns (es: seq<Event>)
    ensures Possible(INIT, es)
    ensures var s := Trace(INIT, es);
            s.runs == [Started, Started] && Untouched(s, 0) && Untouched(s, 1) && s.slot.running == Some(1)
  {
    var s1 := Step(INIT, RunBegins);
    var s2 := Step(s1, RunBegins);
    var s3 := Step(s2, ProcessStarts(0));
    var s4 := Step(s3, ProcessStarts(1));
    assert s4.runs == [Started, Started];
    es := [];
    TraceCons(s3, ProcessStarts(1), es);
    es := [ProcessStarts(1)] + es;
    TraceCons(s2, ProcessStarts(0), es);
    es := [ProcessStarts(0)] + es;
    TraceCons(s1, RunBegins, es);
    es := [RunBegins] + es;
    TraceCons(INIT, RunBegins, es);
    es := [RunBegins] + es;
  }

  /** So is the second: a run that has left the slot with its process alive, and has not yet cancelled it, is not seen
      by the next one. */
  lemma LeavingRunGoesOn() returns (es: seq<Event>)
    ensures Possible(INIT, es)
    ensures var s := Trace(INIT, es);
            && s.runs == [Leaving(true), Started] && Untouched(s, 0) && Untouched(s, 1)
            && s.slot.running == Some(1) && s.lost == {}
  {
    var s1 := Step(INIT, RunBegins);
    var s2 := Step(s1, ProcessStarts(0));
    var s3 := Step(s2, SlotLeft(0));
    var s4 := Step(s3, RunBegins);
    var s5 := Step(s4, ProcessStarts(1));
    assert s5.runs == [Leaving(true), Started];
    es := [];
    TraceCons(s4, ProcessStarts(1), es);
    es := [ProcessStarts(1)] + es;
    TraceCons(s3, RunBegins, es);
    es := [RunBegins] + es;
    TraceCons(s2, SlotLeft(0), es);
    es := [SlotLeft(0)] + es;
    TraceCons(s1, ProcessStarts(0), es);
    es := [ProcessStarts(0)] + es;
    TraceCons(INIT, RunBegins, es);
    es := [RunBegins] + es;
  }

  /** The second kind of stray run ends by itself: its next step cancels it. */
  lemma LeavingRunIsCancelled(s: State, run: nat)
    requires Live(s, run) && s.runs[run].Leaving?
    ensures Enabled(s, RunEnds(run)) && run in Step(s, RunEnds(run)).cancelled && !Live(Step(s, RunEnds(run)), run)
  {
  }
}
