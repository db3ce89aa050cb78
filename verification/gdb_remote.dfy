/** The GDB-remote debug server: one accept loop, one debug-server process at a time, and a concurrent `stop`. */
module GdbRemote {
  import opened ByteText

  /** Where the serving goroutine is. */
  datatype Serve =
    | NotStarted     // `start` has not spawned it
    | Accepting      // in `Accept`
    | Accepted       // session begun, its cancel function not yet published
    | Published      // cancel function published, debug server not yet started
    | Attached       // debug server started: dialling or proxying
    | Draining(proxied: bool)  // session cancelled, waiting for the debug server to exit
    | Leaving(killed: bool)    // about to withdraw the cancel function; Envoy found dead or not
    | Withdrawn(killed: bool)  // cancel function withdrawn, not yet called for the last time
    | Returned

  /** Where the goroutine that calls `stop` is. */
  datatype Stop = Idle | Closed | Waiting | Done

  /** Sessions are numbered. `running` are the debug servers whose process is alive, `exited` the ones whose exit has
      been observed, `cancelled` the sessions whose context is done. */
  datatype State = State(
    serve: Serve,
    stop: Stop,
    listening: bool,
    sessions: nat,
    cancel: Option<nat>,
    started: set<nat>,
    running: set<nat>,
    exited: set<nat>,
    cancelled: set<nat>,
    runDone: bool,
    envoyAlive: bool)

  const INIT: State := State(NotStarted, Idle, false, 0, None, {}, {}, {}, {}, false, true)

  datatype Event =
    | StartListening
    | ClientAccepted
    | AcceptFailed             // for any reason, a closed listener among them
    | CancelPublished
    | ServerStarted            // also when the cancellation came too late to stop the fork
    | ServerFailed
    | SessionOver(proxied: bool)  // one side closed the proxied connection, or dialling failed
    | ExitSeen                 // the session has received on `exited`
    | CancelWithdrawn
    | SessionEnds              // the session's own last cancel
    | ProcessExits(id: nat, killsEnvoy: bool)
    | EnvoyDies
    | WaitReturns(id: nat)
    | RunCancelled             // the run's context is cancelled, and with it every session's
    | StopCloses
    | StopCancels
    | StopReturns

  predicate InSession(s: State) {
    || s.serve.Accepted? || s.serve.Published? || s.serve.Attached?
    || s.serve.Draining? || s.serve.Leaving? || s.serve.Withdrawn?
  }

  function AllSessions(n: nat): (ids: set<nat>)
    ensures forall id: nat :: id in ids <==> id < n
  {
    if n == 0 then {} else AllSessions(n - 1) + {n - 1}
  }

  predicate Enabled(s: State, e: Event) {
    match e
    case StartListening => s.serve.NotStarted? && s.stop.Idle?
    case ClientAccepted => s.serve.Accepting? && s.listening
    case AcceptFailed => s.serve.Accepting?
    case CancelPublished => s.serve.Accepted?
    case ServerStarted => s.serve.Published? && s.sessions > 0
    case ServerFailed => s.serve.Published?
    case SessionOver(_) => s.serve.Attached? && s.sessions > 0
    case ExitSeen => s.serve.Draining? && s.sessions > 0 && s.sessions - 1 in s.exited
    case CancelWithdrawn => s.serve.Leaving?
    case SessionEnds => s.serve.Withdrawn? && s.sessions > 0
    case ProcessExits(id, _) => id in s.running
    case EnvoyDies => true
    case WaitReturns(id) => id in s.started && id !in s.running
    case RunCancelled => true
    case StopCloses => s.stop.Idle?
    case StopCancels => s.stop.Closed?
    case StopReturns => s.stop.Waiting? && (s.serve.Returned? || s.serve.NotStarted?)
  }

  function Step(s: State, e: Event): State
    requires Enabled(s, e)
  {
    match e
    case StartListening => s.(serve := Accepting, listening := true)
    case ClientAccepted =>
      s.(serve := Accepted, sessions := s.sessions + 1,
         cancelled := if s.runDone then s.cancelled + {s.sessions} else s.cancelled)
    case AcceptFailed => s.(serve := Returned)
    case CancelPublished => s.(serve := Published, cancel := if s.sessions > 0 then Some(s.sessions - 1) else None)
    case ServerStarted =>
      s.(serve := Attached, started := s.started + {s.sessions - 1}, running := s.running + {s.sessions - 1})
    case ServerFailed => s.(serve := Leaving(false))
    case SessionOver(proxied) => s.(serve := Draining(proxied), cancelled := s.cancelled + {s.sessions - 1})
    case ExitSeen => s.(serve := Leaving(s.serve.proxied && !s.envoyAlive))
    case CancelWithdrawn => s.(serve := Withdrawn(s.serve.killed), cancel := None)
    case SessionEnds =>
      s.(serve := if s.serve.killed then Returned else Accepting, cancelled := s.cancelled + {s.sessions - 1})
    case EnvoyDies => s.(envoyAlive := false)
    case ProcessExits(id, kills) => s.(running := s.running - {id}, envoyAlive := s.envoyAlive && !kills)
    case WaitReturns(id) => s.(exited := s.exited + {id})
    case RunCancelled => s.(runDone := true, cancelled := s.cancelled + AllSessions(s.sessions))
    case StopCloses => s.(stop := Closed, listening := false)
    case StopCancels =>
      s.(stop := Waiting,
         cancelled := if s.cancel.Some? then s.cancelled + {s.cancel.value} else s.cancelled)
    case StopReturns => s.(stop := Done)
  }

  predicate Possible(s: State, es: seq<Event>)
    decreases |es|
  {
    es == [] || (Enabled(s, es[0]) && Possible(Step(s, es[0]), es[1..]))
  }

  function Trace(s: State, es: seq<Event>): State
    requires Possible(s, es)
    decreases |es|
  {
    if es == [] then s else Trace(Step(s, es[0]), es[1..])
  }

  // ----- Invariants. -----

  /** Which debug servers can exist: only the current session's, and only while it is attached or draining. */
  ghost predicate ServersInv(s: State) {
    && (InSession(s) ==> s.sessions > 0)
    && s.running <= s.started
    && s.exited <= s.started
    && s.running !! s.exited
    && (forall id :: id in s.started ==> id < s.sessions)
    && (forall id :: id in s.started && id !in s.exited ==>
          (s.serve.Attached? || s.serve.Draining?) && id == s.sessions - 1)
    && (s.serve.Accepted? || s.serve.Published? ==> s.sessions - 1 !in s.started)
  }

  /** Who can be cancelled: the published cancel function is the current session's, ended sessions are cancelled. */
  ghost predicate CancelInv(s: State) {
    && (InSession(s) ==> s.sessions > 0)
    && s.cancel == (if InSession(s) && !s.serve.Accepted? && !s.serve.Withdrawn? then Some(s.sessions - 1) else None)
    && (forall id: nat :: id < s.sessions && id !in s.cancelled ==> InSession(s) && id == s.sessions - 1)
    && (s.serve.Draining? ==> s.sessions - 1 in s.cancelled)
  }

  ghost predicate StopInv(s: State) {
    && (s.serve.NotStarted? ==> s.sessions == 0)
    && (!s.stop.Idle? ==> !s.listening)
    && (s.stop.Done? ==> s.serve.Returned? || s.serve.NotStarted?)
    && (InSession(s) ==> s.sessions > 0)
  }

  ghost predicate Inv(s: State) {
    ServersInv(s) && CancelInv(s) && StopInv(s)
  }

  lemma StepKeepsServers(s: State, e: Event)
    requires Inv(s) && Enabled(s, e)
    ensures ServersInv(Step(s, e))
  {
  }

  lemma StepKeepsCancel(s: State, e: Event)
    requires Inv(s) && Enabled(s, e)
    ensures CancelInv(Step(s, e))
  {
  }

  lemma StepKeepsStop(s: State, e: Event)
    requires Inv(s) && Enabled(s, e)
    ensures StopInv(Step(s, e))
  {
  }

  lemma {:induction false} TraceKeepsInv(s: State, es: seq<Event>)
    requires Inv(s) && Possible(s, es)
    ensures Inv(Trace(s, es))
    decreases |es|
  {
    if es != [] {
      StepKeepsServers(s, es[0]);
      StepKeepsCancel(s, es[0]);
      StepKeepsStop(s, es[0]);
      TraceKeepsInv(Step(s, es[0]), es[1..]);
    }
  }

  // ----- What every run keeps. -----

  lemma AtMostOne(s: State)
    requires ServersInv(s)
    ensures |s.running| <= 1
  {
    if s.running != {} {
      assert s.running <= {s.sessions - 1} by {
        forall id | id in s.running
          ensures id == s.sessions - 1
        {
        }
      }
      SubsetOfOne(s.running, s.sessions - 1);
    }
  }

  lemma SubsetOfOne(a: set<nat>, x: nat)
    requires a <= {x}
    ensures |a| <= 1
  {
    if x in a {
      assert a == {x};
    } else {
      assert a == {};
    }
  }

  /** In every interleaving: at most one debug server is alive; while the loop waits for a client every debug server
      ever started has exited and been reaped; and none is left when `stop` has returned. */
  lemma OneDebugServer(es: seq<Event>)
    requires Possible(INIT, es)
    ensures var s := Trace(INIT, es);
            && |s.running| <= 1
            && (s.serve.Accepting? ==> s.running == {} && s.exited == s.started)
            && (s.stop.Done? ==> s.running == {} && s.exited == s.started && s.cancel == None)
  {
    TraceKeepsInv(INIT, es);
    AtMostOne(Trace(INIT, es));
  }

  // ----- When the serving loop ends. -----

  lemma {:induction false} TraceSnoc(s: State, es: seq<Event>, e: Event)
    requires Possible(s, es + [e])
    ensures Possible(s, es) && Enabled(Trace(s, es), e) && Trace(s, es + [e]) == Step(Trace(s, es), e)
    decreases |es|
  {
    var all := es + [e];
    if es == [] {
      assert all == [e] && |all[1..]| == 0;
    } else {
      assert all[0] == es[0] && all[1..] == es[1..] + [e];
      TraceSnoc(Step(s, es[0]), es[1..], e);
    }
  }

  predicate KillsEnvoy(e: Event) {
    e.EnvoyDies? || (e.ProcessExits? && e.killsEnvoy)
  }

  predicate EnvoyDied(es: seq<Event>) {
    exists e :: e in es && KillsEnvoy(e)
  }

  lemma DiedSnoc(es: seq<Event>, e: Event)
    ensures EnvoyDied(es + [e]) <==> EnvoyDied(es) || KillsEnvoy(e)
  {
    var all := es + [e];
    assert e in all && forall x :: x in all <==> x in es || x == e;
  }

  /** The latest session that was over had been proxied. */
  predicate LastProxied(es: seq<Event>) {
    es != [] &&
    var last := es[|es| - 1];
    if last.SessionOver? then last.proxied else LastProxied(es[..|es| - 1])
  }

  /** When the latest session's server was seen to exit, its client had been proxied and Envoy was dead; a session whose
      server did not start finds nothing. */
  predicate FoundDead(es: seq<Event>) {
    es != [] &&
    var init, last := es[..|es| - 1], es[|es| - 1];
    if last.ExitSeen? then LastProxied(init) && EnvoyDied(init)
    else !last.ServerFailed? && FoundDead(init)
  }

  /** Accepting has failed, or a session has ended that found Envoy dead. */
  predicate Over(es: seq<Event>) {
    es != [] &&
    var init, last := es[..|es| - 1], es[|es| - 1];
    last.AcceptFailed? || (last.SessionEnds? && FoundDead(init)) || Over(init)
  }

  /** What the state remembers of the events. */
  ghost predicate Remembers(s: State, es: seq<Event>) {
    && (s.envoyAlive <==> !EnvoyDied(es))
    && (s.serve.Draining? ==> (s.serve.proxied <==> LastProxied(es)))
    && (s.serve.Leaving? || s.serve.Withdrawn? ==> (s.serve.killed <==> FoundDead(es)))
    && (s.serve.Returned? <==> Over(es))
  }

  lemma RemembersStep(s: State, es: seq<Event>, e: Event)
    requires Remembers(s, es) && Enabled(s, e)
    ensures Remembers(Step(s, e), es + [e])
  {
    var all := es + [e];
    assert all[..|all| - 1] == es && all[|all| - 1] == e;
    DiedSnoc(es, e);
  }

  lemma {:induction false} TraceRemembers(es: seq<Event>)
    requires Possible(INIT, es)
    ensures Remembers(Trace(INIT, es), es)
    decreases |es|
  {
    if es != [] {
      var n := |es| - 1;
      var init, e := es[..n], es[n];
      assert es == init + [e];
      TraceSnoc(INIT, init, e);
      TraceRemembers(init);
      RemembersStep(Trace(INIT, init), init, e);
    }
  }

  /** In every interleaving the serving loop has returned if and only if accepting has failed, or a session has ended
      that had proxied its client and found Envoy dead when its debug server exited. */
  lemma ServingEndsIff(es: seq<Event>)
    requires Possible(INIT, es)
    ensures Trace(INIT, es).serve.Returned? <==> Over(es)
  {
    TraceRemembers(es);
  }

  /** Once `stop` has returned, nothing starts again. */
  lemma {:induction false} StoppedForGood(s: State, es: seq<Event>)
    requires Inv(s) && s.stop.Done? && Possible(s, es)
    ensures Trace(s, es).running == {} && Trace(s, es).started == s.started
    decreases |es|
  {
    if es != [] {
      StepKeepsServers(s, es[0]);
      StepKeepsCancel(s, es[0]);
      StepKeepsStop(s, es[0]);
      StoppedForGood(Step(s, es[0]), es[1..]);
    }
  }

  /** A session is under way that nobody has cancelled. */
  predicate Unattended(s: State) {
    InSession(s) && s.sessions > 0 && s.sessions - 1 !in s.cancelled
  }

  /** What cancels a session without `stop`: its connection, the end of the run, or its own last cancel. */
  predicate EndsSession(e: Event) {
    e.SessionOver? || e.RunCancelled? || e.SessionEnds?
  }

  /** The session's cancel function is not there to be found: not yet published, or withdrawn already. */
  predicate Unseen(s: State) {
    s.serve.Accepted? || s.serve.Withdrawn?
  }

  /** `stop` fails to cancel the session exactly when it finds no cancel function and nobody else has cancelled it. */
  lemma StopMissesIff(s: State)
    requires Inv(s) && s.stop.Closed?
    ensures Unattended(Step(s, StopCancels)) <==> Unseen(s) && Unattended(s)
  {
  }

  /** The second of the two windows closes by itself: the session's next step cancels it, and it has no server. */
  lemma WithdrawnClosesItself(s: State)
    requires Inv(s) && s.serve.Withdrawn?
    ensures s.running == {} && Enabled(s, SessionEnds)
    ensures !InSession(Step(s, SessionEnds)) && s.sessions - 1 in Step(s, SessionEnds).cancelled
  {
  }

  /** With the listener closed no session begins, and one that is left alone stays so until something ends it. */
  lemma UnattendedStep(s: State, e: Event)
    requires Inv(s) && Enabled(s, e) && (s.stop.Waiting? || s.stop.Done?)
    ensures var t := Step(s, e);
            && (t.stop.Waiting? || t.stop.Done?) && t.sessions == s.sessions
            && (Unattended(t) <==> Unattended(s) && !EndsSession(e))
  {
  }

  lemma {:induction false} UnattendedRun(s: State, es: seq<Event>)
    requires Inv(s) && Possible(s, es) && (s.stop.Waiting? || s.stop.Done?)
    ensures Trace(s, es).sessions == s.sessions
    ensures Unattended(Trace(s, es)) <==> Unattended(s) && forall e :: e in es ==> !EndsSession(e)
    decreases |es|
  {
    if es != [] {
      StepKeepsServers(s, es[0]);
      StepKeepsCancel(s, es[0]);
      StepKeepsStop(s, es[0]);
      UnattendedStep(s, es[0]);
      UnattendedRun(Step(s, es[0]), es[1..]);
      assert forall e :: e in es <==> e == es[0] || e in es[1..];
    }
  }

  /** The exact condition, over every run: while `stop` waits there is a session nobody has cancelled if and only if
      that session was uncancelled when `stop` looked, with its cancel function not yet published or withdrawn already,
      and nothing has ended it since. */
  lemma StopWaitsUncancelledIff(before: seq<Event>, after: seq<Event>)
    requires Possible(INIT, before) && Trace(INIT, before).stop.Closed?
    requires Possible(Step(Trace(INIT, before), StopCancels), after)
    ensures var s := Trace(INIT, before);
            var t := Trace(Step(s, StopCancels), after);
            && t.sessions == s.sessions
            && (Unattended(t) <==> Unseen(s) && Unattended(s) && forall e :: e in after ==> !EndsSession(e))
  {
    TraceKeepsInv(INIT, before);
    var s := Trace(INIT, before);
    StopMissesIff(s);
    StepKeepsServers(s, StopCancels);
    StepKeepsCancel(s, StopCancels);
    StepKeepsStop(s, StopCancels);
    UnattendedRun(Step(s, StopCancels), after);
  }

  lemma TraceCons(s: State, e: Event, rest: seq<Event>)
    requires Enabled(s, e) && Possible(Step(s, e), rest)
    ensures Possible(s, [e] + rest) && Trace(s, [e] + rest) == Trace(Step(s, e), rest)
  {
    var es := [e] + rest;
    assert es[0] == e && es[1..] == rest;
  }

  /** That window exists: `stop` can be left waiting for a session nobody has cancelled, its debug server attached. */
  lemma StopCanWaitForClient() returns (es: seq<Event>)
    ensures Possible(INIT, es)
    ensures var s := Trace(INIT, es);
            s.stop.Waiting? && s.serve.Attached? && s.running == {0} && s.cancelled == {}
  {
    var s1 := Step(INIT, StartListening);
    var s2 := Step(s1, ClientAccepted);
    var s3 := Step(s2, StopCloses);
    var s4 := Step(s3, StopCancels);
    var s5 := Step(s4, CancelPublished);
    es := [];
    TraceCons(s5, ServerStarted, es);
    es := [ServerStarted] + es;
    TraceCons(s4, CancelPublished, es);
    es := [CancelPublished] + es;
    TraceCons(s3, StopCancels, es);
    es := [StopCancels] + es;
    TraceCons(s2, StopCloses, es);
    es := [StopCloses] + es;
    TraceCons(s1, ClientAccepted, es);
    es := [ClientAccepted] + es;
    TraceCons(INIT, StartListening, es);
    es := [StartListening] + es;
  }
}
