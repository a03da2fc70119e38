/** The desktop lifecycle automaton (desktop/src-tauri/src/lifecycle.rs). */
module Lifecycle {
  import opened Wrappers
  import opened Protocol

  datatype FailureCode = InitInvalid | ConfigInvalid | PortUnavailable | StartFailed | Exited | StartupTimeout

  datatype State = Starting | Ready(origin: Origin, pid: nat) | Stopping(pid: nat) | Failed(code: FailureCode) | Stopped

  datatype Command = Start | Retry | ReassignPort | StopAndExit

  datatype Event =
    | StartRequested
    | BecameReady(origin: Origin, pid: nat)
    | StartFailure(code: FailureCode)
    | StopRequested
    | ChildExited

  /** The state after an event, or None for an event the state does not take. */
  function Next(state: State, event: Event): Option<State> {
    match (state, event)
    case (Stopped, StartRequested) => Some(Starting)
    case (Failed(_), StartRequested) => Some(Starting)
    case (Starting, BecameReady(origin, pid)) => Some(State.Ready(origin, pid))
    case (Starting, StartFailure(code)) => Some(Failed(code))
    case (Ready(_, _), StartFailure(code)) => Some(Failed(code))
    case (Starting, ChildExited) => Some(Failed(Exited))
    case (Ready(_, _), ChildExited) => Some(Failed(Exited))
    case (Ready(_, pid), StopRequested) => Some(Stopping(pid))
    case (Stopping(_), ChildExited) => Some(Stopped)
    case _ => None
  }

  /** Events a state does not take leave it unchanged. */
  function After(state: State, events: seq<Event>): State {
    if events == [] then state
    else
      var before := After(state, events[..|events| - 1]);
      Next(before, events[|events| - 1]).GetOr(before)
  }

  /** The start that was requested at `b` is still going on. */
  predicate StartingSince(events: seq<Event>, b: nat) {
    && b < |events| && events[b] == StartRequested
    && forall j :: b < j <= |events| ==> After(Stopped, events[..j]).Starting?
  }

  /** The ready state was announced at `k` and nothing was taken since. */
  predicate ReadySince(events: seq<Event>, k: nat) {
    var s := After(Stopped, events);
    && s.Ready? && k < |events| && events[k] == BecameReady(s.origin, s.pid)
    && forall j :: k < j <= |events| ==> After(Stopped, events[..j]) == s
  }

  predicate StopOf(events: seq<Event>, k: nat) {
    var s := After(Stopped, events);
    && s.Stopping? && k < |events| && events[k] == StopRequested
    && After(Stopped, events[..k]).Ready? && After(Stopped, events[..k]).pid == s.pid
  }

  lemma {:induction false} StartingWasRequested(events: seq<Event>)
    requires After(Stopped, events).Starting?
    ensures exists b :: StartingSince(events, b)
  {
    var n := |events| - 1;
    var front := events[..n];
    assert events[..n + 1] == events;
    if After(Stopped, front).Starting? {
      StartingWasRequested(front);
      var b :| StartingSince(front, b);
      assert forall j :: 0 <= j <= n ==> front[..j] == events[..j];
      assert StartingSince(events, b);
    } else {
      assert StartingSince(events, n);
    }
  }

  /** In every run, a ready process is the one of the latest start: a start was requested, nothing else was taken until
      the ready event of this process, and nothing has been since. A stopping process was ready before. */
  lemma {:induction false} ReadyBelongsToLatestStart(events: seq<Event>)
    ensures After(Stopped, events).Ready? ==>
      exists b: nat, k: nat :: ReadySince(events, k) && StartingSince(events[..k], b)
    ensures After(Stopped, events).Stopping? ==> exists k :: StopOf(events, k)
  {
    if events != [] {
      var n := |events| - 1;
      var front, s := events[..n], After(Stopped, events);
      ReadyBelongsToLatestStart(front);
      assert events[..n + 1] == events;
      assert forall j :: 0 <= j <= n ==> front[..j] == events[..j];
      if s == After(Stopped, front) {
        if s.Ready? {
          var b: nat, k: nat :| ReadySince(front, k) && StartingSince(front[..k], b);
          assert ReadySince(events, k) && StartingSince(events[..k], b);
        } else if s.Stopping? {
          var k :| StopOf(front, k);
          assert StopOf(events, k);
        }
      } else if s.Ready? {
        StartingWasRequested(front);
        assert ReadySince(events, n);
      } else {
        assert s.Stopping? ==> StopOf(events, n);
      }
    }
  }
}
