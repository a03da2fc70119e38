/** The desktop supervisor (desktop/src-tauri/src/host.rs). */
module DesktopSupervisor {
  import opened Wrappers
  import opened Protocol
  import opened Verdicts
  import opened Lifecycle
  import opened DesktopTrace
  import opened DesktopLaws
  import opened HostIo
  import Base64

  datatype Timings = Timings(startup: nat, shutdown: nat, portRelease: nat)

  /** The steps of every failure, in order: the cookie is cleared when a session was on show, the state
      fails, the child is killed if one is held, the sidecar page is left and, once left, the code is shown. */
  predicate FailureSteps(steps: seq<Action>, cookieOrigin: Option<Origin>, child: Option<nat>, code: FailureCode) {
    var c := if cookieOrigin.Some? then 1 else 0;
    var k := if child.Some? then c + 1 else c;
    && |steps| > k + 1
    && (cookieOrigin.Some? ==> steps[0].CookieCleared? && steps[0].origin == cookieOrigin.value)
    && steps[c].FailedWith? && steps[c].code == code
    && (child.Some? ==> steps[c + 1].Killed? && steps[c + 1].child == child.value)
    && steps[k + 1].AppShown?
    && if steps[k + 1].ok then |steps| == k + 3 && steps[k + 2].FailureShown? && steps[k + 2].code == code
       else |steps| == k + 2
  }

  function Entered(code: FailureCode, at: nat, child: Option<nat>, killed: bool): seq<Action> {
    [FailedWith(code, at)] + KillOf(child, at, killed)
  }

  /** The cookie was cleared if there was a session on show. */
  predicate Cleared(cookies: seq<Action>, cookieOrigin: Option<Origin>) {
    if cookieOrigin.None? then cookies == []
    else |cookies| == 1 && cookies[0].CookieCleared? && cookies[0].origin == cookieOrigin.value
  }

  lemma FailureParts(cookies: seq<Action>, at: nat, killed: bool, shown: seq<Action>,
                     cookieOrigin: Option<Origin>, child: Option<nat>, code: FailureCode)
    requires Cleared(cookies, cookieOrigin)
    requires shown == [AppShown(false)] ||
             (|shown| == 2 && shown[0] == AppShown(true) && shown[1].FailureShown? && shown[1].code == code)
    ensures FailureSteps(cookies + Entered(code, at, child, killed) + shown, cookieOrigin, child, code)
  {
  }

  lemma FailureTrace(before: seq<Action>, cookies: seq<Action>, at: nat, killed: bool, entered: seq<Action>,
      after: seq<Action>,
                     cookieOrigin: Option<Origin>, child: Option<nat>, code: FailureCode)
    requires Cleared(cookies, cookieOrigin) && entered == before + cookies + Entered(code, at, child, killed)
    requires (exists ok :: after == entered + [AppShown(true), FailureShown(code, ok)]) ||
      after == entered + [AppShown(false)]
    ensures before <= after && FailureSteps(after[|before|..], cookieOrigin, child, code)
  {
    var shown := after[|entered|..];
    FailureParts(cookies, at, killed, shown, cookieOrigin, child, code);
    assert after == before + (cookies + Entered(code, at, child, killed) + shown);
  }

  lemma NothingSpawned(steps: seq<Action>, child: Option<nat>, code: FailureCode)
    requires FailureSteps(steps, None, child, code)
    ensures forall k :: 0 <= k < |steps| ==> !steps[k].Spawned?
  {
  }

  predicate SpawnsAt(trace: seq<Action>, from: nat, port: nat) {
    forall k :: from <= k < |trace| && trace[k].Spawned? ==> trace[k].port == port
  }

  /** The instant `duration` after some reading of the clock between `from` and `to`; None when it is over `last`. */
  predicate IsAfter(instant: Option<nat>, from: nat, to: nat, duration: nat, last: nat) {
    match instant
    case Some(at) => from + duration <= at <= to + duration
    case None => to + duration > last
  }

  class Supervisor {
    const host: Host
    const timings: Timings
    var state: State
    var child: Option<nat>
    var token: Option<string>
    var startupDeadline: Option<nat>
    var port: Option<nat>

    constructor (host: Host, timings: Timings, port: Option<nat>)
      requires host.Valid() && !host.mon.exited
      requires host.mon.live.None? && !host.mon.cookie && host.mon.failure.None? && host.mon.stop.NotStopping?
      requires host.mon.port == port
      ensures this.host == host && this.timings == timings && this.port == port && state.Stopped?
      ensures Inv()
    {
      this.host, this.timings, this.port := host, timings, port;
      state, child, token, startupDeadline := Stopped, None, None, None;
    }

    /** Holds whenever the supervisor looks for its next command. */
    ghost predicate Inv()
      reads this, host
    {
      && Running()
      && host.mon.stop.NotStopping?
      && match state {
           case Starting => child.Some? && StartingInv()
           case Ready(origin, pid) =>
             && ReadyInv(origin)
             && (child.Some? ==> child == Some(pid) && Spoken(host.mon.said) && host.mon.cleared.None?)
             && (child.None? ==> host.mon.cleared == Some(false))
           case Stopping(_) => false
           case _ =>
             && child.None? && token.None? && startupDeadline.None?
             && (host.mon.clears ==> !host.mon.cookie)
         }
    }

    /** A start in progress: the child was sent the token, nothing else has happened, the deadline runs. */
    ghost predicate StartingInv()
      reads this, host
    {
      && token.Some? && startupDeadline.Some?
      && host.mon.deadline == startupDeadline
      && host.mon.session == Greeted(token.value)
      && (host.mon.clears ==> !host.mon.cookie)
    }

    /** A session on show: its token is kept and its port is the saved one. */
    ghost predicate ReadyInv(origin: Origin)
      reads this, host
    {
      && token.Some? && startupDeadline.None? && host.mon.deadline.None?
      && host.mon.session == Session.Open(token.value, origin)
      && port == Some(origin.port) && host.disk == port
    }

    /** Holds throughout, until the exit. */
    ghost predicate Running()
      reads this, host
    {
      host.Open() && child == host.mon.live && port == host.mon.port
    }

    /** The state a failure leaves, ready for the next start. */
    ghost predicate Idle()
      reads this, host
    {
      && Running() && host.mon.stop.NotStopping?
      && child.None? && token.None? && startupDeadline.None?
      && (host.mon.clears ==> !host.mon.cookie)
    }

    method EnterFailed(code: FailureCode) returns (ghost killed: bool)
      requires Running() && (state.Starting? || state.Ready?) && host.mon.stop.NotStopping?
      requires host.mon.clears ==> !host.mon.cookie
      requires Justified(host.mon, code, host.clock)
      modifies this, host
      ensures Idle() && state == Failed(code) && host.mon.failure == Some(code)
      ensures port == old(port) && host.disk == old(host.disk) && host.clock >= old(host.clock)
      ensures host.trace == old(host.trace) + Entered(code, old(host.clock), old(child), killed)
      ensures host.mon.command == old(host.mon.command)
    {
      state := Next(state, StartFailure(code)).GetOr(state);
      host.Fail(code);
      killed := true;
      if child.Some? {
        var ok := host.Kill(child.value);
        killed := ok;
        child := None;
      }
      token := None;
      startupDeadline := None;
    }

    /** Leaves the sidecar page and shows the failure; a page that cannot be left shows nothing. */
    method ShowFailed(code: FailureCode) returns (ok: bool)
      requires Idle() && host.mon.failure == Some(code)
      modifies host
      ensures Idle()
      ensures host.disk == old(host.disk) && host.clock >= old(host.clock)
      ensures host.trace == old(host.trace) + [AppShown(true), FailureShown(code, ok)] ||
              (!ok && host.trace == old(host.trace) + [AppShown(false)])
      ensures host.mon.command == old(host.mon.command)
    {
      ok := host.ShowApp();
      if !ok {
        return;
      }
      ok := host.ShowFailure(code);
    }

    method Fail(code: FailureCode, cookieOrigin: Option<Origin>) returns (ok: bool)
      requires Running() && (state.Starting? || state.Ready?) && host.mon.stop.NotStopping?
      requires Justified(host.mon, code, host.clock)
      requires cookieOrigin.Some? ==> SessionOrigin(host.mon.session) == cookieOrigin
      requires cookieOrigin.None? && host.mon.clears ==> !host.mon.cookie
      modifies this, host
      ensures Idle() && state == Failed(code)
      ensures old(host.trace) <= host.trace && host.clock >= old(host.clock)
      ensures port == old(port) && host.disk == old(host.disk)
      ensures FailureSteps(host.trace[|old(host.trace)|..], cookieOrigin, old(child), code)
      ensures EndsShown(host.trace, code)
      ensures host.mon.command == old(host.mon.command)
    {
      ghost var before := host.trace;
      ghost var cookies := ClearShown(code, cookieOrigin);
      ghost var at := host.clock;
      ghost var killed := EnterFailed(code);
      ghost var entered := host.trace;
      ok := ShowFailed(code);
      FailureTrace(before, cookies, at, killed, entered, host.trace, cookieOrigin, old(child), code);
    }

    /** Clears the cookie of a session on show. */
    method ClearShown(ghost code: FailureCode, cookieOrigin: Option<Origin>) returns (ghost cookies: seq<Action>)
      requires Running() && (state.Starting? || state.Ready?) && host.mon.stop.NotStopping?
      requires Justified(host.mon, code, host.clock)
      requires cookieOrigin.Some? ==> SessionOrigin(host.mon.session) == cookieOrigin
      requires cookieOrigin.None? && host.mon.clears ==> !host.mon.cookie
      modifies host
      ensures Running() && host.mon.stop.NotStopping? && (host.mon.clears ==> !host.mon.cookie)
      ensures Justified(host.mon, code, host.clock) && host.clock >= old(host.clock) && host.disk == old(host.disk)
      ensures host.trace == old(host.trace) + cookies && Cleared(cookies, cookieOrigin)
      ensures host.mon.command == old(host.mon.command)
    {
      cookies := [];
      if cookieOrigin.Some? {
        var cleared := host.ClearCookie(cookieOrigin.value);
        cookies := [CookieCleared(cookieOrigin.value, cleared)];
      }
    }

    /** Fails with no session on show. */
    method FailStart(code: FailureCode)
      requires Running() && state.Starting? && host.mon.stop.NotStopping?
      requires Justified(host.mon, code, host.clock) && (host.mon.clears ==> !host.mon.cookie)
      modifies this, host
      ensures Inv() && state == Failed(code)
      ensures port == old(port) && host.disk == old(host.disk)
      ensures |host.trace| > |old(host.trace)| && host.trace[..|old(host.trace)|] == old(host.trace)
      ensures FailedFrom(host.trace, |old(host.trace)|, code, state) && NoSpawnFrom(host.trace, |old(host.trace)|)
      ensures old(host.clock) <= host.clock
      ensures host.mon.command == old(host.mon.command)
    {
      ghost var n := |host.trace|;
      var _ := Fail(code, None);
      NothingSpawned(host.trace[n..], old(child), code);
      assert forall k :: n <= k < |host.trace| ==> host.trace[k] == host.trace[n..][k - n];
    }

    // ---------- Starting ----------

    method DrawToken() returns (drawn: Option<(string, string)>)
      requires Running()
      modifies host
      ensures Running() && host.disk == old(host.disk) && host.clock >= old(host.clock)
      ensures drawn.Some? ==> IsInitLine(drawn.value.1, drawn.value.0)
      ensures
        var done := if drawn.Some? then TokenDrawn(drawn.value.0) else TokenFailed;
        host.trace == old(host.trace) + [done] && host.mon == old(host.mon).(last := Some(done))
    {
      var secret, token := host.RandomSecret();
      if secret.None? {
        return None;
      }
      var t := Base64.Encode(secret.value);
      Base64.DecodeEncode(secret.value);
      match InitLine(t) {
        case Ok(line) => return Some((t, line));
        case Err(_) => assert false;
      }
    }

    /** Spawns the child on the saved port and sends it its init line. */
    method Launch(t: string, line: string)
      requires Running() && state.Starting? && child.None? && token.None? && startupDeadline.None?
      requires host.mon.stop.NotStopping? && IsInitLine(line, t) && (host.mon.clears ==> !host.mon.cookie)
      modifies this, host
      ensures Inv() && (state.Starting? || state.Failed?)
      ensures port == old(port) && host.disk == old(host.disk)
      ensures |host.trace| > |old(host.trace)| && host.trace[..|old(host.trace)|] == old(host.trace)
      ensures old(host.clock) <= host.clock
      ensures state.Starting? ==>
        IsAfter(startupDeadline, old(host.clock), host.clock, timings.startup, host.maxInstant)
      ensures LaunchFrom(host.trace, |old(host.trace)|, t, state) && host.trace[|old(host.trace)|].port == port.GetOr(0)
      ensures NoSpawnFrom(host.trace, |old(host.trace)| + 1)
      ensures host.mon.command == old(host.mon.command)
    {
      child := host.Spawn(port.GetOr(0));
      if child.None? {
        FailStart(FailureCode.StartFailed);
        return;
      }
      token := Some(t);
      Greet(t, line);
    }

    method Greet(t: string, line: string)
      requires Running() && state.Starting? && child.Some? && host.mon.session.Alive? && token == Some(t)
      requires startupDeadline.None? && host.mon.stop.NotStopping? && IsInitLine(line, t)
      requires host.mon.clears ==> !host.mon.cookie
      modifies this, host
      ensures Inv() && (state.Starting? || state.Failed?)
      ensures port == old(port) && host.disk == old(host.disk)
      ensures |host.trace| > |old(host.trace)| && host.trace[..|old(host.trace)|] == old(host.trace)
      ensures GreetFrom(host.trace, |old(host.trace)|, t, state)
      ensures old(host.clock) <= host.clock
      ensures state.Starting? ==>
        IsAfter(startupDeadline, old(host.clock), host.clock, timings.startup, host.maxInstant)
      ensures host.mon.command == old(host.mon.command)
    {
      var sent := host.WriteInit(line, t);
      if !sent {
        FailStart(FailureCode.StartFailed);
        return;
      }
      ArmStartup();
    }

    method ArmStartup()
      requires Running() && state.Starting? && child.Some? && token.Some? && host.mon.session == Greeted(token.value)
      requires startupDeadline.None? && host.mon.stop.NotStopping? && (host.mon.clears ==> !host.mon.cookie)
      modifies this, host
      ensures Inv() && (state.Starting? || state.Failed?)
      ensures port == old(port) && host.disk == old(host.disk)
      ensures |host.trace| > |old(host.trace)| && host.trace[..|old(host.trace)|] == old(host.trace)
      ensures ArmFrom(host.trace, |old(host.trace)|, state)
      ensures old(host.clock) <= host.clock
      ensures IsAfter(host.trace[|old(host.trace)|].deadline, old(host.clock), host.clock, timings.startup,
                      host.maxInstant)
      ensures state.Starting? ==> startupDeadline == host.trace[|old(host.trace)|].deadline
      ensures host.mon.command == old(host.mon.command)
    {
      var now := host.Now();
      var deadline := host.After(now, timings.startup);
      host.Arm(deadline);
      if deadline.None? {
        FailStart(FailureCode.StartupTimeout);
        return;
      }
      startupDeadline := deadline;
    }

    method Start()
      requires Inv()
      modifies this, host
      ensures Inv()
      ensures !old(state).Stopped? && !old(state).Failed? ==> unchanged(this) && unchanged(host)
      ensures Startable(old(state)) ==> state.Starting? || state.Failed?
      ensures Startable(old(state)) ==> StartFrom(host.trace, |old(host.trace)|, old(state).Failed?, state)
      ensures old(host.clock) <= host.clock
      ensures Startable(old(state)) && state.Starting? ==>
        IsAfter(startupDeadline, old(host.clock), host.clock, timings.startup, host.maxInstant)
      ensures old(host.trace) <= host.trace && port == old(port) && host.disk == old(host.disk)
      ensures SpawnsAt(host.trace, |old(host.trace)|, port.GetOr(0))
      ensures host.mon.command == old(host.mon.command)
    {
      ghost var before := host.trace;
      var restarting := state.Failed?;
      var next := Next(state, StartRequested);
      if next.None? {
        return;
      }
      state := next.value;
      if restarting {
        var shown := host.ShowApp();
        if !shown {
          FailStart(FailureCode.StartFailed);
          return;
        }
      }
      assert before <= host.trace;
      DrawAndLaunch();
    }

    method DrawAndLaunch()
      requires Running() && state.Starting? && child.None? && token.None? && startupDeadline.None?
      requires host.mon.stop.NotStopping? && (host.mon.clears ==> !host.mon.cookie)
      modifies this, host
      ensures Inv() && (state.Starting? || state.Failed?)
      ensures port == old(port) && host.disk == old(host.disk)
      ensures |host.trace| > |old(host.trace)| && host.trace[..|old(host.trace)|] == old(host.trace)
      ensures DrawFrom(host.trace, |old(host.trace)|, state)
      ensures old(host.clock) <= host.clock
      ensures state.Starting? ==>
        IsAfter(startupDeadline, old(host.clock), host.clock, timings.startup, host.maxInstant)
      ensures SpawnsAt(host.trace, |old(host.trace)|, port.GetOr(0))
      ensures host.mon.command == old(host.mon.command)
    {
      var drawn := DrawToken();
      if drawn.None? {
        FailStart(FailureCode.StartFailed);
        return;
      }
      Launch(drawn.value.0, drawn.value.1);
    }

    // ---------- Becoming ready ----------

    /** Sets the cookie and shows the sidecar page; what fails is undone. */
    method Present(origin: Origin)
      requires Running() && state.Starting? && child.Some? && token.Some? && host.mon.stop.NotStopping?
      requires host.mon.session == Stored(token.value, origin) && (host.mon.clears ==> !host.mon.cookie)
      requires port == Some(origin.port) && host.disk == port && Spoken(host.mon.said)
      modifies this, host
      ensures Inv() && old(host.trace) <= host.trace
      ensures state == State.Ready(origin, old(child).value) || state == Failed(FailureCode.StartFailed)
      ensures PresentFrom(host.trace, |old(host.trace)|, origin, state) && Told(host.trace, old(state), state)
      ensures host.mon.command == old(host.mon.command)
    {
      var cookied := host.SetCookie(origin, token.value);
      if !cookied {
        var _ := host.ClearCookie(origin);
        var _ := Fail(FailureCode.StartFailed, None);
        return;
      }
      ShowSession(origin);
    }

    method ShowSession(origin: Origin)
      requires Running() && state.Starting? && child.Some? && token.Some? && host.mon.stop.NotStopping?
      requires host.mon.session == Cookied(token.value, origin) && host.mon.cleared.None?
      requires port == Some(origin.port) && host.disk == port && Spoken(host.mon.said)
      modifies this, host
      ensures Inv() && old(host.trace) <= host.trace
      ensures state == State.Ready(origin, old(child).value) || state == Failed(FailureCode.StartFailed)
      ensures ShowFrom(host.trace, |old(host.trace)|, origin, state) && Told(host.trace, old(state), state)
      ensures host.mon.command == old(host.mon.command)
    {
      var shown := host.ShowSidecar(origin);
      if !shown {
        var _ := Fail(FailureCode.StartFailed, Some(origin));
        return;
      }
      state := Next(state, BecameReady(origin, child.value)).GetOr(state);
      startupDeadline := None;
    }

    method CompleteReady(origin: Origin)
      requires Inv() && state.Starting? && Spoken(host.mon.said)
      modifies this, host
      ensures Inv() && old(host.trace) <= host.trace
      ensures state == State.Ready(origin, old(child).value) || state == Failed(FailureCode.StartFailed)
      ensures ReadyFrom(host.trace, |old(host.trace)|, origin, state) && Told(host.trace, old(state), state)
      ensures host.mon.command == old(host.mon.command)
    {
      var healthy := host.ProbeHealth(origin);
      if !healthy {
        var _ := Fail(FailureCode.StartFailed, None);
        return;
      }
      SavePort(origin);
    }

    method SavePort(origin: Origin)
      requires Running() && state.Starting? && child.Some? && token.Some? && host.mon.stop.NotStopping?
      requires host.mon.session == Healthy(token.value, origin) && (host.mon.clears ==> !host.mon.cookie)
      requires Spoken(host.mon.said)
      modifies this, host
      ensures Inv() && old(host.trace) <= host.trace
      ensures state == State.Ready(origin, old(child).value) || state == Failed(FailureCode.StartFailed)
      ensures SaveFrom(host.trace, |old(host.trace)|, origin, state) && Told(host.trace, old(state), state)
      ensures host.mon.command == old(host.mon.command)
    {
      port := Some(origin.port);
      var saved := host.SaveSettings(port);
      if !saved {
        var _ := Fail(FailureCode.StartFailed, None);
        return;
      }
      Present(origin);
    }

    // ---------- Watching the child ----------

    /** The child was just observed. */
    ghost predicate Polled(seen: Observation)
      reads this, host
    {
      && host.Open() && host.mon.stop.NotStopping? && child.Some? && port == host.mon.port
      && host.mon.live == (if seen.Terminated? then None else child)
      && host.mon.last.Some? && host.mon.last.value.Observed? && host.mon.last.value.seen == seen
      && (seen.Line? ==> host.mon.said != [] && host.mon.said[|host.mon.said| - 1] == seen.said)
      && match state {
           case Starting => StartingInv()
           case Ready(origin, pid) =>
             && ReadyInv(origin) && child == Some(pid) && host.mon.cleared.None?
             && Spoken(if seen.Line? then host.mon.said[..|host.mon.said| - 1] else host.mon.said)
           case _ => false
         }
    }

    function ReadyOrigin(): Option<Origin>
      reads this
    {
      if state.Ready? then Some(state.origin) else None
    }

    method HandleUnexpectedExit() returns (ok: bool)
      requires Polled(Terminated)
      modifies this, host
      ensures Inv() && old(host.trace) <= host.trace
      ensures Reaction(old(state), Terminated, state) && child.None? && Told(host.trace, old(state), state)
      ensures old(state).Ready? ==>
                |host.trace| > |old(host.trace)| && host.trace[|old(host.trace)|].CookieCleared? &&
                (state == old(state) <==> !host.trace[|old(host.trace)|].ok)
      ensures state == old(state) ==> !ok && old(state).Ready?
      ensures host.mon.command == old(host.mon.command)
    {
      child := None;
      startupDeadline := None;
      if state.Ready? {
        ok := EndSession();
      } else {
        ok := Fail(FailureCode.Exited, None);
      }
    }

    /** Clears the cookie of a session whose child exited; the session is over only when that works. */
    method EndSession() returns (ok: bool)
      requires Running() && state.Ready? && child.None? && ReadyInv(state.origin) && host.mon.stop.NotStopping?
      requires Justified(host.mon, FailureCode.Exited, host.clock)
      modifies this, host
      ensures Inv() && old(host.trace) <= host.trace && child.None?
      ensures |host.trace| > |old(host.trace)| && host.trace[|old(host.trace)|].CookieCleared?
      ensures if host.trace[|old(host.trace)|].ok then
                state == Failed(FailureCode.Exited) && EndsShown(host.trace, FailureCode.Exited)
              else !ok && state == old(state)
      ensures host.mon.command == old(host.mon.command)
    {
      ok := host.ClearCookie(state.origin);
      if !ok {
        return;
      }
      ok := ReportExit();
    }

    /** The session of a child that exited is over. */
    method ReportExit() returns (ok: bool)
      requires Running() && state.Ready? && child.None? && startupDeadline.None? && host.mon.stop.NotStopping?
      requires Justified(host.mon, FailureCode.Exited, host.clock) && (host.mon.clears ==> !host.mon.cookie)
      modifies this, host
      ensures Inv() && state == Failed(FailureCode.Exited) && child.None? && EndsShown(host.trace, FailureCode.Exited)
      ensures old(host.trace) <= host.trace && host.mon.command == old(host.mon.command)
    {
      state := Next(state, ChildExited).GetOr(state);
      host.Fail(FailureCode.Exited);
      token := None;
      ok := ShowFailed(FailureCode.Exited);
    }

    method AppendStderr() returns (ok: bool)
      requires host.Open()
      modifies host
      ensures host.Open() && Watched(host.trace, old(host.trace)) && !EndedSince(host.trace, |old(host.trace)|)
      ensures host.disk == old(host.disk)
      ensures host.mon == old(host.mon).(last := Some(Logged(ok))) && host.clock >= old(host.clock)
      ensures host.trace == old(host.trace) + (if ok then [Logged(true), Logged(true)] else [Logged(false)]) ||
              (!ok && host.trace == old(host.trace) + [Logged(true), Logged(false)])
    {
      ok := host.AppendLog();
      if ok {
        ok := host.AppendLog();
      }
    }

    method ReactToLine(said: Verdict) returns (ok: bool)
      requires Polled(Line(said)) && host.trace != []
      modifies this, host
      ensures Inv() && old(host.trace) <= host.trace
      ensures Reaction(old(state), Line(said), state) && Told(host.trace, old(state), state)
      ensures AnswerFrom(host.trace, |old(host.trace)| - 1, old(state), Line(said), state)
      ensures old(state).Starting? && said == Ok(Some(Error(SidecarErrorCode.InitInvalid))) ==>
        state == Failed(FailureCode.InitInvalid)
      ensures old(state).Starting? && said == Ok(Some(Error(SidecarErrorCode.ConfigInvalid))) ==>
        state == Failed(FailureCode.ConfigInvalid)
      ensures old(state).Starting? && said == Ok(Some(Error(SidecarErrorCode.PortUnavailable))) ==>
        state == Failed(FailureCode.PortUnavailable)
      ensures old(state).Starting? && said == Ok(Some(Error(SidecarErrorCode.StartFailed))) ==>
        state == Failed(FailureCode.StartFailed)
      ensures host.mon.command == old(host.mon.command)
    {
      LastLine(host.mon.said);
      ok := true;
      if state.Starting? {
        match said
        case Ok(Some(Ready(origin))) => CompleteReady(origin);
        case Ok(Some(Error(code))) => ok := Fail(MapSidecarError(code), None);
        case Ok(None) =>
        case Err(_) => ok := Fail(FailureCode.InitInvalid, None);
      } else if said != Ok(None) {
        ok := Fail(FailureCode.InitInvalid, ReadyOrigin());
      }
    }

    method React(seen: Observation) returns (ok: bool)
      requires Polled(seen) && host.trace != []
      modifies this, host
      ensures Inv() && old(host.trace) <= host.trace
      ensures Reaction(old(state), seen, state) && Told(host.trace, old(state), state)
      ensures AnswerFrom(host.trace, |old(host.trace)| - 1, old(state), seen, state)
      ensures seen.Silence? && state.Starting? ==> host.clock < startupDeadline.value
      ensures seen.Terminated? ==> child.None?
      ensures host.mon.command == old(host.mon.command)
    {
      ok := true;
      match seen
      case Silence =>
        if state.Starting? {
          var now := host.Now();
          if now >= startupDeadline.value {
            ok := Fail(FailureCode.StartupTimeout, None);
          }
        }
      case Noise(_) =>
        var logged := AppendStderr();
        if !logged {
          ok := Fail(FailureCode.StartFailed, ReadyOrigin());
        }
      case Terminated => ok := HandleUnexpectedExit();
      case Line(said) => ok := ReactToLine(said);
      case Broken => ok := Fail(FailureCode.StartFailed, ReadyOrigin());
      case ReceiveFailed => ok := Fail(FailureCode.StartFailed, ReadyOrigin());
    }

    method PollChild(timeout: nat) returns (ok: bool)
      requires Inv()
      modifies this, host
      ensures Inv() && old(host.trace) <= host.trace
      ensures old(child).None? ==> unchanged(this) && unchanged(host)
      ensures old(state).Starting? && old(startupDeadline).value <= old(host.clock) ==>
        state == Failed(FailureCode.StartupTimeout)
      ensures old(child).Some? ==>
        |host.trace| > |old(host.trace)| && Answered(host.trace, |old(host.trace)|, old(state), state)
      ensures |host.trace| > |old(host.trace)| && host.trace[|old(host.trace)|].Observed? ==>
        WaitsLong(host.trace[|old(host.trace)|].until, old(host.clock) + timeout, old(startupDeadline))
      ensures host.mon.command == old(host.mon.command)
    {
      var wait := timeout;
      if state.Starting? {
        var now := host.Now();
        if startupDeadline.value < now {
          ok := Fail(FailureCode.StartupTimeout, None);
          return;
        }
        wait := if timeout < startupDeadline.value - now then timeout else startupDeadline.value - now;
      }
      if child.None? {
        return true;
      }
      ok := Observe(wait);
    }

    method Observe(wait: nat) returns (ok: bool)
      requires Inv() && child.Some?
      requires host.mon.deadline.Some? ==> host.clock + wait <= host.mon.deadline.value
      modifies this, host
      ensures Inv() && old(host.trace) < host.trace && host.trace[|old(host.trace)|].Observed?
      ensures host.trace[|old(host.trace)|].until == old(host.clock) + wait
      ensures Answered(host.trace, |old(host.trace)|, old(state), state)
      ensures host.mon.command == old(host.mon.command)
    {
      var seen := host.Receive(wait);
      ok := React(seen);
    }

    /** The poll waits as long as it was asked to, or until the startup deadline. */
    predicate WaitsLong(until: nat, asked: nat, startup: Option<nat>) {
      if startup.Some? && until < asked then until == startup.value else until >= asked
    }

    // ---------- Stopping ----------

    method WaitForTermination(deadline: nat) returns (result: Option<bool>)
      requires Running() && state.Stopping? && host.mon.deadline == Some(deadline)
      modifies this, host
      ensures Running() && host.mon.stop == old(host.mon.stop) && host.mon.session == old(host.mon.session)
      ensures host.mon.command == old(host.mon.command)
      ensures Watched(host.trace, old(host.trace))
      ensures host.mon.deadline == Some(deadline) && host.disk == old(host.disk) && old(host.clock) <= host.clock
      ensures result == Some(true) ==>
                child.None? && (old(child).Some? ==> state.Stopped? && EndedSince(host.trace, |old(host.trace)|))
      ensures result == Some(false) ==> child == old(child) && state == old(state) && deadline <= host.clock
      ensures result != Some(true) || old(child).None? ==> !EndedSince(host.trace, |old(host.trace)|)
      ensures result.None? ==> host.trace != [] && WaitFault(host.trace[|host.trace| - 1])
    {
      while true
        invariant Running() && host.mon.stop == old(host.mon.stop) && host.mon.session == old(host.mon.session)
        invariant host.mon.command == old(host.mon.command) && host.mon.deadline == Some(deadline)
        invariant child == old(child) && state == old(state) && host.disk == old(host.disk)
        invariant Watched(host.trace, old(host.trace)) && !EndedSince(host.trace, |old(host.trace)|)
        invariant old(host.clock) <= host.clock
        decreases deadline - host.clock
      {
        var now := host.Now();
        if deadline < now {
          return Some(false);
        }
        if child.None? {
          return Some(true);
        }
        ghost var before := host.trace;
        var seen := host.Receive(deadline - now);
        assert host.trace[|before|].Observed? && host.trace[|before|].seen == seen;
        match seen
        case Terminated =>
          child := None;
          state := Next(state, ChildExited).GetOr(state);
          return Some(true);
        case Noise(_) =>
          var logged := AppendStderr();
          if !logged {
            return None;
          }
        case Line(_) =>
        case Broken =>
        case Silence => return Some(false);
        case ReceiveFailed => return None;
      }
    }

    method WaitForPortRelease(origin: Origin) returns (ok: bool)
      requires host.Open() && host.mon.stop.StoppingAt? && host.mon.stop.at == origin && host.mon.stop.cleared
      requires host.mon.live.None? && !host.mon.stop.released
      modifies host
      ensures host.Open() && old(host.trace) <= host.trace && host.mon.command == old(host.mon.command)
      ensures forall k :: |old(host.trace)| <= k < |host.trace| ==> host.trace[k].PortAsked?
      ensures host.mon.deadline == old(host.mon.deadline) && old(host.clock) <= host.clock
      ensures host.mon.stop.StoppingAt? && host.mon.stop.at == origin && host.mon.stop.cleared && host.mon.live.None?
      ensures ok <==> host.mon.stop.released
      ensures ok <==> |host.trace| > |old(host.trace)| && SeenFree(host.trace[|host.trace| - 1])
      ensures !ok ==>
        host.clock + timings.portRelease > host.maxInstant || old(host.clock) + timings.portRelease < host.clock ||
        (|host.trace| > |old(host.trace)| && host.trace[|host.trace| - 1] == PortAsked(origin, None))
    {
      var now := host.Now();
      var deadline := host.After(now, timings.portRelease);
      if deadline.None? {
        return false;
      }
      while true
        invariant host.Open() && old(host.trace) <= host.trace && host.mon.command == old(host.mon.command)
        invariant forall k :: |old(host.trace)| <= k < |host.trace| ==> host.trace[k].PortAsked?
        invariant host.mon.stop.StoppingAt? && host.mon.stop.at == origin && host.mon.stop.cleared
        invariant |host.trace| > |old(host.trace)| ==> !SeenFree(host.trace[|host.trace| - 1])
        invariant !host.mon.stop.released && deadline.value > old(host.clock) + timings.portRelease
        invariant host.mon.live.None? && host.mon.deadline == old(host.mon.deadline) && old(host.clock) <= host.clock
        decreases deadline.value - host.clock
      {
        var answer := host.PortReleased(origin);
        if answer.None? {
          return false;
        }
        if answer.value {
          return true;
        }
        now := host.Now();
        if deadline.value <= now {
          return false;
        }
      }
    }

    /** Takes the state to Stopping and asks the sidecar to shut down, within the one deadline of the stop. */
    method RequestStop(origin: Origin) returns (deadline: Option<nat>, graceful: bool)
      requires Inv() && state.Ready? && state.origin == origin
      modifies this, host
      ensures Running() && state == Stopping(old(state).pid) && child == old(child) && host.mon.deadline == deadline
      ensures JustStopping(origin) && (graceful <==> host.mon.stop.request.Agreed?)
      ensures SessionOrigin(host.mon.session) == Some(origin)
      ensures host.mon.command == old(host.mon.command)
      ensures graceful ==> deadline.Some?
      ensures StopRequest(host.trace, old(host.trace), origin, graceful)
      ensures host.trace[|old(host.trace)|].deadline == deadline && token == old(token)
      ensures IsAfter(deadline, old(host.clock), host.clock, timings.shutdown, host.maxInstant)
    {
      state := Next(state, StopRequested).GetOr(state);
      var now := host.Now();
      deadline := host.After(now, timings.shutdown);
      host.BeginStop(origin, deadline);
      graceful := false;
      if deadline.Some? {
        now := host.Now();
        if now <= deadline.value {
          graceful := host.RequestShutdown(origin, token.value, deadline.value - now);
          return;
        }
      }
      host.SkipShutdown();
    }

    /** The stop of the session has neither cleared its cookie nor seen its port free. */
    ghost predicate JustStopping(origin: Origin)
      reads host
    {
      host.mon.stop.StoppingAt? && host.mon.stop.at == origin && !host.mon.stop.cleared && !host.mon.stop.released
    }

    /** Ends the child of a ready session. The shutdown request and the wait share one deadline; the child is
        killed iff it was not seen to terminate, and then the request failed or the deadline has passed. */
    method EndChild(origin: Origin) returns (ok: bool)
      requires Inv() && state.Ready? && state.origin == origin
      modifies this, host
      ensures Running() && host.mon.command == old(host.mon.command)
      ensures JustStopping(origin) && SessionOrigin(host.mon.session) == Some(origin)
      ensures old(host.trace) < host.trace
      ensures host.trace[|old(host.trace)|].StopBegan? && host.trace[|old(host.trace)|].origin == origin
      ensures IsAfter(host.trace[|old(host.trace)|].deadline, old(host.clock), host.clock, timings.shutdown,
                      host.maxInstant)
      ensures |host.trace| > |old(host.trace)| + 1 && ShutdownDecided(host.trace, |old(host.trace)| + 1)
      ensures !ok ==> WaitFault(host.trace[|host.trace| - 1])
      ensures ok ==> child.None?
      ensures ok && old(child).Some? ==>
                (KilledSince(host.trace, |old(host.trace)|) <==> !EndedSince(host.trace, |old(host.trace)|))
      ensures ok && KilledSince(host.trace, |old(host.trace)|) ==>
                !AskedSince(host.trace, |old(host.trace)|) ||
                (host.mon.deadline.Some? && host.mon.deadline.value <= host.clock)
    {
      ghost var n := |host.trace|;
      var deadline, graceful := RequestStop(origin);
      ghost var asked := host.trace;
      var terminated := Some(false);
      if graceful {
        terminated := WaitForTermination(deadline.value);
      }
      ghost var watched := host.trace;
      WatchedSince(watched, asked, old(host.trace), origin, graceful);
      if terminated.None? {
        return false;
      }
      if !terminated.value {
        if child.Some? {
          var _ := host.Kill(child.value);
          child := None;
          KillSince(watched, host.trace[|watched|], n);
        }
        state := Next(state, ChildExited).GetOr(state);
      }
      ok := true;
    }

    method StopAndExit() returns (ok: bool)
      requires Inv() && host.mon.command == Some(Command.StopAndExit)
      modifies this, host
      ensures host.Valid() && old(host.trace) <= host.trace && host.mon.command == old(host.mon.command)
      ensures ok <==> host.mon.exited
      ensures ok ==> host.trace != [] && host.trace[|host.trace| - 1] == ExitCalled(0)
      ensures !ok ==>
        old(state).Ready? && host.mon.stop.StoppingAt? && !(host.mon.stop.cleared && host.mon.stop.released)
      ensures !ok ==> host.Open() && host.trace != [] && StopFault(host.trace[|host.trace| - 1])
      ensures !old(state).Ready? ==>
                ExitsFrom(host.trace, |old(host.trace)|, old(child))
      ensures old(state).Ready? ==>
                |host.trace| > |old(host.trace)| + 1 && host.trace[|old(host.trace)|].StopBegan? &&
                host.trace[|old(host.trace)|].origin == old(state).origin &&
                ShutdownDecided(host.trace, |old(host.trace)| + 1)
      ensures old(state).Ready? ==>
                IsAfter(host.trace[|old(host.trace)|].deadline, old(host.clock), host.clock, timings.shutdown,
                        host.maxInstant)
      ensures ok && old(state).Ready? && old(child).Some? ==>
                (KilledSince(host.trace, |old(host.trace)|) <==> !EndedSince(host.trace, |old(host.trace)|))
      ensures ok && old(state).Ready? && KilledSince(host.trace, |old(host.trace)|) ==>
                !AskedSince(host.trace, |old(host.trace)|) ||
                (host.mon.deadline.Some? && host.mon.deadline.value <= host.clock)
    {
      if !state.Ready? {
        ghost var killed := true;
        if child.Some? {
          var ok := host.Kill(child.value);
          killed := ok;
          child := None;
        }
        assert host.trace == old(host.trace) + KillOf(old(child), old(host.clock), killed);
        token := None;
        startupDeadline := None;
        host.Exit(0);
        assert KilledAndExited(host.trace, |old(host.trace)|, old(child), old(host.clock), killed);
        return true;
      }
      var origin := state.origin;
      ghost var n := |host.trace|;
      ok := EndChild(origin);
      if !ok {
        return;
      }
      ghost var ended := host.trace;
      ok := Finish(origin);
      FinishSince(host.trace, ended, n);
    }

    /** Clears the cookie, waits for the port and exits. */
    method Finish(origin: Origin) returns (ok: bool)
      requires Running() && child.None? && host.mon.command == Some(Command.StopAndExit)
      requires JustStopping(origin) && SessionOrigin(host.mon.session) == Some(origin)
      modifies this, host
      ensures host.Valid() && host.mon.command == old(host.mon.command) && host.mon.stop.StoppingAt?
      ensures host.mon.deadline == old(host.mon.deadline) && old(host.clock) <= host.clock
      ensures Finishing(host.trace, old(host.trace))
      ensures ok <==> host.mon.exited
      ensures ok <==> host.mon.stop.cleared && host.mon.stop.released
      ensures |host.trace| > |old(host.trace)|
      ensures !ok ==> host.Open() && StopFault(host.trace[|host.trace| - 1])
      ensures ok ==> host.trace != [] && host.trace[|host.trace| - 1] == ExitCalled(0)
    {
      ok := host.ClearCookie(origin);
      if !ok {
        return;
      }
      token := None;
      ok := WaitForPortRelease(origin);
      if !ok {
        return;
      }
      host.Exit(0);
    }

    // ---------- Commands ----------

    /** The receiver hands over a command. */
    ghost method TakeCommand(command: Command)
      requires Inv() && host.mon.command != Some(Command.StopAndExit)
      modifies host
      ensures Inv() && host.mon.command == Some(command) && host.mon.live == old(host.mon.live)
      ensures host.trace == old(host.trace) + [Received(command)]
    {
      host.TakeCommand(command);
    }

    /** None is an error; Some(true) ends the loop. */
    method HandleCommand(command: Command) returns (result: Option<bool>)
      requires Inv() && (command.StopAndExit? ==> host.mon.command == Some(Command.StopAndExit))
      modifies this, host
      ensures host.Valid() && old(host.trace) <= host.trace && host.mon.command == old(host.mon.command)
      ensures !command.StopAndExit? ==> Inv() && result != Some(true)
      ensures command.StopAndExit? ==>
                (result == Some(true) && host.mon.exited && host.trace != [] &&
                  host.trace[|host.trace| - 1] == ExitCalled(0)) ||
                (result == None && old(state).Ready? && !host.mon.exited && host.mon.stop.StoppingAt? &&
                 !(host.mon.stop.cleared && host.mon.stop.released))
      ensures command.ReassignPort? && old(state).Failed? ==>
                host.disk == None || result == None
      ensures command.ReassignPort? && old(state).Failed? ==>
                port == None && SpawnsAt(host.trace, |old(host.trace)|, 0) &&
                  (result == Some(false) <==>
                    |host.trace| > |old(host.trace)| && host.trace[|old(host.trace)|] == Saved(None, true))
      ensures !command.StopAndExit? ==> ObeyFrom(host.trace, |old(host.trace)|, command, old(state), state)
      ensures command.StopAndExit? && old(state).Ready? ==>
                |host.trace| > |old(host.trace)| + 1 && host.trace[|old(host.trace)|].StopBegan? &&
                host.trace[|old(host.trace)|].origin == old(state).origin &&
                ShutdownDecided(host.trace, |old(host.trace)| + 1)
      ensures command.StopAndExit? && !old(state).Ready? ==>
                ExitsFrom(host.trace, |old(host.trace)|, old(child))
      ensures command.StopAndExit? && result.None? ==>
                host.Open() && host.trace != [] && StopFault(host.trace[|host.trace| - 1])
      ensures (command.Start? || command.Retry?) ==>
        SpawnsAt(host.trace, |old(host.trace)|, port.GetOr(0)) && port == old(port)
      ensures old(state).Starting? || old(state).Ready? || (old(state).Stopped? && command.ReassignPort?) ==>
                command.StopAndExit? || (unchanged(this) && unchanged(host) && result == Some(false))
    {
      match command
      case Start =>
        Start();
        result := Some(false);
      case Retry =>
        Start();
        result := Some(false);
      case ReassignPort =>
        if !state.Failed? {
          return Some(false);
        }
        port := None;
        var saved := host.SaveSettings(port);
        if !saved {
          return None;
        }
        Start();
        result := Some(false);
      case StopAndExit =>
        var stopped := StopAndExit();
        result := if stopped then Some(true) else None;
    }
  }

  /** The stop began right after `before`, and then the shutdown was asked for, or skipped. */
  predicate StopRequest(trace: seq<Action>, before: seq<Action>, origin: Origin, graceful: bool) {
    var n := |before|;
    && before < trace && |trace| == n + 2
    && trace[n].StopBegan? && trace[n].origin == origin
    && if trace[n + 1].ShutdownAsked? then trace[n + 1].ok == graceful else trace[n + 1].ShutdownSkipped? && !graceful
  }

  /** The shutdown was asked for, or there was no time for it. */
  predicate ShutdownDecided(trace: seq<Action>, n: nat) {
    n < |trace| && (trace[n].ShutdownAsked? || trace[n].ShutdownSkipped?)
  }

  predicate KilledSince(trace: seq<Action>, from: nat) {
    exists k :: from <= k < |trace| && trace[k].Killed?
  }

  lemma WatchedSince(watched: seq<Action>, asked: seq<Action>, before: seq<Action>, origin: Origin, graceful: bool)
    requires StopRequest(asked, before, origin, graceful) && Watched(watched, asked)
    ensures !KilledSince(watched, |before|)
    ensures EndedSince(watched, |before|) <==> EndedSince(watched, |asked|)
    ensures AskedSince(watched, |before|) <==> graceful
  {
    assert forall k :: |before| <= k < |asked| ==> watched[k] == asked[k];
    if graceful {
      assert watched[|before| + 1].ShutdownAsked? && watched[|before| + 1].ok;
    }
  }

  /** Nothing but clearing the cookie, asking for the port and exiting was done. */
  predicate Finishing(trace: seq<Action>, before: seq<Action>) {
    && before <= trace
    && forall k :: |before| <= k < |trace| ==> trace[k].CookieCleared? || trace[k].PortAsked? || trace[k].ExitCalled?
  }

  lemma FinishSince(trace: seq<Action>, before: seq<Action>, n: nat)
    requires Finishing(trace, before) && n <= |before|
    ensures KilledSince(trace, n) <==> KilledSince(before, n)
    ensures EndedSince(trace, n) <==> EndedSince(before, n)
    ensures AskedSince(trace, n) <==> AskedSince(before, n)
  {
    assert forall k :: n <= k < |before| ==> trace[k] == before[k];
  }

  lemma KillSince(watched: seq<Action>, kill: Action, n: nat)
    requires kill.Killed? && n <= |watched|
    ensures KilledSince(watched + [kill], n)
    ensures EndedSince(watched + [kill], n) <==> EndedSince(watched, n)
    ensures AskedSince(watched + [kill], n) <==> AskedSince(watched, n)
  {
    var t := watched + [kill];
    assert t[|watched|] == kill;
    assert forall k :: n <= k < |watched| ==> t[k] == watched[k];
  }

  predicate AskedSince(trace: seq<Action>, from: nat) {
    exists k :: from <= k < |trace| && trace[k].ShutdownAsked? && trace[k].ok
  }

  /** The whole life of the supervisor thread. The inbox says what the receiver hands over at each turn, None for
      nothing yet; at its end the receiver is disconnected. Every reachable loop head is the end of such a run. The
      thread exits exactly when a StopAndExit is handed over, as its last action and with the status it reports. What
      it does turn by turn is told by `run`, unless it could never be set up. */
  method RunSupervisorLoop(host: Host, timings: Timings, pollInterval: nat, inbox: seq<Option<Command>>)
    returns (status: Option<nat>, ghost run: Option<Run>)
    requires host.Valid() && host.trace == []
    modifies host
    ensures host.Valid() && Accepted(host.trace)
    ensures status.Some? <==> Some(Command.StopAndExit) in inbox
    ensures status.Some? <==> host.mon.command == Some(Command.StopAndExit)
    ensures status.Some? <==> host.mon.exited
    ensures status.Some? ==> host.trace != [] && host.trace[|host.trace| - 1] == ExitCalled(status.value)
    ensures if run.Some? then RunLaw(host.trace, inbox, run.value, status.Some?)
            else NeverLoaded(host.trace, inbox, status.Some?)
  {
    ReplayNothing();
    var turn, loaded;
    turn, loaded, status := SetUp(host, inbox);
    if loaded.None? {
      run := None;
    } else {
      status, run := RunLoaded(host, timings, pollInterval, inbox, turn, loaded.value);
    }
    TraceIsReplayed(host);
  }

  lemma TraceIsReplayed(host: Host)
    requires host.Valid()
    ensures Accepted(host.trace) && LiveAfter(host.trace) == host.mon.live
  {
    assert host.mon == Replay(host.trace);
  }

  /** The loop, once the settings were loaded. */
  method RunLoaded(host: Host, timings: Timings, pollInterval: nat, inbox: seq<Option<Command>>, first: nat,
      port: Option<nat>)
    returns (status: Option<nat>, ghost run: Option<Run>)
    requires BeforeStart(host) && host.mon.port == port
    requires first <= |inbox| && Some(Command.StopAndExit) !in inbox[..first]
    requires SettingsLoaded(host.trace, inbox, first)
    modifies host
    ensures host.Valid()
    ensures status.Some? <==> Some(Command.StopAndExit) in inbox
    ensures status.Some? <==> host.mon.command == Some(Command.StopAndExit)
    ensures status.Some? <==> host.mon.exited
    ensures status.Some? ==> host.trace != [] && host.trace[|host.trace| - 1] == ExitCalled(status.value)
    ensures run.Some? && RunLaw(host.trace, inbox, run.value, status.Some?)
  {
    ghost var loaded := host.trace;
    var turn := first;
    var supervisor := new Supervisor(host, timings, port);
    var _ := supervisor.HandleCommand(Command.Start);
    ghost var so := Run(|loaded| - 1, first, |host.trace|, supervisor.state, []);
    FirstStart(loaded, host.trace, inbox, so);
    while turn < |inbox|
      invariant supervisor.host == host && supervisor.Inv()
      invariant turn <= |inbox| && Some(Command.StopAndExit) !in inbox[..turn]
      invariant host.mon.command != Some(Command.StopAndExit)
      invariant SoFar(host.trace, inbox, so, turn, supervisor.state)
    {
      ghost var t, state, taken := host.trace, supervisor.state, Turn(0, 0, 0, Stopped, Stopped, Stopped);
      status, taken := TakeTurn(supervisor, inbox[turn], pollInterval);
      if status.Some? {
        RunStops(t, host.trace, inbox, so, turn, state);
        return status, Some(so);
      }
      OneMore(t, host.trace, inbox, so, turn, taken);
      so := so.(turns := so.turns + [taken]);
      turn := turn + 1;
    }
    RunGoesOn(host.trace, inbox, so, turn, supervisor.state);
    return None, Some(so);
  }

  /** One turn of the loop: a command, if one was handed over, and a poll. */
  method TakeTurn(supervisor: Supervisor, entry: Option<Command>, pollInterval: nat)
    returns (status: Option<nat>, ghost turn: Turn)
    requires supervisor.Inv() && supervisor.host.mon.command != Some(Command.StopAndExit)
    modifies supervisor, supervisor.host
    ensures supervisor.host.Valid() && old(supervisor.host.trace) <= supervisor.host.trace
    ensures supervisor.host.mon.command == Some(Command.StopAndExit) <==> entry == Some(Command.StopAndExit)
    ensures status.Some? <==> entry == Some(Command.StopAndExit)
    ensures status.Some? <==> supervisor.host.mon.exited
    ensures status.Some? ==>
              supervisor.host.trace != [] &&
                supervisor.host.trace[|supervisor.host.trace| - 1] == ExitCalled(status.value)
    ensures status.Some? ==> StoppedFrom(supervisor.host.trace, |old(supervisor.host.trace)|, old(supervisor.state))
    ensures status.None? ==> supervisor.Inv() && Took(supervisor.host.trace, entry, turn)
    ensures status.None? ==> turn.begin == |old(supervisor.host.trace)| && turn.end == |supervisor.host.trace|
    ensures status.None? ==> turn.before == old(supervisor.state) && turn.after == supervisor.state
  {
    var host := supervisor.host;
    ghost var begin, before := |host.trace|, supervisor.state;
    status := None;
    if entry.Some? {
      status := Obey(supervisor, entry.value);
      if status.Some? {
        return status, Turn(0, 0, 0, before, before, before);
      }
    }
    ghost var asked, state := host.trace, supervisor.state;
    TraceIsReplayed(host);
    var _ := supervisor.PollChild(pollInterval);
    turn := Turn(begin, |asked|, |host.trace|, before, state, supervisor.state);
    assert host.trace[..turn.poll] == asked && host.trace[..turn.end] == host.trace;
  }

  /** Takes one command; an error of a StopAndExit ends the process as well. */
  method Obey(supervisor: Supervisor, command: Command) returns (status: Option<nat>)
    requires supervisor.Inv() && supervisor.host.mon.command != Some(Command.StopAndExit)
    modifies supervisor, supervisor.host
    ensures supervisor.host.Valid() && supervisor.host.mon.command == Some(command)
    ensures old(supervisor.host.trace) <= supervisor.host.trace
    ensures status.Some? <==> command.StopAndExit?
    ensures status.Some? <==> supervisor.host.mon.exited
    ensures status.Some? ==>
              supervisor.host.trace != [] &&
                supervisor.host.trace[|supervisor.host.trace| - 1] == ExitCalled(status.value)
    ensures status.Some? ==> StoppedFrom(supervisor.host.trace, |old(supervisor.host.trace)|, old(supervisor.state))
    ensures status.None? ==> supervisor.Inv()
    ensures status.None? ==> Commanded(supervisor.host.trace, |old(supervisor.host.trace)|, Some(command),
                                       old(supervisor.state), supervisor.state)
  {
    var host := supervisor.host;
    var result := Dispatch(supervisor, command);
    if result == Some(true) {
      return Some(0);
    }
    if result.None? && command.StopAndExit? {
      ItStopsWithAFault(host.trace, |old(host.trace)|, old(supervisor.state));
      host.Exit(1);
      return Some(1);
    }
    return None;
  }

  method Dispatch(supervisor: Supervisor, command: Command) returns (result: Option<bool>)
    requires supervisor.Inv() && supervisor.host.mon.command != Some(Command.StopAndExit)
    modifies supervisor, supervisor.host
    ensures supervisor.host.Valid() && supervisor.host.mon.command == Some(command)
    ensures old(supervisor.host.trace) <= supervisor.host.trace
    ensures !command.StopAndExit? ==> supervisor.Inv() && result != Some(true)
    ensures !command.StopAndExit? ==> Commanded(supervisor.host.trace, |old(supervisor.host.trace)|, Some(command),
                                                old(supervisor.state), supervisor.state)
    ensures command.StopAndExit? && result == Some(true) ==>
              supervisor.host.mon.exited && supervisor.host.trace != [] &&
                supervisor.host.trace[|supervisor.host.trace| - 1] == ExitCalled(0)
    ensures command.StopAndExit? && result == Some(true) ==>
              StoppedFrom(supervisor.host.trace, |old(supervisor.host.trace)|, old(supervisor.state))
    ensures command.StopAndExit? && result != Some(true) ==>
              result.None? && supervisor.host.Open() && Allowed(supervisor.host.mon, ExitCalled(1))
    ensures command.StopAndExit? && result != Some(true) ==>
              Faulted(supervisor.host.trace, |old(supervisor.host.trace)|, old(supervisor.state))
  {
    var host := supervisor.host;
    TraceIsReplayed(host);
    supervisor.TakeCommand(command);
    ghost var t, n, before := host.trace, |host.trace|, supervisor.state;
    result := supervisor.HandleCommand(command);
    assert host.trace[n - 1] == t[n - 1] && host.trace[..n - 1] == old(host.trace);
    if result == Some(true) {
      ItStopped(host.trace, n, before);
    } else if !command.StopAndExit? {
      assert CommandLaw(host.trace, n - 1, Some(command), before, supervisor.state);
    }
  }

  /** As long as the supervisor cannot be set up, a failure is shown and a command awaited. */
  method SetUp(host: Host, inbox: seq<Option<Command>>)
    returns (turn: nat, loaded: Option<Option<nat>>, status: Option<nat>)
    requires BeforeStart(host) && host.trace == []
    modifies host
    ensures host.Valid() && turn <= |inbox|
    ensures loaded.Some? ==> BeforeStart(host) && status.None? && Some(Command.StopAndExit) !in inbox[..turn]
    ensures loaded.Some? ==> SettingsLoaded(host.trace, inbox, turn)
    ensures loaded.Some? ==> host.mon.port == loaded.value
    ensures loaded.None? ==> (status.Some? <==> Some(Command.StopAndExit) in inbox)
    ensures loaded.None? ==> NotLoadedFor(host.trace, inbox, status.Some?)
    ensures status.Some? <==> host.mon.exited
    ensures status.Some? ==> host.trace != [] && host.trace[|host.trace| - 1] == ExitCalled(status.value)
    ensures status.Some? <==> host.mon.command == Some(Command.StopAndExit)
  {
    turn := 0;
    while true
      invariant BeforeStart(host) && turn <= |inbox| && Some(Command.StopAndExit) !in inbox[..turn]
      invariant NotLoadedYet(host.trace, inbox, turn)
      decreases |inbox| - turn
    {
      ghost var t, from := host.trace, turn;
      var port, left, shown := LoadOnce(host);
      if port.Some? {
        LoadedNow(t, inbox, turn, port.value);
        return turn, port, None;
      }
      turn := NextCommand(inbox, turn);
      if turn == |inbox| {
        NoMoreCommands(t, inbox, from, left, shown);
        return turn, None, None;
      }
      var command := inbox[turn].value;
      host.TakeCommand(command);
      assert host.trace == t + NotLoaded(left, shown) + [Received(command)];
      NotLoadedAgain(t, inbox, from, turn, left, shown);
      turn := turn + 1;
      if command.StopAndExit? {
        StopBeforeStart(host.trace, inbox, turn);
        host.Exit(0);
        return turn, None, Some(0);
      }
    }
  }

  /** Loads the settings, or shows that they could not be loaded. */
  method LoadOnce(host: Host) returns (port: Option<Option<nat>>, ghost left: bool, ghost shown: bool)
    requires BeforeStart(host)
    modifies host
    ensures BeforeStart(host) && host.mon.command == old(host.mon.command)
    ensures port.Some? ==> host.mon.port == port.value && host.trace == old(host.trace) + [Loaded(port.value)]
    ensures port.None? ==> host.trace == old(host.trace) + NotLoaded(left, shown)
  {
    var ok, read := host.LoadSettings();
    left, shown := false, false;
    if ok {
      return Some(read), left, shown;
    }
    var l := host.ShowApp();
    var s := host.ShowFailure(FailureCode.StartFailed);
    return None, l, s;
  }

  /** Waits for the next command. */
  method NextCommand(inbox: seq<Option<Command>>, from: nat) returns (turn: nat)
    requires from <= |inbox|
    ensures from <= turn <= |inbox| && (forall k :: from <= k < turn ==> inbox[k].None?)
    ensures turn < |inbox| ==> inbox[turn].Some?
  {
    turn := from;
    while turn < |inbox| && inbox[turn].None?
      invariant from <= turn <= |inbox| && forall k :: from <= k < turn ==> inbox[k].None?
    {
      turn := turn + 1;
    }
  }

  /** The supervisor could not be set up yet. */
  ghost predicate BeforeStart(host: Host)
    reads host
  {
    && host.Open() && host.mon.live.None? && !host.mon.cookie && host.mon.failure.None? && host.mon.stop.NotStopping?
    && host.mon.command != Some(Command.StopAndExit)
  }

  lemma ReplayNothing()
    ensures Replay([]) ==
      Monitor(true, None, None, NoSession, None, false, true, None, [], None, None, None, NotStopping, false)
  {
  }

  /** Nothing but watching the child and logging was done. */
  predicate Watched(trace: seq<Action>, before: seq<Action>) {
    before <= trace && forall k :: |before| <= k < |trace| ==> trace[k].Observed? || trace[k].Logged?
  }

  predicate EndedSince(trace: seq<Action>, from: nat) {
    exists k :: from <= k < |trace| && trace[k].Observed? && trace[k].seen.Terminated?
  }

  lemma LastLine(said: seq<Verdict>)
    requires said != []
    ensures var last := said[|said| - 1];
            && (last != Ok(None) ==> Spoken(said))
            && (last.Err? || last == Ok(Some(Error(SidecarErrorCode.InitInvalid))) ==> !Clean(said))
            && (Spoken(said[..|said| - 1]) && last != Ok(None) ==> !Clean(said))
            && (Spoken(said[..|said| - 1]) ==> Spoken(said))
  {
    var front, last := said[..|said| - 1], said[|said| - 1];
    if Spoken(front) {
      var i :| 0 <= i < |front| && front[i] != Ok(None);
      assert said[i] != Ok(None);
    }
  }

  /** A control line was printed. */
  ghost predicate Spoken(said: seq<Verdict>) {
    exists i :: 0 <= i < |said| && said[i] != Ok(None)
  }
}
