/** The world the supervisor acts on (`HostIo` and `ChildHandle` of desktop/src-tauri/src/host.rs). Every
    operation may succeed or fail as the world likes, and every operation is asked to follow the rules of
    `DesktopTrace` when it is called; a ghost trace records what was done. Time passes at every reading of the
    clock. */
module HostIo {
  import opened Wrappers
  import opened JsonText
  import opened Protocol
  import opened Lifecycle
  import opened DesktopTrace
  import Base64

  /** `m` is the replay of `trace`, said so that the replay is only unfolded where it is mentioned. */
  ghost predicate Records(m: Monitor, trace: seq<Action>) {
    forall t {:trigger Replay(t)} :: t == trace ==> m == Replay(t)
  }

  /** `line` is the init line of `token`, said so that the line is only spelled out where it is mentioned. */
  ghost predicate IsInitLine(line: string, token: string) {
    forall t {:trigger InitLine(t)} :: t == token ==> InitLine(t) == Ok(line)
  }

  class Host {
    ghost var trace: seq<Action>
    ghost var mon: Monitor
    var clock: nat
    var disk: Option<nat>       // the port in the settings file
    const maxInstant: nat

    ghost predicate Valid()
      reads this
    {
      Records(mon, trace) && mon.ok
    }

    ghost predicate Open()
      reads this
    {
      Valid() && !mon.exited && !MustAsk(mon.stop)
    }

    constructor (clock: nat, disk: Option<nat>, maxInstant: nat)
      ensures Valid() && trace == [] && mon == Replay([]) && this.disk == disk && this.clock == clock
    {
      this.clock, this.disk, this.maxInstant := clock, disk, maxInstant;
      trace, mon := [], Replay([]);
    }

    /** `a` was done and is all that was done. */
    twostate predicate Did(a: Action)
      reads this
    {
      && Valid() && trace == old(trace) + [a] && old(clock) <= clock && (a.Saved? || disk == old(disk))
    }

    ghost method Record(a: Action)
      requires Valid() && !mon.exited && Allowed(mon, a)
      modifies this`trace, this`mon
      ensures Valid() && trace == old(trace) + [a] && mon == Step(old(mon), a)
    {
      ReplayLast(trace, a);
      trace, mon := trace + [a], Step(mon, a);
    }

    method Pass()
      modifies this`clock
      ensures clock > old(clock)
    {
      var ticks: nat :| true;
      clock := clock + ticks + 1;
    }

    /** `Instant::now()` */
    method Now() returns (now: nat)
      modifies this`clock
      ensures now == clock > old(clock)
    {
      Pass();
      now := clock;
    }

    /** `checked_add` */
    function After(instant: nat, duration: nat): Option<nat> {
      if instant + duration <= maxInstant then Some(instant + duration) else None
    }

    ghost method TakeCommand(command: Command)
      requires Open() && mon.command != Some(StopAndExit)
      modifies this
      ensures Did(Received(command))
      ensures mon == old(mon).(command := Some(command), last := Some(Received(command)))
    {
      Record(Received(command));
    }

    ghost method Fail(code: FailureCode)
      requires Open() && mon.stop.NotStopping? && Justified(mon, code, clock)
      modifies this
      ensures Did(FailedWith(code, old(clock))) && clock == old(clock)
      ensures mon == old(mon).(failure := Some(code), deadline := None, last := Some(FailedWith(code, old(clock))))
    {
      Record(FailedWith(code, clock));
    }

    ghost method Arm(deadline: Option<nat>)
      requires Open() && mon.session.Greeted?
      modifies this
      ensures Did(Armed(deadline)) && clock == old(clock)
      ensures mon == old(mon).(deadline := deadline, last := Some(Armed(deadline)))
    {
      Record(Armed(deadline));
    }

    ghost method BeginStop(origin: Origin, deadline: Option<nat>)
      requires Open() && mon.stop.NotStopping? && mon.session.Open? && mon.session.origin == origin
      modifies this
      ensures Did(StopBegan(origin, deadline)) && clock == old(clock)
      ensures mon == old(mon).(stop := StoppingAt(origin, Undecided, false, false), deadline := deadline,
                               last := Some(StopBegan(origin, deadline)))
    {
      Record(StopBegan(origin, deadline));
    }

    /** The trace keeps the token the secret is encoded to. */
    method RandomSecret() returns (secret: Option<seq<Byte>>, ghost token: string)
      requires Open()
      modifies this
      ensures secret.Some? ==> |secret.value| == TOKEN_BYTES && token == Base64.Encode(secret.value)
      ensures Did(if secret.Some? then TokenDrawn(token) else TokenFailed)
      ensures mon == old(mon).(last := Some(if secret.Some? then TokenDrawn(token) else TokenFailed))
    {
      var ok: bool := *;
      if ok {
        var bytes: seq<Byte> := *;
        secret := Some(if |bytes| == TOKEN_BYTES then bytes else seq(TOKEN_BYTES, i => 0));
        token := Base64.Encode(secret.value);
        Record(TokenDrawn(token));
      } else {
        secret, token := None, "";
        Record(TokenFailed);
      }
    }

    method Spawn(port: nat) returns (child: Option<nat>)
      requires Open() && mon.live.None? && mon.stop.NotStopping? && port == mon.port.GetOr(0)
      modifies this
      ensures Did(Spawned(port, child))
      ensures mon == old(mon).(live := child, session := if child.Some? then Alive else NoSession, deadline := None,
                               said := [], last := Some(Spawned(port, child)))
    {
      var ok: bool := *;
      var pid: nat :| true;
      Pass();
      child := if ok then Some(pid) else None;
      Record(Spawned(port, child));
    }

    method WriteInit(line: string, ghost token: string) returns (ok: bool)
      requires IsInitLine(line, token) && Open() && mon.live.Some? && mon.session.Alive?
      modifies this
      ensures Did(InitSent(token, ok))
      ensures mon ==
        old(mon).(session := if ok then Greeted(token) else old(mon).session, last := Some(InitSent(token, ok)))
    {
      ok := *;
      Pass();
      Record(InitSent(token, ok));
    }

    /** Waits for the child at most `timeout`; silence means the whole time went by. */
    method Receive(timeout: nat) returns (seen: Observation)
      requires Open() && mon.live.Some? && (mon.deadline.Some? ==> clock + timeout <= mon.deadline.value)
      modifies this
      ensures Did(Observed(old(clock) + timeout, seen))
      ensures mon == old(mon).(live := if seen.Terminated? then None else old(mon).live,
                               said := if seen.Line? then old(mon).said + [seen.said] else old(mon).said,
                               last := Some(Observed(old(clock) + timeout, seen)))
      ensures seen.Silence? ==> clock >= old(clock) + timeout
      ensures clock > old(clock)
    {
      seen := *;
      Record(Observed(clock + timeout, seen));
      if seen.Silence? {
        clock := clock + timeout;
      }
      Pass();
    }

    /** The settings file is replaced atomically; a failure may come before or after that. */
    method SaveSettings(port: Option<nat>) returns (ok: bool)
      requires Open()
      requires (port.Some? ==> mon.live.Some? && mon.session.Healthy? && port == Some(mon.session.origin.port))
      modifies this
      ensures Did(Saved(port, ok))
      ensures mon ==
        old(mon).(port := port, session := SessionStep(old(mon).session, Saved(port, ok)),
                  last := Some(Saved(port, ok)))
      ensures disk == port || (!ok && disk == old(disk))
    {
      ok := *;
      var replaced: bool := *;
      if ok || replaced {
        disk := port;
      }
      Record(Saved(port, ok));
    }

    method AppendLog() returns (ok: bool)
      requires Open()
      modifies this
      ensures Did(Logged(ok))
      ensures mon == old(mon).(last := Some(Logged(ok)))
    {
      ok := *;
      Record(Logged(ok));
    }

    method ProbeHealth(origin: Origin) returns (ok: bool)
      requires Open() && mon.live.Some? && mon.session.Greeted?
      modifies this
      ensures Did(Probed(origin, ok))
      ensures mon ==
        old(mon).(session := SessionStep(old(mon).session, Probed(origin, ok)), last := Some(Probed(origin, ok)))
    {
      ok := *;
      Pass();
      Record(Probed(origin, ok));
    }

    method SetCookie(origin: Origin, token: string) returns (ok: bool)
      requires Open() && mon.live.Some? && mon.session == Stored(token, origin)
      modifies this
      ensures Did(CookieSet(origin, token, ok))
      ensures mon ==
        old(mon).(cookie := true, cleared := None,
          session := SessionStep(old(mon).session, CookieSet(origin, token, ok)),
            last := Some(CookieSet(origin, token, ok)))
    {
      ok := *;
      Record(CookieSet(origin, token, ok));
    }

    method ClearCookie(origin: Origin) returns (ok: bool)
      requires Open() && SessionOrigin(mon.session) == Some(origin)
      modifies this
      ensures Did(CookieCleared(origin, ok))
      ensures mon == old(mon).(cookie := old(mon).cookie && !ok, clears := old(mon).clears && ok, cleared := Some(ok),
                               stop := StopStep(old(mon).stop, CookieCleared(origin, ok)))
    {
      ok := *;
      Record(CookieCleared(origin, ok));
    }

    method ShowSidecar(origin: Origin) returns (ok: bool)
      requires Open() && mon.live.Some? && mon.session.Cookied? && mon.session.origin == origin
      modifies this
      ensures Did(SidecarShown(origin, ok))
      ensures mon ==
        old(mon).(session := SessionStep(old(mon).session, SidecarShown(origin, ok)),
          deadline := if ok then None else old(mon).deadline, last := Some(SidecarShown(origin, ok)))
    {
      ok := *;
      Record(SidecarShown(origin, ok));
    }

    method ShowApp() returns (ok: bool)
      requires Open()
      modifies this
      ensures Did(AppShown(ok))
      ensures mon == old(mon).(last := Some(AppShown(ok)))
    {
      ok := *;
      Record(AppShown(ok));
    }

    method ShowFailure(code: FailureCode) returns (ok: bool)
      requires Open() && code == mon.failure.GetOr(FailureCode.StartFailed)
      modifies this
      ensures Did(FailureShown(code, ok))
      ensures mon == old(mon).(last := Some(FailureShown(code, ok)))
    {
      ok := *;
      Record(FailureShown(code, ok));
    }

    method RequestShutdown(origin: Origin, token: string, timeout: nat) returns (ok: bool)
      requires Valid() && !mon.exited && MustAsk(mon.stop) && mon.stop.at == origin
      requires mon.session == Session.Open(token, origin) && mon.deadline == Some(clock + timeout)
      modifies this
      ensures Did(ShutdownAsked(origin, token, old(clock) + timeout, ok)) && Open()
      ensures mon == old(mon).(stop := old(mon).stop.(request := if ok then Agreed else Refused),
                               last := Some(ShutdownAsked(origin, token, old(clock) + timeout, ok)))
    {
      ok := *;
      Record(ShutdownAsked(origin, token, clock + timeout, ok));
      Pass();
    }

    ghost method SkipShutdown()
      requires Valid() && !mon.exited && MustAsk(mon.stop) && (mon.deadline.None? || mon.deadline.value < clock)
      modifies this
      ensures Did(ShutdownSkipped(old(clock))) && clock == old(clock) && Open()
      ensures mon == old(mon).(stop := old(mon).stop.(request := Skipped), last := Some(ShutdownSkipped(old(clock))))
    {
      Record(ShutdownSkipped(clock));
    }

    /** Reads the settings file and opens the log. */
    method LoadSettings() returns (ok: bool, port: Option<nat>)
      requires Open()
      modifies this
      ensures Did(if ok then Loaded(port) else LoadFailed) && (ok ==> port == disk)
      ensures mon == old(mon).(port := if ok then port else old(mon).port,
                               last := Some(if ok then Loaded(port) else LoadFailed))
    {
      ok, port := *, disk;
      Record(if ok then Loaded(port) else LoadFailed);
    }

    method PortReleased(origin: Origin) returns (answer: Option<bool>)
      requires Open() && mon.stop.StoppingAt? && mon.stop.at == origin && mon.stop.cleared
      modifies this
      ensures Did(PortAsked(origin, answer))
      ensures mon ==
        old(mon).(stop := StopStep(old(mon).stop, PortAsked(origin, answer)), last := Some(PortAsked(origin, answer)))
    {
      answer := *;
      Pass();
      Record(PortAsked(origin, answer));
    }

    /** The handle is given up even if the process could not be killed. */
    method Kill(child: nat) returns (ok: bool)
      requires Open() && Allowed(mon, Killed(child, clock, true))
      modifies this
      ensures Did(Killed(child, old(clock), ok)) && clock == old(clock)
      ensures mon == old(mon).(live := None, last := Some(Killed(child, old(clock), ok)))
    {
      ok := *;
      Record(Killed(child, clock, ok));
    }

    method Exit(status: nat)
      requires Open() && Allowed(mon, ExitCalled(status))
      modifies this
      ensures Did(ExitCalled(status))
      ensures mon == old(mon).(exited := true, last := Some(ExitCalled(status)))
    {
      Record(ExitCalled(status));
    }
  }
}
