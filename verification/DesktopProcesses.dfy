/** What an accepted trace means for the child processes: the handle of a child is given up before the next spawn, but
    the process behind it may live on when it could not be killed. */
module DesktopProcesses {
  import opened Wrappers
  import opened Lifecycle
  import opened DesktopTrace
  import opened HostIo

  predicate IsSpawn(t: seq<Action>, i: nat) {
    i < |t| && t[i].Spawned? && t[i].pid.Some?
  }

  predicate SeenToEnd(a: Action) {
    a.Observed? && a.seen.Terminated?
  }

  /** The child's handle is given up. */
  predicate Releases(a: Action) {
    a.Killed? || SeenToEnd(a)
  }

  // ---------- The handle ----------

  lemma {:induction false} LiveKept(t: seq<Action>, n: nat)
    requires n <= |t| && forall k :: n <= k < |t| ==> !Releases(t[k]) && !t[k].Spawned?
    ensures LiveAfter(t) == LiveAfter(t[..n])
  {
    if n == |t| {
      assert t[..n] == t;
    } else {
      assert t[..|t| - 1][..n] == t[..n];
      LiveKept(t[..|t| - 1], n);
    }
  }

  lemma {:induction false} NoneKept(t: seq<Action>, n: nat)
    requires n <= |t| && LiveAfter(t[..n]).None? && forall k :: n <= k < |t| ==> !t[k].Spawned?
    ensures LiveAfter(t).None?
  {
    if n == |t| {
      assert t[..n] == t;
    } else {
      assert t[..|t| - 1][..n] == t[..n];
      NoneKept(t[..|t| - 1], n);
    }
  }

  /** A handle held at n is given up at most once before the next spawn, and exactly once if it is gone in the end. */
  lemma ReleasedOnce(t: seq<Action>, n: nat, k: nat, m: nat)
    requires Accepted(t) && n <= k < m < |t| && Releases(t[k]) && forall j :: n <= j < |t| ==> !t[j].Spawned?
    ensures !Releases(t[m])
  {
    AcceptedPrefix(t, m);
    assert t[..m][..k + 1] == t[..k + 1] && t[..k + 1][..k] == t[..k];
    NoneKept(t[..m], k + 1);
  }

  /** The handle of the child spawned at `i` is given up at `k`. */
  predicate ReleasedAt(t: seq<Action>, i: nat, k: nat) {
    i < k < |t| && Releases(t[k]) && NoSpawnBetween(t, i, k)
  }

  lemma {:induction false} NextSpawn(t: seq<Action>, i: nat, j: nat) returns (n: nat)
    requires i < j < |t| && t[j].Spawned?
    ensures i < n <= j && t[n].Spawned? && NoSpawnBetween(t, i, n)
    decreases j
  {
    if m: nat :| i < m < j && t[m].Spawned? {
      n := NextSpawn(t, i, m);
    } else {
      n := j;
    }
  }

  /** Whenever no handle is held, or another spawn came, the handle of a child was given up. */
  lemma HandleReleased(t: seq<Action>, i: nat)
    requires Accepted(t) && IsSpawn(t, i) && (LiveAfter(t).None? || exists j :: i < j < |t| && t[j].Spawned?)
    ensures exists k: nat :: ReleasedAt(t, i, k)
  {
    var n := |t|;
    if j :| i < j < |t| && t[j].Spawned? {
      n := NextSpawn(t, i, j);
      AcceptedPrefix(t, n);
    }
    assert t[..n] == t || n < |t|;
    var front := t[..n];
    assert front[..i + 1][..i] == front[..i] && front[..i + 1] == t[..i + 1];
    assert LiveAfter(front[..i + 1]) == t[i].pid;
    if forall k :: i < k < n ==> !Releases(t[k]) {
      LiveKept(front, i + 1);
    } else {
      var k :| i < k < n && Releases(t[k]);
      assert ReleasedAt(t, i, k);
    }
  }

  /** At most one child handle exists: before another spawn, the handle of the previous child was given up. */
  lemma OneHandleAtATime(t: seq<Action>, i: nat, j: nat)
    requires Accepted(t) && i < j < |t| && IsSpawn(t, i) && t[j].Spawned?
    ensures exists k: nat :: ReleasedAt(t[..j], i, k)
  {
    AcceptedPrefix(t, j);
    HandleReleased(t[..j], i);
  }

  // ---------- The process ----------

  /** The child spawned at `i` has ended: it was seen to terminate, or killing it worked. */
  ghost predicate Ended(t: seq<Action>, i: nat) {
    exists k: nat :: ReleasedAt(t, i, k) && (SeenToEnd(t[k]) || t[k].ok)
  }

  /** Killing the child spawned at `i` failed. */
  ghost predicate KillFailed(t: seq<Action>, i: nat) {
    exists k: nat :: ReleasedAt(t, i, k) && t[k].Killed? && !t[k].ok
  }

  lemma EndedOrKillFailed(t: seq<Action>, i: nat)
    requires Accepted(t) && IsSpawn(t, i) && exists k: nat :: ReleasedAt(t, i, k)
    ensures Ended(t, i) <==> !KillFailed(t, i)
  {
    var k: nat :| ReleasedAt(t, i, k);
    assert SeenToEnd(t[k]) || t[k].Killed?;
    if Ended(t, i) && KillFailed(t, i) {
      var m: nat :| ReleasedAt(t, i, m) && (SeenToEnd(t[m]) || t[m].ok);
      var n: nat :| ReleasedAt(t, i, n) && t[n].Killed? && !t[n].ok;
      SameRelease(t, i, m, n);
    }
  }

  lemma SameRelease(t: seq<Action>, i: nat, m: nat, n: nat)
    requires Accepted(t) && ReleasedAt(t, i, m) && ReleasedAt(t, i, n)
    ensures m == n
  {
    if m != n {
      var first, last := if m < n then m else n, if m < n then n else m;
      AcceptedPrefix(t, last + 1);
      OnlyRelease(t[..last + 1], i, first, last);
    }
  }

  lemma OnlyRelease(t: seq<Action>, i: nat, k: nat, m: nat)
    requires Accepted(t) && i < k < m && m + 1 == |t| && ReleasedAt(t, i, k) && NoSpawnBetween(t, i, m)
    ensures !Releases(t[m])
  {
    if Releases(t[m]) {
      ReleasedOnce(t, i + 1, k, m);
    }
  }

  /** Before the next spawn a child has ended, except exactly when killing it failed. */
  lemma ChildEndsUnlessKillFails(t: seq<Action>, i: nat, j: nat)
    requires Accepted(t) && i < j < |t| && IsSpawn(t, i) && t[j].Spawned?
    ensures Ended(t[..j], i) <==> !KillFailed(t[..j], i)
  {
    OneHandleAtATime(t, i, j);
    AcceptedPrefix(t, j);
    EndedOrKillFailed(t[..j], i);
  }

  /** Before exit status 0 every child ever spawned has ended, except exactly those that could not be killed. */
  lemma ChildrenEndBeforeExit(t: seq<Action>, e: nat, i: nat)
    requires Accepted(t) && e < |t| && t[e] == ExitCalled(0) && i < e && IsSpawn(t, i)
    ensures (exists k: nat :: ReleasedAt(t[..e], i, k)) && (Ended(t[..e], i) <==> !KillFailed(t[..e], i))
  {
    AcceptedPrefix(t, e);
    HandleReleased(t[..e], i);
    EndedOrKillFailed(t[..e], i);
  }

  // ---------- Two processes at once ----------

  /** One more action that is allowed. */
  lemma Allow(t: seq<Action>, m: Monitor, a: Action) returns (n: Monitor)
    requires Records(m, t) && m.ok && !m.exited && Allowed(m, a)
    ensures Records(n, t + [a]) && n == Step(m, a)
  {
    ReplayLast(t, a);
    n := Step(m, a);
  }

  lemma RecordedIsAccepted(t: seq<Action>, m: Monitor)
    requires Records(m, t) && m.ok
    ensures Accepted(t)
  {
    assert m == Replay(t);
  }

  lemma NothingDone() returns (m: Monitor)
    ensures Records(m, [])
    ensures m == Monitor(true, None, None, NoSession, None, false, true, None, [], None, None, None, NotStopping, false)
  {
    m := Replay([]);
  }

  /** A start whose init line cannot be sent and whose child cannot be killed. */
  function FailedStart(token: string): seq<Action> {
    [Spawned(0, Some(1)), InitSent(token, false), FailedWith(FailureCode.StartFailed, 5), Killed(1, 5, false),
      AppShown(true),
     FailureShown(FailureCode.StartFailed, true)]
  }

  /** Up to the failure: the child is held, its init line could not be sent. */
  lemma StartFails(token: string) returns (t: seq<Action>, m: Monitor)
    ensures t == [Spawned(0, Some(1)), InitSent(token, false), FailedWith(FailureCode.StartFailed, 5)]
    ensures Records(m, t) && m.ok && !m.exited && m.live == Some(1) && m.stop.NotStopping? && m.command.None?
    ensures m.port.None?
    ensures m.failure == Some(FailureCode.StartFailed)
  {
    t := [];
    m := NothingDone();
    m := Allow(t, m, Spawned(0, Some(1)));
    t := t + [Spawned(0, Some(1))];
    m := Allow(t, m, InitSent(token, false));
    t := t + [InitSent(token, false)];
    m := Allow(t, m, FailedWith(FailureCode.StartFailed, 5));
    t := t + [FailedWith(FailureCode.StartFailed, 5)];
  }

  lemma FailedStartIsAllowed(token: string) returns (m: Monitor)
    ensures Records(m, FailedStart(token)) && m.ok && !m.exited && m.live.None? && m.stop.NotStopping?
    ensures m.command.None? && m.port.None?
  {
    var t;
    t, m := StartFails(token);
    m := Allow(t, m, Killed(1, 5, false));
    t := t + [Killed(1, 5, false)];
    m := Allow(t, m, AppShown(true));
    t := t + [AppShown(true)];
    m := Allow(t, m, FailureShown(FailureCode.StartFailed, true));
    t := t + [FailureShown(FailureCode.StartFailed, true)];
    assert t == FailedStart(token);
  }

  /** The same, and then a retry. */
  function FailedKill(token: string): seq<Action> {
    FailedStart(token) + [Received(Command.Retry)] + [AppShown(true)] + [Spawned(0, Some(2))]
  }

  /** The rules allow it, and the first process has not ended when the second is spawned. */
  lemma FailedKillLeavesTwo(token: string)
    ensures Accepted(FailedKill(token)) && IsSpawn(FailedKill(token), 0) && IsSpawn(FailedKill(token), 8)
    ensures !Ended(FailedKill(token)[..8], 0)
  {
    RetryIsAllowed(token);
    var f := FailedKill(token);
    assert f[0] == FailedStart(token)[0] && f[3] == FailedStart(token)[3];
    assert ReleasedAt(f[..8], 0, 3);
    assert KillFailed(f[..8], 0);
    ChildEndsUnlessKillFails(f, 0, 8);
  }

  lemma RetryIsAllowed(token: string)
    ensures Accepted(FailedKill(token))
  {
    var t := FailedStart(token);
    var m := FailedStartIsAllowed(token);
    m := Allow(t, m, Received(Command.Retry));
    m := Allow(t + [Received(Command.Retry)], m, AppShown(true));
    m := Allow(t + [Received(Command.Retry)] + [AppShown(true)], m, Spawned(0, Some(2)));
    RecordedIsAccepted(FailedKill(token), m);
  }

  // ---------- The stop of a run ----------

  /** Where a stop begins: the session is on show, and the stop has the deadline it was given. */
  lemma StopBegins(t: seq<Action>, b: nat)
    requires Accepted(t) && b < |t| && t[b].StopBegan?
    ensures SessionAfter(t[..b]).Open? && SessionAfter(t[..b]).origin == t[b].origin
    ensures SessionAfter(t[..b + 1]) == SessionAfter(t[..b]) && DeadlineAfter(t[..b + 1]) == t[b].deadline
    ensures StopAfter(t[..b + 1]) == StoppingAt(t[b].origin, Undecided, false, false)
  {
    AcceptedPrefix(t, b);
    assert t[..b + 1] == t[..b] + [t[b]];
    FoldLast(SessionStep, NoSession, t[..b], t[b]);
    FoldLast(DeadlineStep, None, t[..b], t[b]);
    FoldLast(StopStep, NotStopping, t[..b], t[b]);
  }

  /** The child on show at `n` was given this token. */
  predicate Given(t: seq<Action>, n: nat, token: string) {
    exists k: nat :: k < n && n <= |t| && t[k] == InitSent(token, true) && NoSpawnBetween(t, k, n)
  }

  lemma OpenWasGiven(t: seq<Action>, n: nat)
    requires Accepted(t) && n <= |t| && SessionAfter(t[..n]).Open?
    ensures Given(t, n, SessionAfter(t[..n]).token)
  {
    AcceptedPrefix(t, n);
    var m := SessionMarks(t[..n]);
    assert t[m.greet] == InitSent(SessionAfter(t[..n]).token, true) && NoSpawnBetween(t, m.greet, n);
  }

  /** The first thing done in a stop: with a deadline that has not passed the sidecar on show is asked, in the name of
      its session, to shut down by then; the request is left out only without a deadline or past it. */
  lemma ShutdownIsDecided(t: seq<Action>, b: nat)
    requires Accepted(t) && b + 1 < |t| && t[b].StopBegan?
    ensures match t[b + 1] {
              case ShutdownAsked(origin, token, until, _) =>
                origin == t[b].origin && t[b].deadline == Some(until) && Given(t, b, token)
              case ShutdownSkipped(at) => t[b].deadline.None? || t[b].deadline.value < at
              case _ => false
            }
  {
    StopBegins(t, b);
    OpenWasGiven(t, b);
    AcceptedPrefix(t, b + 1);
  }

  /** The sidecar agreed to the shutdown asked for at the beginning of the stop. */
  predicate Agrees(t: seq<Action>, b: nat) {
    b + 1 < |t| && t[b + 1].ShutdownAsked? && t[b + 1].ok
  }

  /** From the beginning of a stop on nothing is spawned, the session stays and so does the deadline. */
  lemma {:induction false} StopGoesOn(t: seq<Action>, b: nat)
    requires Accepted(t) && b < |t| && t[b].StopBegan?
    ensures StopAfter(t).StoppingAt? && SessionAfter(t).Open? && DeadlineAfter(t) == t[b].deadline
    ensures StopAfter(t).request.Undecided? <==> b + 1 == |t|
    ensures StopAfter(t).request.Agreed? <==> Agrees(t, b)
    ensures forall k :: b < k < |t| ==> !t[k].Spawned?
  {
    var n := |t| - 1;
    AcceptedPrefix(t, n);
    if b < n {
      StopGoesOn(t[..n], b);
      assert forall k :: 0 <= k < n ==> t[..n][k] == t[k];
    }
  }

  /** In every run that stops a session on show and exits with 0: its child, if one is held, is killed if and only if it
      was not seen to terminate, and not before the deadline of the stop, unless the sidecar refused to shut down or
      could not be asked in time. */
  lemma KilledIffNotSeenToEnd(t: seq<Action>, b: nat, e: nat)
    requires Accepted(t) && b < e < |t| && t[b].StopBegan? && t[e] == ExitCalled(0) && LiveAfter(t[..b]).Some?
    ensures (exists k :: b < k < e && t[k].Killed?) <==> !exists k :: b < k < e && SeenToEnd(t[k])
    ensures forall k :: b < k < e && t[k].Killed? ==>
              || (t[b + 1].ShutdownAsked? && !t[b + 1].ok)
              || (t[b + 1].ShutdownSkipped? && (t[b].deadline.None? || t[b].deadline.value < t[b + 1].at))
              || (t[b].deadline.Some? && t[b].deadline.value <= t[k].at)
  {
    AcceptedPrefix(t, e);
    var front := t[..e];
    StopGoesOn(front, b);
    assert front[..b] == t[..b];
    if forall k :: b < k < e ==> !Releases(t[k]) {
      LiveKept(front, b);
    }
    if k, m :| b < k < e && b < m < e && t[k].Killed? && SeenToEnd(t[m]) {
      ReleasedOnce(front, b, if k < m then k else m, if k < m then m else k);
    }
    forall k | b < k < e && t[k].Killed? && Agrees(t, b)
      ensures t[b].deadline.Some? && t[b].deadline.value <= t[k].at
    {
      KilledInTime(t, b, k);
    }
    ShutdownIsDecided(t, b);
  }

  lemma KilledInTime(t: seq<Action>, b: nat, k: nat)
    requires Accepted(t) && b < k < |t| && t[b].StopBegan? && t[k].Killed? && Agrees(t, b)
    ensures t[b].deadline.Some? && t[b].deadline.value <= t[k].at
  {
    AcceptedPrefix(t, k);
    StopGoesOn(t[..k], b);
    assert b + 1 < k;
    assert t[..k][b + 1] == t[b + 1];
  }
}
