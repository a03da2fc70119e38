/** What the supervisor does next, read off the trace: after a start is asked for, after the child is observed, and turn
    by turn of its loop. The trace is given as it stands when the step in question is over. */
module DesktopLaws {
  import opened Wrappers
  import opened Protocol
  import opened Lifecycle
  import opened DesktopTrace

  predicate FailsAt(t: seq<Action>, n: nat, code: FailureCode) {
    n < |t| && t[n].FailedWith? && t[n].code == code
  }

  predicate NoSpawnFrom(t: seq<Action>, n: nat) {
    forall k :: n <= k < |t| ==> !t[k].Spawned?
  }

  /** The last thing done: the sidecar page was left and the failure shown, if the page could be left. */
  predicate EndsShown(t: seq<Action>, code: FailureCode) {
    && t != []
    && var last := t[|t| - 1];
       || last == AppShown(false)
       || (|t| > 1 && t[|t| - 2] == AppShown(true) && last.FailureShown? && last.code == code)
  }

  /** A state that failed just now was shown to the user. */
  predicate Told(t: seq<Action>, before: State, after: State) {
    after.Failed? && after != before ==> EndsShown(t, after.code)
  }

  /** The step failed at `n`, and with it the state. */
  predicate FailedFrom(t: seq<Action>, n: nat, code: FailureCode, after: State) {
    FailsAt(t, n, code) && after == Failed(code) && EndsShown(t, code)
  }

  // ---------- A start ----------

  predicate ArmFrom(t: seq<Action>, n: nat, after: State) {
    && n < |t| && t[n].Armed? && NoSpawnFrom(t, n)
    && if t[n].deadline.None? then FailedFrom(t, n + 1, FailureCode.StartupTimeout, after)
       else |t| == n + 1 && after.Starting?
  }

  /** The child is sent its init line and the startup deadline is armed. Starting is what comes of both, and of nothing
      else. */
  predicate GreetFrom(t: seq<Action>, n: nat, token: string, after: State) {
    && n < |t| && t[n].InitSent? && t[n].token == token && NoSpawnFrom(t, n)
    && if t[n].ok then ArmFrom(t, n + 1, after) else FailedFrom(t, n + 1, FailureCode.StartFailed, after)
  }

  predicate LaunchFrom(t: seq<Action>, n: nat, token: string, after: State) {
    && n < |t| && t[n].Spawned?
    && if t[n].pid.None? then FailedFrom(t, n + 1, FailureCode.StartFailed, after) && NoSpawnFrom(t, n + 1)
       else GreetFrom(t, n + 1, token, after)
  }

  /** A token is drawn, and the child spawned next is given that one. */
  predicate DrawFrom(t: seq<Action>, n: nat, after: State) {
    && n < |t|
    && if t[n].TokenFailed? then FailedFrom(t, n + 1, FailureCode.StartFailed, after) && NoSpawnFrom(t, n)
       else t[n].TokenDrawn? && LaunchFrom(t, n + 1, t[n].drawn, after)
  }

  /** A start attempt. Out of a failure the failure page is left first. */
  predicate StartFrom(t: seq<Action>, n: nat, restarting: bool, after: State) {
    if !restarting then DrawFrom(t, n, after)
    else
      && n < |t| && t[n].AppShown?
      && if t[n].ok then DrawFrom(t, n + 1, after)
         else FailedFrom(t, n + 1, FailureCode.StartFailed, after) && NoSpawnFrom(t, n)
  }

  // ---------- An observation of the child ----------

  predicate ShowFrom(t: seq<Action>, n: nat, origin: Origin, after: State) {
    && n < |t| && t[n].SidecarShown? && t[n].origin == origin
    && if t[n].ok then |t| == n + 1 && after.Ready? && after.origin == origin
       else after == Failed(FailureCode.StartFailed)
  }

  predicate PresentFrom(t: seq<Action>, n: nat, origin: Origin, after: State) {
    && n < |t| && t[n].CookieSet? && t[n].origin == origin
    && if t[n].ok then ShowFrom(t, n + 1, origin, after)
       else n + 1 < |t| && t[n + 1].CookieCleared? && after == Failed(FailureCode.StartFailed)
  }

  predicate SaveFrom(t: seq<Action>, n: nat, origin: Origin, after: State) {
    && n < |t| && t[n].Saved? && t[n].saved == Some(origin.port)
    && if t[n].ok then PresentFrom(t, n + 1, origin, after) else after == Failed(FailureCode.StartFailed)
  }

  /** A ready line is answered by a health probe, the saving of the port, the cookie and the page. The first of them
      that fails ends it; when none does the session is ready. */
  predicate ReadyFrom(t: seq<Action>, n: nat, origin: Origin, after: State) {
    && n < |t| && t[n].Probed? && t[n].origin == origin
    && if t[n].ok then SaveFrom(t, n + 1, origin, after) else after == Failed(FailureCode.StartFailed)
  }

  /** Noise on standard error is logged, and then a line feed. */
  predicate NoiseFrom(t: seq<Action>, n: nat, before: State, after: State) {
    && n < |t| && t[n].Logged?
    && if !t[n].ok then after == Failed(FailureCode.StartFailed)
       else
         && n + 1 < |t| && t[n + 1].Logged?
         && if t[n + 1].ok then |t| == n + 2 && after == before else after == Failed(FailureCode.StartFailed)
  }

  /** What one observation of the child may do to the state. */
  predicate Reaction(before: State, seen: Observation, after: State) {
    match seen
    case Terminated => after == Failed(FailureCode.Exited) || (before.Ready? && after == before)
    case Broken => after == Failed(FailureCode.StartFailed)
    case ReceiveFailed => after == Failed(FailureCode.StartFailed)
    case Silence => after == before || (before.Starting? && after == Failed(FailureCode.StartupTimeout))
    case Noise(_) => after == before || after == Failed(FailureCode.StartFailed)
    case Line(Ok(None)) => after == before
    case Line(Err(_)) => after == Failed(FailureCode.InitInvalid)
    case Line(Ok(Some(Error(code)))) =>
      after == Failed(if before.Starting? then MapSidecarError(code) else FailureCode.InitInvalid)
    case Line(Ok(Some(Ready(origin)))) =>
      if before.Starting? then (after.Ready? && after.origin == origin) || after == Failed(FailureCode.StartFailed)
      else after == Failed(FailureCode.InitInvalid)
  }

  /** What is done about the observation at `n`. */
  predicate AnswerFrom(t: seq<Action>, n: nat, before: State, seen: Observation, after: State) {
    match seen
    case Noise(_) => NoiseFrom(t, n + 1, before, after)
    case Line(Ok(None)) => |t| == n + 1
    case Line(Ok(Some(Ready(origin)))) => before.Starting? ==> ReadyFrom(t, n + 1, origin, after)
    case Silence => after == before ==> |t| == n + 1
    case Terminated => before.Ready? ==> n + 1 < |t| && t[n + 1].CookieCleared? && (after == before <==> !t[n + 1].ok)
    case _ => true
  }

  /** The first thing a poll does: it observes the child or finds the start too late. */
  predicate Answered(t: seq<Action>, n: nat, before: State, after: State) {
    && n < |t| && Told(t, before, after)
    && if t[n].Observed? then Reaction(before, t[n].seen, after) && AnswerFrom(t, n, before, t[n].seen, after)
       else before.Starting? && FailedFrom(t, n, FailureCode.StartupTimeout, after)
  }

  // ---------- A turn of the loop ----------

  /** A turn begins at `begin` with the command, polls from `poll` on and is over at `end`; the states are those before
      the command, before the poll and after it. */
  datatype Turn = Turn(begin: nat, poll: nat, end: nat, before: State, asked: State, after: State)

  predicate Startable(s: State) {
    s.Stopped? || s.Failed?
  }

  /** A port is given up by saving none, and then a start is attempted; if it cannot be saved nothing else is done. */
  predicate ReassignFrom(t: seq<Action>, n: nat, before: State, after: State) {
    && n < |t| && t[n].Saved? && t[n].saved == None
    && if t[n].ok then StartFrom(t, n + 1, true, after) else |t| == n + 1 && after == before
  }

  /** What a command other than StopAndExit leads to. */
  predicate ObeyFrom(t: seq<Action>, n: nat, command: Command, before: State, after: State) {
    match command
    case ReassignPort => if before.Failed? then ReassignFrom(t, n, before, after) else |t| == n && after == before
    case StopAndExit => false
    case _ => if Startable(before) then StartFrom(t, n, before.Failed?, after) else |t| == n && after == before
  }

  predicate CommandLaw(t: seq<Action>, n: nat, entry: Option<Command>, before: State, after: State) {
    match entry
    case None => |t| == n && after == before
    case Some(command) => n < |t| && t[n] == Received(command) && ObeyFrom(t, n + 1, command, before, after)
  }

  /** A child that is held is polled; without one nothing is done. */
  predicate PollLaw(t: seq<Action>, n: nat, before: State, after: State) {
    && n <= |t|
    && if LiveAfter(t[..n]).None? then |t| == n && after == before else Answered(t, n, before, after)
  }

  predicate TurnLaw(t: seq<Action>, entry: Option<Command>, turn: Turn) {
    && turn.begin <= turn.poll <= turn.end <= |t|
    && CommandLaw(t[..turn.poll], turn.begin, entry, turn.before, turn.asked)
    && PollLaw(t[..turn.end], turn.poll, turn.asked, turn.after)
  }

  function EndOf(begin: nat, turns: seq<Turn>): nat {
    if turns == [] then begin else turns[|turns| - 1].end
  }

  function StateOf(start: State, turns: seq<Turn>): State {
    if turns == [] then start else turns[|turns| - 1].after
  }

  /** Each turn begins where the one before was over, takes the next entry of the inbox, and keeps the law. */
  predicate TurnsLaw(t: seq<Action>, entries: seq<Option<Command>>, begin: nat, start: State, turns: seq<Turn>) {
    && |turns| == |entries|
    && (turns != [] ==>
          var n := |turns| - 1;
          && TurnsLaw(t, entries[..n], begin, start, turns[..n])
          && turns[n].begin == EndOf(begin, turns[..n]) && turns[n].before == StateOf(start, turns[..n])
          && TurnLaw(t, entries[n], turns[n]))
  }

  lemma TurnLawStays(t: seq<Action>, more: seq<Action>, entry: Option<Command>, turn: Turn)
    requires TurnLaw(t, entry, turn) && t <= more
    ensures TurnLaw(more, entry, turn)
  {
    assert more[..turn.poll] == t[..turn.poll] && more[..turn.end] == t[..turn.end];
  }

  lemma {:induction false} TurnsLawStays(t: seq<Action>, more: seq<Action>, entries: seq<Option<Command>>, begin: nat,
      start: State, turns: seq<Turn>)
    requires TurnsLaw(t, entries, begin, start, turns) && t <= more
    ensures TurnsLaw(more, entries, begin, start, turns)
  {
    if turns != [] {
      var n := |turns| - 1;
      TurnsLawStays(t, more, entries[..n], begin, start, turns[..n]);
      TurnLawStays(t, more, entries[n], turns[n]);
    }
  }

  lemma OneMoreTurn(t: seq<Action>, entries: seq<Option<Command>>, begin: nat, start: State, turns: seq<Turn>,
      entry: Option<Command>, turn: Turn)
    requires TurnsLaw(t, entries, begin, start, turns) && TurnLaw(t, entry, turn)
    requires turn.begin == EndOf(begin, turns) && turn.before == StateOf(start, turns)
    ensures TurnsLaw(t, entries + [entry], begin, start, turns + [turn])
  {
    assert (entries + [entry])[..|entries|] == entries && (turns + [turn])[..|turns|] == turns;
  }

  // ---------- A whole run ----------

  /** The commands among the entries of the inbox. */
  function Handed(entries: seq<Option<Command>>): seq<Command> {
    if entries == [] then []
    else Handed(entries[..|entries| - 1]) + if entries[|entries| - 1].Some? then [entries[|entries| - 1].value] else []
  }

  lemma {:induction false} HandedSkips(inbox: seq<Option<Command>>, from: nat, to: nat)
    requires from <= to <= |inbox| && forall k :: from <= k < to ==> inbox[k].None?
    ensures Handed(inbox[..to]) == Handed(inbox[..from])
  {
    if from < to {
      assert inbox[..to][..to - 1] == inbox[..to - 1];
      HandedSkips(inbox, from, to - 1);
    }
  }

  lemma HandedNext(inbox: seq<Option<Command>>, from: nat, to: nat)
    requires from <= to < |inbox| && inbox[to].Some? && forall k :: from <= k < to ==> inbox[k].None?
    ensures Handed(inbox[..to + 1]) == Handed(inbox[..from]) + [inbox[to].value]
  {
    assert inbox[..to + 1][..to] == inbox[..to];
    HandedSkips(inbox, from, to);
  }

  /** Each failure to set up is shown and then a command awaited. */
  predicate SetUpLaw(t: seq<Action>, commands: seq<Command>) {
    && |t| == 4 * |commands|
    && (commands != [] ==>
          var n := |commands| - 1;
          && SetUpLaw(t[..4 * n], commands[..n])
          && t[4 * n] == LoadFailed && t[4 * n + 1].AppShown? && t[4 * n + 2].FailureShown?
          && t[4 * n + 2].code == FailureCode.StartFailed && t[4 * n + 3] == Received(commands[n]))
  }

  /** A run once set up: `setup` is where the settings were loaded, after `first` entries of the inbox; the first start
      left the state `start` and was over at `begin`. */
  datatype Run = Run(setup: nat, first: nat, begin: nat, start: State, turns: seq<Turn>)

  predicate StartedLaw(t: seq<Action>, inbox: seq<Option<Command>>, run: Run) {
    && run.setup < run.begin <= |t| && run.first <= |inbox|
    && SetUpLaw(t[..run.setup], Handed(inbox[..run.first])) && t[run.setup].Loaded?
    && StartFrom(t[..run.begin], run.setup + 1, false, run.start)
  }

  function KillOf(child: Option<nat>, at: nat, killed: bool): seq<Action> {
    if child.Some? then [Killed(child.value, at, killed)] else []
  }

  predicate KilledAndExited(t: seq<Action>, n: nat, child: Option<nat>, at: nat, killed: bool) {
    n <= |t| && t == t[..n] + KillOf(child, at, killed) + [ExitCalled(0)]
  }

  /** The child held is killed, whatever comes of it, and the process exits. */
  ghost predicate ExitsFrom(t: seq<Action>, n: nat, child: Option<nat>) {
    exists at, killed :: KilledAndExited(t, n, child, at, killed)
  }

  /** What ends the wait for the child with an error. */
  predicate WaitFault(a: Action) {
    a == Logged(false) || (a.Observed? && a.seen.ReceiveFailed?)
  }

  predicate SeenFree(a: Action) {
    a.PortAsked? && a.answer == Some(true)
  }

  /** What a stop can fail on. */
  predicate StopFault(a: Action) {
    WaitFault(a) || a.CookieCleared? || (a.PortAsked? && !SeenFree(a))
  }

  /** A stop that fails is over with its first fault. */
  predicate StopEnds(t: seq<Action>) {
    && |t| >= 2
    && (t[|t| - 1] == ExitCalled(0) || (t[|t| - 1] == ExitCalled(1) && StopFault(t[|t| - 2])))
  }

  /** A StopAndExit begins a stop of the session on show; without one the child held is killed and the process exits. */
  ghost predicate StopLaw(t: seq<Action>, n: nat, before: State) {
    && n < |t| && t[n] == Received(Command.StopAndExit)
    && if before.Ready? then n + 1 < |t| && t[n + 1].StopBegan? && t[n + 1].origin == before.origin && StopEnds(t)
       else ExitsFrom(t, n + 1, LiveAfter(t[..n]))
  }

  /** The loop takes one entry of the inbox at each turn, up to a StopAndExit or the end. */
  ghost predicate RunLaw(t: seq<Action>, inbox: seq<Option<Command>>, run: Run, stopped: bool) {
    var last := run.first + |run.turns|;
    && StartedLaw(t, inbox, run) && last <= |inbox|
    && TurnsLaw(t, inbox[run.first..last], run.begin, run.start, run.turns)
    && var end := EndOf(run.begin, run.turns);
       if stopped then
         last < |inbox| && inbox[last] == Some(Command.StopAndExit) && StopLaw(t, end, StateOf(run.start, run.turns))
       else last == |inbox| && |t| == end
  }

  /** A run that could never be set up. */
  predicate NeverLoaded(t: seq<Action>, inbox: seq<Option<Command>>, stopped: bool) {
    if stopped then
      exists n :: 0 <= n < |inbox| && inbox[n] == Some(Command.StopAndExit) && |t| > 0 &&
        SetUpLaw(t[..|t| - 1], Handed(inbox[..n + 1])) && t[|t| - 1] == ExitCalled(0)
    else
      |t| >= 3 && SetUpLaw(t[..|t| - 3], Handed(inbox)) &&
      t[|t| - 3] == LoadFailed && t[|t| - 2].AppShown? && t[|t| - 1].FailureShown?
  }

  // ---------- What the laws say of a run ----------

  lemma {:induction false} TurnOf(t: seq<Action>, entries: seq<Option<Command>>, begin: nat, start: State,
      turns: seq<Turn>, k: nat)
    requires TurnsLaw(t, entries, begin, start, turns) && k < |turns|
    ensures |turns| == |entries| && TurnLaw(t, entries[k], turns[k])
  {
    var n := |turns| - 1;
    if k < n {
      TurnOf(t, entries[..n], begin, start, turns[..n], k);
    }
  }

  lemma TurnOfRun(t: seq<Action>, inbox: seq<Option<Command>>, run: Run, stopped: bool, k: nat)
    requires RunLaw(t, inbox, run, stopped) && k < |run.turns|
    ensures run.first + k < |inbox| && Took(t, inbox[run.first + k], run.turns[k])
  {
    TurnsOfRun(t, inbox, run, stopped);
    TurnTaken(t, inbox, run.first, run.begin, run.start, run.turns, k);
  }

  lemma TurnsOfRun(t: seq<Action>, inbox: seq<Option<Command>>, run: Run, stopped: bool)
    requires RunLaw(t, inbox, run, stopped)
    ensures run.first + |run.turns| <= |inbox|
    ensures Turned(t, inbox[run.first..run.first + |run.turns|], run.begin, run.start, run.turns)
  {
  }

  lemma TurnTaken(t: seq<Action>, inbox: seq<Option<Command>>, first: nat, begin: nat, start: State, turns: seq<Turn>,
      k: nat)
    requires first + |turns| <= |inbox| && k < |turns|
    requires Turned(t, inbox[first..first + |turns|], begin, start, turns)
    ensures Took(t, inbox[first + k], turns[k])
  {
    var entries := inbox[first..first + |turns|];
    assert TurnsLaw(t, entries, begin, start, turns);
    TurnOf(t, entries, begin, start, turns, k);
    assert entries[k] == inbox[first + k];
  }

  /** The first thing done once the settings are loaded is a start: a token is drawn and, if one was, a child
      spawned. */
  lemma StartComesFirst(t: seq<Action>, inbox: seq<Option<Command>>, run: Run)
    requires StartedLaw(t, inbox, run)
    ensures t[run.setup].Loaded? && run.setup + 1 < |t|
    ensures t[run.setup + 1].TokenFailed? ||
            (t[run.setup + 1].TokenDrawn? && run.setup + 2 < |t| && t[run.setup + 2].Spawned?)
  {
    var s := t[..run.begin];
    assert forall k :: 0 <= k < run.begin ==> s[k] == t[k];
  }

  /** In every turn of every run: when a child is held, it is observed next, or its start is found too late. */
  lemma EveryTurnPolls(t: seq<Action>, inbox: seq<Option<Command>>, run: Run, stopped: bool, k: nat)
    requires RunLaw(t, inbox, run, stopped) && k < |run.turns|
    ensures var poll := run.turns[k].poll;
            && poll <= |t|
            && (LiveAfter(t[..poll]).Some? ==>
                  poll < |t| && (t[poll].Observed? || FailsAt(t, poll, FailureCode.StartupTimeout)))
  {
    TurnOfRun(t, inbox, run, stopped, k);
    PolledTurn(t, inbox[run.first + k], run.turns[k]);
  }

  lemma PolledTurn(t: seq<Action>, entry: Option<Command>, turn: Turn)
    requires Took(t, entry, turn)
    ensures turn.poll <= |t|
    ensures LiveAfter(t[..turn.poll]).Some? ==>
      turn.poll < |t| && (t[turn.poll].Observed? || FailsAt(t, turn.poll, FailureCode.StartupTimeout))
  {
    assert TurnLaw(t, entry, turn);
    var s := t[..turn.end];
    assert s[..turn.poll] == t[..turn.poll] && PollLaw(s, turn.poll, turn.asked, turn.after);
  }

  /** A restart was asked for at `n`: the failure page is left, a token drawn and a child spawned, up to the first of
      these that fails; and the start is on only when the child was given the token drawn. */
  predicate Restarted(t: seq<Action>, n: nat, after: State) {
    && n + 1 < |t| && t[n + 1].AppShown?
    && (t[n + 1].ok ==> n + 2 < |t| && (t[n + 2].TokenDrawn? || t[n + 2].TokenFailed?))
    && (t[n + 1].ok && t[n + 2].TokenDrawn? ==> n + 3 < |t| && t[n + 3].Spawned?)
    && (after.Starting? ==>
          t[n + 1].ok && t[n + 2].TokenDrawn? && n + 4 < |t| && t[n + 4] == InitSent(t[n + 2].drawn, true))
  }

  lemma RestartFrom(t: seq<Action>, n: nat, after: State)
    requires StartFrom(t, n + 1, true, after)
    ensures Restarted(t, n, after)
  {
  }

  lemma RestartedStays(t: seq<Action>, more: seq<Action>, n: nat, after: State)
    requires Restarted(t, n, after) && t <= more
    ensures Restarted(more, n, after)
  {
  }

  lemma RetryTaken(t: seq<Action>, n: nat, before: State, after: State)
    requires CommandLaw(t, n, Some(Command.Retry), before, after) && before.Failed?
    ensures n < |t| && t[n] == Received(Command.Retry) && Restarted(t, n, after)
  {
    RestartFrom(t, n, after);
  }

  /** A retry of a failed start is a restart, in every run. */
  lemma RetryStarts(t: seq<Action>, inbox: seq<Option<Command>>, run: Run, stopped: bool, k: nat)
    requires RunLaw(t, inbox, run, stopped) && k < |run.turns| && run.turns[k].before.Failed?
    requires inbox[run.first + k] == Some(Command.Retry)
    ensures var n := run.turns[k].begin;
            n < |t| && t[n] == Received(Command.Retry) && Restarted(t, n, run.turns[k].asked)
  {
    TurnOfRun(t, inbox, run, stopped, k);
    RetryTurn(t, run.turns[k]);
  }

  lemma RetryTurn(t: seq<Action>, turn: Turn)
    requires Took(t, Some(Command.Retry), turn) && turn.before.Failed?
    ensures turn.begin < |t| && t[turn.begin] == Received(Command.Retry) && Restarted(t, turn.begin, turn.asked)
  {
    assert TurnLaw(t, Some(Command.Retry), turn);
    RetryTaken(t[..turn.poll], turn.begin, turn.before, turn.asked);
    RestartedStays(t[..turn.poll], t, turn.begin, turn.asked);
  }

  // ---------- How the laws go on ----------

  // What follows keeps the laws folded: each is only opened where it is mentioned.
  ghost predicate Started(t: seq<Action>, inbox: seq<Option<Command>>, run: Run) {
    forall r {:trigger StartedLaw(t, inbox, r)} :: r == run ==> StartedLaw(t, inbox, r)
  }

  ghost predicate Turned(t: seq<Action>, entries: seq<Option<Command>>, begin: nat, start: State, turns: seq<Turn>) {
    forall ts {:trigger TurnsLaw(t, entries, begin, start, ts)} :: ts == turns ==>
      TurnsLaw(t, entries, begin, start, ts)
  }

  ghost predicate Took(t: seq<Action>, entry: Option<Command>, turn: Turn) {
    forall one {:trigger TurnLaw(t, entry, one)} :: one == turn ==> TurnLaw(t, entry, one)
  }

  ghost predicate Commanded(t: seq<Action>, n: nat, entry: Option<Command>, before: State, after: State) {
    forall s {:trigger CommandLaw(t, n, entry, before, s)} :: s == after ==> CommandLaw(t, n, entry, before, s)
  }

  ghost predicate StoppedFrom(t: seq<Action>, n: nat, before: State) {
    forall s {:trigger StopLaw(t, n, s)} :: s == before ==> StopLaw(t, n, s)
  }

  lemma ItStopped(t: seq<Action>, n: nat, before: State)
    requires 0 < n < |t| && t[n - 1] == Received(Command.StopAndExit) && t[|t| - 1] == ExitCalled(0)
    requires before.Ready? ==> t[n].StopBegan? && t[n].origin == before.origin
    requires !before.Ready? ==> ExitsFrom(t, n, LiveAfter(t[..n - 1]))
    ensures StoppedFrom(t, n - 1, before)
  {
    assert StopLaw(t, n - 1, before);
  }

  /** A stop of the session on show has failed. */
  predicate Faulted(t: seq<Action>, n: nat, before: State) {
    && n + 1 < |t| && t[n] == Received(Command.StopAndExit) && before.Ready?
    && t[n + 1].StopBegan? && t[n + 1].origin == before.origin && StopFault(t[|t| - 1])
  }

  lemma ItStopsWithAFault(t: seq<Action>, n: nat, before: State)
    requires Faulted(t, n, before)
    ensures StoppedFrom(t + [ExitCalled(1)], n, before)
  {
    assert StopLaw(t + [ExitCalled(1)], n, before);
  }

  lemma StartedStays(t: seq<Action>, more: seq<Action>, inbox: seq<Option<Command>>, run: Run, turns: seq<Turn>)
    requires Started(t, inbox, run) && t <= more
    ensures Started(more, inbox, run.(turns := turns))
  {
    assert StartedLaw(t, inbox, run);
    assert more[..run.setup] == t[..run.setup] && more[..run.begin] == t[..run.begin];
    assert StartedLaw(more, inbox, run.(turns := turns));
  }

  lemma TurnedStays(t: seq<Action>, more: seq<Action>, entries: seq<Option<Command>>, begin: nat, start: State,
      turns: seq<Turn>)
    requires Turned(t, entries, begin, start, turns) && t <= more
    ensures Turned(more, entries, begin, start, turns)
  {
    assert TurnsLaw(t, entries, begin, start, turns);
    TurnsLawStays(t, more, entries, begin, start, turns);
  }

  lemma TurnedMore(t: seq<Action>, entries: seq<Option<Command>>, begin: nat, start: State, turns: seq<Turn>,
      entry: Option<Command>, turn: Turn)
    requires Turned(t, entries, begin, start, turns) && Took(t, entry, turn)
    requires turn.begin == EndOf(begin, turns) && turn.before == StateOf(start, turns)
    ensures Turned(t, entries + [entry], begin, start, turns + [turn])
  {
    assert TurnsLaw(t, entries, begin, start, turns) && TurnLaw(t, entry, turn);
    OneMoreTurn(t, entries, begin, start, turns, entry, turn);
  }

  /** The run up to the entry `n` of the inbox. */
  ghost predicate SoFar(t: seq<Action>, inbox: seq<Option<Command>>, run: Run, n: nat, state: State) {
    && n == run.first + |run.turns| <= |inbox| && Started(t, inbox, run)
    && Turned(t, inbox[run.first..n], run.begin, run.start, run.turns)
    && EndOf(run.begin, run.turns) == |t| && StateOf(run.start, run.turns) == state
  }

  lemma OneMore(t: seq<Action>, more: seq<Action>, inbox: seq<Option<Command>>, run: Run, n: nat, turn: Turn)
    requires SoFar(t, inbox, run, n, turn.before) && t <= more && n < |inbox|
    requires Took(more, inbox[n], turn) && turn.begin == |t| && turn.end == |more|
    ensures SoFar(more, inbox, run.(turns := run.turns + [turn]), n + 1, turn.after)
  {
    var entries := inbox[run.first..n];
    StartedStays(t, more, inbox, run, run.turns + [turn]);
    TurnedStays(t, more, entries, run.begin, run.start, run.turns);
    TurnedMore(more, entries, run.begin, run.start, run.turns, inbox[n], turn);
    assert inbox[run.first..n + 1] == entries + [inbox[n]];
  }

  lemma RunStops(t: seq<Action>, more: seq<Action>, inbox: seq<Option<Command>>, run: Run, n: nat, state: State)
    requires SoFar(t, inbox, run, n, state) && t <= more && n < |inbox|
    requires inbox[n] == Some(Command.StopAndExit) && StoppedFrom(more, |t|, state)
    ensures RunLaw(more, inbox, run, true)
  {
    StartedStays(t, more, inbox, run, run.turns);
    TurnedStays(t, more, inbox[run.first..n], run.begin, run.start, run.turns);
  }

  lemma RunGoesOn(t: seq<Action>, inbox: seq<Option<Command>>, run: Run, n: nat, state: State)
    requires SoFar(t, inbox, run, n, state) && n == |inbox|
    ensures RunLaw(t, inbox, run, false)
  {
  }

  // ---------- How the set-up goes on ----------

  ghost predicate NotLoadedYet(t: seq<Action>, inbox: seq<Option<Command>>, turn: nat) {
    turn <= |inbox| &&
    forall commands {:trigger SetUpLaw(t, commands)} :: commands == Handed(inbox[..turn]) ==> SetUpLaw(t, commands)
  }

  ghost predicate SettingsLoaded(t: seq<Action>, inbox: seq<Option<Command>>, turn: nat) {
    t != [] && NotLoadedYet(t[..|t| - 1], inbox, turn) && t[|t| - 1].Loaded?
  }

  ghost predicate NotLoadedFor(t: seq<Action>, inbox: seq<Option<Command>>, stopped: bool) {
    forall s {:trigger NeverLoaded(t, inbox, s)} :: s == stopped ==> NeverLoaded(t, inbox, s)
  }

  function NotLoaded(left: bool, shown: bool): seq<Action> {
    [LoadFailed, AppShown(left), FailureShown(FailureCode.StartFailed, shown)]
  }

  lemma LoadedNow(t: seq<Action>, inbox: seq<Option<Command>>, turn: nat, port: Option<nat>)
    requires NotLoadedYet(t, inbox, turn)
    ensures SettingsLoaded(t + [Loaded(port)], inbox, turn)
  {
    var s := t + [Loaded(port)];
    assert s[..|s| - 1] == t;
  }

  lemma NotLoadedAgain(t: seq<Action>, inbox: seq<Option<Command>>, from: nat, to: nat, left: bool, shown: bool)
    requires NotLoadedYet(t, inbox, from) && from <= to < |inbox| && inbox[to].Some?
    requires forall k :: from <= k < to ==> inbox[k].None?
    ensures NotLoadedYet(t + NotLoaded(left, shown) + [Received(inbox[to].value)], inbox, to + 1)
  {
    var commands := Handed(inbox[..from]);
    var n := |commands|;
    assert SetUpLaw(t, commands);
    HandedNext(inbox, from, to);
    var s := t + NotLoaded(left, shown) + [Received(inbox[to].value)];
    assert s[..4 * n] == t && (commands + [inbox[to].value])[..n] == commands;
    assert SetUpLaw(s, commands + [inbox[to].value]);
  }

  lemma NoMoreCommands(t: seq<Action>, inbox: seq<Option<Command>>, from: nat, left: bool, shown: bool)
    requires NotLoadedYet(t, inbox, from) && forall k :: from <= k < |inbox| ==> inbox[k].None?
    ensures NotLoadedFor(t + NotLoaded(left, shown), inbox, false)
  {
    HandedSkips(inbox, from, |inbox|);
    assert SetUpLaw(t, Handed(inbox[..from])) && inbox[..|inbox|] == inbox;
    var s := t + NotLoaded(left, shown);
    assert s[..|s| - 3] == t && NeverLoaded(s, inbox, false);
  }

  lemma StopBeforeStart(t: seq<Action>, inbox: seq<Option<Command>>, turn: nat)
    requires NotLoadedYet(t, inbox, turn) && 0 < turn && inbox[turn - 1] == Some(Command.StopAndExit)
    ensures NotLoadedFor(t + [ExitCalled(0)], inbox, true)
  {
    var s, n := t + [ExitCalled(0)], turn - 1;
    assert s[..|s| - 1] == t && SetUpLaw(t, Handed(inbox[..n + 1]));
    assert NeverLoaded(s, inbox, true);
  }

  lemma FirstStart(loaded: seq<Action>, t: seq<Action>, inbox: seq<Option<Command>>, run: Run)
    requires SettingsLoaded(loaded, inbox, run.first) && run.first <= |inbox| && loaded <= t
    requires run.begin == |t| && run.turns == [] && run.setup == |loaded| - 1
    requires StartFrom(t, |loaded|, false, run.start)
    ensures SoFar(t, inbox, run, run.first, run.start)
  {
    assert t[..run.setup] == loaded[..run.setup] && t[..run.begin] == t && t[run.setup] == loaded[run.setup];
    assert SetUpLaw(loaded[..run.setup], Handed(inbox[..run.first]));
  }
}
