/** What a run of the desktop supervisor does to the outside world, as a sequence of actions, and the rules
    every such sequence must follow. `Replay` reads a trace action by action; the lemmas say what an
    accepted trace means. */
module DesktopTrace {
  import opened Wrappers
  import opened Protocol
  import opened Verdicts
  import opened Lifecycle

  /** What waiting on the child can show. */
  datatype Observation =
    | Line(said: Verdict)   // a line of standard output, as the host reads it
    | Noise(bytes: string)
    | Terminated
    | Broken
    | Silence
    | ReceiveFailed

  datatype Action =
    | LoadFailed
    | Loaded(loaded: Option<nat>)
    | Received(command: Command)
    | TokenDrawn(drawn: string)
    | TokenFailed
    | Spawned(port: nat, pid: Option<nat>)
    | InitSent(token: string, ok: bool)
    | Armed(deadline: Option<nat>)
    | Observed(until: nat, seen: Observation)
    | Logged(ok: bool)
    | Probed(origin: Origin, ok: bool)
    | Saved(saved: Option<nat>, ok: bool)
    | CookieSet(origin: Origin, token: string, ok: bool)
    | CookieCleared(origin: Origin, ok: bool)
    | SidecarShown(origin: Origin, ok: bool)
    | AppShown(ok: bool)
    | FailureShown(code: FailureCode, ok: bool)
    | FailedWith(code: FailureCode, at: nat)
    | StopBegan(origin: Origin, deadline: Option<nat>)
    | ShutdownAsked(origin: Origin, token: string, until: nat, ok: bool)
    | ShutdownSkipped(at: nat)               // the stop has no deadline or is past it
    | PortAsked(origin: Origin, answer: Option<bool>)
    | Killed(child: nat, at: nat, ok: bool)   // the handle is given up whatever the answer
    | ExitCalled(status: nat)

  /** How far the session of the latest spawn has come. */
  datatype Session =
    | NoSession
    | Alive
    | Greeted(token: string)
    | Healthy(token: string, origin: Origin)
    | Stored(token: string, origin: Origin)
    | Cookied(token: string, origin: Origin)
    | Open(token: string, origin: Origin)

  /** What the rules look at: each field is a fold of the trace by its own step function. */
  datatype Monitor = Monitor(
    ok: bool,
    port: Option<nat>,          // of the settings, as last loaded or handed over to be saved
    live: Option<nat>,          // the child handle held
    session: Session,
    deadline: Option<nat>,      // of the start, then of the stop
    cookie: bool,               // the session cookie may be set
    clears: bool,               // no cookie clear has failed
    cleared: Option<bool>,      // how the last cookie clear went, None since the cookie was set
    said: seq<Verdict>,         // standard output since the latest spawn
    last: Option<Action>,       // the latest action other than a cookie clear
    failure: Option<FailureCode>,
    command: Option<Command>,
    stop: StopProgress,
    exited: bool)

  /** What became of the request to shut down. */
  datatype Request = Undecided | Skipped | Refused | Agreed

  datatype StopProgress = NotStopping | StoppingAt(at: Origin, request: Request, cleared: bool, released: bool)

  /** A stop has begun and the shutdown was neither asked for nor skipped. */
  predicate MustAsk(s: StopProgress) {
    s.StoppingAt? && s.request.Undecided?
  }

  function SessionOrigin(s: Session): Option<Origin> {
    if s.NoSession? || s.Alive? || s.Greeted? then None else Some(s.origin)
  }

  function MapSidecarError(code: SidecarErrorCode): FailureCode {
    match code
    case InitInvalid => FailureCode.InitInvalid
    case ConfigInvalid => FailureCode.ConfigInvalid
    case PortUnavailable => FailureCode.PortUnavailable
    case StartFailed => FailureCode.StartFailed
  }

  predicate Reports(a: Option<Action>, code: FailureCode) {
    && a.Some? && a.value.Observed? && a.value.seen.Line?
    && match a.value.seen.said {
         case Ok(Some(Error(sidecar))) => MapSidecarError(sidecar) == code
         case _ => false
       }
  }

  /** The latest step failed. */
  predicate Faulty(a: Option<Action>) {
    && a.Some?
    && match a.value {
         case TokenFailed => true
         case Spawned(_, pid) => pid.None?
         case InitSent(_, ok) => !ok
         case Observed(_, seen) => seen.Broken? || seen.ReceiveFailed? || Reports(a, FailureCode.StartFailed)
         case Logged(ok) => !ok
         case Probed(_, ok) => !ok
         case Saved(_, ok) => !ok
         case CookieSet(_, _, ok) => !ok
         case SidecarShown(_, ok) => !ok
         case AppShown(ok) => !ok
         case _ => false
       }
  }

  /** A failure code tells the user what was observed, and nothing else. */
  predicate Justified(m: Monitor, code: FailureCode, at: nat) {
    match code
    case InitInvalid => !Clean(m.said)
    case ConfigInvalid => Reports(m.last, code)
    case PortUnavailable => Reports(m.last, code)
    case StartFailed => Faulty(m.last)
    case Exited => m.last.Some? && m.last.value.Observed? && m.last.value.seen.Terminated?
    case StartupTimeout => m.session.Greeted? && (m.deadline.None? || m.deadline.value <= at)
  }

  predicate Allowed(m: Monitor, a: Action) {
    Rule(m, a) && (MustAsk(m.stop) ==> a.ShutdownAsked? || a.ShutdownSkipped?)
  }

  predicate Rule(m: Monitor, a: Action) {
    match a
    case LoadFailed => true
    case Loaded(_) => true
    case Received(_) => m.command != Some(StopAndExit)
    case TokenDrawn(_) => true
    case TokenFailed => true
    case Spawned(port, _) => m.live.None? && m.stop.NotStopping? && port == m.port.GetOr(0)
    case InitSent(_, _) => m.live.Some? && m.session.Alive?
    case Armed(_) => m.session.Greeted?
    case Observed(until, _) => m.live.Some? && (m.deadline.Some? ==> until <= m.deadline.value)
    case Logged(_) => true
    case Probed(_, _) => m.live.Some? && m.session.Greeted?
    case Saved(port, _) =>
      port.Some? ==> m.live.Some? && m.session.Healthy? && port == Some(m.session.origin.port)
    case CookieSet(origin, token, _) => m.live.Some? && m.session == Stored(token, origin)
    case CookieCleared(origin, _) => SessionOrigin(m.session) == Some(origin)
    case SidecarShown(origin, _) => m.live.Some? && m.session.Cookied? && m.session.origin == origin
    case AppShown(_) => true
    case FailureShown(code, _) => code == m.failure.GetOr(FailureCode.StartFailed)
    case FailedWith(code, at) => m.stop.NotStopping? && Justified(m, code, at)
    case StopBegan(origin, _) => m.stop.NotStopping? && m.session.Open? && m.session.origin == origin
    case ShutdownAsked(origin, token, until, _) =>
      m.session == Open(token, origin) && MustAsk(m.stop) && m.stop.at == origin && m.deadline == Some(until)
    case ShutdownSkipped(at) =>
      MustAsk(m.stop) && (m.deadline.None? || m.deadline.value < at)
    case PortAsked(origin, _) => m.stop.StoppingAt? && m.stop.at == origin && m.stop.cleared
    case Killed(child, at, _) =>
      m.live == Some(child) &&
      (m.stop.StoppingAt? && m.stop.request.Agreed? ==> m.deadline.Some? && m.deadline.value <= at)
    case ExitCalled(status) =>
      && m.command == Some(StopAndExit)
      && status <= 1
      && (status == 0 ==> m.live.None? && (m.stop.StoppingAt? ==> m.stop.cleared && m.stop.released))
      && (status == 1 ==> m.stop.StoppingAt? && !(m.stop.cleared && m.stop.released))
  }

  function PortStep(port: Option<nat>, a: Action): Option<nat> {
    match a
    case Loaded(loaded) => loaded
    case Saved(saved, _) => saved
    case _ => port
  }

  function LiveStep(live: Option<nat>, a: Action): Option<nat> {
    match a
    case Spawned(_, pid) => pid
    case Observed(_, Terminated) => None
    case Killed(_, _, _) => None
    case _ => live
  }

  function SessionStep(s: Session, a: Action): Session {
    match a
    case Spawned(_, pid) => if pid.Some? then Alive else NoSession
    case InitSent(token, ok) => if ok && s.Alive? then Greeted(token) else s
    case Probed(origin, ok) => if ok && s.Greeted? then Healthy(s.token, origin) else s
    case Saved(port, ok) => if ok && port.Some? && s.Healthy? then Stored(s.token, s.origin) else s
    case CookieSet(_, _, ok) => if ok && s.Stored? then Cookied(s.token, s.origin) else s
    case SidecarShown(_, ok) => if ok && s.Cookied? then Open(s.token, s.origin) else s
    case _ => s
  }

  function DeadlineStep(d: Option<nat>, a: Action): Option<nat> {
    match a
    case Spawned(_, _) => None
    case Armed(deadline) => deadline
    case SidecarShown(_, ok) => if ok then None else d
    case FailedWith(_, _) => None
    case StopBegan(_, deadline) => deadline
    case _ => d
  }

  function CookieStep(cookie: bool, a: Action): bool {
    if a.CookieSet? then true else if a.CookieCleared? then cookie && !a.ok else cookie
  }

  function ClearsStep(clears: bool, a: Action): bool {
    if a.CookieCleared? then clears && a.ok else clears
  }

  function ClearedStep(cleared: Option<bool>, a: Action): Option<bool> {
    match a
    case CookieSet(_, _, _) => None
    case CookieCleared(_, ok) => Some(ok)
    case _ => cleared
  }

  function SaidStep(said: seq<Verdict>, a: Action): seq<Verdict> {
    if a.Spawned? then []
    else if a.Observed? && a.seen.Line? then said + [a.seen.said]
    else said
  }

  function LastStep(last: Option<Action>, a: Action): Option<Action> {
    if a.CookieCleared? then last else Some(a)
  }

  function FailureStep(failure: Option<FailureCode>, a: Action): Option<FailureCode> {
    if a.FailedWith? then Some(a.code) else failure
  }

  function CommandStep(command: Option<Command>, a: Action): Option<Command> {
    if a.Received? then Some(a.command) else command
  }

  function StopStep(s: StopProgress, a: Action): StopProgress {
    match a
    case StopBegan(origin, _) => StoppingAt(origin, Undecided, false, false)
    case ShutdownAsked(_, _, _, ok) => if s.StoppingAt? then s.(request := if ok then Agreed else Refused) else s
    case ShutdownSkipped(_) => if s.StoppingAt? then s.(request := Skipped) else s
    case CookieCleared(_, ok) => if s.StoppingAt? && ok then s.(cleared := true) else s
    case PortAsked(_, answer) => if s.StoppingAt? then s.(released := answer == Some(true)) else s
    case _ => s
  }

  function ExitedStep(exited: bool, a: Action): bool {
    exited || a.ExitCalled?
  }

  function Step(m: Monitor, a: Action): Monitor {
    Monitor(m.ok && !m.exited && Allowed(m, a), PortStep(m.port, a), LiveStep(m.live, a), SessionStep(m.session, a),
            DeadlineStep(m.deadline, a), CookieStep(m.cookie, a), ClearsStep(m.clears, a), ClearedStep(m.cleared, a),
            SaidStep(m.said, a), LastStep(m.last, a), FailureStep(m.failure, a), CommandStep(m.command, a),
            StopStep(m.stop, a), ExitedStep(m.exited, a))
  }

  function Fold<S>(step: (S, Action) -> S, start: S, trace: seq<Action>): S {
    if trace == [] then start else step(Fold(step, start, trace[..|trace| - 1]), trace[|trace| - 1])
  }

  // What a trace leaves behind, field by field.
  function PortAfter(t: seq<Action>): Option<nat> { Fold(PortStep, None, t) }
  function LiveAfter(t: seq<Action>): Option<nat> { Fold(LiveStep, None, t) }
  function SessionAfter(t: seq<Action>): Session { Fold(SessionStep, NoSession, t) }
  function DeadlineAfter(t: seq<Action>): Option<nat> { Fold(DeadlineStep, None, t) }
  function CookieAfter(t: seq<Action>): bool { Fold(CookieStep, false, t) }
  function ClearsAfter(t: seq<Action>): bool { Fold(ClearsStep, true, t) }
  function ClearedAfter(t: seq<Action>): Option<bool> { Fold(ClearedStep, None, t) }
  function SaidAfter(t: seq<Action>): seq<Verdict> { Fold(SaidStep, [], t) }
  function LastAfter(t: seq<Action>): Option<Action> { Fold(LastStep, None, t) }
  function FailureAfter(t: seq<Action>): Option<FailureCode> { Fold(FailureStep, None, t) }
  function CommandAfter(t: seq<Action>): Option<Command> { Fold(CommandStep, None, t) }
  function StopAfter(t: seq<Action>): StopProgress { Fold(StopStep, NotStopping, t) }
  function ExitedAfter(t: seq<Action>): bool { Fold(ExitedStep, false, t) }

  function View(t: seq<Action>, ok: bool): Monitor {
    Monitor(ok, PortAfter(t), LiveAfter(t), SessionAfter(t), DeadlineAfter(t), CookieAfter(t), ClearsAfter(t),
            ClearedAfter(t), SaidAfter(t), LastAfter(t), FailureAfter(t), CommandAfter(t), StopAfter(t), ExitedAfter(t))
  }

  /** Every action of the trace was allowed when it was done. */
  predicate Accepted(t: seq<Action>) {
    forall i :: 0 <= i < |t| ==> AllowedAt(t, i)
  }

  predicate AllowedAt(t: seq<Action>, i: nat)
    requires i < |t|
  {
    var m := View(t[..i], true);
    !m.exited && Allowed(m, t[i])
  }

  function Replay(t: seq<Action>): Monitor {
    View(t, Accepted(t))
  }

  lemma FoldLast<S>(step: (S, Action) -> S, start: S, t: seq<Action>, a: Action)
    ensures Fold(step, start, t + [a]) == step(Fold(step, start, t), a)
  {
    assert (t + [a])[..|t|] == t;
  }

  lemma AcceptedLast(t: seq<Action>, a: Action)
    ensures Accepted(t + [a]) <==> Accepted(t) && !ExitedAfter(t) && Allowed(View(t, true), a)
  {
    var s := t + [a];
    assert forall i :: 0 <= i < |t| ==> s[..i] == t[..i] && s[i] == t[i];
    assert s[..|t|] == t && s[|t|] == a;
    if Accepted(s) {
      forall i | 0 <= i < |t| ensures AllowedAt(t, i) { assert AllowedAt(s, i); }
      assert AllowedAt(s, |t|);
    } else if Accepted(t) && !ExitedAfter(t) && Allowed(View(t, true), a) {
      forall i | 0 <= i < |s| ensures AllowedAt(s, i) {
        if i < |t| { assert AllowedAt(t, i); }
      }
    }
  }

  lemma ReplayLast(t: seq<Action>, a: Action)
    ensures Replay(t + [a]) == Step(Replay(t), a)
  {
    FoldLast(PortStep, None, t, a);
    FoldLast(LiveStep, None, t, a);
    FoldLast(SessionStep, NoSession, t, a);
    FoldLast(DeadlineStep, None, t, a);
    FoldLast(CookieStep, false, t, a);
    FoldLast(ClearsStep, true, t, a);
    FoldLast(ClearedStep, None, t, a);
    FoldLast(SaidStep, [], t, a);
    FoldLast(LastStep, None, t, a);
    FoldLast(FailureStep, None, t, a);
    FoldLast(CommandStep, None, t, a);
    FoldLast(StopStep, NotStopping, t, a);
    FoldLast(ExitedStep, false, t, a);
    AcceptedLast(t, a);
    AllowedIgnoresOk(Replay(t), a);
  }

  lemma AllowedIgnoresOk(m: Monitor, a: Action)
    ensures Allowed(m, a) == Allowed(m.(ok := true), a)
  {
  }

  // ---------- What an accepted trace means ----------

  lemma AcceptedPrefix(t: seq<Action>, n: nat)
    requires Accepted(t) && n <= |t|
    ensures Accepted(t[..n])
    ensures n < |t| ==> !ExitedAfter(t[..n]) && Allowed(View(t[..n], true), t[n])
  {
    forall i | 0 <= i < n ensures AllowedAt(t[..n], i) {
      assert t[..n][..i] == t[..i] && AllowedAt(t, i);
    }
    if n < |t| {
      assert AllowedAt(t, n);
    }
  }

  predicate NoSpawnBetween(trace: seq<Action>, from: nat, to: nat)
    requires to <= |trace|
  {
    forall k :: from < k < to ==> !trace[k].Spawned?
  }

  /** Where the steps of the current session stand in the trace. */
  datatype Marks = Marks(spawn: nat, greet: nat, probe: nat, save: nat, cookie: nat, open: nat)

  predicate Spawn(t: seq<Action>, k: nat) { k < |t| && t[k].Spawned? && t[k].pid.Some? && NoSpawnBetween(t, k, |t|) }
  predicate Greet(t: seq<Action>, k: nat, token: string) { k < |t| && t[k] == InitSent(token, true) }
  predicate Probe(t: seq<Action>, k: nat, o: Origin) { k < |t| && t[k] == Probed(o, true) }
  predicate Save(t: seq<Action>, k: nat, o: Origin) { k < |t| && t[k] == Saved(Some(o.port), true) }
  predicate Cookie(t: seq<Action>, k: nat, token: string, o: Origin) { k < |t| && t[k] == CookieSet(o, token, true) }
  predicate Show(t: seq<Action>, k: nat, o: Origin) { k < |t| && t[k] == SidecarShown(o, true) }

  /** The steps a session has passed stand in order after the latest spawn. */
  predicate Marked(t: seq<Action>, s: Session, m: Marks) {
    && (!s.NoSession? ==> Spawn(t, m.spawn))
    && (!s.NoSession? && !s.Alive? ==> m.spawn < m.greet && Greet(t, m.greet, s.token))
    && (SessionOrigin(s).Some? ==> m.greet < m.probe && Probe(t, m.probe, s.origin))
    && (s.Stored? || s.Cookied? || s.Open? ==> m.probe < m.save && Save(t, m.save, s.origin))
    && (s.Cookied? || s.Open? ==> m.save < m.cookie && Cookie(t, m.cookie, s.token, s.origin))
    && (s.Open? ==> m.cookie < m.open && Show(t, m.open, s.origin))
  }

  function Mark(m: Marks, a: Action, n: nat): Marks {
    match a
    case Spawned(_, _) => m.(spawn := n)
    case InitSent(_, _) => m.(greet := n)
    case Probed(_, _) => m.(probe := n)
    case Saved(port, ok) => m.(save := n)
    case CookieSet(_, _, _) => m.(cookie := n)
    case SidecarShown(_, _) => m.(open := n)
    case _ => m
  }

  lemma MarkedStays(t: seq<Action>, a: Action, s: Session, m: Marks)
    requires Marked(t, s, m) && !a.Spawned?
    ensures Marked(t + [a], s, m)
  {
    assert forall k :: 0 <= k < |t| ==> (t + [a])[k] == t[k];
  }

  lemma MarkedStep(t: seq<Action>, a: Action, m: Monitor, marks: Marks)
    requires Marked(t, m.session, marks) && Allowed(m, a)
    requires a.Spawned? || SessionStep(m.session, a) != m.session
    ensures Marked(t + [a], SessionStep(m.session, a), Mark(marks, a, |t|))
  {
    var s := t + [a];
    assert s[|t|] == a;
    assert forall k :: 0 <= k < |t| ==> s[k] == t[k];
    if !a.Spawned? {
      MarkedStays(t, a, m.session, marks);
    }
  }

  lemma {:induction false} SessionMarks(t: seq<Action>) returns (m: Marks)
    requires Accepted(t)
    ensures Marked(t, SessionAfter(t), m)
  {
    m := Marks(0, 0, 0, 0, 0, 0);
    if t != [] {
      var n := |t| - 1;
      var front, a := t[..n], t[n];
      AcceptedPrefix(t, n);
      m := SessionMarks(front);
      assert t == front + [a];
      FoldLast(SessionStep, NoSession, front, a);
      if a.Spawned? || SessionStep(SessionAfter(front), a) != SessionAfter(front) {
        MarkedStep(front, a, View(front, true), m);
        m := Mark(m, a, n);
      } else {
        MarkedStays(front, a, SessionAfter(front), m);
      }
    }
  }

  predicate InOrder(t: seq<Action>, i: nat, m: Marks, token: string, o: Origin) {
    && m.spawn < m.greet < m.probe < m.save < m.cookie < i <= |t|
    && t[m.spawn].Spawned? && t[m.spawn].pid.Some? && NoSpawnBetween(t, m.spawn, i)
    && t[m.greet] == InitSent(token, true)
    && t[m.probe] == Probed(o, true)
    && t[m.save] == Saved(Some(o.port), true)
    && t[m.cookie] == CookieSet(o, token, true)
  }

  /** Every time the sidecar page is shown: since the latest spawn the child was given its token, its health
      was probed, its port was saved and the cookie was set with that same token, in this order. */
  lemma SidecarShownInOrder(t: seq<Action>, i: nat)
    requires Accepted(t) && i < |t| && t[i].SidecarShown?
    ensures exists m, token :: InOrder(t, i, m, token, t[i].origin)
  {
    AcceptedPrefix(t, i);
    var m := SessionMarks(t[..i]);
    var token := SessionAfter(t[..i]).token;
    assert InOrder(t, i, m, token, t[i].origin);
  }

  /** A graceful shutdown is asked of the origin on show, with the token its child was started with. */
  lemma ShutdownUsesSessionToken(t: seq<Action>, i: nat)
    requires Accepted(t) && i < |t| && t[i].ShutdownAsked?
    ensures exists m ::
      InOrder(t, i, m, t[i].token, t[i].origin) && m.cookie < m.open < i && t[m.open] == SidecarShown(t[i].origin, true)
  {
    AcceptedPrefix(t, i);
    var m := SessionMarks(t[..i]);
    assert InOrder(t, i, m, t[i].token, t[i].origin);
  }

  lemma {:induction false} CommandReceived(t: seq<Action>)
    requires CommandAfter(t).Some?
    ensures exists r: nat :: r < |t| && t[r] == Received(CommandAfter(t).value) &&
                        forall k :: r < k < |t| ==> !t[k].Received?
  {
    var n := |t| - 1;
    if !t[n].Received? {
      CommandReceived(t[..n]);
      var r: nat :| r < n && t[..n][r] == Received(CommandAfter(t).value) && forall k :: r < k < n ==>
        !t[..n][k].Received?;
      assert t[r] == Received(CommandAfter(t).value) && forall k :: r < k < n ==> t[k] == t[..n][k];
    }
  }

  /** The process exits once, as its very last action, and only for a StopAndExit. */
  lemma ExitEndsTheRun(t: seq<Action>, i: nat)
    requires Accepted(t) && i < |t| && t[i].ExitCalled?
    ensures i == |t| - 1
    ensures exists r: nat :: r < i && t[r] == Received(StopAndExit) && forall k :: r < k < i ==> !t[k].Received?
  {
    AcceptedPrefix(t, i);
    AcceptedPrefix(t, i + 1);
    assert t[..i + 1][..i] == t[..i];
    CommandReceived(t[..i]);
    var r: nat :| r < i && t[..i][r] == Received(StopAndExit) && forall k :: r < k < i ==> !t[..i][k].Received?;
    assert t[r] == Received(StopAndExit) && forall k :: r < k < i ==> t[k] == t[..i][k];
  }

  /** `b` began the stop; a cookie clear at `c` and a port probe at `p` answered since. */
  predicate StopSteps(t: seq<Action>, o: Origin, b: nat, c: nat, p: nat) {
    && b < c < p < |t| && t[b].StopBegan? && t[b].origin == o
    && t[c].CookieCleared? && t[c].ok && t[p] == PortAsked(o, Some(true))
  }

  lemma {:induction false} StopMarks(t: seq<Action>) returns (b: nat, c: nat, p: nat)
    requires Accepted(t) && StopAfter(t).StoppingAt?
    ensures b < |t| && t[b].StopBegan? && t[b].origin == StopAfter(t).at
    ensures forall k :: b < k < |t| ==> !t[k].StopBegan?
    ensures StopAfter(t).cleared ==> b < c < |t| && t[c].CookieCleared? && t[c].ok
    ensures StopAfter(t).released ==> StopAfter(t).cleared
    ensures StopAfter(t).released ==> StopSteps(t, StopAfter(t).at, b, c, p)
  {
    var n := |t| - 1;
    var a := t[n];
    AcceptedPrefix(t, n);
    if a.StopBegan? {
      b, c, p := n, 0, 0;
    } else {
      b, c, p := StopMarks(t[..n]);
      if a.CookieCleared? && a.ok && !StopAfter(t[..n]).cleared {
        c := n;
      } else if a.PortAsked? {
        p := n;
      }
    }
  }

  lemma {:induction false} StopIsRemembered(t: seq<Action>, b: nat)
    requires b < |t| && t[b].StopBegan?
    ensures StopAfter(t).StoppingAt?
  {
    var n := |t| - 1;
    if b < n {
      StopIsRemembered(t[..n], b);
    }
  }

  /** Exit status 0 out of a ready session: the cookie was cleared and then the port was seen free. */
  lemma CleanExitIsClean(t: seq<Action>, i: nat)
    requires Accepted(t) && i < |t| && t[i] == ExitCalled(0)
    ensures (exists b: nat :: b < i && t[b].StopBegan?) ==>
              exists o, b: nat, c: nat, p: nat :: StopSteps(t[..i], o, b, c, p) && forall k :: b < k < i ==>
                !t[k].StopBegan?
  {
    AcceptedPrefix(t, i);
    var front := t[..i];
    if b0: nat :| b0 < i && t[b0].StopBegan? {
      StopIsRemembered(front, b0);
      var b, c, p := StopMarks(front);
      assert StopSteps(front, StopAfter(front).at, b, c, p);
    }
  }

  /** The latest stop went well: its cookie was cleared, and the last probe after that saw the port free. */
  predicate StoppedCleanly(t: seq<Action>, o: Origin, b: nat, c: nat, p: nat) {
    && StopSteps(t, o, b, c, p)
    && (forall k :: b < k < |t| ==> !t[k].StopBegan?)
    && (forall k :: p < k < |t| ==> !t[k].PortAsked?)
  }

  lemma {:induction false} ClearStays(t: seq<Action>, b: nat, c: nat)
    requires b < c < |t| && t[b].StopBegan? && t[c].CookieCleared? && t[c].ok
    requires forall k :: b < k < |t| ==> !t[k].StopBegan?
    ensures StopAfter(t).StoppingAt? && StopAfter(t).cleared
  {
    var n := |t| - 1;
    StopIsRemembered(t[..n], b);
    if c < n {
      ClearStays(t[..n], b, c);
    }
  }

  lemma {:induction false} CleanStopIsRemembered(t: seq<Action>, o: Origin, b: nat, c: nat, p: nat)
    requires StoppedCleanly(t, o, b, c, p)
    ensures StopAfter(t).StoppingAt? && StopAfter(t).cleared && StopAfter(t).released
  {
    var n := |t| - 1;
    ClearStays(t, b, c);
    StopIsRemembered(t[..n], b);
    if p < n {
      CleanStopIsRemembered(t[..n], o, b, c, p);
    }
  }

  lemma {:induction false} LastProbe(t: seq<Action>) returns (b: nat, c: nat, p: nat)
    requires Accepted(t) && StopAfter(t).StoppingAt? && StopAfter(t).released
    ensures StoppedCleanly(t, StopAfter(t).at, b, c, p)
  {
    var n := |t| - 1;
    AcceptedPrefix(t, n);
    if t[n].PortAsked? {
      b, c, p := StopMarks(t);
      p := n;
    } else {
      b, c, p := LastProbe(t[..n]);
    }
  }

  lemma {:induction false} NoStop(t: seq<Action>)
    requires forall b: nat :: b < |t| ==> !t[b].StopBegan?
    ensures StopAfter(t).NotStopping?
  {
    if t != [] {
      NoStop(t[..|t| - 1]);
    }
  }

  /** The exit status is 0 exactly when no stop was begun, because no session was on show, or when it went well;
      otherwise it is 1. */
  lemma ExitStatusTells(t: seq<Action>, i: nat)
    requires Accepted(t) && i < |t| && t[i].ExitCalled?
    ensures t[i].status == 0 <==>
      (forall b: nat :: b < i ==> !t[b].StopBegan?) || exists o, b: nat, c: nat, p: nat ::
        StoppedCleanly(t[..i], o, b, c, p)
    ensures t[i].status == 0 || t[i].status == 1
  {
    AcceptedPrefix(t, i);
    var front := t[..i];
    if b0: nat :| b0 < i && t[b0].StopBegan? {
      StopIsRemembered(front, b0);
      if t[i].status == 0 {
        var b, c, p := LastProbe(front);
      } else if o, b: nat, c: nat, p: nat :| StoppedCleanly(front, o, b, c, p) {
        CleanStopIsRemembered(front, o, b, c, p);
      }
    } else {
      NoStop(front);
    }
  }

  /** Standard output of the latest child. */
  function OutputSinceSpawn(t: seq<Action>): seq<Verdict> {
    if t == [] || t[|t| - 1].Spawned? then []
    else OutputSinceSpawn(t[..|t| - 1]) +
         match t[|t| - 1] { case Observed(_, Line(said)) => [said] case _ => [] }
  }

  lemma {:induction false} LinesAreOutput(t: seq<Action>)
    ensures SaidAfter(t) == OutputSinceSpawn(t)
  {
    if t != [] {
      LinesAreOutput(t[..|t| - 1]);
    }
  }

  /** A host fed with clean output never reports an invalid handshake. */
  lemma CleanOutputIsNeverInvalid(t: seq<Action>, i: nat)
    requires Accepted(t) && i < |t| && t[i].FailedWith?
    requires Clean(Controls(OutputSinceSpawn(t[..i])))
    ensures t[i].code != FailureCode.InitInvalid
  {
    AcceptedPrefix(t, i);
    LinesAreOutput(t[..i]);
    CleanByControls(OutputSinceSpawn(t[..i]));
  }
}
