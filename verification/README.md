# Verified models of cy-kaf-client

This project models, in Dafny, the parts of cy-kaf-client whose behaviour is hardest to see from reading one function,
and proves what they promise over all inputs and all runs.

| component | files |
|---|---|
| Desktop supervisor and sidecar protocol | `Lifecycle`, `DesktopTrace`, `DesktopProcesses`, `DesktopLaws`, `HostIo`, `DesktopSupervisor`, `Protocol`, `Sidecar`, `Verdicts`, `DesktopHandshake`, `Base64` |
| Log of the sidecar's standard error | `SidecarLog`, `LogFaults`, `LogBounds`, `SidecarLogger` |
| KSQL result collector | `KsqlValue`, `KsqlBudget`, `KsqlGraph`, `KsqlJson`, `KsqlCollector`, `JsonText` |
| Classification of error trees | `ErrorTree` |
| Bounded message browse | `MessageBrowse` |
| Release publisher | `ReleasePublish` |
| Consumer groups: paging, order, lag | `Groups`, `GroupPaging`, `GroupLag`, `Sorting` |
| Role index and permission checks | `Permissions` |
| Names of duplicated clusters | `DuplicateName` |
| Shared | `Wrappers`, `Sequences`, `Decimal` |

`dafny verify dfyconfig.toml` checks everything.

## How the models work

**Supervisor.** `HostIo.Host` is the outside world. Each operation may succeed or fail as it likes, every reading of the
clock lets time pass, and a ghost trace records what was done. `DesktopTrace.Allowed` says when each action may be done; it
is a precondition of the operation that does it, so verifying `DesktopSupervisor.Supervisor` shows that every run, whatever
the commands, child events and failures, produces only accepted traces. The lemmas of `DesktopTrace` then say what an
accepted trace means, by position in the trace. `Supervisor.Inv` is what holds whenever the loop looks for a command: while
starting, the child, the token and the deadline are all there and nothing else has happened; in a ready session the token
is there, the deadline is not, the saved settings hold the session's port, and the child is there exactly unless the last
cookie clear, after an unexpected exit, failed; in every other state all three are gone, and so is the cookie unless clearing it
failed; the stopping state is never seen. `RunSupervisorLoop` runs the whole thread on any sequence of commands, and `DesktopLaws.RunLaw`
tells its trace turn by turn.

**Logger.** `SidecarLog` defines the log of a stream without any state: split it into lines, drop the lines that hold a
marker anywhere, cut the others to 16 KiB. `LogFaults` is what each byte does to the scanner and to the text written on a
disk that may fail at any operation: a rotation that stops half-way, a file that was moved away and cannot be opened again,
a line written in part. The logger stays in use after a failure, in the state the failed call left. The byte-at-a-time
class of `SidecarLogger` is proved to do exactly that, with any way of cutting the stream into chunks. Without failures it
writes the log of the stream. Whatever fails, its four files hold a final part of what was there followed by all that was
written.

**KSQL values.** A heap of slices and maps that may share and may be cyclic. `KsqlValue.Expand` is the tree a value stands
for; the budgeted copy is proved to give exactly that tree, to be charged exactly its size, and to fail only when there is
no tree or when the tree is not affordable. `KsqlGraph` says which values have a tree, in terms of walks through the heap.

## What the proofs brought to light

- A sidecar that listens on port 80 is rejected by the host, because parsing the origin as a URL drops the default port
  (`Sidecar.ReadyRoundTrip`).
- The sidecar accepts tokens that the host would not: its decoder skips CR and LF. The two agree on a token exactly when it
  holds neither (`Sidecar.AcceptedTokens`). The host never sends such a token.
- Collecting consumer groups asks for a smaller last page, whose offset then counts in smaller pages. With a limit above 100
  that is no multiple of 100, fewer groups are collected than there are and than were asked for: 100 of 300 at a limit of 150
  (`GroupPaging.ShortPageLosesGroups`). `GroupPaging.TakesAllItems` says exactly when nothing is lost. The catalog's limit of
  500 is not affected.
- A failed log write can let a marker through. `finish_line` cuts the final CR off what is pending before it writes, and a
  failed call leaves that pending, while the window the scanner looks at still has the CR. So `CY_KAF_IN`, CR, a line feed
  whose write fails, `IT` and a line feed write `CY_KAF_INIT` (`LogFaults.InitMarkerSlipsThrough`; any marker, cut
  anywhere: `LogFaults.ReturnHidesMarker`). A line written in part does the same (`LogFaults.TornLineHidesMarker`).
  `LogFaults.HarmlessExactly` says exactly which failures can lead to this. The text meant is that of all files read in
  order: the two parts of a marker may stand in two files, when a rotation came between them.
- The size the logger remembers is the size of its file, except exactly when a line was written in part or the file was
  moved away and no other could be opened, and no rotation has succeeded since (`LogFaults.SizeIsExact`, `LogFaults.LostFileKeepsItsSize`). A line written
  in part can take the file over 2 MiB (`LogFaults.TornLineOverfills`), and nothing else can (`LogBounds.BoundedExactly`,
  `LogBounds.FailureOverfillsExactly`). The same goes for a text that ends inside a line (`LogBounds.EndsInsideExactly`).
- After a rotation that failed no log file is open, and it stays so until a line is long enough to rotate again, about
  16 KiB. Until then every line fails and is joined to the next (`LogBounds.ShutUntilRotation`,
  `LogBounds.ShutLogJoinsLines`), so a sidecar fails as soon as it writes an ordinary line to standard error.
- Killing a child may fail, and the supervisor ignores that. At most one child handle ever exists, but after a start that
  fails, a kill that fails and a retry there are two processes (`DesktopProcesses.FailedKillLeavesTwo`,
  `DesktopProcesses.ChildEndsUnlessKillFails`).
- Cycle detection in the KSQL copy goes by the address of a slice's first element. A slice that holds an empty or shorter
  prefix of itself is rejected although nothing is cyclic (`KsqlGraph.AliasedPrefixIsRejected`). Values that come from a
  ksqlDB answer never look like this: `nodeToAny` (internal/infra/ksql/response.go:121-137) allocates every slice afresh.
- Lag conservation needs no assumption about overflow: in 64-bit arithmetic the topics, the detail rows and the total always
  agree (`GroupLag.LagIsConserved`). It does need the documented range of offsets; `GroupLag.ReadingsAgree` says exactly
  which offsets the projections read differently.
- After a failed cookie clear following an unexpected exit, the supervisor stays ready without a child. From there polling
  and starting change nothing; only stopping leads out (`DesktopSupervisor.Supervisor.HandleCommand`,
  `DesktopSupervisor.Supervisor.PollChild`).
- The last `return` of the duplicate-name search is never reached, nor is the last turn of its loop
  (`DuplicateName.NextDuplicateName`).

## Model

| member | source | states |
|---|---|---|
| Lifecycle.ReadyBelongsToLatestStart | desktop/src-tauri/src/lifecycle.rs:57-84 | In every run of the automaton a ready state is that of the latest start: a start was requested, nothing else was taken until its ready event, and nothing since; a stopping state keeps the pid of the ready state it stopped. |
| DesktopTrace.ReplayLast | desktop/src-tauri/src/host.rs:33-53 | Replaying one more action is one step of the monitor, so the monitor kept at run time is the meaning of the trace. |
| DesktopTrace.SidecarShownInOrder | desktop/src-tauri/src/host.rs:307-339 | Every time the sidecar page is shown: since the latest spawn, and in this order, the child was sent a token, its health was probed, the port of this origin was saved and the cookie was set with that token. |
| DesktopTrace.ShutdownUsesSessionToken | desktop/src-tauri/src/host.rs:389-413 | A graceful shutdown is only asked of the origin on show, with the token its own child was started with. |
| DesktopProcesses.OneHandleAtATime | desktop/src-tauri/src/host.rs:255-305 | At most one child handle exists: before another spawn the handle of the previous child was given up, by a kill or because it was seen to terminate. |
| DesktopProcesses.ChildEndsUnlessKillFails | desktop/src-tauri/src/host.rs:350-363 | Before another spawn a child has ended, if and only if killing it did not fail. |
| DesktopProcesses.FailedKillLeavesTwo | desktop/src-tauri/src/host.rs:350-363 | A concrete run (a start that fails, a kill that fails, a retry) after which the first process has not ended when the second is spawned. |
| DesktopProcesses.ChildrenEndBeforeExit | desktop/src-tauri/src/host.rs:389-426 | Before exit status 0 the handle of every child ever spawned was given up, and the child has ended if and only if killing it did not fail. |
| DesktopProcesses.ShutdownIsDecided | desktop/src-tauri/src/host.rs:389-413 | In every run that begins a stop the next thing done is to ask the origin on show to shut down, with the token the child on show was started with and until the deadline of the stop; it is left out only when the stop has no deadline or that has passed. |
| DesktopProcesses.KilledIffNotSeenToEnd | desktop/src-tauri/src/host.rs:389-426 | In every run that stops a session on show and exits with 0, the child held is killed if and only if it was not seen to terminate, and never before the one deadline of the stop, unless the sidecar refused to shut down or could not be asked in time. |
| DesktopTrace.ExitEndsTheRun | desktop/src-tauri/src/host.rs:476-529 | The exit is the very last action, happens at most once, and answers a StopAndExit that no other command followed. |
| DesktopTrace.CleanExitIsClean | desktop/src-tauri/src/host.rs:389-426 | Exit status 0 out of a ready session comes after a successful cookie clear and then a probe that saw the port released. |
| DesktopTrace.ExitStatusTells | desktop/src-tauri/src/host.rs:498-529 | The status of the exit is 0 or 1, and 0 exactly when no stop was begun, because no session was on show, or when the cookie was cleared and the last probe after that saw the port free. |
| DesktopTrace.LinesAreOutput | desktop/src-tauri/src/host.rs:213-252 | What the monitor remembers as said is the output observed since the latest spawn. |
| DesktopTrace.CleanOutputIsNeverInvalid | desktop/src-tauri/src/host.rs:213-252 | A host that saw at most one control line, all of them readable and none reporting a bad init line, never fails with InitInvalid. |
| Verdicts.CleanByControls | desktop/src-tauri/src/protocol.rs:87-111 | Ordinary output in between does not matter: output is clean exactly when its control lines are. |
| HostIo.Host.Receive | desktop/src-tauri/src/host.rs:26-31 | Waiting for the child takes no longer than asked by contract with the deadline, moves time forward, records the observation, and ends the child when it shows termination. |
| HostIo.Host.SaveSettings | desktop/src-tauri/src/host.rs:318-322 | The settings file is replaced as a whole or left alone; success means replaced; a port is only saved in a session that was found healthy on it. |
| DesktopSupervisor.Supervisor.constructor | desktop/src-tauri/src/host.rs:132-154 | A new supervisor is stopped, holds nothing and satisfies the invariant of the loop head. |
| DesktopSupervisor.Supervisor.HandleCommand | desktop/src-tauri/src/host.rs:160-181 | Out of stopped or failed, Start, Retry and a saved ReassignPort make a start attempt, told step by step on the trace; a port given up is saved as none first; commands a state does not take change nothing at all; all of these keep the loop invariant. StopAndExit ends in exit 0, or in an error out of a ready session whose last step is the one that failed. |
| DesktopSupervisor.Supervisor.PollChild | desktop/src-tauri/src/host.rs:183-253 | Keeps the loop invariant; without a child nothing changes; a start past its deadline has timed out; otherwise the child is observed, as long as asked or until the startup deadline, and what was seen decides the next state and the next steps. A failure is shown before the poll is over. |
| DesktopSupervisor.Supervisor.React | desktop/src-tauri/src/host.rs:204-252 | For each observation (silence, noise, a line, termination, a broken or failed channel) the states that may follow, and no others, with the steps taken for it. |
| DesktopSupervisor.Supervisor.ReactToLine | desktop/src-tauri/src/host.rs:213-241 | A ready line makes a starting supervisor ready on that origin or failed to start; each of the four error codes fails it with the code of the same name; anything but ordinary output fails a ready one as invalid. |
| DesktopSupervisor.Supervisor.Start | desktop/src-tauri/src/host.rs:255-305 | Only a stopped or failed supervisor starts. A restart leaves the failure page first; then a token is drawn, the child is spawned on the saved port, given that token, and the deadline is armed, the startup time from then. It is starting exactly when all of it worked; otherwise it failed right after the first step that did not, with the code for that step, and the failure was shown. |
| DesktopSupervisor.Supervisor.CompleteReady | desktop/src-tauri/src/host.rs:307-339 | Health probe, saving of the port, cookie and page follow in this order up to the first that fails; ready on the origin with the pid of the held child exactly when none does, else failed with everything undone and shown. |
| DesktopSupervisor.Supervisor.Fail | desktop/src-tauri/src/host.rs:350-363 | A failure clears the cookie of a session on show, kills the held child, drops token and deadline, leaves the sidecar page and shows its code, in that order. |
| DesktopSupervisor.Supervisor.HandleUnexpectedExit | desktop/src-tauri/src/host.rs:365-387 | The child is gone. In a ready session the cookie is cleared first; the state stays ready exactly when that clear fails, and is failed otherwise. |
| DesktopSupervisor.Supervisor.WaitForTermination | desktop/src-tauri/src/host.rs:428-449 | Ends on every clock that advances; true means the child was seen to terminate (or there was none), false means the deadline has passed and the child is still held; nothing is done meanwhile but watching and logging. |
| DesktopSupervisor.Supervisor.WaitForPortRelease | desktop/src-tauri/src/host.rs:451-466 | Ends on every clock that advances; it succeeds exactly when the last probe saw the port released, and gives up only on a probe that erred, without a deadline, or past it. |
| DesktopSupervisor.Supervisor.EndChild | desktop/src-tauri/src/host.rs:389-416 | The stop begins and the sidecar is asked to shut down, or that is skipped past the deadline; the child of a ready session is killed exactly when its termination was not seen, and then only because the shutdown was refused or the one deadline shared by request and wait has passed; an error is a failed log write or a failed channel. |
| DesktopSupervisor.Supervisor.StopAndExit | desktop/src-tauri/src/host.rs:389-426 | Out of other states: the held child is killed and the process exits with 0. Out of a ready session: the stop begins, the shutdown is asked for or skipped next, success is exit 0, and an error ends with the step that failed (waiting, clearing the cookie, or asking for the port); a live child is killed exactly when its termination was not seen. |
| DesktopSupervisor.RunSupervisorLoop | desktop/src-tauri/src/host.rs:476-529 | On every sequence of commands and every behaviour of the world the trace is accepted and is told turn by turn: settings are loaded or a failure is shown and a command awaited; then a start attempt; then, at each turn, the command handed over and what it leads to, and after it, whenever a child is held, one observation of it or the timeout of its start, with the reaction to it. The process exits exactly when a StopAndExit is among the commands, as the last action and with the status reported; 1 only right after the step of the stop that failed. |
| DesktopLaws.StartComesFirst | desktop/src-tauri/src/host.rs:512-512 | The first thing done once the settings are loaded is a start: a token is drawn and, if one was, a child is spawned next. |
| DesktopLaws.EveryTurnPolls | desktop/src-tauri/src/host.rs:514-528 | In every turn of every run the child, when one is held, is observed once the command is done with, or its start is found too late. |
| DesktopLaws.RetryStarts | desktop/src-tauri/src/host.rs:255-305 | In every run a retry of a failed start leaves the failure page, draws a token and spawns a child, up to the first of these that fails; it is starting only when the child was given that token. |
| Base64.DecodeEncode | desktop/src-tauri/src/protocol.rs:66-70 | Every byte string is read back from its URL-safe unpadded encoding (section 5 of RFC 4648). |
| Base64.EncodeDecode | desktop/src-tauri/src/protocol.rs:113-121 | Strict decoding (section 3.5 of RFC 4648) accepts only the canonical text of what it returns. |
| Base64.GroupIsANumber | desktop/src-tauri/src/protocol.rs:66-70 | Three bytes are a 24-bit number whose four digits to the base 64 are written (section 4 of RFC 4648). |
| Base64.LeftoverIsANumber | desktop/src-tauri/src/protocol.rs:66-70 | One or two bytes left over are padded with zero bits (section 4 of RFC 4648). |
| Protocol.TokenIsCanonical | desktop/src-tauri/src/protocol.rs:113-121 | A token is accepted exactly when it is the encoding of some 32 bytes, and of only one. |
| Protocol.OriginIsCanonical | desktop/src-tauri/src/protocol.rs:131-151 | An origin is accepted exactly when it is `http://127.0.0.1:` and a port without leading zeros from 1 to 65535 other than 80, with at most one final slash. |
| Protocol.ReadWrittenPayload | desktop/src-tauri/src/protocol.rs:72-85 | A payload written with any version, key and text is read back as that version and text. |
| Sidecar.HandshakeRoundTrip | cmd/cy-kaf-client/desktop_protocol.go:63-93 | For every 32-byte secret the host's init line is accepted by the sidecar's scanner with the same token, whatever follows it on the stream. |
| Sidecar.AcceptedTokens | cmd/cy-kaf-client/desktop_protocol.go:79-92 | The sidecar accepts exactly the texts that the host would accept once CR and LF are removed. |
| Sidecar.ReadyRoundTrip | cmd/cy-kaf-client/desktop_protocol.go:109-114 | For every port from 1 to 65535 the ready line is parsed back to its origin, except port 80, which is an invalid origin. |
| Sidecar.ErrorRoundTrip | cmd/cy-kaf-client/desktop_protocol.go:116-126 | Every error code survives being written and parsed. |
| Sidecar.InitLineText | desktop/src-tauri/src/protocol.rs:72-85 | The init line of a secret, spelled out. |
| Sidecar.ReadyLineText | cmd/cy-kaf-client/desktop_protocol.go:109-114 | The ready line of a port, spelled out. |
| Sidecar.ErrorLineText | cmd/cy-kaf-client/desktop_protocol.go:116-126 | The error line of each code, spelled out. |
| Sidecar.Run | cmd/cy-kaf-client/run.go:36-171 | The process writes at most one control line, the code of its first fault or its ready line; it fails exactly when there is a fault, the line cannot be written or the end is not clean. |
| Sidecar.HostInitGivesCleanOutput | cmd/cy-kaf-client/run.go:36-196 | Given the host's own init line in time and another port than 80, the output never gives the host a reason to report an invalid handshake. |
| DesktopHandshake.SidecarNeverFailsTheHandshake | desktop/src-tauri/src/host.rs:213-252 | In every run of the host with such a sidecar, however much of its output was read so far and whatever ordinary lines came in between, no failure is InitInvalid. |
| SidecarLog.LinesOfStream | desktop/src-tauri/src/logging.rs:59-72 | The complete lines and the rest of a stream, put together again, are the stream, and hold no line feed. |
| SidecarLog.WindowIsEnough | desktop/src-tauri/src/logging.rs:74-87 | Looking for a marker at the end of the last 32 bytes after each byte finds exactly the lines a search of the whole line finds. |
| SidecarLog.LogIsClean | desktop/src-tauri/src/logging.rs:89-111 | What is written for any lines holds no marker, not even across lines or after the cut. |
| SidecarLog.LogHoldsNoMarker | desktop/src-tauri/src/logging.rs:74-87 | None of the four markers stands anywhere in the log of any stream. |
| SidecarLog.MarkersAreIndependent | desktop/src-tauri/src/logging.rs:14-14 | For any two of the four markers each has a byte the other has not, so no marker can be spelled within another. |
| LogFaults.FaultFreeIsLog | desktop/src-tauri/src/logging.rs:59-111 | Without failures the text written byte by byte is the log of the stream, and the size remembered is that of the file. |
| LogFaults.LengthKept | desktop/src-tauri/src/logging.rs:89-130 | Whatever fails, the current file is over 2 MiB by no more than failed writes have left behind in it. |
| LogBounds.TightExactly | desktop/src-tauri/src/logging.rs:89-130 | From a state, nothing that can follow without another failure takes the file over 2 MiB, if and only if it is within 2 MiB and, while open, no longer than the size remembered. |
| LogBounds.FailureOverfillsExactly | desktop/src-tauri/src/logging.rs:98-105 | A line that fails can take the file over 2 MiB, at once or later without another failure, if and only if it was written in part. |
| LogBounds.BoundedExactly | desktop/src-tauri/src/logging.rs:89-130 | In every run no state is come to from which the file can pass 2 MiB without another failure, if and only if no line is written in part. |
| LogBounds.EndsInsideExactly | desktop/src-tauri/src/logging.rs:98-105 | In every run the text written ends inside a line if and only if some line was written in part and none was completed since. |
| LogBounds.MovedInsideExactly | desktop/src-tauri/src/logging.rs:113-130 | In every run a file was moved away inside a line if and only if a rotation came between a line written in part and the next one completed. |
| LogBounds.TornLineStaysOpen | desktop/src-tauri/src/logging.rs:98-105 | A concrete run after which the text written ends inside a line. |
| LogBounds.ShutLogJoinsLines | desktop/src-tauri/src/logging.rs:94-105 | After a rotation that failed, every line too short to rotate fails whatever the disk does and is joined to the next: the log stays shut until about 16 KiB are pending. |
| LogFaults.SizeIsExact | desktop/src-tauri/src/logging.rs:94-130 | In every run the size remembered is that of the current file, except exactly when some line was written in part, or lost the file to a rotation that could not open another, and no rotation has opened a new file since. |
| LogFaults.LostFileKeepsItsSize | desktop/src-tauri/src/logging.rs:118-129 | A concrete run after which the size of a file that is gone is still remembered. |
| LogFaults.TornLineOverfills | desktop/src-tauri/src/logging.rs:98-105 | A concrete run after which the file is 4 bytes over 2 MiB. |
| LogFaults.HarmlessFailuresKeepClean | desktop/src-tauri/src/logging.rs:59-130 | In every run in which no failure was harmful, nothing that was ever written holds a marker. |
| LogFaults.FailureIsHarmless | desktop/src-tauri/src/logging.rs:90-105 | A failure is harmless exactly when the part left in the file does not end inside a marker and what is pending without its CR does not end inside one that would fit and that the scanner would miss. |
| LogFaults.OtherFailuresAreHarmless | desktop/src-tauri/src/logging.rs:90-105 | A failure that cuts no CR and leaves no part of a line is harmless. |
| LogFaults.HarmlessExactly | desktop/src-tauri/src/logging.rs:59-130 | A failure is harmless if and only if no bytes that can follow without another failure ever get a marker written, in the text of all files read in order. |
| LogFaults.ReturnHidesMarker | desktop/src-tauri/src/logging.rs:91-105 | A marker cut anywhere by a CR and a line feed whose write fails is written whole on the next line feed. |
| LogFaults.InitMarkerSlipsThrough | desktop/src-tauri/src/logging.rs:91-105 | The same for `CY_KAF_INIT`, with the four markers of the program. |
| LogFaults.TornLineHidesMarker | desktop/src-tauri/src/logging.rs:98-105 | A start of a marker left behind by a failed write leads to a marker in the file. |
| SidecarLogger.Logger.ScanSensitiveMarker | desktop/src-tauri/src/logging.rs:74-87 | Keeps the window and the flag equal to those of what was read since the last line that was done with. |
| SidecarLogger.Logger.ShiftBackups | desktop/src-tauri/src/logging.rs:118-125 | What was removed followed by the backups never changes, wherever a removal or renaming fails; on success the first two backups moved up by one and the first slot is free. |
| SidecarLogger.Logger.Rotate | desktop/src-tauri/src/logging.rs:113-130 | What was removed followed by the four files never changes, wherever it fails: only the oldest file leaves. On success the current file is new and empty; on failure none is open, the size remembered stays, and the file is still there or moved away. |
| SidecarLogger.Logger.FinishLine | desktop/src-tauri/src/logging.rs:89-111 | Files, size, pending line, window and flag become those of the next state, also when the line fails: then it stays pending without its CR, and the scanner keeps what it knew. |
| SidecarLogger.Logger.AppendSidecarStderr | desktop/src-tauri/src/logging.rs:59-72 | Reads all the bytes, or up to the line feed whose line fails, and goes through exactly the states these bytes lead to. |
| SidecarLogger.Logger.Close | desktop/src-tauri/src/logging.rs:133-142 | What is pending is finished; otherwise nothing is read. |
| SidecarLogger.RunLogger | desktop/src-tauri/src/logging.rs:38-142 | For every initial directory, stream, way of cutting it and behaviour of the disk, over a whole life that goes on after failures: the files read from .3 to current hold a final part of what was there followed by all that was written; there are at most three backups; the current file is at most 2 MiB unless some line was written in part, and no file is over it by more than such lines have left; the current file ends with a line exactly when the text written does, and the others do unless one was moved away inside a line; without failures what was written is the log of the stream; and no marker is written if no failure was harmful. |
| JsonText.ReadQuoted | internal/mcpserver/tools_ksql.go:429-444 | A string escaped as Go escapes it (section 7 of RFC 8259, and `<`, `>`, `&`, U+2028, U+2029) is read back, up to its closing quote. |
| JsonText.QuoteInjective | internal/mcpserver/tools_ksql.go:429-444 | Different texts have different literals. |
| JsonText.QuotedSizeConcat | internal/mcpserver/tools_ksql.go:429-444 | Sizes compose under concatenation, less one pair of quotes. |
| JsonText.JsonEncodedStringSize | internal/mcpserver/tools_ksql.go:429-444 | The running count is the exact number of UTF-8 bytes of the JSON literal. |
| KsqlBudget.ValueBudget.CloneString | internal/mcpserver/tools_ksql.go:417-427 | A text is copied and charged its exact size when it fits; text that is not UTF-8 or does not fit leaves the budget alone, with the matching error. |
| KsqlBudget.ValueBudget.Clone | internal/mcpserver/tools_ksql.go:350-415 | On every heap, cyclic ones included, the copy ends; it is the tree of the value with everything under a credential key redacted, charged exactly its nodes and string bytes; with a tree it fails only as a limit, when the tree is not affordable; a failed operation is reported only of a value without a tree at any depth, and of an unsupported value, text that is not UTF-8 or a revisit whenever the depth and nodes allow to look; what is being visited is restored on every exit. |
| KsqlBudget.ValueBudget.CloneEntries | internal/mcpserver/tools_ksql.go:392-410 | The same for the entries of a map, with redaction by each key. |
| KsqlGraph.RedactionCommutes | internal/mcpserver/sanitize.go:36-57 | Redacting while copying gives what redacting a full copy gives. |
| KsqlGraph.ExpandsIffWalksAreGood | internal/mcpserver/tools_ksql.go:350-415 | A value has a tree exactly when every walk into its unredacted part stays within the depth, meets only what can be copied and never comes back to a slice or map it is inside of; shared parts are fine. |
| KsqlGraph.CyclesAreRejected | internal/mcpserver/tools_ksql.go:371-398 | A value whose unredacted part is cyclic has no tree at any depth. |
| KsqlGraph.AliasedPrefixIsRejected | internal/mcpserver/tools_ksql.go:371-380 | A concrete acyclic value, no walk in which is longer than two, that cycle detection by address rejects. |
| KsqlJson.ResultSizeIsText | internal/mcpserver/tools_ksql.go:329-338 | The size counted without building the text (pieces, quotes, brackets, commas, colons) is exactly the number of bytes of the JSON text of the result, and there is one exactly when there is a text. |
| KsqlJson.TreeSizeIsText | internal/mcpserver/tools_ksql.go:335-338 | The same for every tree of values. |
| KsqlJson.FrameText | internal/mcpserver/tools_ksql.go:329-338 | The JSON text of a frame, spelled out: the four keys in order, with the texts of the columns, the header and the rows. |
| KsqlCollector.ResultCollector.Collect | internal/mcpserver/tools_ksql.go:282-348 | A rejected table leaves frames, rows and schema unchanged; an accepted one adds the one frame it means, charged exactly. A table with a frame is rejected exactly with the limit when a count, its nodes or its bytes do not fit, or when the JSON text of the result with it is too long, and with a failed operation when that result has no JSON text. An error table is a failed operation. The first row that does not fit the columns, where the rows before it can be paid for, is a limit if it is wider than 512 and a failed operation if not. A failed operation is reported for nothing else but a cell without a tree at any depth. Budgets only grow and never exceed their limits. |
| KsqlCollector.CollectTables | internal/mcpserver/tools_ksql.go:282-348 | For every sequence of tables: the frames returned are those of the tables before the first refused one, each redacted by its own columns or those of the last accepted table that names any; rows, frames, nodes, bytes and the JSON text keep to their limits; no table is refused that had its place, and the error tells why, as for one table. |
| ErrorTree.Classify | internal/mcpserver/tools_ksql.go:244-280 | With the counter threaded through, on every error graph: complete exactly when all errors lie above depth 32 and number at most 128, and then the two classes are exact and the counter has grown by the size of the tree. |
| ErrorTree.ClassifyAll | internal/mcpserver/tools_messages.go:220-234 | The same for the children of a join. |
| ErrorTree.InnerDescribed | internal/mcpserver/tools_messages.go:216-234 | An inner error consists of accepted leaves only exactly when everything below it does, and contains one exactly when something below it does. |
| ErrorTree.WrappedIsAccepted | internal/mcpserver/tools_ksql.go:244-280 | A chain of wrappers around an accepted error is looked through if and only if it has at most 32 errors, and is made of nothing else. |
| ErrorTree.WrappedJoin | internal/mcpserver/tools_ksql.go:264-276 | A join of errors that wrap nothing, in wrappers, is made of accepted errors only exactly when all its children are, and contains one exactly when one of them is. |
| ErrorTree.AnswerKsql | internal/mcpserver/tools_ksql.go:199-230 | A result is reported as too large exactly when the error is made of nothing but collection limits; a limit mixed with other errors is a failed operation; any other error is returned itself. So a limit in up to 31 wrappers is a result too large and in more is returned itself, and wrappers around a join give what the children of the join are. |
| ErrorTree.AnswerBrowse | internal/mcpserver/tools_messages.go:156-179 | A browse that ended with an error is a success exactly when the collector stopped it, the caller did not cancel and the error is made of nothing but local stops, in up to 31 wrappers; an error tree too large to look at is a failed operation. |
| MessageBrowse.CursorsSurvive | internal/mcpserver/tools_messages.go:400-413 | The round trip of a cursor through JSON fails exactly for text that is not UTF-8, and its size is that of its literal. |
| MessageBrowse.RenderedSize | internal/mcpserver/sanitize.go:126-143 | The JSON text of a result is at most 40 bytes longer than its items with separators and its cursor. |
| MessageBrowse.BoundedTopicMessage | internal/mcpserver/tools_messages.go:439-452 | The loop over the headers decides that every length is within its bound. |
| MessageBrowse.Collector.Collect | internal/mcpserver/tools_messages.go:238-253 | An event is taken as a whole or leaves the result as it was but for the mark of truncation; what is wrong with an event decides the refusal; after a stop nothing changes; bytes are always those of the joined items. |
| MessageBrowse.Browse | internal/mcpserver/tools_messages.go:238-307 | For every sequence of events: the items are those of the messages before the first event with something wrong, in order; the cursor is that of the last message or end among them, else the one given; truncated exactly when stopped; and the whole JSON text fits the 1 MiB check. |
| ReleasePublish.MatchesIffPermutation | scripts/releasepublish/main.go:177-195 | Equal count, no duplicate and inclusion accept exactly the permutations of the local name-to-digest map, by pigeonhole. |
| ReleasePublish.VerifyAssets | scripts/releasepublish/main.go:177-195 | The loop decides exactly that. |
| ReleasePublish.LocalAssets | scripts/releasepublish/main.go:147-175 | Succeeds exactly on a non-empty directory of non-empty readable regular files, and maps each name to its digest. |
| ReleasePublish.Find | scripts/releasepublish/main.go:126-145 | Finds the first release with the tag across all pages. |
| ReleasePublish.SafeTagIsVersion | scripts/releasepublish/main.go:19-19 | A tag is accepted if and only if it is v, three numbers as they are printed, and dots between them. |
| ReleasePublish.Publish | scripts/releasepublish/main.go:62-124 | Nothing is sent unless tag, options and assets are good, checked in this order; then, for every answer of the remote, each command is sent exactly when the answers so far call for it, for this tag with this title, these notes and these assets; assets are compared with the names and digests of the directory; and the error names the step the run ended with. |
| ReleasePublish.PublishingIsSafe | scripts/releasepublish/main.go:62-124 | A release already public is never touched; it is made public only right after a listing that showed a draft with exactly the local assets; there is no error exactly when the run ended, after one or six commands, with a listing that showed a public, final release with exactly the local assets. |
| GroupPaging.AddPage | internal/mcpserver/tools_groups.go:312-321 | Adds the groups of a page that are not there yet and counts them. |
| GroupPaging.CollectGroups | internal/mcpserver/tools_groups.go:294-326 | Against any service: at most maxItems groups, all of them listed, none twice, at most one call for every hundred, an error only if a page was refused. Against a stable listing: exactly its first groups, up to where the short last page reaches. |
| GroupPaging.NextPage | internal/app/cluster/group.go:225-252 | Where the page after k full ones starts and ends: page numbers past the end show the last page. |
| GroupPaging.TakesAllItems | internal/mcpserver/tools_groups.go:297-300 | Exactly the first maxItems groups are collected if and only if maxItems is at most 100 or a multiple of 100, or the listing ends before the short page matters. |
| GroupPaging.ShortPageLosesGroups | internal/mcpserver/tools_groups.go:297-300 | A concrete stable service with 300 groups, of which a limit of 150 collects the first 100, because its second page of fifty is the second half of its first page. |
| GroupPaging.GetConsumerGroups | internal/mcpserver/tools_groups.go:277-328 | Against any service the answer holds distinct groups that were listed; of any two the first has the smaller (descending: the larger) number of members, state, total lag, number of topics or name asked for, and of equals the smaller name; no other arrangement is in that order; an error only if a page was refused. Against a stable listing it is a permutation of what was collected. |
| Groups.LessIsAnOrder | internal/mcpserver/tools_groups.go:678-705 | Every ordering, in both directions, is a strict weak order in which different names are never equivalent. |
| Groups.ComesMeans | internal/mcpserver/tools_groups.go:682-704 | Of two groups with different names the comparison puts first the one that comes first by the values themselves: member counts, the sum of what the committed offsets are behind, distinct topics, and texts by their first difference. |
| Groups.WrapAdds | internal/domain/cluster/cluster.go:496-507 | Wrapping at every addition is wrapping once. |
| Sorting.AnySortIsSort | internal/mcpserver/tools_groups.go:682-704 | Any ordered permutation, by whatever sort, is the same one. |
| Sorting.CompareMeans | internal/mcpserver/tools_groups.go:689-696 | The comparison of texts is negative, positive or zero exactly when the first, the second or neither comes first by their first difference. |
| GroupLag.LagOf | internal/domain/cluster/cluster.go:496-507 | The total is the sum of what each committed offset is behind, in 64-bit arithmetic. |
| GroupLag.ConsumerGroupLag | internal/mcpserver/tools_groups.go:853-892 | The lag response: the total, each topic's sum, and each topic's partitions, only for offsets with a commit and a known end. The HTTP version (internal/api/handlers_group.go:498-529) is the same code. |
| GroupLag.TopicConsumerGroup | internal/api/handlers_group.go:379-405 | The topic view: the members that own a partition of the topic, each once, one topic, and the lag, absent exactly when nothing was committed on the topic, else the topic's sum. The MCP version (internal/mcpserver/tools_groups.go:812-842) is the same code. |
| GroupLag.MemberFor | internal/api/handlers_group.go:474-488 | The first member that is assigned the partition, if any is. |
| GroupLag.ConsumerGroupPartition | internal/mcpserver/tools_groups.go:762-790 | A detail row: topic, partition, end and commit where they are known, end less commit where both are (never less than zero), and the id and host of the first member assigned the partition. |
| GroupLag.ConsumerGroupDetails | internal/mcpserver/tools_groups.go:740-760 | One row for each offset, in order. |
| GroupLag.ConsumersAreCounted | internal/api/handlers_group.go:446-488 | A detail row that names a consumer belongs to a topic for whose view that member is counted. |
| GroupLag.RowsInOrder | internal/mcpserver/tools_groups.go:747-753 | The rows are a permutation of the offsets, by topic and then partition. |
| GroupLag.ReadingsAgree | internal/mcpserver/tools_groups.go:866-873 | The projections read an offset the same way, except exactly an unknown end so far below the commit that the subtraction wraps. |
| GroupLag.TopicViewAgrees | internal/api/handlers_group.go:379-405 | Per topic the lag response and the topic view agree; a topic missing from the response has no lag. |
| GroupLag.TopicsSumToTotal | internal/mcpserver/tools_groups.go:853-892 | The topics of the response add up to its total. |
| GroupLag.PartitionsSumToTopic | internal/mcpserver/tools_groups.go:869-879 | For distinct partitions the partition map of a topic adds up to the topic. |
| GroupLag.LagIsConserved | internal/api/handlers_group.go:379-529 | For every group in the documented range: topics, detail rows (sorted as over MCP or as they come over HTTP), total, topic views and (for distinct partitions) partition maps all agree in 64-bit arithmetic. |
| GroupLag.ExactWhenItFits | internal/domain/cluster/cluster.go:496-507 | When the sum fits 64 bits nothing wraps: the total is the plain sum of the topics. |
| Permissions.ModifyRolesData | frontend/src/lib/permissions.ts:15-39 | The nested map holds under each cluster and resource exactly the matching items in list order, once per occurrence of the cluster, and no empty entry. |
| Permissions.PermittedIffScan | frontend/src/lib/permissions.ts:75-112 | With access control on, permitted exactly when some item concerns cluster and resource and every action is in an item that does and whose expression, if it has one, finds the name given; for ksql, cluster and application configuration, ACLs and audit names do not count. |
| Permissions.CreateIffScan | frontend/src/lib/permissions.ts:127-151 | Creating is permitted exactly when some item that concerns cluster and resource has the action. |
| Permissions.MoreRolesPermitMore | frontend/src/lib/permissions.ts:75-112 | Another role never takes a permission away, and the order of the roles does not matter. |
| Permissions.CreateIsWeaker | frontend/src/lib/permissions.ts:127-151 | Creating in general is weaker than creating a named resource, and exactly by how much. |
| DuplicateName.SomeNumberIsFree | frontend/src/lib/duplicateClusterName.ts:16-21 | Pigeonhole: a set of names cannot hold the copy and as many numbered copies as it has members. |
| DuplicateName.NextDuplicateName | frontend/src/lib/duplicateClusterName.ts:8-24 | The name is free; it is the plain copy if that is free, else the copy with the least free number from 2 on. |

## Left out

- Payload spellings: control lines are read in the compact form the writers produce. The JSON decoders of both ends also take other spellings of the same payload (white space, other key order, escapes the writers do not use); what they make of those is not part of this model.
- Text: standard input, control lines, names and cursors are sequences of Unicode characters, or marked as not UTF-8; Go's and Rust's handling of broken UTF-8 inside a larger text is not modelled.
- Partial writes of control lines: a control line that cannot be written is not written at all.
- SidecarLogger.RunLogger: a file operation either does its work or does nothing, except that a write may stop after some bytes and a file may be created and then refused; permissions are not modelled.
- Protocol.OriginIsCanonical: the URL parser is not modelled, only which texts it and the checks after it let through.
- HostIo.Host.SaveSettings: the settings file is only its port.
- HostIo.Host.Receive: the order of waiting child events, and processes, sockets, windows and cookies themselves, are only outcomes.
- DesktopSupervisor.RunSupervisorLoop: ends when its commands are used up; that the thread goes on polling for ever between commands is not modelled. How long a poll waits is said of `PollChild`, not of the run.
- DesktopSupervisor.Supervisor.HandleUnexpectedExit: the branch for a stopping supervisor, and the error branches of start and ready for a token, child or deadline that is missing, cannot be reached and are not written out.
- KsqlJson.TreeSizeIsText: numbers carry the text JSON gives them; the members of an object are rendered in their given order, where Go sorts them by key, which does not change the size.
- KsqlBudget.ValueBudget.Clone: credential keys are any set of keys; the list of key fragments of `isCredentialKey` is not spelled out. A map is iterated in a given order.
- ErrorTree.Classify: the two classifiers differ in the errors they accept and in whether they report that one occurs; both are this one with its accepted errors as a parameter.
- MessageBrowse.Browse: the JSON text of a message is given; that the decoder fills its fields rightly is not modelled, nor is the browse of partitions itself.
- ReleasePublish.Publish: arguments of commands other than tag, title, notes file and asset names, digests as such, and what GitHub does with a command.
- GroupPaging.GetConsumerGroups: filters of the listing, and the checks and CSV rendering of the groups collected.
- GroupLag.ConsumerGroupDetails: the group fields of the response beside its rows.
- GroupLag.TopicConsumerGroup: the group's own fields in the row, and the 32-bit width of the member count.
- Permissions.PermittedIffScan: a regular expression is any function of pattern and value; a pattern that is not well-formed, which raises an exception, is not modelled.
- Real time: instants are natural numbers; the clock advances at every reading.
- HTTP handlers, other MCP tools, Kafka, Schema Registry, Connect and ksqlDB clients, the user interface, build scripts: they map fields or call libraries.
