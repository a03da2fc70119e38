/** Sidecar end of the desktop handshake (cmd/cy-kaf-client/desktop_protocol.go and run.go). */
module Sidecar {
  import opened Wrappers
  import opened JsonText
  import opened Protocol
  import opened Verdicts
  import Base64
  import Decimal

  const INIT_MAX_BYTES := 4096

  // ---------- Reading the init line ----------

  function IndexOf(s: string, c: char): (n: nat)
    ensures n <= |s|
    ensures c !in s[..n]
    ensures n < |s| ==> s[n] == c
  {
    if s == "" || s[0] == c then 0
    else
      var n := IndexOf(s[1..], c);
      assert s[..n + 1] == [s[0]] + s[1..][..n];
      n + 1
  }

  function DropReturn(line: string): string {
    if |line| > 0 && line[|line| - 1] == '\r' then line[..|line| - 1] else line
  }

  /** The first token of a line scanner whose buffer holds 4096 bytes. */
  function FirstLine(stdin: string): Option<string> {
    var n := IndexOf(stdin, '\n');
    if n < |stdin| then
      if |Utf8(stdin[..n + 1])| <= INIT_MAX_BYTES then Some(DropReturn(stdin[..n])) else None
    else if stdin == "" || |Utf8(stdin)| >= INIT_MAX_BYTES then None
    else Some(DropReturn(stdin))
  }

  function StripNewlines(s: string): string {
    if s == "" then ""
    else (if s[0] == '\n' || s[0] == '\r' then "" else [s[0]]) + StripNewlines(s[1..])
  }

  /** Go's decoder is strict about trailing bits but skips CR and LF wherever they stand. */
  function AcceptsToken(token: string): bool {
    match Base64.Decode(StripNewlines(token))
    case None => false
    case Some(bytes) => |bytes| == TOKEN_BYTES
  }

  function ReadInitPayload(key: string, payload: string): Option<string> {
    match ReadPayload(key, payload)
    case None => None
    case Some((protocol, token)) =>
      if protocol != PROTOCOL_VERSION || !AcceptsToken(token) then None else Some(token)
  }

  function ScanLine(prefix: string, key: string, stdin: string): Option<string> {
    match FirstLine(stdin)
    case None => None
    case Some(line) =>
      match StripPrefix(line, prefix)
      case None => None
      case Some(payload) => ReadInitPayload(key, payload)
  }

  function ScanDesktopInit(stdin: string): Option<string> {
    ScanLine(INIT_PREFIX, "sessionToken", stdin)
  }

  // ---------- Control lines ----------

  function ControlLine(prefix: string, key: string, text: string): string {
    prefix + WritePayload(PROTOCOL_VERSION, key, text) + "\n"
  }

  function ReadyLine(origin: string): string {
    ControlLine(READY_PREFIX, "origin", origin)
  }

  function ErrorLine(code: SidecarErrorCode): string {
    ControlLine(ERROR_PREFIX, "code", CodeText(code))
  }

  // ---------- The two ends agree on the init line ----------

  lemma {:induction false} SymbolsArePlain(x: seq<Base64.Six>)
    ensures |Base64.Symbols(x)| == |x|
    ensures forall i :: 0 <= i < |x| ==> Base64.Sextet(Base64.Symbols(x)[i]).Some?
  {
    if x != [] {
      SymbolsArePlain(x[1..]);
      Base64.SextetOfSymbol(x[0]);
    }
  }

  lemma {:induction false} PackedLength(b: seq<Byte>)
    ensures |Base64.Pack(b)| <= 4 * |b|
  {
    if |b| > 2 {
      PackedLength(b[3..]);
    }
  }

  predicate PlainChar(c: char) {
    0x20 <= c as int < 0x80 && EscapeChar(c) == [c]
  }

  predicate Plain(s: string) {
    forall i :: 0 <= i < |s| ==> PlainChar(s[i])
  }

  lemma {:induction false} EscapePlain(s: string)
    requires Plain(s)
    ensures Escape(s) == s
  {
    if s != "" {
      EscapePlain(s[1..]);
    }
  }

  lemma TokensArePlain(secret: seq<Byte>)
    ensures Plain(Base64.Encode(secret)) && |Base64.Encode(secret)| <= 4 * |secret|
  {
    SymbolsArePlain(Base64.Pack(secret));
    PackedLength(secret);
  }

  predicate OneLine(s: string) {
    forall i :: 0 <= i < |s| ==> s[i] as int < 0x80 && s[i] != '\n'
  }

  lemma OneLineJoin(a: string, b: string)
    requires OneLine(a) && OneLine(b)
    ensures OneLine(a + b)
  {
  }

  lemma {:induction false} IndexOfFirst(line: string, tail: string)
    requires '\n' !in line
    ensures IndexOf(line + "\n" + tail, '\n') == |line|
  {
    var s := line + "\n" + tail;
    if line != "" {
      IndexOfFirst(line[1..], tail);
      assert s[1..] == line[1..] + "\n" + tail && s[0] == line[0];
    }
  }

  /** A line of plain text comes through the scanner whatever follows it. */
  lemma FirstLineOf(line: string, tail: string)
    requires OneLine(line) && |line| < INIT_MAX_BYTES && line != "" && line[|line| - 1] != '\r'
    ensures FirstLine(line + "\n" + tail) == Some(line)
  {
    var stdin := line + "\n" + tail;
    var n := IndexOf(stdin, '\n');
    IndexOfFirst(line, tail);
    assert stdin[..n] == line && stdin[..n + 1] == line + "\n";
    Utf8Ascii(line + "\n");
  }

  lemma PayloadIsOneLine(key: string, text: string)
    requires OneLine(key) && Plain(text)
    ensures OneLine(WritePayload(PROTOCOL_VERSION, key, text))
    ensures |WritePayload(PROTOCOL_VERSION, key, text)| == |FIELD_PROTOCOL| + |FieldText(key)| + |text| + 3
  {
    EscapePlain(text);
    assert Decimal.Show(PROTOCOL_VERSION) == ['1'];
    OneLineJoin(",\"", key);
    OneLineJoin(",\"" + key, "\":\"");
    OneLineJoin(FIELD_PROTOCOL, Decimal.Show(PROTOCOL_VERSION));
    OneLineJoin(FIELD_PROTOCOL + Decimal.Show(PROTOCOL_VERSION), FieldText(key));
    OneLineJoin(FIELD_PROTOCOL + Decimal.Show(PROTOCOL_VERSION) + FieldText(key), text);
  }

  lemma ScanWrittenLine(prefix: string, key: string, token: string, tail: string)
    requires OneLine(prefix) && OneLine(key) && Plain(token) && |prefix| + |key| + |token| < 1000
    requires AcceptsToken(token)
    ensures ScanLine(prefix, key, ControlLine(prefix, key, token) + tail) == Some(token)
  {
    var payload := WritePayload(PROTOCOL_VERSION, key, token);
    PayloadIsOneLine(key, token);
    ReadWrittenPayload(PROTOCOL_VERSION, key, token);
    OneLineJoin(prefix, payload);
    assert payload[|payload| - 1] == '}';
    FirstLineOf(prefix + payload, tail);
    StripOwnPrefix(prefix, payload);
  }

  /** Every secret the host draws reaches the sidecar: the line it writes is accepted with the same
      token, whatever else is on the stream. */
  lemma HandshakeRoundTrip(secret: seq<Byte>, tail: string)
    requires |secret| == TOKEN_BYTES
    ensures var token := Base64.Encode(secret);
            InitLine(token).Ok? && ScanDesktopInit(InitLine(token).value + tail) == Some(token)
  {
    var token := Base64.Encode(secret);
    TokensArePlain(secret);
    Base64.DecodeEncode(secret);
    AcceptedTokens(token);
    ScanWrittenLine(INIT_PREFIX, "sessionToken", token, tail);
  }

  lemma {:induction false} NoNewlines(s: string)
    ensures StripNewlines(s) == s <==> '\n' !in s && '\r' !in s
    ensures |StripNewlines(s)| <= |s|
  {
    if s != "" {
      NoNewlines(s[1..]);
      assert s == [s[0]] + s[1..];
    }
  }

  /** The sidecar accepts more tokens than the host: exactly those whose text without CR and LF the
      host would accept, so the two ends agree on a token iff it holds no line break. */
  lemma AcceptedTokens(token: string)
    ensures AcceptsToken(token) <==> ValidateToken(StripNewlines(token))
    ensures ValidateToken(token) <==> AcceptsToken(token) && '\n' !in token && '\r' !in token
  {
    var bare := StripNewlines(token);
    NoNewlines(token);
    if AcceptsToken(token) {
      Base64.EncodeDecode(bare);
    }
    if ValidateToken(token) {
      TokensArePlain(Base64.Decode(token).value);
    }
  }

  // ---------- The lines, spelled out ----------

  lemma ControlLineText(prefix: string, key: string, text: string)
    requires Plain(text)
    ensures ControlLine(prefix, key, text) == prefix + "{\"protocol\":1,\"" + key + "\":\"" + text + "\"}\n"
  {
    EscapePlain(text);
    assert Decimal.Show(PROTOCOL_VERSION) == ['1'];
    Spelled(prefix, FIELD_PROTOCOL, key, text);
  }

  lemma Spelled(prefix: string, start: string, key: string, text: string)
    requires start == "{\"protocol\":"
    ensures prefix + (start + ['1'] + (",\"" + key + "\":\"") + text + ['\"'] + "}") + "\n" ==
            prefix + "{\"protocol\":1,\"" + key + "\":\"" + text + "\"}\n"
  {
  }

  lemma PlainJoin(a: string, b: string)
    requires Plain(a) && Plain(b)
    ensures Plain(a + b)
  {
  }

  lemma OriginTextIsPlain(port: nat)
    ensures Plain(OriginText(port))
  {
    PlainJoin(ORIGIN_PREFIX, Decimal.Show(port));
  }

  lemma CodeTextIsPlain(code: SidecarErrorCode)
    ensures Plain(CodeText(code))
  {
  }

  /** What the host writes to the sidecar. */
  lemma InitLineText(secret: seq<Byte>)
    requires |secret| == TOKEN_BYTES
    ensures InitLine(Base64.Encode(secret)) ==
      Ok("CY_KAF_INIT " + "{\"protocol\":1,\"" + "sessionToken" + "\":\"" + Base64.Encode(secret) + "\"}\n")
  {
    TokensArePlain(secret);
    Base64.DecodeEncode(secret);
    ControlLineText(INIT_PREFIX, "sessionToken", Base64.Encode(secret));
  }

  /** What the sidecar writes once it listens. */
  lemma ReadyLineText(port: nat)
    ensures ReadyLine(OriginText(port)) ==
      "CY_KAF_READY " + "{\"protocol\":1,\"" + "origin" + "\":\"" + ("http://127.0.0.1:" + Decimal.Show(port)) + "\"}\n"
  {
    OriginTextIsPlain(port);
    ControlLineText(READY_PREFIX, "origin", OriginText(port));
  }

  /** What the sidecar writes when a step fails. */
  lemma ErrorLineText(code: SidecarErrorCode)
    ensures
      var text := match code
        case InitInvalid => "INIT_INVALID"
        case ConfigInvalid => "CONFIG_INVALID"
        case PortUnavailable => "PORT_UNAVAILABLE"
        case StartFailed => "START_FAILED";
      ErrorLine(code) == "CY_KAF_ERROR " + "{\"protocol\":1,\"" + "code" + "\":\"" + text + "\"}\n"
  {
    CodeTextIsPlain(code);
    ControlLineText(ERROR_PREFIX, "code", CodeText(code));
  }

  // ---------- The two ends agree on control lines ----------

  lemma WrittenLine(prefix: string, key: string, text: string)
    ensures TrimLineEnding(ControlLine(prefix, key, text)) == prefix + WritePayload(PROTOCOL_VERSION, key, text)
    ensures (prefix + WritePayload(PROTOCOL_VERSION, key, text))[|prefix|..] ==
      WritePayload(PROTOCOL_VERSION, key, text)
  {
    var line := prefix + WritePayload(PROTOCOL_VERSION, key, text);
    assert line[|line| - 1] == '}';
    assert (line + "\n")[..|line|] == line;
  }

  lemma ParseOriginText(port: nat)
    ensures ParseSidecarOrigin(OriginText(port)) == if KeptPort(port) then Some(Origin(port)) else None
  {
    var origin := OriginText(port);
    OriginIsCanonical(origin, port);
    if ParseSidecarOrigin(origin).Some? {
      var parsed := ParseSidecarOrigin(origin).value.port;
      OriginIsCanonical(origin, parsed);
      SameOriginText(ORIGIN_PREFIX, port, parsed);
    }
  }

  lemma SameOriginText(prefix: string, port: nat, parsed: nat)
    requires prefix + Decimal.Show(port) == prefix + Decimal.Show(parsed) ||
             prefix + Decimal.Show(port) == prefix + Decimal.Show(parsed) + "/"
    ensures port == parsed
  {
    var p, q := Decimal.Show(port), Decimal.Show(parsed);
    assert (prefix + p)[|prefix|..] == p && (prefix + p)[|prefix + p| - 1] == p[|p| - 1];
    if prefix + p == prefix + q {
      assert (prefix + q)[|prefix|..] == q;
      Decimal.ShowInjective(port, parsed);
    }
  }

  lemma ReadReady(key: string, port: nat)
    ensures ParseReady(key, WritePayload(PROTOCOL_VERSION, key, OriginText(port))) ==
            if KeptPort(port) then Ok(Some(Ready(Origin(port)))) else Err(InvalidOrigin)
  {
    ReadWrittenPayload(PROTOCOL_VERSION, key, OriginText(port));
    ParseOriginText(port);
  }

  lemma ParseCodeText(code: SidecarErrorCode)
    ensures ParseCode(CodeText(code)) == Some(code)
  {
  }

  lemma ReadError(key: string, text: string, code: SidecarErrorCode)
    requires ParseCode(text) == Some(code)
    ensures ParseError(key, WritePayload(PROTOCOL_VERSION, key, text)) == Ok(Some(Error(code)))
  {
    ReadWrittenPayload(PROTOCOL_VERSION, key, text);
  }

  /** The ready line is read back as its origin, except for port 80, which the URL of the origin drops. */
  lemma ReadyRoundTrip(port: nat)
    requires 1 <= port <= 65535
    ensures ParseSidecarLine(ReadyLine(OriginText(port))) ==
            if port == 80 then Err(InvalidOrigin) else Ok(Some(Ready(Origin(port))))
  {
    WrittenLine(READY_PREFIX, "origin", OriginText(port));
    ReadReady("origin", port);
  }

  lemma TrimmedError(ready: string, error: string, control: string, payload: string)
    requires |ready| > 7 && |error| > 7 && ready[7] != error[7]
    ensures ParseTrimmed(ready, error, control, error + payload) == ParseError("code", payload)
  {
    assert (error + payload)[7] == error[7];
    assert (error + payload)[|error|..] == payload;
  }

  lemma ErrorRoundTrip(code: SidecarErrorCode)
    ensures ParseSidecarLine(ErrorLine(code)) == Ok(Some(Error(code)))
  {
    var key, text := "code", CodeText(code);
    ParseCodeText(code);
    WrittenLine(ERROR_PREFIX, key, text);
    TrimmedError(READY_PREFIX, ERROR_PREFIX, CONTROL_PREFIX, WritePayload(PROTOCOL_VERSION, key, text));
    ReadError(key, text, code);
  }

  // ---------- The sidecar process ----------

  datatype Address = Tcp(port: int) | OtherAddress

  /** What the process meets: its input, and how each step it cannot control turns out. */
  datatype World = World(
    stdin: string,
    initInTime: bool,
    configLoads: bool,
    listener: Option<Address>,
    wires: bool,
    servedEarly: Option<bool>,  // the server stopped before the ready line; true: it was closed on purpose
    writable: bool,
    endsCleanly: bool)

  function LoopbackOrigin(address: Address): Option<string> {
    if address.OtherAddress? || address.port < 1 || address.port > 65535 then None
    else Some(OriginText(address.port))
  }

  function FirstFault(desktop: bool, w: World): Option<SidecarErrorCode> {
    if desktop && (!w.initInTime || ScanDesktopInit(w.stdin).None?) then Some(InitInvalid)
    else if !w.configLoads then Some(ConfigInvalid)
    else if w.listener.None? then Some(PortUnavailable)
    else if LoopbackOrigin(w.listener.value).None? || !w.wires || w.servedEarly == Some(false) then Some(StartFailed)
    else None
  }

  /** The control lines of a run. */
  function Output(desktop: bool, w: World): seq<string> {
    if !desktop || !w.writable then []
    else match FirstFault(desktop, w)
      case Some(code) => [ErrorLine(code)]
      case None => [ReadyLine(OriginText(w.listener.value.port))]
  }

  method DesktopFailure(writable: bool, code: SidecarErrorCode) returns (stdout: seq<string>, failed: bool)
    ensures stdout == if writable then [ErrorLine(code)] else []
    ensures failed
  {
    stdout, failed := [], true;
    if writable {
      stdout := [ErrorLine(code)];
    }
  }

  /** The process writes one control line at most: the code of the first step that failed or, when none
      did, the origin it listens on. */
  method Run(desktop: bool, w: World) returns (stdout: seq<string>, failed: bool)
    ensures stdout == Output(desktop, w)
    ensures failed <==> FirstFault(desktop, w).Some? || (desktop && !w.writable) || !w.endsCleanly
  {
    stdout, failed := [], true;
    if desktop {
      var token := None;
      if w.initInTime {
        token := ScanDesktopInit(w.stdin);
      }
      if token.None? {
        stdout, failed := DesktopFailure(w.writable, InitInvalid);
        return;
      }
    }
    if !w.configLoads {
      if desktop {
        stdout, failed := DesktopFailure(w.writable, ConfigInvalid);
      }
      return;
    }
    if w.listener.None? {
      if desktop {
        stdout, failed := DesktopFailure(w.writable, PortUnavailable);
      }
      return;
    }
    var origin := LoopbackOrigin(w.listener.value);
    if origin.None? {
      if desktop {
        stdout, failed := DesktopFailure(w.writable, StartFailed);
      }
      return;
    }
    if !w.wires || w.servedEarly == Some(false) {
      if desktop {
        stdout, failed := DesktopFailure(w.writable, StartFailed);
      }
      return;
    }
    if desktop {
      if !w.writable {
        return;
      }
      stdout := [ReadyLine(origin.value)];
    }
    failed := !w.endsCleanly;
  }

  lemma OneLineIsClean(line: string, event: SidecarEvent)
    requires ParseSidecarLine(line) == Ok(Some(event)) && event != Error(InitInvalid)
    ensures Clean(VerdictsOf([line]))
  {
  }

  /** Fed by the host's own init line in time, and not listening on port 80, the process never gives the
      host a reason to report an invalid handshake. */
  lemma HostInitGivesCleanOutput(secret: seq<Byte>, tail: string, desktop: bool, w: World)
    requires |secret| == TOKEN_BYTES && w.initInTime && w.listener != Some(Tcp(80))
    requires InitLine(Base64.Encode(secret)).Ok?
    requires w.stdin == InitLine(Base64.Encode(secret)).value + tail
    ensures FirstFault(desktop, w) != Some(InitInvalid) && Clean(VerdictsOf(Output(desktop, w)))
  {
    HandshakeRoundTrip(secret, tail);
    if desktop && w.writable {
      match FirstFault(desktop, w)
      case Some(code) =>
        ErrorRoundTrip(code);
        OneLineIsClean(ErrorLine(code), Error(code));
      case None =>
        var port := w.listener.value.port;
        ReadyRoundTrip(port);
        OneLineIsClean(ReadyLine(OriginText(port)), Ready(Origin(port)));
    }
  }
}
