/** Host end of the desktop handshake (desktop/src-tauri/src/protocol.rs). */
module Protocol {
  import opened Wrappers
  import opened JsonText
  import Base64
  import Decimal

  const PROTOCOL_VERSION := 1
  const INIT_PREFIX := "CY_KAF_INIT "
  const READY_PREFIX := "CY_KAF_READY "
  const ERROR_PREFIX := "CY_KAF_ERROR "
  const CONTROL_PREFIX := "CY_KAF_"
  const TOKEN_BYTES := 32

  datatype ProtocolError = InvalidToken | InvalidPayload | UnsupportedVersion | InvalidOrigin | UnknownControlPrefix

  datatype SidecarErrorCode = InitInvalid | ConfigInvalid | PortUnavailable | StartFailed

  /** A loopback origin; everything but the port is fixed. */
  datatype Origin = Origin(port: nat)

  datatype SidecarEvent = Ready(origin: Origin) | Error(code: SidecarErrorCode)

  // ---------- The JSON payload both ends exchange ----------

  const FIELD_PROTOCOL := "{\"protocol\":"

  function FieldText(key: string): string {
    ",\"" + key + "\":\""
  }

  function WritePayload(protocol: nat, key: string, text: string): string {
    FIELD_PROTOCOL + Decimal.Show(protocol) + FieldText(key) + Escape(text) + ['\"'] + "}"
  }

  function LeadingDigits(s: string): (n: nat)
    ensures n <= |s| && Decimal.AllDigits(s[..n])
    ensures n < |s| ==> !Decimal.IsDigit(s[n])
  {
    if s == "" || !Decimal.IsDigit(s[0]) then 0
    else
      var n := LeadingDigits(s[1..]);
      assert s[..n + 1] == [s[0]] + s[1..][..n];
      n + 1
  }

  function StripPrefix(s: string, prefix: string): (r: Option<string>)
    ensures r.Some? <==> prefix <= s
    ensures r.Some? ==> s == prefix + r.value
  {
    if prefix <= s then Some(s[|prefix|..]) else None
  }

  /** A number without leading zeros and the text after it. */
  function ReadNumber(s: string): Option<(nat, string)> {
    var n := LeadingDigits(s);
    if n == 0 || (s[0] == '0' && n > 1) then None else Some((Decimal.Value(s[..n]), s[n..]))
  }

  function ReadField(field: string, s: string): Option<string> {
    match StripPrefix(s, field)
    case None => None
    case Some(body) =>
      match ReadBody(body)
      case None => None
      case Some((text, after)) => if after == "}" then Some(text) else None
  }

  function ReadNumberedField(start: string, field: string, s: string): Option<(nat, string)> {
    match StripPrefix(s, start)
    case None => None
    case Some(number) =>
      match ReadNumber(number)
      case None => None
      case Some((n, rest)) =>
        match ReadField(field, rest)
        case None => None
        case Some(text) => Some((n, text))
  }

  /** Reads a payload spelled the way the writers spell it; see the README for the spellings left out. */
  function ReadPayload(key: string, s: string): Option<(nat, string)> {
    ReadNumberedField(FIELD_PROTOCOL, FieldText(key), s)
  }

  lemma {:induction false} LeadingDigitsOf(digits: string, rest: string)
    requires Decimal.AllDigits(digits) && (rest == "" || !Decimal.IsDigit(rest[0]))
    ensures LeadingDigits(digits + rest) == |digits|
  {
    if digits == "" {
      assert digits + rest == rest;
    } else {
      LeadingDigitsOf(digits[1..], rest);
      assert (digits + rest)[1..] == digits[1..] + rest;
    }
  }

  lemma StripOwnPrefix(prefix: string, rest: string)
    ensures StripPrefix(prefix + rest, prefix) == Some(rest)
  {
  }

  lemma ReadShownNumber(n: nat, rest: string)
    requires rest == "" || !Decimal.IsDigit(rest[0])
    ensures ReadNumber(Decimal.Show(n) + rest) == Some((n, rest))
  {
    var digits := Decimal.Show(n);
    var s := digits + rest;
    LeadingDigitsOf(digits, rest);
    Decimal.ValueOfShow(n);
    assert s[..|digits|] == digits && s[|digits|..] == rest && s[0] == digits[0];
  }

  lemma ReadWrittenField(field: string, text: string)
    ensures ReadField(field, field + Escape(text) + ['\"'] + "}") == Some(text)
  {
    var body := Escape(text) + ['\"'] + "}";
    assert field + Escape(text) + ['\"'] + "}" == field + body;
    StripOwnPrefix(field, body);
    ReadQuoted(text, "}");
  }

  lemma ReadWrittenPayload(protocol: nat, key: string, text: string)
    ensures ReadPayload(key, WritePayload(protocol, key, text)) == Some((protocol, text))
  {
    var start, digits, field := FIELD_PROTOCOL, Decimal.Show(protocol), FieldText(key);
    var tail := field + Escape(text) + ['\"'] + "}";
    assert WritePayload(protocol, key, text) == start + (digits + tail);
    StripOwnPrefix(start, digits + tail);
    ReadShownNumber(protocol, tail);
    ReadWrittenField(field, text);
  }

  // ---------- Session tokens and the init line ----------

  function ValidateToken(token: string): bool {
    match Base64.Decode(token)
    case None => false
    case Some(bytes) => |bytes| == TOKEN_BYTES && Base64.Encode(bytes) == token
  }

  /** A token is accepted exactly when it is the encoding of some 32 bytes, and then of only one. */
  lemma TokenIsCanonical(token: string)
    ensures ValidateToken(token) <==>
            exists secret: seq<Byte> :: |secret| == TOKEN_BYTES && Base64.Encode(secret) == token
    ensures forall a: seq<Byte>, b: seq<Byte> ::
              Base64.Encode(a) == token && Base64.Encode(b) == token ==> a == b
  {
    forall secret: seq<Byte> | Base64.Encode(secret) == token
      ensures Base64.Decode(token) == Some(secret)
    {
      Base64.DecodeEncode(secret);
    }
    if ValidateToken(token) {
      assert Base64.Encode(Base64.Decode(token).value) == token;
    }
  }

  function InitLine(token: string): Result<string, ProtocolError> {
    if !ValidateToken(token) then Err(InvalidToken)
    else Ok(INIT_PREFIX + WritePayload(PROTOCOL_VERSION, "sessionToken", token) + "\n")
  }

  // ---------- Lines the sidecar prints ----------

  const ORIGIN_PREFIX := "http://127.0.0.1:"

  /** Ports a URL keeps: 80 is the scheme's default and is dropped by URL parsing. */
  predicate KeptPort(port: nat) {
    1 <= port <= 65535 && port != 80
  }

  function OriginText(port: nat): string {
    ORIGIN_PREFIX + Decimal.Show(port)
  }

  /** The number spelled by a text of digits without leading zeros. */
  function ParsePort(digits: string): Option<nat> {
    if digits == "" || LeadingDigits(digits) != |digits| || (digits[0] == '0' && |digits| > 1) then None
    else
      assert digits[..|digits|] == digits;
      Some(Decimal.Value(digits))
  }

  lemma ParsePortIsCanonical(digits: string, n: nat)
    ensures ParsePort(digits) == Some(n) <==> digits == Decimal.Show(n)
  {
    if ParsePort(digits) == Some(n) {
      assert digits[..|digits|] == digits;
      Decimal.ShowOfValue(digits);
    }
    Decimal.ValueOfShow(n);
    LeadingDigitsOf(Decimal.Show(n), "");
    assert Decimal.Show(n) + "" == Decimal.Show(n);
  }

  function DropFinalSlash(raw: string): string {
    if |raw| > 0 && raw[|raw| - 1] == '/' then raw[..|raw| - 1] else raw
  }

  function ParseAuthority(prefix: string, text: string): Option<Origin> {
    match StripPrefix(text, prefix)
    case None => None
    case Some(digits) =>
      match ParsePort(digits)
      case None => None
      case Some(port) => if KeptPort(port) then Some(Origin(port)) else None
  }

  function ParseSidecarOrigin(raw: string): Option<Origin> {
    ParseAuthority(ORIGIN_PREFIX, DropFinalSlash(raw))
  }

  lemma AuthorityIsCanonical(prefix: string, text: string, port: nat)
    ensures ParseAuthority(prefix, text) == Some(Origin(port)) <==>
            KeptPort(port) && text == prefix + Decimal.Show(port)
  {
    StripOwnPrefix(prefix, Decimal.Show(port));
    ParsePortIsCanonical(Decimal.Show(port), port);
    if prefix <= text {
      ParsePortIsCanonical(StripPrefix(text, prefix).value, port);
    }
  }

  lemma DropFinalSlashOf(raw: string, text: string)
    requires text != "" && text[|text| - 1] != '/'
    ensures DropFinalSlash(raw) == text <==> raw == text || raw == text + "/"
  {
    assert (text + "/")[..|text|] == text;
    if |raw| > 0 && raw[|raw| - 1] == '/' {
      assert raw == raw[..|raw| - 1] + "/";
    }
  }

  /** Only the canonical origin, with or without its final slash, is accepted. */
  lemma OriginIsCanonical(raw: string, port: nat)
    ensures ParseSidecarOrigin(raw) == Some(Origin(port)) <==>
            KeptPort(port) && (raw == OriginText(port) || raw == OriginText(port) + "/")
  {
    var prefix, digits := ORIGIN_PREFIX, Decimal.Show(port);
    AuthorityIsCanonical(prefix, DropFinalSlash(raw), port);
    assert (prefix + digits)[|prefix + digits| - 1] == digits[|digits| - 1];
    DropFinalSlashOf(raw, prefix + digits);
  }

  function TrimLineEnding(line: string): string {
    var l := if |line| > 0 && line[|line| - 1] == '\n' then line[..|line| - 1] else line;
    if |l| > 0 && l[|l| - 1] == '\r' then l[..|l| - 1] else l
  }

  function CodeText(code: SidecarErrorCode): string {
    match code
    case InitInvalid => "INIT_INVALID"
    case ConfigInvalid => "CONFIG_INVALID"
    case PortUnavailable => "PORT_UNAVAILABLE"
    case StartFailed => "START_FAILED"
  }

  function ParseCode(text: string): Option<SidecarErrorCode> {
    if text == CodeText(InitInvalid) then Some(InitInvalid)
    else if text == CodeText(ConfigInvalid) then Some(ConfigInvalid)
    else if text == CodeText(PortUnavailable) then Some(PortUnavailable)
    else if text == CodeText(StartFailed) then Some(StartFailed)
    else None
  }

  function ParseReady(key: string, payload: string): Result<Option<SidecarEvent>, ProtocolError> {
    match ReadPayload(key, payload)
    case None => Err(InvalidPayload)
    case Some((protocol, text)) =>
      if protocol > 255 then Err(InvalidPayload)
      else if protocol != PROTOCOL_VERSION then Err(UnsupportedVersion)
      else match ParseSidecarOrigin(text)
        case None => Err(InvalidOrigin)
        case Some(origin) => Ok(Some(Ready(origin)))
  }

  function ParseError(key: string, payload: string): Result<Option<SidecarEvent>, ProtocolError> {
    match ReadPayload(key, payload)
    case None => Err(InvalidPayload)
    case Some((protocol, text)) =>
      match ParseCode(text)
      case None => Err(InvalidPayload)
      case Some(code) =>
        if protocol > 255 then Err(InvalidPayload)
        else if protocol != PROTOCOL_VERSION then Err(UnsupportedVersion)
        else Ok(Some(Error(code)))
  }

  function ParseTrimmed(ready: string, error: string, control: string, line: string)
    : Result<Option<SidecarEvent>, ProtocolError>
  {
    if ready <= line then ParseReady("origin", line[|ready|..])
    else if error <= line then ParseError("code", line[|error|..])
    else if control <= line then Err(UnknownControlPrefix)
    else Ok(None)
  }

  /** `Ok(None)` is ordinary output, which the host ignores. */
  function ParseSidecarLine(raw: string): Result<Option<SidecarEvent>, ProtocolError> {
    ParseTrimmed(READY_PREFIX, ERROR_PREFIX, CONTROL_PREFIX, TrimLineEnding(raw))
  }

  /** What the host makes of one line of sidecar output. */
  type Verdict = Result<Option<SidecarEvent>, ProtocolError>

  function VerdictsOf(lines: seq<string>): seq<Verdict> {
    seq(|lines|, i requires 0 <= i < |lines| => ParseSidecarLine(lines[i]))
  }
}
