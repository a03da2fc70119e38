/** JSON string literals (section 7 of RFC 8259) with the extra escapes of Go's
    encoding/json, and their size in UTF-8 bytes. A Dafny `string` is a sequence of
    Unicode scalar values, so it is exactly a valid UTF-8 text. */
module JsonText {
  import opened Wrappers
  import opened Sequences

  type Byte = n: int | 0 <= n < 256

  /** Go strings are byte strings; `Invalid` stands for every one that is not UTF-8. */
  datatype GoString = Valid(text: string) | Invalid

  // ---------- UTF-8 ----------

  function Utf8Char(c: char): (bytes: seq<Byte>)
    ensures 1 <= |bytes| <= 4
  {
    var n := c as int;
    if n < 0x80 then [n]
    else if n < 0x800 then [0xC0 + n / 0x40, 0x80 + n % 0x40]
    else if n < 0x1_0000 then [0xE0 + n / 0x1000, 0x80 + n / 0x40 % 0x40, 0x80 + n % 0x40]
    else [0xF0 + n / 0x4_0000, 0x80 + n / 0x1000 % 0x40, 0x80 + n / 0x40 % 0x40, 0x80 + n % 0x40]
  }

  function Utf8(s: string): seq<Byte> {
    FlatMap(Utf8Char, s)
  }

  // ---------- Escaping ----------

  function HexDigit(d: nat): (c: char)
    requires d < 16
  {
    if d < 10 then ('0' as int + d) as char else ('a' as int + d - 10) as char
  }

  function HexEscape(n: nat): string
    requires n < 0x1_0000
  {
    ['\\', 'u', HexDigit(n / 0x1000), HexDigit(n / 0x100 % 16), HexDigit(n / 0x10 % 16), HexDigit(n % 16)]
  }

  function EscapeChar(c: char): (s: string)
    ensures |s| > 0
  {
    if c == '\"' then ['\\', '\"']
    else if c == '\\' then ['\\', '\\']
    else if c as int == 8 then ['\\', 'b']
    else if c as int == 12 then ['\\', 'f']
    else if c == '\n' then ['\\', 'n']
    else if c == '\r' then ['\\', 'r']
    else if c == '\t' then ['\\', 't']
    else if c as int < 0x20 || c == '<' || c == '>' || c == '&' || c as int == 0x2028 || c as int == 0x2029
    then HexEscape(c as int)
    else [c]
  }

  function Escape(s: string): string {
    FlatMap(EscapeChar, s)
  }

  function Quote(s: string): string {
    ['\"'] + Escape(s) + ['\"']
  }

  // ---------- Reading a string literal ----------

  function HexValue(c: char): Option<nat> {
    if '0' <= c <= '9' then Some(c as int - '0' as int)
    else if 'a' <= c <= 'f' then Some(c as int - 'a' as int + 10)
    else if 'A' <= c <= 'F' then Some(c as int - 'A' as int + 10)
    else None
  }

  /** The character named by `\uXXXX`; a surrogate half names none. */
  function HexChar(s: string): Option<char>
    requires |s| == 4
  {
    var a, b, c, d := HexValue(s[0]), HexValue(s[1]), HexValue(s[2]), HexValue(s[3]);
    if a.None? || b.None? || c.None? || d.None? then None
    else
      var n := a.value * 0x1000 + b.value * 0x100 + c.value * 0x10 + d.value;
      if 0xD800 <= n < 0xE000 || n >= 0x1_0000 then None else Some(n as char)
  }

  function ShortEscape(c: char): Option<char> {
    match c
    case '\"' => Some('\"')
    case '\\' => Some('\\')
    case '/' => Some('/')
    case 'b' => Some(8 as char)
    case 'f' => Some(12 as char)
    case 'n' => Some('\n')
    case 'r' => Some('\r')
    case 't' => Some('\t')
    case _ => None
  }

  /** One character of a string literal and the text after it. */
  function ReadChar(s: string): (r: Option<(char, string)>)
    requires s != ""
    ensures r.Some? ==> |r.value.1| < |s|
  {
    if s[0] == '\\' then
      if |s| < 2 then None
      else if s[1] == 'u' then
        if |s| < 6 then None
        else match HexChar(s[2..6]) case None => None case Some(c) => Some((c, s[6..]))
      else match ShortEscape(s[1]) case None => None case Some(c) => Some((c, s[2..]))
    else if s[0] as int < 0x20 then None
    else Some((s[0], s[1..]))
  }

  /** The text of a string literal whose opening quote was consumed, and what follows its closing quote. */
  function ReadBody(s: string): (r: Option<(string, string)>)
    ensures r.Some? ==> |r.value.1| < |s|
    decreases |s|
  {
    if s == "" then None
    else if s[0] == '\"' then Some(("", s[1..]))
    else match ReadChar(s)
      case None => None
      case Some((c, rest)) =>
        match ReadBody(rest)
        case None => None
        case Some((text, after)) => Some(([c] + text, after))
  }

  lemma HexDigitValue(d: nat)
    requires d < 16
    ensures HexValue(HexDigit(d)) == Some(d)
  {
  }

  lemma FourHexDigits(n: nat)
    requires n < 0x1_0000
    ensures n / 0x1000 * 0x1000 + n / 0x100 % 16 * 0x100 + n / 0x10 % 16 * 0x10 + n % 16 == n
  {
    assert n / 0x100 == n / 0x1000 * 16 + n / 0x100 % 16;
    assert n / 0x10 == n / 0x100 * 16 + n / 0x10 % 16;
  }

  lemma ReadHexEscape(n: nat, rest: string)
    requires n < 0xD800
    ensures ReadChar(HexEscape(n) + rest) == Some((n as char, rest))
  {
    var s := HexEscape(n) + rest;
    HexDigitValue(n / 0x1000);
    HexDigitValue(n / 0x100 % 16);
    HexDigitValue(n / 0x10 % 16);
    HexDigitValue(n % 16);
    FourHexDigits(n);
    assert s[2..6] == HexEscape(n)[2..6] && s[6..] == rest;
    assert HexChar(HexEscape(n)[2..6]) == Some(n as char);
  }

  lemma ReadEscapedChar(c: char, rest: string)
    ensures EscapeChar(c)[0] != '\"'
    ensures ReadChar(EscapeChar(c) + rest) == Some((c, rest))
  {
    var e := EscapeChar(c);
    assert (e + rest)[|e|..] == rest;
    if |e| == 6 {
      ReadHexEscape(c as int, rest);
    }
  }

  /** Every text survives escaping: reading its literal gives the text and stops at the closing quote. */
  lemma {:induction false} ReadQuoted(s: string, rest: string)
    ensures ReadBody(Escape(s) + ['\"'] + rest) == Some((s, rest))
  {
    if s == "" {
      assert (['\"'] + rest)[1..] == rest;
    } else {
      var tail := Escape(s[1..]) + ['\"'] + rest;
      ReadQuoted(s[1..], rest);
      ReadEscapedChar(s[0], tail);
      assert Escape(s) + ['\"'] + rest == EscapeChar(s[0]) + tail;
      assert s == [s[0]] + s[1..];
    }
  }

  lemma QuoteInjective(s: string, t: string)
    requires Quote(s) == Quote(t)
    ensures s == t
  {
    ReadQuoted(s, "");
    ReadQuoted(t, "");
    assert Quote(s)[1..] == Escape(s) + ['\"'] + "";
    assert Quote(t)[1..] == Escape(t) + ['\"'] + "";
  }

  // ---------- The size computed without building the literal ----------

  function RuneLen(c: char): nat {
    var n := c as int;
    if n < 0x80 then 1 else if n < 0x800 then 2 else if n < 0x1_0000 then 3 else 4
  }

  function CharSize(c: char): nat {
    if c == '\"' || c == '\\' || c as int == 8 || c as int == 12 || c == '\n' || c == '\r' || c == '\t' then 2
    else if c as int < 0x20 || c == '<' || c == '>' || c == '&' || c as int == 0x2028 || c as int == 0x2029 then 6
    else RuneLen(c)
  }

  /** Bytes of the JSON literal of `s`, quotes included. */
  function QuotedSize(s: string): nat {
    |Utf8(Quote(s))|
  }

  lemma {:induction false} Utf8Ascii(s: string)
    requires forall i :: 0 <= i < |s| ==> s[i] as int < 0x80
    ensures |Utf8(s)| == |s|
  {
    if s != "" {
      Utf8Ascii(s[1..]);
    }
  }

  predicate Ascii(s: string) {
    forall i :: 0 <= i < |s| ==> s[i] as int < 0x80
  }

  function ByteSize(s: string): nat {
    |Utf8(s)|
  }

  lemma ByteSizeJoin(a: string, b: string)
    ensures ByteSize(a + b) == ByteSize(a) + ByteSize(b)
  {
    FlatMapConcat(Utf8Char, a, b);
  }

  /** JSON texts with commas between them. */
  function Joined(texts: seq<string>): string {
    if texts == [] then ""
    else if |texts| == 1 then texts[0]
    else Joined(texts[..|texts| - 1]) + "," + texts[|texts| - 1]
  }

  lemma JoinedLast(texts: seq<string>, text: string)
    ensures ByteSize(Joined(texts + [text])) ==
      ByteSize(Joined(texts)) + (if texts == [] then 0 else 1) + ByteSize(text)
  {
    var all := texts + [text];
    assert all[..|all| - 1] == texts;
    if texts != [] {
      ByteSizeJoin(Joined(texts), ",");
      ByteSizeJoin(Joined(texts) + ",", text);
      Utf8Ascii(",");
    }
  }

  lemma EscapedCharSize(c: char)
    ensures |Utf8(EscapeChar(c))| == CharSize(c)
  {
    var e := EscapeChar(c);
    if |e| > 1 {
      Utf8Ascii(e);
    } else {
      FlatMapOne(Utf8Char, c);
    }
  }

  lemma QuotedSizeSplit(s: string)
    ensures QuotedSize(s) == 2 + |Utf8(Escape(s))|
  {
    Utf8Ascii(['\"']);
    FlatMapConcat(Utf8Char, ['\"'], Escape(s));
    FlatMapConcat(Utf8Char, ['\"'] + Escape(s), ['\"']);
  }

  /** Sizes compose: joining two texts saves one pair of quotes. */
  lemma QuotedSizeConcat(a: string, b: string)
    ensures QuotedSize(a + b) == QuotedSize(a) + QuotedSize(b) - 2
  {
    QuotedSizeSplit(a);
    QuotedSizeSplit(b);
    QuotedSizeSplit(a + b);
    FlatMapConcat(EscapeChar, a, b);
    FlatMapConcat(Utf8Char, Escape(a), Escape(b));
  }

  lemma QuotedSizeLast(a: string, c: char)
    ensures QuotedSize(a + [c]) == QuotedSize(a) + CharSize(c)
  {
    QuotedSizeConcat(a, [c]);
    QuotedSizeSplit([c]);
    FlatMapOne(EscapeChar, c);
    EscapedCharSize(c);
  }

  /** The running count is the exact size of the literal. */
  method JsonEncodedStringSize(value: string) returns (size: nat)
    ensures size == QuotedSize(value)
  {
    size := 2;
    QuotedSizeSplit("");
    for i := 0 to |value|
      invariant size == QuotedSize(value[..i])
    {
      var c := value[i];
      QuotedSizeLast(value[..i], c);
      assert value[..i + 1] == value[..i] + [c];
      if c == '\"' || c == '\\' || c as int == 8 || c as int == 12 || c == '\n' || c == '\r' || c == '\t' {
        size := size + 2;
      } else if c as int < 0x20 || c == '<' || c == '>' || c == '&' || c as int == 0x2028 || c as int == 0x2029 {
        size := size + 6;
      } else {
        size := size + RuneLen(c);
      }
    }
    assert value[..|value|] == value;
  }
}
