/** URL-safe base64 without padding (section 5 of RFC 4648), decoded strictly:
    leftover bits of a final partial group must be zero (section 3.5). */
module Base64 {
  import opened Wrappers
  import opened JsonText

  type Six = n: int | 0 <= n < 64

  // ---------- The alphabet ----------

  function Symbol(n: Six): char {
    if n < 26 then ('A' as int + n) as char
    else if n < 52 then ('a' as int + n - 26) as char
    else if n < 62 then ('0' as int + n - 52) as char
    else if n == 62 then '-' else '_'
  }

  function Sextet(c: char): (r: Option<Six>)
    ensures r.Some? ==> Symbol(r.value) == c
  {
    if 'A' <= c <= 'Z' then Some(c as int - 'A' as int)
    else if 'a' <= c <= 'z' then Some(c as int - 'a' as int + 26)
    else if '0' <= c <= '9' then Some(c as int - '0' as int + 52)
    else if c == '-' then Some(62)
    else if c == '_' then Some(63)
    else None
  }

  lemma SextetOfSymbol(n: Six)
    ensures Sextet(Symbol(n)) == Some(n)
  {
  }

  function Symbols(x: seq<Six>): string {
    if x == [] then "" else [Symbol(x[0])] + Symbols(x[1..])
  }

  function Sextets(s: string): Option<seq<Six>> {
    if s == "" then Some([])
    else match Sextet(s[0])
      case None => None
      case Some(n) =>
        match Sextets(s[1..])
        case None => None
        case Some(rest) => Some([n] + rest)
  }

  lemma {:induction false} SextetsOfSymbols(x: seq<Six>)
    ensures Sextets(Symbols(x)) == Some(x)
  {
    if x != [] {
      SextetOfSymbol(x[0]);
      SextetsOfSymbols(x[1..]);
      assert Symbols(x)[1..] == Symbols(x[1..]);
      assert x == [x[0]] + x[1..];
    }
  }

  lemma {:induction false} SymbolsOfSextets(s: string)
    requires Sextets(s).Some?
    ensures Symbols(Sextets(s).value) == s
  {
    if s != "" {
      SymbolsOfSextets(s[1..]);
      assert Sextets(s).value[1..] == Sextets(s[1..]).value;
    }
  }

  // ---------- Regrouping eight bits as six ----------

  function Byte0(x: Six, y: Six): Byte { x * 4 + y / 16 }
  function Byte1(y: Six, z: Six): Byte { y % 16 * 16 + z / 4 }
  function Byte2(z: Six, w: Six): Byte { z % 4 * 64 + w }
  function Sextet0(a: Byte): Six { a / 4 }
  function Sextet1(a: Byte, b: Byte): Six { a % 4 * 16 + b / 16 }
  function Sextet2(b: Byte, c: Byte): Six { b % 16 * 4 + c / 64 }
  function Sextet3(c: Byte): Six { c % 64 }
  function LastOfOne(a: Byte): Six { a % 4 * 16 }
  function LastOfTwo(b: Byte): Six { b % 16 * 4 }

  lemma BytesOfSextets(a: Byte, b: Byte, c: Byte)
    ensures Byte0(Sextet0(a), Sextet1(a, b)) == a
    ensures Byte1(Sextet1(a, b), Sextet2(b, c)) == b
    ensures Byte2(Sextet2(b, c), Sextet3(c)) == c
    ensures LastOfOne(a) % 16 == 0 && Byte0(Sextet0(a), LastOfOne(a)) == a
    ensures LastOfTwo(b) % 4 == 0 && Byte1(Sextet1(a, b), LastOfTwo(b)) == b
  {
    BySixteen(a % 4, b / 16);
    BySixteen(a % 4, 0);
    ByFour(b % 16, c / 64);
    ByFour(b % 16, 0);
  }

  lemma BySixteen(q: nat, r: nat)
    requires r < 16
    ensures (q * 16 + r) / 16 == q && (q * 16 + r) % 16 == r
  {
  }

  lemma ByFour(q: nat, r: nat)
    requires r < 4
    ensures (q * 4 + r) / 4 == q && (q * 4 + r) % 4 == r
  {
  }

  lemma SextetsOfBytes(x: Six, y: Six, z: Six, w: Six)
    ensures Sextet0(Byte0(x, y)) == x
    ensures Sextet1(Byte0(x, y), Byte1(y, z)) == y
    ensures Sextet2(Byte1(y, z), Byte2(z, w)) == z
    ensures Sextet3(Byte2(z, w)) == w
    ensures y % 16 == 0 ==> LastOfOne(Byte0(x, y)) == y
    ensures z % 4 == 0 ==> LastOfTwo(Byte1(y, z)) == z
  {
    assert Byte0(x, y) % 4 == y / 16;
    assert Byte1(y, z) / 16 == y % 16;
    assert Byte1(y, z) % 16 == z / 4;
    assert Byte2(z, w) / 64 == z % 4;
  }

  function Pack(b: seq<Byte>): seq<Six> {
    if |b| == 0 then []
    else if |b| == 1 then [Sextet0(b[0]), LastOfOne(b[0])]
    else if |b| == 2 then [Sextet0(b[0]), Sextet1(b[0], b[1]), LastOfTwo(b[1])]
    else [Sextet0(b[0]), Sextet1(b[0], b[1]), Sextet2(b[1], b[2]), Sextet3(b[2])] + Pack(b[3..])
  }

  function Unpack(x: seq<Six>): Option<seq<Byte>> {
    if |x| == 0 then Some([])
    else if |x| == 1 then None
    else if |x| == 2 then
      if x[1] % 16 != 0 then None else Some([Byte0(x[0], x[1])])
    else if |x| == 3 then
      if x[2] % 4 != 0 then None else Some([Byte0(x[0], x[1]), Byte1(x[1], x[2])])
    else match Unpack(x[4..])
      case None => None
      case Some(rest) => Some([Byte0(x[0], x[1]), Byte1(x[1], x[2]), Byte2(x[2], x[3])] + rest)
  }

  lemma UnpackOne(x: Six, y: Six)
    requires y % 16 == 0
    ensures Unpack([x, y]) == Some([Byte0(x, y)])
  {
  }

  lemma UnpackTwo(x: Six, y: Six, z: Six)
    requires z % 4 == 0
    ensures Unpack([x, y, z]) == Some([Byte0(x, y), Byte1(y, z)])
  {
  }

  lemma PackOne(a: Byte) returns (x: Six, y: Six)
    ensures Pack([a]) == [x, y] && y % 16 == 0 && Byte0(x, y) == a
  {
    x, y := Sextet0(a), LastOfOne(a);
    BytesOfSextets(a, 0, 0);
  }

  lemma PackTwo(a: Byte, b: Byte) returns (x: Six, y: Six, z: Six)
    ensures Pack([a, b]) == [x, y, z] && z % 4 == 0 && Byte0(x, y) == a && Byte1(y, z) == b
  {
    x, y, z := Sextet0(a), Sextet1(a, b), LastOfTwo(b);
    BytesOfSextets(a, b, 0);
  }

  lemma PackGroup(a: Byte, b: Byte, c: Byte, rest: seq<Byte>) returns (x: Six, y: Six, z: Six, w: Six)
    ensures Pack([a, b, c] + rest) == [x, y, z, w] + Pack(rest)
    ensures Byte0(x, y) == a && Byte1(y, z) == b && Byte2(z, w) == c
  {
    x, y, z, w := Sextet0(a), Sextet1(a, b), Sextet2(b, c), Sextet3(c);
    BytesOfSextets(a, b, c);
    assert ([a, b, c] + rest)[3..] == rest;
  }

  lemma {:induction false} UnpackPack(b: seq<Byte>)
    ensures Unpack(Pack(b)) == Some(b)
  {
    if |b| == 1 {
      var x, y := PackOne(b[0]);
      UnpackOne(x, y);
      assert b == [b[0]];
    } else if |b| == 2 {
      var x, y, z := PackTwo(b[0], b[1]);
      UnpackTwo(x, y, z);
      assert b == [b[0], b[1]];
    } else if |b| > 2 {
      var x, y, z, w := PackGroup(b[0], b[1], b[2], b[3..]);
      UnpackPack(b[3..]);
      assert b == [b[0], b[1], b[2]] + b[3..];
      assert ([x, y, z, w] + Pack(b[3..]))[4..] == Pack(b[3..]);
    }
  }

  lemma PackUnpackShort(x: Six, y: Six, z: Six)
    ensures y % 16 == 0 ==> Pack([Byte0(x, y)]) == [x, y]
    ensures z % 4 == 0 ==> Pack([Byte0(x, y), Byte1(y, z)]) == [x, y, z]
  {
    SextetsOfBytes(x, y, z, 0);
    var a, b := Byte0(x, y), Byte1(y, z);
    assert Pack([a]) == [Sextet0(a), LastOfOne(a)];
    assert Pack([a, b]) == [Sextet0(a), Sextet1(a, b), LastOfTwo(b)];
  }

  lemma PackUnpackGroup(x: Six, y: Six, z: Six, w: Six, rest: seq<Byte>)
    ensures Pack([Byte0(x, y), Byte1(y, z), Byte2(z, w)] + rest) == [x, y, z, w] + Pack(rest)
  {
    SextetsOfBytes(x, y, z, w);
    var a, b, c := Byte0(x, y), Byte1(y, z), Byte2(z, w);
    assert ([a, b, c] + rest)[3..] == rest;
  }

  lemma {:induction false} PackUnpack(x: seq<Six>)
    requires Unpack(x).Some?
    ensures Pack(Unpack(x).value) == x
  {
    if |x| > 3 {
      PackUnpackGroup(x[0], x[1], x[2], x[3], Unpack(x[4..]).value);
      PackUnpack(x[4..]);
      assert x == [x[0], x[1], x[2], x[3]] + x[4..];
    } else if |x| == 3 {
      PackUnpackShort(x[0], x[1], x[2]);
      assert x == [x[0], x[1], x[2]];
    } else if |x| == 2 {
      PackUnpackShort(x[0], x[1], 0);
      assert x == [x[0], x[1]];
    }
  }

  // ---------- The codec ----------

  function Encode(b: seq<Byte>): string {
    Symbols(Pack(b))
  }

  function Decode(s: string): Option<seq<Byte>> {
    match Sextets(s)
    case None => None
    case Some(x) => Unpack(x)
  }

  /** Every byte string is read back from its encoding. */
  lemma DecodeEncode(b: seq<Byte>)
    ensures Decode(Encode(b)) == Some(b)
  {
    SextetsOfSymbols(Pack(b));
    UnpackPack(b);
  }

  /** Strict decoding accepts only canonical texts. */
  lemma EncodeDecode(s: string)
    requires Decode(s).Some?
    ensures Encode(Decode(s).value) == s
  {
    SymbolsOfSextets(s);
    PackUnpack(Sextets(s).value);
  }

  /** A text is the symbols of its digits. */
  lemma {:induction false} SymbolsAt(x: seq<Six>)
    ensures |Symbols(x)| == |x| && forall i :: 0 <= i < |x| ==> Symbols(x)[i] == Symbol(x[i])
  {
    if x != [] {
      SymbolsAt(x[1..]);
    }
  }

  /** Three bytes are a number of 24 bits, whose four digits to the base 64 are written. */
  lemma GroupIsANumber(a: Byte, b: Byte, c: Byte, rest: seq<Byte>) returns (x: Six, y: Six, z: Six, w: Six)
    ensures Pack([a, b, c] + rest) == [x, y, z, w] + Pack(rest)
    ensures x * 0x4_0000 + y * 0x1000 + z * 0x40 + w == a * 0x1_0000 + b * 0x100 + c
  {
    x, y, z, w := PackGroup(a, b, c, rest);
    assert y == y / 16 * 16 + y % 16 && z == z / 4 * 4 + z % 4;
  }

  /** A byte or two left over are padded with zero bits. */
  lemma LeftoverIsANumber(a: Byte, b: Byte) returns (x: Six, y: Six, u: Six, v: Six, w: Six)
    ensures Pack([a]) == [x, y] && x * 0x40 + y == a * 0x10
    ensures Pack([a, b]) == [u, v, w] && u * 0x1000 + v * 0x40 + w == (a * 0x100 + b) * 4
  {
    x, y := PackOne(a);
    u, v, w := PackTwo(a, b);
    assert y == y / 16 * 16 && v == v / 16 * 16 + v % 16 && w == w / 4 * 4;
  }
}
