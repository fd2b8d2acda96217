/**
Base64 in the alphabet of section 4 of RFC 4648, with the canonical form of its section 3.5.
The encoding regroups pairs of bits: four to a byte, three to a symbol.
*/
module Base64 {
  import opened Wrappers

  /** Two bits. */
  type Pair = i: int | 0 <= i < 4

  /** A byte, its highest bits first. */
  datatype Byte = Byte(p: Pair, q: Pair, r: Pair, s: Pair)

  type Bytes = seq<Byte>

  const ZERO := Byte(0, 0, 0, 0)

  /** What a character stands for. */
  datatype Code = Sextet(x: Pair, y: Pair, z: Pair) | Pad | Junk

  function SymbolOf(v: int): char
    requires 0 <= v < 64
  {
    if v < 26 then ('A' as int + v) as char
    else if v < 52 then ('a' as int + v - 26) as char
    else if v < 62 then ('0' as int + v - 52) as char
    else if v == 62 then '+' else '/'
  }

  function Symbol(code: Code): char {
    match code
    case Sextet(x, y, z) => SymbolOf(16 * x + 4 * y + z)
    case Pad => '='
    case Junk => ' '
  }

  function Split(v: int): Code
    requires 0 <= v < 64
  {
    Sextet(v / 16, v / 4 % 4, v % 4)
  }

  function CodeOf(c: char): Code {
    if 'A' <= c <= 'Z' then Split(c as int - 'A' as int)
    else if 'a' <= c <= 'z' then Split(c as int - 'a' as int + 26)
    else if '0' <= c <= '9' then Split(c as int - '0' as int + 52)
    else if c == '+' then Split(62)
    else if c == '/' then Split(63)
    else if c == '=' then Pad else Junk
  }

  function Symbols(codes: seq<Code>): string {
    seq(|codes|, i requires 0 <= i < |codes| => Symbol(codes[i]))
  }

  function CodesOf(text: string): seq<Code> {
    seq(|text|, i requires 0 <= i < |text| => CodeOf(text[i]))
  }

  /** Three bytes as four symbols. */
  function Quad(a: Byte, b: Byte, c: Byte): seq<Code> {
    [Sextet(a.p, a.q, a.r), Sextet(a.s, b.p, b.q), Sextet(b.r, b.s, c.p), Sextet(c.q, c.r, c.s)]
  }

  /** The last quad is filled up with zero bits and padded. */
  function Codes(bytes: Bytes): seq<Code> {
    match |bytes|
    case 0 => []
    case 1 => (var quad := Quad(bytes[0], ZERO, ZERO); [quad[0], quad[1], Pad, Pad])
    case 2 => (var quad := Quad(bytes[0], bytes[1], ZERO); [quad[0], quad[1], quad[2], Pad])
    case _ => Quad(bytes[0], bytes[1], bytes[2]) + Codes(bytes[3..])
  }

  /** `base64.b64encode` */
  function Encode(bytes: Bytes): string {
    Symbols(Codes(bytes))
  }

  function First(i: Code, j: Code): Byte
    requires i.Sextet? && j.Sextet?
  {
    Byte(i.x, i.y, i.z, j.x)
  }

  function Second(j: Code, k: Code): Byte
    requires j.Sextet? && k.Sextet?
  {
    Byte(j.y, j.z, k.x, k.y)
  }

  function Third(k: Code, l: Code): Byte
    requires k.Sextet? && l.Sextet?
  {
    Byte(k.z, l.x, l.y, l.z)
  }

  /** One quad; only the last one may be padded.  Bits that no byte uses are ignored, whatever they are. */
  function Unquad(i: Code, j: Code, k: Code, l: Code, last: bool): Option<Bytes> {
    if !i.Sextet? || !j.Sextet? then None
    else if last && k == Pad && l == Pad then Some([First(i, j)])
    else if !k.Sextet? then None
    else if last && l == Pad then Some([First(i, j), Second(j, k)])
    else if !l.Sextet? then None
    else Some([First(i, j), Second(j, k), Third(k, l)])
  }

  function BytesOf(codes: seq<Code>): Option<Bytes> {
    if |codes| == 0 then Some([])
    else if |codes| < 4 then None
    else
      var head := Unquad(codes[0], codes[1], codes[2], codes[3], |codes| == 4);
      var later := BytesOf(codes[4..]);
      if head.None? || later.None? then None else Some(head.value + later.value)
  }

  /** `base64.b64decode(..., validate=True)` */
  function Decode(text: string): Option<Bytes> {
    BytesOf(CodesOf(text))
  }

  lemma BytesOfHead(quad: seq<Code>, later: seq<Code>, head: Bytes, tail: Bytes)
    requires |quad| == 4 && Unquad(quad[0], quad[1], quad[2], quad[3], |later| == 0) == Some(head)
    requires BytesOf(later) == Some(tail)
    ensures BytesOf(quad + later) == Some(head + tail)
  {
    assert (quad + later)[4..] == later;
  }

  lemma {:induction false} CodesUndone(bytes: Bytes)
    ensures BytesOf(Codes(bytes)) == Some(bytes)
  {
    var codes := Codes(bytes);
    if |bytes| >= 3 {
      CodesUndone(bytes[3..]);
      BytesOfHead(Quad(bytes[0], bytes[1], bytes[2]), Codes(bytes[3..]), [bytes[0], bytes[1], bytes[2]], bytes[3..]);
      assert bytes == [bytes[0], bytes[1], bytes[2]] + bytes[3..];
    } else if |bytes| > 0 {
      assert bytes == if |bytes| == 1 then [bytes[0]] else [bytes[0], bytes[1]];
      BytesOfHead(codes, [], bytes, []);
      assert codes + [] == codes && bytes + [] == bytes;
    }
  }

  lemma SplitUndone(x: Pair, y: Pair, z: Pair)
    ensures Split(16 * x + 4 * y + z) == Sextet(x, y, z)
  {
    var v := 16 * x + 4 * y + z;
    assert v / 4 == 4 * x + y;
  }

  lemma SymbolOfUndone(v: int)
    requires 0 <= v < 64
    ensures CodeOf(SymbolOf(v)) == Split(v)
  {
  }

  lemma SymbolUndone(code: Code)
    ensures CodeOf(Symbol(code)) == code
  {
    if code.Sextet? {
      SplitUndone(code.x, code.y, code.z);
      SymbolOfUndone(16 * code.x + 4 * code.y + code.z);
    }
  }

  lemma SymbolsUndone(codes: seq<Code>)
    ensures CodesOf(Symbols(codes)) == codes
  {
    forall i | 0 <= i < |codes| ensures CodeOf(Symbol(codes[i])) == codes[i] {
      SymbolUndone(codes[i]);
    }
  }

  lemma DecodeUndoesEncode(bytes: Bytes)
    ensures Decode(Encode(bytes)) == Some(bytes)
  {
    SymbolsUndone(Codes(bytes));
    CodesUndone(bytes);
  }

  /** Decoding, then refusing any text that is not the one the encoder writes. */
  function DecodeCanonical(text: string): Option<Bytes> {
    var decoded := Decode(text);
    if decoded.Some? && Encode(decoded.value) == text then decoded else None
  }

  /** Exactly the encoder's own output is accepted, and it names one byte string. */
  lemma CanonicalIsEncoded(text: string, bytes: Bytes)
    ensures DecodeCanonical(text) == Some(bytes) <==> text == Encode(bytes)
  {
    DecodeUndoesEncode(bytes);
  }

  /** Without the second encoding one byte string would have several texts: stray bits are ignored. */
  lemma StrayBitsAreIgnored(i: Code, j: Code, stray: Code)
    requires i.Sextet? && j.Sextet? && stray.Sextet? && j.x == stray.x
    ensures BytesOf([i, j, Pad, Pad]) == BytesOf([i, stray, Pad, Pad]) == Some([First(i, j)])
  {
    BytesOfHead([i, j, Pad, Pad], [], [First(i, j)], []);
    BytesOfHead([i, stray, Pad, Pad], [], [First(i, j)], []);
    assert [First(i, j)] + [] == [First(i, j)];
    assert [i, j, Pad, Pad] + [] == [i, j, Pad, Pad] && [i, stray, Pad, Pad] + [] == [i, stray, Pad, Pad];
  }

  // --- the encoding as the standard has it ---

  /** Table 1 of RFC 4648: capitals, small letters, digits, plus and slash. */
  predicate IsDigit(c: char, v: nat) {
    || ('A' <= c <= 'Z' && v == c as int - 'A' as int)
    || ('a' <= c <= 'z' && v == c as int - 'a' as int + 26)
    || ('0' <= c <= '9' && v == c as int - '0' as int + 52)
    || (c == '+' && v == 62)
    || (c == '/' && v == 63)
  }

  predicate AreDigits(text: string, values: seq<nat>) {
    |text| >= |values| && forall i | 0 <= i < |values| :: IsDigit(text[i], values[i])
  }

  function Value(b: Byte): nat {
    64 * b.p + 16 * b.q + 4 * b.r + b.s
  }

  lemma SextetIsWritten(code: Code)
    requires code.Sextet?
    ensures IsDigit(Symbol(code), 16 * code.x + 4 * code.y + code.z)
  {
  }

  lemma SymbolsOfTwo(a: seq<Code>, b: seq<Code>)
    ensures Symbols(a + b) == Symbols(a) + Symbols(b)
  {
  }

  /**
  Three bytes are one number of 24 bits, and are written as its four digits to the base 64.  A last byte, or
  a last two, are written in the digits they need, with zero bits behind them and padding.
  */
  lemma EncodingIsStandard(bytes: Bytes) returns (x: nat, y: nat, z: nat, w: nat)
    ensures |bytes| == 0 ==> Encode(bytes) == ""
    ensures |bytes| == 1 ==>
      && AreDigits(Encode(bytes), [x, y]) && Encode(bytes)[2..] == "=="
      && 64 * x + y == 16 * Value(bytes[0])
    ensures |bytes| == 2 ==>
      && AreDigits(Encode(bytes), [x, y, z]) && Encode(bytes)[3..] == "="
      && 4096 * x + 64 * y + z == 4 * (256 * Value(bytes[0]) + Value(bytes[1]))
    ensures |bytes| >= 3 ==>
      && AreDigits(Encode(bytes), [x, y, z, w]) && Encode(bytes)[4..] == Encode(bytes[3..])
      && 262144 * x + 4096 * y + 64 * z + w == 65536 * Value(bytes[0]) + 256 * Value(bytes[1]) + Value(bytes[2])
  {
    var quad := Quad(if |bytes| > 0 then bytes[0] else ZERO, if |bytes| > 1 then bytes[1] else ZERO,
                     if |bytes| > 2 then bytes[2] else ZERO);
    x, y := 16 * quad[0].x + 4 * quad[0].y + quad[0].z, 16 * quad[1].x + 4 * quad[1].y + quad[1].z;
    z, w := 16 * quad[2].x + 4 * quad[2].y + quad[2].z, 16 * quad[3].x + 4 * quad[3].y + quad[3].z;
    forall i | 0 <= i < 4 ensures IsDigit(Symbol(quad[i]), [x, y, z, w][i]) {
      SextetIsWritten(quad[i]);
    }
    if |bytes| >= 3 { SymbolsOfTwo(quad, Codes(bytes[3..])); }
  }
}
