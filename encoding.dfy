/** Byte encodings the modelled code feeds to its hash functions:
    `int.to_bytes(w, 'big')`, `str.encode()` (UTF-8), `bytes.hex()` /
    `bytes.fromhex`, and `str(n)` for naturals. */
module Encoding {
  import opened Wrappers
  import opened BitVector

  function Pow256(w: nat): (p: nat)
    ensures p >= 1
  {
    if w == 0 then 1 else 256 * Pow256(w - 1)
  }

  /** `n.to_bytes(w, 'big')`, which raises OverflowError when n needs more
      than w bytes. */
  function ToBigEndian(n: nat, w: nat): (r: Result<Bytes>)
    ensures r.Success? <==> n < Pow256(w)
    ensures r.Success? ==> |r.value| == w
  {
    if n >= Pow256(w) then Failure(OverflowError) else Success(BigEndian(n, w))
  }

  function BigEndian(n: nat, w: nat): (r: Bytes)
    requires n < Pow256(w)
    ensures |r| == w
  {
    if w == 0 then [] else BigEndian(n / 256, w - 1) + [ByteOf(n % 256)]
  }

  /** `int.from_bytes(b, 'big')` */
  function FromBigEndian(b: Bytes): (n: nat)
    ensures n < Pow256(|b|)
  {
    if b == [] then 0 else 256 * FromBigEndian(b[..|b| - 1]) + b[|b| - 1] as int
  }

  lemma {:induction false} BigEndianRoundTrip(n: nat, w: nat)
    requires n < Pow256(w)
    ensures FromBigEndian(BigEndian(n, w)) == n
  {
    if w > 0 {
      var r := BigEndian(n, w);
      var q, m := n / 256, n % 256;
      assert n == 256 * q + m;
      assert r == BigEndian(q, w - 1) + [ByteOf(m)];
      assert r[..w - 1] == BigEndian(q, w - 1);
      BigEndianRoundTrip(q, w - 1);
      assert FromBigEndian(r) == 256 * FromBigEndian(r[..w - 1]) + m;
    }
  }

  lemma BigEndianInjective(m: nat, n: nat, w: nat)
    requires m < Pow256(w) && n < Pow256(w)
    ensures BigEndian(m, w) == BigEndian(n, w) <==> m == n
  {
    BigEndianRoundTrip(m, w);
    BigEndianRoundTrip(n, w);
  }

  /** The width of a hash counter, in bytes. */
  const CounterWidth: nat := 4

  /** The four-byte big-endian counter `i.to_bytes(4, 'big')`. */
  function Be4(n: nat): (r: Bytes)
    requires n < 0x1_0000_0000
    ensures |r| == 4
  {
    assert Pow256(CounterWidth) == 0x1_0000_0000;
    BigEndian(n, CounterWidth)
  }

  /** The four counter bytes read back as the counter. */
  lemma Be4RoundTrip(n: nat)
    requires n < 0x1_0000_0000
    ensures FromBigEndian(Be4(n)) == n
  {
    assert Pow256(CounterWidth) == 0x1_0000_0000;
    BigEndianRoundTrip(n, CounterWidth);
  }

  // ---------------------------------------------------------------- hex

  function HexDigit(d: nat): (c: char)
    requires d < 16
    ensures IsHexDigit(c) && HexValue(c) == d
  {
    if d < 10 then ('0' as int + d) as char else ('a' as int + d - 10) as char
  }

  predicate IsHexDigit(c: char)
  {
    '0' <= c <= '9' || 'a' <= c <= 'f' || 'A' <= c <= 'F'
  }

  function HexValue(c: char): (d: nat)
    requires IsHexDigit(c)
    ensures d < 16
  {
    if '0' <= c <= '9' then c as int - '0' as int
    else if 'a' <= c <= 'f' then c as int - 'a' as int + 10
    else c as int - 'A' as int + 10
  }

  /** `bytes.hex()`: two lower-case digits per byte. */
  function ToHex(b: Bytes): (s: string)
    ensures |s| == 2 * |b|
    ensures forall i :: 0 <= i < |s| ==> IsHexDigit(s[i])
  {
    if b == [] then []
    else [HexDigit(b[0] as int / 16), HexDigit(b[0] as int % 16)] + ToHex(b[1..])
  }

  predicate IsHex(s: string)
  {
    |s| % 2 == 0 && forall i :: 0 <= i < |s| ==> IsHexDigit(s[i])
  }

  function HexBytes(s: string): (b: Bytes)
    requires IsHex(s)
    ensures |b| == |s| / 2
  {
    if s == [] then []
    else [ByteOf(HexValue(s[0]) * 16 + HexValue(s[1]))] + HexBytes(s[2..])
  }

  /** `bytes.fromhex`: ValueError on an odd number of digits or on a
      character that is not a hex digit. */
  function FromHex(s: string): (r: Result<Bytes>)
    ensures r.Success? <==> IsHex(s)
    ensures r.Success? ==> |r.value| == |s| / 2
  {
    if IsHex(s) then Success(HexBytes(s)) else Failure(ValueError)
  }

  lemma {:induction false} HexRoundTrip(b: Bytes)
    ensures FromHex(ToHex(b)) == Success(b)
  {
    HexBytesToHex(b);
  }

  lemma {:induction false} HexBytesToHex(b: Bytes)
    ensures IsHex(ToHex(b)) && HexBytes(ToHex(b)) == b
  {
    if b != [] {
      var s := ToHex(b);
      assert s[2..] == ToHex(b[1..]);
      HexBytesToHex(b[1..]);
      HexPair(b[0]);
    }
  }

  /** The two digits written for a byte read back as that byte. */
  lemma HexPair(x: bv8)
    ensures ByteOf(HexValue(HexDigit(x as int / 16)) * 16 + HexValue(HexDigit(x as int % 16))) == x
  {
    var v := x as int;
    assert v / 16 * 16 + v % 16 == v;
    SameByte(ByteOf(v), x);
  }

  // ------------------------------------------------------------ decimal

  function DecimalDigit(d: nat): (c: char)
    requires d < 10
  {
    ('0' as int + d) as char
  }

  /** `str(n)` for a natural number: its decimal digits, no leading zeros. */
  function NatToString(n: nat): (s: string)
    ensures |s| >= 1
    ensures forall i :: 0 <= i < |s| ==> '0' <= s[i] <= '9'
    ensures |s| > 1 ==> s[0] != '0'
  {
    if n < 10 then [DecimalDigit(n)] else NatToString(n / 10) + [DecimalDigit(n % 10)]
  }

  /** `int(s)` on a string of decimal digits. */
  function ParseDigits(s: string): (n: nat)
    requires forall i :: 0 <= i < |s| ==> '0' <= s[i] <= '9'
  {
    if s == [] then 0 else 10 * ParseDigits(s[..|s| - 1]) + (s[|s| - 1] as int - '0' as int)
  }

  lemma {:induction false} NatToStringRoundTrip(n: nat)
    ensures ParseDigits(NatToString(n)) == n
  {
    if n >= 10 {
      var s := NatToString(n);
      assert s[..|s| - 1] == NatToString(n / 10);
      NatToStringRoundTrip(n / 10);
    }
  }

  lemma NatToStringInjective(m: nat, n: nat)
    ensures NatToString(m) == NatToString(n) <==> m == n
  {
    NatToStringRoundTrip(m);
    NatToStringRoundTrip(n);
  }

  // ------------------------------------------------------------- UTF-8

  /** Byte values written as integers, each below 256. */
  type Units = u: seq<int> | forall i :: 0 <= i < |u| ==> 0 <= u[i] < 256

  /** One byte value as a byte, counted up from zero so that the solver
      never has to reason about an integer-to-bit-vector conversion. */
  function ByteOf(m: nat): (b: bv8)
    requires m < 256
    ensures b as int == m
  {
    if m == 0 then 0 else ByteOf(m - 1) + 1
  }

  /** Two bytes with the same value are the same byte. */
  lemma SameByte(x: bv8, y: bv8)
    requires x as int == y as int
    ensures x == y
  {
  }

  function FromUnits(u: Units): (b: Bytes)
    ensures |b| == |u|
    ensures forall i :: 0 <= i < |u| ==> b[i] as int == u[i]
  {
    seq(|u|, i requires 0 <= i < |u| => ByteOf(u[i]))
  }

  /** The UTF-8 code units of one Unicode scalar value. */
  function CodeUnits(cp: int): (u: Units)
    requires 0 <= cp < 0x110000
    ensures 1 <= |u| <= 4
  {
    if cp < 0x80 then [cp]
    else if cp < 0x800 then [0xC0 + cp / 64, 0x80 + cp % 64]
    else if cp < 0x10000 then [0xE0 + cp / 4096, 0x80 + cp / 64 % 64, 0x80 + cp % 64]
    else [0xF0 + cp / 262144, 0x80 + cp / 4096 % 64, 0x80 + cp / 64 % 64, 0x80 + cp % 64]
  }

  /** UTF-8 encoding of one Unicode scalar value. */
  function EncodeChar(c: char): (r: Bytes)
    ensures 1 <= |r| <= 4
  {
    FromUnits(CodeUnits(c as int))
  }

  /** `str.encode()` */
  function Utf8(s: string): (r: Bytes)
    ensures |r| >= |s|
  {
    if s == [] then [] else EncodeChar(s[0]) + Utf8(s[1..])
  }

  /** The sequence length announced by a lead unit, 0 for a unit that
      cannot start a sequence. */
  function SequenceLength(lead: int): nat
  {
    if lead < 0x80 then 1
    else if 0xC0 <= lead < 0xE0 then 2
    else if 0xE0 <= lead < 0xF0 then 3
    else if 0xF0 <= lead < 0xF8 then 4
    else 0
  }

  /** The code point a well-formed sequence of one to four units spells. */
  function CodePoint(u: seq<int>): int
    requires 1 <= |u| <= 4
  {
    if |u| == 1 then u[0]
    else if |u| == 2 then (u[0] - 0xC0) * 64 + (u[1] - 0x80)
    else if |u| == 3 then (u[0] - 0xE0) * 4096 + (u[1] - 0x80) * 64 + (u[2] - 0x80)
    else (u[0] - 0xF0) * 262144 + (u[1] - 0x80) * 4096 + (u[2] - 0x80) * 64 + (u[3] - 0x80)
  }

  lemma CodeUnitsDecode(cp: int)
    requires 0 <= cp < 0x110000
    ensures SequenceLength(CodeUnits(cp)[0]) == |CodeUnits(cp)|
    ensures CodePoint(CodeUnits(cp)) == cp
  {
    var q := cp / 64;
    var p := q / 64;
    assert cp == q * 64 + cp % 64;
    assert q == p * 64 + q % 64;
    assert p == (p / 64) * 64 + p % 64;
    assert cp / 4096 == p;
    assert cp / 262144 == p / 64;
  }

  /** The lead byte of a character's encoding announces its length, and the
      bytes spell the character's code point. */
  lemma EncodeCharDecodes(c: char)
    ensures SequenceLength(EncodeChar(c)[0] as int) == |EncodeChar(c)|
    ensures CodePoint(seq(|EncodeChar(c)|, i requires 0 <= i < |EncodeChar(c)| => EncodeChar(c)[i] as int)) == c as int
  {
    var u := CodeUnits(c as int);
    CodeUnitsDecode(c as int);
    assert seq(|EncodeChar(c)|, i requires 0 <= i < |EncodeChar(c)| => EncodeChar(c)[i] as int) == u;
  }

  lemma EncodeCharInjective(c: char, d: char)
    requires EncodeChar(c) == EncodeChar(d)
    ensures c == d
  {
    EncodeCharDecodes(c);
    EncodeCharDecodes(d);
  }

  /** Distinct strings have distinct UTF-8 encodings. */
  lemma {:induction false} Utf8Injective(s: string, t: string)
    requires Utf8(s) == Utf8(t)
    ensures s == t
  {
    if s != [] && t != [] {
      var e, f := EncodeChar(s[0]), EncodeChar(t[0]);
      EncodeCharDecodes(s[0]);
      EncodeCharDecodes(t[0]);
      assert e[0] == Utf8(s)[0] == Utf8(t)[0] == f[0];
      assert |e| == |f|;
      assert e == Utf8(s)[..|e|] == Utf8(t)[..|f|] == f;
      EncodeCharInjective(s[0], t[0]);
      assert Utf8(s[1..]) == Utf8(s)[|e|..] == Utf8(t)[|f|..] == Utf8(t[1..]);
      Utf8Injective(s[1..], t[1..]);
    }
  }

  lemma {:induction false} Utf8Append(s: string, t: string)
    ensures Utf8(s + t) == Utf8(s) + Utf8(t)
  {
    if s == [] {
      assert s + t == t;
    } else {
      assert (s + t)[1..] == s[1..] + t;
      Utf8Append(s[1..], t);
    }
  }

  // ------------------------------------------------ binary strings

  predicate IsBinary(s: string)
  {
    forall i :: 0 <= i < |s| ==> s[i] == '0' || s[i] == '1'
  }

  /** The number a string of binary digits denotes. */
  function BinaryValue(s: string): nat
    requires IsBinary(s)
  {
    if s == [] then 0 else 2 * BinaryValue(s[..|s| - 1]) + (if s[|s| - 1] == '1' then 1 else 0)
  }

  /** `int(s, 2)` on a string of binary digits: at least one digit is
      needed, anything else raises ValueError. */
  function ParseBinary(s: string): (r: Result<nat>)
    ensures r.Success? <==> s != [] && IsBinary(s)
    ensures r.Failure? ==> r.error == ValueError
  {
    if s != [] && IsBinary(s) then Success(BinaryValue(s)) else Failure(ValueError)
  }
}
