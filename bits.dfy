/** Bytes and bit arrays.  Keys travel as byte strings; the reconciliation
    engines work on bit arrays obtained by unpacking every byte least
    significant bit first, and pack them back the same way. */
module BitVector {

  type Bit = b: int | 0 <= b <= 1
  type Byte = bv8
  type Bytes = seq<Byte>

  function Min(a: int, b: int): int { if a <= b then a else b }
  function Max(a: int, b: int): int { if a >= b then a else b }

  /** `2 ** e` */
  function Pow2(e: nat): (p: nat)
    ensures p >= 1
  {
    if e == 0 then 1 else 2 * Pow2(e - 1)
  }

  /** A product of at least one copy of L is at least L. */
  lemma {:induction false} MulAtLeast(L: nat, k: nat)
    requires k >= 1
    ensures L * k >= L
    decreases k
  {
    if k > 1 {
      MulAtLeast(L, k - 1);
      assert L * k == L * (k - 1) + L;
    }
  }

  /** Multiples of L that differ differ by at least L. */
  lemma MulGap(L: nat, a: int, b: int)
    requires a > b
    ensures L * a - L * b >= L
  {
    MulAtLeast(L, a - b);
    assert L * (a - b) == L * a - L * b;
  }

  /** Quotient and remainder are unique. */
  lemma DivModUnique(x: int, L: int, q: int, r: int)
    requires L > 0 && 0 <= r < L && x == L * q + r
    ensures x % L == r && x / L == q
  {
    var q', r' := x / L, x % L;
    assert x == L * q' + r';
    if q > q' {
      MulGap(L, q, q');
    } else if q < q' {
      MulGap(L, q', q);
    }
  }

  /** `(byte >> i) & 1` */
  function BitOf(b: Byte, i: nat): Bit
    requires i < 8
  {
    if (b >> i) & 1 == 1 then 1 else 0
  }

  /** The eight bits of one byte, least significant first. */
  function ByteBits(b: Byte): (s: seq<Bit>)
    ensures |s| == 8
    ensures forall i :: 0 <= i < 8 ==> s[i] == BitOf(b, i)
  {
    seq(8, i requires 0 <= i < 8 => BitOf(b, i))
  }

  /** Bit j of a packed byte: `bits[j] << j` when bit j exists, else nothing. */
  function Mask(bits: seq<Bit>, j: nat): Byte
    requires j < 8
  {
    if j < |bits| && bits[j] == 1 then (1 as bv8) << j else 0
  }

  /** OR of the masks of the first j positions. */
  function PackPrefix(bits: seq<Bit>, j: nat): Byte
    requires j <= 8
    decreases j
  {
    if j == 0 then 0 else PackPrefix(bits, j - 1) | Mask(bits, j - 1)
  }

  /** One output byte built from up to eight bits, missing bits read as 0. */
  function PackByte(bits: seq<Bit>): Byte
  {
    PackPrefix(bits, 8)
  }

  /** The eight masks of a packed byte, written out. */
  lemma PackByteMasks(s: seq<Bit>)
    ensures PackByte(s) == Mask(s, 0) | Mask(s, 1) | Mask(s, 2) | Mask(s, 3)
                         | Mask(s, 4) | Mask(s, 5) | Mask(s, 6) | Mask(s, 7)
  {
  }

  /** A packed byte depends on the first eight bits only. */
  lemma PackByteAgree(s: seq<Bit>, t: seq<Bit>)
    requires |s| >= 8 && |t| >= 8 && s[..8] == t[..8]
    ensures PackByte(s) == PackByte(t)
  {
    PackByteMasks(s);
    PackByteMasks(t);
    assert s[0] == t[0] && s[1] == t[1] && s[2] == t[2] && s[3] == t[3];
    assert s[4] == t[4] && s[5] == t[5] && s[6] == t[6] && s[7] == t[7];
  }

  /** Packing the bits of b (and whatever follows them) gives b back. */
  lemma PackByteBits(b: Byte, s: seq<Bit>)
    requires |s| >= 8 && s[..8] == ByteBits(b)
    ensures PackByte(s) == b
  {
    PackByteMasks(s);
    assert s[0] == BitOf(b, 0) && s[1] == BitOf(b, 1) && s[2] == BitOf(b, 2) && s[3] == BitOf(b, 3);
    assert s[4] == BitOf(b, 4) && s[5] == BitOf(b, 5) && s[6] == BitOf(b, 6) && s[7] == BitOf(b, 7);
    assert Mask(s, 0) == b & 1;
    assert Mask(s, 1) == b & 2;
    assert Mask(s, 2) == b & 4;
    assert Mask(s, 3) == b & 8;
    assert Mask(s, 4) == b & 16;
    assert Mask(s, 5) == b & 32;
    assert Mask(s, 6) == b & 64;
    assert Mask(s, 7) == b & 128;
  }

  /** Unpacking a packed byte gives its first eight bits back. */
  lemma ByteBitsPack(s: seq<Bit>)
    requires |s| >= 8
    ensures ByteBits(PackByte(s)) == s[..8]
  {
    var b := PackByte(s);
    PackByteMasks(s);
  }

  /** Specification of `_bytes_to_bits`: every byte contributes its eight
      bits, least significant first. */
  function Unpacked(data: Bytes): (bits: seq<Bit>)
    ensures |bits| == 8 * |data|
  {
    if data == [] then [] else ByteBits(data[0]) + Unpacked(data[1..])
  }

  /** Specification of `_bits_to_bytes`: one byte per group of eight bits,
      the last group possibly short and padded with zero high bits. */
  function Packed(bits: seq<Bit>): (data: Bytes)
    ensures |data| == (|bits| + 7) / 8
    decreases |bits|
  {
    if |bits| == 0 then [] else [PackByte(bits)] + Packed(bits[Min(8, |bits|)..])
  }

  lemma {:induction false} UnpackedAt(data: Bytes, i: nat, j: nat)
    requires i < |data| && j < 8
    ensures Unpacked(data)[8 * i + j] == BitOf(data[i], j)
  {
    if i > 0 {
      UnpackedAt(data[1..], i - 1, j);
    }
  }

  lemma {:induction false} UnpackedAppend(a: Bytes, b: Bytes)
    ensures Unpacked(a + b) == Unpacked(a) + Unpacked(b)
  {
    if a == [] {
      assert a + b == b;
    } else {
      assert (a + b)[1..] == a[1..] + b;
      UnpackedAppend(a[1..], b);
    }
  }

  lemma UnpackedPrefix(data: Bytes, m: nat)
    requires m <= |data|
    ensures Unpacked(data)[..8 * m] == Unpacked(data[..m])
  {
    assert data == data[..m] + data[m..];
    UnpackedAppend(data[..m], data[m..]);
  }

  /** `_bits_to_bytes(_bytes_to_bits(b)) == b`. */
  lemma {:induction false} PackedUnpacked(data: Bytes)
    ensures Packed(Unpacked(data)) == data
  {
    if data != [] {
      var bits := Unpacked(data);
      assert bits[..8] == ByteBits(data[0]);
      PackByteBits(data[0], bits);
      assert bits[8..] == Unpacked(data[1..]);
      PackedUnpacked(data[1..]);
    }
  }

  /** On whole bytes, packing loses nothing. */
  lemma {:induction false} UnpackedPacked(bits: seq<Bit>)
    requires |bits| % 8 == 0
    ensures Unpacked(Packed(bits)) == bits
    decreases |bits|
  {
    if |bits| > 0 {
      ByteBitsPack(bits);
      UnpackedPacked(bits[8..]);
      assert bits == bits[..8] + bits[8..];
    }
  }

  lemma PackedInjective(x: seq<Bit>, y: seq<Bit>)
    requires |x| % 8 == 0 && |y| % 8 == 0
    ensures Packed(x) == Packed(y) <==> x == y
  {
    if Packed(x) == Packed(y) {
      UnpackedPacked(x);
      UnpackedPacked(y);
    }
  }

  /** Packing then keeping m bytes only looks at the first 8m bits. */
  lemma {:induction false} PackedPrefix(bits: seq<Bit>, m: nat)
    requires 8 * m <= |bits|
    ensures Packed(bits)[..m] == Packed(bits[..8 * m])
    decreases m
  {
    if m > 0 {
      var short := bits[..8 * m];
      assert short[..8] == bits[..8];
      PackByteAgree(bits, short);
      assert short[8..] == bits[8..][..8 * (m - 1)];
      PackedPrefix(bits[8..], m - 1);
    }
  }

  /** `_bytes_to_bits`: the byte loop and the bit loop of the source. */
  method BytesToBits(data: Bytes) returns (bits: seq<Bit>)
    ensures bits == Unpacked(data)
  {
    bits := [];
    var k := 0;
    while k < |data|
      invariant 0 <= k <= |data|
      invariant bits == Unpacked(data[..k])
    {
      var i := 0;
      var group: seq<Bit> := [];
      while i < 8
        invariant 0 <= i <= 8
        invariant group == ByteBits(data[k])[..i]
      {
        group := group + [BitOf(data[k], i)];
        i := i + 1;
      }
      assert data[..k + 1] == data[..k] + [data[k]];
      UnpackedAppend(data[..k], [data[k]]);
      bits := bits + group;
      k := k + 1;
    }
    assert data[..k] == data;
  }

  /** The inner loop of the bits-to-bytes converter: the byte whose bit j
      is bit i + j of the input, missing bits read as 0. */
  method PackByteAt(bits: seq<Bit>, i: nat) returns (b: Byte)
    requires i < |bits|
    ensures b == PackByte(bits[i..])
  {
    b := 0;
    var j := 0;
    while j < 8
      invariant 0 <= j <= 8
      invariant b == PackPrefix(bits[i..], j)
    {
      if i + j < |bits| {
        b := b | Mask(bits[i..], j);
      }
      j := j + 1;
    }
  }

  /** `_bits_to_bytes`: for each group of eight, `byte |= bits[i + j] << j`
      for the positions that exist. */
  method BitsToBytes(bits: seq<Bit>) returns (data: Bytes)
    ensures data == Packed(bits)
  {
    data := [];
    var i := 0;
    while i < |bits|
      invariant 0 <= i <= |bits| + 7
      invariant data + Packed(bits[Min(i, |bits|)..]) == Packed(bits)
      decreases |bits| - i
    {
      var b := PackByteAt(bits, i);
      assert bits[i..][Min(8, |bits| - i)..] == bits[Min(i + 8, |bits|)..];
      data := data + [b];
      i := i + 8;
    }
    assert bits[|bits|..] == [];
  }

  /** Byte-wise XOR of data with a keystream at least as long. */
  function XorWith(data: Bytes, stream: Bytes): (r: Bytes)
    requires |stream| >= |data|
    ensures |r| == |data|
  {
    seq(|data|, i requires 0 <= i < |data| => data[i] ^ stream[i])
  }

  /** Applying the same keystream twice gives the data back. */
  lemma XorWithTwice(data: Bytes, stream: Bytes)
    requires |stream| >= |data|
    ensures XorWith(XorWith(data, stream), stream) == data
  {
    var once := XorWith(data, stream);
    assert forall i :: 0 <= i < |data| ==> once[i] ^ stream[i] == data[i];
  }

  // ------------------------------------------------ bit arrays, blocks

  /** Number of ones. */
  function Sum(s: seq<Bit>): nat
  {
    if s == [] then 0 else Sum(s[..|s| - 1]) + s[|s| - 1]
  }

  lemma {:induction false} SumAppend(s: seq<Bit>, t: seq<Bit>)
    ensures Sum(s + t) == Sum(s) + Sum(t)
    decreases |t|
  {
    if t != [] {
      assert (s + t)[..|s + t| - 1] == s + t[..|t| - 1];
      SumAppend(s, t[..|t| - 1]);
    } else {
      assert s + t == s;
    }
  }

  lemma SumSingle(x: Bit)
    ensures Sum([x]) == x
  {
    assert [x][..0] == [];
  }

  /** b with the bits at the positions of S inverted. */
  function Flipped(b: seq<Bit>, S: set<nat>): (r: seq<Bit>)
    ensures |r| == |b|
  {
    seq(|b|, i requires 0 <= i < |b| => if i in S then 1 - b[i] else b[i])
  }

  /** Blocks starting at i, i + bs, ... below n. */
  function BlocksFrom(n: nat, bs: nat, i: nat): nat
    requires bs >= 1
    decreases n - i
  {
    if i >= n then 0 else 1 + BlocksFrom(n, bs, i + bs)
  }

  /** There are ceil((n - i) / bs) blocks: enough to cover the remaining
      n - i bits, and one fewer would not. */
  lemma {:induction false} BlocksFromCover(n: nat, bs: nat, i: nat)
    requires bs >= 1 && i < n
    ensures var k := BlocksFrom(n, bs, i);
      k >= 1 && k * bs >= n - i && (k - 1) * bs < n - i
    decreases n - i
  {
    var k := BlocksFrom(n, bs, i);
    if i + bs < n {
      BlocksFromCover(n, bs, i + bs);
      var k' := BlocksFrom(n, bs, i + bs);
      assert k == k' + 1;
      assert k * bs == k' * bs + bs;
      assert (k - 1) * bs == (k' - 1) * bs + bs;
    } else {
      assert BlocksFrom(n, bs, i + bs) == 0;
    }
  }
}
