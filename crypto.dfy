/** Hash functions as the modelled code uses them.  SHA-256, SHA-512,
    HMAC-SHA256 and MD5 are not modelled bit by bit: each is a function
    parameter whose only known property is its digest length. */
module Crypto {
  import opened BitVector
  import opened Encoding

  type Digest16 = d: Bytes | |d| == 16 witness seq(16, _ => 0)
  type Digest32 = d: Bytes | |d| == 32 witness seq(32, _ => 0)
  type Digest64 = d: Bytes | |d| == 64 witness seq(64, _ => 0)

  /** `hashlib.sha256(x).digest()` */
  type Sha256 = Bytes -> Digest32
  /** `hashlib.sha512(x).digest()` */
  type Sha512 = Bytes -> Digest64
  /** `hashlib.md5(x).digest()` */
  type Md5 = Bytes -> Digest16
  /** `hmac.new(key, msg, hashlib.sha256).digest()` */
  type HmacSha256 = (Bytes, Bytes) -> Digest32

  const Counter32: nat := 0x1_0000_0000

  /** SHA-256 seen as a function to byte strings, of width 32. */
  function Blocks256(sha256: Sha256): (h: Bytes -> Bytes)
    ensures forall x :: h(x) == sha256(x) && |h(x)| == 32
  {
    x => sha256(x)
  }

  /** SHA-512 seen as a function to byte strings, of width 64. */
  function Blocks512(sha512: Sha512): (h: Bytes -> Bytes)
    ensures forall x :: h(x) == sha512(x) && |h(x)| == 64
  {
    x => sha512(x)
  }

  /** The blocks block(0), ..., block(count - 1), concatenated. */
  function Stream(block: nat -> Bytes, count: nat): Bytes
  {
    if count == 0 then [] else Stream(block, count - 1) + block(count - 1)
  }

  /** Block i of counter mode: `h(seed + i.to_bytes(4, 'big'))`. */
  function CounterBlock(h: Bytes -> Bytes, seed: Bytes): nat -> Bytes
  {
    (i: nat) => if i < Counter32 then h(seed + Be4(i)) else []
  }

  /** Counter-mode expansion: `h(seed + i.to_bytes(4, 'big'))` for
      i = 0 .. count - 1, concatenated. */
  function Expand(h: Bytes -> Bytes, seed: Bytes, count: nat): Bytes
    requires count <= Counter32
  {
    Stream(CounterBlock(h, seed), count)
  }

  /** One more block appends the hash of the seed and the next counter. */
  lemma ExpandNext(h: Bytes -> Bytes, seed: Bytes, count: nat)
    requires count < Counter32
    ensures Expand(h, seed, count + 1) == Expand(h, seed, count) + h(seed + Be4(count))
  {
    assert CounterBlock(h, seed)(count) == h(seed + Be4(count));
  }

  /** With blocks of fixed width w, count blocks give w * count bytes. */
  lemma {:induction false} StreamLength(block: nat -> Bytes, w: nat, count: nat)
    requires forall i: nat :: i < count ==> |block(i)| == w
    ensures |Stream(block, count)| == w * count
  {
    if count > 0 {
      StreamLength(block, w, count - 1);
      MulPred(w, count);
    }
  }

  /** One factor of b fewer takes a away. */
  lemma MulPred(a: int, b: int)
    ensures a * b == a * (b - 1) + a
  {
  }

  /** More blocks only extend the stream. */
  lemma {:induction false} StreamPrefix(block: nat -> Bytes, m: nat, n: nat)
    requires m <= n
    ensures Stream(block, m) <= Stream(block, n)
    decreases n
  {
    if m < n {
      StreamPrefix(block, m, n - 1);
    }
  }

  /** Block i sits right after the first i blocks. */
  lemma StreamBlock(block: nat -> Bytes, count: nat, i: nat)
    requires i < count
    ensures var lo, hi := |Stream(block, i)|, |Stream(block, i + 1)|;
      lo <= hi <= |Stream(block, count)| &&
      Stream(block, count)[lo .. hi] == block(i)
  {
    var front, whole := Stream(block, i), Stream(block, count);
    assert Stream(block, i + 1) == front + block(i);
    StreamPrefix(block, i + 1, count);
    SliceOfPrefix(front, block(i), whole);
  }

  /** The block after a prefix of a longer sequence sits right after it. */
  lemma SliceOfPrefix(front: Bytes, block: Bytes, whole: Bytes)
    requires front + block <= whole
    ensures whole[|front|..|front| + |block|] == block
  {
    assert whole[..|front| + |block|] == front + block;
  }

  /** With a hash of fixed width w, count blocks give w * count bytes. */
  lemma ExpandLength(h: Bytes -> Bytes, w: nat, seed: Bytes, count: nat)
    requires count <= Counter32
    requires forall x :: |h(x)| == w
    ensures |Expand(h, seed, count)| == w * count
  {
    var block := CounterBlock(h, seed);
    forall i: nat | i < count
      ensures |block(i)| == w
    {
      assert block(i) == h(seed + Be4(i));
    }
    StreamLength(block, w, count);
  }

  /** Block i of the stream, right after the first i blocks, is the hash
      of the seed followed by the counter i. */
  lemma ExpandBlock(h: Bytes -> Bytes, seed: Bytes, count: nat, i: nat)
    requires i < count <= Counter32
    ensures var lo, hi := |Expand(h, seed, i)|, |Expand(h, seed, i + 1)|;
      lo <= hi <= |Expand(h, seed, count)| &&
      Expand(h, seed, count)[lo .. hi] == h(seed + Be4(i))
  {
    StreamBlock(CounterBlock(h, seed), count, i);
  }

  /** More blocks only extend the stream. */
  lemma ExpandPrefix(h: Bytes -> Bytes, seed: Bytes, m: nat, n: nat)
    requires m <= n <= Counter32
    ensures Expand(h, seed, m) <= Expand(h, seed, n)
  {
    StreamPrefix(CounterBlock(h, seed), m, n);
  }

  function CeilDiv(a: nat, b: nat): (q: nat)
    requires b > 0
    ensures q * b >= a && (q == 0 || (q - 1) * b < a)
  {
    (a + b - 1) / b
  }

  /** Any q with q * b >= a whose predecessor falls short is the
      rounded-up quotient. */
  lemma CeilDivUnique(a: nat, b: nat, q: nat)
    requires b > 0
    requires q * b >= a && (q == 0 || (q - 1) * b < a)
    ensures q == CeilDiv(a, b)
  {
    var c := CeilDiv(a, b);
    if q < c {
      MulMonotone(q, c - 1, b);
    } else if q > c {
      MulMonotone(c, q - 1, b);
    }
  }

  lemma MulMonotone(x: nat, y: nat, b: nat)
    requires x <= y
    ensures x * b <= y * b
  {
    assert y * b == x * b + (y - x) * b;
  }
}
