/** The block framing shared by `LDPCErrorCorrection.correct_errors` and
    `QuantumAmplifiedLDPC.correct_errors_quantum`: both keys are unpacked
    into bits, cut into k-bit blocks over the shorter length (the last one
    zero-padded), each block is encoded, Bob's codeword goes through a
    simulated channel that flips drawn positions, both are decoded, and the
    decoded bits are packed and trimmed to the shorter key length.  The
    encoder, the channel's draws and the decoder are parameters. */
module Framing {
  import opened Wrappers
  import opened BitVector

  /** The decoder's answer for a received word: its first k estimated bits
      and whether the syndrome check passed. */
  datatype Decoded = Decoded(bits: seq<Bit>, success: bool)

  /** The encoder of each block, by the index of the block's first bit:
      a block may be encoded by a code of its own. */
  type BlockEncoder = nat -> seq<Bit> -> seq<Bit>

  /** The decoder of each block, by the index of the block's first bit. */
  type BlockDecoder = nat -> seq<Bit> -> Decoded

  /** The same encoder or decoder for every block. */
  function Everywhere<T>(f: T): (each: nat -> T)
    ensures forall i :: each(i) == f
  {
    _ => f
  }

  /** `int(len(received_bob) * error_rate)` flips per block. */
  function NumErrors(n: nat, errorRate: real): int
  {
    PyInt(n as real * errorRate)
  }

  /** The block of one party's bits starting at i, zero-padded to k bits. */
  function Block(bits: seq<Bit>, i: nat, k: nat): (b: seq<Bit>)
    requires i <= |bits|
    ensures |b| == k
  {
    var s := bits[i..Min(i + k, |bits|)];
    s + seq(k - |s|, _ => 0)
  }

  /** The simulated channel of a block: when the error count is positive,
      the drawn positions of the codeword are inverted. */
  function Received(w: seq<Bit>, draw: seq<nat>, count: int): (r: seq<Bit>)
    ensures |r| == |w|
  {
    if count > 0 then Flipped(w, set p | p in draw) else w
  }

  /** The decoder's answers for the blocks starting at i, i + k, ... below
      limit; encode maps a block to its codeword, noise(i) is the draw of
      flipped positions for block i and count the number of flips per block
      (0 for a party whose codewords travel unchanged). */
  function Run(bits: seq<Bit>, limit: nat, i: nat, k: nat, encode: BlockEncoder,
               noise: nat -> seq<nat>, count: int, decode: BlockDecoder): (ds: seq<Decoded>)
    requires k >= 1 && limit <= |bits|
    decreases limit - i
  {
    if i >= limit then []
    else [BlockAnswer(bits, i, k, encode, noise, count, decode)] + Run(bits, limit, i + k, k, encode, noise, count, decode)
  }

  /** The decoder's answer for the block starting at i. */
  function BlockAnswer(bits: seq<Bit>, i: nat, k: nat, encode: BlockEncoder,
                       noise: nat -> seq<nat>, count: int, decode: BlockDecoder): Decoded
    requires i <= |bits|
  {
    decode(i)(Received(encode(i)(Block(bits, i, k)), noise(i), count))
  }

  /** One decoder answer per block. */
  lemma {:induction false} RunBlocks(bits: seq<Bit>, limit: nat, i: nat, k: nat, encode: BlockEncoder,
                                     noise: nat -> seq<nat>, count: int, decode: BlockDecoder)
    requires k >= 1 && limit <= |bits|
    ensures |Run(bits, limit, i, k, encode, noise, count, decode)| == BlocksFrom(limit, k, i)
    decreases limit - i
  {
    if i < limit {
      RunBlocks(bits, limit, i + k, k, encode, noise, count, decode);
    }
  }

  /** A run is the first block's answer followed by the run from the next
      block on. */
  lemma RunHead(bits: seq<Bit>, limit: nat, i: nat, k: nat, encode: BlockEncoder,
                noise: nat -> seq<nat>, count: int, decode: BlockDecoder)
    requires k >= 1 && limit <= |bits| && i < limit
    ensures var d := BlockAnswer(bits, i, k, encode, noise, count, decode);
      var rest := Run(bits, limit, i + k, k, encode, noise, count, decode);
      var ds := Run(bits, limit, i, k, encode, noise, count, decode);
      |ds| == 1 + |rest| &&
      ConcatBits(ds) == d.bits + ConcatBits(rest) &&
      Successes(ds) == (if d.success then 1 else 0) + Successes(rest)
  {
    var ds := Run(bits, limit, i, k, encode, noise, count, decode);
    assert ds[1..] == Run(bits, limit, i + k, k, encode, noise, count, decode);
  }

  /** The decoded bits cover the framed range: every block yields k bits. */
  lemma {:induction false} RunCovers(bits: seq<Bit>, limit: nat, i: nat, k: nat, encode: BlockEncoder,
                                     noise: nat -> seq<nat>, count: int, decode: BlockDecoder)
    requires k >= 1 && limit <= |bits|
    requires forall i, w :: |decode(i)(w).bits| == k
    ensures i <= limit ==> |ConcatBits(Run(bits, limit, i, k, encode, noise, count, decode))| >= limit - i
    decreases limit - i
  {
    if i < limit {
      RunCovers(bits, limit, i + k, k, encode, noise, count, decode);
      RunHead(bits, limit, i, k, encode, noise, count, decode);
    }
  }

  /** The decoder returns every error-free codeword's message, marked
      as a success. */
  ghost predicate Recovers(k: nat, encode: BlockEncoder, decode: BlockDecoder)
  {
    forall i, x :: |x| == k ==> decode(i)(encode(i)(x)) == Decoded(x, true)
  }

  /** With a decoder that returns the message of every error-free codeword
      and reports success, each of Alice's blocks decodes to the block
      itself. */
  lemma PerfectAnswer(bits: seq<Bit>, i: nat, k: nat, encode: BlockEncoder,
                      noise: nat -> seq<nat>, decode: BlockDecoder)
    requires i <= |bits|
    requires Recovers(k, encode, decode)
    ensures BlockAnswer(bits, i, k, encode, noise, 0, decode) == Decoded(Block(bits, i, k), true)
  {
  }

  /** Under such a decoder the decoded stream starts with the framed range
      of Alice's bits. */
  lemma {:induction false} PerfectRun(bits: seq<Bit>, limit: nat, i: nat, k: nat, encode: BlockEncoder,
                                      noise: nat -> seq<nat>, decode: BlockDecoder)
    requires k >= 1 && limit <= |bits| && i <= limit
    requires Recovers(k, encode, decode)
    ensures bits[i..limit] <= ConcatBits(Run(bits, limit, i, k, encode, noise, 0, decode))
    decreases limit - i
  {
    if i < limit {
      PerfectBlock(bits, limit, i, k, encode, noise, decode);
      var rest := ConcatBits(Run(bits, limit, i + k, k, encode, noise, 0, decode));
      if i + k <= limit {
        PerfectRun(bits, limit, i + k, k, encode, noise, decode);
        FramedPrefix(bits, i, k, limit, rest);
      } else {
        LastBlockPrefix(bits, i, k, limit, rest);
      }
    }
  }

  /** Under such a decoder the block at i contributes exactly its bits. */
  lemma PerfectBlock(bits: seq<Bit>, limit: nat, i: nat, k: nat, encode: BlockEncoder,
                     noise: nat -> seq<nat>, decode: BlockDecoder)
    requires k >= 1 && limit <= |bits| && i < limit
    requires Recovers(k, encode, decode)
    ensures ConcatBits(Run(bits, limit, i, k, encode, noise, 0, decode))
      == Block(bits, i, k) + ConcatBits(Run(bits, limit, i + k, k, encode, noise, 0, decode))
  {
    RunHead(bits, limit, i, k, encode, noise, 0, decode);
    PerfectAnswer(bits, i, k, encode, noise, decode);
  }

  /** Under such a decoder every one of Alice's blocks counts as a success. */
  lemma {:induction false} PerfectSuccesses(bits: seq<Bit>, limit: nat, i: nat, k: nat, encode: BlockEncoder,
                                            noise: nat -> seq<nat>, decode: BlockDecoder)
    requires k >= 1 && limit <= |bits|
    requires Recovers(k, encode, decode)
    ensures var ds := Run(bits, limit, i, k, encode, noise, 0, decode);
      Successes(ds) == |ds|
    decreases limit - i
  {
    if i < limit {
      RunHead(bits, limit, i, k, encode, noise, 0, decode);
      PerfectAnswer(bits, i, k, encode, noise, decode);
      PerfectSuccesses(bits, limit, i + k, k, encode, noise, decode);
    }
  }

  /** A full block followed by a stream that starts with the rest of the
      range starts with the block's range. */
  lemma FramedPrefix(bits: seq<Bit>, i: nat, k: nat, limit: nat, rest: seq<Bit>)
    requires i + k <= limit <= |bits|
    requires bits[i + k..limit] <= rest
    ensures bits[i..limit] <= Block(bits, i, k) + rest
  {
    assert Block(bits, i, k) == bits[i..i + k];
    assert bits[i..limit] == bits[i..i + k] + bits[i + k..limit];
  }

  /** The last, padded block starts with the end of the range. */
  lemma LastBlockPrefix(bits: seq<Bit>, i: nat, k: nat, limit: nat, rest: seq<Bit>)
    requires i < limit <= |bits| && limit < i + k
    ensures bits[i..limit] <= Block(bits, i, k) + rest
  {
    var s := bits[i..Min(i + k, |bits|)];
    assert Block(bits, i, k) + rest == s + (seq(k - |s|, _ => 0) + rest);
    assert bits[i..limit] <= s;
  }

  /** A decoder that recovers every error-free codeword gives Alice her own
      key back: the corrected key is her key cut to the shorter length, and
      every one of her blocks is counted as a success. */
  lemma PerfectDecoderKeepsAliceKey(keyAlice: Bytes, keyBob: Bytes, k: nat, encode: BlockEncoder,
                                    noise: nat -> seq<nat>, decode: BlockDecoder)
    requires k >= 1
    requires forall i, x :: |x| == k ==> decode(i)(encode(i)(x)) == Decoded(x, true)
    ensures var m := Min(|keyAlice|, |keyBob|);
      var alice := Run(Unpacked(keyAlice), 8 * m, 0, k, encode, noise, 0, decode);
      Trim(Packed(ConcatBits(alice)), m) == keyAlice[..m] && Successes(alice) == |alice|
  {
    var m := Min(|keyAlice|, |keyBob|);
    var bits := Unpacked(keyAlice);
    var alice := Run(bits, 8 * m, 0, k, encode, noise, 0, decode);
    var out := ConcatBits(alice);
    PerfectRun(bits, 8 * m, 0, k, encode, noise, decode);
    PerfectSuccesses(bits, 8 * m, 0, k, encode, noise, decode);
    assert out[..8 * m] == bits[..8 * m];
    PackedPrefix(out, m);
    UnpackedPrefix(keyAlice, m);
    PackedUnpacked(keyAlice[..m]);
  }

  /** What a party has accumulated after the blocks before `rest`: the
      decoded bits and the success count of the blocks done so far. */
  ghost predicate Accumulated(bits: seq<Bit>, successes: nat, blocks: nat, rest: seq<Decoded>, all: seq<Decoded>)
  {
    bits + ConcatBits(rest) == ConcatBits(all) &&
    successes + Successes(rest) == Successes(all) &&
    blocks + |rest| == |all|
  }

  /** Accumulating the answer d for the block at i (giving acc', successes'
      and blocks') moves on to the next block, at i'. */
  lemma RunStep(bits: seq<Bit>, limit: nat, i: nat, i': nat, k: nat, encode: BlockEncoder,
                noise: nat -> seq<nat>, count: int, decode: BlockDecoder, all: seq<Decoded>, d: Decoded,
                acc: seq<Bit>, successes: nat, blocks: nat, acc': seq<Bit>, successes': nat, blocks': nat)
    requires k >= 1 && limit <= |bits| && i < limit && i' == i + k
    requires Accumulated(acc, successes, blocks, Run(bits, limit, i, k, encode, noise, count, decode), all)
    requires d == BlockAnswer(bits, i, k, encode, noise, count, decode)
    requires acc' == acc + d.bits && successes' == successes + (if d.success then 1 else 0) && blocks' == blocks + 1
    ensures Accumulated(acc', successes', blocks', Run(bits, limit, i', k, encode, noise, count, decode), all)
  {
    RunHead(bits, limit, i, k, encode, noise, count, decode);
  }

  /** The decoded bits, block after block. */
  function ConcatBits(ds: seq<Decoded>): seq<Bit>
  {
    if ds == [] then [] else ds[0].bits + ConcatBits(ds[1..])
  }

  /** Blocks whose decoding reported success. */
  function Successes(ds: seq<Decoded>): (s: nat)
    ensures s <= |ds|
  {
    if ds == [] then 0 else (if ds[0].success then 1 else 0) + Successes(ds[1..])
  }

  /** `corrected[:original_length]` */
  function Trim(data: Bytes, m: nat): (r: Bytes)
  {
    data[..Min(m, |data|)]
  }

  /** `successes / total_blocks`, or 0 with no blocks. */
  function Rate(successes: nat, blocks: nat): (r: real)
    ensures successes <= blocks ==> 0.0 <= r <= 1.0
    ensures blocks == 0 ==> r == 0.0
    ensures blocks > 0 ==> r * blocks as real == successes as real
  {
    if blocks > 0 then successes as real / blocks as real else 0.0
  }

  /** A valid draw of `np.random.choice(n, count, replace=False)`. */
  ghost predicate ValidDraw(draw: seq<nat>, n: nat, count: int)
  {
    |draw| == count &&
    (forall t :: 0 <= t < |draw| ==> draw[t] < n) &&
    (forall s, t :: 0 <= s < t < |draw| ==> draw[s] != draw[t])
  }

  /** The body shared by `correct_errors` and `correct_errors_quantum`:
      both keys are unpacked, framed and decoded block by block, and the
      decoded bits are packed and trimmed to the shorter key length.  Each
      party's blocks have their own encoders; the two blocks at the same
      index share one decoder. */
  method FrameAndDecode(keyAlice: Bytes, keyBob: Bytes, k: nat, n: nat, numErrors: int,
                        encodeAlice: BlockEncoder, encodeBob: BlockEncoder, noise: nat -> seq<nat>,
                        decode: BlockDecoder)
    returns (bytesAlice: Bytes, bytesBob: Bytes, correctionsAlice: nat, correctionsBob: nat, totalBlocks: nat)
    requires k >= 1
    requires forall i, w :: |decode(i)(w).bits| == k
    requires Min(|keyAlice|, |keyBob|) > 0 && numErrors > 0 ==> forall i :: ValidDraw(noise(i), n, numErrors)
    ensures var m := Min(|keyAlice|, |keyBob|);
      var alice := Run(Unpacked(keyAlice), 8 * m, 0, k, encodeAlice, noise, 0, decode);
      var bob := Run(Unpacked(keyBob), 8 * m, 0, k, encodeBob, noise, numErrors, decode);
      bytesAlice == Trim(Packed(ConcatBits(alice)), m) && bytesBob == Trim(Packed(ConcatBits(bob)), m) &&
      correctionsAlice == Successes(alice) && correctionsBob == Successes(bob) &&
      totalBlocks == |alice| == |bob| == BlocksFrom(8 * m, k, 0) &&
      |bytesAlice| == m && |bytesBob| == m
  {
    var aliceBits := BytesToBits(keyAlice);
    var bobBits := BytesToBits(keyBob);
    var limit := Min(|aliceBits|, |bobBits|);
    assert limit == 8 * Min(|keyAlice|, |keyBob|);
    var correctedAlice, correctedBob;
    correctedAlice, correctedBob, correctionsAlice, correctionsBob, totalBlocks :=
      DecodeBlocks(aliceBits, bobBits, limit, k, n, numErrors,
                   Run(aliceBits, limit, 0, k, encodeAlice, noise, 0, decode),
                   Run(bobBits, limit, 0, k, encodeBob, noise, numErrors, decode),
                   encodeAlice, encodeBob, noise, decode);
    RunBlocks(aliceBits, limit, 0, k, encodeAlice, noise, 0, decode);
    RunBlocks(bobBits, limit, 0, k, encodeBob, noise, numErrors, decode);
    RunCovers(aliceBits, limit, 0, k, encodeAlice, noise, 0, decode);
    RunCovers(bobBits, limit, 0, k, encodeBob, noise, numErrors, decode);
    bytesAlice := BitsToBytes(correctedAlice);
    bytesBob := BitsToBytes(correctedBob);
    var originalLength := Min(|keyAlice|, |keyBob|);
    bytesAlice := Trim(bytesAlice, originalLength);
    bytesBob := Trim(bytesBob, originalLength);
  }

  /** The block loop of `correct_errors`: for i = 0, k, 2k, ... below
      limit, both parties' blocks are encoded, Bob's codeword goes through
      the channel, both are decoded, and the decoded bits and the success
      counts are accumulated.  The ghost alice and bob name the two runs
      the loop walks through. */
  method DecodeBlocks(aliceBits: seq<Bit>, bobBits: seq<Bit>, limit: nat, k: nat, n: nat, numErrors: int,
                      ghost alice: seq<Decoded>, ghost bob: seq<Decoded>,
                      encodeAlice: BlockEncoder, encodeBob: BlockEncoder, noise: nat -> seq<nat>,
                      decode: BlockDecoder)
    returns (correctedAlice: seq<Bit>, correctedBob: seq<Bit>, correctionsAlice: nat, correctionsBob: nat, totalBlocks: nat)
    requires k >= 1 && limit <= |aliceBits| && limit <= |bobBits|
    requires alice == Run(aliceBits, limit, 0, k, encodeAlice, noise, 0, decode)
    requires bob == Run(bobBits, limit, 0, k, encodeBob, noise, numErrors, decode)
    requires limit > 0 && numErrors > 0 ==> forall i :: ValidDraw(noise(i), n, numErrors)
    ensures correctedAlice == ConcatBits(alice) && correctedBob == ConcatBits(bob) &&
      correctionsAlice == Successes(alice) && correctionsBob == Successes(bob) &&
      totalBlocks == |alice|
  {
    correctedAlice, correctedBob := [], [];
    correctionsAlice, correctionsBob, totalBlocks := 0, 0, 0;
    var i := 0;
    while i < limit
      invariant Accumulated(correctedAlice, correctionsAlice, totalBlocks, Run(aliceBits, limit, i, k, encodeAlice, noise, 0, decode), alice)
      invariant Accumulated(correctedBob, correctionsBob, totalBlocks, Run(bobBits, limit, i, k, encodeBob, noise, numErrors, decode), bob)
      decreases limit - i
    {
      ghost var i0, blocks0 := i, totalBlocks;
      ghost var alice0, successesAlice0, bob0, successesBob0 := correctedAlice, correctionsAlice, correctedBob, correctionsBob;
      var decodedAlice, decodedBob :=
        DecodeBlock(aliceBits, bobBits, i, k, n, numErrors, encodeAlice, encodeBob, noise, decode);
      correctedAlice := correctedAlice + decodedAlice.bits;
      correctedBob := correctedBob + decodedBob.bits;
      if decodedAlice.success {
        correctionsAlice := correctionsAlice + 1;
      }
      if decodedBob.success {
        correctionsBob := correctionsBob + 1;
      }
      totalBlocks := totalBlocks + 1;
      i := i + k;
      RunStep(aliceBits, limit, i0, i, k, encodeAlice, noise, 0, decode, alice, decodedAlice,
              alice0, successesAlice0, blocks0, correctedAlice, correctionsAlice, totalBlocks);
      RunStep(bobBits, limit, i0, i, k, encodeBob, noise, numErrors, decode, bob, decodedBob,
              bob0, successesBob0, blocks0, correctedBob, correctionsBob, totalBlocks);
    }
  }

  /** One iteration of the block loop: the block starting at i of both
      parties is encoded, Bob's codeword goes through the channel and both
      are decoded by the block's decoder. */
  method DecodeBlock(aliceBits: seq<Bit>, bobBits: seq<Bit>, i: nat, k: nat, n: nat, numErrors: int,
                     encodeAlice: BlockEncoder, encodeBob: BlockEncoder, noise: nat -> seq<nat>,
                     decode: BlockDecoder)
    returns (decodedAlice: Decoded, decodedBob: Decoded)
    requires i <= |aliceBits| && i <= |bobBits|
    requires numErrors > 0 ==> ValidDraw(noise(i), n, numErrors)
    ensures decodedAlice == BlockAnswer(aliceBits, i, k, encodeAlice, noise, 0, decode)
    ensures decodedBob == BlockAnswer(bobBits, i, k, encodeBob, noise, numErrors, decode)
  {
    var blockAlice := Block(aliceBits, i, k);
    var blockBob := Block(bobBits, i, k);
    var encodedAlice := encodeAlice(i)(blockAlice);
    var encodedBob := encodeBob(i)(blockBob);
    var receivedBob := encodedBob;
    if numErrors > 0 {
      receivedBob := FlipPositions(encodedBob, noise(i));
    }
    decodedAlice := decode(i)(encodedAlice);
    decodedBob := decode(i)(receivedBob);
  }

  /** The simulated channel: each drawn position of the codeword is
      inverted in turn. */
  method FlipPositions(word: seq<Bit>, positions: seq<nat>) returns (received: seq<Bit>)
    requires forall s, t :: 0 <= s < t < |positions| ==> positions[s] != positions[t]
    ensures received == Flipped(word, set p | p in positions)
  {
    received := word;
    var t := 0;
    while t < |positions|
      invariant 0 <= t <= |positions|
      invariant received == Flipped(word, set p | p in positions[..t])
    {
      var p := positions[t];
      assert positions[..t + 1] == positions[..t] + [p];
      assert p !in positions[..t];
      if p < |received| {
        received := received[p := 1 - received[p]];
      }
      t := t + 1;
    }
    assert positions[..t] == positions;
  }

}
