/** `QuantumAmplifiedLDPC`: an LDPC-style corrector whose parity bits come
    from the most frequent outcome of an echo-resonance circuit (or, with
    echo resonance off, from a freshly drawn classical code), framed and
    decoded block by block like the classical corrector.  The circuit's
    measurement counts, the random fallback bits, the fresh codes and the
    decoder are parameters. */
module QuantumLdpc {
  import opened Wrappers
  import opened BitVector
  import opened Framing
  import opened Dicts
  import Ldpc

  // ------------------------------------------------------------ the wrapper

  /** The corrector's configuration.  `qubits` holds (master, satellite)
      qubit counts, which are only set when echo resonance is on. */
  datatype QuantumCorrector = QuantumCorrector(
    codeRate: real,
    codeLength: nat,
    messageLength: int,
    parityLength: int,
    useEchoResonance: bool,
    numEchoQubits: int,
    classical: Ldpc.Code,
    qubits: Option<(int, int)>)

  /** What the constructor guarantees: the message and parity lengths split
      the code length. */
  predicate Configured(q: QuantumCorrector)
  {
    0 <= q.messageLength <= q.codeLength &&
    q.parityLength == q.codeLength - q.messageLength
  }

  /** `QuantumAmplifiedLDPC.__init__`: message length `int(n * rate)`,
      parity length n minus that, the classical fallback corrector (whose
      construction raises for an unusable message length), and the
      master/satellite qubit split when echo resonance is on. */
  method NewQuantumCorrector(codeRate: real, codeLength: nat, useEchoResonance: bool, numEchoQubits: int,
                             choices: seq<seq<nat>>)
    returns (r: Result<QuantumCorrector>)
    requires var k := Ldpc.MessageLength(codeLength, codeRate);
      0 <= k <= codeLength && (k >= 3 || k == codeLength) ==> Ldpc.ValidChoices(k, codeLength - k, choices)
    ensures var k := Ldpc.MessageLength(codeLength, codeRate);
      r.Failure? <==> k < 0 || k > codeLength || (k < 3 && k < codeLength)
    ensures r.Failure? ==> r.error == ValueError
    ensures r.Success? ==> var q := r.value;
      Configured(q) &&
      q.messageLength == Ldpc.MessageLength(codeLength, codeRate) &&
      q.messageLength + q.parityLength == codeLength &&
      q.codeLength == codeLength && q.codeRate == codeRate &&
      q.useEchoResonance == useEchoResonance && q.numEchoQubits == numEchoQubits &&
      q.classical.k == q.messageLength && q.classical.n == codeLength && Ldpc.Wellformed(q.classical) &&
      (useEchoResonance ==> q.qubits == Some((Min(q.messageLength, numEchoQubits), q.parityLength))) &&
      (!useEchoResonance ==> q.qubits == None)
  {
    var messageLength := Ldpc.MessageLength(codeLength, codeRate);
    var parityLength := codeLength - messageLength;
    var classical :- Ldpc.NewCorrector(codeRate, codeLength, choices);
    var qubits := None;
    if useEchoResonance {
      qubits := Some((Min(messageLength, numEchoQubits), parityLength));
    }
    r := Success(QuantumCorrector(codeRate, codeLength, messageLength, parityLength,
                                  useEchoResonance, numEchoQubits, classical, qubits));
  }

  // ------------------------------------------------- parity from the counts

  /** `s[::-1]` */
  function Reverse(s: string): (r: string)
    ensures |r| == |s|
    ensures forall i :: 0 <= i < |s| ==> r[i] == s[|s| - 1 - i]
  {
    if s == [] then [] else Reverse(s[1..]) + [s[0]]
  }

  /** `int(ch)` for a one-character string: a decimal digit, or ValueError. */
  function DigitValue(ch: char): (r: Result<int>)
    ensures r.Success? <==> '0' <= ch <= '9'
    ensures r.Failure? ==> r.error == ValueError
    ensures r.Success? ==> 0 <= r.value <= 9
    ensures ch == '0' ==> r == Success(0)
    ensures ch == '1' ==> r == Success(1)
  {
    if '0' <= ch <= '9' then Success(ch as int - '0' as int) else Failure(ValueError)
  }

  /** The characters the extraction reads: positions 1 .. min(len, n + 1) - 1
      of the reversed measurement, skipping the master qubit at position 0. */
  function Satellites(measurement: string, numParityBits: int): (read: string)
    ensures |read| == Max(0, Min(|measurement|, numParityBits + 1) - 1)
    ensures forall j :: 0 <= j < |read| ==> read[j] == measurement[j + 1]
  {
    var stop := Min(|measurement|, numParityBits + 1);
    if stop <= 1 then [] else measurement[1..stop]
  }

  /** The parity bits read off one (reversed) measurement string: the
      satellite characters as digits, zero-padded to `numParityBits`. */
  function ParityOf(measurement: string, numParityBits: int): (r: Result<seq<int>>)
    ensures r.Failure? ==> r.error == ValueError
    ensures r.Failure? <==>
      exists j :: 1 <= j < Min(|measurement|, numParityBits + 1) && !('0' <= measurement[j] <= '9')
    ensures r.Success? ==>
      |r.value| == Max(0, numParityBits) &&
      forall j :: 0 <= j < |r.value| ==>
        r.value[j] == (if j + 1 < |measurement| then DigitValue(measurement[j + 1]).value else 0)
  {
    var read := Satellites(measurement, numParityBits);
    if exists t :: 0 <= t < |read| && !('0' <= read[t] <= '9') then Failure(ValueError)
    else Success(seq(Max(0, numParityBits), j requires 0 <= j =>
                       if j < |read| then DigitValue(read[j]).value else 0))
  }

  /** `_extract_parity_from_counts`: with no counts, random parity bits
      (`np.random.randint(0, 2, size=n)`, which raises for a negative size
      and otherwise draws exactly n bits, here `randomBits`); otherwise the
      parity bits of the reversed most frequent outcome. */
  function ExtractedParity(counts: Counts, numParityBits: int, randomBits: seq<Bit>): (r: Result<seq<int>>)
    requires counts == [] && numParityBits >= 0 ==> |randomBits| == numParityBits
  {
    if counts == [] then
      (if numParityBits < 0 then Failure(ValueError) else Success(randomBits))
    else
      ParityOf(Reverse(counts[MostFrequentIndex(counts)].0), numParityBits)
  }

  /** A Qiskit bit string: only '0' and '1'. */
  predicate IsBitString(s: string)
  {
    forall i :: 0 <= i < |s| ==> s[i] == '0' || s[i] == '1'
  }

  /** With bit-string outcomes the extraction never fails and yields
      exactly `numParityBits` bits: bit j is the outcome's bit j + 1
      counted from the right, and 0 past its end. */
  lemma BitStringCountsGiveParityBits(counts: Counts, numParityBits: int, randomBits: seq<Bit>)
    requires |counts| > 0 && forall t :: 0 <= t < |counts| ==> IsBitString(counts[t].0)
    ensures var r := ExtractedParity(counts, numParityBits, randomBits);
      var outcome := counts[MostFrequentIndex(counts)].0;
      r.Success? && |r.value| == Max(0, numParityBits) &&
      forall j :: 0 <= j < |r.value| ==>
        r.value[j] == (if j + 1 < |outcome| && outcome[|outcome| - 2 - j] == '1' then 1 else 0)
  {
    var outcome := counts[MostFrequentIndex(counts)].0;
    var m := Reverse(outcome);
    assert IsBitString(outcome);
    assert forall j :: 0 <= j < |m| ==> m[j] == '0' || m[j] == '1';
    var r := ParityOf(m, numParityBits);
    assert r.Success?;
  }

  /** The extraction loop of `_extract_parity_from_counts`. */
  method ExtractParityFromCounts(counts: Counts, numParityBits: int, randomBits: seq<Bit>)
    returns (r: Result<seq<int>>)
    requires counts == [] && numParityBits >= 0 ==> |randomBits| == numParityBits
    ensures r == ExtractedParity(counts, numParityBits, randomBits)
  {
    if counts == [] {
      if numParityBits < 0 {
        return Failure(ValueError);
      }
      return Success(randomBits);
    }
    var mostFrequent := counts[MostFrequentIndex(counts)].0;
    var measurement := Reverse(mostFrequent);
    ghost var expected := ParityOf(measurement, numParityBits);
    var parityBits: seq<int> := [];
    var stop := Min(|measurement|, numParityBits + 1);
    var i := 1;
    while i < stop
      invariant 1 <= i <= Max(1, stop) && stop <= |measurement|
      invariant |parityBits| == i - 1
      invariant forall j :: 1 <= j < i ==> '0' <= measurement[j] <= '9'
      invariant forall j :: 0 <= j < |parityBits| ==> parityBits[j] == measurement[j + 1] as int - '0' as int
      decreases stop - i
    {
      if i < |measurement| {
        var digit := DigitValue(measurement[i]);
        if digit.Failure? {
          return Failure(ValueError);
        }
        parityBits := parityBits + [digit.value];
      }
      i := i + 1;
    }
    while |parityBits| < numParityBits
      invariant |parityBits| <= Max(0, numParityBits)
      invariant forall j :: 1 <= j < stop ==> '0' <= measurement[j] <= '9'
      invariant forall j :: 0 <= j < |parityBits| ==>
        parityBits[j] == (if j + 1 < |measurement| then DigitValue(measurement[j + 1]).value else 0)
      decreases numParityBits - |parityBits|
    {
      parityBits := parityBits + [0];
    }
    parityBits := parityBits[..Max(0, Min(numParityBits, |parityBits|))];
    r := Success(parityBits);
    assert r.value == expected.value;
  }

  // --------------------------------------------------------------- encoding

  /** `encode_quantum`: the message followed by its parity bits.  With echo
      resonance the parity bits are extracted from the circuit's counts for
      this message; without it they are the tail of the codeword of a
      freshly drawn classical code `drawn`.  A message of the wrong length
      raises ValueError. */
  function EncodeQuantum(q: QuantumCorrector, message: seq<Bit>, counts: Counts, randomBits: seq<Bit>,
                         drawn: Ldpc.Code): (r: Result<seq<int>>)
    requires !q.useEchoResonance ==> Ldpc.Shaped(drawn) && drawn.k == q.messageLength
    requires q.useEchoResonance && counts == [] && q.parityLength >= 0 ==> |randomBits| == q.parityLength
    ensures r.Failure? ==> r.error == ValueError
    ensures |message| != q.messageLength ==> r.Failure?
    ensures r.Success? ==> |message| == q.messageLength && |r.value| >= |message| && r.value[..|message|] == message
    ensures r.Success? && q.useEchoResonance ==>
      ExtractedParity(counts, q.parityLength, randomBits).Success? &&
      r.value[|message|..] == ExtractedParity(counts, q.parityLength, randomBits).value
  {
    if |message| != q.messageLength then Failure(ValueError)
    else if q.useEchoResonance then
      var parity :- ExtractedParity(counts, q.parityLength, randomBits);
      Success(message + parity)
    else
      Success(message + Ldpc.Codeword(drawn, message)[q.messageLength..])
  }

  /** Without echo resonance the quantum encoder is the fresh code's own
      encoder, because that code is systematic. */
  lemma ClassicalFallbackIsCodeword(q: QuantumCorrector, message: seq<Bit>, counts: Counts,
                                    randomBits: seq<Bit>, drawn: Ldpc.Code)
    requires !q.useEchoResonance && Ldpc.Wellformed(drawn) && drawn.k == q.messageLength
    requires |message| == q.messageLength
    ensures EncodeQuantum(q, message, counts, randomBits, drawn) == Success(Ldpc.Codeword(drawn, message))
  {
    var w := Ldpc.Codeword(drawn, message);
    Ldpc.EncodeSystematic(drawn, message);
    assert w == w[..drawn.k] + w[drawn.k..];
  }

  /** With echo resonance and bit-string counts, or no counts and the
      random parity bits, the codeword is the message followed by exactly
      `parity_length` parity bits: n bits in all. */
  lemma EchoCodewordLength(q: QuantumCorrector, message: seq<Bit>, counts: Counts, randomBits: seq<Bit>,
                           drawn: Ldpc.Code)
    requires Configured(q) && q.useEchoResonance && |message| == q.messageLength
    requires forall t :: 0 <= t < |counts| ==> IsBitString(counts[t].0)
    requires counts == [] ==> |randomBits| == q.parityLength
    ensures var r := EncodeQuantum(q, message, counts, randomBits, drawn);
      r.Success? && |r.value| == q.codeLength
  {
    if counts != [] {
      BitStringCountsGiveParityBits(counts, q.parityLength, randomBits);
    }
  }

  // -------------------------------------------------------- error correction

  /** The per-block encoder of `correct_errors_quantum`: a block followed by
      the parity bits `parity` gives it (echo-resonance parity, or the tail
      of a fresh classical codeword). */
  function QuantumEncoder(parity: seq<Bit> -> seq<Bit>): (encode: seq<Bit> -> seq<Bit>)
    ensures forall x :: |encode(x)| == |x| + |parity(x)| && encode(x)[..|x|] == x
  {
    x => x + parity(x)
  }

  /** The two parties whose blocks are encoded. */
  datatype Party = Alice | Bob

  /** The parity function of party p's block starting at bit i.  With echo
      resonance `encode_quantum` runs a circuit for Alice's block and
      another for Bob's, so the echo parity depends on the block and the
      party; without it one classical code is drawn per block and encodes
      both parties' blocks, so its parity depends on the block alone. */
  function BlockParity(q: QuantumCorrector, echoParity: (nat, Party) -> seq<Bit> -> seq<Bit>,
                       codeParity: nat -> seq<Bit> -> seq<Bit>, p: Party, i: nat): seq<Bit> -> seq<Bit>
  {
    if q.useEchoResonance then echoParity(i, p) else codeParity(i)
  }

  /** Party p's encoder for each block: the block followed by its parity. */
  function PartyEncoder(q: QuantumCorrector, echoParity: (nat, Party) -> seq<Bit> -> seq<Bit>,
                        codeParity: nat -> seq<Bit> -> seq<Bit>, p: Party): BlockEncoder
  {
    i => QuantumEncoder(BlockParity(q, echoParity, codeParity, p, i))
  }

  /** The metadata of `correct_errors_quantum`: the classical fields plus
      whether echo resonance was used and how many parity generations ran. */
  datatype QuantumMetadata = QuantumMetadata(
    ldpc: Ldpc.LdpcMetadata,
    quantumAmplified: bool,
    quantumParityGenerated: nat)

  /** The result of `correct_errors_quantum` once the message length is
      positive and the flips fit in a codeword: both parties' decoded runs
      over the shorter key, packed and trimmed to its length, with the
      metadata counting blocks, successes and the parity generations (two
      per block under echo resonance). */
  function QuantumCorrection(q: QuantumCorrector, keyAlice: Bytes, keyBob: Bytes, errorRate: real,
                             echoParity: (nat, Party) -> seq<Bit> -> seq<Bit>,
                             codeParity: nat -> seq<Bit> -> seq<Bit>, noise: nat -> seq<nat>,
                             decode: BlockDecoder): (result: (Bytes, Bytes, QuantumMetadata))
    requires q.messageLength >= 1
    ensures result.2.ldpc.totalBlocks == BlocksFrom(8 * Min(|keyAlice|, |keyBob|), q.messageLength, 0)
    ensures result.2.quantumParityGenerated == if q.useEchoResonance then 2 * result.2.ldpc.totalBlocks else 0
  {
    var m := Min(|keyAlice|, |keyBob|);
    var k := q.messageLength;
    var encodeAlice := PartyEncoder(q, echoParity, codeParity, Alice);
    var encodeBob := PartyEncoder(q, echoParity, codeParity, Bob);
    var alice := Run(Unpacked(keyAlice), 8 * m, 0, k, encodeAlice, noise, 0, decode);
    var bob := Run(Unpacked(keyBob), 8 * m, 0, k, encodeBob, noise, NumErrors(q.codeLength, errorRate), decode);
    RunBlocks(Unpacked(keyAlice), 8 * m, 0, k, encodeAlice, noise, 0, decode);
    (Trim(Packed(ConcatBits(alice)), m), Trim(Packed(ConcatBits(bob)), m),
     QuantumMetadata(Ldpc.LdpcMetadata(q.codeRate, q.codeLength, k, |alice|, Successes(alice), Successes(bob),
                                       Rate(Successes(alice), |alice|), Rate(Successes(bob), |alice|)),
                     q.useEchoResonance, if q.useEchoResonance then 2 * |alice| else 0))
  }

  /** `correct_errors_quantum`.  The keys are framed into blocks of
      `message_length` bits over the shorter key, each block is encoded as
      itself followed by its parity bits (each party's own circuit run
      under echo resonance, else a classical code drawn for the block), Bob's
      codeword goes through the simulated channel, both are decoded by a
      code drawn afresh for the block (decode(i)), and the results are
      packed and trimmed to the shorter key length.  Each block runs two parity
      generations when echo resonance is on.  A zero message length makes
      `range` raise, and more flips than code bits make the sampler raise. */
  method CorrectErrorsQuantum(q: QuantumCorrector, keyAlice: Bytes, keyBob: Bytes, errorRate: real,
                              echoParity: (nat, Party) -> seq<Bit> -> seq<Bit>,
                              codeParity: nat -> seq<Bit> -> seq<Bit>, noise: nat -> seq<nat>,
                              decode: BlockDecoder)
    returns (r: Result<(Bytes, Bytes, QuantumMetadata)>)
    requires Configured(q)
    requires forall i, p, x :: |x| == q.messageLength ==> |echoParity(i, p)(x)| == q.parityLength
    requires forall i, x :: |x| == q.messageLength ==> |codeParity(i)(x)| == q.parityLength
    requires forall i, w :: |decode(i)(w).bits| == q.messageLength
    requires var e := NumErrors(q.codeLength, errorRate);
      0 < e <= q.codeLength ==> forall i :: ValidDraw(noise(i), q.codeLength, e)
    ensures var limit := 8 * Min(|keyAlice|, |keyBob|);
      r.Failure? <==> q.messageLength == 0 || (limit > 0 && NumErrors(q.codeLength, errorRate) > q.codeLength)
    ensures r.Failure? ==> r.error == ValueError
    ensures r.Success? ==>
      q.messageLength >= 1 && r.value == QuantumCorrection(q, keyAlice, keyBob, errorRate, echoParity, codeParity, noise, decode) &&
      |r.value.0| == Min(|keyAlice|, |keyBob|) && |r.value.1| == Min(|keyAlice|, |keyBob|)
  {
    if q.messageLength == 0 {
      return Failure(ValueError);
    }
    var numErrors := NumErrors(q.codeLength, errorRate);
    if Min(|keyAlice|, |keyBob|) > 0 && numErrors > q.codeLength {
      return Failure(ValueError);
    }
    var encodeAlice := PartyEncoder(q, echoParity, codeParity, Alice);
    var encodeBob := PartyEncoder(q, echoParity, codeParity, Bob);
    var bytesAlice, bytesBob, correctionsAlice, correctionsBob, totalBlocks :=
      FrameAndDecode(keyAlice, keyBob, q.messageLength, q.codeLength, numErrors, encodeAlice, encodeBob, noise, decode);
    // `quantum_parity_generated += 2` once per block when echo resonance is on.
    var quantumParityGenerated := if q.useEchoResonance then 2 * totalBlocks else 0;
    var meta := Ldpc.LdpcMetadata(q.codeRate, q.codeLength, q.messageLength, totalBlocks,
                                  correctionsAlice, correctionsBob,
                                  Rate(correctionsAlice, totalBlocks), Rate(correctionsBob, totalBlocks));
    r := Success((bytesAlice, bytesBob, QuantumMetadata(meta, q.useEchoResonance, quantumParityGenerated)));
  }

  /** If each block's decoder recovered the message of every error-free
      codeword of Alice's encoder for that block, Alice would get her own
      key back from the quantum corrector too.  The source gives no such
      guarantee: it decodes with a code drawn afresh for the block, apart
      from the one (or the circuit run) that encoded it. */
  lemma PerfectDecoderKeepsAliceKeyQuantum(q: QuantumCorrector, keyAlice: Bytes, keyBob: Bytes,
                                           echoParity: (nat, Party) -> seq<Bit> -> seq<Bit>,
                                           codeParity: nat -> seq<Bit> -> seq<Bit>, noise: nat -> seq<nat>,
                                           decode: BlockDecoder)
    requires q.messageLength >= 1
    requires forall i, x :: |x| == q.messageLength ==>
      decode(i)(x + BlockParity(q, echoParity, codeParity, Alice, i)(x)) == Decoded(x, true)
    ensures var m := Min(|keyAlice|, |keyBob|);
      var alice := Run(Unpacked(keyAlice), 8 * m, 0, q.messageLength,
                       PartyEncoder(q, echoParity, codeParity, Alice), noise, 0, decode);
      Trim(Packed(ConcatBits(alice)), m) == keyAlice[..m] && Successes(alice) == |alice|
  {
    var encode := PartyEncoder(q, echoParity, codeParity, Alice);
    assert forall i, x :: |x| == q.messageLength ==> decode(i)(encode(i)(x)) == Decoded(x, true);
    PerfectDecoderKeepsAliceKey(keyAlice, keyBob, q.messageLength, encode, noise, decode);
  }
}
