/** The GHZ side of the hybrid cipher: the fidelity of a GHZ measurement,
    the 32-byte secret drawn from its counts, the hybrid key (an Echo
    Resonance key with a SHA-512 expansion of the secret XORed in) and
    the GHZ layer wrapped around the Echo Resonance ciphertext. */
module GhzHybrid {
  import opened Wrappers
  import opened BitVector
  import opened Encoding
  import opened Crypto
  import opened Dicts
  import Sorting

  // ------------------------------------------------------------ fidelity

  /** The GHZ fidelity in percent: the share of shots that gave all
      zeros or all ones, 0 without shots. */
  function GhzFidelity(counts: Counts, numQubits: nat, shots: int): (f: real)
    ensures shots <= 0 ==> f == 0.0
  {
    var correct := Get(counts, Zeros(numQubits), 0) + Get(counts, Ones(numQubits), 0);
    if shots > 0 then correct as real / shots as real * 100.0 else 0.0
  }

  /** With at least one qubit and counts that sum to at most the shots,
      the fidelity is a percentage. */
  lemma FidelityIsPercentage(counts: Counts, numQubits: nat, shots: int)
    requires numQubits >= 1
    requires NonNegative(counts) && Total(counts) <= shots
    ensures 0.0 <= GhzFidelity(counts, numQubits, shots) <= 100.0
  {
    assert Zeros(numQubits)[0] != Ones(numQubits)[0];
    GetPairBound(counts, Zeros(numQubits), Ones(numQubits));
    var correct := Get(counts, Zeros(numQubits), 0) + Get(counts, Ones(numQubits), 0);
    if shots > 0 {
      ShareBounds(correct, shots);
    }
  }

  // ------------------------------------------------- secret extraction

  /** `x.to_bytes(w, 'big')`: a negative or too wide value raises
      OverflowError. */
  function IntBytes(x: int, w: nat): (r: Result<Bytes>)
    ensures r.Success? <==> 0 <= x < Pow256(w)
    ensures r.Failure? ==> r.error == OverflowError
    ensures r.Success? ==> |r.value| == w && FromBigEndian(r.value) == x
  {
    if x < 0 then Failure(OverflowError)
    else
      var r := ToBigEndian(x, w);
      if r.Success? then BigEndianRoundTrip(x, w); r else r
  }

  /** Bytes per outcome value: `(num_qubits + 7) // 8`. */
  function StateWidth(numQubits: nat): nat
  {
    (numQubits + 7) / 8
  }

  /** One outcome's contribution: its value in StateWidth bytes, then its
      count in four. */
  function EntryBytes(entry: (string, int), numQubits: nat): (r: Result<Bytes>)
    ensures r.Success? ==> |r.value| == StateWidth(numQubits) + 4
  {
    var v := ParseBinary(entry.0);
    if v.Failure? then Failure(v.error)
    else
      var sb := IntBytes(v.value, StateWidth(numQubits));
      if sb.Failure? then Failure(sb.error)
      else
        var cb := IntBytes(entry.1, 4);
        if cb.Failure? then Failure(cb.error) else Success(sb.value + cb.value)
  }

  /** The contributions of a list of outcomes, in order; the first that
      cannot be encoded raises. */
  function StatesData(entries: seq<(string, int)>, numQubits: nat): (r: Result<Bytes>)
  {
    if entries == [] then Success([])
    else
      var init := StatesData(entries[..|entries| - 1], numQubits);
      var last := EntryBytes(entries[|entries| - 1], numQubits);
      if init.Failure? then init
      else if last.Failure? then Failure(last.error)
      else Success(init.value + last.value)
  }

  /** Each outcome contributes StateWidth + 4 bytes. */
  lemma {:induction false} StatesDataLength(entries: seq<(string, int)>, numQubits: nat)
    requires StatesData(entries, numQubits).Success?
    ensures |StatesData(entries, numQubits).value| == |entries| * (StateWidth(numQubits) + 4)
  {
    if entries != [] {
      StatesDataLength(entries[..|entries| - 1], numQubits);
      var w := StateWidth(numQubits) + 4;
      assert (|entries| - 1) * w + w == |entries| * w;
    }
  }

  /** The outcomes encode exactly when each of them does. */
  lemma {:induction false} StatesDataSucceeds(entries: seq<(string, int)>, numQubits: nat)
    ensures StatesData(entries, numQubits).Success? <==>
      forall k :: 0 <= k < |entries| ==> EntryBytes(entries[k], numQubits).Success?
  {
    if entries != [] {
      var init := entries[..|entries| - 1];
      StatesDataSucceeds(init, numQubits);
      assert forall k :: 0 <= k < |init| ==> init[k] == entries[k];
    }
  }

  /** `sorted(counts.items(), key=lambda x: x[1], reverse=True)` */
  function ByCount(counts: Counts): (r: seq<(string, int)>)
    ensures multiset(r) == multiset(counts)
  {
    Sorting.Sort(counts, (x: (string, int), y: (string, int)) => x.1 > y.1)
  }

  /** The outcomes are taken most frequent first. */
  lemma ByCountDescending(counts: Counts)
    ensures forall k :: 0 <= k < |counts| - 1 ==> ByCount(counts)[k].1 >= ByCount(counts)[k + 1].1
  {
    Sorting.SortSorted(counts, (x: (string, int), y: (string, int)) => x.1 > y.1);
  }

  /** Outcomes with equal counts keep their order: `reverse=True` does not
      reverse ties. */
  lemma ByCountStable(counts: Counts, c: int)
    ensures Sorting.WithKey(ByCount(counts), EntryCount, c) == Sorting.WithKey(counts, EntryCount, c)
  {
    Sorting.SortStable(counts, (x: (string, int), y: (string, int)) => x.1 > y.1, EntryCount, c);
  }

  /** The all-zero and then the all-one count, four big-endian bytes
      each. */
  function SignatureCounts(counts: Counts, numQubits: nat): (r: Result<Bytes>)
    ensures r.Success? ==> (|r.value| == 8 &&
      FromBigEndian(r.value[..4]) == Get(counts, Zeros(numQubits), 0) &&
      FromBigEndian(r.value[4..]) == Get(counts, Ones(numQubits), 0))
  {
    var zero := IntBytes(Get(counts, Zeros(numQubits), 0), 4);
    var one := IntBytes(Get(counts, Ones(numQubits), 0), 4);
    if zero.Failure? then Failure(zero.error)
    else if one.Failure? then Failure(one.error)
    else
      assert (zero.value + one.value)[..4] == zero.value && (zero.value + one.value)[4..] == one.value;
      Success(zero.value + one.value)
  }

  /** The job id, then the fidelity and the execution time scaled to
      integers in four bytes each. */
  function RunData(jobId: string, fidelity: real, executionTime: real): (r: Result<Bytes>)
  {
    var fid := IntBytes(PyInt(fidelity * 100.0), 4);
    var time := IntBytes(PyInt(executionTime * 1000.0), 4);
    if fid.Failure? then Failure(fid.error)
    else if time.Failure? then Failure(time.error)
    else Success(Utf8(jobId) + fid.value + time.value)
  }

  /** The bytes `extract_ghz_secret` hashes: the GHZ signature counts,
      every outcome by descending count, then the run data. */
  function SecretData(counts: Counts, numQubits: nat, jobId: string, fidelity: real, executionTime: real)
    : (r: Result<Bytes>)
  {
    var head := SignatureCounts(counts, numQubits);
    var states := StatesData(ByCount(counts), numQubits);
    var tail := RunData(jobId, fidelity, executionTime);
    if head.Failure? then head
    else if states.Failure? then states
    else if tail.Failure? then tail
    else Success(head.value + states.value + tail.value)
  }

  /** The hashed input starts with the all-zero and the all-one count as
      four big-endian bytes each, followed by one StateWidth + 4 byte
      record per outcome, most frequent first. */
  lemma SecretDataLayout(counts: Counts, numQubits: nat, jobId: string, fidelity: real, executionTime: real)
    requires SecretData(counts, numQubits, jobId, fidelity, executionTime).Success?
    ensures var data := SecretData(counts, numQubits, jobId, fidelity, executionTime).value;
      var states := StatesData(ByCount(counts), numQubits).value;
      |states| == |counts| * (StateWidth(numQubits) + 4) &&
      8 + |states| <= |data| &&
      FromBigEndian(data[..4]) == Get(counts, Zeros(numQubits), 0) &&
      FromBigEndian(data[4..8]) == Get(counts, Ones(numQubits), 0) &&
      data[8..8 + |states|] == states
  {
    var head := SignatureCounts(counts, numQubits).value;
    var states := StatesData(ByCount(counts), numQubits).value;
    var data := SecretData(counts, numQubits, jobId, fidelity, executionTime).value;
    StatesDataLength(ByCount(counts), numQubits);
    assert data[..4] == head[..4] && data[4..8] == head[4..];
    assert data[8..8 + |states|] == states;
  }

  /** The GHZ secret: SHA-256 of the secret data. */
  function GhzSecret(counts: Counts, numQubits: nat, jobId: string, fidelity: real, executionTime: real,
                     sha256: Sha256): (r: Result<Digest32>)
  {
    var data := SecretData(counts, numQubits, jobId, fidelity, executionTime);
    if data.Failure? then Failure(data.error) else Success(sha256(data.value))
  }

  /** The loop of `extract_ghz_secret` over the outcomes, most frequent
      first: each outcome's value and count are appended in turn. */
  method EncodeStates(entries: seq<(string, int)>, numQubits: nat) returns (r: Result<Bytes>)
    ensures r == StatesData(entries, numQubits)
  {
    var data: Bytes := [];
    var i := 0;
    while i < |entries|
      invariant i <= |entries|
      invariant StatesData(entries[..i], numQubits) == Success(data)
    {
      assert entries[..i + 1][..i] == entries[..i];
      var entry := EntryBytes(entries[i], numQubits);
      if entry.Failure? {
        StatesPrefixFails(entries, numQubits, i + 1);
        return Failure(entry.error);
      }
      data := data + entry.value;
      i := i + 1;
    }
    assert entries[..i] == entries;
    r := Success(data);
  }

  /** `extract_ghz_secret`: the signature counts, the outcomes and the
      run data, hashed to 32 bytes. */
  method ExtractGhzSecret(counts: Counts, numQubits: nat, jobId: string, fidelity: real, executionTime: real,
                          sha256: Sha256) returns (r: Result<Digest32>)
    ensures r == GhzSecret(counts, numQubits, jobId, fidelity, executionTime, sha256)
  {
    var head := SignatureCounts(counts, numQubits);
    if head.Failure? {
      return Failure(head.error);
    }
    var states := EncodeStates(ByCount(counts), numQubits);
    if states.Failure? {
      return Failure(states.error);
    }
    var tail := RunData(jobId, fidelity, executionTime);
    if tail.Failure? {
      return Failure(tail.error);
    }
    var secretData := head.value + states.value + tail.value;
    r := Success(sha256(secretData));
  }

  /** Once a prefix of the outcomes fails to encode, the whole list fails
      with the same error. */
  lemma {:induction false} StatesPrefixFails(entries: seq<(string, int)>, numQubits: nat, n: nat)
    requires n <= |entries|
    requires StatesData(entries[..n], numQubits).Failure?
    ensures StatesData(entries, numQubits) == StatesData(entries[..n], numQubits)
    decreases |entries| - n
  {
    if n < |entries| {
      assert entries[..n + 1][..n] == entries[..n];
      StatesPrefixFails(entries, numQubits, n + 1);
    } else {
      assert entries[..n] == entries;
    }
  }

  // ------------------------------------------------------- hybrid key

  /** The secret expanded to `length` bytes: `sha512(secret ‖ i)` with i
      a four-byte big-endian counter, cut to length; OverflowError once
      the counter no longer fits. */
  function KeyExpansion(secret: Bytes, length: int, sha512: Sha512): (r: Result<Bytes>)
    ensures r.Failure? <==> length > 64 * Counter32
    ensures r.Failure? ==> r.error == OverflowError
    ensures r.Success? ==> |r.value| == Max(length, 0)
  {
    if length <= 0 then Success([])
    else if length > 64 * Counter32 then Failure(OverflowError)
    else
      var count := CeilDiv(length, 64);
      ExpandLength(Blocks512(sha512), 64, secret, count);
      Success(Expand(Blocks512(sha512), secret, count)[..length])
  }

  /** The first |stream| bytes of data XORed with the stream, the rest
      unchanged. */
  function XorPrefix(data: Bytes, stream: Bytes): (r: Bytes)
    requires |stream| <= |data|
    ensures |r| == |data|
    ensures forall i :: 0 <= i < |stream| ==> r[i] == data[i] ^ stream[i]
    ensures r[|stream|..] == data[|stream|..]
  {
    XorWith(data[..|stream|], stream) + data[|stream|..]
  }

  /** XORing the same stream in twice restores the data. */
  lemma XorPrefixTwice(data: Bytes, stream: Bytes)
    requires |stream| <= |data|
    ensures XorPrefix(XorPrefix(data, stream), stream) == data
  {
    var twice := XorPrefix(XorPrefix(data, stream), stream);
    assert forall i :: 0 <= i < |stream| ==> twice[i] == data[i];
    assert twice[|stream|..] == data[|stream|..];
    assert twice == twice[..|stream|] + twice[|stream|..];
    assert data == data[..|stream|] + data[|stream|..];
  }

  /** The hybrid key: the expansion XORed into the first `length` bytes
      of the Echo Resonance key; an Echo key shorter than that raises
      IndexError. */
  function HybridKey(secret: Bytes, length: int, echoKey: Bytes, sha512: Sha512): (r: Result<Bytes>)
    ensures r.Success? <==> length <= 64 * Counter32 && length <= |echoKey|
    ensures r.Failure? ==> r.error == (if length > 64 * Counter32 then OverflowError else IndexError)
    ensures r.Success? ==> |r.value| == |echoKey|
    ensures r.Success? ==> r.value[Max(length, 0)..] == echoKey[Max(length, 0)..]
    ensures r.Success? ==> forall i :: 0 <= i < length ==>
      r.value[i] == echoKey[i] ^ KeyExpansion(secret, length, sha512).value[i]
  {
    var expanded := KeyExpansion(secret, length, sha512);
    if expanded.Failure? then Failure(expanded.error)
    else if length > |echoKey| then Failure(IndexError)
    else Success(XorPrefix(echoKey, expanded.value))
  }

  /** Applying the same expansion again restores the Echo key. */
  lemma HybridKeyInvolution(secret: Bytes, length: int, echoKey: Bytes, sha512: Sha512)
    requires HybridKey(secret, length, echoKey, sha512).Success?
    ensures HybridKey(secret, length, HybridKey(secret, length, echoKey, sha512).value, sha512) == Success(echoKey)
  {
    XorPrefixTwice(echoKey, KeyExpansion(secret, length, sha512).value);
  }

  /** The expansion loop of `generate_hybrid_key`: one SHA-512 block per
      counter value until `length` bytes are covered, then cut. */
  method ExpandSecret(secret: Bytes, length: int, sha512: Sha512) returns (r: Result<Bytes>)
    ensures r == KeyExpansion(secret, length, sha512)
  {
    var expanded: Bytes := [];
    var counter: nat := 0;
    while |expanded| < length
      invariant counter <= Counter32
      invariant expanded == Expand(Blocks512(sha512), secret, counter)
      invariant |expanded| == 64 * counter
      invariant counter == 0 || 64 * (counter - 1) < length
      decreases length - |expanded|
    {
      if counter == Counter32 {
        return Failure(OverflowError);
      }
      expanded := expanded + sha512(secret + Be4(counter));
      counter := counter + 1;
    }
    if length > 0 {
      CeilDivUnique(length, 64, counter);
      r := Success(expanded[..length]);
    } else {
      r := Success([]);
    }
  }

  /** `combined[i] ^= stream[i]` for each i below |stream|, on a fresh
      copy of the data. */
  method XorInto(data: Bytes, stream: Bytes) returns (r: Bytes)
    requires |stream| <= |data|
    ensures r == XorPrefix(data, stream)
  {
    var buffer := new Byte[|data|](i requires 0 <= i < |data| => data[i]);
    for i := 0 to |stream|
      invariant forall j :: 0 <= j < i ==> buffer[j] == data[j] ^ stream[j]
      invariant forall j :: i <= j < |data| ==> buffer[j] == data[j]
    {
      buffer[i] := buffer[i] ^ stream[i];
    }
    r := buffer[..];
    assert r[..|stream|] == XorWith(data[..|stream|], stream);
    assert r == r[..|stream|] + r[|stream|..];
  }

  /** `generate_hybrid_key`, with the Echo Resonance key as a parameter:
      the expansion is XORed into a copy of the Echo key byte by byte. */
  method GenerateHybridKey(secret: Bytes, length: int, echoKey: Bytes, sha512: Sha512) returns (r: Result<Bytes>)
    ensures r == HybridKey(secret, length, echoKey, sha512)
  {
    var expanded := ExpandSecret(secret, length, sha512);
    if expanded.Failure? {
      return Failure(expanded.error);
    }
    if length > |echoKey| {
      return Failure(IndexError);
    }
    var combined := XorInto(echoKey, expanded.value);
    r := Success(combined);
  }

  // ------------------------------------------------------- GHZ layer

  /** The GHZ keystream for n bytes: `sha512(secret)`, then
      `sha512(secret ‖ i)` for i = 0, 1, ... until n bytes are covered,
      cut to n. */
  function LayerStream(secret: Bytes, n: nat, sha512: Sha512): (r: Result<Bytes>)
    ensures r.Failure? <==> n > 64 + 64 * Counter32
    ensures r.Failure? ==> r.error == OverflowError
    ensures r.Success? ==> |r.value| == n
  {
    if n <= 64 then Success(sha512(secret)[..n])
    else if n > 64 + 64 * Counter32 then Failure(OverflowError)
    else
      var count := CeilDiv(n - 64, 64);
      ExpandLength(Blocks512(sha512), 64, secret, count);
      Success((sha512(secret) + Expand(Blocks512(sha512), secret, count))[..n])
  }

  /** The data XORed with the keystream of its own length. */
  function GhzLayer(data: Bytes, secret: Bytes, sha512: Sha512): (r: Result<Bytes>)
    ensures r.Success? <==> LayerStream(secret, |data|, sha512).Success?
    ensures r.Success? ==> |r.value| == |data|
  {
    var stream := LayerStream(secret, |data|, sha512);
    if stream.Failure? then Failure(stream.error) else Success(XorPrefix(data, stream.value))
  }

  /** The layer is its own inverse: the keystream depends only on the
      secret and the length, which the layer keeps. */
  lemma GhzLayerInvolution(data: Bytes, secret: Bytes, sha512: Sha512)
    requires GhzLayer(data, secret, sha512).Success?
    ensures GhzLayer(GhzLayer(data, secret, sha512).value, secret, sha512) == Success(data)
  {
    XorPrefixTwice(data, LayerStream(secret, |data|, sha512).value);
  }

  /** The keystream loop of `hybrid_encrypt` and `hybrid_decrypt`: the
      first hash, then counter blocks until n bytes are covered, cut to n. */
  method BuildLayerStream(secret: Bytes, n: nat, sha512: Sha512) returns (r: Result<Bytes>)
    ensures r == LayerStream(secret, n, sha512)
  {
    var expanded: Bytes := sha512(secret);
    var counter: nat := 0;
    while |expanded| < n
      invariant counter <= Counter32
      invariant expanded == sha512(secret) + Expand(Blocks512(sha512), secret, counter)
      invariant |expanded| == 64 + 64 * counter
      invariant counter == 0 || 64 * counter < n
      decreases n - |expanded|
    {
      if counter == Counter32 {
        LayerStreamOverflow(secret, n, sha512);
        return Failure(OverflowError);
      }
      LayerBlock(secret, sha512, counter);
      expanded := expanded + sha512(secret + Be4(counter));
      counter := counter + 1;
    }
    LayerStreamCovers(secret, n, sha512, counter);
    r := Success(expanded[..n]);
  }

  /** A stream longer than the first hash and every counter block raises. */
  lemma LayerStreamOverflow(secret: Bytes, n: nat, sha512: Sha512)
    requires n > 64 + 64 * Counter32
    ensures LayerStream(secret, n, sha512) == Failure(OverflowError)
  {
  }

  /** One more counter block extends the stream by 64 bytes. */
  lemma LayerBlock(secret: Bytes, sha512: Sha512, counter: nat)
    requires counter < Counter32
    ensures var first := sha512(secret);
      first + Expand(Blocks512(sha512), secret, counter + 1)
        == (first + Expand(Blocks512(sha512), secret, counter)) + sha512(secret + Be4(counter))
    ensures |sha512(secret) + Expand(Blocks512(sha512), secret, counter + 1)| == 64 + 64 * (counter + 1)
  {
    ExpandNext(Blocks512(sha512), secret, counter);
    ExpandLength(Blocks512(sha512), 64, secret, counter + 1);
  }

  /** The stream the loop has built when it stops is the keystream. */
  lemma LayerStreamCovers(secret: Bytes, n: nat, sha512: Sha512, counter: nat)
    requires counter <= Counter32
    requires 64 + 64 * counter >= n
    requires counter == 0 || 64 * counter < n
    ensures |Expand(Blocks512(sha512), secret, counter)| == 64 * counter
    ensures LayerStream(secret, n, sha512) == Success((sha512(secret) + Expand(Blocks512(sha512), secret, counter))[..n])
  {
    ExpandLength(Blocks512(sha512), 64, secret, counter);
    if n > 64 {
      CeilDivUnique(n - 64, 64, counter);
    } else {
      assert counter == 0;
      assert sha512(secret) + Expand(Blocks512(sha512), secret, counter) == sha512(secret);
    }
  }

  /** The GHZ layer as `hybrid_encrypt` adds it and `hybrid_decrypt`
      removes it: the keystream XORed into a copy of the data. */
  method ApplyGhzLayer(data: Bytes, secret: Bytes, sha512: Sha512) returns (r: Result<Bytes>)
    ensures r == GhzLayer(data, secret, sha512)
  {
    var stream := BuildLayerStream(secret, |data|, sha512);
    if stream.Failure? {
      return Failure(stream.error);
    }
    var layered := XorInto(data, stream.value);
    r := Success(layered);
  }

  // ------------------------------------------------ hybrid encryption

  /** The Echo Resonance cipher's own metadata entries. */
  type EchoInfo = seq<(string, string)>

  datatype HybridMetadata = HybridMetadata(
    ghzSeedUsed: bool,
    numLayers: int,
    ghzQubits: nat,
    echoQubits: nat,
    echo: EchoInfo)

  /** The Echo Resonance multi-layer cipher, which the hybrid wraps. */
  type EchoEncrypt = (Bytes, int) -> (Bytes, EchoInfo)
  type EchoDecrypt = (Bytes, HybridMetadata) -> Bytes

  /** The ciphertext and metadata of `hybrid_encrypt`: the Echo
      ciphertext, with the GHZ layer on top when the GHZ seed is used and
      the secret is non-empty. */
  function Encrypted(message: Bytes, numLayers: int, useGhzSeed: bool, ghzSecret: Bytes,
                     numGhzQubits: nat, numEchoQubits: nat, echo: EchoEncrypt, sha512: Sha512)
    : (r: Result<(Bytes, HybridMetadata)>)
    ensures r.Success? ==> r.value.1.numLayers == numLayers + (if useGhzSeed then 1 else 0)
    ensures r.Success? ==> r.value.1.ghzSeedUsed == useGhzSeed
    ensures r.Success? ==> |r.value.0| == |echo(message, numLayers).0|
  {
    var (inner, info) := echo(message, numLayers);
    var metadata := HybridMetadata(useGhzSeed, numLayers + (if useGhzSeed then 1 else 0),
                                   if useGhzSeed then numGhzQubits else 0, numEchoQubits, info);
    if useGhzSeed && ghzSecret != [] then
      var layered := GhzLayer(inner, ghzSecret, sha512);
      if layered.Failure? then Failure(layered.error) else Success((layered.value, metadata))
    else Success((inner, metadata))
  }

  /** `hybrid_decrypt`: the GHZ layer comes off only when the metadata
      says the seed was used and a non-empty secret is supplied; the Echo
      layers come off after. */
  function Decrypted(encrypted: Bytes, metadata: HybridMetadata, ghzSecret: Option<Bytes>,
                     echo: EchoDecrypt, sha512: Sha512): (r: Result<Bytes>)
    ensures !(metadata.ghzSeedUsed && ghzSecret.Some? && ghzSecret.value != []) ==>
      r == Success(echo(encrypted, metadata))
  {
    if metadata.ghzSeedUsed && ghzSecret.Some? && ghzSecret.value != [] then
      var stripped := GhzLayer(encrypted, ghzSecret.value, sha512);
      if stripped.Failure? then Failure(stripped.error) else Success(echo(stripped.value, metadata))
    else Success(echo(encrypted, metadata))
  }

  /** Echo Resonance decryption undoes Echo Resonance encryption, given
      the metadata that encryption reported. */
  ghost predicate EchoInverse(encrypt: EchoEncrypt, decrypt: EchoDecrypt)
  {
    forall m, n, md: HybridMetadata :: md.echo == encrypt(m, n).1 ==> decrypt(encrypt(m, n).0, md) == m
  }

  /** Decrypting with the same GHZ secret recovers the message, whether
      or not the GHZ layer was used. */
  lemma HybridRoundTrip(message: Bytes, numLayers: int, useGhzSeed: bool, ghzSecret: Bytes,
                        numGhzQubits: nat, numEchoQubits: nat,
                        encrypt: EchoEncrypt, decrypt: EchoDecrypt, sha512: Sha512)
    requires EchoInverse(encrypt, decrypt)
    requires Encrypted(message, numLayers, useGhzSeed, ghzSecret, numGhzQubits, numEchoQubits, encrypt, sha512).Success?
    ensures var (c, md) := Encrypted(message, numLayers, useGhzSeed, ghzSecret, numGhzQubits, numEchoQubits, encrypt, sha512).value;
      Decrypted(c, md, Some(ghzSecret), decrypt, sha512) == Success(message)
  {
    var inner := encrypt(message, numLayers).0;
    if useGhzSeed && ghzSecret != [] {
      GhzLayerInvolution(inner, ghzSecret, sha512);
    }
  }

  /** `hybrid_encrypt`, with the GHZ secret (drawn from a GHZ run) and the
      Echo Resonance cipher as parameters. */
  method HybridEncrypt(message: Bytes, numLayers: int, useGhzSeed: bool, ghzSecret: Bytes,
                       numGhzQubits: nat, numEchoQubits: nat, echo: EchoEncrypt, sha512: Sha512)
    returns (r: Result<(Bytes, HybridMetadata)>)
    ensures r == Encrypted(message, numLayers, useGhzSeed, ghzSecret, numGhzQubits, numEchoQubits, echo, sha512)
  {
    var (encrypted, info) := echo(message, numLayers);
    if useGhzSeed && ghzSecret != [] {
      var layered := ApplyGhzLayer(encrypted, ghzSecret, sha512);
      if layered.Failure? {
        return Failure(layered.error);
      }
      encrypted := layered.value;
    }
    var metadata := HybridMetadata(useGhzSeed, numLayers + (if useGhzSeed then 1 else 0),
                                   if useGhzSeed then numGhzQubits else 0, numEchoQubits, info);
    r := Success((encrypted, metadata));
  }

  /** `hybrid_decrypt`. */
  method HybridDecrypt(encrypted: Bytes, metadata: HybridMetadata, ghzSecret: Option<Bytes>,
                       echo: EchoDecrypt, sha512: Sha512) returns (r: Result<Bytes>)
    ensures r == Decrypted(encrypted, metadata, ghzSecret, echo, sha512)
  {
    var decrypted := encrypted;
    if metadata.ghzSeedUsed && ghzSecret.Some? && ghzSecret.value != [] {
      var stripped := ApplyGhzLayer(decrypted, ghzSecret.value, sha512);
      if stripped.Failure? {
        return Failure(stripped.error);
      }
      decrypted := stripped.value;
    }
    r := Success(echo(decrypted, metadata));
  }
}
