/** The two-party session protocol: signed protocol messages and their
    dictionary form, challenge-response authentication, sampled error
    detection, the byte-copy error correction, counter-mode privacy
    amplification and final key verification. */
module Protocol {
  import opened Wrappers
  import opened BitVector
  import opened Encoding
  import opened Crypto
  import Sorting

  // ------------------------------------------------------------ messages

  datatype MessageType =
    | InitRequest | InitResponse | AuthChallenge | AuthResponse
    | QkgRequest | QkgResponse | ErrorDetect | ErrorCorrect
    | PrivacyAmp | KeyVerify | KeyConfirm

  /** `MessageType.value` */
  function TypeValue(t: MessageType): string
  {
    match t
    case InitRequest => "INIT_REQUEST"
    case InitResponse => "INIT_RESPONSE"
    case AuthChallenge => "AUTH_CHALLENGE"
    case AuthResponse => "AUTH_RESPONSE"
    case QkgRequest => "QKG_REQUEST"
    case QkgResponse => "QKG_RESPONSE"
    case ErrorDetect => "ERROR_DETECT"
    case ErrorCorrect => "ERROR_CORRECT"
    case PrivacyAmp => "PRIVACY_AMP"
    case KeyVerify => "KEY_VERIFY"
    case KeyConfirm => "KEY_CONFIRM"
  }

  /** `MessageType(s)`: the member whose value is s, ValueError otherwise. */
  function ParseMessageType(s: string): (r: Result<MessageType>)
    ensures r.Success? ==> TypeValue(r.value) == s
    ensures r.Failure? ==> r.error == ValueError
  {
    if s == "INIT_REQUEST" then Success(InitRequest)
    else if s == "INIT_RESPONSE" then Success(InitResponse)
    else if s == "AUTH_CHALLENGE" then Success(AuthChallenge)
    else if s == "AUTH_RESPONSE" then Success(AuthResponse)
    else if s == "QKG_REQUEST" then Success(QkgRequest)
    else if s == "QKG_RESPONSE" then Success(QkgResponse)
    else if s == "ERROR_DETECT" then Success(ErrorDetect)
    else if s == "ERROR_CORRECT" then Success(ErrorCorrect)
    else if s == "PRIVACY_AMP" then Success(PrivacyAmp)
    else if s == "KEY_VERIFY" then Success(KeyVerify)
    else if s == "KEY_CONFIRM" then Success(KeyConfirm)
    else Failure(ValueError)
  }

  /** Every member's value parses back to that member. */
  lemma ParseTypeValue(t: MessageType)
    ensures ParseMessageType(TypeValue(t)) == Success(t)
  {
    match t
    case InitRequest =>
    case InitResponse =>
    case AuthChallenge =>
    case AuthResponse =>
    case QkgRequest =>
    case QkgResponse =>
    case ErrorDetect =>
    case ErrorCorrect =>
    case PrivacyAmp =>
    case KeyVerify =>
    case KeyConfirm =>
  }

  /** The values the protocol puts in a message's `data` dictionary. */
  datatype Value =
    | Text(s: string)
    | Int(i: int)
    | Float(x: real)
    | Flag(b: bool)
    | Ints(xs: seq<int>)

  /** A `data` dictionary, entries in insertion order. */
  type Data = seq<(string, Value)>

  /** `str(data)`: Python's rendering of a dictionary, which the model
      takes as given. */
  type Render = Data -> string

  /** A protocol message.  The session id is None until a challenge has
      been generated. */
  datatype QkdMessage = QkdMessage(
    messageType: MessageType,
    sessionId: Option<string>,
    timestamp: int,
    data: Data,
    signature: Option<Bytes>)

  /** The dictionary `to_dict` produces and `from_dict` reads; the type
      is kept as the text it is on the wire. */
  datatype MessageDict = MessageDict(
    typeName: string,
    sessionId: Option<string>,
    timestamp: int,
    data: Data,
    signature: Option<string>)

  /** `to_dict`: an empty or missing signature is written as None. */
  function ToDict(m: QkdMessage): (d: MessageDict)
    ensures d.signature.Some? <==> m.signature.Some? && m.signature.value != []
    ensures d.signature.Some? ==> IsHex(d.signature.value) && |d.signature.value| == 2 * |m.signature.value|
  {
    var sig := if m.signature.Some? && m.signature.value != [] then Some(ToHex(m.signature.value)) else None;
    if sig.Some? then HexBytesToHex(m.signature.value); MessageDict(TypeValue(m.messageType), m.sessionId, m.timestamp, m.data, sig)
    else MessageDict(TypeValue(m.messageType), m.sessionId, m.timestamp, m.data, sig)
  }

  /** `from_dict`: an unknown type name or a signature that is not hex
      raises ValueError; an empty signature string reads as None. */
  function FromDict(d: MessageDict): (r: Result<QkdMessage>)
    ensures r.Success? <==>
      ParseMessageType(d.typeName).Success? &&
      (d.signature.Some? && d.signature.value != [] ==> IsHex(d.signature.value))
    ensures r.Failure? ==> r.error == ValueError
    ensures r.Success? ==>
      TypeValue(r.value.messageType) == d.typeName && r.value.sessionId == d.sessionId &&
      r.value.timestamp == d.timestamp && r.value.data == d.data &&
      (r.value.signature.Some? <==> d.signature.Some? && d.signature.value != [])
  {
    var t := ParseMessageType(d.typeName);
    if t.Failure? then Failure(ValueError)
    else if d.signature.Some? && d.signature.value != [] then
      var sig := FromHex(d.signature.value);
      if sig.Failure? then Failure(ValueError)
      else Success(QkdMessage(t.value, d.sessionId, d.timestamp, d.data, Some(sig.value)))
    else Success(QkdMessage(t.value, d.sessionId, d.timestamp, d.data, None))
  }

  /** The signature as it survives `to_dict`: an empty one becomes None. */
  function Transported(sig: Option<Bytes>): Option<Bytes>
  {
    if sig == Some([]) then None else sig
  }

  /** A message read back from its dictionary has the same type, session
      id, timestamp, data and signature, except that an empty signature
      comes back as None. */
  lemma DictRoundTrip(m: QkdMessage)
    ensures FromDict(ToDict(m)) == Success(m.(signature := Transported(m.signature)))
  {
    ParseTypeValue(m.messageType);
    if m.signature.Some? && m.signature.value != [] {
      HexRoundTrip(m.signature.value);
    }
  }

  // ------------------------------------------------------------ signing

  /** `str(n)` for any integer. */
  function IntToString(n: int): (s: string)
    ensures |s| >= 1
  {
    if n < 0 then "-" + NatToString(-n) else NatToString(n)
  }

  /** The session id as an f-string renders it: a missing one prints as
      "None". */
  function SessionText(sid: Option<string>): string
  {
    if sid.Some? then sid.value else "None"
  }

  /** The bytes `_sign_message` authenticates: type value, session id and
      timestamp, then the rendered data, all UTF-8 encoded. */
  function SignedBytes(m: QkdMessage, render: Render): (b: Bytes)
    ensures b == Utf8(TypeValue(m.messageType) + SessionText(m.sessionId) + IntToString(m.timestamp) + render(m.data))
  {
    var head := TypeValue(m.messageType) + SessionText(m.sessionId) + IntToString(m.timestamp);
    Utf8Append(head, render(m.data));
    Utf8(head) + Utf8(render(m.data))
  }

  /** `_sign_message`: HMAC-SHA256 under the shared secret. */
  function Sign(secret: Bytes, m: QkdMessage, hmac: HmacSha256, render: Render): (sig: Digest32)
  {
    hmac(secret, SignedBytes(m, render))
  }

  /** The message with `message.signature = _sign_message(message)`. */
  function Signed(secret: Bytes, m: QkdMessage, hmac: HmacSha256, render: Render): (s: QkdMessage)
    ensures s.messageType == m.messageType && s.sessionId == m.sessionId
    ensures s.timestamp == m.timestamp && s.data == m.data
    ensures s.signature.Some? && |s.signature.value| == 32
  {
    m.(signature := Some(Sign(secret, m, hmac, render)))
  }

  /** `verify_message_signature`: compare_digest of the expected signature
      with the carried one; comparing with None raises TypeError. */
  function VerifyMessageSignature(secret: Bytes, m: QkdMessage, hmac: HmacSha256, render: Render): (r: Result<bool>)
    ensures r.Failure? <==> m.signature.None?
    ensures r.Failure? ==> r.error == TypeError
    ensures r == Success(true) <==> m.signature == Some(Sign(secret, m, hmac, render))
  {
    if m.signature.None? then Failure(TypeError)
    else Success(Sign(secret, m, hmac, render) == m.signature.value)
  }

  /** A message signed under a secret verifies under the same secret, and
      still does after a trip through its dictionary form. */
  lemma SignedVerifies(secret: Bytes, m: QkdMessage, hmac: HmacSha256, render: Render)
    ensures VerifyMessageSignature(secret, Signed(secret, m, hmac, render), hmac, render) == Success(true)
    ensures var back := FromDict(ToDict(Signed(secret, m, hmac, render)));
      back.Success? && VerifyMessageSignature(secret, back.value, hmac, render) == Success(true)
  {
    var s := Signed(secret, m, hmac, render);
    assert SignedBytes(s, render) == SignedBytes(m, render);
    DictRoundTrip(s);
    assert Transported(s.signature) == s.signature;
  }

  // ------------------------------------------------------ error detection

  /** Whether sampled bit position idx differs between the two keys; a
      position whose byte lies past either key is skipped. */
  predicate Differs(idx: nat, a: Bytes, b: Bytes)
  {
    idx / 8 < |a| && idx / 8 < |b| && BitOf(a[idx / 8], idx % 8) != BitOf(b[idx / 8], idx % 8)
  }

  /** The error count over a list of sampled positions. */
  function Mismatches(samples: seq<nat>, a: Bytes, b: Bytes): (n: nat)
    ensures n <= |samples|
  {
    if samples == [] then 0
    else Mismatches(samples[..|samples| - 1], a, b) + (if Differs(samples[|samples| - 1], a, b) then 1 else 0)
  }

  /** No errors are counted exactly when no sampled position differs; all
      samples count exactly when every sampled position differs. */
  lemma {:induction false} MismatchesExtremes(samples: seq<nat>, a: Bytes, b: Bytes)
    ensures Mismatches(samples, a, b) == 0 <==> forall k :: 0 <= k < |samples| ==> !Differs(samples[k], a, b)
    ensures Mismatches(samples, a, b) == |samples| <==> forall k :: 0 <= k < |samples| ==> Differs(samples[k], a, b)
  {
    if samples != [] {
      var init := samples[..|samples| - 1];
      MismatchesExtremes(init, a, b);
      assert forall k :: 0 <= k < |init| ==> init[k] == samples[k];
    }
  }

  /** Identical keys never show an error. */
  lemma SameKeyNoErrors(samples: seq<nat>, a: Bytes)
    ensures Mismatches(samples, a, a) == 0
  {
    MismatchesExtremes(samples, a, a);
  }

  /** `sorted(...)` of the drawn positions. */
  function SampleIndices(draws: seq<nat>): (s: seq<nat>)
    ensures multiset(s) == multiset(draws)
  {
    Sorting.Sort(draws, (x: nat, y: nat) => x < y)
  }

  /** The sample indices are in ascending order. */
  lemma SampleIndicesAscending(draws: seq<nat>)
    ensures forall k :: 0 <= k < |draws| - 1 ==> SampleIndices(draws)[k] <= SampleIndices(draws)[k + 1]
  {
    Sorting.SortSorted(draws, (x: nat, y: nat) => x < y);
  }

  /** `min(sample_size, max_samples)` draws, none when that is negative. */
  function SampleCount(sampleSize: int, a: Bytes, b: Bytes): nat
  {
    var maxSamples := Min(|a|, |b|) * 8;
    if Min(sampleSize, maxSamples) < 0 then 0 else Min(sampleSize, maxSamples)
  }

  /** The error rate: errors over samples, 0.0 without samples. */
  function ErrorRate(errors: nat, samples: nat): (rate: real)
    requires errors <= samples
    ensures 0.0 <= rate <= 1.0
    ensures rate == 0.0 <==> errors == 0
    ensures rate == 1.0 <==> samples > 0 && errors == samples
  {
    if samples == 0 then 0.0 else errors as real / samples as real
  }

  function DetectionData(samples: seq<nat>, errors: nat, rate: real): Data
  {
    [("sample_indices", Ints(samples)), ("error_count", Int(errors)), ("error_rate", Float(rate))]
  }

  function VerifyData(hashA: Digest32, hashB: Digest32, keysMatch: bool): Data
  {
    [("key_hash_alice", Text(ToHex(hashA))), ("key_hash_bob", Text(ToHex(hashB))), ("keys_match", Flag(keysMatch))]
  }

  // ------------------------------------------------- privacy amplification

  /** The amplified key: counter-mode SHA-256 over seed ‖ raw key, cut to
      the requested length; a counter that no longer fits four bytes
      raises OverflowError. */
  function Amplified(rawKey: Bytes, outputLength: int, seed: Bytes, sha256: Sha256): (r: Result<Bytes>)
    ensures r.Failure? <==> outputLength > 32 * Counter32
    ensures r.Failure? ==> r.error == OverflowError
    ensures r.Success? ==> |r.value| == Max(outputLength, 0)
  {
    if outputLength <= 0 then Success([])
    else if outputLength > 32 * Counter32 then Failure(OverflowError)
    else
      var count := CeilDiv(outputLength, 32);
      ExpandLength(Blocks256(sha256), 32, seed + rawKey, count);
      Success(Expand(Blocks256(sha256), seed + rawKey, count)[..outputLength])
  }

  /** Every full 32-byte block i of the output is the hash of seed ‖ raw
      key ‖ i as four big-endian bytes. */
  lemma AmplifiedBlock(rawKey: Bytes, outputLength: int, seed: Bytes, sha256: Sha256, i: nat)
    requires 32 * (i + 1) <= outputLength <= 32 * Counter32
    ensures Amplified(rawKey, outputLength, seed, sha256).value[32 * i .. 32 * (i + 1)]
      == sha256(seed + rawKey + Be4(i))
  {
    var count := CeilDiv(outputLength, 32);
    var input := seed + rawKey;
    ExpandBlock(Blocks256(sha256), input, count, i);
    ExpandLength(Blocks256(sha256), 32, input, i);
    ExpandLength(Blocks256(sha256), 32, input, i + 1);
    ExpandLength(Blocks256(sha256), 32, input, count);
  }

  /** A shorter output is a prefix of a longer one from the same input. */
  lemma AmplifiedPrefix(rawKey: Bytes, m: int, n: int, seed: Bytes, sha256: Sha256)
    requires m <= n <= 32 * Counter32
    ensures Amplified(rawKey, m, seed, sha256).value <= Amplified(rawKey, n, seed, sha256).value
  {
    if m > 0 {
      var input := seed + rawKey;
      var cm, cn := CeilDiv(m, 32), CeilDiv(n, 32);
      ExpandLength(Blocks256(sha256), 32, input, cm);
      ExpandLength(Blocks256(sha256), 32, input, cn);
      ExpandPrefix(Blocks256(sha256), input, cm, cn);
    }
  }

  // ---------------------------------------------------------- the party

  /** One party of the protocol, with the state its phases fill in. */
  class QkdProtocol {
    const partyId: string
    const sharedSecret: Bytes
    var sessionId: Option<string>
    var sessionKey: Option<Bytes>
    var rawKey: Option<Bytes>
    var correctedKey: Option<Bytes>
    var finalKey: Option<Bytes>
    var errorRate: Option<real>

    constructor(partyId: string, sharedSecret: Bytes)
      ensures this.partyId == partyId && this.sharedSecret == sharedSecret
      ensures sessionId == None && sessionKey == None && rawKey == None
      ensures correctedKey == None && finalKey == None && errorRate == None
    {
      this.partyId := partyId;
      this.sharedSecret := sharedSecret;
      sessionId := None;
      sessionKey := None;
      rawKey := None;
      correctedKey := None;
      finalKey := None;
      errorRate := None;
    }

    /** `generate_auth_challenge`, with the random challenge and session
        id as parameters: the session id is recorded and the challenge
        goes out hex-encoded in a signed message. */
    method GenerateAuthChallenge(challenge: Bytes, newSessionId: string, timestamp: int, hmac: HmacSha256, render: Render)
      returns (sent: Bytes, message: QkdMessage)
      modifies this
      ensures sessionId == Some(newSessionId)
      ensures sessionKey == old(sessionKey) && rawKey == old(rawKey) && correctedKey == old(correctedKey)
      ensures finalKey == old(finalKey) && errorRate == old(errorRate)
      ensures sent == challenge
      ensures message == Signed(sharedSecret,
        QkdMessage(AuthChallenge, Some(newSessionId), timestamp, [("challenge", Text(ToHex(challenge)))], None), hmac, render)
    {
      sessionId := Some(newSessionId);
      var unsigned := QkdMessage(AuthChallenge, Some(newSessionId), timestamp, [("challenge", Text(ToHex(challenge)))], None);
      message := unsigned.(signature := Some(Sign(sharedSecret, unsigned, hmac, render)));
      sent := challenge;
    }

    /** `verify_auth_response`: the response is the HMAC of the challenge
        under this party's secret. */
    predicate VerifyAuthResponse(challenge: Bytes, response: Bytes, hmac: HmacSha256)
    {
      hmac(sharedSecret, challenge) == response
    }

    /** `authenticate`: the HMAC response and the signed AUTH_RESPONSE
        message carrying it in hex. */
    function Authenticate(challenge: Bytes, timestamp: int, hmac: HmacSha256, render: Render): (r: (Digest32, QkdMessage))
      reads this
      ensures r.1.messageType == AuthResponse && r.1.sessionId == sessionId && r.1.timestamp == timestamp
      ensures r.1.data == [("response", Text(ToHex(r.0)))]
      ensures VerifyMessageSignature(sharedSecret, r.1, hmac, render) == Success(true)
    {
      var response := hmac(sharedSecret, challenge);
      var unsigned := QkdMessage(AuthResponse, sessionId, timestamp, [("response", Text(ToHex(response)))], None);
      SignedVerifies(sharedSecret, unsigned, hmac, render);
      (response, Signed(sharedSecret, unsigned, hmac, render))
    }

    /** `error_detection`, with the `secrets.randbelow` draws as a
        parameter: the sorted samples, the number of sampled bit positions
        that differ, and the rate, which is stored. */
    method ErrorDetection(keyAlice: Bytes, keyBob: Bytes, sampleSize: int, draws: seq<nat>,
                          timestamp: int, hmac: HmacSha256, render: Render)
      returns (rate: real, message: QkdMessage)
      requires |draws| == SampleCount(sampleSize, keyAlice, keyBob)
      requires forall k :: 0 <= k < |draws| ==> draws[k] < Min(|keyAlice|, |keyBob|) * 8
      modifies this
      ensures var samples := SampleIndices(draws);
        var errors := Mismatches(samples, keyAlice, keyBob);
        rate == ErrorRate(errors, |samples|) &&
        message == Signed(sharedSecret,
          QkdMessage(ErrorDetect, sessionId, timestamp, DetectionData(samples, errors, rate), None), hmac, render)
      ensures 0.0 <= rate <= 1.0
      ensures errorRate == Some(rate)
      ensures sessionId == old(sessionId) && sessionKey == old(sessionKey) && rawKey == old(rawKey)
      ensures correctedKey == old(correctedKey) && finalKey == old(finalKey)
    {
      var samples := SampleIndices(draws);
      var errors := 0;
      var i := 0;
      while i < |samples|
        invariant i <= |samples|
        invariant errors == Mismatches(samples[..i], keyAlice, keyBob)
      {
        var idx := samples[i];
        var byteIdx := idx / 8;
        var bitIdx := idx % 8;
        assert samples[..i + 1][..i] == samples[..i];
        if byteIdx >= |keyAlice| || byteIdx >= |keyBob| {
          i := i + 1;
          continue;
        }
        if BitOf(keyAlice[byteIdx], bitIdx) != BitOf(keyBob[byteIdx], bitIdx) {
          errors := errors + 1;
        }
        i := i + 1;
      }
      assert samples[..i] == samples;
      rate := if |samples| > 0 then errors as real / |samples| as real else 0.0;
      errorRate := Some(rate);
      var unsigned := QkdMessage(ErrorDetect, sessionId, timestamp, DetectionData(samples, errors, rate), None);
      message := unsigned.(signature := Some(Sign(sharedSecret, unsigned, hmac, render)));
    }

    /** `error_correction_repetition`: the key copied byte by byte and
        stored; the repetition factor is unused. */
    method ErrorCorrectionRepetition(raw: Bytes, repetition: int) returns (corrected: Bytes)
      modifies this
      ensures corrected == raw
      ensures correctedKey == Some(raw)
      ensures sessionId == old(sessionId) && sessionKey == old(sessionKey) && rawKey == old(rawKey)
      ensures finalKey == old(finalKey) && errorRate == old(errorRate)
    {
      corrected := [];
      for i := 0 to |raw|
        invariant corrected == raw[..i]
      {
        corrected := corrected + [raw[i]];
      }
      correctedKey := Some(corrected);
    }

    /** `privacy_amplification`: SHA-256 blocks over seed ‖ raw key with a
        four-byte counter until the requested length is covered, then cut
        to it and stored.  The counter overflowing four bytes raises. */
    method PrivacyAmplification(raw: Bytes, outputLength: int, seed: Bytes, sha256: Sha256)
      returns (r: Result<Bytes>)
      modifies this
      ensures r == Amplified(raw, outputLength, seed, sha256)
      ensures finalKey == (if r.Success? then Some(r.value) else old(finalKey))
      ensures sessionId == old(sessionId) && sessionKey == old(sessionKey) && rawKey == old(rawKey)
      ensures correctedKey == old(correctedKey) && errorRate == old(errorRate)
    {
      var input := seed + raw;
      var output: Bytes := [];
      var counter: nat := 0;
      while |output| < outputLength
        invariant counter <= Counter32
        invariant output == Expand(Blocks256(sha256), input, counter)
        invariant |output| == 32 * counter
        invariant counter == 0 || 32 * (counter - 1) < outputLength
        decreases outputLength - |output|
      {
        if counter == Counter32 {
          return Failure(OverflowError);
        }
        output := output + sha256(input + Be4(counter));
        counter := counter + 1;
      }
      var amplified := if outputLength <= 0 then [] else output[..outputLength];
      if outputLength > 0 {
        assert counter == CeilDiv(outputLength, 32);
      }
      finalKey := Some(amplified);
      r := Success(amplified);
    }

    /** `verify_key`: the keys match exactly when their SHA-256 digests
        are equal; on a match the first key becomes the session key. */
    method VerifyKey(keyAlice: Bytes, keyBob: Bytes, timestamp: int, sha256: Sha256, hmac: HmacSha256, render: Render)
      returns (keysMatch: bool, message: QkdMessage)
      modifies this
      ensures keysMatch <==> sha256(keyAlice) == sha256(keyBob)
      ensures sessionKey == (if keysMatch then Some(keyAlice) else old(sessionKey))
      ensures message == Signed(sharedSecret,
        QkdMessage(KeyVerify, sessionId, timestamp, VerifyData(sha256(keyAlice), sha256(keyBob), keysMatch), None), hmac, render)
      ensures sessionId == old(sessionId) && rawKey == old(rawKey) && correctedKey == old(correctedKey)
      ensures finalKey == old(finalKey) && errorRate == old(errorRate)
    {
      var hashAlice := sha256(keyAlice);
      var hashBob := sha256(keyBob);
      keysMatch := hashAlice == hashBob;
      var unsigned := QkdMessage(KeyVerify, sessionId, timestamp, VerifyData(hashAlice, hashBob, keysMatch), None);
      message := unsigned.(signature := Some(Sign(sharedSecret, unsigned, hmac, render)));
      if keysMatch {
        sessionKey := Some(keyAlice);
      }
    }
  }

  /** A response produced by `authenticate` at one party passes
      `verify_auth_response` at any party holding the same secret, and
      only the HMAC of the challenge under that secret does. */
  lemma AuthenticateVerifies(alice: QkdProtocol, bob: QkdProtocol, challenge: Bytes, response: Bytes,
                             timestamp: int, hmac: HmacSha256, render: Render)
    requires alice.sharedSecret == bob.sharedSecret
    ensures bob.VerifyAuthResponse(challenge, alice.Authenticate(challenge, timestamp, hmac, render).0, hmac)
    ensures bob.VerifyAuthResponse(challenge, response, hmac) <==>
      response == alice.Authenticate(challenge, timestamp, hmac, render).0
  {
  }
}
