/** The systematic LDPC code over GF(2): a sparse parity-check matrix
    H = [P^T | I_m], the generator G = [I_k | P] derived from it, encoding
    as m.G mod 2, and the block framing of a key pair around an encoder, a
    simulated channel and a decoder.  The belief-propagation decoder is a
    parameter. */
module Ldpc {
  import opened Wrappers
  import opened BitVector
  import opened Framing

  type Matrix = seq<seq<Bit>>

  // ------------------------------------------------- arithmetic over GF(2)

  /** Integer dot product of two bit vectors; reduce it mod 2 for GF(2). */
  function Dot(u: seq<Bit>, v: seq<Bit>): nat
    requires |u| == |v|
  {
    if u == [] then 0 else (if u[0] == 1 then v[0] else 0) + Dot(u[1..], v[1..])
  }

  /** The n-bit unit vector with its one at position i (all zeros when i is
      out of range). */
  function Unit(n: nat, i: int): (e: seq<Bit>)
    ensures |e| == n
  {
    seq(n, j => if j == i then 1 else 0)
  }

  /** Column j of a matrix. */
  function Column(M: Matrix, j: nat): (col: seq<Bit>)
    requires forall r :: 0 <= r < |M| ==> j < |M[r]|
    ensures |col| == |M|
  {
    seq(|M|, r requires 0 <= r < |M| => M[r][j])
  }

  lemma {:induction false} DotAppend(u1: seq<Bit>, u2: seq<Bit>, v1: seq<Bit>, v2: seq<Bit>)
    requires |u1| == |v1| && |u2| == |v2|
    ensures Dot(u1 + u2, v1 + v2) == Dot(u1, v1) + Dot(u2, v2)
    decreases |u1|
  {
    if u1 == [] {
      assert u1 + u2 == u2 && v1 + v2 == v2;
    } else {
      assert (u1 + u2)[1..] == u1[1..] + u2;
      assert (v1 + v2)[1..] == v1[1..] + v2;
      DotAppend(u1[1..], u2, v1[1..], v2);
    }
  }

  /** A unit vector picks one coordinate out. */
  lemma {:induction false} DotUnit(x: seq<Bit>, i: int)
    ensures Dot(x, Unit(|x|, i)) == if 0 <= i < |x| then x[i] else 0
    decreases |x|
  {
    if x != [] {
      assert Unit(|x|, i)[1..] == Unit(|x| - 1, i - 1);
      DotUnit(x[1..], i - 1);
    }
  }

  lemma {:induction false} DotSymmetric(u: seq<Bit>, v: seq<Bit>)
    requires |u| == |v|
    ensures Dot(u, v) == Dot(v, u)
    decreases |u|
  {
    if u != [] {
      DotSymmetric(u[1..], v[1..]);
    }
  }

  // ------------------------------------------------------------ matrices

  /** The 0/1 indicator over k columns of the positions listed in cols. */
  function Indicator(k: nat, cols: seq<nat>): (row: seq<Bit>)
    ensures |row| == k
  {
    seq(k, j => if j in cols then 1 else 0)
  }

  /** Row i of H: ones at the chosen parity positions among the first k
      columns, then row i of the m x m identity. */
  function ParityCheckRow(k: nat, m: nat, cols: seq<nat>, i: nat): (row: seq<Bit>)
    ensures |row| == k + m
  {
    Indicator(k, cols) + Unit(m, i)
  }

  /** `_generate_parity_check_matrix` with the random column choices of
      row i given as choices[i]. */
  function ParityCheck(k: nat, m: nat, choices: seq<seq<nat>>): (H: Matrix)
    requires |choices| == m
    ensures |H| == m
  {
    seq(m, i requires 0 <= i < m => ParityCheckRow(k, m, choices[i], i))
  }

  /** Row r of G: row r of the k x k identity, then column r of H's first k
      columns (the transpose of P^T). */
  function GeneratorRow(H: Matrix, k: nat, r: nat): (row: seq<Bit>)
    requires r < k && forall i :: 0 <= i < |H| ==> |H[i]| >= k
    ensures |row| == k + |H|
  {
    Unit(k, r) + Column(H, r)
  }

  /** `_generate_generator_matrix`: G = [I_k | P]. */
  function Generator(H: Matrix, k: nat): (G: Matrix)
    requires forall i :: 0 <= i < |H| ==> |H[i]| >= k
    ensures |G| == k
  {
    seq(k, r requires 0 <= r < k => GeneratorRow(H, k, r))
  }

  /** `(G @ H.T) % 2` */
  function CheckProduct(G: Matrix, H: Matrix, n: nat): (P: Matrix)
    requires forall r :: 0 <= r < |G| ==> |G[r]| == n
    requires forall i :: 0 <= i < |H| ==> |H[i]| == n
    ensures |P| == |G|
  {
    seq(|G|, r requires 0 <= r < |G| => seq(|H|, i requires 0 <= i < |H| => Dot(G[r], H[i]) % 2))
  }

  predicate AllZero(P: Matrix)
  {
    forall r, i :: 0 <= r < |P| && 0 <= i < |P[r]| ==> P[r][i] == 0
  }

  /** The random column choices of `np.random.choice(k, 3, replace=False)`:
      three distinct columns below k for each of the m rows. */
  ghost predicate ValidChoices(k: nat, m: nat, choices: seq<seq<nat>>)
  {
    |choices| == m &&
    forall i :: 0 <= i < m ==>
      |choices[i]| == 3 &&
      (forall t :: 0 <= t < 3 ==> choices[i][t] < k) &&
      choices[i][0] != choices[i][1] && choices[i][0] != choices[i][2] && choices[i][1] != choices[i][2]
  }

  /** The `LDPCCode` object: code length n, message length k, m = n - k
      parity checks, and the two matrices built at construction. */
  datatype Code = Code(n: nat, k: nat, m: nat, H: Matrix, G: Matrix)

  /** The dimensions encoding relies on: G is k x n. */
  predicate Shaped(c: Code)
  {
    c.n == c.k + c.m && |c.G| == c.k && forall r :: 0 <= r < c.k ==> |c.G[r]| == c.n
  }

  /** What the constructor guarantees about a code: H is m x n and ends in
      the identity, and G is derived from H. */
  ghost predicate Wellformed(c: Code)
  {
    c.n == c.k + c.m && |c.H| == c.m &&
    (forall i :: 0 <= i < c.m ==> |c.H[i]| == c.n && c.H[i][c.k..] == Unit(c.m, i)) &&
    c.G == Generator(c.H, c.k)
  }

  // ---------------------------------------------------------- construction

  /** Builds H row by row into a zeroed buffer: the identity entry, then
      the three chosen parity columns. */
  method GenerateParityCheckMatrix(k: nat, m: nat, choices: seq<seq<nat>>) returns (H: Matrix)
    requires |choices| == m
    requires forall i, t :: 0 <= i < m && 0 <= t < |choices[i]| ==> choices[i][t] < k
    ensures H == ParityCheck(k, m, choices)
  {
    H := [];
    var i := 0;
    while i < m
      invariant 0 <= i <= m && |H| == i
      invariant forall r :: 0 <= r < i ==> H[r] == ParityCheckRow(k, m, choices[r], r)
    {
      var row := new Bit[k + m](_ => 0);
      row[k + i] := 1;
      var cols := choices[i];
      var t := 0;
      while t < |cols|
        invariant 0 <= t <= |cols|
        invariant forall j :: 0 <= j < k + m ==>
          row[j] == if j == k + i || (j < k && j in cols[..t]) then 1 else 0
      {
        assert cols[..t + 1] == cols[..t] + [cols[t]];
        row[cols[t]] := 1;
        t := t + 1;
      }
      assert cols[..t] == cols;
      assert row[..] == ParityCheckRow(k, m, cols, i);
      H := H + [row[..]];
      i := i + 1;
    }
  }

  /** Builds G row by row and performs the source's consistency check
      `(G @ H.T) % 2 == 0`; its fallback branch cannot be reached. */
  method GenerateGeneratorMatrix(H: Matrix, k: nat, m: nat) returns (G: Matrix)
    requires |H| == m
    requires forall i :: 0 <= i < m ==> |H[i]| == k + m && H[i][k..] == Unit(m, i)
    ensures G == Generator(H, k)
  {
    G := [];
    var r := 0;
    while r < k
      invariant 0 <= r <= k && |G| == r
      invariant forall s :: 0 <= s < r ==> G[s] == GeneratorRow(H, k, s)
    {
      var row := new Bit[k + m](_ => 0);
      row[r] := 1;
      var i := 0;
      while i < m
        invariant 0 <= i <= m
        invariant forall j :: 0 <= j < k ==> row[j] == if j == r then 1 else 0
        invariant forall j :: k <= j < k + m ==> row[j] == if j - k < i then H[j - k][r] else 0
      {
        row[k + i] := H[i][r];
        i := i + 1;
      }
      assert row[..] == GeneratorRow(H, k, r);
      G := G + [row[..]];
      r := r + 1;
    }
    assert G == Generator(H, k);
    GeneratorOrthogonal(H, k, m);
    var verification := CheckProduct(G, H, k + m);
    if !AllZero(verification) {
      assert false;
    }
  }

  /** `LDPCCode(n, k)`; the random column choices are a parameter. */
  method NewCode(n: nat, k: nat, choices: seq<seq<nat>>) returns (c: Code)
    requires k <= n && |choices| == n - k
    requires forall i, t :: 0 <= i < n - k && 0 <= t < |choices[i]| ==> choices[i][t] < k
    ensures c.n == n && c.k == k && c.m == n - k
    ensures c.H == ParityCheck(k, n - k, choices) && c.G == Generator(c.H, k)
    ensures Wellformed(c)
  {
    var m := n - k;
    var H := GenerateParityCheckMatrix(k, m, choices);
    ParityCheckShape(k, m, choices);
    var G := GenerateGeneratorMatrix(H, k, m);
    c := Code(n, k, m, H, G);
  }

  /** `LDPCErrorCorrection(code_rate, code_length)`: the message length is
      int(code_length * code_rate) and the code is built with it.  numpy
      raises a ValueError for a negative message length (the identity block
      does not fit), for one above the code length (negative dimension),
      and for fewer than three message columns when there is a parity row
      (three distinct columns cannot be drawn). */
  method NewCorrector(codeRate: real, codeLength: nat, choices: seq<seq<nat>>) returns (r: Result<Code>)
    requires var k := MessageLength(codeLength, codeRate);
      0 <= k <= codeLength && (k >= 3 || k == codeLength) ==> ValidChoices(k, codeLength - k, choices)
    ensures var k := MessageLength(codeLength, codeRate);
      r.Failure? <==> k < 0 || k > codeLength || (k < 3 && k < codeLength)
    ensures r.Failure? ==> r.error == ValueError
    ensures r.Success? ==> var k := MessageLength(codeLength, codeRate);
      r.value.n == codeLength && r.value.k == k && Wellformed(r.value) &&
      r.value.H == ParityCheck(k, codeLength - k, choices)
  {
    var k := MessageLength(codeLength, codeRate);
    if k < 0 || k > codeLength || (k < 3 && k < codeLength) {
      return Failure(ValueError);
    }
    var c := NewCode(codeLength, k, choices);
    r := Success(c);
  }

  // ------------------------------------------------------ matrix properties

  /** H is m x n and its last m columns form the identity. */
  lemma ParityCheckShape(k: nat, m: nat, choices: seq<seq<nat>>)
    requires |choices| == m
    ensures var H := ParityCheck(k, m, choices);
      |H| == m &&
      forall i :: 0 <= i < m ==> |H[i]| == k + m && H[i][k..] == Unit(m, i)
  {
    var H := ParityCheck(k, m, choices);
    forall i | 0 <= i < m
      ensures H[i][k..] == Unit(m, i)
    {
      assert H[i] == Indicator(k, choices[i]) + Unit(m, i);
    }
  }

  /** Every row of H has exactly three ones among its first k columns, so
      its weight is four. */
  lemma ParityCheckRowWeight(k: nat, m: nat, choices: seq<seq<nat>>, i: nat)
    requires ValidChoices(k, m, choices) && i < m
    ensures var H := ParityCheck(k, m, choices);
      Sum(H[i][..k]) == 3 && Sum(H[i]) == 4
  {
    var H := ParityCheck(k, m, choices);
    var cols := choices[i];
    var S := {cols[0], cols[1], cols[2]};
    assert |S| == 3 by {
      assert S == {cols[0]} + {cols[1]} + {cols[2]};
    }
    assert Indicator(k, cols) == seq(k, j => if j in S then 1 else 0) by {
      forall j | 0 <= j < k
        ensures (j in cols) == (j in S)
      {
        if j in cols {
          var t :| 0 <= t < |cols| && cols[t] == j;
        }
      }
    }
    IndicatorSum(k, S);
    assert H[i] == Indicator(k, cols) + Unit(m, i);
    assert H[i][..k] == Indicator(k, cols);
    SumAppend(Indicator(k, cols), Unit(m, i));
    UnitSum(m, i);
  }

  /** Counting the ones of an indicator counts the set. */
  lemma {:induction false} IndicatorSum(k: nat, S: set<nat>)
    requires forall x :: x in S ==> x < k
    ensures Sum(seq(k, j => if j in S then 1 else 0)) == |S|
    decreases k
  {
    var row: seq<Bit> := seq(k, j => if j in S then 1 else 0);
    if k > 0 {
      var S' := S - {k - 1};
      IndicatorSum(k - 1, S');
      assert row[..k - 1] == seq(k - 1, j => if j in S' then 1 else 0);
      if k - 1 in S {
        assert S == S' + {k - 1};
      } else {
        assert S == S';
      }
    } else {
      assert S == {} by {
        if x :| x in S { }
      }
    }
  }

  lemma {:induction false} UnitSum(n: nat, i: nat)
    requires i < n
    ensures Sum(Unit(n, i)) == 1
    decreases n
  {
    if n - 1 == i {
      assert Unit(n, i)[..n - 1] == seq(n - 1, _ => 0);
      ZerosSum(n - 1);
    } else {
      assert Unit(n, i)[..n - 1] == Unit(n - 1, i);
      UnitSum(n - 1, i);
    }
  }

  lemma {:induction false} ZerosSum(n: nat)
    ensures Sum(seq(n, _ => 0)) == 0
    decreases n
  {
    if n > 0 {
      assert seq(n, _ => 0)[..n - 1] == seq(n - 1, _ => 0);
      ZerosSum(n - 1);
    }
  }

  /** G = [I_k | P]: row r starts with row r of the identity and its parity
      part is column r of H's first k columns. */
  lemma GeneratorShape(H: Matrix, k: nat, m: nat)
    requires |H| == m && forall i :: 0 <= i < m ==> |H[i]| == k + m
    ensures var G := Generator(H, k);
      forall r :: 0 <= r < k ==>
        |G[r]| == k + m && G[r][..k] == Unit(k, r) &&
        forall i :: 0 <= i < m ==> G[r][k + i] == H[i][r]
  {
  }

  /** Every row of G is orthogonal over GF(2) to every row of H:
      G[r] . H[i] = H[i][r] + H[i][r]. */
  lemma GeneratorOrthogonal(H: Matrix, k: nat, m: nat)
    requires |H| == m
    requires forall i :: 0 <= i < m ==> |H[i]| == k + m && H[i][k..] == Unit(m, i)
    ensures AllZero(CheckProduct(Generator(H, k), H, k + m))
  {
    var G := Generator(H, k);
    forall r, i | 0 <= r < k && 0 <= i < m
      ensures Dot(G[r], H[i]) % 2 == 0
    {
      assert H[i] == H[i][..k] + Unit(m, i);
      DotAppend(Unit(k, r), Column(H, r), H[i][..k], Unit(m, i));
      DotSymmetric(Unit(k, r), H[i][..k]);
      DotUnit(H[i][..k], r);
      DotUnit(Column(H, r), i);
    }
  }

  // ------------------------------------------------------------- encoding

  /** `(message @ G) % 2` */
  function Codeword(c: Code, message: seq<Bit>): (w: seq<Bit>)
    requires Shaped(c) && |message| == c.k
    ensures |w| == c.n
  {
    seq(c.n, j requires 0 <= j < c.n => Dot(message, Column(c.G, j)) % 2)
  }

  /** `LDPCCode.encode`: a ValueError unless the message has k bits. */
  function Encode(c: Code, message: seq<Bit>): (r: Result<seq<Bit>>)
    requires Shaped(c)
    ensures r.Failure? <==> |message| != c.k
    ensures r.Failure? ==> r.error == ValueError
    ensures r.Success? ==> |r.value| == c.n
  {
    if |message| != c.k then Failure(ValueError) else Success(Codeword(c, message))
  }

  /** The code is systematic: a codeword starts with its message, and its
      parity bit i is the GF(2) dot product of the message with the first
      k columns of row i of H. */
  lemma EncodeSystematic(c: Code, message: seq<Bit>)
    requires Wellformed(c) && |message| == c.k
    ensures var w := Codeword(c, message);
      w[..c.k] == message &&
      forall i :: 0 <= i < c.m ==> w[c.k + i] == Dot(message, c.H[i][..c.k]) % 2
  {
    var w := Codeword(c, message);
    forall j | 0 <= j < c.k
      ensures w[j] == message[j]
    {
      assert Column(c.G, j) == Unit(c.k, j);
      DotUnit(message, j);
    }
    forall i | 0 <= i < c.m
      ensures w[c.k + i] == Dot(message, c.H[i][..c.k]) % 2
    {
      assert Column(c.G, c.k + i) == c.H[i][..c.k];
    }
  }

  /** Different messages give different codewords. */
  lemma EncodeInjective(c: Code, x: seq<Bit>, y: seq<Bit>)
    requires Wellformed(c) && |x| == c.k && |y| == c.k
    ensures Codeword(c, x) == Codeword(c, y) <==> x == y
  {
    EncodeSystematic(c, x);
    EncodeSystematic(c, y);
  }

  /** Every codeword has a zero syndrome: H . w = 0 over GF(2). */
  lemma SyndromeZero(c: Code, message: seq<Bit>)
    requires Wellformed(c) && |message| == c.k
    ensures var w := Codeword(c, message);
      forall i :: 0 <= i < c.m ==> Dot(c.H[i], w) % 2 == 0
  {
    var w := Codeword(c, message);
    EncodeSystematic(c, message);
    forall i | 0 <= i < c.m
      ensures Dot(c.H[i], w) % 2 == 0
    {
      var d := Dot(message, c.H[i][..c.k]);
      assert c.H[i] == c.H[i][..c.k] + Unit(c.m, i);
      assert w == message + w[c.k..];
      DotAppend(c.H[i][..c.k], Unit(c.m, i), message, w[c.k..]);
      DotSymmetric(c.H[i][..c.k], message);
      DotSymmetric(Unit(c.m, i), w[c.k..]);
      DotUnit(w[c.k..], i);
      assert w[c.k..][i] == d % 2;
    }
  }

  // ----------------------------------------------------- key block framing

  /** `LDPCErrorCorrection.message_length = int(code_length * code_rate)` */
  function MessageLength(codeLength: nat, codeRate: real): int
  {
    PyInt(codeLength as real * codeRate)
  }

  /** The code's encoder as a total map on blocks: a k-bit block goes to
      its codeword (`LDPCCode.encode`, which never fails on a k-bit block). */
  function CodeEncoder(c: Code): (encode: seq<Bit> -> seq<Bit>)
    ensures forall x :: Shaped(c) && |x| == c.k ==> Encode(c, x) == Success(encode(x))
  {
    x => if Shaped(c) && |x| == c.k then Codeword(c, x) else x
  }

  /** The correction metadata dictionary. */
  datatype LdpcMetadata = LdpcMetadata(
    codeRate: real,
    codeLength: nat,
    messageLength: nat,
    totalBlocks: nat,
    successfulAlice: nat,
    successfulBob: nat,
    correctionRateAlice: real,
    correctionRateBob: real)

  /** `LDPCErrorCorrection.correct_errors`.  Both keys are framed into
      k-bit blocks over the shorter length (the last block zero-padded),
      each block is encoded; Alice's codeword is decoded as is, Bob's after
      the simulated channel flips; the decoded bits are packed and trimmed
      to the shorter key length.  A zero message length makes `range` raise,
      and more flips than code bits make the sampler raise. */
  method CorrectErrors(c: Code, codeRate: real, keyAlice: Bytes, keyBob: Bytes, errorRate: real,
                       noise: nat -> seq<nat>, decode: seq<Bit> -> Decoded)
    returns (r: Result<(Bytes, Bytes, LdpcMetadata)>)
    requires Shaped(c)
    requires forall w :: |decode(w).bits| == c.k
    requires 0 < NumErrors(c.n, errorRate) <= c.n ==> forall i :: ValidDraw(noise(i), c.n, NumErrors(c.n, errorRate))
    ensures var limit := 8 * Min(|keyAlice|, |keyBob|);
      r.Failure? <==> c.k == 0 || (limit > 0 && NumErrors(c.n, errorRate) > c.n)
    ensures r.Failure? ==> r.error == ValueError
    ensures r.Success? ==>
      var m := Min(|keyAlice|, |keyBob|);
      var alice := Run(Unpacked(keyAlice), 8 * m, 0, c.k, Everywhere(CodeEncoder(c)), noise, 0, Everywhere(decode));
      var bob := Run(Unpacked(keyBob), 8 * m, 0, c.k, Everywhere(CodeEncoder(c)), noise, NumErrors(c.n, errorRate),
                     Everywhere(decode));
      var (ra, rb, meta) := r.value;
      ra == Trim(Packed(ConcatBits(alice)), m) && rb == Trim(Packed(ConcatBits(bob)), m) &&
      meta == LdpcMetadata(codeRate, c.n, c.k, |alice|, Successes(alice), Successes(bob),
                           Rate(Successes(alice), |alice|), Rate(Successes(bob), |alice|)) &&
      |bob| == |alice| == BlocksFrom(8 * m, c.k, 0) &&
      |ra| == m && |rb| == m
  {
    if c.k == 0 {
      return Failure(ValueError);
    }
    var aliceBits := BytesToBits(keyAlice);
    var bobBits := BytesToBits(keyBob);
    var limit := Min(|aliceBits|, |bobBits|);
    var numErrors := NumErrors(c.n, errorRate);
    if limit > 0 && numErrors > c.n {
      return Failure(ValueError);
    }
    // `self.ldpc`: one code encodes and decodes every block.
    var encode := Everywhere(CodeEncoder(c));
    var bytesAlice, bytesBob, correctionsAlice, correctionsBob, totalBlocks :=
      FrameAndDecode(keyAlice, keyBob, c.k, c.n, numErrors, encode, encode, noise, Everywhere(decode));
    var meta := LdpcMetadata(codeRate, c.n, c.k, totalBlocks, correctionsAlice, correctionsBob,
                             Rate(correctionsAlice, totalBlocks), Rate(correctionsBob, totalBlocks));
    r := Success((bytesAlice, bytesBob, meta));
  }

}
