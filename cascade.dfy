/** Cascade key reconciliation: both raw keys are unpacked to bits and cut
    to the shorter length, then several passes compare block parities;
    inside a block whose parities differ a recursive bisection locates
    disagreeing bits, and only Bob's copy is flipped to repair them. */
module Cascade {
  import opened Wrappers
  import opened BitVector

  // ------------------------------------------------------ specification

  /** `np.sum(block) % 2` */
  function Parity(s: seq<Bit>): nat
  {
    Sum(s) % 2
  }

  /** Positions at which the two bit arrays disagree. */
  function DiffPos(a: seq<Bit>, b: seq<Bit>): set<nat>
    requires |a| == |b|
  {
    set i: nat | i < |a| && a[i] != b[i]
  }

  /** `blockSize` floor-halved e times. */
  function Halved(blockSize: int, e: nat): int
  {
    if e == 0 then blockSize else Halved(blockSize, e - 1) / 2
  }

  /** Block size of pass `passNum` (counted from 1): the initial size
      halved passNum - 1 times, and at least 1. */
  function PassBlockSize(blockSize: int, passNum: nat): (bs: int)
    requires passNum >= 1
    ensures bs >= 1
  {
    Max(1, Halved(blockSize, passNum - 1))
  }

  /** Halving e times is the floor division by 2^e of `reconcile_keys`, so
      PassBlockSize is `max(1, block_size // 2 ** (pass_num - 1))`. */
  lemma {:induction false} HalvedIsFloorDiv(blockSize: int, e: nat)
    ensures Halved(blockSize, e) == blockSize / Pow2(e)
    ensures PassBlockSize(blockSize, e + 1) == Max(1, blockSize / Pow2(e))
  {
    if e > 0 {
      HalvedIsFloorDiv(blockSize, e - 1);
      DivTwice(blockSize, Pow2(e - 1));
    }
  }

  /** Floor-dividing by p and then by 2 is floor-dividing by 2p. */
  lemma DivTwice(x: int, p: int)
    requires p > 0
    ensures (x / p) / 2 == x / (2 * p)
  {
    var q, r := x / p, x % p;
    var q2, r2 := q / 2, q % 2;
    assert x == p * q + r;
    assert q == 2 * q2 + r2;
    assert x == (2 * p) * q2 + (p * r2 + r) by {
      calc {
        x;
        p * q + r;
        p * (2 * q2 + r2) + r;
        (2 * p) * q2 + (p * r2 + r);
      }
    }
    assert 0 <= p * r2 + r < 2 * p by {
      if r2 == 1 {
        assert p * r2 == p;
      } else {
        assert p * r2 == 0;
      }
    }
    DivModUnique(x, 2 * p, q2, p * r2 + r);
  }

  // --------------------------------------------------------- bisection

  /** The direct scan of a short block: positions from j on that disagree
      and are not yet corrected, in order. */
  function LeafErrors(a: seq<Bit>, b: seq<Bit>, offset: nat, corrected: set<nat>, j: nat): (r: seq<nat>)
    requires |a| == |b| && j <= |a|
    ensures |r| <= |a| - j
    decreases |a| - j
  {
    if j == |a| then []
    else if a[j] != b[j] && offset + j !in corrected then [offset + j] + LeafErrors(a, b, offset, corrected, j + 1)
    else LeafErrors(a, b, offset, corrected, j + 1)
  }

  /** The scan from j reports, in increasing order, positions from j on
      that disagree and are not yet corrected. */
  lemma {:induction false} LeafErrorsSound(a: seq<Bit>, b: seq<Bit>, offset: nat, corrected: set<nat>, j: nat)
    requires |a| == |b| && j <= |a|
    ensures var r := LeafErrors(a, b, offset, corrected, j);
      Reported(r, a, b, offset, corrected) && Increasing(r) &&
      forall p :: p in r ==> offset + j <= p
    decreases |a| - j
  {
    var r := LeafErrors(a, b, offset, corrected, j);
    if j < |a| {
      LeafErrorsSound(a, b, offset, corrected, j + 1);
      var rest := LeafErrors(a, b, offset, corrected, j + 1);
      if a[j] != b[j] && offset + j !in corrected {
        assert r == [offset + j] + rest;
        IncreasingCons(offset + j, rest);
        forall p | p in r
          ensures offset + j <= p && offset <= p < offset + |a| && a[p - offset] != b[p - offset] && p !in corrected
        {
          if p != offset + j {
            assert p in rest;
          }
        }
      } else {
        assert r == rest;
      }
    } else {
      assert r == [];
    }
  }

  /** An index below every index of an increasing list can go in front. */
  lemma IncreasingCons(x: nat, rest: seq<nat>)
    requires Increasing(rest) && forall p :: p in rest ==> x < p
    ensures Increasing([x] + rest)
  {
    var r := [x] + rest;
    forall k, l | 0 <= k < l < |r|
      ensures r[k] < r[l]
    {
      if k > 0 {
        assert r[k] == rest[k - 1] && r[l] == rest[l - 1];
      } else {
        assert r[l] in rest;
      }
    }
  }

  /** The scan from j misses no position from j on that disagrees and is
      not yet corrected. */
  lemma {:induction false} LeafErrorsComplete(a: seq<Bit>, b: seq<Bit>, offset: nat, corrected: set<nat>, j: nat)
    requires |a| == |b| && j <= |a|
    ensures forall i :: j <= i < |a| && a[i] != b[i] && offset + i !in corrected ==>
      offset + i in LeafErrors(a, b, offset, corrected, j)
    decreases |a| - j
  {
    if j < |a| {
      LeafErrorsComplete(a, b, offset, corrected, j + 1);
    }
  }

  /** Every index of r lies in the block at offset, marks a disagreement
      and has not been corrected before. */
  ghost predicate Reported(r: seq<nat>, a: seq<Bit>, b: seq<Bit>, offset: nat, corrected: set<nat>)
    requires |a| == |b|
  {
    forall p :: p in r ==>
      offset <= p < offset + |a| && a[p - offset] != b[p - offset] && p !in corrected
  }

  ghost predicate Increasing(r: seq<nat>)
  {
    forall k, l :: 0 <= k < l < |r| ==> r[k] < r[l]
  }

  /** `_find_errors_in_block`: a block of at most four bits is scanned
      directly; a longer block with equal parities reports nothing; a
      longer block with different parities is split at `len // 2` and both
      halves are searched. */
  function FindErrors(a: seq<Bit>, b: seq<Bit>, offset: nat, corrected: set<nat>): (r: seq<nat>)
    requires |a| == |b|
    ensures |r| <= |a|
    decreases |a|, 1
  {
    if |a| <= 4 then LeafErrors(a, b, offset, corrected, 0)
    else if Parity(a) == Parity(b) then []
    else HalvesErrors(a, b, offset, corrected)
  }

  /** A long block split at `len // 2`: the errors of the left half, then
      those of the right half. */
  function HalvesErrors(a: seq<Bit>, b: seq<Bit>, offset: nat, corrected: set<nat>): (r: seq<nat>)
    requires |a| == |b| && |a| > 4
    ensures |r| <= |a|
    decreases |a|, 0
  {
    var mid := |a| / 2;
    FindErrors(a[..mid], b[..mid], offset, corrected) + FindErrors(a[mid..], b[mid..], offset + mid, corrected)
  }

  /** Soundness of the bisection: every index it returns lies in the
      block, marks a disagreement and has not been corrected before, and
      the indices are strictly increasing. */
  lemma {:induction false} FindErrorsSound(a: seq<Bit>, b: seq<Bit>, offset: nat, corrected: set<nat>)
    requires |a| == |b|
    ensures Reported(FindErrors(a, b, offset, corrected), a, b, offset, corrected)
    ensures Increasing(FindErrors(a, b, offset, corrected))
    decreases |a|
  {
    if |a| <= 4 {
      LeafErrorsSound(a, b, offset, corrected, 0);
      assert FindErrors(a, b, offset, corrected) == LeafErrors(a, b, offset, corrected, 0);
    } else if Parity(a) != Parity(b) {
      var mid := |a| / 2;
      FindErrorsSound(a[..mid], b[..mid], offset, corrected);
      FindErrorsSound(a[mid..], b[mid..], offset + mid, corrected);
      FindErrorsSoundSplit(a, b, offset, corrected);
    }
  }

  /** A long block with differing parities reports soundly when its
      halves do. */
  lemma FindErrorsSoundSplit(a: seq<Bit>, b: seq<Bit>, offset: nat, corrected: set<nat>)
    requires |a| == |b| && |a| > 4 && Parity(a) != Parity(b)
    requires var mid := |a| / 2;
      var left := FindErrors(a[..mid], b[..mid], offset, corrected);
      Reported(left, a[..mid], b[..mid], offset, corrected) && Increasing(left)
    requires var mid := |a| / 2;
      var right := FindErrors(a[mid..], b[mid..], offset + mid, corrected);
      Reported(right, a[mid..], b[mid..], offset + mid, corrected) && Increasing(right)
    ensures Reported(FindErrors(a, b, offset, corrected), a, b, offset, corrected)
    ensures Increasing(FindErrors(a, b, offset, corrected))
  {
    var mid := |a| / 2;
    FindErrorsSplit(a, b, offset, corrected);
    ReportedConcat(FindErrors(a[..mid], b[..mid], offset, corrected),
                   FindErrors(a[mid..], b[mid..], offset + mid, corrected), a, b, offset, mid, corrected);
  }

  lemma ReportedConcat(left: seq<nat>, right: seq<nat>, a: seq<Bit>, b: seq<Bit>, offset: nat, mid: nat, corrected: set<nat>)
    requires |a| == |b| && mid <= |a|
    requires Reported(left, a[..mid], b[..mid], offset, corrected) && Increasing(left)
    requires Reported(right, a[mid..], b[mid..], offset + mid, corrected) && Increasing(right)
    ensures Reported(left + right, a, b, offset, corrected) && Increasing(left + right)
  {
    forall p | p in right
      ensures a[p - offset] != b[p - offset]
    {
      assert a[mid..][p - (offset + mid)] == a[p - offset];
      assert b[mid..][p - (offset + mid)] == b[p - offset];
    }
    var r := left + right;
    forall k, l | 0 <= k < l < |r|
      ensures r[k] < r[l]
    {
      if l < |left| {
        assert r[k] == left[k] && r[l] == left[l];
      } else if k >= |left| {
        assert r[k] == right[k - |left|] && r[l] == right[l - |left|];
      } else {
        assert r[k] in left && r[l] in right;
      }
    }
  }

  /** On a block of at most four bits the scan reports exactly the
      disagreements not corrected before. */
  lemma FindErrorsLeaf(a: seq<Bit>, b: seq<Bit>, offset: nat, corrected: set<nat>)
    requires |a| == |b| <= 4
    ensures forall p :: p in FindErrors(a, b, offset, corrected) <==>
      offset <= p < offset + |a| && a[p - offset] != b[p - offset] && p !in corrected
  {
    var r := FindErrors(a, b, offset, corrected);
    LeafErrorsSound(a, b, offset, corrected, 0);
    LeafErrorsComplete(a, b, offset, corrected, 0);
    forall p | offset <= p < offset + |a| && a[p - offset] != b[p - offset] && p !in corrected
      ensures p in r
    {
      assert a[p - offset] != b[p - offset] && offset + (p - offset) !in corrected;
    }
  }

  /** Two blocks with different parities differ somewhere. */
  lemma ParityDiffers(a: seq<Bit>, b: seq<Bit>)
    requires |a| == |b| && Parity(a) != Parity(b)
    ensures exists i :: 0 <= i < |a| && a[i] != b[i]
  {
    if a != b {
      assert !(forall i :: 0 <= i < |a| ==> a[i] == b[i]);
    }
  }

  /** A block whose parities differ, and none of whose disagreements has
      been corrected before, yields at least one index: the bisection
      always follows a half whose parities still differ. */
  lemma {:induction false} FindErrorsFindsOdd(a: seq<Bit>, b: seq<Bit>, offset: nat, corrected: set<nat>)
    requires |a| == |b| && Parity(a) != Parity(b)
    requires forall i :: 0 <= i < |a| && a[i] != b[i] ==> offset + i !in corrected
    ensures FindErrors(a, b, offset, corrected) != []
    decreases |a|
  {
    if |a| <= 4 {
      LeafFindsOdd(a, b, offset, corrected);
    } else {
      var mid := |a| / 2;
      var al, ar, bl, br := a[..mid], a[mid..], b[..mid], b[mid..];
      HalfParityDiffers(a, b, mid);
      if Parity(al) != Parity(bl) {
        FindErrorsFindsOdd(al, bl, offset, corrected);
      } else {
        forall i | 0 <= i < |ar| && ar[i] != br[i]
          ensures offset + mid + i !in corrected
        {
          assert a[mid + i] != b[mid + i];
        }
        FindErrorsFindsOdd(ar, br, offset + mid, corrected);
      }
      FindErrorsSplit(a, b, offset, corrected);
    }
  }

  lemma LeafFindsOdd(a: seq<Bit>, b: seq<Bit>, offset: nat, corrected: set<nat>)
    requires |a| == |b| <= 4 && Parity(a) != Parity(b)
    requires forall i :: 0 <= i < |a| && a[i] != b[i] ==> offset + i !in corrected
    ensures FindErrors(a, b, offset, corrected) != []
  {
    ParityDiffers(a, b);
    var i :| 0 <= i < |a| && a[i] != b[i];
    FindErrorsLeaf(a, b, offset, corrected);
    assert offset + i in FindErrors(a, b, offset, corrected);
  }

  /** When the parities of a block differ, so do those of one of its halves. */
  lemma HalfParityDiffers(a: seq<Bit>, b: seq<Bit>, mid: nat)
    requires |a| == |b| && mid <= |a| && Parity(a) != Parity(b)
    ensures Parity(a[..mid]) != Parity(b[..mid]) || Parity(a[mid..]) != Parity(b[mid..])
  {
    assert a == a[..mid] + a[mid..] && b == b[..mid] + b[mid..];
    SumAppend(a[..mid], a[mid..]);
    SumAppend(b[..mid], b[mid..]);
    ParitySplit(Sum(a[..mid]), Sum(a[mid..]), Sum(b[..mid]), Sum(b[mid..]));
  }

  /** A long block with differing parities reports what its halves report. */
  lemma FindErrorsSplit(a: seq<Bit>, b: seq<Bit>, offset: nat, corrected: set<nat>)
    requires |a| == |b| && |a| > 4 && Parity(a) != Parity(b)
    ensures FindErrors(a, b, offset, corrected) ==
      FindErrors(a[..|a| / 2], b[..|a| / 2], offset, corrected) +
      FindErrors(a[|a| / 2..], b[|a| / 2..], offset + |a| / 2, corrected)
  {
  }

  lemma ParitySplit(x: nat, y: nat, u: nat, v: nat)
    requires (x + y) % 2 != (u + v) % 2
    ensures x % 2 != u % 2 || y % 2 != v % 2
  {
  }

  /** Parities differ exactly when the number of disagreements is odd. */
  lemma {:induction false} ParityCountsDisagreements(a: seq<Bit>, b: seq<Bit>)
    requires |a| == |b|
    ensures (Parity(a) != Parity(b)) <==> |DiffPos(a, b)| % 2 == 1
    decreases |a|
  {
    if a != [] {
      var n := |a| - 1;
      var a', b' := a[..n], b[..n];
      ParityCountsDisagreements(a', b');
      DiffPosLast(a, b);
      var d := DiffPos(a', b');
      assert Parity(a) == (Sum(a') + a[n]) % 2 && Parity(b) == (Sum(b') + b[n]) % 2;
      ParityStep(Sum(a'), Sum(b'), a[n], b[n]);
      if a[n] != b[n] {
        assert |DiffPos(a, b)| == |d| + 1;
        OddStep(|d|);
      } else {
        assert |DiffPos(a, b)| == |d|;
      }
    } else {
      assert DiffPos(a, b) == {};
    }
  }

  /** One more disagreement flips whether the count is odd. */
  lemma OddStep(m: nat)
    ensures ((m + 1) % 2 == 1) == (m % 2 != 1)
  {
  }

  /** The disagreements of two arrays are those of their prefixes, plus the
      last position when the last bits differ. */
  lemma DiffPosLast(a: seq<Bit>, b: seq<Bit>)
    requires |a| == |b| > 0
    ensures var n := |a| - 1;
      var d := DiffPos(a[..n], b[..n]);
      n !in d &&
      DiffPos(a, b) == if a[n] != b[n] then d + {n} else d
  {
  }

  /** Adding one bit to each side flips the parity comparison exactly when
      the two bits differ. */
  lemma ParityStep(x: nat, y: nat, u: Bit, v: Bit)
    ensures ((x + u) % 2 != (y + v) % 2) == ((x % 2 != y % 2) != (u != v))
  {
  }

  /** `_binary_search_error`: the first index found with nothing corrected,
      or None. */
  function BinarySearchError(a: seq<Bit>, b: seq<Bit>, offset: nat): (r: Option<nat>)
    requires |a| == |b|
    ensures r.Some? ==> offset <= r.value < offset + |a| && a[r.value - offset] != b[r.value - offset]
  {
    var errors := FindErrors(a, b, offset, {});
    FindErrorsSound(a, b, offset, {});
    if errors != [] then assert errors[0] in errors; Some(errors[0]) else None
  }

  /** On a block whose parities differ the legacy search always finds an
      index, and it is the smallest one the bisection reports. */
  lemma BinarySearchErrorFinds(a: seq<Bit>, b: seq<Bit>, offset: nat)
    requires |a| == |b| && Parity(a) != Parity(b)
    ensures BinarySearchError(a, b, offset).Some?
    ensures forall p :: p in FindErrors(a, b, offset, {}) ==> BinarySearchError(a, b, offset).value <= p
  {
    FindErrorsFindsOdd(a, b, offset, {});
    FindErrorsSound(a, b, offset, {});
  }

  // ------------------------------------------------------------ a pass

  /** The positions one pass corrects, from block start i on. */
  function PassErrorsFrom(alice: seq<Bit>, bob: seq<Bit>, bs: nat, corrected: set<nat>, i: nat): set<nat>
    requires |alice| == |bob| && bs >= 1
    decreases |alice| - i, 1
  {
    if i >= |alice| then {}
    else BlockAndLater(alice, bob, bs, corrected, i)
  }

  /** The corrections of block [i, i + bs) together with those of the
      blocks after it. */
  function BlockAndLater(alice: seq<Bit>, bob: seq<Bit>, bs: nat, corrected: set<nat>, i: nat): set<nat>
    requires |alice| == |bob| && bs >= 1 && i < |alice|
    decreases |alice| - i, 0
  {
    BlockErrors(alice, bob, i, Min(i + bs, |alice|), corrected) + PassErrorsFrom(alice, bob, bs, corrected, i + bs)
  }

  /** The positions corrected in the block [i, end): the bisection's result
      when the block's parities differ, nothing otherwise. */
  function BlockErrors(alice: seq<Bit>, bob: seq<Bit>, i: nat, end: nat, corrected: set<nat>): set<nat>
    requires |alice| == |bob| && i <= end <= |alice|
  {
    if Parity(alice[i..end]) != Parity(bob[i..end])
    then (set p | p in FindErrors(alice[i..end], bob[i..end], i, corrected) && p !in corrected)
    else {}
  }

  /** The positions one pass corrects. */
  function PassErrors(alice: seq<Bit>, bob: seq<Bit>, bs: nat, corrected: set<nat>): set<nat>
    requires |alice| == |bob| && bs >= 1
  {
    PassErrorsFrom(alice, bob, bs, corrected, 0)
  }

  /** Adding block [i, i + bs)'s corrections advances the pass by one block. */
  lemma PassErrorsStep(alice: seq<Bit>, bob: seq<Bit>, bs: nat, corrected: set<nat>, i: nat,
                       before: set<nat>, after: set<nat>)
    requires |alice| == |bob| && bs >= 1 && i < |alice|
    requires before + PassErrorsFrom(alice, bob, bs, corrected, i) == PassErrors(alice, bob, bs, corrected)
    requires after == before + BlockErrors(alice, bob, i, Min(i + bs, |alice|), corrected)
    ensures after + PassErrorsFrom(alice, bob, bs, corrected, i + bs) == PassErrors(alice, bob, bs, corrected)
    ensures BlocksFrom(|alice|, bs, i) == 1 + BlocksFrom(|alice|, bs, i + bs)
  {
  }

  lemma {:induction false} PassErrorsFromSound(alice: seq<Bit>, bob: seq<Bit>, bs: nat, corrected: set<nat>, i: nat)
    requires |alice| == |bob| && bs >= 1
    ensures forall p :: p in PassErrorsFrom(alice, bob, bs, corrected, i) ==>
      i <= p && p in DiffPos(alice, bob) && p !in corrected
    decreases |alice| - i
  {
    if i < |alice| {
      assert PassErrorsFrom(alice, bob, bs, corrected, i) ==
        BlockErrors(alice, bob, i, Min(i + bs, |alice|), corrected) + PassErrorsFrom(alice, bob, bs, corrected, i + bs);
      PassErrorsFromSound(alice, bob, bs, corrected, i + bs);
      BlockErrorsSound(alice, bob, i, Min(i + bs, |alice|), corrected);
    }
  }

  /** A block's corrections lie in the block, are disagreements, and were
      not corrected before. */
  lemma BlockErrorsSound(alice: seq<Bit>, bob: seq<Bit>, i: nat, end: nat, corrected: set<nat>)
    requires |alice| == |bob| && i <= end <= |alice|
    ensures forall p :: p in BlockErrors(alice, bob, i, end, corrected) ==>
      i <= p < end && p in DiffPos(alice, bob) && p !in corrected
  {
    var e := FindErrors(alice[i..end], bob[i..end], i, corrected);
    FindErrorsSound(alice[i..end], bob[i..end], i, corrected);
    forall p | p in e
      ensures p in DiffPos(alice, bob)
    {
      assert alice[i..end][p - i] == alice[p];
    }
  }

  /** A pass corrects only disagreements that were not corrected before. */
  lemma PassErrorsSound(alice: seq<Bit>, bob: seq<Bit>, bs: nat, corrected: set<nat>)
    requires |alice| == |bob| && bs >= 1
    ensures PassErrors(alice, bob, bs, corrected) <= DiffPos(alice, bob) - corrected
  {
    PassErrorsFromSound(alice, bob, bs, corrected, 0);
  }

  lemma {:induction false} PassErrorsFromUnit(alice: seq<Bit>, bob: seq<Bit>, corrected: set<nat>, i: nat)
    requires |alice| == |bob|
    ensures PassErrorsFrom(alice, bob, 1, corrected, i) == (set p | p in DiffPos(alice, bob) && i <= p) - corrected
    decreases |alice| - i
  {
    if i < |alice| {
      PassErrorsFromUnit(alice, bob, corrected, i + 1);
      var a, b := alice[i..i + 1], bob[i..i + 1];
      assert a == [alice[i]] && b == [bob[i]];
      SumSingle(alice[i]);
      SumSingle(bob[i]);
      FindErrorsLeaf(a, b, i, corrected);
    } else {
      assert (set p | p in DiffPos(alice, bob) && i <= p) == {};
    }
  }

  /** With blocks of one bit a pass corrects every disagreement not
      corrected before. */
  lemma PassErrorsUnit(alice: seq<Bit>, bob: seq<Bit>, corrected: set<nat>)
    requires |alice| == |bob|
    ensures PassErrors(alice, bob, 1, corrected) == DiffPos(alice, bob) - corrected
  {
    PassErrorsFromUnit(alice, bob, corrected, 0);
    assert (set p | p in DiffPos(alice, bob) && 0 <= p) == DiffPos(alice, bob);
  }

  /** Flipping disagreeing positions removes exactly those disagreements. */
  lemma FlippedDiff(a: seq<Bit>, b: seq<Bit>, S: set<nat>)
    requires |a| == |b| && S <= DiffPos(a, b)
    ensures DiffPos(a, Flipped(b, S)) == DiffPos(a, b) - S
  {
  }

  lemma DiffPosEmpty(a: seq<Bit>, b: seq<Bit>)
    requires |a| == |b|
    ensures DiffPos(a, b) == {} <==> a == b
  {
    if DiffPos(a, b) == {} {
      assert forall i :: 0 <= i < |a| ==> a[i] == b[i] by {
        forall i | 0 <= i < |a| ensures a[i] == b[i] {
          assert i !in DiffPos(a, b);
        }
      }
    }
  }

  // ------------------------------------------------------- the protocol

  /** Result of one pass: `pass_num`, `block_size`, `blocks_processed`,
      `errors_corrected`. */
  datatype PassResult = PassResult(passNum: nat, blockSize: nat, blocksProcessed: nat, errorsCorrected: nat)

  /** The reconciliation metadata dictionary. */
  datatype Metadata = Metadata(
    blockSize: int,
    numPasses: int,
    totalErrorsCorrected: nat,
    remainingErrors: nat,
    finalErrorRate: real,
    passResults: seq<PassResult>,
    keysMatch: bool)

  /** Pass k + 1 used the halved block size and processed one block per
      started group of that many bits. */
  ghost predicate PassSchedule(passes: seq<PassResult>, blockSize: int, n: nat)
  {
    forall k :: 0 <= k < |passes| ==>
      passes[k].passNum == k + 1 &&
      passes[k].blockSize == PassBlockSize(blockSize, k + 1) &&
      passes[k].blocksProcessed == BlocksFrom(n, passes[k].blockSize, 0)
  }

  lemma PassScheduleAppend(passes: seq<PassResult>, blockSize: int, n: nat, bs: nat, blocks: nat, errors: nat)
    requires PassSchedule(passes, blockSize, n)
    requires bs == PassBlockSize(blockSize, |passes| + 1) && blocks == BlocksFrom(n, bs, 0)
    ensures PassSchedule(passes + [PassResult(|passes| + 1, bs, blocks, errors)], blockSize, n)
    ensures TotalCorrected(passes + [PassResult(|passes| + 1, bs, blocks, errors)]) == TotalCorrected(passes) + errors
  {
    var q := passes + [PassResult(|passes| + 1, bs, blocks, errors)];
    assert q[..|q| - 1] == passes;
  }

  /** Disagreements between the two keys once both are cut to the shorter
      length. */
  function InitialDisagreements(keyAlice: Bytes, keyBob: Bytes): nat
  {
    var m := Min(|keyAlice|, |keyBob|);
    |DiffPos(Unpacked(keyAlice[..m]), Unpacked(keyBob[..m]))|
  }

  /** Unpacking and cutting to 8 * min bits is unpacking the shorter prefix. */
  lemma TruncatedBits(keyAlice: Bytes, keyBob: Bytes)
    ensures var m := Min(|keyAlice|, |keyBob|);
      var n := Min(|Unpacked(keyAlice)|, |Unpacked(keyBob)|);
      n == 8 * m &&
      Unpacked(keyAlice)[..n] == Unpacked(keyAlice[..m]) &&
      Unpacked(keyBob)[..n] == Unpacked(keyBob[..m])
  {
    var m := Min(|keyAlice|, |keyBob|);
    UnpackedPrefix(keyAlice, m);
    UnpackedPrefix(keyBob, m);
  }

  /** The bytes returned and the error accounting after the passes. */
  lemma ReconcileOutcome(keyAlice: Bytes, keyBob: Bytes, bob: seq<Bit>, corrected: set<nat>)
    requires var m := Min(|keyAlice|, |keyBob|);
      var a0, b0 := Unpacked(keyAlice[..m]), Unpacked(keyBob[..m]);
      |bob| == |b0| && corrected <= DiffPos(a0, b0) && DiffPos(a0, bob) == DiffPos(a0, b0) - corrected
    ensures var m := Min(|keyAlice|, |keyBob|);
      var a0 := Unpacked(keyAlice[..m]);
      Packed(a0) == keyAlice[..m] &&
      |Packed(bob)| == m &&
      |corrected| + |DiffPos(a0, bob)| == InitialDisagreements(keyAlice, keyBob) &&
      (Packed(a0) == Packed(bob) <==> |DiffPos(a0, bob)| == 0)
  {
    var m := Min(|keyAlice|, |keyBob|);
    var a0, b0 := Unpacked(keyAlice[..m]), Unpacked(keyBob[..m]);
    PackedUnpacked(keyAlice[..m]);
    PackedInjective(a0, bob);
    DiffPosEmpty(a0, bob);
    SubsetSize(DiffPos(a0, b0), corrected);
  }

  /** What one pass does to the disagreement accounting: its corrections
      join the corrected set, the disagreements shrink by exactly them, a
      one-bit-block pass leaves none, and once none is left a pass
      corrects nothing. */
  lemma PassStep(a0: seq<Bit>, b0: seq<Bit>, bob: seq<Bit>, corrected: set<nat>, nc: set<nat>, bs: nat)
    requires |a0| == |b0| == |bob| && bs >= 1
    requires corrected <= DiffPos(a0, b0)
    requires DiffPos(a0, bob) == DiffPos(a0, b0) - corrected
    requires nc == PassErrors(a0, bob, bs, corrected)
    requires nc <= DiffPos(a0, bob) - corrected
    ensures corrected + nc <= DiffPos(a0, b0)
    ensures DiffPos(a0, Flipped(bob, nc)) == DiffPos(a0, b0) - (corrected + nc)
    ensures |corrected + nc| == |corrected| + |nc|
    ensures bs == 1 ==> DiffPos(a0, Flipped(bob, nc)) == {}
    ensures DiffPos(a0, bob) == {} ==> nc == {} && DiffPos(a0, Flipped(bob, nc)) == {}
  {
    FlippedDiff(a0, bob, nc);
    if bs == 1 {
      PassErrorsUnit(a0, bob, corrected);
    }
    DisjointUnionSize(corrected, nc);
  }

  lemma DisjointUnionSize(A: set<nat>, B: set<nat>)
    requires A * B == {}
    ensures |A + B| == |A| + |B|
  {
  }

  lemma SubsetSize(D: set<nat>, S: set<nat>)
    requires S <= D
    ensures |D - S| + |S| == |D|
  {
    assert D == (D - S) + S;
    DisjointUnionSize(D - S, S);
  }

  function TotalCorrected(passes: seq<PassResult>): nat
  {
    if passes == [] then 0 else TotalCorrected(passes[..|passes| - 1]) + passes[|passes| - 1].errorsCorrected
  }

  /** The disagreement accounting the pass loop keeps: the corrected
      positions are original disagreements, Bob's copy disagrees with
      Alice's exactly on the others, and the running total counts them. */
  ghost predicate Accounting(a0: seq<Bit>, b0: seq<Bit>, bob: seq<Bit>, corrected: set<nat>, total: nat)
  {
    |a0| == |b0| == |bob| &&
    corrected <= DiffPos(a0, b0) &&
    DiffPos(a0, bob) == DiffPos(a0, b0) - corrected &&
    total == |corrected|
  }

  /** Every pass but the last corrected something; when the loop stopped
      early the last pass corrected nothing; and once a pass ran with
      one-bit blocks no disagreement is left. */
  ghost predicate PassOutcomes(passes: seq<PassResult>, stopped: bool, cleared: bool)
  {
    (forall k :: 0 <= k < |passes| - 1 ==> passes[k].errorsCorrected > 0) &&
    (stopped ==> |passes| >= 1 && passes[|passes| - 1].errorsCorrected == 0) &&
    (forall k :: 0 <= k < |passes| && passes[k].blockSize == 1 ==> cleared)
  }

  /** Bob's bits, the corrected positions, the pass records and whether the
      last pass corrected nothing, after some passes. */
  datatype PassRun = PassRun(bob: seq<Bit>, corrected: set<nat>, passes: seq<PassResult>, stopped: bool)

  /** The state of `reconcile_keys` after passes 1 to k, or after the first
      pass that corrected nothing if that came earlier: pass p corrects
      PassErrors with block size PassBlockSize(blockSize, p), flips Bob's
      bits there and records how many it corrected. */
  function PassesUpTo(a0: seq<Bit>, b0: seq<Bit>, blockSize: int, k: nat): (r: PassRun)
    requires |a0| == |b0|
    ensures |r.bob| == |b0|
  {
    if k == 0 then PassRun(b0, {}, [], false)
    else
      var prev := PassesUpTo(a0, b0, blockSize, k - 1);
      if prev.stopped then prev
      else
        var bs := PassBlockSize(blockSize, k);
        var nc := PassErrors(a0, prev.bob, bs, prev.corrected);
        PassRun(Flipped(prev.bob, nc), prev.corrected + nc,
                prev.passes + [PassResult(k, bs, BlocksFrom(|a0|, bs, 0), |nc|)], |nc| == 0)
  }

  /** The whole run: passes 1 to `num_passes`, stopping early after a pass
      that corrects nothing. */
  function Passes(a0: seq<Bit>, b0: seq<Bit>, blockSize: int, numPasses: int): PassRun
    requires |a0| == |b0|
  {
    PassesUpTo(a0, b0, blockSize, Max(0, numPasses))
  }

  /** After k passes, in Python terms: the accounting holds, the passes
      follow the halving schedule, one pass is recorded per pass run,
      every pass but the last corrected something, and the run stopped
      exactly when its last pass corrected nothing. */
  ghost predicate RunInvariant(a0: seq<Bit>, b0: seq<Bit>, blockSize: int, k: nat, r: PassRun)
  {
    Accounting(a0, b0, r.bob, r.corrected, TotalCorrected(r.passes)) &&
    PassSchedule(r.passes, blockSize, |a0|) &&
    |r.passes| <= k && (k >= 1 ==> |r.passes| >= 1) &&
    (!r.stopped ==> |r.passes| == k) &&
    PassOutcomes(r.passes, r.stopped, DiffPos(a0, r.bob) == {}) &&
    (!r.stopped ==> r.passes == [] || r.passes[|r.passes| - 1].errorsCorrected > 0)
  }

  /** Pass k, run after passes that have not stopped, keeps the invariant. */
  lemma NextPassInvariant(a0: seq<Bit>, b0: seq<Bit>, blockSize: int, k: nat, prev: PassRun)
    requires k >= 1 && RunInvariant(a0, b0, blockSize, k - 1, prev) && !prev.stopped
    ensures var bs := PassBlockSize(blockSize, k);
      var nc := PassErrors(a0, prev.bob, bs, prev.corrected);
      RunInvariant(a0, b0, blockSize, k, PassRun(Flipped(prev.bob, nc), prev.corrected + nc,
                   prev.passes + [PassResult(k, bs, BlocksFrom(|a0|, bs, 0), |nc|)], |nc| == 0))
  {
    var bs := PassBlockSize(blockSize, k);
    var nc := PassErrors(a0, prev.bob, bs, prev.corrected);
    PassErrorsSound(a0, prev.bob, bs, prev.corrected);
    RunStep(a0, b0, prev.bob, prev.corrected, TotalCorrected(prev.passes), prev.passes, blockSize,
            bs, BlocksFrom(|a0|, bs, 0), nc);
  }

  /** Every run of passes keeps the invariant. */
  lemma {:induction false} PassesUpToInvariant(a0: seq<Bit>, b0: seq<Bit>, blockSize: int, k: nat)
    requires |a0| == |b0|
    ensures RunInvariant(a0, b0, blockSize, k, PassesUpTo(a0, b0, blockSize, k))
    decreases k
  {
    if k > 0 {
      PassesUpToInvariant(a0, b0, blockSize, k - 1);
      var prev := PassesUpTo(a0, b0, blockSize, k - 1);
      if !prev.stopped {
        PassesUpToNext(a0, b0, blockSize, k);
        NextPassInvariant(a0, b0, blockSize, k, prev);
      } else {
        assert PassesUpTo(a0, b0, blockSize, k) == prev;
      }
    }
  }

  /** A run that has not stopped after pass k - 1 goes on with pass k. */
  lemma PassesUpToNext(a0: seq<Bit>, b0: seq<Bit>, blockSize: int, k: nat)
    requires |a0| == |b0| && k >= 1 && !PassesUpTo(a0, b0, blockSize, k - 1).stopped
    ensures var prev := PassesUpTo(a0, b0, blockSize, k - 1);
      var bs := PassBlockSize(blockSize, k);
      var nc := PassErrors(a0, prev.bob, bs, prev.corrected);
      PassesUpTo(a0, b0, blockSize, k) ==
        PassRun(Flipped(prev.bob, nc), prev.corrected + nc,
                prev.passes + [PassResult(k, bs, BlocksFrom(|a0|, bs, 0), |nc|)], |nc| == 0)
  {
  }

  /** Once a run has stopped, later passes change nothing. */
  lemma {:induction false} PassesUpToStopped(a0: seq<Bit>, b0: seq<Bit>, blockSize: int, k: nat, k': nat)
    requires |a0| == |b0| && k <= k' && PassesUpTo(a0, b0, blockSize, k).stopped
    ensures PassesUpTo(a0, b0, blockSize, k') == PassesUpTo(a0, b0, blockSize, k)
    decreases k' - k
  {
    if k < k' {
      PassesUpToStopped(a0, b0, blockSize, k, k' - 1);
      var prev := PassesUpTo(a0, b0, blockSize, k' - 1);
      assert prev.stopped;
      assert PassesUpTo(a0, b0, blockSize, k') == prev;
    }
  }

  /** The run is over after pass k when pass k was the last one or the
      run stopped there. */
  lemma PassesDone(a0: seq<Bit>, b0: seq<Bit>, blockSize: int, numPasses: int, k: nat)
    requires |a0| == |b0| && k <= Max(0, numPasses)
    requires PassesUpTo(a0, b0, blockSize, k).stopped || k == Max(0, numPasses)
    ensures Passes(a0, b0, blockSize, numPasses) == PassesUpTo(a0, b0, blockSize, k)
  {
    if k < Max(0, numPasses) {
      PassesUpToStopped(a0, b0, blockSize, k, Max(0, numPasses));
    }
  }

  /** What the whole run of `reconcile_keys` promises: the accounting
      holds, one pass is recorded per pass run, at least one and at most
      `num_passes`, on the halving schedule, and when fewer than
      `num_passes` passes ran the last one corrected nothing. */
  lemma PassesOutcome(a0: seq<Bit>, b0: seq<Bit>, blockSize: int, numPasses: int)
    requires |a0| == |b0|
    ensures var r := Passes(a0, b0, blockSize, numPasses);
      Accounting(a0, b0, r.bob, r.corrected, |r.corrected|) &&
      |r.corrected| == TotalCorrected(r.passes) &&
      |r.corrected| + |DiffPos(a0, r.bob)| == |DiffPos(a0, b0)| &&
      PassSchedule(r.passes, blockSize, |a0|) &&
      |r.passes| <= Max(0, numPasses) && (numPasses >= 1 ==> |r.passes| >= 1) &&
      PassOutcomes(r.passes, |r.passes| < numPasses, DiffPos(a0, r.bob) == {})
  {
    PassesUpToInvariant(a0, b0, blockSize, Max(0, numPasses));
    var r := Passes(a0, b0, blockSize, numPasses);
    SubsetSize(DiffPos(a0, b0), r.corrected);
  }

  /** One pass of the loop keeps the accounting, the schedule, the total
      and the outcome record. */
  lemma RunStep(a0: seq<Bit>, b0: seq<Bit>, bob: seq<Bit>, corrected: set<nat>, total: nat,
                passes: seq<PassResult>, blockSize: int, bs: nat, blocks: nat, nc: set<nat>)
    requires Accounting(a0, b0, bob, corrected, total)
    requires PassSchedule(passes, blockSize, |a0|)
    requires PassOutcomes(passes, false, DiffPos(a0, bob) == {})
    requires passes == [] || passes[|passes| - 1].errorsCorrected > 0
    requires bs >= 1 && bs == PassBlockSize(blockSize, |passes| + 1) && blocks == BlocksFrom(|a0|, bs, 0)
    requires nc == PassErrors(a0, bob, bs, corrected) && nc <= DiffPos(a0, bob) - corrected
    ensures var q := passes + [PassResult(|passes| + 1, bs, blocks, |nc|)];
      Accounting(a0, b0, Flipped(bob, nc), corrected + nc, total + |nc|) &&
      PassSchedule(q, blockSize, |a0|) &&
      TotalCorrected(q) == TotalCorrected(passes) + |nc| &&
      PassOutcomes(q, |nc| == 0, DiffPos(a0, Flipped(bob, nc)) == {})
  {
    PassStep(a0, b0, bob, corrected, nc, bs);
    PassScheduleAppend(passes, blockSize, |a0|, bs, blocks, |nc|);
  }

  class CascadeProtocol {
    const blockSize: int
    const numPasses: int

    constructor(blockSize: int, numPasses: int)
      ensures this.blockSize == blockSize && this.numPasses == numPasses
    {
      this.blockSize := blockSize;
      this.numPasses := numPasses;
    }

    /** `_reconcile_pass`: Alice's bits come back unchanged; Bob's copy has
        exactly the pass's corrections flipped, and those corrections are
        disagreements not corrected in earlier passes. */
    method ReconcilePass(alice: seq<Bit>, bob: seq<Bit>, bs: nat, corrected: set<nat>)
      returns (ra: seq<Bit>, rb: seq<Bit>, blocksProcessed: nat, newCorrected: set<nat>)
      requires |alice| == |bob| && bs >= 1
      ensures ra == alice
      ensures newCorrected == PassErrors(alice, bob, bs, corrected)
      ensures newCorrected <= DiffPos(alice, bob) - corrected
      ensures rb == Flipped(bob, newCorrected)
      ensures blocksProcessed == BlocksFrom(|alice|, bs, 0)
    {
      var work := new Bit[|bob|](j requires 0 <= j < |bob| => bob[j]);
      newCorrected := {};
      blocksProcessed := 0;
      var i := 0;
      while i < |alice|
        invariant newCorrected + PassErrorsFrom(alice, bob, bs, corrected, i) == PassErrors(alice, bob, bs, corrected)
        invariant forall p :: p in newCorrected ==> p < i
        invariant work[..] == Flipped(bob, newCorrected)
        invariant blocksProcessed + BlocksFrom(|alice|, bs, i) == BlocksFrom(|alice|, bs, 0)
        decreases |alice| - i
      {
        var end := Min(i + bs, |alice|);
        blocksProcessed := blocksProcessed + 1;
        ghost var before := newCorrected;
        newCorrected := CorrectBlock(work, alice, bob, i, end, corrected, newCorrected);
        PassErrorsStep(alice, bob, bs, corrected, i, before, newCorrected);
        i := i + bs;
      }
      ra := alice;
      rb := work[..];
      PassErrorsSound(alice, bob, bs, corrected);
    }

    /** The pass loop of `reconcile_keys`, from the truncated bit arrays:
        it computes the run of passes. */
    method RunPasses(a0: seq<Bit>, b0: seq<Bit>)
      returns (reconciledBob: seq<Bit>, passResults: seq<PassResult>, correctedBits: set<nat>, totalErrorsCorrected: nat)
      requires |a0| == |b0|
      ensures var r := Passes(a0, b0, blockSize, numPasses);
        reconciledBob == r.bob && correctedBits == r.corrected && passResults == r.passes
      ensures Accounting(a0, b0, reconciledBob, correctedBits, totalErrorsCorrected)
      ensures totalErrorsCorrected == TotalCorrected(passResults)
      ensures PassSchedule(passResults, blockSize, |a0|)
      ensures |passResults| <= Max(0, numPasses)
      ensures numPasses >= 1 ==> |passResults| >= 1
      ensures PassOutcomes(passResults, |passResults| < numPasses, DiffPos(a0, reconciledBob) == {})
    {
      var reconciledAlice := a0;
      reconciledBob := b0;
      totalErrorsCorrected := 0;
      passResults := [];
      correctedBits := {};
      var passNum := 1;
      var stop := false;
      while passNum <= numPasses && !stop
        invariant 1 <= passNum
        invariant numPasses >= 1 ==> passNum <= numPasses + 1
        invariant numPasses < 1 ==> passNum == 1
        invariant reconciledAlice == a0 && |reconciledBob| == |a0|
        invariant PassesUpTo(a0, b0, blockSize, passNum - 1) == PassRun(reconciledBob, correctedBits, passResults, stop)
        invariant totalErrorsCorrected == |correctedBits|
        decreases numPasses - passNum + 1, if stop then 0 else 1
      {
        var currentBlockSize := PassBlockSize(blockSize, passNum);
        var newCorrected, blocksProcessed;
        reconciledAlice, reconciledBob, blocksProcessed, newCorrected :=
          ReconcilePass(reconciledAlice, reconciledBob, currentBlockSize, correctedBits);
        PassesUpToNext(a0, b0, blockSize, passNum);
        var errorsCorrected := |newCorrected|;
        DisjointUnionSize(correctedBits, newCorrected);
        correctedBits := correctedBits + newCorrected;
        totalErrorsCorrected := totalErrorsCorrected + errorsCorrected;
        passResults := passResults + [PassResult(passNum, currentBlockSize, blocksProcessed, errorsCorrected)];
        if errorsCorrected == 0 {
          stop := true;
        }
        passNum := passNum + 1;
      }
      PassesDone(a0, b0, blockSize, numPasses, passNum - 1);
      PassesOutcome(a0, b0, blockSize, numPasses);
    }

    /** `reconcile_keys`.  Both keys are cut to the shorter length; Alice's
        key comes back unchanged; Bob's key and the pass records are those
        of the run of passes over the cut bits; every correction removes one
        disagreement, so the corrections and the remaining errors add up
        to the disagreements found at the start; the passes stop after the
        first one that corrects nothing, and a pass with one-bit blocks
        leaves no disagreement; the keys match exactly when no error
        remains. */
    method ReconcileKeys(keyAlice: Bytes, keyBob: Bytes, errorRate: real) returns (ra: Bytes, rb: Bytes, meta: Metadata)
      ensures var m := Min(|keyAlice|, |keyBob|);
        |ra| == m && |rb| == m && ra == keyAlice[..m]
      ensures var m := Min(|keyAlice|, |keyBob|);
        var a0, b0 := Unpacked(keyAlice[..m]), Unpacked(keyBob[..m]);
        var run := Passes(a0, b0, blockSize, numPasses);
        rb == Packed(run.bob) && meta.passResults == run.passes &&
        meta.totalErrorsCorrected == |run.corrected| && meta.remainingErrors == |DiffPos(a0, run.bob)|
      ensures meta.totalErrorsCorrected + meta.remainingErrors == InitialDisagreements(keyAlice, keyBob)
      ensures meta.keysMatch <==> meta.remainingErrors == 0
      ensures meta.keysMatch <==> ra == rb
      ensures meta.blockSize == blockSize && meta.numPasses == numPasses
      ensures meta.totalErrorsCorrected == TotalCorrected(meta.passResults)
      ensures PassSchedule(meta.passResults, blockSize, 8 * Min(|keyAlice|, |keyBob|))
      ensures |meta.passResults| <= Max(0, numPasses)
      ensures numPasses >= 1 ==> |meta.passResults| >= 1
      ensures PassOutcomes(meta.passResults, |meta.passResults| < numPasses, meta.remainingErrors == 0)
      ensures var n := 8 * Min(|keyAlice|, |keyBob|);
        meta.finalErrorRate == if n > 0 then meta.remainingErrors as real / n as real else 0.0
    {
      var aliceBits := BytesToBits(keyAlice);
      var bobBits := BytesToBits(keyBob);
      var minLength := Min(|aliceBits|, |bobBits|);
      aliceBits := aliceBits[..minLength];
      bobBits := bobBits[..minLength];
      TruncatedBits(keyAlice, keyBob);
      var reconciledAlice := aliceBits;
      var reconciledBob, passResults, correctedBits, totalErrorsCorrected := RunPasses(aliceBits, bobBits);

      ra := BitsToBytes(reconciledAlice);
      rb := BitsToBytes(reconciledBob);
      var remainingErrors := |DiffPos(reconciledAlice, reconciledBob)|;
      ReconcileOutcome(keyAlice, keyBob, reconciledBob, correctedBits);
      var finalErrorRate := if |reconciledAlice| > 0 then remainingErrors as real / |reconciledAlice| as real else 0.0;
      meta := Metadata(blockSize, numPasses, totalErrorsCorrected, remainingErrors, finalErrorRate,
                       passResults, remainingErrors == 0);
    }
  }

  /** One block of a pass: when Alice's and Bob's parities differ, the
      bisection's positions that were not corrected before are flipped in
      Bob's copy and recorded. */
  method CorrectBlock(work: array<Bit>, alice: seq<Bit>, ghost bob: seq<Bit>, i: nat, end: nat,
                      corrected: set<nat>, newCorrected: set<nat>) returns (updated: set<nat>)
    modifies work
    requires |alice| == |bob| == work.Length && i <= end <= |alice|
    requires work[..] == Flipped(bob, newCorrected)
    requires forall p :: p in newCorrected ==> p < i
    ensures updated == newCorrected + BlockErrors(alice, bob, i, end, corrected)
    ensures work[..] == Flipped(bob, updated)
    ensures forall p :: p in updated ==> p < end
  {
    FlippedOutside(bob, newCorrected, i, end);
    var blockAlice := alice[i..end];
    var blockBob := work[i..end];
    assert blockBob == bob[i..end];
    updated := newCorrected;
    if Parity(blockAlice) != Parity(blockBob) {
      var errorPositions := FindErrors(blockAlice, blockBob, i, corrected);
      FindErrorsSound(blockAlice, blockBob, i, corrected);
      updated := FlipErrors(work, errorPositions, corrected, bob, newCorrected);
    }
  }

  /** The correction loop of a block: each reported position not corrected
      in an earlier pass is flipped in Bob's copy and recorded. */
  method FlipErrors(work: array<Bit>, errorPositions: seq<nat>, corrected: set<nat>,
                    ghost bob: seq<Bit>, newCorrected: set<nat>) returns (updated: set<nat>)
    modifies work
    requires work[..] == Flipped(bob, newCorrected)
    requires Increasing(errorPositions)
    requires forall p :: p in errorPositions ==> p < |bob| && p !in newCorrected
    ensures updated == newCorrected + (set p | p in errorPositions && p !in corrected)
    ensures work[..] == Flipped(bob, updated)
  {
    updated := newCorrected;
    var k := 0;
    while k < |errorPositions|
      invariant 0 <= k <= |errorPositions|
      invariant updated == newCorrected + (set p | p in errorPositions[..k] && p !in corrected)
      invariant work[..] == Flipped(bob, updated)
    {
      var p := errorPositions[k];
      assert errorPositions[..k + 1] == errorPositions[..k] + [p];
      if p !in corrected {
        assert p !in updated;
        FlipOne(bob, updated, p);
        work[p] := 1 - work[p];
        updated := updated + {p};
      }
      k := k + 1;
    }
    assert errorPositions[..k] == errorPositions;
  }

  /** Positions flipped before block [i, end) leave the block as it was. */
  lemma FlippedOutside(b: seq<Bit>, S: set<nat>, i: nat, end: nat)
    requires i <= end <= |b|
    requires forall p :: p in S ==> p < i
    ensures Flipped(b, S)[i..end] == b[i..end]
  {
  }

  lemma FlipOne(b: seq<Bit>, S: set<nat>, p: nat)
    requires p < |b| && p !in S
    ensures Flipped(b, S + {p}) == Flipped(b, S)[p := 1 - Flipped(b, S)[p]]
  {
  }
}
