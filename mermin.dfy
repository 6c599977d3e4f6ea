/** The Mermin inequality test on a three-qubit GHZ state: expectation
    values of the four Mermin observables from measurement counts, the
    renormalisation of mitigated counts to the shot total, the Mermin
    parameter and the random choice of a measurement basis.  Circuit
    execution is left out; its counts are inputs. */
module Mermin {
  import opened Wrappers
  import opened BitVector
  import opened Encoding
  import opened Dicts
  import Sorting
  import Mitigation

  // ------------------------------------------------ expectation values

  /** The observables whose GHZ expectation is p0 - p1 - p_others. */
  predicate IsYPair(observable: string)
  {
    observable == "XYY" || observable == "YXY" || observable == "YYX"
  }

  /** `calculate_expectation_value`: the shares of the all-zero and all-one
      outcomes among all counted shots (the `shots` argument is not used),
      everything else counting as "others".  For XXX the value is
      2(p0 + p1) - 1, for the three observables with two Y's it is 2 p0 - 1. */
  function ExpectationValue(counts: Counts, observable: string, numQubits: nat): (e: real)
    ensures Total(counts) == 0 || (observable != "XXX" && !IsYPair(observable)) ==> e == 0.0
    ensures Total(counts) != 0 && observable == "XXX" ==>
      e == 2.0 * (Get(counts, Zeros(numQubits), 0) as real / Total(counts) as real
                  + Get(counts, Ones(numQubits), 0) as real / Total(counts) as real) - 1.0
    ensures Total(counts) != 0 && IsYPair(observable) ==>
      e == 2.0 * (Get(counts, Zeros(numQubits), 0) as real / Total(counts) as real) - 1.0
  {
    var total := Total(counts);
    if total == 0 then 0.0
    else
      var pZeros := Get(counts, Zeros(numQubits), 0) as real / total as real;
      var pOnes := Get(counts, Ones(numQubits), 0) as real / total as real;
      var pOthers := 1.0 - pZeros - pOnes;
      if observable == "XXX" then pZeros + pOnes - pOthers
      else if IsYPair(observable) then pZeros - pOnes - pOthers
      else 0.0
  }

  /** Since p_others = 1 - p0 - p1 with p0 + p1 in [0, 1], every
      expectation value lies in [-1, 1]. */
  lemma ExpectationBounded(counts: Counts, observable: string, numQubits: nat)
    requires numQubits >= 1
    requires NonNegative(counts)
    ensures -1.0 <= ExpectationValue(counts, observable, numQubits) <= 1.0
  {
    var total := Total(counts);
    if total != 0 {
      assert Zeros(numQubits)[0] != Ones(numQubits)[0];
      GetPairBound(counts, Zeros(numQubits), Ones(numQubits));
      TotalNonNegative(counts);
      var zeros := Get(counts, Zeros(numQubits), 0);
      var ones := Get(counts, Ones(numQubits), 0);
      ShareBounds(zeros + ones, total);
      ShareBounds(zeros, total);
      ShareBounds(ones, total);
      DivAdd(zeros as real, ones as real, total as real);
    }
  }

  // ------------------------------------------------ renormalisation

  /** `sorted(mitigated_counts.items(), key=lambda x: x[1])`: the entries in
      ascending order of count, equal counts keeping their order. */
  function ByCount(counts: Counts): Counts
  {
    Sorting.Sort(counts, (x: (string, int), y: (string, int)) => x.1 < y.1)
  }

  /** The states with any one count are visited in the order the
      dictionary holds them, as Python's stable sort promises. */
  lemma ByCountStable(counts: Counts, c: int)
    ensures Sorting.WithKey(ByCount(counts), EntryCount, c) == Sorting.WithKey(counts, EntryCount, c)
  {
    Sorting.SortStable(counts, (x: (string, int), y: (string, int)) => x.1 < y.1, EntryCount, c);
  }

  /** The removal loop from the j-th entry of `order` on, with `diff`
      still to remove: each state gives up the smaller of what is left to
      remove and its count in `order`, and the loop breaks as soon as
      nothing is left to remove. */
  function RemovedInOrder(reduced: Counts, order: Counts, j: nat, diff: int): Counts
    decreases |order| - j, 1
  {
    if j >= |order| || diff == 0 then reduced
    else RemovedAt(reduced, order, j, diff)
  }

  /** One iteration: the j-th state of `order` gives up what it can. */
  function RemovedAt(reduced: Counts, order: Counts, j: nat, diff: int): Counts
    requires j < |order|
    decreases |order| - j, 0
  {
    var remove := Min(-diff, order[j].1);
    RemovedInOrder(Assign(reduced, order[j].0, Get(reduced, order[j].0, 0) - remove), order, j + 1, diff + remove)
  }

  /** The counts after the `diff < 0` branch. */
  function SurplusRemoved(counts: Counts, diff: int): Counts
  {
    RemovedInOrder(counts, ByCount(counts), 0, diff)
  }

  /** The counts after the correction to the shot total: unchanged when
      they add up, a shortfall added to the first most frequent state
      (`max` of an empty dictionary raises ValueError), a surplus removed
      smallest counts first. */
  function MatchedTotal(counts: Counts, totalShots: int): Result<Counts>
  {
    if Total(counts) == totalShots then Success(counts)
    else
      var diff := totalShots - Total(counts);
      if diff > 0 then
        if counts == [] then Failure(ValueError)
        else
          var maxState := counts[MostFrequentIndex(counts)].0;
          Success(Assign(counts, maxState, Get(counts, maxState, 0) + diff))
      else Success(SurplusRemoved(counts, diff))
  }

  /** The mitigated counts of `test_observable`: `int(prob * total_shots)`
      per state, corrected to the shot total. */
  function Renormalized(probs: Dict<real>, totalShots: int): Result<Counts>
  {
    MatchedTotal(Scaled(probs, totalShots as real), totalShots)
  }

  /** The renormalisation fails only when it has to raise a state and there
      is none: no probabilities at all and a positive shot total, where
      `max` of the empty dictionary raises ValueError. */
  lemma RenormalizedFails(probs: Dict<real>, totalShots: int)
    ensures Renormalized(probs, totalShots).Failure? <==> probs == [] && totalShots > 0
    ensures Renormalized(probs, totalShots).Failure? ==> Renormalized(probs, totalShots).error == ValueError
  {
    var counts := Scaled(probs, totalShots as real);
    assert |Keys(counts)| == |Keys(probs)|;
    if probs == [] {
      assert counts == [];
    }
  }

  /** The `diff < 0` branch of the renormalisation: the surplus is taken
      from the states in ascending order of count (a stable sort of the
      entries as they were), each giving up at most its whole count, until
      nothing is left to remove. */
  method RemoveSurplus(counts: Counts, diff0: int) returns (reduced: Counts)
    requires UniqueKeys(counts)
    requires diff0 < 0
    ensures reduced == SurplusRemoved(counts, diff0)
    ensures Keys(reduced) == Keys(counts)
    ensures NonNegative(counts) && Total(counts) + diff0 >= 0 ==>
      NonNegative(reduced) && Total(reduced) == Total(counts) + diff0 &&
      forall i :: 0 <= i < |counts| ==> reduced[i].1 <= counts[i].1
  {
    var sortedStates := ByCount(counts);
    reduced := RemoveInOrder(counts, sortedStates, diff0);
    SurplusRemovedSound(counts, diff0);
  }

  /** The loop of the `diff < 0` branch over the states in the given order. */
  method RemoveInOrder(counts: Counts, order: Counts, diff0: int) returns (reduced: Counts)
    ensures reduced == RemovedInOrder(counts, order, 0, diff0)
  {
    reduced := counts;
    var diff := diff0;
    var j := 0;
    while j < |order| && diff != 0
      invariant j <= |order|
      invariant RemovedInOrder(reduced, order, j, diff) == RemovedInOrder(counts, order, 0, diff0)
    {
      ghost var before, diffBefore := reduced, diff;
      var state := order[j].0;
      var count := order[j].1;
      var remove := Min(-diff, count);
      reduced := Assign(reduced, state, Get(reduced, state, 0) - remove);
      diff := diff + remove;
      j := j + 1;
      RemovedInOrderStep(before, reduced, order, j - 1, diffBefore, diff);
    }
  }

  /** One iteration of the removal loop is one step of RemovedInOrder. */
  lemma RemovedInOrderStep(before: Counts, after: Counts, order: Counts, j: nat, diffBefore: int, diffAfter: int)
    requires j < |order| && diffBefore != 0
    requires after == Assign(before, order[j].0, Get(before, order[j].0, 0) - Min(-diffBefore, order[j].1))
    requires diffAfter == diffBefore + Min(-diffBefore, order[j].1)
    ensures RemovedInOrder(before, order, j, diffBefore) == RemovedInOrder(after, order, j + 1, diffAfter)
  {
  }

  /** The counts after removing surplus -diff0 from counts keep the
      states and, when the surplus can be removed (good), are non-negative,
      within the original ones and add up to the original total less the
      surplus. */
  ghost predicate RemovalOutcome(counts: Counts, diff0: int, good: bool, reduced: Counts)
  {
    SameKeys(counts, reduced) &&
    (good ==> WithinOriginal(counts, reduced) && Total(reduced) == Total(counts) + diff0)
  }

  /** The surplus removal keeps the states and, when the surplus can be
      removed, reduces the total by exactly the surplus without raising any
      count or making one negative. */
  lemma SurplusRemovedSound(counts: Counts, diff0: int)
    requires UniqueKeys(counts)
    requires diff0 < 0
    ensures var reduced := SurplusRemoved(counts, diff0);
      Keys(reduced) == Keys(counts) &&
      (NonNegative(counts) && Total(counts) + diff0 >= 0 ==>
         NonNegative(reduced) && Total(reduced) == Total(counts) + diff0 &&
         forall i :: 0 <= i < |counts| ==> reduced[i].1 <= counts[i].1)
  {
    var good := NonNegative(counts) && Total(counts) + diff0 >= 0;
    var sortedStates := ByCount(counts);
    PermutedUniqueKeys(counts, sortedStates);
    var pos := FindPositions(counts, sortedStates);
    RemovalStart(counts, sortedStates, pos, diff0, good);
    RemovedInOrderSound(counts, sortedStates, pos, counts, diff0, diff0, 0, good);
    OutcomeStated(counts, diff0, good, SurplusRemoved(counts, diff0));
  }

  /** The removal outcome, spelled out. */
  lemma OutcomeStated(counts: Counts, diff0: int, good: bool, reduced: Counts)
    requires RemovalOutcome(counts, diff0, good, reduced)
    ensures Keys(reduced) == Keys(counts)
    ensures good ==>
      NonNegative(reduced) && Total(reduced) == Total(counts) + diff0 &&
      forall i :: 0 <= i < |counts| ==> reduced[i].1 <= counts[i].1
  {
    assert Keys(reduced) == Keys(counts);
  }

  /** From the loop invariant after j states, the rest of the removal ends
      in the outcome above. */
  lemma {:induction false} RemovedInOrderSound(counts: Counts, sortedStates: Counts, pos: seq<nat>, reduced: Counts,
                                               diff: int, diff0: int, j: nat, good: bool)
    requires UniqueKeys(counts) && UniqueKeys(sortedStates) && multiset(sortedStates) == multiset(counts)
    requires good <==> NonNegative(counts) && Total(counts) + diff0 >= 0
    requires Removing(counts, sortedStates, pos, reduced, diff, diff0, j, good)
    ensures RemovalOutcome(counts, diff0, good, RemovedInOrder(reduced, sortedStates, j, diff))
    decreases |sortedStates| - j
  {
    if j >= |sortedStates| || diff == 0 {
      RemovalFinished(counts, sortedStates, pos, reduced, diff, diff0, j, good);
    } else {
      var remove := Min(-diff, sortedStates[j].1);
      var after := Assign(reduced, sortedStates[j].0, Get(reduced, sortedStates[j].0, 0) - remove);
      RemovalStep(counts, sortedStates, pos, reduced, diff, diff0, j, remove, good);
      RemovedInOrderSound(counts, sortedStates, pos, after, diff + remove, diff0, j + 1, good);
      OutcomeStep(counts, diff0, good, reduced, sortedStates, j, diff);
    }
  }

  /** The outcome of the removal from the j-th state on is that of the
      removal after it. */
  lemma OutcomeStep(counts: Counts, diff0: int, good: bool, reduced: Counts, order: Counts, j: nat, diff: int)
    requires j < |order| && diff != 0
    requires var remove := Min(-diff, order[j].1);
      RemovalOutcome(counts, diff0, good,
        RemovedInOrder(Assign(reduced, order[j].0, Get(reduced, order[j].0, 0) - remove), order, j + 1, diff + remove))
    ensures RemovalOutcome(counts, diff0, good, RemovedInOrder(reduced, order, j, diff))
  {
  }

  /** Once every state is visited or nothing is left to remove, the
      removal is over and its outcome is the loop's. */
  lemma RemovalFinished(counts: Counts, sortedStates: Counts, pos: seq<nat>, reduced: Counts,
                        diff: int, diff0: int, j: nat, good: bool)
    requires UniqueKeys(counts) && multiset(sortedStates) == multiset(counts)
    requires good <==> NonNegative(counts) && Total(counts) + diff0 >= 0
    requires Removing(counts, sortedStates, pos, reduced, diff, diff0, j, good)
    requires j >= |sortedStates| || diff == 0
    ensures RemovalOutcome(counts, diff0, good, RemovedInOrder(reduced, sortedStates, j, diff))
  {
    RemovalDone(counts, sortedStates, pos, reduced, diff, diff0, j, good);
  }

  /** Before any removal the invariant holds. */
  lemma RemovalStart(counts: Counts, sortedStates: Counts, pos: seq<nat>, diff0: int, good: bool)
    requires Positions(counts, sortedStates, pos) && diff0 < 0
    requires good ==> NonNegative(counts)
    ensures Removing(counts, sortedStates, pos, counts, diff0, diff0, 0, good)
  {
    forall t | 0 <= t < |sortedStates|
      ensures counts[pos[t]].1 == sortedStates[t].1
    {
    }
  }

  /** When the loop stops, the keys are in place and, from non-negative
      counts whose total covers the surplus, all of it was removed. */
  lemma RemovalDone(counts: Counts, sortedStates: Counts, pos: seq<nat>, reduced: Counts,
                    diff: int, diff0: int, j: nat, good: bool)
    requires UniqueKeys(counts) && multiset(sortedStates) == multiset(counts)
    requires Removing(counts, sortedStates, pos, reduced, diff, diff0, j, good)
    requires j >= |sortedStates| || diff == 0
    requires good <==> NonNegative(counts) && Total(counts) + diff0 >= 0
    ensures Keys(reduced) == Keys(counts)
    ensures good ==>
      NonNegative(reduced) && Total(reduced) == Total(counts) + diff0 &&
      forall i :: 0 <= i < |counts| ==> reduced[i].1 <= counts[i].1
  {
    assert Keys(reduced) == Keys(counts);
    if good && diff != 0 {
      AllRemoved(counts, sortedStates, pos, reduced);
      assert false;
    }
  }

  /** pos[t] is the place among the original entries of the t-th
      reordered entry. */
  ghost predicate Positions(counts: Counts, sortedStates: Counts, pos: seq<nat>)
  {
    |pos| == |sortedStates| &&
    forall t :: 0 <= t < |pos| ==> pos[t] < |counts| && counts[pos[t]] == sortedStates[t]
  }

  /** Every reordered entry has a place among the original ones. */
  lemma {:induction false} FindPositions(counts: Counts, sortedStates: Counts) returns (pos: seq<nat>)
    requires multiset(sortedStates) <= multiset(counts)
    ensures Positions(counts, sortedStates, pos)
    decreases |sortedStates|
  {
    if sortedStates == [] {
      pos := [];
    } else {
      var n := |sortedStates| - 1;
      assert sortedStates == sortedStates[..n] + [sortedStates[n]];
      var front := FindPositions(counts, sortedStates[..n]);
      assert sortedStates[n] in multiset(counts);
      var k :| 0 <= k < |counts| && counts[k] == sortedStates[n];
      pos := front + [k];
    }
  }

  /** The loop invariant of RemoveSurplus after j states: the keys stay in
      place, the total has lost what was removed, the states still to come
      hold their original counts and, from non-negative counts whose total
      covers the surplus, every count stays within [0, original] and the
      states visited while surplus remains have been emptied. */
  ghost predicate Removing(counts: Counts, sortedStates: Counts, pos: seq<nat>, reduced: Counts,
                           diff: int, diff0: int, j: nat, good: bool)
  {
    Positions(counts, sortedStates, pos) && j <= |sortedStates| && diff <= 0 &&
    SameKeys(counts, reduced) &&
    Total(reduced) == Total(counts) + diff0 - diff &&
    (forall t :: j <= t < |sortedStates| ==> reduced[pos[t]].1 == sortedStates[t].1) &&
    (good ==> WithinOriginal(counts, reduced)) &&
    (good && diff < 0 ==> forall t :: 0 <= t < j ==> reduced[pos[t]].1 == 0)
  }

  /** The same keys in the same places. */
  ghost predicate SameKeys(counts: Counts, reduced: Counts)
  {
    |reduced| == |counts| && forall i :: 0 <= i < |counts| ==> reduced[i].0 == counts[i].0
  }

  /** Every count lies between 0 and the original one. */
  ghost predicate WithinOriginal(counts: Counts, reduced: Counts)
  {
    |reduced| == |counts| && NonNegative(reduced) &&
    forall i :: 0 <= i < |counts| ==> reduced[i].1 <= counts[i].1
  }

  /** One removal keeps the loop invariant. */
  lemma RemovalStep(counts: Counts, sortedStates: Counts, pos: seq<nat>, before: Counts,
                    diffBefore: int, diff0: int, j: nat, remove: int, good: bool)
    requires UniqueKeys(counts) && UniqueKeys(sortedStates)
    requires good ==> NonNegative(counts)
    requires Removing(counts, sortedStates, pos, before, diffBefore, diff0, j, good)
    requires j < |sortedStates| && diffBefore < 0
    requires remove == Min(-diffBefore, sortedStates[j].1)
    ensures Removing(counts, sortedStates, pos,
      Assign(before, sortedStates[j].0, Get(before, sortedStates[j].0, 0) - remove), diffBefore + remove, diff0, j + 1, good)
  {
    var after := Assign(before, sortedStates[j].0, Get(before, sortedStates[j].0, 0) - remove);
    var diffAfter := diffBefore + remove;
    var p := pos[j];
    var state := sortedStates[j].0;
    assert before[p] == (state, sortedStates[j].1);
    assert UniqueKeys(before) by {
      assert forall a, b :: 0 <= a < b < |before| ==> before[a].0 == counts[a].0 && before[b].0 == counts[b].0;
    }
    GetAt(before, p, 0);
    AssignAt(before, p, Get(before, state, 0) - remove);
    RemovalUpdate(counts, sortedStates, pos, before, after, diffBefore, diffAfter, diff0, j, remove, good);
  }

  /** The removal as an update of the entry in place. */
  lemma RemovalUpdate(counts: Counts, sortedStates: Counts, pos: seq<nat>, before: Counts, after: Counts,
                      diffBefore: int, diffAfter: int, diff0: int, j: nat, remove: int, good: bool)
    requires UniqueKeys(sortedStates)
    requires good ==> NonNegative(counts)
    requires Removing(counts, sortedStates, pos, before, diffBefore, diff0, j, good)
    requires j < |sortedStates| && diffBefore < 0
    requires remove == Min(-diffBefore, sortedStates[j].1)
    requires after == before[pos[j] := (sortedStates[j].0, sortedStates[j].1 - remove)]
    requires diffAfter == diffBefore + remove
    ensures Removing(counts, sortedStates, pos, after, diffAfter, diff0, j + 1, good)
  {
    var p := pos[j];
    TotalUpdate(before, p, (sortedStates[j].0, sortedStates[j].1 - remove));
    forall t | j + 1 <= t < |sortedStates|
      ensures after[pos[t]].1 == sortedStates[t].1
    {
      assert sortedStates[t].0 != sortedStates[j].0;
    }
    if good {
      assert 0 <= remove <= sortedStates[j].1 by {
        assert counts[p].1 >= 0;
      }
      if diffAfter < 0 {
        forall t | 0 <= t < j + 1
          ensures after[pos[t]].1 == 0
        {
          if t < j {
            assert sortedStates[t].0 != sortedStates[j].0;
          }
        }
      }
    }
  }

  /** When the loop has visited every state with surplus still left, every
      state was emptied. */
  lemma AllRemoved(counts: Counts, sortedStates: Counts, pos: seq<nat>, reduced: Counts)
    requires UniqueKeys(counts) && multiset(sortedStates) == multiset(counts)
    requires Positions(counts, sortedStates, pos) && |reduced| == |counts|
    requires forall t :: 0 <= t < |sortedStates| ==> reduced[pos[t]].1 == 0
    ensures Total(reduced) == 0
  {
    forall i | 0 <= i < |reduced|
      ensures reduced[i].1 == 0
    {
      var t := PositionOf(counts, sortedStates, pos, i);
    }
    ZeroTotal(reduced);
  }

  /** Every original entry is some reordered one. */
  lemma PositionOf(counts: Counts, sortedStates: Counts, pos: seq<nat>, i: nat) returns (t: nat)
    requires UniqueKeys(counts) && multiset(sortedStates) == multiset(counts)
    requires Positions(counts, sortedStates, pos) && i < |counts|
    ensures t < |sortedStates| && pos[t] == i
  {
    assert counts[i] in multiset(counts);
    assert counts[i] in multiset(sortedStates);
    t :| 0 <= t < |sortedStates| && sortedStates[t] == counts[i];
    assert counts[pos[t]].0 == counts[i].0;
  }

  /** The count-renormalisation block of `test_observable`: probabilities
      become `int(prob * total_shots)` counts; a shortfall goes to the first
      most frequent state (`max` of an empty dictionary raises ValueError)
      and a surplus is removed smallest counts first.  Counts that already
      add up are left alone; from non-negative probabilities and a
      non-negative shot total the result is non-negative counts adding up
      to exactly the shot total. */
  method Renormalize(mitigatedProbs: Dict<real>, totalShots: int) returns (r: Result<Counts>)
    requires UniqueKeys(mitigatedProbs)
    ensures r.Failure? <==> mitigatedProbs == [] && totalShots > 0
    ensures r.Failure? ==> r.error == ValueError
    ensures r.Success? ==> Keys(r.value) == Keys(mitigatedProbs)
    ensures r == Renormalized(mitigatedProbs, totalShots)
    ensures Total(Scaled(mitigatedProbs, totalShots as real)) == totalShots ==>
      r == Success(Scaled(mitigatedProbs, totalShots as real))
    ensures totalShots >= 0 && NonNegativeReal(mitigatedProbs) ==>
      r.Success? ==> NonNegative(r.value) && Total(r.value) == totalShots
  {
    var counts := Scaled(mitigatedProbs, totalShots as real);
    SameKeysUnique(mitigatedProbs, counts);
    ScaledNonNegative(mitigatedProbs, totalShots);
    r := MatchTotal(counts, totalShots);
  }

  /** The correction of the scaled counts to the shot total: a shortfall
      goes to the first most frequent state (`max` of an empty dictionary
      raises ValueError), a surplus is removed smallest counts first, and
      counts that already add up are left alone. */
  method MatchTotal(counts: Counts, totalShots: int) returns (r: Result<Counts>)
    requires UniqueKeys(counts)
    ensures r == MatchedTotal(counts, totalShots)
    ensures r.Failure? <==> counts == [] && totalShots > 0
    ensures r.Failure? ==> r.error == ValueError
    ensures r.Success? ==> Keys(r.value) == Keys(counts)
    ensures Total(counts) == totalShots ==> r == Success(counts)
    ensures totalShots >= 0 && NonNegative(counts) && r.Success? ==>
      NonNegative(r.value) && Total(r.value) == totalShots
  {
    var totalMitigated := Total(counts);
    var diff := totalShots - totalMitigated;
    if diff == 0 {
      r := Success(counts);
    } else if diff > 0 {
      if counts == [] {
        r := Failure(ValueError);
      } else {
        var maxState := counts[MostFrequentIndex(counts)].0;
        r := Success(Assign(counts, maxState, Get(counts, maxState, 0) + diff));
      }
    } else {
      var reduced := RemoveSurplus(counts, diff);
      r := Success(reduced);
    }
    MatchedTotalSound(counts, totalShots);
  }

  /** The correction fails, with ValueError, exactly on empty counts short
      of a positive shot total; it keeps the states, leaves counts that
      already add up alone and, from non-negative counts and a non-negative
      shot total, gives non-negative counts adding up to the shot total. */
  lemma MatchedTotalSound(counts: Counts, totalShots: int)
    requires UniqueKeys(counts)
    ensures var r := MatchedTotal(counts, totalShots);
      (r.Failure? <==> counts == [] && totalShots > 0) &&
      (r.Failure? ==> r.error == ValueError) &&
      (r.Success? ==> Keys(r.value) == Keys(counts)) &&
      (Total(counts) == totalShots ==> r == Success(counts)) &&
      (totalShots >= 0 && NonNegative(counts) && r.Success? ==>
         NonNegative(r.value) && Total(r.value) == totalShots)
  {
    var diff := totalShots - Total(counts);
    if diff > 0 && counts != [] {
      ShortfallMatched(counts, totalShots);
    } else if diff < 0 {
      SurplusMatched(counts, totalShots);
    }
  }

  /** A shortfall on non-empty counts goes to the first most frequent
      state: the states stay and the total becomes the shot total. */
  lemma ShortfallMatched(counts: Counts, totalShots: int)
    requires UniqueKeys(counts) && counts != [] && Total(counts) < totalShots
    ensures var r := MatchedTotal(counts, totalShots);
      r.Success? && Keys(r.value) == Keys(counts) && Total(r.value) == totalShots &&
      (NonNegative(counts) ==> NonNegative(r.value))
  {
    var diff := totalShots - Total(counts);
    var best := MostFrequentIndex(counts);
    var raised := Assign(counts, counts[best].0, Get(counts, counts[best].0, 0) + diff);
    RaiseAt(counts, best, diff);
    assert MatchedTotal(counts, totalShots) == Success(raised);
  }

  /** A surplus is removed: the states stay and, from non-negative counts
      and a non-negative shot total, the total becomes the shot total with
      no count negative. */
  lemma SurplusMatched(counts: Counts, totalShots: int)
    requires UniqueKeys(counts) && Total(counts) > totalShots
    ensures var r := MatchedTotal(counts, totalShots);
      r.Success? && Keys(r.value) == Keys(counts) &&
      (NonNegative(counts) && totalShots >= 0 ==> NonNegative(r.value) && Total(r.value) == totalShots)
  {
    SurplusRemovedSound(counts, totalShots - Total(counts));
  }

  /** Raising the count of the i-th state keeps the keys in place and
      raises the total by as much. */
  lemma RaiseAt(counts: Counts, i: nat, diff: int)
    requires UniqueKeys(counts) && i < |counts|
    ensures var raised := Assign(counts, counts[i].0, Get(counts, counts[i].0, 0) + diff);
      Keys(raised) == Keys(counts) && Total(raised) == Total(counts) + diff &&
      (NonNegative(counts) && diff >= 0 ==> NonNegative(raised))
  {
    GetAt(counts, i, 0);
    var x := Get(counts, counts[i].0, 0) + diff;
    AssignAt(counts, i, x);
    TotalUpdate(counts, i, (counts[i].0, x));
    KeysKept(counts, i, x);
  }

  /** Scaling non-negative probabilities by a non-negative total gives
      non-negative counts. */
  lemma ScaledNonNegative(probs: Dict<real>, totalShots: int)
    ensures totalShots >= 0 && NonNegativeReal(probs) ==>
      NonNegative(Scaled(probs, totalShots as real))
  {
    if totalShots >= 0 && NonNegativeReal(probs) {
      forall i | 0 <= i < |probs|
        ensures ScaledCount(probs[i].1, totalShots as real) >= 0
      {
        assert probs[i].1 * totalShots as real >= 0.0;
      }
    }
  }

  // ------------------------------------------------ one observable

  datatype ObservableResult = ObservableResult(rawExpectation: real, mitigatedExpectation: real, improvement: real)

  /** `test_observable` from the measured counts on: the raw expectation
      value and, with mitigation, the expectation of the default-mitigated
      counts renormalised to the raw shot total. */
  method TestObservable(mitigator: Mitigation.ErrorMitigation, rawCounts: Counts, observable: string,
                        numQubits: nat, useMitigation: bool) returns (r: Result<ObservableResult>)
    ensures var raw := ExpectationValue(rawCounts, observable, numQubits);
      !useMitigation ==> r == Success(ObservableResult(raw, raw, 0.0))
    ensures useMitigation && rawCounts == [] ==> r == Failure(StopIteration)
    ensures r.Success? ==>
      r.value.rawExpectation == ExpectationValue(rawCounts, observable, numQubits) &&
      r.value.improvement == r.value.mitigatedExpectation - r.value.rawExpectation
    ensures useMitigation && r.Success? ==>
      var probs := mitigator.ApplyAllMitigation(rawCounts, false, false, true, true, "ghz");
      var counts := Renormalized(probs.value, Total(rawCounts));
      probs.Success? && counts.Success? &&
      r.value.mitigatedExpectation == ExpectationValue(counts.value, observable, numQubits)
    ensures r.Success? && numQubits >= 1 && NonNegative(rawCounts) ==>
      -1.0 <= r.value.rawExpectation <= 1.0 && -1.0 <= r.value.mitigatedExpectation <= 1.0
    ensures useMitigation && rawCounts != [] ==>
      var n := |rawCounts[0].0|;
      (r.Failure? <==> Get(rawCounts, Zeros(n), 0) < 1 && Get(rawCounts, Ones(n), 0) < 1 && Total(rawCounts) > 0) &&
      (r.Failure? ==> r.error == ValueError)
  {
    var rawExpectation := ExpectationValue(rawCounts, observable, numQubits);
    if numQubits >= 1 && NonNegative(rawCounts) {
      ExpectationBounded(rawCounts, observable, numQubits);
    }
    if !useMitigation {
      return Success(ObservableResult(rawExpectation, rawExpectation, 0.0));
    }
    if rawCounts == [] {
      assert mitigator.ApplyAllMitigation(rawCounts, false, false, true, true, "ghz") == Failure(StopIteration);
      return Failure(StopIteration);
    }
    Mitigation.DefaultMitigation(mitigator, rawCounts);
    Mitigation.DefaultMitigationEmpty(mitigator, rawCounts);
    var mitigatedProbs := mitigator.ApplyAllMitigation(rawCounts, false, false, true, true, "ghz");
    var totalShots := Total(rawCounts);
    RenormalizedFails(mitigatedProbs.value, totalShots);
    var mitigatedCounts := Renormalize(mitigatedProbs.value, totalShots);
    if mitigatedCounts.Failure? {
      return Failure(mitigatedCounts.error);
    }
    var mitigatedExpectation := ExpectationValue(mitigatedCounts.value, observable, numQubits);
    if numQubits >= 1 && NonNegative(rawCounts) {
      TotalNonNegative(rawCounts);
      ExpectationBounded(mitigatedCounts.value, observable, numQubits);
    }
    r := Success(ObservableResult(rawExpectation, mitigatedExpectation, mitigatedExpectation - rawExpectation));
  }

  // ------------------------------------------------ the Mermin parameter

  function Abs(x: real): real { if x < 0.0 then -x else x }

  /** M = E(XXX) - E(XYY) - E(YXY) - E(YYX) */
  function MerminParameter(eXXX: real, eXYY: real, eYXY: real, eYYX: real): real
  {
    eXXX - eXYY - eYXY - eYYX
  }

  /** The gap to a violation of the local bound 2: |M| - 2. */
  function Violation(m: real): real
  {
    Abs(m) - 2.0
  }

  /** Expectation values computed from any non-negative counts keep |M|
      within 4, so the violation gap never exceeds 2. */
  lemma MerminBounded(cXXX: Counts, cXYY: Counts, cYXY: Counts, cYYX: Counts, numQubits: nat)
    requires numQubits >= 1
    requires NonNegative(cXXX) && NonNegative(cXYY) && NonNegative(cYXY) && NonNegative(cYYX)
    ensures var m := MerminParameter(ExpectationValue(cXXX, "XXX", numQubits), ExpectationValue(cXYY, "XYY", numQubits),
                                     ExpectationValue(cYXY, "YXY", numQubits), ExpectationValue(cYYX, "YYX", numQubits));
      -4.0 <= m <= 4.0 && Violation(m) <= 2.0
  {
    ExpectationBounded(cXXX, "XXX", numQubits);
    ExpectationBounded(cXYY, "XYY", numQubits);
    ExpectationBounded(cYXY, "YXY", numQubits);
    ExpectationBounded(cYYX, "YYX", numQubits);
  }

  // ------------------------------------------------ basis selection

  /** `int(np.ceil(np.log2(n)))` for n >= 1: the fewest bits that can
      number n choices. */
  function BitsNeeded(n: nat): (b: nat)
    requires n >= 1
    ensures Pow2(b) >= n
    ensures b == 0 || Pow2(b - 1) < n
  {
    if n == 1 then 0 else 1 + BitsNeeded((n + 1) / 2)
  }

  /** `select_measurement_basis` as written, given the bits the random
      generator returns on the first attempt when asked for BitsNeeded
      bits.  With no bases the logarithm is minus infinity and `int()` of
      it raises OverflowError; otherwise the bits are read with
      `int(bits, 2)`, which raises ValueError on an empty string, and the
      index modulo the number of bases is always in range, so the first
      attempt returns. */
  function SelectMeasurementBasis(bases: seq<string>, randomBits: string): (r: Result<string>)
    ensures |bases| == 0 ==> r == Failure(OverflowError)
    ensures |bases| >= 1 ==> (r.Failure? <==> randomBits == [] || !IsBinary(randomBits))
    ensures r.Failure? ==> r.error == OverflowError || r.error == ValueError
    ensures r.Success? ==> r.value in bases
  {
    if |bases| == 0 then Failure(OverflowError)
    else
      var value := ParseBinary(randomBits);
      if value.Failure? then Failure(value.error) else Success(bases[value.value % |bases|])
  }

  /** With a single basis BitsNeeded is 0, so a generator that returns the
      requested number of bits returns the empty string and the selection
      raises instead of returning the only basis; the Mermin test reaches
      this on every observable in its default "per_batch" mode. */
  lemma SingleBasisRaises(basis: string, randomBits: string)
    requires |randomBits| == BitsNeeded(1)
    ensures SelectMeasurementBasis([basis], randomBits) == Failure(ValueError)
  {
  }

  /** The evidently intended selection: one basis is returned as it is,
      several are chosen between by the drawn bits as before. */
  function SelectBasisCorrected(bases: seq<string>, randomBits: string): (r: Result<string>)
    requires |bases| >= 1
    ensures |bases| == 1 ==> r == Success(bases[0])
    ensures |bases| >= 2 ==> r == SelectMeasurementBasis(bases, randomBits)
  {
    if |bases| == 1 then Success(bases[0]) else SelectMeasurementBasis(bases, randomBits)
  }

  /** With the correction, a generator that honours the requested width
      always yields a basis from the list, for one basis as for many. */
  lemma CorrectedSelectionSucceeds(bases: seq<string>, randomBits: string)
    requires |bases| >= 1
    requires |randomBits| == BitsNeeded(|bases|) && IsBinary(randomBits)
    ensures SelectBasisCorrected(bases, randomBits).Success?
    ensures SelectBasisCorrected(bases, randomBits).value in bases
  {
    if |bases| >= 2 {
      assert BitsNeeded(|bases|) >= 1;
    }
  }
}
