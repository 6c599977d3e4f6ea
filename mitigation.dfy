/** Error mitigation on measurement counts: symmetry verification and
    post-selection as dictionary filters, normalisation to probabilities,
    the calibration matrix and the combined pipeline. */
module Mitigation {
  import opened Wrappers
  import opened Dicts

  // ------------------------------------------------ normalisation

  /** `{state: count / total for state, count in counts.items()}` with
      `total = sum(counts.values())`: the division fails only when there is
      an entry to divide and the total is zero. */
  function Probabilities(counts: Counts): (r: Result<Dict<real>>)
    ensures r.Failure? <==> counts != [] && Total(counts) == 0
    ensures r.Failure? ==> r.error == ZeroDivisionError
    ensures r.Success? ==> Keys(r.value) == Keys(counts)
    ensures r.Success? ==> forall i :: 0 <= i < |counts| ==>
      r.value[i].1 == counts[i].1 as real / Total(counts) as real
  {
    if counts == [] then Success([])
    else if Total(counts) == 0 then Failure(ZeroDivisionError)
    else Success(Normalized(counts, Total(counts)))
  }

  /** Normalised probabilities of a non-empty dictionary add up to 1. */
  lemma ProbabilitiesSumToOne(counts: Counts)
    ensures Probabilities(counts).Success? && counts != [] ==> TotalReal(Probabilities(counts).value) == 1.0
  {
    if counts != [] && Total(counts) != 0 {
      NormalizedSumsToOne(counts);
    }
  }

  // ------------------------------------------------ symmetry and post-selection

  /** `symmetry_verification`: for "ghz" only the all-zero and all-one
      outcomes survive, sized by the first key (`next(iter(...))` raises on
      an empty dictionary); any other symmetry leaves the counts alone. */
  function SymmetryVerification(counts: Counts, expectedSymmetry: string): (r: Result<Counts>)
    ensures r.Failure? <==> expectedSymmetry == "ghz" && counts == []
    ensures r.Failure? ==> r.error == StopIteration
    ensures expectedSymmetry != "ghz" ==> r == Success(counts)
    ensures expectedSymmetry == "ghz" && counts != [] && |counts[0].0| > 0 ==>
      var n := |counts[0].0|;
      r == Success([(Zeros(n), Get(counts, Zeros(n), 0)), (Ones(n), Get(counts, Ones(n), 0))])
    ensures expectedSymmetry == "ghz" && counts != [] && |counts[0].0| == 0 ==>
      r == Success([("", Get(counts, "", 0))])
  {
    if expectedSymmetry != "ghz" then Success(counts)
    else if counts == [] then Failure(StopIteration)
    else
      var n := |counts[0].0|;
      assert n > 0 ==> Zeros(n)[0] != Ones(n)[0];
      assert n == 0 ==> Zeros(n) == Ones(n) == "";
      PairDisplay(Zeros(n), Get(counts, Zeros(n), 0), Ones(n), Get(counts, Ones(n), 0));
      Success(Assign(Assign([], Zeros(n), Get(counts, Zeros(n), 0)), Ones(n), Get(counts, Ones(n), 0)))
  }

  /** `post_selection`: the entries whose state is valid and whose count
      reaches the threshold, in their original order with their counts. */
  function PostSelection(counts: Counts, validStates: seq<string>, minCount: int): (r: Counts)
    ensures |r| <= |counts|
    ensures forall i :: 0 <= i < |r| ==> r[i] in counts && r[i].0 in validStates && r[i].1 >= minCount
  {
    if counts == [] then []
    else
      var rest := PostSelection(counts[1..], validStates, minCount);
      if counts[0].0 in validStates && counts[0].1 >= minCount then [counts[0]] + rest else rest
  }

  /** Nothing that meets both conditions is dropped. */
  lemma {:induction false} PostSelectionKeeps(counts: Counts, validStates: seq<string>, minCount: int, e: (string, int))
    requires e in counts && e.0 in validStates && e.1 >= minCount
    ensures e in PostSelection(counts, validStates, minCount)
  {
    if counts[0] != e {
      PostSelectionKeeps(counts[1..], validStates, minCount, e);
    }
  }

  /** Filtering a dictionary leaves a dictionary. */
  lemma {:induction false} PostSelectionUnique(counts: Counts, validStates: seq<string>, minCount: int)
    requires UniqueKeys(counts)
    ensures UniqueKeys(PostSelection(counts, validStates, minCount))
  {
    if counts != [] {
      var tail := counts[1..];
      assert UniqueKeys(tail) by {
        forall a, b | 0 <= a < b < |tail|
          ensures tail[a].0 != tail[b].0
        {
          assert tail[a] == counts[a + 1] && tail[b] == counts[b + 1];
        }
      }
      PostSelectionUnique(tail, validStates, minCount);
      var rest := PostSelection(tail, validStates, minCount);
      forall i | 0 <= i < |rest|
        ensures rest[i].0 != counts[0].0
      {
        var j :| 0 <= j < |tail| && tail[j] == rest[i];
        assert counts[j + 1] == rest[i];
      }
    }
  }

  // ------------------------------------------------ fidelity improvement

  /** `sum(d.get(s, 0) for s in states)`, duplicates counted each time. */
  function SumCounts(d: Counts, states: seq<string>): int
  {
    if states == [] then 0 else Get(d, states[0], 0) + SumCounts(d, states[1..])
  }

  /** `sum(d.get(s, 0.0) for s in states)` */
  function SumProbabilities(d: Dict<real>, states: seq<string>): real
  {
    if states == [] then 0.0 else Get(d, states[0], 0.0) + SumProbabilities(d, states[1..])
  }

  /** `estimate_fidelity_improvement`: mitigated fidelity minus raw
      fidelity, the raw one being 0 when the raw total is not positive. */
  function EstimateFidelityImprovement(rawCounts: Counts, mitigatedProbs: Dict<real>, expectedStates: seq<string>): (d: real)
    ensures Total(rawCounts) <= 0 ==> d == SumProbabilities(mitigatedProbs, expectedStates)
    ensures Total(rawCounts) > 0 ==>
      d == SumProbabilities(mitigatedProbs, expectedStates)
           - SumCounts(rawCounts, expectedStates) as real / Total(rawCounts) as real
  {
    var totalRaw := Total(rawCounts);
    var rawFidelity := if totalRaw > 0 then SumCounts(rawCounts, expectedStates) as real / totalRaw as real else 0.0;
    SumProbabilities(mitigatedProbs, expectedStates) - rawFidelity
  }

  lemma {:induction false} GetNormalized(d: Counts, total: int, s: string)
    requires total != 0
    ensures Get(Normalized(d, total), s, 0.0) == Get(d, s, 0) as real / total as real
  {
    if d != [] {
      assert Normalized(d, total)[1..] == Normalized(d[1..], total);
      GetNormalized(d[1..], total, s);
    }
  }

  lemma {:induction false} SumNormalized(d: Counts, total: int, states: seq<string>)
    requires total != 0
    ensures SumProbabilities(Normalized(d, total), states) == SumCounts(d, states) as real / total as real
  {
    if states != [] {
      GetNormalized(d, total, states[0]);
      SumNormalized(d, total, states[1..]);
      DivAdd(Get(d, states[0], 0) as real, SumCounts(d, states[1..]) as real, total as real);
    }
  }

  /** Measured against the raw probabilities themselves, which is what
      measurement error mitigation returns, the improvement is zero. */
  lemma NoImprovementFromRawProbabilities(rawCounts: Counts, expectedStates: seq<string>)
    requires Total(rawCounts) > 0
    ensures EstimateFidelityImprovement(rawCounts, Normalized(rawCounts, Total(rawCounts)), expectedStates) == 0.0
  {
    SumNormalized(rawCounts, Total(rawCounts), expectedStates);
  }

  // ------------------------------------------------ calibration matrix

  /** One row of the measurement error matrix: the measured counts of a
      prepared state normalised, or certainty of the prepared state itself
      when the counts do not add up to a positive total. */
  function MatrixRow(prepared: string, measured: Counts): (row: Dict<real>)
    ensures Total(measured) > 0 ==> Keys(row) == Keys(measured)
    ensures Total(measured) <= 0 ==> row == [(prepared, 1.0)]
  {
    if Total(measured) > 0 then Normalized(measured, Total(measured)) else [(prepared, 1.0)]
  }

  /** Every row is a probability distribution over measured states. */
  lemma MatrixRowSumsToOne(prepared: string, measured: Counts)
    ensures TotalReal(MatrixRow(prepared, measured)) == 1.0
  {
    if Total(measured) > 0 {
      NormalizedSumsToOne(measured);
    }
  }

  /** The dictionary built by `build_measurement_error_matrix`, one
      `error_matrix[prepared] = row` after another. */
  function ErrorMatrix(calibration: Dict<Counts>): Dict<Dict<real>>
  {
    if calibration == [] then []
    else
      var last := calibration[|calibration| - 1];
      Assign(ErrorMatrix(calibration[..|calibration| - 1]), last.0, MatrixRow(last.0, last.1))
  }

  /** One more calibration entry assigns its row. */
  lemma ErrorMatrixNext(calibration: Dict<Counts>, i: nat)
    requires i < |calibration|
    ensures ErrorMatrix(calibration[..i + 1])
      == Assign(ErrorMatrix(calibration[..i]), calibration[i].0, MatrixRow(calibration[i].0, calibration[i].1))
  {
    assert calibration[..i + 1][..i] == calibration[..i];
  }

  /** Each prepared state of the calibration data gets its own row, in the
      same order. */
  lemma {:induction false} ErrorMatrixRows(calibration: Dict<Counts>)
    requires UniqueKeys(calibration)
    ensures |ErrorMatrix(calibration)| == |calibration|
    ensures forall i :: 0 <= i < |calibration| ==>
      ErrorMatrix(calibration)[i] == (calibration[i].0, MatrixRow(calibration[i].0, calibration[i].1))
  {
    if calibration != [] {
      var init := calibration[..|calibration| - 1];
      var last := calibration[|calibration| - 1];
      ErrorMatrixRows(init);
      var m := ErrorMatrix(init);
      assert last.0 !in Keys(m) by {
        forall j | 0 <= j < |m|
          ensures Keys(m)[j] != last.0
        {
          assert calibration[j] == init[j];
        }
      }
    }
  }

  /** Every row of the error matrix sums to 1, whatever the calibration. */
  lemma {:induction false} ErrorMatrixStochastic(calibration: Dict<Counts>)
    ensures forall i :: 0 <= i < |ErrorMatrix(calibration)| ==> TotalReal(ErrorMatrix(calibration)[i].1) == 1.0
  {
    if calibration != [] {
      var init := calibration[..|calibration| - 1];
      var last := calibration[|calibration| - 1];
      ErrorMatrixStochastic(init);
      MatrixRowSumsToOne(last.0, last.1);
    }
  }

  // ------------------------------------------------ the mitigation object

  class ErrorMitigation {
    var measurementErrorMatrix: Option<Dict<Dict<real>>>

    constructor()
      ensures measurementErrorMatrix == None
    {
      measurementErrorMatrix := None;
    }

    /** The matrix as a Python condition: set and not empty. */
    predicate Calibrated()
      reads this
    {
      measurementErrorMatrix.Some? && measurementErrorMatrix.value != []
    }

    /** `build_measurement_error_matrix` */
    method BuildMeasurementErrorMatrix(calibration: Dict<Counts>)
      modifies this
      ensures measurementErrorMatrix == Some(ErrorMatrix(calibration))
    {
      var errorMatrix: Dict<Dict<real>> := [];
      for i := 0 to |calibration|
        invariant errorMatrix == ErrorMatrix(calibration[..i])
      {
        var prepared := calibration[i].0;
        var measured := calibration[i].1;
        var total := Total(measured);
        ErrorMatrixNext(calibration, i);
        if total > 0 {
          errorMatrix := Assign(errorMatrix, prepared, Normalized(measured, total));
        } else {
          errorMatrix := Assign(errorMatrix, prepared, [(prepared, 1.0)]);
        }
      }
      assert calibration[..|calibration|] == calibration;
      measurementErrorMatrix := Some(errorMatrix);
    }

    /** `apply_measurement_error_mitigation`: both branches return the raw
        normalised probabilities; the matrix is never applied. */
    function ApplyMeasurementErrorMitigation(rawCounts: Counts): (r: Result<Dict<real>>)
      reads this
      ensures r.Failure? <==> rawCounts != [] && Total(rawCounts) == 0
      ensures r.Success? ==> Keys(r.value) == Keys(rawCounts)
      ensures r.Success? && rawCounts != [] ==> TotalReal(r.value) == 1.0
    {
      ProbabilitiesSumToOne(rawCounts);
      if measurementErrorMatrix.None? then Probabilities(rawCounts)
      else Probabilities(rawCounts)
    }

    /** Step 3 of `apply_all_mitigation`: probabilities scaled to
        thousandths, passed through measurement error mitigation and scaled
        to thousandths again. */
    function MemCounts(counts: Counts): (r: Result<Counts>)
      reads this
      ensures r.Success? ==> Keys(r.value) == Keys(counts)
    {
      var probs := Probabilities(counts);
      if probs.Failure? then Failure(probs.error)
      else
        var mitigated := ApplyMeasurementErrorMitigation(Scaled(probs.value, 1000.0));
        if mitigated.Failure? then Failure(mitigated.error)
        else Success(Scaled(mitigated.value, 1000.0))
    }

    /** The counts `apply_all_mitigation` is left with before its final
        normalisation. */
    function MitigatedCounts(rawCounts: Counts, useMem: bool, useSymmetry: bool, usePostSelection: bool,
                             expectedSymmetry: string): (r: Result<Counts>)
      reads this
      ensures r.Failure? ==> r.error == StopIteration || r.error == ZeroDivisionError
      ensures !useSymmetry && !usePostSelection && !(useMem && Calibrated()) ==> r == Success(rawCounts)
    {
      var symmetric := if useSymmetry then SymmetryVerification(rawCounts, expectedSymmetry) else Success(rawCounts);
      if symmetric.Failure? then Failure(symmetric.error)
      else
        var selected := if usePostSelection then PostSelection(symmetric.value, Keys(symmetric.value), 1)
                        else symmetric.value;
        if useMem && Calibrated() then MemCounts(selected) else Success(selected)
    }

    /** `apply_all_mitigation`; zero-noise extrapolation is a no-op there. */
    function ApplyAllMitigation(rawCounts: Counts, useZne: bool, useMem: bool, useSymmetry: bool,
                                usePostSelection: bool, expectedSymmetry: string): (r: Result<Dict<real>>)
      reads this
      ensures r.Failure? <==> MitigatedCounts(rawCounts, useMem, useSymmetry, usePostSelection, expectedSymmetry).Failure?
      ensures r.Success? ==>
        var counts := MitigatedCounts(rawCounts, useMem, useSymmetry, usePostSelection, expectedSymmetry).value;
        (Total(counts) > 0 ==> r.value == Normalized(counts, Total(counts)) && TotalReal(r.value) == 1.0) &&
        (Total(counts) <= 0 ==> r.value == [])
    {
      var counts := MitigatedCounts(rawCounts, useMem, useSymmetry, usePostSelection, expectedSymmetry);
      if counts.Failure? then Failure(counts.error)
      else
        var total := Total(counts.value);
        if total > 0 then
          NormalizedSumsToOne(counts.value);
          Success(Normalized(counts.value, total))
        else Success([])
    }
  }

  /** With the default flags (symmetry and post-selection on, "ghz") a
      non-empty set of counts becomes a distribution over the all-zero and
      all-one outcomes with positive probabilities adding up to 1, or the
      empty dictionary when neither outcome was seen. */
  lemma DefaultMitigation(mitigation: ErrorMitigation, rawCounts: Counts)
    requires rawCounts != []
    ensures var n := |rawCounts[0].0|;
      var r := mitigation.ApplyAllMitigation(rawCounts, false, false, true, true, "ghz");
      r.Success? && UniqueKeys(r.value) &&
      (forall i :: 0 <= i < |r.value| ==> (r.value[i].0 == Zeros(n) || r.value[i].0 == Ones(n)) && r.value[i].1 > 0.0) &&
      (r.value == [] || TotalReal(r.value) == 1.0)
  {
    var n := |rawCounts[0].0|;
    var symmetric := SymmetryVerification(rawCounts, "ghz").value;
    var selected := PostSelection(symmetric, Keys(symmetric), 1);
    assert mitigation.MitigatedCounts(rawCounts, false, true, true, "ghz") == Success(selected);
    GhzKeys(symmetric, selected, n);
    PositiveTotal(selected);
    assert UniqueKeys(symmetric) by {
      assert n > 0 ==> Zeros(n)[0] != Ones(n)[0];
    }
    PostSelectionUnique(symmetric, Keys(symmetric), 1);
    var r := mitigation.ApplyAllMitigation(rawCounts, false, false, true, true, "ghz");
    if selected != [] {
      NormalizedPositive(selected);
      SameKeysUnique(selected, r.value);
    }
  }

  /** With the default flags the distribution is empty exactly when
      neither the all-zero nor the all-one outcome was counted at least
      once. */
  lemma DefaultMitigationEmpty(mitigation: ErrorMitigation, rawCounts: Counts)
    requires rawCounts != []
    ensures var n := |rawCounts[0].0|;
      var r := mitigation.ApplyAllMitigation(rawCounts, false, false, true, true, "ghz");
      r.Success? && (r.value == [] <==> Get(rawCounts, Zeros(n), 0) < 1 && Get(rawCounts, Ones(n), 0) < 1)
  {
    var symmetric := SymmetryVerification(rawCounts, "ghz").value;
    var selected := PostSelection(symmetric, Keys(symmetric), 1);
    assert mitigation.MitigatedCounts(rawCounts, false, true, true, "ghz") == Success(selected);
    GhzSelection(rawCounts);
    PositiveTotal(selected);
    var r := mitigation.ApplyAllMitigation(rawCounts, false, false, true, true, "ghz");
    assert |Keys(r.value)| == |Keys(selected)|;
  }

  /** Post-selecting the two GHZ entries keeps none exactly when neither
      was counted at least once. */
  lemma GhzSelection(rawCounts: Counts)
    requires rawCounts != []
    ensures var n := |rawCounts[0].0|;
      var symmetric := SymmetryVerification(rawCounts, "ghz").value;
      PostSelection(symmetric, Keys(symmetric), 1) == [] <==>
        Get(rawCounts, Zeros(n), 0) < 1 && Get(rawCounts, Ones(n), 0) < 1
  {
    var n := |rawCounts[0].0|;
    var z, o := Get(rawCounts, Zeros(n), 0), Get(rawCounts, Ones(n), 0);
    if n > 0 {
      assert Zeros(n)[0] != Ones(n)[0];
      PairSelection(Zeros(n), z, Ones(n), o);
    } else {
      assert Zeros(n) == Ones(n) == "";
      SingleSelection("", z);
    }
  }

  /** Post-selecting a two-entry dictionary on its own states keeps none
      exactly when neither count reaches 1. */
  lemma PairSelection(a: string, x: int, b: string, y: int)
    requires a != b
    ensures PostSelection([(a, x), (b, y)], Keys([(a, x), (b, y)]), 1) == [] <==> x < 1 && y < 1
  {
    var d := [(a, x), (b, y)];
    var ks := Keys(d);
    assert ks[0] == a && ks[1] == b;
    assert d[1..] == [(b, y)] && d[1..][1..] == [];
  }

  /** The same for a one-entry dictionary. */
  lemma SingleSelection(a: string, x: int)
    ensures PostSelection([(a, x)], Keys([(a, x)]), 1) == [] <==> x < 1
  {
    assert Keys([(a, x)])[0] == a;
    assert [(a, x)][1..] == [];
  }

  /** Counts of at least one normalise to positive probabilities. */
  lemma NormalizedPositive(counts: Counts)
    requires forall i :: 0 <= i < |counts| ==> counts[i].1 >= 1
    requires Total(counts) > 0
    ensures forall i :: 0 <= i < |counts| ==> Normalized(counts, Total(counts))[i].1 > 0.0
  {
    var t := Total(counts) as real;
    forall i | 0 <= i < |counts|
      ensures Normalized(counts, Total(counts))[i].1 > 0.0
    {
      var c := counts[i].1 as real;
      assert c / t * t == c;
    }
  }

  /** Post-selecting the symmetric counts keeps only the two GHZ outcomes,
      each seen at least once. */
  lemma GhzKeys(symmetric: Counts, selected: Counts, n: nat)
    requires forall i :: 0 <= i < |symmetric| ==> symmetric[i].0 == Zeros(n) || symmetric[i].0 == Ones(n)
    requires forall i :: 0 <= i < |selected| ==> selected[i] in symmetric && selected[i].1 >= 1
    ensures forall i :: 0 <= i < |selected| ==> selected[i].0 == Zeros(n) || selected[i].0 == Ones(n)
  {
    forall i | 0 <= i < |selected|
      ensures selected[i].0 == Zeros(n) || selected[i].0 == Ones(n)
    {
      var j :| 0 <= j < |symmetric| && symmetric[j] == selected[i];
    }
  }

  /** Counts of at least one add up to a positive total unless there are none. */
  lemma {:induction false} PositiveTotal(counts: Counts)
    requires forall i :: 0 <= i < |counts| ==> counts[i].1 >= 1
    ensures counts != [] ==> Total(counts) > 0
    ensures counts == [] ==> Total(counts) == 0
  {
    if counts != [] {
      PositiveTotal(counts[1..]);
    }
  }
}
