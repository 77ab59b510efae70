/** The 17-tier physical-age classifier: an average quantile becomes a tier
    index (0 = youngest, 16 = oldest), a Korean tier label and a
    representative age. Fitter (higher quantile) means younger. */
module Grades {

  /** `AGE_GRADES`: tier labels from youngest to oldest. */
  const AgeGrades: seq<string> := [
    "19세 이하", "20대 초반", "20대 중반", "20대 후반",
    "30대 초반", "30대 중반", "30대 후반",
    "40대 초반", "40대 중반", "40대 후반",
    "50대 초반", "50대 중반", "50대 후반",
    "60대 초반", "60대 중반", "60대 후반",
    "70대 이상"
  ]

  /** `len(AGE_GRADES)`. */
  const GradeCount: nat := 17

  /** `max(0, min(idx, len(AGE_GRADES) - 1))`. */
  function ClampIndex(idx: int): (r: int)
    ensures 0 <= r < GradeCount
    ensures 0 <= idx < GradeCount ==> r == idx
    ensures idx < 0 ==> r == 0
    ensures idx >= GradeCount ==> r == GradeCount - 1
  {
    if idx < 0 then 0 else if idx > GradeCount - 1 then GradeCount - 1 else idx
  }

  /** `grade_idx_to_label`: the tier label for an index, which is clamped first. */
  function GradeLabel(idx: int): (name: string)
    ensures name in AgeGrades
    ensures 0 <= idx < |AgeGrades| ==> name == AgeGrades[idx]
    ensures idx < 0 ==> name == AgeGrades[0]
    ensures idx >= |AgeGrades| ==> name == AgeGrades[|AgeGrades| - 1]
  {
    AgeGrades[ClampIndex(idx)]
  }

  /** `np.clip(q, 0.0, 1.0)`. */
  function Clip01(q: real): (c: real)
    ensures 0.0 <= c <= 1.0
    ensures 0.0 <= q <= 1.0 ==> c == q
    ensures q < 0.0 ==> c == 0.0
    ensures q > 1.0 ==> c == 1.0
  {
    if q < 0.0 then 0.0 else if q > 1.0 then 1.0 else q
  }

  datatype Grade = Grade(index: int, tierLabel: string)

  /** Tier `k` owns the band of clipped quantiles `[(16-k)/17, (17-k)/17)`; the
      youngest tier also owns the top edge `1.0`. This is the reference the
      classifier is checked against. */
  predicate InBand(k: int, c: real) {
    && 0 <= k < GradeCount
    && (GradeCount - 1 - k) as real <= c * GradeCount as real
    && (c * GradeCount as real < (GradeCount - k) as real || k == 0)
  }

  /** `quantile_to_grade`: clip the quantile, take `int(q * 17)` capped at 16,
      invert it so that fitter means younger, and look up the label. */
  function QuantileToGrade(q: real): (g: Grade)
    ensures 0 <= g.index < GradeCount
    ensures InBand(g.index, Clip01(q))
    ensures g.tierLabel == AgeGrades[g.index]
  {
    var c := Clip01(q);
    // `int(x)` truncates toward zero, which is the floor since `c * 17 >= 0`.
    var fromLow := (c * GradeCount as real).Floor;
    var fromLow' := if fromLow == GradeCount then fromLow - 1 else fromLow;
    var idx := ClampIndex((GradeCount - 1) - fromLow');
    Grade(idx, GradeLabel(idx))
  }

  /** The bands partition the clipped range: exactly one tier owns each value,
      and it is the one the classifier picks. */
  lemma BandIsUnique(q: real, k: int)
    ensures InBand(k, Clip01(q)) <==> k == QuantileToGrade(q).index
  {
    var c := Clip01(q);
    if InBand(k, c) {
      var x := c * GradeCount as real;
      if x < GradeCount as real {
        assert x.Floor == GradeCount - 1 - k;
      }
    }
  }

  /** Fitter means same-or-younger: a larger quantile never yields an older tier. */
  lemma GradeMonotone(q1: real, q2: real)
    requires q1 <= q2
    ensures QuantileToGrade(q2).index <= QuantileToGrade(q1).index
  {
    var c1, c2 := Clip01(q1), Clip01(q2);
    assert c1 * GradeCount as real <= c2 * GradeCount as real;
    assert (c1 * GradeCount as real).Floor <= (c2 * GradeCount as real).Floor;
  }

  /** Values outside `[0, 1]` are classified like the nearest end point. */
  lemma GradeOfOutOfRange(q: real)
    ensures q <= 0.0 ==> QuantileToGrade(q) == QuantileToGrade(0.0)
    ensures q >= 1.0 ==> QuantileToGrade(q) == QuantileToGrade(1.0)
  {
  }

  /** The anchor points: a perfect score is the youngest tier, a zero score the
      oldest, the median the middle tier "40대 중반". */
  lemma GradeExamples()
    ensures QuantileToGrade(1.0) == Grade(0, "19세 이하")
    ensures QuantileToGrade(0.0) == Grade(16, "70대 이상")
    ensures QuantileToGrade(0.5) == Grade(8, "40대 중반")
  {
    assert (1.0 * GradeCount as real).Floor == 17;
    assert (0.5 * GradeCount as real).Floor == 8;
  }

  /** The representative age of each tier (the dictionary in
      `grade_index_to_lo_age_value`). */
  const AgeByIndex: map<int, int> := map[
    0 := 18, 1 := 22, 2 := 25, 3 := 28, 4 := 32, 5 := 35, 6 := 38,
    7 := 42, 8 := 45, 9 := 48, 10 := 52, 11 := 55, 12 := 58,
    13 := 62, 14 := 65, 15 := 68, 16 := 72
  ]

  /** `mapping.get(idx, 40)`: the default for an index the dictionary lacks. */
  const FallbackAge: int := 40

  /** `grade_index_to_lo_age_value`: clamp the index, then look it up with a
      fallback of 40. Because the index is clamped first, the fallback is
      never taken: the age is always one of the 17 listed values. */
  function LoAgeValue(idx: int): (age: int)
    ensures age in AgeByIndex.Values
    ensures ClampIndex(idx) in AgeByIndex && age == AgeByIndex[ClampIndex(idx)]
    ensures age != FallbackAge
    ensures 18 <= age <= 72
  {
    var c := ClampIndex(idx);
    if c in AgeByIndex then AgeByIndex[c] else FallbackAge
  }

  /** Representative ages grow strictly with the tier index. */
  lemma {:induction false} LoAgeStrictlyIncreasing(i: int, j: int)
    requires 0 <= i < j < GradeCount
    ensures LoAgeValue(i) < LoAgeValue(j)
    decreases j - i
  {
    if j > i + 1 {
      LoAgeStrictlyIncreasing(i, j - 1);
      LoAgeStrictlyIncreasing(j - 1, j);
    }
  }

  /** The extremes of the age scale and the median tier. */
  lemma LoAgeExamples()
    ensures LoAgeValue(0) == 18 && LoAgeValue(8) == 45 && LoAgeValue(16) == 72
    ensures forall idx :: idx <= 0 ==> LoAgeValue(idx) == 18
    ensures forall idx :: idx >= 16 ==> LoAgeValue(idx) == 72
  {
  }
}
