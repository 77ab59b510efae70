/** The physical-age assessment: a request's sex is normalised, each of the
    four raw scores is turned into a quantile against its reference table, the
    quantiles are averaged and classified into a tier, and the weakest test is
    picked out. */
module Assessment {
  import opened Results
  import opened Text
  import opened Interpolation
  import opened Grades

  datatype Sex = Female | Male {
    /** The table column for this sex, which is also the normalised value. */
    function Column(): string {
      match this
      case Female => "Female"
      case Male => "Male"
    }
  }

  const FemaleTokens: seq<string> := ["f", "female", "여", "여자", "woman", "girl"]
  const MaleTokens: seq<string> := ["m", "male", "남", "남자", "man", "boy"]

  datatype SexError = UnknownSex(given: string)

  /** `normalize_sex`: strip and lower-case the input, then accept the listed
      female or male spellings; anything else is rejected. */
  function NormalizeSex(v: string): (r: Result<Sex, SexError>)
    ensures r == Success(Female) <==> Lower(Strip(v)) in FemaleTokens
    ensures r == Success(Male) <==> Lower(Strip(v)) in MaleTokens
    ensures r.Failure? <==> Lower(Strip(v)) !in FemaleTokens && Lower(Strip(v)) !in MaleTokens
    ensures r.Failure? ==> r.error == UnknownSex(v)
  {
    var s := Lower(Strip(v));
    if s in FemaleTokens then Success(Female)
    else if s in MaleTokens then Success(Male)
    else Failure(UnknownSex(v))
  }

  /** The normalised value is itself accepted and maps back to the same sex. */
  lemma NormalizeSexRoundTrip(s: Sex)
    ensures NormalizeSex(s.Column()) == Success(s)
  {
    var c := s.Column();
    StripNoEdgeSpaces(c);
    if s == Female {
      assert Lower(c) == "female";
    } else {
      assert Lower(c) == "male";
    }
  }

  /** The four fitness tests, in the insertion order of the dictionary
      `compute_physical_age_quantiles` builds. */
  datatype Test = SitUps | Flexibility | JumpPower | CardioEndurance {
    /** The dictionary key, which is what is reported as the weak point. */
    function Key(): string {
      match this
      case SitUps => "sit_ups"
      case Flexibility => "flexibility"
      case JumpPower => "jump_power"
      case CardioEndurance => "cardio_endurance"
    }
  }

  const TestOrder: seq<Test> := [SitUps, Flexibility, JumpPower, CardioEndurance]

  /** Where a test sits in the dictionary order. */
  function Position(t: Test): (i: nat)
    ensures i < |TestOrder| && TestOrder[i] == t
  {
    match t
    case SitUps => 0
    case Flexibility => 1
    case JumpPower => 2
    case CardioEndurance => 3
  }

  /** One quantile per test. */
  datatype QuantileSet = QuantileSet(sitUps: real, flexibility: real, jumpPower: real, cardioEndurance: real) {
    /** Every quantile lies in [0, 1]. */
    predicate InUnitRange() {
      && 0.0 <= sitUps <= 1.0 && 0.0 <= flexibility <= 1.0
      && 0.0 <= jumpPower <= 1.0 && 0.0 <= cardioEndurance <= 1.0
    }

    function Get(t: Test): real {
      match t
      case SitUps => sitUps
      case Flexibility => flexibility
      case JumpPower => jumpPower
      case CardioEndurance => cardioEndurance
    }

    /** The range can be checked test by test. */
    lemma InUnitRangeByTest()
      requires 0.0 <= Get(SitUps) <= 1.0 && 0.0 <= Get(Flexibility) <= 1.0
      requires 0.0 <= Get(JumpPower) <= 1.0 && 0.0 <= Get(CardioEndurance) <= 1.0
      ensures InUnitRange()
    {
    }
  }

  /** The loaded reference engine: one table per test (`load_engine` has
      already checked that all four keys are present). */
  datatype Engine = Engine(sitUps: Table, flexibility: Table, jumpPower: Table, cardioEndurance: Table) {
    function Get(t: Test): Table {
      match t
      case SitUps => sitUps
      case Flexibility => flexibility
      case JumpPower => jumpPower
      case CardioEndurance => cardioEndurance
    }

    predicate WellFormed() {
      && Interpolation.WellFormed(sitUps) && Interpolation.WellFormed(flexibility)
      && Interpolation.WellFormed(jumpPower) && Interpolation.WellFormed(cardioEndurance)
    }
  }

  /** A validated request: normalised sex and the four raw measurements. */
  datatype ScoreInput = ScoreInput(sex: Sex, flexibility: real, jumpPower: real, cardioEndurance: real, sitUps: real) {
    function Raw(t: Test): real {
      match t
      case SitUps => sitUps
      case Flexibility => flexibility
      case JumpPower => jumpPower
      case CardioEndurance => cardioEndurance
    }
  }

  /** Every entry of `s` lies in [0, 1], stated entry by entry. */
  predicate AllIn01(s: seq<real>) {
    |s| == 0 || (0.0 <= s[0] <= 1.0 && AllIn01(s[1..]))
  }

  lemma {:induction false} AllIn01Index(s: seq<real>)
    ensures AllIn01(s) <==> forall i :: 0 <= i < |s| ==> 0.0 <= s[i] <= 1.0
  {
    if |s| > 0 {
      AllIn01Index(s[1..]);
      assert forall i :: 1 <= i < |s| ==> s[i] == s[1..][i - 1];
    }
  }

  /** Every table's quantile index lies in [0, 1]. */
  predicate IndexIn01(t: Table) {
    AllIn01(t.quantiles)
  }

  /** The quantile of one test, or the error its table raises. */
  function TestQuantile(engine: Engine, req: ScoreInput, t: Test): (r: Result<real, TableError>)
    requires engine.WellFormed()
    ensures r == QuantileFromTable(engine.Get(t), req.sex.Column(), req.Raw(t))
    ensures r.Success? && IndexIn01(engine.Get(t)) ==> 0.0 <= r.value <= 1.0
  {
    var table := engine.Get(t);
    assert Interpolation.WellFormed(table);
    var col := req.sex.Column();
    if col in table.columns && |table.quantiles| > 0 then
      AllIn01Index(table.quantiles);
      QuantileFromTableBounds(table, col, req.Raw(t));
      QuantileFromTable(table, col, req.Raw(t))
    else
      QuantileFromTable(table, col, req.Raw(t))
  }

  /** `compute_physical_age_quantiles`: the four tests are scored in the order
      sit_ups, flexibility, jump_power, cardio_endurance; the result holds each
      test's quantile, and the first test that fails aborts with its error. */
  function ComputeQuantiles(engine: Engine, req: ScoreInput): (r: Result<QuantileSet, TableError>)
    requires engine.WellFormed()
    ensures r.Success? <==>
      && TestQuantile(engine, req, SitUps).Success?
      && TestQuantile(engine, req, Flexibility).Success?
      && TestQuantile(engine, req, JumpPower).Success?
      && TestQuantile(engine, req, CardioEndurance).Success?
    ensures r.Success? ==> r.value == QuantileSet(
      TestQuantile(engine, req, SitUps).value,
      TestQuantile(engine, req, Flexibility).value,
      TestQuantile(engine, req, JumpPower).value,
      TestQuantile(engine, req, CardioEndurance).value)
    ensures TestQuantile(engine, req, SitUps).Failure? ==>
      r == Failure(TestQuantile(engine, req, SitUps).error)
    ensures TestQuantile(engine, req, SitUps).Success? && TestQuantile(engine, req, Flexibility).Failure? ==>
      r == Failure(TestQuantile(engine, req, Flexibility).error)
    ensures (TestQuantile(engine, req, SitUps).Success? && TestQuantile(engine, req, Flexibility).Success?
      && TestQuantile(engine, req, JumpPower).Failure?) ==>
      r == Failure(TestQuantile(engine, req, JumpPower).error)
    ensures (TestQuantile(engine, req, SitUps).Success? && TestQuantile(engine, req, Flexibility).Success?
      && TestQuantile(engine, req, JumpPower).Success? && TestQuantile(engine, req, CardioEndurance).Failure?) ==>
      r == Failure(TestQuantile(engine, req, CardioEndurance).error)
  {
    var s :- TestQuantile(engine, req, SitUps);
    var f :- TestQuantile(engine, req, Flexibility);
    var j :- TestQuantile(engine, req, JumpPower);
    var c :- TestQuantile(engine, req, CardioEndurance);
    Success(QuantileSet(s, f, j, c))
  }

  /** A request whose sex has no column in the sit-ups table fails with that
      missing column, before any other table is consulted. */
  lemma MissingColumnFailsFirst(engine: Engine, req: ScoreInput)
    requires engine.WellFormed()
    requires req.sex.Column() !in engine.sitUps.columns
    ensures ComputeQuantiles(engine, req) == Failure(MissingColumn(req.sex.Column()))
  {
  }

  /** `np.mean` of the four quantiles: the deviations from it cancel out, and
      it lies between the smallest and the largest of them. */
  function Average(qs: QuantileSet): (avg: real)
    ensures (qs.sitUps - avg) + (qs.flexibility - avg) + (qs.jumpPower - avg) + (qs.cardioEndurance - avg) == 0.0
    ensures (exists t: Test :: qs.Get(t) <= avg) && (exists t: Test :: avg <= qs.Get(t))
    ensures qs.InUnitRange() ==> 0.0 <= avg <= 1.0
  {
    var avg := (qs.sitUps + qs.flexibility + qs.jumpPower + qs.cardioEndurance) / 4.0;
    assert qs.Get(SitUps) <= avg || qs.Get(Flexibility) <= avg
        || qs.Get(JumpPower) <= avg || qs.Get(CardioEndurance) <= avg;
    assert avg <= qs.Get(SitUps) || avg <= qs.Get(Flexibility)
        || avg <= qs.Get(JumpPower) || avg <= qs.Get(CardioEndurance);
    avg
  }

  /** The scan `min(q_dict.items(), key=...)` performs from position `i` on,
      holding the best test so far: it replaces the best only on a strictly
      smaller quantile, so the first minimum wins. */
  function MinScan(qs: QuantileSet, i: nat, best: Test): (w: Test)
    requires i <= |TestOrder| && Position(best) < i
    requires forall k :: 0 <= k < i ==> qs.Get(best) <= qs.Get(TestOrder[k])
    requires forall k :: 0 <= k < Position(best) ==> qs.Get(best) < qs.Get(TestOrder[k])
    ensures forall k :: 0 <= k < |TestOrder| ==> qs.Get(w) <= qs.Get(TestOrder[k])
    ensures forall k :: 0 <= k < Position(w) ==> qs.Get(w) < qs.Get(TestOrder[k])
    decreases |TestOrder| - i
  {
    if i == |TestOrder| then best
    else if qs.Get(TestOrder[i]) < qs.Get(best) then MinScan(qs, i + 1, TestOrder[i])
    else MinScan(qs, i + 1, best)
  }

  /** The weak point: the first test, in dictionary order, whose quantile is
      the smallest. Its quantile is at most every other test's, and every test
      before it is strictly higher. */
  function WeakPoint(qs: QuantileSet): (w: Test)
    ensures forall t: Test :: qs.Get(w) <= qs.Get(t)
    ensures forall t: Test :: Position(t) < Position(w) ==> qs.Get(w) < qs.Get(t)
  {
    var w := MinScan(qs, 1, TestOrder[0]);
    assert forall t: Test :: qs.Get(w) <= qs.Get(TestOrder[Position(t)]);
    assert forall t: Test :: Position(t) < Position(w) ==> qs.Get(w) < qs.Get(TestOrder[Position(t)]);
    w
  }

  /** The two properties above single out one test: any test that is minimal
      and beaten by everything before it is the weak point. */
  lemma WeakPointUnique(qs: QuantileSet, t: Test)
    requires forall u: Test :: qs.Get(t) <= qs.Get(u)
    requires forall u: Test :: Position(u) < Position(t) ==> qs.Get(t) < qs.Get(u)
    ensures WeakPoint(qs) == t
  {
    var w := WeakPoint(qs);
    assert Position(w) == Position(t);
  }

  /** Ties go to the earlier test: flexibility and jump_power share the
      minimum 0.3, and flexibility comes first. */
  lemma WeakPointTieExample()
    ensures WeakPoint(QuantileSet(0.5, 0.3, 0.3, 0.5)) == Flexibility
  {
    WeakPointUnique(QuantileSet(0.5, 0.3, 0.3, 0.5), Flexibility);
  }

  /** What `/predict/physical-age` reports. */
  datatype Prediction = Prediction(
    loAgeValue: int,
    loAgeTierLabel: string,
    percentile: real,
    weakPoint: string,
    tierIndex: int,
    detailQuantiles: QuantileSet,
    avgQuantile: real,
    gradeIndex: int,
    gradeLabel: string
  )

  /** The arithmetic of `predict_physical_age` once the quantiles are known:
      their mean, the tier of the mean, its representative age, the
      percentile (the mean times 100, not clipped) and the weak point. */
  function Classify(qs: QuantileSet): (p: Prediction)
    ensures p.detailQuantiles == qs
    ensures (exists t: Test :: qs.Get(t) <= p.avgQuantile) && (exists t: Test :: p.avgQuantile <= qs.Get(t))
    ensures 0 <= p.gradeIndex < GradeCount && InBand(p.gradeIndex, Clip01(p.avgQuantile))
    ensures p.tierIndex == p.gradeIndex
    ensures p.gradeLabel == p.loAgeTierLabel == AgeGrades[p.gradeIndex]
    ensures p.loAgeValue == AgeByIndex[p.gradeIndex]
    ensures p.percentile == p.avgQuantile * 100.0
    ensures exists w: Test :: p.weakPoint == w.Key() && forall t: Test :: qs.Get(w) <= qs.Get(t)
    ensures p.avgQuantile == Average(qs)
    ensures p.weakPoint == WeakPoint(qs).Key()
  {
    var avg := Average(qs);
    var g := QuantileToGrade(avg);
    var w := WeakPoint(qs);
    var age := LoAgeValue(g.index);
    assert age == AgeByIndex[g.index] by {
      assert ClampIndex(g.index) == g.index;
    }
    var p := Prediction(
      loAgeValue := age,
      loAgeTierLabel := g.tierLabel,
      percentile := avg * 100.0,
      weakPoint := w.Key(),
      tierIndex := g.index,
      detailQuantiles := qs,
      avgQuantile := avg,
      gradeIndex := g.index,
      gradeLabel := g.tierLabel);
    assert p.weakPoint == w.Key() && forall t: Test :: qs.Get(w) <= qs.Get(t);
    p
  }

  /** `predict_physical_age` without the store: score the request, then
      classify the quantiles; a scoring error is passed on unchanged. */
  function Predict(engine: Engine, req: ScoreInput): (r: Result<Prediction, TableError>)
    requires engine.WellFormed()
    ensures r.Success? <==> ComputeQuantiles(engine, req).Success?
    ensures r.Failure? ==> r.error == ComputeQuantiles(engine, req).error
    ensures r.Success? ==> r.value.detailQuantiles == ComputeQuantiles(engine, req).value
    ensures r.Success? ==> r.value == Classify(ComputeQuantiles(engine, req).value)
  {
    var qs :- ComputeQuantiles(engine, req);
    Success(Classify(qs))
  }

  /** Quantiles in [0, 1] give a mean in [0, 1] and a percentile in [0, 100]. */
  lemma ClassifyInRange(qs: QuantileSet)
    requires qs.InUnitRange()
    ensures 0.0 <= Classify(qs).avgQuantile <= 1.0
    ensures 0.0 <= Classify(qs).percentile <= 100.0
  {
    assert 0.0 <= Average(qs) <= 1.0;
  }

  /** A test's reported quantile lies in [0, 1] when its table's index does. */
  lemma TestInRange(engine: Engine, req: ScoreInput, t: Test)
    requires engine.WellFormed()
    requires IndexIn01(engine.sitUps) && IndexIn01(engine.flexibility)
    requires IndexIn01(engine.jumpPower) && IndexIn01(engine.cardioEndurance)
    ensures ComputeQuantiles(engine, req).Success? ==> 0.0 <= ComputeQuantiles(engine, req).value.Get(t) <= 1.0
  {
    if ComputeQuantiles(engine, req).Success? {
      var qs := ComputeQuantiles(engine, req).value;
      match t
      case SitUps =>
        assert TestQuantile(engine, req, SitUps).Success?;
        assert qs.sitUps == TestQuantile(engine, req, SitUps).value;
      case Flexibility =>
        assert TestQuantile(engine, req, Flexibility).Success?;
        assert qs.flexibility == TestQuantile(engine, req, Flexibility).value;
      case JumpPower =>
        assert TestQuantile(engine, req, JumpPower).Success?;
        assert qs.jumpPower == TestQuantile(engine, req, JumpPower).value;
      case CardioEndurance =>
        assert TestQuantile(engine, req, CardioEndurance).Success?;
        assert qs.cardioEndurance == TestQuantile(engine, req, CardioEndurance).value;
    }
  }

  /** With a quantile index in [0, 1] in every table, each of the four
      quantiles lies in [0, 1]. */
  lemma QuantilesInRange(engine: Engine, req: ScoreInput)
    requires engine.WellFormed()
    requires IndexIn01(engine.sitUps) && IndexIn01(engine.flexibility)
    requires IndexIn01(engine.jumpPower) && IndexIn01(engine.cardioEndurance)
    ensures ComputeQuantiles(engine, req).Success? ==> ComputeQuantiles(engine, req).value.InUnitRange()
  {
    if ComputeQuantiles(engine, req).Success? {
      TestInRange(engine, req, SitUps);
      TestInRange(engine, req, Flexibility);
      TestInRange(engine, req, JumpPower);
      TestInRange(engine, req, CardioEndurance);
      ComputeQuantiles(engine, req).value.InUnitRangeByTest();
    }
  }

  /** With a quantile index in [0, 1] in every table, the reported quantiles,
      their mean and the percentile stay in range. */
  lemma PredictInRange(engine: Engine, req: ScoreInput)
    requires engine.WellFormed()
    requires IndexIn01(engine.sitUps) && IndexIn01(engine.flexibility)
    requires IndexIn01(engine.jumpPower) && IndexIn01(engine.cardioEndurance)
    ensures Predict(engine, req).Success? ==>
      && Predict(engine, req).value.detailQuantiles.InUnitRange()
      && 0.0 <= Predict(engine, req).value.avgQuantile <= 1.0
      && 0.0 <= Predict(engine, req).value.percentile <= 100.0
  {
    if Predict(engine, req).Success? {
      QuantilesInRange(engine, req);
      ClassifyInRange(ComputeQuantiles(engine, req).value);
    }
  }
}
