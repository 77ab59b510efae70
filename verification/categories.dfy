/** The exercise categories a facility can offer, how a facility's flags
    choose its category, and how a weak-point name chooses the category to
    look for. Both classifiers are first-match-wins. */
module Categories {
  import opened Text
  import Assessment

  /** The categories, with the Korean labels the service reports. */
  datatype Category = Cardio | MuscularEndurance | Flexibility | Strength | Other {
    function Label(): string {
      match this
      case Cardio => "심폐지구력"
      case MuscularEndurance => "근지구력"
      case Flexibility => "유연성"
      case Strength => "근력"
      case Other => "기타"
    }
  }

  /** Reads a label back into its category; an unknown label reads as
      "other". */
  function FromLabel(s: string): Category {
    if s == "심폐지구력" then Cardio
    else if s == "근지구력" then MuscularEndurance
    else if s == "유연성" then Flexibility
    else if s == "근력" then Strength
    else Other
  }

  /** The service compares categories by their labels; distinct categories
      have distinct labels, so comparing the datatype values is the same. */
  lemma LabelInjective(a: Category, b: Category)
    ensures a.Label() == b.Label() <==> a == b
  {
    assert FromLabel(a.Label()) == a;
    assert FromLabel(b.Label()) == b;
  }

  /** The flag columns of a facility row. A flag counts only when it equals
      1; a missing or null column reads as 0 (`row.get(..., 0)`), and a
      boolean `True` reads as 1. */
  datatype Flags = Flags(isCardio: int, isMuscularEndurance: int, isFlexibility: int, quickness: int)

  /** `infer_category`: the first flag set to 1, in the order cardio,
      muscular endurance, flexibility, and otherwise "other"; the
      `quickness` flag also leads to "other". */
  function InferCategory(f: Flags): (c: Category)
    ensures c == Cardio <==> f.isCardio == 1
    ensures c == MuscularEndurance <==> f.isCardio != 1 && f.isMuscularEndurance == 1
    ensures c == Flexibility <==> f.isCardio != 1 && f.isMuscularEndurance != 1 && f.isFlexibility == 1
    ensures c == Other <==> f.isCardio != 1 && f.isMuscularEndurance != 1 && f.isFlexibility != 1
    ensures c != Strength
  {
    if f.isCardio == 1 then Cardio
    else if f.isMuscularEndurance == 1 then MuscularEndurance
    else if f.isFlexibility == 1 then Flexibility
    else if f.quickness == 1 then Other
    else Other
  }

  /** Whether the lower-cased weak point contains any of `tokens`. */
  predicate MentionsAny(w: string, tokens: seq<string>) {
    exists k | 0 <= k < |tokens| :: Contains(w, tokens[k])
  }

  const CardioTokens: seq<string> := ["cardio", "심폐"]
  const MuscularTokens: seq<string> := ["sit", "muscular", "endurance", "근지구"]
  const FlexibilityTokens: seq<string> := ["flex", "유연"]
  const StrengthTokens: seq<string> := ["jump", "strength", "근력"]

  /** The token groups spelled out one token at a time. */
  lemma MentionsTokens(w: string)
    ensures MentionsAny(w, CardioTokens) <==> Contains(w, "cardio") || Contains(w, "심폐")
    ensures MentionsAny(w, MuscularTokens) <==>
      Contains(w, "sit") || Contains(w, "muscular") || Contains(w, "endurance") || Contains(w, "근지구")
    ensures MentionsAny(w, FlexibilityTokens) <==> Contains(w, "flex") || Contains(w, "유연")
    ensures MentionsAny(w, StrengthTokens) <==>
      Contains(w, "jump") || Contains(w, "strength") || Contains(w, "근력")
  {
    assert CardioTokens[0] == "cardio" && CardioTokens[1] == "심폐";
    assert MuscularTokens[0] == "sit" && MuscularTokens[1] == "muscular";
    assert MuscularTokens[2] == "endurance" && MuscularTokens[3] == "근지구";
    assert FlexibilityTokens[0] == "flex" && FlexibilityTokens[1] == "유연";
    assert StrengthTokens[0] == "jump" && StrengthTokens[1] == "strength" && StrengthTokens[2] == "근력";
  }

  /** `weak_point_to_category`: lower-case the name, then test the token
      groups in the order cardio, muscular endurance, flexibility, strength;
      the first group with a token inside the name decides, and a name with
      none of them is "other". */
  function WeakPointToCategory(weakPoint: string): (c: Category)
    ensures var w := Lower(weakPoint);
      var cardio := MentionsAny(w, CardioTokens);
      var muscular := MentionsAny(w, MuscularTokens);
      var flexibility := MentionsAny(w, FlexibilityTokens);
      var strength := MentionsAny(w, StrengthTokens);
      && (c == Cardio <==> cardio)
      && (c == MuscularEndurance <==> !cardio && muscular)
      && (c == Flexibility <==> !cardio && !muscular && flexibility)
      && (c == Strength <==> !cardio && !muscular && !flexibility && strength)
      && (c == Other <==> !cardio && !muscular && !flexibility && !strength)
  {
    var w := Lower(weakPoint);
    MentionsTokens(w);
    if Contains(w, "cardio") || Contains(w, "심폐") then Cardio
    else if Contains(w, "sit") || Contains(w, "muscular") || Contains(w, "endurance") || Contains(w, "근지구") then
      MuscularEndurance
    else if Contains(w, "flex") || Contains(w, "유연") then Flexibility
    else if Contains(w, "jump") || Contains(w, "strength") || Contains(w, "근력") then Strength
    else Other
  }

  /** Some facility's flags lead to category `c`. */
  ghost predicate Reachable(c: Category) {
    exists f: Flags :: InferCategory(f) == c
  }

  /** No facility is ever classified as "strength", so a weak point that
      maps to strength (such as `jump_power`) never matches a facility. */
  lemma StrengthUnreachable()
    ensures !Reachable(Strength)
    ensures Reachable(Cardio) && Reachable(MuscularEndurance) && Reachable(Flexibility) && Reachable(Other)
  {
    assert InferCategory(Flags(1, 0, 0, 0)) == Cardio;
    assert InferCategory(Flags(0, 1, 0, 0)) == MuscularEndurance;
    assert InferCategory(Flags(0, 0, 1, 0)) == Flexibility;
    assert InferCategory(Flags(0, 0, 0, 0)) == Other;
  }

  /** The category each fitness test's weak point is meant to lead to. */
  function TestCategory(t: Assessment.Test): Category {
    match t
    case SitUps => MuscularEndurance
    case Flexibility => Flexibility
    case JumpPower => Strength
    case CardioEndurance => Cardio
  }

  /** "sit_ups" has no cardio token but contains "sit". */
  lemma SitUpsCategory()
    ensures WeakPointToCategory("sit_ups") == MuscularEndurance
  {
    var w := "sit_ups";
    LowerNoCapitals(w);
    AbsentAtOffset(w, "cardio", 0);
    AbsentAtOffset(w, "심폐", 0);
    ContainsWindow(w, 0, 3);
    assert w[0..3] == "sit";
    MentionsTokens(w);
  }

  /** "flexibility" has no cardio or muscular token but contains "flex". */
  lemma FlexibilityCategory()
    ensures WeakPointToCategory("flexibility") == Flexibility
  {
    var w := "flexibility";
    LowerNoCapitals(w);
    AbsentAtOffset(w, "cardio", 0);
    AbsentAtOffset(w, "심폐", 0);
    AbsentAtOffset(w, "sit", 0);
    AbsentAtOffset(w, "muscular", 0);
    AbsentAtOffset(w, "endurance", 1);
    AbsentAtOffset(w, "근지구", 0);
    ContainsWindow(w, 0, 4);
    assert w[0..4] == "flex";
    MentionsTokens(w);
  }

  /** "jump_power" has none of the earlier tokens but contains "jump". */
  lemma JumpPowerCategory()
    ensures WeakPointToCategory("jump_power") == Strength
  {
    var w := "jump_power";
    LowerNoCapitals(w);
    AbsentAtOffset(w, "cardio", 0);
    AbsentAtOffset(w, "심폐", 0);
    AbsentAtOffset(w, "sit", 0);
    AbsentAtOffset(w, "muscular", 2);
    AbsentAtOffset(w, "endurance", 0);
    AbsentAtOffset(w, "근지구", 0);
    AbsentAtOffset(w, "flex", 0);
    AbsentAtOffset(w, "유연", 0);
    ContainsWindow(w, 0, 4);
    assert w[0..4] == "jump";
    MentionsTokens(w);
  }

  /** "cardio_endurance" contains "cardio", which is looked for first. */
  lemma CardioEnduranceCategory()
    ensures WeakPointToCategory("cardio_endurance") == Cardio
  {
    var w := "cardio_endurance";
    LowerNoCapitals(w);
    ContainsWindow(w, 0, 6);
    assert w[0..6] == "cardio";
    MentionsTokens(w);
  }

  /** Every weak point `/predict/physical-age` can report maps to its test's
      category; in particular "cardio_endurance" is cardio (the cardio tokens
      are looked for before "endurance") and "jump_power" is strength. */
  lemma TestKeyCategory(t: Assessment.Test)
    ensures WeakPointToCategory(t.Key()) == TestCategory(t)
  {
    match t
    case SitUps => SitUpsCategory();
    case Flexibility => FlexibilityCategory();
    case JumpPower => JumpPowerCategory();
    case CardioEndurance => CardioEnduranceCategory();
  }
}
