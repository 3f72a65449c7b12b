/** What the shipped rule sets tell each client, written out from the client's features
    (migrations/versions/209a9c997624, v4, and c5d8a3f1e7b9, v9). */
module RuleAnswers {
  import opened Common
  import opened Rules
  import opened RuleSets

  /** What v4 tells a client, as one cascade of questions. */
  function ToldByV4(f: Features): Angle {
    var soon, years := Says(f, HoldBand, Under2m), Says(f, HoldBand, StayedYears);
    if Says(f, ExitReason, ChargeSettled) then NotAGoodbye
    else if Says(f, FundType, HighYield) && (soon || Says(f, HoldBand, Under6m)) then WrongShelf
    else if Says(f, InWave, True) && years then if Says(f, HasDepth, True) then SeeWhatChanged else TheLongHold
    else if soon && (Says(f, PurchaseDepth, Few) || Says(f, PurchaseDepth, Capped)) then YourNextDeposit
    else if soon && Says(f, PurchaseDepth, Single) then SecondTry
    else if Says(f, StagedExit, True) then YouWoundDown
    else if Says(f, TrendBand, Rising) then YouWereScaling
    else if Says(f, TrendBand, Falling) then YouWereFading
    else if Says(f, PurchaseDepth, Capped) && Says(f, CadenceBand, Tight) then BackOnSchedule
    else if Says(f, PurchaseDepth, Single) then OnboardingRetry
    else PickUpAgain
  }

  /** What v9 tells a client, from the client's features alone. */
  function ToldByV9(f: Features): Angle {
    if Says(f, NeverFunded, True) then FirstDepositWelcome
    else if Says(f, AutoCheckin, True) then SittingStill
    else if Says(f, HasBalance, False) && ToldByV4(f) != PickUpAgain then ToldByV4(f)
    else if Says(f, HighValue, True) then FormerHighValue
    else if Says(f, BalanceBand, WorthSaving) then GrowBack
    else PickUpAgain
  }

  // ----- Which rules of v4 match -----

  /** Whether the i-th rule of v4 matches. */
  function Fits(i: nat, f: Features): bool {
    var soon, years := Says(f, HoldBand, Under2m), Says(f, HoldBand, StayedYears);
    match i
    case 0 => Says(f, ExitReason, ChargeSettled)
    case 1 => Says(f, FundType, HighYield) && (soon || Says(f, HoldBand, Under6m))
    case 2 => Says(f, InWave, True) && years && Says(f, HasDepth, True)
    case 3 => Says(f, InWave, True) && years
    case 4 => soon && (Says(f, PurchaseDepth, Few) || Says(f, PurchaseDepth, Capped))
    case 5 => soon && Says(f, PurchaseDepth, Single)
    case 6 => Says(f, StagedExit, True)
    case 7 => Says(f, TrendBand, Rising)
    case 8 => Says(f, TrendBand, Falling)
    case 9 => Says(f, PurchaseDepth, Capped) && Says(f, CadenceBand, Tight)
    case 10 => Says(f, PurchaseDepth, Single)
    case _ => true
  }

  lemma OneOf(c: Clause, field: Field, v: Value, f: Features)
    requires c == Clause(field, [v])
    ensures Holds(c, f) <==> Says(f, field, v)
  {
  }

  lemma OneOfTwo(c: Clause, field: Field, v: Value, w: Value, f: Features)
    requires c == Clause(field, [v, w])
    ensures Holds(c, f) <==> Says(f, field, v) || Says(f, field, w)
  {
  }

  lemma EarlyRulesFit(f: Features)
    ensures Matches(V4[0], f) == Fits(0, f) && Matches(V4[1], f) == Fits(1, f)
    ensures Matches(V4[4], f) == Fits(4, f) && Matches(V4[5], f) == Fits(5, f)
  {
    SingleClause(V4[0], ExitReason, ChargeSettled, f);
    TwoClauses(V4[1], V4[1].clauses[0], V4[1].clauses[1], f);
    TwoClauses(V4[4], V4[4].clauses[0], V4[4].clauses[1], f);
    TwoClauses(V4[5], V4[5].clauses[0], V4[5].clauses[1], f);
    OneOfTwo(V4[1].clauses[1], HoldBand, Under2m, Under6m, f);
    OneOfTwo(V4[4].clauses[1], PurchaseDepth, Few, Capped, f);
  }

  lemma WaveRulesFit(f: Features)
    ensures Matches(V4[2], f) == Fits(2, f) && Matches(V4[3], f) == Fits(3, f)
  {
    var r := V4[2];
    assert Matches(r, f) <==> Holds(r.clauses[0], f) && Holds(r.clauses[1], f) && Holds(r.clauses[2], f);
    OneOf(r.clauses[0], InWave, True, f);
    OneOf(r.clauses[1], HoldBand, StayedYears, f);
    OneOf(r.clauses[2], HasDepth, True, f);
    TwoClauses(V4[3], V4[3].clauses[0], V4[3].clauses[1], f);
  }

  lemma LateRulesFit(f: Features)
    ensures forall i | 6 <= i < 12 :: Matches(V4[i], f) == Fits(i, f)
  {
    SingleClause(V4[6], StagedExit, True, f);
    SingleClause(V4[7], TrendBand, Rising, f);
    SingleClause(V4[8], TrendBand, Falling, f);
    TwoClauses(V4[9], V4[9].clauses[0], V4[9].clauses[1], f);
    OneOf(V4[9].clauses[0], PurchaseDepth, Capped, f);
    OneOf(V4[9].clauses[1], CadenceBand, Tight, f);
    SingleClause(V4[10], PurchaseDepth, Single, f);
    assert V4[11].clauses == [];
  }

  /** The first rule of v4 that fits. */
  function FirstFit(f: Features): (i: nat)
    ensures i < 12 && Fits(i, f) && forall j | 0 <= j < i :: !Fits(j, f)
  {
    if Fits(0, f) then 0 else if Fits(1, f) then 1 else if Fits(2, f) then 2 else if Fits(3, f) then 3
    else if Fits(4, f) then 4 else if Fits(5, f) then 5 else if Fits(6, f) then 6 else if Fits(7, f) then 7
    else if Fits(8, f) then 8 else if Fits(9, f) then 9 else if Fits(10, f) then 10 else 11
  }

  lemma {:induction false} FirstMatchAt(rules: seq<Rule>, f: Features, i: nat)
    requires i < |rules| && Matches(rules[i], f) && forall j | 0 <= j < i :: !Matches(rules[j], f)
    ensures FirstMatch(rules, f) == Some(rules[i])
  {
    if i > 0 {
      assert !Matches(rules[0], f);
      FirstMatchAt(rules[1..], f, i - 1);
    }
  }

  lemma AngleAt(f: Features)
    ensures V4[FirstFit(f)].angle == ToldByV4(f)
  {
  }

  lemma AllFit(f: Features)
    ensures |V4| == 12 && forall i | 0 <= i < 12 :: Matches(V4[i], f) == Fits(i, f)
  {
    EarlyRulesFit(f);
    WaveRulesFit(f);
    LateRulesFit(f);
  }

  lemma FirstFitWins(rules: seq<Rule>, f: Features)
    requires |rules| == 12 && forall i | 0 <= i < 12 :: Matches(rules[i], f) == Fits(i, f)
    ensures FirstMatch(rules, f) == Some(rules[FirstFit(f)])
  {
    FirstMatchAt(rules, f, FirstFit(f));
  }

  lemma V4OnView(v: Features)
    ensures FirstMatch(V4, v).Some? && FirstMatch(V4, v).value.angle == ToldByV4(v)
  {
    AllFit(v);
    FirstFitWins(V4, v);
    AngleAt(v);
  }

  lemma ToldOnView(f: Features)
    ensures ToldByV4(View(f)) == ToldByV4(f)
  {
    SaysOnView(f);
  }

  /** v4's answer for every client is what the cascade says. */
  lemma V4Says(f: Features)
    ensures Resolve(f, V4).Some? && Resolve(f, V4).value.angle == ToldByV4(f)
  {
    AnswerV4(f);
    V4OnView(View(f));
    ToldOnView(f);
  }

  /** The urgency and the tier that go with an angle. */
  ghost predicate GoesTogether(r: Rule) {
    && r.urgency == (if r.angle == FirstDepositWelcome then Low else Medium)
    && r.tier
       == if r.angle == FirstDepositWelcome then HotLeads
          else if r.angle == FormerHighValue || r.angle == GrowBack then LowDepositors
          else OneTimeWithdrawers
  }

  lemma OutputsOfWinner(rules: seq<Rule>, f: Features)
    requires FirstMatch(rules, f).Some? && forall i | 0 <= i < |rules| :: GoesTogether(rules[i])
    ensures GoesTogether(FirstMatch(rules, f).value)
  {
    WinnerIsAmong(rules, f);
  }

  lemma V9Outputs()
    ensures forall i | 0 <= i < |V9| :: GoesTogether(V9[i])
  {
  }

  lemma V9OutputsOf(f: Features)
    requires Resolve(f, V9).Some?
    ensures GoesTogether(Resolve(f, V9).value)
  {
    AnswerV9(f);
    V9Outputs();
    OutputsOfWinner(V9, View(f));
  }

  /** And so is v9's, with the urgency, tier and prompt variant that go with the angle. */
  lemma V9Says(f: Features)
    ensures Resolve(f, V9).Some?
    ensures var r, told := Resolve(f, V9).value, ToldByV9(f);
            && r.angle == r.variant == told
            && r.urgency == (if told == FirstDepositWelcome then Low else Medium)
            && r.tier
               == if told == FirstDepositWelcome then HotLeads
                  else if told == FormerHighValue || told == GrowBack then LowDepositors
                  else OneTimeWithdrawers
  {
    V4Says(f);
    V9FollowsV4(f);
    V9OutputsOf(f);
  }

  /** v3 says the same with the old name of the shortest band. */
  lemma V3Says(f: Features)
    requires !Says(f, HoldBand, Under2m)
    ensures Resolve(f, V3).Some? && Resolve(f, V3).value.angle == ToldByV4(RenamedClient(f))
  {
    RenameKeepsAngleExactly(f);
    V4Says(RenamedClient(f));
  }
}
