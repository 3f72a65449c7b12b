/** The seven shipped rule sets, version 3 to version 9, and what each change kept:
    migrations/versions/f8b2e4a7c1d9 (v3), 209a9c997624 (v4), b4e8f2a6c9d1 (v5),
    ee3c3e393606 (v6), b2c3d4e5f6a7 (v7), a7f3d9c2e5b8 (v8) and c5d8a3f1e7b9 (v9). */
module RuleSets {
  import opened Common
  import opened Rules

  /** A rule whose name, angle and prompt variant are the same, at medium urgency. */
  function Shipped(angle: Angle, priority: int, clauses: seq<Clause>, tier: Tier): Rule {
    Rule(angle, priority, clauses, angle, Medium, tier, angle)
  }

  const V3: seq<Rule> := [
    Shipped(NotAGoodbye, 10, [Clause(ExitReason, [ChargeSettled])], T3),
    Shipped(WrongShelf, 20, [Clause(FundType, [HighYield]), Clause(HoldBand, [ParkedBriefly, Under6m])], T3),
    Shipped(SeeWhatChanged, 30,
            [Clause(InWave, [True]), Clause(HoldBand, [StayedYears]), Clause(HasDepth, [True])], T3),
    Shipped(TheLongHold, 40, [Clause(InWave, [True]), Clause(HoldBand, [StayedYears])], T3),
    Shipped(YourNextDeposit, 50, [Clause(HoldBand, [ParkedBriefly]), Clause(PurchaseDepth, [Few, Capped])], T3),
    Shipped(SecondTry, 60, [Clause(HoldBand, [ParkedBriefly]), Clause(PurchaseDepth, [Single])], T3),
    Shipped(YouWoundDown, 70, [Clause(StagedExit, [True])], T3),
    Shipped(YouWereScaling, 80, [Clause(TrendBand, [Rising])], T3),
    Shipped(YouWereFading, 90, [Clause(TrendBand, [Falling])], T3),
    Shipped(BackOnSchedule, 100, [Clause(PurchaseDepth, [Capped]), Clause(CadenceBand, [Tight])], T3),
    Shipped(OnboardingRetry, 110, [Clause(PurchaseDepth, [Single])], T3),
    Shipped(PickUpAgain, 120, [], T3)
  ]

  const V4: seq<Rule> := [
    Shipped(NotAGoodbye, 10, [Clause(ExitReason, [ChargeSettled])], T3),
    Shipped(WrongShelf, 20, [Clause(FundType, [HighYield]), Clause(HoldBand, [Under2m, Under6m])], T3),
    Shipped(SeeWhatChanged, 30,
            [Clause(InWave, [True]), Clause(HoldBand, [StayedYears]), Clause(HasDepth, [True])], T3),
    Shipped(TheLongHold, 40, [Clause(InWave, [True]), Clause(HoldBand, [StayedYears])], T3),
    Shipped(YourNextDeposit, 50, [Clause(HoldBand, [Under2m]), Clause(PurchaseDepth, [Few, Capped])], T3),
    Shipped(SecondTry, 60, [Clause(HoldBand, [Under2m]), Clause(PurchaseDepth, [Single])], T3),
    Shipped(YouWoundDown, 70, [Clause(StagedExit, [True])], T3),
    Shipped(YouWereScaling, 80, [Clause(TrendBand, [Rising])], T3),
    Shipped(YouWereFading, 90, [Clause(TrendBand, [Falling])], T3),
    Shipped(BackOnSchedule, 100, [Clause(PurchaseDepth, [Capped]), Clause(CadenceBand, [Tight])], T3),
    Shipped(OnboardingRetry, 110, [Clause(PurchaseDepth, [Single])], T3),
    Shipped(PickUpAgain, 120, [], T3)
  ]

  const V5: seq<Rule> := [
    Shipped(SittingStill, 5, [Clause(AutoCheckin, [True])], T3),
    Shipped(NotAGoodbye, 10, [Clause(ExitReason, [ChargeSettled])], T3),
    Shipped(WrongShelf, 20, [Clause(FundType, [HighYield]), Clause(HoldBand, [Under2m, Under6m])], T3),
    Shipped(SeeWhatChanged, 30,
            [Clause(InWave, [True]), Clause(HoldBand, [StayedYears]), Clause(HasDepth, [True])], T3),
    Shipped(TheLongHold, 40, [Clause(InWave, [True]), Clause(HoldBand, [StayedYears])], T3),
    Shipped(YourNextDeposit, 50, [Clause(HoldBand, [Under2m]), Clause(PurchaseDepth, [Few, Capped])], T3),
    Shipped(SecondTry, 60, [Clause(HoldBand, [Under2m]), Clause(PurchaseDepth, [Single])], T3),
    Shipped(YouWoundDown, 70, [Clause(StagedExit, [True])], T3),
    Shipped(YouWereScaling, 80, [Clause(TrendBand, [Rising])], T3),
    Shipped(YouWereFading, 90, [Clause(TrendBand, [Falling])], T3),
    Shipped(BackOnSchedule, 100, [Clause(PurchaseDepth, [Capped]), Clause(CadenceBand, [Tight])], T3),
    Shipped(OnboardingRetry, 110, [Clause(PurchaseDepth, [Single])], T3),
    Shipped(PickUpAgain, 120, [], T3)
  ]

  const V6: seq<Rule> := [
    Shipped(SittingStill, 5, [Clause(AutoCheckin, [True])], OneTimeWithdrawers),
    Shipped(NotAGoodbye, 10, [Clause(ExitReason, [ChargeSettled])], OneTimeWithdrawers),
    Shipped(WrongShelf, 20, [Clause(FundType, [HighYield]), Clause(HoldBand, [Under2m, Under6m])], OneTimeWithdrawers),
    Shipped(SeeWhatChanged, 30,
            [Clause(InWave, [True]), Clause(HoldBand, [StayedYears]), Clause(HasDepth, [True])], OneTimeWithdrawers),
    Shipped(TheLongHold, 40, [Clause(InWave, [True]), Clause(HoldBand, [StayedYears])], OneTimeWithdrawers),
    Shipped(YourNextDeposit, 50,
            [Clause(HoldBand, [Under2m]), Clause(PurchaseDepth, [Few, Capped])], OneTimeWithdrawers),
    Shipped(SecondTry, 60, [Clause(HoldBand, [Under2m]), Clause(PurchaseDepth, [Single])], OneTimeWithdrawers),
    Shipped(YouWoundDown, 70, [Clause(StagedExit, [True])], OneTimeWithdrawers),
    Shipped(YouWereScaling, 80, [Clause(TrendBand, [Rising])], OneTimeWithdrawers),
    Shipped(YouWereFading, 90, [Clause(TrendBand, [Falling])], OneTimeWithdrawers),
    Shipped(BackOnSchedule, 100, [Clause(PurchaseDepth, [Capped]), Clause(CadenceBand, [Tight])], OneTimeWithdrawers),
    Shipped(OnboardingRetry, 110, [Clause(PurchaseDepth, [Single])], OneTimeWithdrawers),
    Shipped(PickUpAgain, 120, [], OneTimeWithdrawers)
  ]

  const V7: seq<Rule> := [
    Rule(FirstDeposit, 1, [Clause(NeverFunded, [True])], FirstDepositWelcome, Low, HotLeads, FirstDepositWelcome),
    Shipped(SittingStill, 5, [Clause(AutoCheckin, [True])], OneTimeWithdrawers),
    Shipped(NotAGoodbye, 10, [Clause(ExitReason, [ChargeSettled])], OneTimeWithdrawers),
    Shipped(WrongShelf, 20, [Clause(FundType, [HighYield]), Clause(HoldBand, [Under2m, Under6m])], OneTimeWithdrawers),
    Shipped(SeeWhatChanged, 30,
            [Clause(InWave, [True]), Clause(HoldBand, [StayedYears]), Clause(HasDepth, [True])], OneTimeWithdrawers),
    Shipped(TheLongHold, 40, [Clause(InWave, [True]), Clause(HoldBand, [StayedYears])], OneTimeWithdrawers),
    Shipped(YourNextDeposit, 50,
            [Clause(HoldBand, [Under2m]), Clause(PurchaseDepth, [Few, Capped])], OneTimeWithdrawers),
    Shipped(SecondTry, 60, [Clause(HoldBand, [Under2m]), Clause(PurchaseDepth, [Single])], OneTimeWithdrawers),
    Shipped(YouWoundDown, 70, [Clause(StagedExit, [True])], OneTimeWithdrawers),
    Shipped(YouWereScaling, 80, [Clause(TrendBand, [Rising])], OneTimeWithdrawers),
    Shipped(YouWereFading, 90, [Clause(TrendBand, [Falling])], OneTimeWithdrawers),
    Shipped(BackOnSchedule, 100, [Clause(PurchaseDepth, [Capped]), Clause(CadenceBand, [Tight])], OneTimeWithdrawers),
    Shipped(OnboardingRetry, 110, [Clause(PurchaseDepth, [Single])], OneTimeWithdrawers),
    Shipped(PickUpAgain, 120, [], OneTimeWithdrawers)
  ]

  const V8: seq<Rule> := [
    Rule(FirstDeposit, 1, [Clause(NeverFunded, [True])], FirstDepositWelcome, Low, HotLeads, FirstDepositWelcome),
    Shipped(SittingStill, 5, [Clause(AutoCheckin, [True])], OneTimeWithdrawers),
    Shipped(NotAGoodbye, 10, [Clause(ExitReason, [ChargeSettled])], OneTimeWithdrawers),
    Shipped(WrongShelf, 20, [Clause(FundType, [HighYield]), Clause(HoldBand, [Under2m, Under6m])], OneTimeWithdrawers),
    Shipped(SeeWhatChanged, 30,
            [Clause(InWave, [True]), Clause(HoldBand, [StayedYears]), Clause(HasDepth, [True])], OneTimeWithdrawers),
    Shipped(TheLongHold, 40, [Clause(InWave, [True]), Clause(HoldBand, [StayedYears])], OneTimeWithdrawers),
    Shipped(YourNextDeposit, 50,
            [Clause(HoldBand, [Under2m]), Clause(PurchaseDepth, [Few, Capped])], OneTimeWithdrawers),
    Shipped(SecondTry, 60, [Clause(HoldBand, [Under2m]), Clause(PurchaseDepth, [Single])], OneTimeWithdrawers),
    Shipped(YouWoundDown, 70, [Clause(StagedExit, [True])], OneTimeWithdrawers),
    Shipped(YouWereScaling, 80, [Clause(TrendBand, [Rising])], OneTimeWithdrawers),
    Shipped(YouWereFading, 90, [Clause(TrendBand, [Falling])], OneTimeWithdrawers),
    Shipped(BackOnSchedule, 100, [Clause(PurchaseDepth, [Capped]), Clause(CadenceBand, [Tight])], OneTimeWithdrawers),
    Shipped(OnboardingRetry, 110, [Clause(PurchaseDepth, [Single])], OneTimeWithdrawers),
    Shipped(FormerHighValue, 115, [Clause(HighValue, [True])], LowDepositors),
    Shipped(GrowBack, 117, [Clause(BalanceBand, [WorthSaving])], LowDepositors),
    Shipped(PickUpAgain, 120, [], OneTimeWithdrawers)
  ]

  const V9: seq<Rule> := [
    Rule(FirstDeposit, 1, [Clause(NeverFunded, [True])], FirstDepositWelcome, Low, HotLeads, FirstDepositWelcome),
    Shipped(SittingStill, 5, [Clause(AutoCheckin, [True])], OneTimeWithdrawers),
    Shipped(NotAGoodbye, 10, [Clause(ExitReason, [ChargeSettled]), Clause(HasBalance, [False])], OneTimeWithdrawers),
    Shipped(WrongShelf, 20,
            [Clause(FundType, [HighYield]), Clause(HoldBand, [Under2m, Under6m]), Clause(HasBalance, [False])],
            OneTimeWithdrawers),
    Shipped(SeeWhatChanged, 30,
            [Clause(InWave, [True]), Clause(HoldBand, [StayedYears]), Clause(HasDepth, [True]),
             Clause(HasBalance, [False])], OneTimeWithdrawers),
    Shipped(TheLongHold, 40,
            [Clause(InWave, [True]), Clause(HoldBand, [StayedYears]), Clause(HasBalance, [False])], OneTimeWithdrawers),
    Shipped(YourNextDeposit, 50,
            [Clause(HoldBand, [Under2m]), Clause(PurchaseDepth, [Few, Capped]), Clause(HasBalance, [False])],
            OneTimeWithdrawers),
    Shipped(SecondTry, 60,
            [Clause(HoldBand, [Under2m]), Clause(PurchaseDepth, [Single]), Clause(HasBalance, [False])],
            OneTimeWithdrawers),
    Shipped(YouWoundDown, 70, [Clause(StagedExit, [True]), Clause(HasBalance, [False])], OneTimeWithdrawers),
    Shipped(YouWereScaling, 80, [Clause(TrendBand, [Rising]), Clause(HasBalance, [False])], OneTimeWithdrawers),
    Shipped(YouWereFading, 90, [Clause(TrendBand, [Falling]), Clause(HasBalance, [False])], OneTimeWithdrawers),
    Shipped(BackOnSchedule, 100,
            [Clause(PurchaseDepth, [Capped]), Clause(CadenceBand, [Tight]), Clause(HasBalance, [False])],
            OneTimeWithdrawers),
    Shipped(OnboardingRetry, 110, [Clause(PurchaseDepth, [Single]), Clause(HasBalance, [False])], OneTimeWithdrawers),
    Shipped(FormerHighValue, 115, [Clause(HighValue, [True])], LowDepositors),
    Shipped(GrowBack, 117, [Clause(BalanceBand, [WorthSaving])], LowDepositors),
    Shipped(PickUpAgain, 120, [], OneTimeWithdrawers)
  ]

  /** The rename of 8cd654fa2267, on one value. */
  function HoldBandRename(v: Value): Value { if v == ParkedBriefly then Under2m else v }

  function RenamedClient(f: Features): Features { RenamedFeatures(f, HoldBand, HoldBandRename) }

  const NO_BALANCE := Clause(HasBalance, [False])

  // ----- Each version against the one before it -----

  lemma RenamedClauses(cs: seq<Clause>, ds: seq<Clause>)
    requires |cs| == |ds|
    requires forall i | 0 <= i < |cs| ::
               && ds[i].field == cs[i].field && |ds[i].allowed| == |cs[i].allowed|
               && forall k | 0 <= k < |cs[i].allowed| ::
                    ds[i].allowed[k]
                    == if cs[i].field == HoldBand then HoldBandRename(cs[i].allowed[k]) else cs[i].allowed[k]
    ensures forall i | 0 <= i < |cs| :: ds[i] == RenamedClause(cs[i], HoldBand, HoldBandRename)
  {
    forall i | 0 <= i < |cs| ensures ds[i].allowed == RenamedClause(cs[i], HoldBand, HoldBandRename).allowed {
    }
  }

  lemma V4RuleIsV3Renamed(i: nat)
    requires i < 6
    ensures V4[i] == RenamedRule(V3[i], HoldBand, HoldBandRename)
  {
    RenamedClauses(V3[i].clauses, V4[i].clauses);
  }

  lemma V4RuleIsV3Same(i: nat)
    requires 6 <= i < 12
    ensures V4[i] == RenamedRule(V3[i], HoldBand, HoldBandRename)
  {
    RenamedClauses(V3[i].clauses, V4[i].clauses);
  }

  lemma V4IsV3Renamed()
    ensures V4 == RenamedRules(V3, HoldBand, HoldBandRename)
  {
    forall i | 0 <= i < 12 ensures V4[i] == RenamedRule(V3[i], HoldBand, HoldBandRename) {
      if i < 6 { V4RuleIsV3Renamed(i); } else { V4RuleIsV3Same(i); }
    }
  }

  lemma V5IsV4WithOneOnTop()
    ensures V5 == [V5[0]] + V4
  {
  }

  lemma V6IsV5Retiered()
    ensures V6 == RetieredRules(V5, OneTimeWithdrawers)
  {
  }

  lemma V7IsV6WithOneOnTop()
    ensures V7 == [V7[0]] + V6
  {
  }

  lemma V8IsV7WithTwoAboveTheLast()
    ensures V8 == V7[..13] + V8[13..15] + V7[13..]
  {
  }

  lemma V9RuleIsV8Guarded(i: nat)
    requires 2 <= i < 13
    ensures V9[i] == GuardedRule(V8[i], NO_BALANCE)
  {
  }

  lemma V9IsV8Guarded()
    ensures V9 == V8[..2] + Guarded(V8[2..13], NO_BALANCE) + V8[13..]
  {
    forall i | 2 <= i < 13 ensures V9[i] == GuardedRule(V8[i], NO_BALANCE) {
      V9RuleIsV8Guarded(i);
    }
  }

  /** The eleven exit rules of v8 are those of v4, with their tier changed. */
  lemma ExitRulesTraced()
    ensures V8[2..13] == RetieredRules(V4[..11], OneTimeWithdrawers)
    ensures V8[..2] == V9[..2] && V8[13..] == V9[13..]
  {
    V5IsV4WithOneOnTop();
    V6IsV5Retiered();
    V7IsV6WithOneOnTop();
    V8IsV7WithTwoAboveTheLast();
    V9IsV8Guarded();
    forall i | 2 <= i < 13 ensures V8[i] == V4[i - 2].(tier := OneTimeWithdrawers) {
      assert V8[i] == V7[i] == V6[i - 1] == V5[i - 1].(tier := OneTimeWithdrawers);
    }
  }

  lemma StepsUpAnswers(rules: seq<Rule>, f: Features)
    requires StepsUp(rules)
    ensures Resolve(f, rules) == FirstMatch(rules, View(f))
  {
    StepsUpIsSorted(rules);
  }

  lemma AnswerV3(f: Features)
    ensures Resolve(f, V3) == FirstMatch(V3, View(f))
  {
    V3StepsUp();
    StepsUpAnswers(V3, f);
  }

  lemma V3StepsUp()
    ensures StepsUp(V3)
  {
  }

  lemma AnswerV4(f: Features)
    ensures Resolve(f, V4) == FirstMatch(V4, View(f))
  {
    V4StepsUp();
    StepsUpAnswers(V4, f);
  }

  lemma V4StepsUp()
    ensures StepsUp(V4)
  {
  }

  lemma AnswerV8(f: Features)
    ensures Resolve(f, V8) == FirstMatch(V8, View(f))
  {
    V8StepsUp();
    StepsUpAnswers(V8, f);
  }

  lemma V8StepsUp()
    ensures StepsUp(V8)
  {
  }

  lemma AnswerV9(f: Features)
    ensures Resolve(f, V9) == FirstMatch(V9, View(f))
  {
    V9StepsUp();
    StepsUpAnswers(V9, f);
  }

  lemma V9StepsUp()
    ensures StepsUp(V9)
  {
  }

  lemma AnswerWithoutExits(f: Features)
    ensures Resolve(f, V8[..2] + V8[13..]) == FirstMatch(V8[..2] + V8[13..], View(f))
  {
    StepsUpIsSorted(V8[..2] + V8[13..]);
  }

  // ----- What each client is told -----

  lemma SingleClause(r: Rule, field: Field, v: Value, f: Features)
    requires r.clauses == [Clause(field, [v])]
    ensures Matches(r, f) <==> Says(f, field, v)
  {
    assert Holds(r.clauses[0], f) <==> Says(f, field, v);
  }

  /** The two rules on top of v9. */
  lemma TopOfV9(f: Features)
    ensures FirstMatch(V9[..2], f)
         == if Says(f, NeverFunded, True) then Some(V9[0])
            else if Says(f, AutoCheckin, True) then Some(V9[1]) else None
  {
    SingleClause(V9[0], NeverFunded, True, f);
    SingleClause(V9[1], AutoCheckin, True, f);
    assert V9[..2] == [V9[0]] + [V9[1]];
    FirstMatchConcat([V9[0]], [V9[1]], f);
    FirstMatchOne(V9[0], f);
    FirstMatchOne(V9[1], f);
  }

  /** The two growth rules and the catch-all at the bottom of v9. */
  lemma BottomOfV9(f: Features)
    ensures FirstMatch(V9[13..], f)
         == if Says(f, HighValue, True) then Some(V9[13])
            else if Says(f, BalanceBand, WorthSaving) then Some(V9[14]) else Some(V9[15])
  {
    SingleClause(V9[13], HighValue, True, f);
    SingleClause(V9[14], BalanceBand, WorthSaving, f);
    assert V9[13..] == [V9[13]] + ([V9[14]] + [V9[15]]);
    FirstMatchConcat([V9[13]], [V9[14]] + [V9[15]], f);
    FirstMatchConcat([V9[14]], [V9[15]], f);
    FirstMatchOne(V9[13], f);
    FirstMatchOne(V9[14], f);
    FirstMatchOne(V9[15], f);
    assert Matches(V9[15], f);
  }

  lemma {:induction false} WinnerIsAmong(rules: seq<Rule>, f: Features)
    requires FirstMatch(rules, f).Some?
    ensures exists i | 0 <= i < |rules| :: FirstMatch(rules, f) == Some(rules[i]) && Matches(rules[i], f)
  {
    if !Matches(rules[0], f) {
      WinnerIsAmong(rules[1..], f);
      var i :| 0 <= i < |rules[1..]| && FirstMatch(rules[1..], f) == Some(rules[1..][i]) && Matches(rules[1..][i], f);
      assert rules[i + 1] == rules[1..][i];
    }
  }

  lemma V3Answer(f: Features)
    ensures FirstMatch(V3, f) == FirstMatch(V3[..11], f).Or(Some(V3[11]))
    ensures FirstMatch(V3[..11], f).Some? ==> FirstMatch(V3[..11], f).value.angle != PickUpAgain
    ensures FirstMatch(V3, f).value.variant == FirstMatch(V3, f).value.angle
  {
    FirstMatchConcat(V3[..11], [V3[11]], f);
    assert V3 == V3[..11] + [V3[11]];
    assert Matches(V3[11], f);
    if FirstMatch(V3[..11], f).Some? {
      WinnerIsAmong(V3[..11], f);
    }
  }

  lemma V4Answer(f: Features)
    ensures FirstMatch(V4, f) == FirstMatch(V4[..11], f).Or(Some(V4[11]))
    ensures FirstMatch(V4[..11], f).Some? ==> FirstMatch(V4[..11], f).value.angle != PickUpAgain
    ensures FirstMatch(V4, f).value.variant == FirstMatch(V4, f).value.angle
  {
    FirstMatchConcat(V4[..11], [V4[11]], f);
    assert V4 == V4[..11] + [V4[11]];
    assert Matches(V4[11], f);
    if FirstMatch(V4[..11], f).Some? {
      WinnerIsAmong(V4[..11], f);
    }
  }

  lemma SeparatesHoldBand(f: Features)
    requires !Says(f, HoldBand, Under2m)
    ensures SeparatesAll(V3, HoldBand, HoldBandRename, f)
  {
    forall i, j | 0 <= i < 12 && 0 <= j < |V3[i].clauses|
      ensures Separates(V3[i].clauses[j], HoldBand, HoldBandRename, f)
    {
      forall k | 0 <= k < |V3[i].clauses[j].allowed| ensures V3[i].clauses[j].allowed[k] != Under2m {
      }
    }
  }

  // ----- v3 to v4: the rename -----

  predicate DepthKnown(f: Features) {
    Says(f, PurchaseDepth, Few) || Says(f, PurchaseDepth, Capped) || Says(f, PurchaseDepth, Single)
  }

  /** The rename cannot mislead: the client did not already hold the new value, or no
      rule that gained it decides for this client. */
  predicate RenameSafe(f: Features) {
    Says(f, HoldBand, Under2m) ==>
      Says(f, ExitReason, ChargeSettled) || (!Says(f, FundType, HighYield) && !DepthKnown(f))
  }

  lemma TwoClauses(r: Rule, c: Clause, d: Clause, f: Features)
    requires r.clauses == [c, d]
    ensures Matches(r, f) <==> Holds(c, f) && Holds(d, f)
  {
    assert r.clauses[0] == c && r.clauses[1] == d;
  }

  /** On a client already holding the new value, the five rules that name a band. */
  lemma BandRulesOfV3(f: Features)
    requires Says(f, HoldBand, Under2m)
    ensures FirstMatch(V3[1..6], f).None?
  {
    forall i | 1 <= i < 6 ensures !Matches(V3[i], f) {
      var j := if i == 4 || i == 5 then 0 else 1;
      assert !Holds(V3[i].clauses[j], f);
    }
    NoneMatches(V3[1..6], f);
  }

  lemma {:induction false} NoneMatches(rules: seq<Rule>, f: Features)
    ensures FirstMatch(rules, f).None? <==> forall i | 0 <= i < |rules| :: !Matches(rules[i], f)
  {
    if rules != [] {
      NoneMatches(rules[1..], f);
      assert forall i | 0 < i < |rules| :: rules[i] == rules[1..][i - 1];
    }
  }

  lemma BandRuleOfV4(f: Features, i: nat)
    requires Says(f, HoldBand, Under2m) && (i == 1 || i == 4 || i == 5)
    ensures Matches(V4[i], f) <==>
              if i == 1 then Says(f, FundType, HighYield)
              else if i == 4 then Says(f, PurchaseDepth, Few) || Says(f, PurchaseDepth, Capped)
              else Says(f, PurchaseDepth, Single)
  {
    TwoClauses(V4[i], V4[i].clauses[0], V4[i].clauses[1], f);
  }

  lemma WaveRulesOfV4(f: Features)
    requires Says(f, HoldBand, Under2m)
    ensures !Matches(V4[2], f) && !Matches(V4[3], f)
  {
    assert !Holds(V4[2].clauses[1], f) && !Holds(V4[3].clauses[1], f);
  }

  lemma FirstOfFive(rules: seq<Rule>, f: Features)
    requires |rules| == 5 && !Matches(rules[1], f) && !Matches(rules[2], f)
    ensures FirstMatch(rules, f).None? <==> !Matches(rules[0], f) && !Matches(rules[3], f) && !Matches(rules[4], f)
    ensures FirstMatch(rules, f).Some? ==>
              FirstMatch(rules, f).value.angle in {rules[0].angle, rules[3].angle, rules[4].angle}
  {
    NoneMatches(rules, f);
    if FirstMatch(rules, f).Some? {
      WinnerIsAmong(rules, f);
    }
  }

  lemma BandRulesOfV4(f: Features)
    requires Says(f, HoldBand, Under2m)
    ensures FirstMatch(V4[1..6], f).None? <==> !Says(f, FundType, HighYield) && !DepthKnown(f)
    ensures FirstMatch(V4[1..6], f).Some? ==>
              FirstMatch(V4[1..6], f).value.angle in {WrongShelf, YourNextDeposit, SecondTry}
  {
    BandRuleOfV4(f, 1);
    BandRuleOfV4(f, 4);
    BandRuleOfV4(f, 5);
    WaveRulesOfV4(f);
    FirstOfFive(V4[1..6], f);
  }

  lemma LaterRulesOfV3(f: Features)
    ensures V4[6..] == V3[6..] && V4[0] == V3[0]
    ensures FirstMatch(V3[6..], f).Some? ==>
              FirstMatch(V3[6..], f).value.angle !in {WrongShelf, YourNextDeposit, SecondTry}
  {
    if FirstMatch(V3[6..], f).Some? {
      WinnerIsAmong(V3[6..], f);
    }
  }

  function OnlyIf(r: Rule, f: Features): Option<Rule> { if Matches(r, f) then Some(r) else None }

  lemma InThree(rules: seq<Rule>, f: Features)
    requires |rules| > 6
    ensures FirstMatch(rules, f)
         == OnlyIf(rules[0], f).Or(FirstMatch(rules[1..6], f)).Or(FirstMatch(rules[6..], f))
  {
    assert rules == [rules[0]] + rules[1..6] + rules[6..];
    FirstMatchConcat([rules[0]] + rules[1..6], rules[6..], f);
    FirstMatchConcat([rules[0]], rules[1..6], f);
    FirstMatchOne(rules[0], f);
  }

  /** v4's answer is v3's, unless a band rule that v3 did not have decides. */
  lemma BandDecides(first: Option<Rule>, band: Option<Rule>, rest: Option<Rule>)
    requires first.Some? ==> first.value.angle == NotAGoodbye
    requires band.Some? ==> band.value.angle in {WrongShelf, YourNextDeposit, SecondTry}
    requires rest.Some? && rest.value.angle !in {WrongShelf, YourNextDeposit, SecondTry}
    ensures var was, now := first.Or(None).Or(rest).value, first.Or(band).Or(rest).value;
            && (now.angle == was.angle <==> first.Some? || band.None?)
            && (now.angle != was.angle ==> now.angle != PickUpAgain)
  {
  }

  lemma LaterRulesAnswer(f: Features)
    ensures FirstMatch(V3[6..], f).Some?
  {
    FirstMatchConcat(V3[6..11], [V3[11]], f);
    assert V3[6..] == V3[6..11] + [V3[11]];
    assert Matches(V3[11], f);
  }

  /** The same for two lists that differ in their band rules only. */
  lemma BandDecidesInLists(v3: seq<Rule>, v4: seq<Rule>, f: Features)
    requires |v3| > 6 && |v4| > 6 && v4[0] == v3[0] && v4[6..] == v3[6..]
    requires v3[0].angle == NotAGoodbye && FirstMatch(v3[1..6], f).None?
    requires FirstMatch(v4[1..6], f).Some? ==>
               FirstMatch(v4[1..6], f).value.angle in {WrongShelf, YourNextDeposit, SecondTry}
    requires FirstMatch(v3[6..], f).Some?
    requires FirstMatch(v3[6..], f).value.angle !in {WrongShelf, YourNextDeposit, SecondTry}
    ensures FirstMatch(v3, f).Some? && FirstMatch(v4, f).Some?
    ensures var was, now := FirstMatch(v3, f).value, FirstMatch(v4, f).value;
            && (now.angle == was.angle <==> Matches(v3[0], f) || FirstMatch(v4[1..6], f).None?)
            && (now.angle != was.angle ==> now.angle != PickUpAgain)
  {
    InThree(v3, f);
    InThree(v4, f);
    BandDecides(OnlyIf(v3[0], f), FirstMatch(v4[1..6], f), FirstMatch(v3[6..], f));
  }

  lemma HolderUnchanged(f: Features)
    requires Says(f, HoldBand, Under2m)
    ensures RenamedClient(f) == f
  {
  }

  lemma RenameOfHolder(f: Features)
    requires Says(f, HoldBand, Under2m)
    ensures FirstMatch(V3, f).Some? && FirstMatch(V4, f).Some?
    ensures RenameSafe(f) <==> FirstMatch(V4, f).value.angle == FirstMatch(V3, f).value.angle
    ensures !RenameSafe(f) ==> FirstMatch(V4, f).value.angle != PickUpAgain
  {
    SingleClause(V3[0], ExitReason, ChargeSettled, f);
    BandRulesOfV3(f);
    BandRulesOfV4(f);
    LaterRulesOfV3(f);
    LaterRulesAnswer(f);
    BandDecidesInLists(V3, V4, f);
  }

  lemma RenameOfOthers(f: Features)
    requires !Says(f, HoldBand, Under2m)
    ensures FirstMatch(V3, f).Some? && FirstMatch(V4, RenamedClient(f)).Some?
    ensures FirstMatch(V4, RenamedClient(f)).value.angle == FirstMatch(V3, f).value.angle
  {
    V3Answer(f);
    V4IsV3Renamed();
    SeparatesHoldBand(f);
    RenamingKeepsWinner(V3, HoldBand, HoldBandRename, f);
  }

  lemma RenameOnView(v: Features)
    ensures FirstMatch(V3, v).Some? && FirstMatch(V4, RenamedClient(v)).Some?
    ensures RenameSafe(v) <==> FirstMatch(V4, RenamedClient(v)).value.angle == FirstMatch(V3, v).value.angle
    ensures !RenameSafe(v) ==> FirstMatch(V4, RenamedClient(v)).value.angle != PickUpAgain
  {
    if Says(v, HoldBand, Under2m) {
      HolderUnchanged(v);
      RenameOfHolder(v);
    } else {
      RenameOfOthers(v);
    }
  }

  /** v4 on the renamed client says what v3 said before, exactly when the rename is safe
      for that client. */
  lemma RenameKeepsAngleExactly(f: Features)
    ensures Resolve(f, V3).Some? && Resolve(RenamedClient(f), V4).Some?
    ensures Resolve(RenamedClient(f), V4).value.angle == Resolve(f, V3).value.angle <==> RenameSafe(f)
  {
    AnswerV3(f);
    AnswerV4(RenamedClient(f));
    ViewOfRenamed(f);
    RenameOnView(View(f));
    SaysOnView(f);
  }

  // ----- v4 to v9 -----

  /** v9's exit rules pick what v4's pick, unless the client still holds a balance. */
  lemma ExitAnswer(f: Features)
    ensures var won := FirstMatch(Guarded(V8[2..13], NO_BALANCE), f);
            match FirstMatch(V4[..11], f)
            case None => won.None?
            case Some(r) =>
              if Says(f, HasBalance, False) then
                won.Some? && won.value.angle == r.angle && won.value.variant == r.variant
              else won.None?
  {
    ExitRulesTraced();
    RetieringKeepsWinner(V4[..11], OneTimeWithdrawers, f);
    GuardingExact(V8[2..13], NO_BALANCE, f);
    assert Holds(NO_BALANCE, f) <==> Says(f, HasBalance, False);
  }

  lemma V9Split(f: Features)
    ensures FirstMatch(V9, f)
         == FirstMatch(V9[..2], f).Or(FirstMatch(Guarded(V8[2..13], NO_BALANCE), f)).Or(FirstMatch(V9[13..], f))
  {
    ExitRulesTraced();
    V9IsV8Guarded();
    FirstMatchConcat(V9[..2] + Guarded(V8[2..13], NO_BALANCE), V9[13..], f);
    FirstMatchConcat(V9[..2], Guarded(V8[2..13], NO_BALANCE), f);
  }

  lemma ViewOfRenamed(f: Features)
    ensures View(RenamedClient(f)) == RenamedClient(View(f))
  {
  }

  /** What v9 tells a client, in terms of what it was told before. */
  function V9Angle(f: Features, before: Angle): Angle {
    if Says(f, NeverFunded, True) then FirstDepositWelcome
    else if Says(f, AutoCheckin, True) then SittingStill
    else if Says(f, HasBalance, False) && before != PickUpAgain then before
    else if Says(f, HighValue, True) then FormerHighValue
    else if Says(f, BalanceBand, WorthSaving) then GrowBack
    else PickUpAgain
  }

  /** v3 and v9 cut into the pieces the changes moved, for any such pieces. */
  lemma FromPieces(
    f: Features, was: Option<Rule>, last: Rule, top: Option<Rule>, exit: Option<Rule>, bottom: Option<Rule>)
    requires was.Some? ==> was.value.angle != PickUpAgain
    requires last.angle == PickUpAgain
    requires top == if Says(f, NeverFunded, True) then Some(V9[0])
                    else if Says(f, AutoCheckin, True) then Some(V9[1]) else None
    requires match was
             case None => exit.None?
             case Some(r) =>
               if Says(f, HasBalance, False) then
                 exit.Some? && exit.value.angle == r.angle && exit.value.variant == r.angle
               else exit.None?
    requires bottom == if Says(f, HighValue, True) then Some(V9[13])
                       else if Says(f, BalanceBand, WorthSaving) then Some(V9[14]) else Some(V9[15])
    ensures var now := top.Or(exit).Or(bottom);
            now.Some? && now.value.angle == now.value.variant == V9Angle(f, was.Or(Some(last)).value.angle)
  {
  }

  /** The answer `now` is the one v9 owes the client `f`, who was told `was`. */
  ghost predicate Follows(f: Features, was: Option<Rule>, now: Option<Rule>) {
    && was.Some? && now.Some?
    && now.value.angle == now.value.variant == V9Angle(f, was.value.angle)
  }

  lemma V9FollowsV4OnView(v: Features)
    ensures Follows(v, FirstMatch(V4, v), FirstMatch(V9, v))
  {
    V4Answer(v);
    V9Split(v);
    TopOfV9(v);
    ExitAnswer(v);
    BottomOfV9(v);
    FromPieces(v, FirstMatch(V4[..11], v), V4[11], FirstMatch(V9[..2], v),
               FirstMatch(Guarded(V8[2..13], NO_BALANCE), v), FirstMatch(V9[13..], v));
  }

  lemma SaysOnView(f: Features)
    ensures forall k: Field, x: Value | !k.Unlisted? :: Says(View(f), k, x) == Says(f, k, x)
    ensures RenameSafe(View(f)) == RenameSafe(f)
    ensures forall a :: V9Angle(View(f), a) == V9Angle(f, a)
  {
  }

  /** Five rule sets later every client gets one angle, with the prompt variant of the
      same name, and it is the one `V9Angle` gives from the angle v4 gave. */
  lemma V9FollowsV4(f: Features)
    ensures Follows(f, Resolve(f, V4), Resolve(f, V9))
  {
    AnswerV4(f);
    AnswerV9(f);
    SaysOnView(f);
    V9FollowsV4OnView(View(f));
  }

  lemma FollowsRenamed(f: Features, was: Option<Rule>, now: Option<Rule>)
    ensures Follows(RenamedClient(f), was, now) == Follows(f, was, now)
  {
  }

  lemma FollowsSameAngle(f: Features, was: Option<Rule>, other: Option<Rule>, now: Option<Rule>)
    requires Follows(f, was, now)
    requires other.Some? && other.value.angle == was.value.angle
    ensures Follows(f, other, now)
  {
  }

  /** The whole chain: what every client for whom the rename is safe is told by v9 is
      given by what v3 told that client before it. */
  lemma WholeChain(f: Features)
    requires RenameSafe(f)
    ensures Follows(f, Resolve(f, V3), Resolve(RenamedClient(f), V9))
  {
    var g := RenamedClient(f);
    RenameKeepsAngleExactly(f);
    V9FollowsV4(g);
    FollowsSameAngle(g, Resolve(g, V4), Resolve(f, V3), Resolve(g, V9));
    FollowsRenamed(f, Resolve(f, V3), Resolve(g, V9));
  }

  /** A funded client, sold out and not on automatic check-in, whom v3 gave anything but
      its catch-all, keeps that angle in v9 exactly when the rename is safe. */
  lemma MeaningKeptExactly(f: Features)
    requires Says(f, HasBalance, False) && !Says(f, NeverFunded, True) && !Says(f, AutoCheckin, True)
    requires Resolve(f, V3).Some? && Resolve(f, V3).value.angle != PickUpAgain
    ensures var now := Resolve(RenamedClient(f), V9);
            && now.Some? && now.value.variant == now.value.angle
            && (now.value.angle == Resolve(f, V3).value.angle <==> RenameSafe(f))
  {
    var g := RenamedClient(f);
    RenameKeepsAngleExactly(f);
    if !RenameSafe(f) {
      UnsafeAngle(f);
    }
    V9FollowsV4(g);
    FollowsRenamed(f, Resolve(g, V4), Resolve(g, V9));
  }

  lemma UnsafeAngle(f: Features)
    requires !RenameSafe(f)
    ensures Resolve(RenamedClient(f), V4).Some? && Resolve(RenamedClient(f), V4).value.angle != PickUpAgain
  {
    AnswerV4(RenamedClient(f));
    ViewOfRenamed(f);
    RenameOnView(View(f));
    SaysOnView(f);
  }

  lemma V8Split(f: Features)
    ensures FirstMatch(V8, f)
         == FirstMatch(V8[..2], f).Or(FirstMatch(V8[2..13], f)).Or(FirstMatch(V8[13..], f))
    ensures FirstMatch(V8[..2] + V8[13..], f) == FirstMatch(V8[..2], f).Or(FirstMatch(V8[13..], f))
  {
    assert V8 == V8[..2] + V8[2..13] + V8[13..];
    FirstMatchConcat(V8[..2] + V8[2..13], V8[13..], f);
    FirstMatchConcat(V8[..2], V8[2..13], f);
    FirstMatchConcat(V8[..2], V8[13..], f);
  }

  function Outputs(r: Option<Rule>): Option<Rule> {
    match r case None => None case Some(rule) => Some(rule.(clauses := []))
  }

  lemma V9AgainstV8(v: Features)
    ensures if Says(v, HasBalance, False) then Outputs(FirstMatch(V9, v)) == Outputs(FirstMatch(V8, v))
            else FirstMatch(V9, v) == FirstMatch(V8[..2] + V8[13..], v)
  {
    ExitRulesTraced();
    V8Split(v);
    V9Split(v);
    GuardingExact(V8[2..13], NO_BALANCE, v);
    assert Holds(NO_BALANCE, v) <==> Says(v, HasBalance, False);
  }

  /** A client with a balance of zero gets from v9 every output v8 gave; any other one
      gets what v8 gives with its eleven exit rules deleted. */
  lemma GuardOnlySkipsExits(f: Features)
    ensures if Says(f, HasBalance, False) then Outputs(Resolve(f, V9)) == Outputs(Resolve(f, V8))
            else Resolve(f, V9) == Resolve(f, V8[..2] + V8[13..])
  {
    AnswerV8(f);
    AnswerV9(f);
    AnswerWithoutExits(f);
    V9AgainstV8(View(f));
  }

  /** So a client not known to have a zero balance is told one of five things. */
  lemma HoldingBalanceFiveAngles(f: Features)
    requires !Says(f, HasBalance, False)
    ensures Resolve(f, V9).Some?
    ensures Resolve(f, V9).value.angle in {FirstDepositWelcome, SittingStill, FormerHighValue, GrowBack, PickUpAgain}
  {
    var v := View(f);
    AnswerV9(f);
    V9Split(v);
    GuardingExact(V8[2..13], NO_BALANCE, v);
    TopOfV9(v);
    BottomOfV9(v);
  }
}
