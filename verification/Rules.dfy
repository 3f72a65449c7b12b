/** The first-match rule engine (src/app/rules/engine.py) and what changing a rule
    list does to its answers, for any list and any client. */
module Rules {
  import opened Common

  /** The match fields the shipped rules use, and any other. */
  datatype Field =
    | ExitReason | FundType | HoldBand | InWave | HasDepth | PurchaseDepth | StagedExit
    | TrendBand | CadenceBand | AutoCheckin | NeverFunded | HighValue | BalanceBand | HasBalance
    | OtherListed(name: string)
    | Unlisted(name: string)

  /** The values the shipped rules name, and any other. */
  datatype Value =
    | True | False
    | ChargeSettled | HighYield | ParkedBriefly | Under2m | Under6m | StayedYears
    | Few | Capped | Single | Rising | Falling | Tight | WorthSaving
    | Other(text: string)

  /** Angles, prompt variants and rule names share one vocabulary. */
  datatype Angle =
    | FirstDeposit | FirstDepositWelcome | SittingStill
    | NotAGoodbye | WrongShelf | SeeWhatChanged | TheLongHold | YourNextDeposit | SecondTry
    | YouWoundDown | YouWereScaling | YouWereFading | BackOnSchedule | OnboardingRetry
    | FormerHighValue | GrowBack | PickUpAgain

  datatype Urgency = Low | Medium | High

  datatype Tier = T3 | OneTimeWithdrawers | HotLeads | LowDepositors

  datatype Clause = Clause(field: Field, allowed: seq<Value>)

  datatype Rule = Rule(
    name: Angle, priority: int, clauses: seq<Clause>, angle: Angle, urgency: Urgency, tier: Tier,
    variant: Angle)

  type Features = map<Field, Value>

  predicate Holds(c: Clause, f: Features) { c.field in f && f[c.field] in c.allowed }

  predicate Says(f: Features, field: Field, v: Value) { field in f && f[field] == v }

  predicate Matches(r: Rule, f: Features) {
    forall i | 0 <= i < |r.clauses| :: Holds(r.clauses[i], f)
  }

  function FirstMatch(rules: seq<Rule>, f: Features): Option<Rule> {
    if rules == [] then None
    else if Matches(rules[0], f) then Some(rules[0]) else FirstMatch(rules[1..], f)
  }

  function Insert(r: Rule, rules: seq<Rule>): seq<Rule> {
    if rules == [] || r.priority < rules[0].priority then [r] + rules
    else [rules[0]] + Insert(r, rules[1..])
  }

  /** sorted(rules, key=priority), which is stable. */
  function ByPriority(rules: seq<Rule>): seq<Rule> {
    if rules == [] then [] else Insert(rules[|rules| - 1], ByPriority(rules[..|rules| - 1]))
  }

  /** Only allow-listed features are consulted. */
  function View(f: Features): Features {
    map k | k in f && !k.Unlisted? :: f[k]
  }

  function Resolve(f: Features, rules: seq<Rule>): Option<Rule> {
    FirstMatch(ByPriority(rules), View(f))
  }

  // ----- What the engine means -----

  ghost predicate Ascending(rules: seq<Rule>) {
    forall i, j | 0 <= i < j < |rules| :: rules[i].priority <= rules[j].priority
  }

  lemma {:induction false} InsertExact(r: Rule, rules: seq<Rule>)
    requires Ascending(rules)
    ensures Ascending(Insert(r, rules))
    ensures forall x :: x in Insert(r, rules) <==> x == r || x in rules
  {
    if rules != [] && r.priority >= rules[0].priority {
      var rest := rules[1..];
      assert forall i | 0 <= i < |rest| :: rest[i] == rules[i + 1];
      InsertExact(r, rest);
      assert forall x :: x in rules <==> x == rules[0] || x in rest;
      forall x | x in rest ensures rules[0].priority <= x.priority {
        var i :| 0 <= i < |rest| && rest[i] == x;
        assert rules[i + 1] == x;
      }
    }
  }

  lemma {:induction false} ByPriorityExact(rules: seq<Rule>)
    ensures Ascending(ByPriority(rules))
    ensures forall x :: x in ByPriority(rules) <==> x in rules
  {
    if rules != [] {
      ByPriorityExact(rules[..|rules| - 1]);
      InsertExact(rules[|rules| - 1], ByPriority(rules[..|rules| - 1]));
      assert rules == rules[..|rules| - 1] + [rules[|rules| - 1]];
    }
  }

  lemma {:induction false} FirstMatchIsLeast(rules: seq<Rule>, f: Features)
    requires Ascending(rules)
    ensures match FirstMatch(rules, f)
            case None => forall r | r in rules :: !Matches(r, f)
            case Some(best) =>
              && best in rules && Matches(best, f)
              && forall r | r in rules && Matches(r, f) :: best.priority <= r.priority
  {
    if rules != [] {
      var rest := rules[1..];
      assert forall i | 0 <= i < |rest| :: rest[i] == rules[i + 1];
      FirstMatchIsLeast(rest, f);
      assert forall x :: x in rules <==> x == rules[0] || x in rest;
      forall x | x in rest ensures rules[0].priority <= x.priority {
        var i :| 0 <= i < |rest| && rest[i] == x;
        assert rules[i + 1] == x;
      }
    }
  }

  /** With priorities unique, as the table's key makes them, the answer is the one
      matching rule of least priority, whatever order the rows come in, and it does
      not depend on any feature outside the allow list. */
  lemma ResolveExact(f: Features, rules: seq<Rule>, r: Rule)
    requires forall a, b | a in rules && b in rules && a.priority == b.priority :: a == b
    ensures Resolve(f, rules) == Some(r) <==>
            && r in rules && Matches(r, View(f))
            && forall o | o in rules && Matches(o, View(f)) :: r.priority <= o.priority
    ensures Resolve(f, rules).None? <==> forall o | o in rules :: !Matches(o, View(f))
  {
    ByPriorityExact(rules);
    FirstMatchIsLeast(ByPriority(rules), View(f));
  }

  lemma {:induction false} InsertLast(r: Rule, rules: seq<Rule>)
    requires forall x | x in rules :: x.priority <= r.priority
    ensures Insert(r, rules) == rules + [r]
  {
    if rules != [] {
      InsertLast(r, rules[1..]);
    }
  }

  lemma {:induction false} AscendingIsSorted(rules: seq<Rule>)
    requires Ascending(rules)
    ensures ByPriority(rules) == rules
  {
    if rules != [] {
      var rest, last := rules[..|rules| - 1], rules[|rules| - 1];
      AscendingIsSorted(rest);
      InsertLast(last, rest);
      assert rules == rest + [last];
    }
  }

  ghost predicate StepsUp(rules: seq<Rule>) {
    forall i | 0 < i < |rules| :: rules[i - 1].priority <= rules[i].priority
  }

  lemma {:induction false} StepsUpIsSorted(rules: seq<Rule>)
    requires StepsUp(rules)
    ensures Ascending(rules) && ByPriority(rules) == rules
  {
    if |rules| > 1 {
      var rest := rules[..|rules| - 1];
      StepsUpIsSorted(rest);
      assert rest[|rest| - 1] == rules[|rules| - 2];
    }
    AscendingIsSorted(rules);
  }

  // ----- Changing a list -----

  lemma FirstMatchOne(r: Rule, f: Features)
    ensures FirstMatch([r], f) == if Matches(r, f) then Some(r) else None
  {
  }

  lemma {:induction false} FirstMatchConcat(a: seq<Rule>, b: seq<Rule>, f: Features)
    ensures FirstMatch(a + b, f) == FirstMatch(a, f).Or(FirstMatch(b, f))
  {
    if a == [] {
      assert a + b == b;
    } else {
      assert (a + b)[1..] == a[1..] + b;
      FirstMatchConcat(a[1..], b, f);
    }
  }

  // Renaming the values of one field.

  function RenamedValues(vs: seq<Value>, s: Value -> Value): seq<Value> {
    seq(|vs|, i requires 0 <= i < |vs| => s(vs[i]))
  }

  function RenamedClause(c: Clause, field: Field, s: Value -> Value): Clause {
    if c.field == field then Clause(field, RenamedValues(c.allowed, s)) else c
  }

  function RenamedRule(r: Rule, field: Field, s: Value -> Value): Rule {
    r.(clauses := seq(|r.clauses|, i requires 0 <= i < |r.clauses| => RenamedClause(r.clauses[i], field, s)))
  }

  function RenamedRules(rules: seq<Rule>, field: Field, s: Value -> Value): seq<Rule> {
    seq(|rules|, i requires 0 <= i < |rules| => RenamedRule(rules[i], field, s))
  }

  function RenamedFeatures(f: Features, field: Field, s: Value -> Value): Features {
    map k | k in f :: if k == field then s(f[k]) else f[k]
  }

  /** The renaming is injective as far as this client can tell: no value a clause
      allows is renamed to the client's new value unless it was the client's value. */
  ghost predicate Separates(c: Clause, field: Field, s: Value -> Value, f: Features) {
    c.field == field && field in f ==>
      forall k | 0 <= k < |c.allowed| :: s(c.allowed[k]) == s(f[field]) ==> c.allowed[k] == f[field]
  }

  ghost predicate SeparatesAll(rules: seq<Rule>, field: Field, s: Value -> Value, f: Features) {
    forall i, j | 0 <= i < |rules| && 0 <= j < |rules[i].clauses| :: Separates(rules[i].clauses[j], field, s, f)
  }

  lemma RenamedClauseHolds(c: Clause, field: Field, s: Value -> Value, f: Features)
    requires Separates(c, field, s, f)
    ensures Holds(RenamedClause(c, field, s), RenamedFeatures(f, field, s)) == Holds(c, f)
  {
    if c.field == field && field in f {
      var renamed := RenamedValues(c.allowed, s);
      if f[field] in c.allowed {
        var i :| 0 <= i < |c.allowed| && c.allowed[i] == f[field];
        assert renamed[i] == s(f[field]);
      }
      if s(f[field]) in renamed {
        var i :| 0 <= i < |renamed| && renamed[i] == s(f[field]);
        assert c.allowed[i] in c.allowed;
      }
    }
  }

  /** Renaming a field's values in the rules and in the client alike, injectively,
      keeps the winning rule. */
  lemma {:induction false} RenamingKeepsWinner(rules: seq<Rule>, field: Field, s: Value -> Value, f: Features)
    requires SeparatesAll(rules, field, s, f)
    ensures FirstMatch(RenamedRules(rules, field, s), RenamedFeatures(f, field, s))
         == match FirstMatch(rules, f) case None => None case Some(r) => Some(RenamedRule(r, field, s))
  {
    if rules != [] {
      var r, renamed := rules[0], RenamedRule(rules[0], field, s);
      forall i | 0 <= i < |r.clauses|
        ensures Holds(renamed.clauses[i], RenamedFeatures(f, field, s)) == Holds(r.clauses[i], f)
      {
        RenamedClauseHolds(r.clauses[i], field, s, f);
      }
      assert Matches(renamed, RenamedFeatures(f, field, s)) == Matches(r, f);
      assert RenamedRules(rules, field, s)[1..] == RenamedRules(rules[1..], field, s);
      RenamingKeepsWinner(rules[1..], field, s, f);
    }
  }

  // Adding one clause to every rule of a list.

  function GuardedRule(r: Rule, c: Clause): Rule { r.(clauses := r.clauses + [c]) }

  function Guarded(rules: seq<Rule>, c: Clause): seq<Rule> {
    seq(|rules|, i requires 0 <= i < |rules| => GuardedRule(rules[i], c))
  }

  lemma GuardedRuleMatches(r: Rule, c: Clause, f: Features)
    ensures Matches(GuardedRule(r, c), f) <==> Matches(r, f) && Holds(c, f)
  {
    var g := GuardedRule(r, c);
    assert g.clauses[|r.clauses|] == c;
    assert forall i | 0 <= i < |r.clauses| :: g.clauses[i] == r.clauses[i];
  }

  /** A guard that holds changes no winner; one that does not deletes the guarded rules. */
  lemma {:induction false} GuardingExact(rules: seq<Rule>, c: Clause, f: Features)
    ensures FirstMatch(Guarded(rules, c), f)
         == match FirstMatch(rules, f)
            case None => None
            case Some(r) => if Holds(c, f) then Some(GuardedRule(r, c)) else None
  {
    if rules != [] {
      GuardedRuleMatches(rules[0], c, f);
      assert Guarded(rules, c)[1..] == Guarded(rules[1..], c);
      GuardingExact(rules[1..], c, f);
    }
  }

  // Changing outputs only.

  function RetieredRules(rules: seq<Rule>, tier: Tier): seq<Rule> {
    seq(|rules|, i requires 0 <= i < |rules| => rules[i].(tier := tier))
  }

  lemma {:induction false} RetieringKeepsWinner(rules: seq<Rule>, tier: Tier, f: Features)
    ensures FirstMatch(RetieredRules(rules, tier), f)
         == match FirstMatch(rules, f) case None => None case Some(r) => Some(r.(tier := tier))
  {
    if rules != [] {
      assert RetieredRules(rules, tier)[1..] == RetieredRules(rules[1..], tier);
      RetieringKeepsWinner(rules[1..], tier, f);
    }
  }
}
