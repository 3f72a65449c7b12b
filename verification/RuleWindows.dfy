/** The rule table's validity windows: saving a rule set, the upgrade and downgrade of
    each shipped version, and the correction of fa894fc0413a
    (src/app/rules/store.py and the business_rules migrations). */
module RuleWindows {
  import opened Common
  import opened Validity
  import opened Rules

  datatype RuleRow = RuleRow(rule: Rule, window: Window)

  datatype SaveError = VersionExists(version: int)

  function Windows(rows: seq<RuleRow>): seq<Window> {
    seq(|rows|, i requires 0 <= i < |rows| => rows[i].window)
  }

  predicate HasVersion(rows: seq<RuleRow>, version: int) {
    exists i | 0 <= i < |rows| :: rows[i].window.version == version
  }

  function NewRows(rules: seq<Rule>, window: Window): seq<RuleRow> {
    seq(|rules|, i requires 0 <= i < |rules| => RuleRow(rules[i], window))
  }

  /** UPDATE … SET valid_to WHERE version, whatever the end was. */
  function EndVersion(rows: seq<RuleRow>, version: int, end: Option<int>): seq<RuleRow> {
    seq(|rows|, i requires 0 <= i < |rows| =>
      if rows[i].window.version == version then rows[i].(window := rows[i].window.(validTo := end)) else rows[i])
  }

  function StartVersion(rows: seq<RuleRow>, version: int, start: int): seq<RuleRow> {
    seq(|rows|, i requires 0 <= i < |rows| =>
      if rows[i].window.version == version then rows[i].(window := rows[i].window.(validFrom := Some(start)))
      else rows[i])
  }

  function WithoutVersion(rows: seq<RuleRow>, version: int): seq<RuleRow> {
    if rows == [] then []
    else
      var rest := WithoutVersion(rows[1..], version);
      if rows[0].window.version == version then rest else [rows[0]] + rest
  }

  function Added(rows: seq<RuleRow>, version: int, rules: seq<Rule>, day: int): seq<RuleRow> {
    rows + NewRows(rules, Window(version, Some(day), None))
  }

  function Upgraded(rows: seq<RuleRow>, version: int, rules: seq<Rule>, day: int): seq<RuleRow> {
    EndVersion(Added(rows, version, rules, day), version - 1, Some(day))
  }

  function Downgraded(rows: seq<RuleRow>, version: int): seq<RuleRow> {
    WithoutVersion(EndVersion(rows, version - 1, None), version)
  }

  function RulesOf(rows: seq<RuleRow>, version: int): seq<Rule> {
    if rows == [] then []
    else
      var rest := RulesOf(rows[1..], version);
      if rows[0].window.version == version then [rows[0].rule] + rest else rest
  }

  function LoadActive(rows: seq<RuleRow>, at: int): seq<Rule> {
    match ActiveVersion(Windows(rows), at)
    case None => []
    case Some(v) => ByPriority(RulesOf(rows, v))
  }

  // Day numbers of 2026, counted from 1 January.
  const V1_START := 0
  const V2_START := 212
  const V3_START := 215
  const V3_PROVISIONAL_START := 334

  /** fa894fc0413a: give v1 and v2 their ends and bring v3's start forward. */
  function Corrected(rows: seq<RuleRow>): seq<RuleRow> {
    StartVersion(EndVersion(EndVersion(rows, 1, Some(V2_START)), 2, Some(V3_START)), 3, V3_START)
  }

  function Uncorrected(rows: seq<RuleRow>): seq<RuleRow> {
    StartVersion(EndVersion(EndVersion(rows, 1, None), 2, None), 3, V3_PROVISIONAL_START)
  }

  /** The business_rules table. */
  class RuleTable {
    var rows: seq<RuleRow>

    constructor ()
      ensures rows == []
    {
      rows := [];
    }

    method SaveVersion(version: int, rules: seq<Rule>, day: int) returns (r: Result<int, SaveError>)
      modifies this
      ensures HasVersion(old(rows), version) ==> rows == old(rows) && r == Err(VersionExists(version))
      ensures !HasVersion(old(rows), version) ==>
                rows == Added(old(rows), version, rules, day) && r == Ok(|rules|)
    {
      if HasVersion(rows, version) {
        return Err(VersionExists(version));
      }
      rows := rows + NewRows(rules, Window(version, Some(day), None));
      return Ok(|rules|);
    }

    method Upgrade(version: int, rules: seq<Rule>, day: int) returns (r: Result<int, SaveError>)
      modifies this
      ensures HasVersion(old(rows), version) ==> rows == old(rows) && r == Err(VersionExists(version))
      ensures !HasVersion(old(rows), version) ==>
                rows == Upgraded(old(rows), version, rules, day) && r == Ok(|rules|)
    {
      r := SaveVersion(version, rules, day);
      if r.Err? {
        return;
      }
      rows := EndVersion(rows, version - 1, Some(day));
    }

    method Downgrade(version: int)
      modifies this
      ensures rows == Downgraded(old(rows), version)
    {
      rows := EndVersion(rows, version - 1, None);
      rows := WithoutVersion(rows, version);
    }

    method Correct()
      modifies this
      ensures rows == Corrected(old(rows))
    {
      rows := EndVersion(rows, 1, Some(V2_START));
      rows := EndVersion(rows, 2, Some(V3_START));
      rows := StartVersion(rows, 3, V3_START);
    }

    method UndoCorrection()
      modifies this
      ensures rows == Uncorrected(old(rows))
    {
      rows := EndVersion(rows, 1, None);
      rows := EndVersion(rows, 2, None);
      rows := StartVersion(rows, 3, V3_PROVISIONAL_START);
    }
  }

  // ----- Downgrade against upgrade -----

  lemma {:induction false} WithoutAdded(rows: seq<RuleRow>, made: seq<RuleRow>, version: int)
    requires forall i | 0 <= i < |rows| :: rows[i].window.version != version
    requires forall i | 0 <= i < |made| :: made[i].window.version == version
    ensures WithoutVersion(rows + made, version) == rows
  {
    if rows != [] {
      assert (rows + made)[1..] == rows[1..] + made;
      WithoutAdded(rows[1..], made, version);
    } else if made != [] {
      assert rows + made == made && (rows + made)[1..] == [] + made[1..];
      WithoutAdded([], made[1..], version);
    }
  }

  /** A version's downgrade restores the table its upgrade found exactly when no row of
      the version before it had an end yet. */
  lemma DowngradeRestoresExactly(rows: seq<RuleRow>, version: int, rules: seq<Rule>, day: int)
    requires !HasVersion(rows, version)
    ensures Downgraded(Upgraded(rows, version, rules, day), version) == rows
       <==> forall i | 0 <= i < |rows| && rows[i].window.version == version - 1 :: rows[i].window.validTo.None?
  {
    var up := Upgraded(rows, version, rules, day);
    var reopened, made := EndVersion(rows, version - 1, None), NewRows(rules, Window(version, Some(day), None));
    assert EndVersion(up, version - 1, None) == reopened + made;
    WithoutAdded(reopened, made, version);
    assert reopened == rows <==> forall i | 0 <= i < |rows| :: reopened[i] == rows[i];
  }

  /** The correction's downgrade restores the windows exactly when v1 and v2 were open
      and v3 had its provisional start. */
  lemma UncorrectedExactly(rows: seq<RuleRow>)
    ensures Uncorrected(Corrected(rows)) == rows
       <==> forall i | 0 <= i < |rows| ::
              && (rows[i].window.version == 1 || rows[i].window.version == 2 ==> rows[i].window.validTo.None?)
              && (rows[i].window.version == 3 ==> rows[i].window.validFrom == Some(V3_PROVISIONAL_START))
  {
    var back := Uncorrected(Corrected(rows));
    assert |back| == |rows|;
    assert back == rows <==> forall i | 0 <= i < |rows| :: back[i] == rows[i];
  }

  // ----- Runs of upgrades -----

  /** The i-th step ships version i + 1. */
  datatype Step = Step(rules: seq<Rule>, day: int)

  function RunSteps(steps: seq<Step>): seq<RuleRow> {
    if steps == [] then []
    else
      var s := steps[|steps| - 1];
      Upgraded(RunSteps(steps[..|steps| - 1]), |steps|, s.rules, s.day)
  }

  /** No step is dated before the one it follows, and none is empty. */
  ghost predicate InOrder(steps: seq<Step>) {
    && (forall i | 0 < i < |steps| :: steps[i - 1].day <= steps[i].day)
    && forall i | 0 <= i < |steps| :: steps[i].rules != []
  }

  function WindowOf(steps: seq<Step>, i: nat): Window
    requires i < |steps|
  {
    Window(i + 1, Some(steps[i].day), if i + 1 < |steps| then Some(steps[i + 1].day) else None)
  }

  /** Every row carries its version's window, which runs up to the next version's start. */
  ghost predicate LaidOut(rows: seq<RuleRow>, steps: seq<Step>) {
    && (forall k | 0 <= k < |rows| :: 1 <= rows[k].window.version <= |steps|
          && rows[k].window == WindowOf(steps, rows[k].window.version - 1))
    && (forall v | 1 <= v <= |steps| :: HasVersion(rows, v))
    && forall v | 1 <= v <= |steps| :: RulesOf(rows, v) == steps[v - 1].rules
  }

  lemma {:induction false} RulesOfSame(rows: seq<RuleRow>, others: seq<RuleRow>, version: int)
    requires |rows| == |others|
    requires forall i | 0 <= i < |rows| ::
               rows[i].rule == others[i].rule && rows[i].window.version == others[i].window.version
    ensures RulesOf(rows, version) == RulesOf(others, version)
  {
    if rows != [] {
      RulesOfSame(rows[1..], others[1..], version);
    }
  }

  lemma {:induction false} RulesOfAdded(rows: seq<RuleRow>, rules: seq<Rule>, window: Window, version: int)
    ensures RulesOf(rows + NewRows(rules, window), version)
         == RulesOf(rows, version) + if window.version == version then rules else []
  {
    var made := NewRows(rules, window);
    if rows != [] {
      assert (rows + made)[1..] == rows[1..] + made;
      RulesOfAdded(rows[1..], rules, window, version);
    } else {
      assert rows + made == made;
      if rules != [] {
        assert made[1..] == rows + NewRows(rules[1..], window);
        RulesOfAdded(rows, rules[1..], window, version);
      }
    }
  }

  lemma {:induction false} RulesOfNone(rows: seq<RuleRow>, version: int)
    requires !HasVersion(rows, version)
    ensures RulesOf(rows, version) == []
  {
    if rows != [] {
      assert forall i | 0 <= i < |rows[1..]| :: rows[1..][i] == rows[i + 1];
      RulesOfNone(rows[1..], version);
    }
  }

  lemma UpgradeLaysOut(rows: seq<RuleRow>, steps: seq<Step>, s: Step)
    requires LaidOut(rows, steps) && s.rules != []
    ensures LaidOut(Upgraded(rows, |steps| + 1, s.rules, s.day), steps + [s])
  {
    var n := |steps| + 1;
    var added, up, all := Added(rows, n, s.rules, s.day), Upgraded(rows, n, s.rules, s.day), steps + [s];
    forall v | 1 <= v <= n
      ensures HasVersion(up, v) && RulesOf(up, v) == all[v - 1].rules
    {
      RulesOfAdded(rows, s.rules, Window(n, Some(s.day), None), v);
      RulesOfSame(up, added, v);
      if v == n {
        RulesOfNone(rows, n);
        assert up[|rows|].window.version == n;
      } else {
        assert HasVersion(rows, v);
        var k :| 0 <= k < |rows| && rows[k].window.version == v;
        assert up[k].window.version == v;
      }
    }
  }

  /** A run of upgrades lays contiguous windows, only the last of them open, and keeps
      every version's rules. */
  lemma {:induction false} RunLaysOut(steps: seq<Step>)
    requires InOrder(steps)
    ensures LaidOut(RunSteps(steps), steps)
  {
    if steps != [] {
      var before, s := steps[..|steps| - 1], steps[|steps| - 1];
      RunLaysOut(before);
      UpgradeLaysOut(RunSteps(before), before, s);
      assert steps == before + [s];
    }
  }

  /** How many steps have started by a date: the number of the version they ask for. */
  function Started(steps: seq<Step>, at: int): (n: nat)
    ensures n <= |steps|
    ensures n > 0 ==> steps[n - 1].day <= at
    ensures forall i | n <= i < |steps| :: steps[i].day > at
  {
    if steps == [] then 0
    else if steps[|steps| - 1].day <= at then |steps|
    else
      var n := Started(steps[..|steps| - 1], at);
      assert forall i | 0 <= i < |steps| - 1 :: steps[..|steps| - 1][i] == steps[i];
      n
  }

  lemma {:induction false} DaysAscend(steps: seq<Step>, i: nat, j: nat)
    requires InOrder(steps) && i <= j < |steps|
    ensures steps[i].day <= steps[j].day
    decreases j - i
  {
    if i < j {
      DaysAscend(steps, i, j - 1);
    }
  }

  lemma StartedIs(steps: seq<Step>, at: int, n: nat)
    requires InOrder(steps) && n <= |steps|
    requires n > 0 ==> steps[n - 1].day <= at
    requires n < |steps| ==> at < steps[n].day
    ensures Started(steps, at) == n
  {
    var m := Started(steps, at);
    if m > n {
      DaysAscend(steps, n, m - 1);
    }
  }

  lemma InForceExactly(steps: seq<Step>, i: nat, at: int)
    requires InOrder(steps) && i < |steps|
    ensures WindowOf(steps, i).InForce(at) <==> i + 1 == Started(steps, at)
  {
    var n := Started(steps, at);
    if i < n {
      DaysAscend(steps, i, n - 1);
      if i + 1 < n {
        DaysAscend(steps, i + 1, n - 1);
      }
    }
  }

  lemma OnlyVersionInForce(ws: seq<Window>, at: int, v: int)
    requires forall w | w in ws :: w.InForce(at) <==> w.version == v
    ensures ActiveVersion(ws, at) == if exists w | w in ws :: w.version == v then Some(v) else None
  {
    FirstRankedExact(ws, at);
  }

  /** In a laid-out table the version in force on any date is the last one started. */
  lemma LastStartedInForce(rows: seq<RuleRow>, steps: seq<Step>, at: int)
    requires InOrder(steps) && LaidOut(rows, steps)
    ensures ActiveVersion(Windows(rows), at) == if Started(steps, at) == 0 then None else Some(Started(steps, at))
  {
    var ws, n := Windows(rows), Started(steps, at);
    forall k | 0 <= k < |rows|
      ensures ws[k].InForce(at) <==> ws[k].version == n
      ensures 1 <= ws[k].version
    {
      InForceExactly(steps, rows[k].window.version - 1, at);
    }
    OnlyVersionInForce(ws, at, n);
    if n > 0 {
      assert HasVersion(rows, n);
      var k :| 0 <= k < |rows| && rows[k].window.version == n;
      assert ws[k].version == n && ws[k] in ws;
    }
  }

  lemma LaidOutLoads(rows: seq<RuleRow>, steps: seq<Step>, at: int)
    requires InOrder(steps) && LaidOut(rows, steps)
    ensures LoadActive(rows, at)
         == if Started(steps, at) == 0 then [] else ByPriority(steps[Started(steps, at) - 1].rules)
  {
    LastStartedInForce(rows, steps, at);
    if Started(steps, at) > 0 {
      assert RulesOf(rows, Started(steps, at)) == steps[Started(steps, at) - 1].rules;
    }
  }

  /** The whole of `load_active_rules` after any orderly run of upgrades. */
  lemma ReaderGetsLastStarted(steps: seq<Step>, at: int)
    requires InOrder(steps)
    ensures LoadActive(RunSteps(steps), at)
         == if Started(steps, at) == 0 then [] else ByPriority(steps[Started(steps, at) - 1].rules)
  {
    RunLaysOut(steps);
    LaidOutLoads(RunSteps(steps), steps, at);
  }

  lemma StartedExactly(steps: seq<Step>, i: nat, at: int)
    requires InOrder(steps) && i < |steps|
    ensures Started(steps, at) == i + 1 <==> steps[i].day <= at && (i + 1 < |steps| ==> at < steps[i + 1].day)
  {
    if steps[i].day <= at && (i + 1 < |steps| ==> at < steps[i + 1].day) {
      StartedIs(steps, at, i + 1);
    }
  }

  ghost predicate Serves(steps: seq<Step>, i: nat, at: int) { Started(steps, at) == i + 1 }

  /** A version is served on some date exactly when its successor does not start on the
      same day. */
  lemma ServedExactly(steps: seq<Step>, i: nat)
    requires InOrder(steps) && i < |steps|
    ensures (exists at :: Serves(steps, i, at)) <==> (i + 1 < |steps| ==> steps[i].day < steps[i + 1].day)
  {
    forall at ensures Serves(steps, i, at) <==> steps[i].day <= at && (i + 1 < |steps| ==> at < steps[i + 1].day) {
      StartedExactly(steps, i, at);
    }
    assert (i + 1 < |steps| ==> steps[i].day < steps[i + 1].day) ==> Serves(steps, i, steps[i].day);
  }

  // ----- The shipped chain -----

  /** v1 and v2 seeded open, v3 with its provisional start, the correction, then six
      upgrades. */
  function Shipped(r: seq<seq<Rule>>): seq<RuleRow>
    requires |r| == 9
  {
    var v1 := Added([], 1, r[0], V1_START);
    var v2 := Added(v1, 2, r[1], V2_START);
    var v3 := Corrected(Added(v2, 3, r[2], V3_PROVISIONAL_START));
    var v4 := Upgraded(v3, 4, r[3], 222);
    var v5 := Upgraded(v4, 5, r[4], 235);
    var v6 := Upgraded(v5, 6, r[5], 271);
    var v7 := Upgraded(v6, 7, r[6], 277);
    var v8 := Upgraded(v7, 8, r[7], 278);
    Upgraded(v8, 9, r[8], 278)
  }

  function ShippedSteps(r: seq<seq<Rule>>): seq<Step>
    requires |r| == 9
  {
    [Step(r[0], V1_START), Step(r[1], V2_START), Step(r[2], V3_START), Step(r[3], 222), Step(r[4], 235),
     Step(r[5], 271), Step(r[6], 277), Step(r[7], 278), Step(r[8], 278)]
  }

  lemma CorrectionIsTwoUpgrades(a: seq<Rule>, b: seq<Rule>, c: seq<Rule>)
    ensures Corrected(Added(Added(Added([], 1, a, V1_START), 2, b, V2_START), 3, c, V3_PROVISIONAL_START))
         == RunSteps([Step(a, V1_START), Step(b, V2_START), Step(c, V3_START)])
  {
    var steps := [Step(a, V1_START), Step(b, V2_START), Step(c, V3_START)];
    assert steps[..2][..1] == [steps[0]] && steps[..2] == [steps[0], steps[1]] && [steps[0]][..0] == [];
    assert RunSteps([steps[0]]) == Upgraded([], 1, a, V1_START);
    assert RunSteps([steps[0], steps[1]]) == Upgraded(RunSteps([steps[0]]), 2, b, V2_START);
    assert RunSteps(steps) == Upgraded(RunSteps([steps[0], steps[1]]), 3, c, V3_START);
  }

  lemma NextStep(steps: seq<Step>, i: nat)
    requires i < |steps|
    ensures RunSteps(steps[..i + 1]) == Upgraded(RunSteps(steps[..i]), i + 1, steps[i].rules, steps[i].day)
  {
    assert steps[..i + 1][..i] == steps[..i];
  }

  lemma ShippedIsARun(r: seq<seq<Rule>>)
    requires |r| == 9
    ensures Shipped(r) == RunSteps(ShippedSteps(r))
  {
    var steps := ShippedSteps(r);
    CorrectionIsTwoUpgrades(r[0], r[1], r[2]);
    assert steps[..3] == [Step(r[0], V1_START), Step(r[1], V2_START), Step(r[2], V3_START)];
    NextStep(steps, 3);
    NextStep(steps, 4);
    NextStep(steps, 5);
    NextStep(steps, 6);
    NextStep(steps, 7);
    NextStep(steps, 8);
    assert steps[..9] == steps;
  }

  /** The version the shipped table serves on a day of 2026 or any other. */
  function Timeline(at: int): nat {
    if at < 0 then 0 else if at < 212 then 1 else if at < 215 then 2 else if at < 222 then 3
    else if at < 235 then 4 else if at < 271 then 5 else if at < 277 then 6 else if at < 278 then 7 else 9
  }

  /** On every date the shipped table serves one version, in order and without a gap;
      version 8 is never among them. */
  lemma ShippedTimeline(r: seq<seq<Rule>>, at: int)
    requires |r| == 9 && forall i | 0 <= i < 9 :: r[i] != []
    ensures LoadActive(Shipped(r), at) == if Timeline(at) == 0 then [] else ByPriority(r[Timeline(at) - 1])
    ensures Timeline(at) != 8
  {
    var steps := ShippedSteps(r);
    ShippedIsARun(r);
    StartedIs(steps, at, Timeline(at));
    ReaderGetsLastStarted(steps, at);
  }
}
