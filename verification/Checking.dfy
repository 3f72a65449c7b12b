/** The check step of an action run and the rows a proposal is written as
    (`check`, src/app/agents/action_agent.py; `gate_members` and
    `save_insight_proposal`, src/app/agents/insight_proposal.py; the contact checks,
    src/app/agents/propose.py). */
module Checking {
  import opened Common
  import opened Catalogue
  import opened Choosing

  const DO_NOTHING := "do_nothing"
  const NOT_CHOSEN := "no_response_was_chosen"
  const CHOSE_NOTHING := "the model did not settle on a response for this finding"
  const CONTACTING_KINDS := {"automated_email", "phone_call", "campaign_enrolment", "product_teaching"}

  datatype Key = Key(clientId: int, fundId: int)

  datatype Member = Member(key: Key, balance: real)

  /** The members a finding covers, or why they cannot be worked out. */
  datatype Resolved = Resolved(members: seq<Member>, refusal: Option<string>)

  /** What the database says about one client fund and this action. */
  datatype Facts = Facts(
    suppressed: bool, openComplaint: bool, contactedRecently: bool, angleHeld: bool, alreadyOffered: bool)

  datatype Checks = Checks(lacksGuide: bool, facts: Key -> Facts)

  datatype Decision = Decision(
    action: ActionRow, angle: Option<string>, reason: string, included: seq<Member>,
    skipReasons: map<Key, Option<string>>)

  predicate Contacting(a: ActionSpec) { a.responseKind in CONTACTING_KINDS }

  function MemberSkipReason(a: ActionSpec, f: Facts): Option<string> {
    if f.suppressed then Some("on_do_not_contact_list")
    else if f.openComplaint then Some("open_complaint")
    else if f.contactedRecently then Some("contacted_recently")
    else if Given(a.messageAngle) && f.angleHeld then Some("angle_paused")
    else if f.alreadyOffered then Some("already_offered")
    else None
  }

  function SkipReason(a: ActionSpec, c: Checks, k: Key): Option<string> {
    if !Contacting(a) then None
    else if a.paused then Some("action_paused")
    else if c.lacksGuide then Some("no_approved_guide")
    else MemberSkipReason(a, c.facts(k))
  }

  /** {member_key(member): verdict(member) for member in members}. */
  function Verdicts(members: seq<Member>, verdict: Key -> Option<string>): map<Key, Option<string>> {
    if members == [] then map[]
    else
      var k := members[|members| - 1].key;
      Verdicts(members[..|members| - 1], verdict)[k := verdict(k)]
  }

  function Included(members: seq<Member>, skip: map<Key, Option<string>>): seq<Member> {
    if members == [] then []
    else
      var last := members[|members| - 1];
      Included(members[..|members| - 1], skip)
      + if last.key in skip && skip[last.key].None? then [last] else []
  }

  function Load(live: seq<ActionRow>, code: string): Result<ActionRow, string> {
    match Find(live, code)
    case Some(row) => Ok(row)
    case None => Err("'" + code + "' is not in the action catalogue in force")
  }

  /** The decision on a finding; it raises where an action it needs is no longer live. */
  function Decide(choice: Option<Choice>, resolved: Resolved, live: seq<ActionRow>, checks: Checks)
    : Result<Decision, string>
  {
    if choice.None? then
      match Load(live, DO_NOTHING)
      case Err(e) => Err(e)
      case Ok(action) =>
        Ok(Decision(action, None, CHOSE_NOTHING, [], Verdicts(resolved.members, _ => Some(NOT_CHOSEN))))
    else if resolved.refusal.Some? then
      match Load(live, DO_NOTHING)
      case Err(e) => Err(e)
      case Ok(action) => Ok(Decision(action, None, resolved.refusal.value, [], map[]))
    else
      match Load(live, choice.value.actionCode)
      case Err(e) => Err(e)
      case Ok(action) =>
        var skip := Verdicts(resolved.members, k => SkipReason(action.spec, checks, k));
        var included := Included(resolved.members, skip);
        if included != [] then Ok(Decision(action, choice.value.angle, choice.value.reason, included, skip))
        else
          match Load(live, DO_NOTHING)
          case Err(e) => Err(e)
          case Ok(nothing) => Ok(Decision(nothing, choice.value.angle, choice.value.reason, [], skip))
  }

  // ----- What the decision says -----

  ghost predicate KeysDistinct(members: seq<Member>) {
    forall i, j | 0 <= i < j < |members| :: members[i].key != members[j].key
  }

  ghost predicate IsMember(members: seq<Member>, k: Key) {
    exists i | 0 <= i < |members| :: members[i].key == k
  }

  lemma {:induction false} VerdictsExact(members: seq<Member>, verdict: Key -> Option<string>)
    ensures forall k :: k in Verdicts(members, verdict) <==> IsMember(members, k)
    ensures forall k | k in Verdicts(members, verdict) :: Verdicts(members, verdict)[k] == verdict(k)
  {
    if members != [] {
      VerdictsExact(members[..|members| - 1], verdict);
    }
  }

  lemma {:induction false} OneVerdictPerKey(members: seq<Member>, verdict: Key -> Option<string>)
    requires KeysDistinct(members)
    ensures |Verdicts(members, verdict)| == |members|
  {
    if members != [] {
      var init, k := members[..|members| - 1], members[|members| - 1].key;
      OneVerdictPerKey(init, verdict);
      VerdictsExact(init, verdict);
      assert !IsMember(init, k);
      OneKeyMore(Verdicts(init, verdict), k, verdict(k));
    }
  }

  lemma OneKeyMore(m: map<Key, Option<string>>, k: Key, v: Option<string>)
    requires k !in m
    ensures |m[k := v]| == |m| + 1
  {
    assert m[k := v].Keys == m.Keys + {k};
    assert |m[k := v].Keys| == |m[k := v]|;
  }

  /** The members left out, in order. */
  function Excluded(members: seq<Member>, skip: map<Key, Option<string>>): seq<Member> {
    if members == [] then []
    else
      var last := members[|members| - 1];
      Excluded(members[..|members| - 1], skip)
      + if last.key in skip && skip[last.key].Some? then [last] else []
  }

  lemma {:induction false} InOrOut(members: seq<Member>, skip: map<Key, Option<string>>)
    requires forall i | 0 <= i < |members| :: members[i].key in skip
    ensures |Included(members, skip)| + |Excluded(members, skip)| == |members|
    ensures multiset(Included(members, skip)) + multiset(Excluded(members, skip)) == multiset(members)
  {
    if members != [] {
      var init, last := members[..|members| - 1], members[|members| - 1];
      InOrOut(init, skip);
      var i, e := Included(init, skip), Excluded(init, skip);
      if skip[last.key].None? {
        OneMore(init, last, i, Included(members, skip), e, Excluded(members, skip));
      } else {
        OneMore(init, last, e, Excluded(members, skip), i, Included(members, skip));
      }
      assert members == init + [last];
    }
  }

  lemma OneMore(
    init: seq<Member>, last: Member, grown: seq<Member>, grows: seq<Member>, same: seq<Member>, stays: seq<Member>)
    requires grows == grown + [last] && stays == same
    requires multiset(grown) + multiset(same) == multiset(init)
    ensures multiset(grows) + multiset(stays) == multiset(init + [last])
    ensures multiset(stays) + multiset(grows) == multiset(init + [last])
  {
  }

  lemma {:induction false} IncludedExact(members: seq<Member>, skip: map<Key, Option<string>>, m: Member)
    ensures m in Included(members, skip) <==> m in members && m.key in skip && skip[m.key].None?
  {
    if members != [] {
      IncludedExact(members[..|members| - 1], skip, m);
      assert members == members[..|members| - 1] + [members[|members| - 1]];
    }
  }

  lemma {:induction false} FindCode(rows: seq<ActionRow>, code: string)
    requires Find(rows, code).Some?
    ensures Find(rows, code).value in rows && Find(rows, code).value.spec.actionCode == code
  {
    if rows[0].spec.actionCode != code {
      FindCode(rows[1..], code);
    }
  }

  /** With the members known and distinct, every one of them is judged once, those in and
      those out make up all of them, and the two counts that are reported are right. */
  lemma OneVerdictEach(choice: Option<Choice>, resolved: Resolved, live: seq<ActionRow>, checks: Checks)
    requires resolved.refusal.None? && KeysDistinct(resolved.members)
    requires Decide(choice, resolved, live, checks).Ok?
    ensures var d := Decide(choice, resolved, live, checks).value;
            && (forall k :: k in d.skipReasons <==> IsMember(resolved.members, k))
            && d.included == Included(resolved.members, d.skipReasons)
            && |d.skipReasons| - |d.included| == |Excluded(resolved.members, d.skipReasons)|
            && multiset(d.included) + multiset(Excluded(resolved.members, d.skipReasons)) == multiset(resolved.members)
  {
    var d := Decide(choice, resolved, live, checks).value;
    if choice.None? {
      VerdictsExact(resolved.members, _ => Some(NOT_CHOSEN));
      OneVerdictPerKey(resolved.members, _ => Some(NOT_CHOSEN));
      NobodyIn(resolved.members, d.skipReasons);
    } else {
      var verdict := k => SkipReason(Find(live, choice.value.actionCode).value.spec, checks, k);
      VerdictsExact(resolved.members, verdict);
      OneVerdictPerKey(resolved.members, verdict);
    }
    InOrOut(resolved.members, d.skipReasons);
  }

  lemma {:induction false} NobodyIn(members: seq<Member>, skip: map<Key, Option<string>>)
    requires forall k | k in skip :: skip[k].Some?
    ensures Included(members, skip) == []
  {
    if members != [] {
      NobodyIn(members[..|members| - 1], skip);
    }
  }

  /** The action decided on is the one chosen, or doing nothing; it is doing nothing
      whenever nobody is included. */
  lemma NobodyMeansNothing(choice: Option<Choice>, resolved: Resolved, live: seq<ActionRow>, checks: Checks)
    requires Decide(choice, resolved, live, checks).Ok?
    ensures var d := Decide(choice, resolved, live, checks).value;
            && d.action in live
            && (d.included == [] ==> d.action.spec.actionCode == DO_NOTHING)
            && (d.included != [] ==> choice.Some? && d.action.spec.actionCode == choice.value.actionCode)
  {
    if Find(live, DO_NOTHING).Some? {
      FindCode(live, DO_NOTHING);
    }
    if choice.Some? && Find(live, choice.value.actionCode).Some? {
      FindCode(live, choice.value.actionCode);
    }
  }

  /** No client with a reason not to be contacted is contacted, and nobody else is left
      out: a member is in exactly when the response reaches no client or every check on
      that member is clear. */
  lemma IncludedExactly(choice: Choice, resolved: Resolved, live: seq<ActionRow>, checks: Checks, m: Member)
    requires resolved.refusal.None? && m in resolved.members
    requires Decide(Some(choice), resolved, live, checks).Ok?
    ensures var d, a := Decide(Some(choice), resolved, live, checks).value, Find(live, choice.actionCode).value.spec;
            var f := checks.facts(m.key);
            m in d.included <==>
              !Contacting(a)
              || (!a.paused && !checks.lacksGuide && !f.suppressed && !f.openComplaint && !f.contactedRecently
                  && !(Given(a.messageAngle) && f.angleHeld) && !f.alreadyOffered)
  {
    var a := Find(live, choice.actionCode).value.spec;
    var verdict := k => SkipReason(a, checks, k);
    VerdictsExact(resolved.members, verdict);
    var skip := Verdicts(resolved.members, verdict);
    IncludedExact(resolved.members, skip, m);
    var i :| 0 <= i < |resolved.members| && resolved.members[i] == m;
    assert IsMember(resolved.members, m.key);
  }

  /** The step raises exactly when an action it comes to need is not in the live catalogue. */
  lemma RaisesExactly(choice: Option<Choice>, resolved: Resolved, live: seq<ActionRow>, checks: Checks)
    ensures Decide(choice, resolved, live, checks).Err? <==>
      if choice.None? || resolved.refusal.Some? then Find(live, DO_NOTHING).None?
      else
        || Find(live, choice.value.actionCode).None?
        || (Find(live, DO_NOTHING).None? && forall m | m in resolved.members ::
              SkipReason(Find(live, choice.value.actionCode).value.spec, checks, m.key).Some?)
  {
    if choice.Some? && resolved.refusal.None? && Find(live, choice.value.actionCode).Some? {
      var a := Find(live, choice.value.actionCode).value.spec;
      var verdict := k => SkipReason(a, checks, k);
      VerdictsExact(resolved.members, verdict);
      var skip := Verdicts(resolved.members, verdict);
      forall m | m in resolved.members
        ensures m in Included(resolved.members, skip) <==> SkipReason(a, checks, m.key).None?
      {
        IncludedExact(resolved.members, skip, m);
        var i :| 0 <= i < |resolved.members| && resolved.members[i] == m;
        assert IsMember(resolved.members, m.key);
      }
      if Included(resolved.members, skip) != [] {
        var m := Included(resolved.members, skip)[0];
        IncludedExact(resolved.members, skip, m);
      }
    }
  }

  // ----- The rows of a proposal -----

  datatype MemberRow = MemberRow(key: Key, included: bool, skipReason: Option<string>)

  function MemberRows(members: seq<Member>, skip: map<Key, Option<string>>): seq<MemberRow> {
    if members == [] then []
    else
      var k := members[|members| - 1].key;
      MemberRows(members[..|members| - 1], skip)
      + if k in skip then [MemberRow(k, skip[k].None?, skip[k])] else []
  }

  function MoneyTotal(members: seq<Member>): real {
    if members == [] then 0.0 else MoneyTotal(members[..|members| - 1]) + members[|members| - 1].balance
  }

  /** Every member judged gets one row that says what was decided: a member left out
      always carries the reason, and the unique key on the rows holds exactly when no
      member occurs twice. */
  lemma {:induction false} RowPerMember(members: seq<Member>, skip: map<Key, Option<string>>)
    requires forall i | 0 <= i < |members| :: members[i].key in skip
    ensures var rows := MemberRows(members, skip);
            && |rows| == |members|
            && (forall i | 0 <= i < |members| ::
                  rows[i] == MemberRow(members[i].key, skip[members[i].key].None?, skip[members[i].key]))
            && ((forall i, j | 0 <= i < j < |rows| :: rows[i].key != rows[j].key) <==> KeysDistinct(members))
  {
    if members != [] {
      RowPerMember(members[..|members| - 1], skip);
    }
  }
}
