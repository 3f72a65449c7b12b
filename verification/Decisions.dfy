/** What the check step decides, case by case: the reason it carries, the reason each
    client is left out for, and the money it adds up to (`check`,
    src/app/agents/action_agent.py; `member_skip_reason`, src/app/agents/propose.py). */
module Decisions {
  import opened Common
  import opened Catalogue
  import opened Choosing
  import opened Checking

  // ----- Money -----

  /** The total counts each member's balance once, wherever it stands. */
  lemma {:induction false} MoneyAddsUp(a: seq<Member>, m: Member, b: seq<Member>)
    ensures MoneyTotal([]) == 0.0
    ensures MoneyTotal(a + [m] + b) == MoneyTotal(a + b) + m.balance
  {
    var all := a + [m] + b;
    if b == [] {
      assert all[..|a|] == a && a + b == a;
    } else {
      var init, last := b[..|b| - 1], b[|b| - 1];
      assert all[..|all| - 1] == a + [m] + init;
      assert (a + b)[..|a + b| - 1] == a + init && (a + b)[|a + b| - 1] == last;
      MoneyAddsUp(a, m, init);
    }
  }

  // ----- Reasons -----

  /** The first thing that keeps this client out of a response that reaches clients, in the
      order the step looks for them. */
  ghost predicate LeftOutFor(a: ActionSpec, lacksGuide: bool, f: Facts, why: string) {
    match why
    case "action_paused" => a.paused
    case "no_approved_guide" => !a.paused && lacksGuide
    case "on_do_not_contact_list" => !a.paused && !lacksGuide && f.suppressed
    case "open_complaint" => !a.paused && !lacksGuide && !f.suppressed && f.openComplaint
    case "contacted_recently" =>
      !a.paused && !lacksGuide && !f.suppressed && !f.openComplaint && f.contactedRecently
    case "angle_paused" =>
      && !a.paused && !lacksGuide && !f.suppressed && !f.openComplaint && !f.contactedRecently
      && HasAngle(a) && f.angleHeld
    case "already_offered" =>
      && !a.paused && !lacksGuide && !f.suppressed && !f.openComplaint && !f.contactedRecently
      && !(HasAngle(a) && f.angleHeld) && f.alreadyOffered
    case _ => false
  }

  ghost predicate HasAngle(a: ActionSpec) { a.messageAngle != None && a.messageAngle != Some("") }

  lemma WhyLeftOut(a: ActionSpec, c: Checks, k: Key, why: string)
    requires a.responseKind in {"automated_email", "phone_call", "campaign_enrolment", "product_teaching"}
    ensures SkipReason(a, c, k) == Some(why) <==> LeftOutFor(a, c.lacksGuide, c.facts(k), why)
  {
  }

  lemma VerdictOf(choice: Choice, resolved: Resolved, live: seq<ActionRow>, checks: Checks, m: Member)
    requires resolved.refusal.None? && m in resolved.members
    requires Decide(Some(choice), resolved, live, checks).Ok?
    ensures var d := Decide(Some(choice), resolved, live, checks).value;
            && m.key in d.skipReasons && Find(live, choice.actionCode).Some?
            && d.skipReasons[m.key] == SkipReason(Find(live, choice.actionCode).value.spec, checks, m.key)
  {
    var verdict := k => SkipReason(Find(live, choice.actionCode).value.spec, checks, k);
    VerdictsExact(resolved.members, verdict);
    var i :| 0 <= i < |resolved.members| && resolved.members[i] == m;
    assert IsMember(resolved.members, m.key);
  }

  /** The reason stored for a client is the first check of its own that stops it. */
  lemma ReasonExactly(
    choice: Choice, resolved: Resolved, live: seq<ActionRow>, checks: Checks, m: Member, why: string)
    requires resolved.refusal.None? && m in resolved.members
    requires Decide(Some(choice), resolved, live, checks).Ok?
    ensures var d := Decide(Some(choice), resolved, live, checks).value;
            && m.key in d.skipReasons && Find(live, choice.actionCode).Some?
            && var a := Find(live, choice.actionCode).value.spec;
               d.skipReasons[m.key] == Some(why) <==>
                 && a.responseKind in {"automated_email", "phone_call", "campaign_enrolment", "product_teaching"}
                 && LeftOutFor(a, checks.lacksGuide, checks.facts(m.key), why)
  {
    VerdictOf(choice, resolved, live, checks, m);
    var a := Find(live, choice.actionCode).value.spec;
    if Contacting(a) {
      WhyLeftOut(a, checks, m.key, why);
    }
  }

  /** With nothing chosen, the action is doing nothing and every client is left out as not
      chosen for. */
  lemma NothingChosenSays(resolved: Resolved, live: seq<ActionRow>, checks: Checks)
    requires Decide(None, resolved, live, checks).Ok?
    ensures var d := Decide(None, resolved, live, checks).value;
            && d.action.spec.actionCode == "do_nothing" && d.angle == None && d.included == []
            && d.reason == "the model did not settle on a response for this finding"
            && (forall k :: k in d.skipReasons <==> IsMember(resolved.members, k))
            && forall k | k in d.skipReasons :: d.skipReasons[k] == Some("no_response_was_chosen")
  {
    VerdictsExact(resolved.members, _ => Some(NOT_CHOSEN));
    FindCode(live, DO_NOTHING);
  }

  /** When the members cannot be worked out, it is doing nothing for that reason, and nobody
      is judged. */
  lemma RefusalSays(choice: Choice, resolved: Resolved, live: seq<ActionRow>, checks: Checks)
    requires resolved.refusal.Some? && Decide(Some(choice), resolved, live, checks).Ok?
    ensures var d := Decide(Some(choice), resolved, live, checks).value;
            && d.action.spec.actionCode == "do_nothing" && d.angle == None && d.included == []
            && Some(d.reason) == resolved.refusal && d.skipReasons == map[]
  {
    FindCode(live, DO_NOTHING);
  }

  /** Otherwise it carries the choice's reason and angle, with the chosen action while
      somebody is left in and doing nothing when nobody is. */
  lemma ChoiceSays(choice: Choice, resolved: Resolved, live: seq<ActionRow>, checks: Checks)
    requires resolved.refusal.None? && Decide(Some(choice), resolved, live, checks).Ok?
    ensures var d := Decide(Some(choice), resolved, live, checks).value;
            && d.reason == choice.reason && d.angle == choice.angle
            && d.action.spec.actionCode == (if d.included != [] then choice.actionCode else "do_nothing")
            && d.action in live
  {
    FindCode(live, choice.actionCode);
    if Find(live, DO_NOTHING).Some? {
      FindCode(live, DO_NOTHING);
    }
  }

  /** When it raises, the error names the action that is missing: the one chosen if it is,
      else doing nothing. */
  lemma MissingActionNamed(choice: Option<Choice>, resolved: Resolved, live: seq<ActionRow>, checks: Checks)
    requires Decide(choice, resolved, live, checks).Err?
    ensures var missing :=
              if choice.Some? && resolved.refusal.None? && Find(live, choice.value.actionCode).None? then
                choice.value.actionCode
              else "do_nothing";
            && Find(live, missing).None?
            && Decide(choice, resolved, live, checks).error
               == "'" + missing + "' is not in the action catalogue in force"
  {
  }
}
