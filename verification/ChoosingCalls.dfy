/** What each call of the choosing tool comes to, and how each conversation stops
    (`make_choose_response_tool`, src/app/agents/action_agent.py; the turn loop,
    src/app/privacy/boundary.py). */
module ChoosingCalls {
  import opened Common
  import opened Text
  import opened Catalogue
  import opened Choosing

  // ----- One call -----

  /** The angle argument that matches an action's own. */
  function AsSent(angle: Option<string>): Json {
    match angle
    case None => Null
    case Some(a) => Text(a)
  }

  /** A call with the action's own angle and a reason is recorded as it was made, replaces
      what was recorded before, and touches nothing else. */
  lemma RightCallRecorded(menu: Menu, group: string, a: Attempt, code: string, reason: string)
    requires code in menu && !Blank(code) && !Blank(group) && !Blank(reason)
    ensures AfterCall(menu, group, a, ChooseResponse(code, AsSent(menu[code].messageAngle), Text(reason)))
         == a.(choice := Some(Choice(group, code, menu[code].messageAngle, reason)))
  {
  }

  ghost predicate AddsRefusal(a: Attempt, after: Attempt, refusal: Refusal) {
    after == Attempt(a.choice, a.refusals + [refusal], a.error)
  }

  /** Each wrong call has its own refusal, the first thing wrong being the one named, and
      keeps what was recorded before. */
  lemma RefusedExactly(menu: Menu, group: string, a: Attempt, code: string, angle: Json, reason: Json)
    ensures var after := AfterCall(menu, group, a, ChooseResponse(code, angle, reason));
            && (code !in menu <==> AddsRefusal(a, after, UnknownAction(code)))
            && (code in menu && angle != AsSent(menu[code].messageAngle) <==> AddsRefusal(a, after, WrongAngle(code)))
            && (code in menu && angle == AsSent(menu[code].messageAngle) && reason.Text? && Blank(reason.text) <==>
                  AddsRefusal(a, after, MissingReason))
            && (after.refusals != a.refusals ==> after.choice == a.choice && after.error == a.error)
  {
    var after := AfterCall(menu, group, a, ChooseResponse(code, angle, reason));
    assert forall r :: after.refusals == a.refusals + [r] ==> after.refusals[|a.refusals|] == r;
    assert forall r :: |a.refusals + [r]| != |a.refusals|;
  }

  // ----- The step goes on with the right call -----

  lemma {:induction false} LastRightCall(menu: Menu, group: string, calls: seq<Call>, i: nat, reason: string)
    requires i < |calls| && calls[i].ChooseResponse? && calls[i].actionCode in menu
    requires !Blank(group) && !Blank(calls[i].actionCode) && !Blank(reason) && calls[i].reason == Text(reason)
    requires calls[i].angle == AsSent(menu[calls[i].actionCode].messageAngle)
    requires forall j | i < j < |calls| :: calls[j].OtherTool?
    ensures var code := calls[i].actionCode;
            LastAccepted(menu, group, calls) == Some(Choice(group, code, menu[code].messageAngle, reason))
  {
    if i < |calls| - 1 {
      LastRightCall(menu, group, calls[..|calls| - 1], i, reason);
    }
  }

  /** A model whose first attempt not to come to nothing ends with a right call, whatever it
      called before that and read after it, is taken at its word. */
  lemma RightCallIsChosen(
    menu: Menu, group: string, model: nat -> nat -> Turn, max: nat, k: nat, last: nat, i: nat, reason: string)
    requires k < max && AnswersOn(model(k), last)
    requires forall e | 0 <= e < k :: Fruitless(Attempts(menu, group, model)(e))
    requires Quiet(menu, group, CallsBefore(model(k), last)) && i < |CallsBefore(model(k), last)|
    requires var call := CallsBefore(model(k), last)[i];
             && call.ChooseResponse? && call.actionCode in menu && !Blank(call.actionCode) && !Blank(group)
             && call.angle == AsSent(menu[call.actionCode].messageAngle)
             && call.reason == Text(reason) && !Blank(reason)
    requires forall j | i < j < |CallsBefore(model(k), last)| :: CallsBefore(model(k), last)[j].OtherTool?
    ensures var code := CallsBefore(model(k), last)[i].actionCode;
            Chosen(menu, group, model, max) == Ok(Some(Choice(group, code, menu[code].messageAngle, reason)))
  {
    var calls := CallsBefore(model(k), last);
    var code := calls[i].actionCode;
    var c := Choice(group, code, menu[code].messageAngle, reason);
    AttemptExactly(menu, group, model(k), last);
    LastRightCall(menu, group, calls, i, reason);
    assert Attempts(menu, group, model)(k) == Converse(menu, group, model(k), 0, FRESH);
    FruitIsChosen(Attempts(menu, group, model), 0, max, k, c);
  }

  /** In particular one that makes the call at once and then answers. */
  lemma CallThenAnswer(menu: Menu, group: string, model: nat -> nat -> Turn, max: nat, code: string, reason: string)
    requires max > 0 && code in menu && !Blank(code) && !Blank(group) && !Blank(reason)
    requires model(0)(0) == Reply([ChooseResponse(code, AsSent(menu[code].messageAngle), Text(reason))])
    requires model(0)(1) == Reply([])
    ensures Chosen(menu, group, model, max) == Ok(Some(Choice(group, code, menu[code].messageAngle, reason)))
  {
    var call := ChooseResponse(code, AsSent(menu[code].messageAngle), Text(reason));
    assert CallsBefore(model(0), 0) == [];
    assert CallsBefore(model(0), 1) == [call];
    RightCallIsChosen(menu, group, model, max, 0, 1, 0, reason);
  }

  // ----- How a conversation stops -----

  /** It goes on past turn `n` with nothing raised so far. */
  ghost predicate GoesOn(menu: Menu, group: string, model: nat -> Turn, n: nat) {
    Reaches(model, n) && Quiet(menu, group, CallsBefore(model, n))
  }

  lemma {:induction false} StopsFrom(menu: Menu, group: string, model: nat -> Turn, n: nat)
    requires n <= 5 && GoesOn(menu, group, model, n)
    ensures var how := Converse(menu, group, model, n, AttemptBefore(menu, group, model, n));
            && (how.1 == TurnLimit <==> Reaches(model, 6) && Quiet(menu, group, CallsBefore(model, 5)))
            && (how.1 == TurnLimit ==> how.0 == AttemptBefore(menu, group, model, 5))
    decreases 5 - n
  {
    if n < 5 && model(n).Reply? && model(n).calls != [] {
      CallsOfTurn(menu, group, model, n);
      if Quiet(menu, group, CallsBefore(model, n + 1)) {
        StopsFrom(menu, group, model, n + 1);
      } else if Quiet(menu, group, CallsBefore(model, 5)) {
        QuietBefore(menu, group, model, 5, n + 1);
      }
    }
  }

  /** A conversation runs out exactly when the model still calls tools in each of six turns
      and nothing raises; the calls of the sixth are not made. */
  lemma RunsOutExactly(menu: Menu, group: string, model: nat -> Turn)
    ensures var how := Converse(menu, group, model, 0, FRESH);
            && (how.1 == TurnLimit <==> Reaches(model, 6) && Quiet(menu, group, CallsBefore(model, 5)))
            && (how.1 == TurnLimit ==> how.0.choice == LastAccepted(menu, group, CallsBefore(model, 5)))
  {
    StopsFrom(menu, group, model, 0);
    RecordsLastAccepted(menu, group, CallsBefore(model, 5));
  }

  lemma {:induction false} AnswersFrom(menu: Menu, group: string, model: nat -> Turn, n: nat) returns (last: nat)
    requires n <= 5 && GoesOn(menu, group, model, n)
    requires Converse(menu, group, model, n, AttemptBefore(menu, group, model, n)).1 == FinalAnswer
    ensures last <= 5 && AnswersOn(model, last) && Quiet(menu, group, CallsBefore(model, last))
    decreases 5 - n
  {
    if model(n).calls == [] {
      last := n;
    } else {
      CallsOfTurn(menu, group, model, n);
      last := AnswersFrom(menu, group, model, n + 1);
    }
  }

  /** It ends with an answer exactly when one of the six turns calls nothing, after turns
      that all did and in which nothing raised. */
  lemma AnswersExactly(menu: Menu, group: string, model: nat -> Turn)
    ensures Converse(menu, group, model, 0, FRESH).1 == FinalAnswer
       <==> exists last | 0 <= last <= 5 ::
              AnswersOn(model, last) && Quiet(menu, group, CallsBefore(model, last))
  {
    if Converse(menu, group, model, 0, FRESH).1 == FinalAnswer {
      var last := AnswersFrom(menu, group, model, 0);
    }
    if last: nat :| last <= 5 && AnswersOn(model, last) && Quiet(menu, group, CallsBefore(model, last)) {
      AttemptExactly(menu, group, model, last);
    }
  }
}
