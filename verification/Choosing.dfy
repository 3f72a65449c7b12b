/** The choose step of an action run: a conversation with a model that may make any tool
    calls it likes, tried a few times over (`make_choose_response_tool` and `choose`,
    src/app/agents/action_agent.py; the turn loop, src/app/privacy/boundary.py). */
module Choosing {
  import opened Common
  import opened Text
  import opened Catalogue

  const MAX_TURNS: nat := 6

  datatype Choice = Choice(groupName: string, actionCode: string, angle: Option<string>, reason: string)

  /** An argument as the model sent it: null, a text, or any other JSON. */
  datatype Json = Null | Text(text: string) | OtherJson

  /** A tool call: the one this step adds, any other that comes back with some answer
      (read tools, unknown names, arguments a tool does not take), or one that raises. An
      action code that is not text is on no menu. */
  datatype Call =
    | ChooseResponse(actionCode: string, angle: Json, reason: Json)
    | OtherTool
    | RaisingTool(error: string)

  /** What the model sends; no calls is its final answer. */
  datatype Turn = Reply(calls: seq<Call>) | RaisingTurn(error: string)

  type Menu = map<string, ActionSpec>

  datatype Refusal = UnknownAction(code: string) | WrongAngle(code: string) | MissingReason

  /** What one attempt has recorded so far, and what raised in it. */
  datatype Attempt = Attempt(choice: Option<Choice>, refusals: seq<Refusal>, error: Option<string>)

  datatype Stopped = FinalAnswer | TurnLimit | Raised

  const FRESH := Attempt(None, [], None)
  const NOT_TEXT := "object has no attribute 'strip'"
  const BLANK_FIELD := "must not be blank"

  /** What one call of the tool comes to. */
  datatype Verdict = Declines(refusal: Refusal) | Raises(error: string) | Records(choice: Choice)

  predicate AngleIs(angle: Json, wanted: Option<string>) {
    match wanted
    case None => angle == Null
    case Some(a) => angle == Text(a)
  }

  /** Nothing in the tool looks at the type of the reason before stripping it, and the
      choice it builds refuses a blank group name or code. */
  function Judge(menu: Menu, group: string, code: string, angle: Json, reason: Json): Verdict {
    if code !in menu then Declines(UnknownAction(code))
    else if !AngleIs(angle, menu[code].messageAngle) then Declines(WrongAngle(code))
    else if !reason.Text? then Raises(NOT_TEXT)
    else if Blank(reason.text) then Declines(MissingReason)
    else if Blank(group) || Blank(code) then Raises(BLANK_FIELD)
    else Records(Choice(group, code, menu[code].messageAngle, reason.text))
  }

  function AfterCall(menu: Menu, group: string, a: Attempt, call: Call): Attempt {
    match call
    case OtherTool => a
    case RaisingTool(error) => a.(error := Some(error))
    case ChooseResponse(code, angle, reason) =>
      match Judge(menu, group, code, angle, reason)
      case Declines(refusal) => a.(refusals := a.refusals + [refusal])
      case Raises(error) => a.(error := Some(error))
      case Records(choice) => a.(choice := Some(choice))
  }

  /** The calls of one turn, in order, up to the first that raises. */
  function AfterCalls(menu: Menu, group: string, a: Attempt, calls: seq<Call>): Attempt
    decreases |calls|
  {
    if calls == [] || a.error.Some? then a
    else AfterCalls(menu, group, AfterCall(menu, group, a, calls[0]), calls[1..])
  }

  /** The conversation from turn `n` on; the calls of the last turn allowed are not made. */
  function Converse(menu: Menu, group: string, model: nat -> Turn, n: nat, a: Attempt): (Attempt, Stopped)
    decreases MAX_TURNS - n
  {
    if n >= MAX_TURNS then (a, TurnLimit)
    else
      match model(n)
      case RaisingTurn(error) => (a.(error := Some(error)), Raised)
      case Reply(calls) =>
        if calls == [] then (a, FinalAnswer)
        else if n == MAX_TURNS - 1 then (a, TurnLimit)
        else
          var next := AfterCalls(menu, group, a, calls);
          if next.error.Some? then (next, Raised) else Converse(menu, group, model, n + 1, next)
  }

  /** Each attempt held afresh: what it recorded and how it stopped. */
  function Attempts(menu: Menu, group: string, model: nat -> nat -> Turn): nat -> (Attempt, Stopped) {
    (k: nat) => Converse(menu, group, model(k), 0, FRESH)
  }

  /** The attempts from `k` on: what the step goes on with, or what it raises. */
  function ChosenFrom(attempts: nat -> (Attempt, Stopped), k: nat, max: nat): Result<Option<Choice>, string>
    decreases max - k
  {
    if k >= max then Ok(None)
    else
      var (a, stopped) := attempts(k);
      if stopped == Raised then Err(a.error.GetOr(""))
      else if stopped == FinalAnswer && a.choice.Some? then Ok(a.choice)
      else ChosenFrom(attempts, k + 1, max)
  }

  function Chosen(menu: Menu, group: string, model: nat -> nat -> Turn, max: nat): Result<Option<Choice>, string> {
    ChosenFrom(Attempts(menu, group, model), 0, max)
  }

  /** The dictionary and the list one attempt's tool writes to. */
  class Recorder {
    var choice: Option<Choice>
    var refusals: seq<Refusal>
    var error: Option<string>

    ghost function State(): Attempt
      reads this
    {
      Attempt(choice, refusals, error)
    }

    constructor ()
      ensures State() == FRESH
    {
      choice, refusals, error := None, [], None;
    }

    method ChooseResponse(menu: Menu, group: string, code: string, angle: Json, reason: Json)
      modifies this
      ensures State() == AfterCall(menu, group, old(State()), Call.ChooseResponse(code, angle, reason))
    {
      if code !in menu {
        refusals := refusals + [UnknownAction(code)];
        return;
      }
      if !AngleIs(angle, menu[code].messageAngle) {
        refusals := refusals + [WrongAngle(code)];
        return;
      }
      if !reason.Text? {
        error := Some(NOT_TEXT);
        return;
      }
      if Blank(reason.text) {
        refusals := refusals + [MissingReason];
        return;
      }
      if Blank(group) || Blank(code) {
        error := Some(BLANK_FIELD);
        return;
      }
      choice := Some(Choice(group, code, menu[code].messageAngle, reason.text));
    }

    method CallTools(menu: Menu, group: string, calls: seq<Call>)
      requires error.None?
      modifies this
      ensures State() == AfterCalls(menu, group, old(State()), calls)
    {
      var i := 0;
      while i < |calls| && error.None?
        invariant 0 <= i <= |calls|
        invariant AfterCalls(menu, group, State(), calls[i..]) == AfterCalls(menu, group, old(State()), calls)
      {
        assert calls[i..][1..] == calls[i + 1..];
        match calls[i] {
          case OtherTool =>
          case RaisingTool(e) => error := Some(e);
          case ChooseResponse(code, angle, reason) => ChooseResponse(menu, group, code, angle, reason);
        }
        i := i + 1;
      }
    }

    method HoldConversation(menu: Menu, group: string, model: nat -> Turn) returns (stopped: Stopped)
      requires State() == FRESH
      modifies this
      ensures (State(), stopped) == Converse(menu, group, model, 0, FRESH)
    {
      var n: nat := 0;
      while n < MAX_TURNS
        invariant n <= MAX_TURNS && error.None?
        invariant Converse(menu, group, model, n, State()) == Converse(menu, group, model, 0, FRESH)
      {
        match model(n) {
          case RaisingTurn(e) =>
            error := Some(e);
            return Raised;
          case Reply(calls) =>
            if calls == [] {
              return FinalAnswer;
            }
            if n == MAX_TURNS - 1 {
              break;
            }
            CallTools(menu, group, calls);
            if error.Some? {
              return Raised;
            }
        }
        n := n + 1;
      }
      return TurnLimit;
    }
  }

  /** The step's loop over attempts. */
  method Choose(menu: Menu, group: string, model: nat -> nat -> Turn, maxAttempts: nat)
    returns (r: Result<Option<Choice>, string>)
    ensures r == Chosen(menu, group, model, maxAttempts)
  {
    ghost var attempts := Attempts(menu, group, model);
    var recorded: Option<Choice> := None;
    var k: nat := 0;
    while k < maxAttempts
      invariant 0 <= k <= maxAttempts && recorded.None?
      invariant ChosenFrom(attempts, k, maxAttempts) == ChosenFrom(attempts, 0, maxAttempts)
    {
      var attempt := new Recorder();
      var stopped := attempt.HoldConversation(menu, group, model(k));
      assert attempts(k) == (attempt.State(), stopped);
      if stopped == Raised {
        return Err(attempt.error.GetOr(""));
      }
      if stopped == FinalAnswer && attempt.choice.Some? {
        recorded := attempt.choice;
        break;
      }
      k := k + 1;
    }
    return Ok(recorded);
  }

  // ----- What can come out -----

  /** On the menu, with exactly its angle, for this group and for a reason. */
  ghost predicate Sound(menu: Menu, group: string, c: Choice) {
    && c.groupName == group && c.actionCode in menu && c.angle == menu[c.actionCode].messageAngle
    && !Blank(c.reason)
  }

  ghost predicate SoundAttempt(menu: Menu, group: string, a: Attempt) {
    a.choice.Some? ==> Sound(menu, group, a.choice.value)
  }

  lemma {:induction false} CallsStaySound(menu: Menu, group: string, a: Attempt, calls: seq<Call>)
    requires SoundAttempt(menu, group, a)
    ensures SoundAttempt(menu, group, AfterCalls(menu, group, a, calls))
    decreases |calls|
  {
    if calls != [] && a.error.None? {
      CallsStaySound(menu, group, AfterCall(menu, group, a, calls[0]), calls[1..]);
    }
  }

  lemma {:induction false} ConverseStaysSound(menu: Menu, group: string, model: nat -> Turn, n: nat, a: Attempt)
    requires SoundAttempt(menu, group, a)
    ensures SoundAttempt(menu, group, Converse(menu, group, model, n, a).0)
    decreases MAX_TURNS - n
  {
    if n < MAX_TURNS && model(n).Reply? {
      CallsStaySound(menu, group, a, model(n).calls);
      ConverseStaysSound(menu, group, model, n + 1, AfterCalls(menu, group, a, model(n).calls));
    }
  }

  lemma {:induction false} ChosenWasRecorded(attempts: nat -> (Attempt, Stopped), k: nat, max: nat) returns (j: nat)
    requires ChosenFrom(attempts, k, max).Ok? && ChosenFrom(attempts, k, max).value.Some?
    ensures attempts(j).0.choice == ChosenFrom(attempts, k, max).value
    decreases max - k
  {
    var (a, stopped) := attempts(k);
    if stopped == FinalAnswer && a.choice.Some? {
      j := k;
    } else {
      j := ChosenWasRecorded(attempts, k + 1, max);
    }
  }

  /** Whatever the model does in however many attempts, the step goes on with nothing or
      with a sound choice. */
  lemma ChoiceIsSound(menu: Menu, group: string, model: nat -> nat -> Turn, max: nat)
    requires Chosen(menu, group, model, max).Ok? && Chosen(menu, group, model, max).value.Some?
    ensures Sound(menu, group, Chosen(menu, group, model, max).value.value)
  {
    var j := ChosenWasRecorded(Attempts(menu, group, model), 0, max);
    ConverseStaysSound(menu, group, model(j), 0, FRESH);
  }

  // ----- Which one comes out -----

  /** All the calls made in a conversation that ends with a final answer on turn `last`. */
  function CallsBefore(model: nat -> Turn, last: nat): seq<Call> {
    if last == 0 then []
    else CallsBefore(model, last - 1) + match model(last - 1) case Reply(calls) => calls case RaisingTurn(_) => []
  }

  function LastAccepted(menu: Menu, group: string, calls: seq<Call>): Option<Choice> {
    if calls == [] then None
    else
      var c := calls[|calls| - 1];
      if c.ChooseResponse? && Judge(menu, group, c.actionCode, c.angle, c.reason).Records? then
        Some(Judge(menu, group, c.actionCode, c.angle, c.reason).choice)
      else LastAccepted(menu, group, calls[..|calls| - 1])
  }

  /** The call raises: another tool did, or this one was given a menu action with its own
      angle and a reason that is not text (or, were a group's name blank, a good reason). */
  predicate CallRaises(menu: Menu, group: string, c: Call) {
    match c
    case OtherTool => false
    case RaisingTool(_) => true
    case ChooseResponse(code, angle, reason) =>
      && code in menu && AngleIs(angle, menu[code].messageAngle)
      && (reason.Text? ==> !Blank(reason.text) && (Blank(group) || Blank(code)))
  }

  ghost predicate Quiet(menu: Menu, group: string, calls: seq<Call>) {
    forall i | 0 <= i < |calls| :: !CallRaises(menu, group, calls[i])
  }

  lemma {:induction false} CallsAppended(menu: Menu, group: string, a: Attempt, calls: seq<Call>, more: seq<Call>)
    ensures AfterCalls(menu, group, a, calls + more)
         == AfterCalls(menu, group, AfterCalls(menu, group, a, calls), more)
    decreases |calls|
  {
    if calls == [] {
      assert calls + more == more;
    } else if a.error.None? {
      assert (calls + more)[1..] == calls[1..] + more;
      CallsAppended(menu, group, AfterCall(menu, group, a, calls[0]), calls[1..], more);
    }
  }

  /** Calling the tool again replaces the answer: what is recorded is the last call that
      was not refused. */
  lemma {:induction false} RecordsLastAccepted(menu: Menu, group: string, calls: seq<Call>)
    ensures AfterCalls(menu, group, FRESH, calls).error.None? <==> Quiet(menu, group, calls)
    ensures Quiet(menu, group, calls) ==>
              AfterCalls(menu, group, FRESH, calls).choice == LastAccepted(menu, group, calls)
  {
    if calls != [] {
      var init, last := calls[..|calls| - 1], calls[|calls| - 1];
      RecordsLastAccepted(menu, group, init);
      assert calls == init + [last];
      CallsAppended(menu, group, FRESH, init, [last]);
      var a := AfterCalls(menu, group, FRESH, init);
      assert [last][1..] == [];
      if a.error.None? {
        assert AfterCalls(menu, group, a, [last]) == AfterCall(menu, group, a, last);
      }
    }
  }

  /** The model's final answer comes on turn `last`, within the limit. */
  ghost predicate AnswersOn(model: nat -> Turn, last: nat) {
    last < MAX_TURNS && model(last) == Reply([]) && forall n | 0 <= n < last :: model(n).Reply? && model(n).calls != []
  }

  lemma {:induction false} ConverseReaches(menu: Menu, group: string, model: nat -> Turn, last: nat, n: nat)
    requires AnswersOn(model, last) && n <= last
    requires Quiet(menu, group, CallsBefore(model, last))
    ensures Quiet(menu, group, CallsBefore(model, n))
    ensures Converse(menu, group, model, 0, FRESH)
         == Converse(menu, group, model, n, AfterCalls(menu, group, FRESH, CallsBefore(model, n)))
    decreases last, n
  {
    QuietBefore(menu, group, model, last, n);
    if n > 0 {
      ConverseReaches(menu, group, model, last, n - 1);
      var before := CallsBefore(model, n - 1);
      CallsAppended(menu, group, FRESH, before, model(n - 1).calls);
      RecordsLastAccepted(menu, group, before);
      RecordsLastAccepted(menu, group, CallsBefore(model, n));
    }
  }

  lemma {:induction false} QuietBefore(menu: Menu, group: string, model: nat -> Turn, last: nat, n: nat)
    requires n <= last && Quiet(menu, group, CallsBefore(model, last))
    ensures Quiet(menu, group, CallsBefore(model, n))
    decreases last
  {
    if n < last {
      var all, init := CallsBefore(model, last), CallsBefore(model, last - 1);
      assert forall i | 0 <= i < |init| :: all[i] == init[i];
      QuietBefore(menu, group, model, last - 1, n);
    }
  }

  /** An attempt that answers in time, and in which nothing raises, records the last
      accepted call of the turns before its answer. */
  lemma AttemptExactly(menu: Menu, group: string, model: nat -> Turn, last: nat)
    requires AnswersOn(model, last) && Quiet(menu, group, CallsBefore(model, last))
    ensures Converse(menu, group, model, 0, FRESH).1 == FinalAnswer
    ensures Converse(menu, group, model, 0, FRESH).0.choice == LastAccepted(menu, group, CallsBefore(model, last))
  {
    ConverseReaches(menu, group, model, last, last);
    RecordsLastAccepted(menu, group, CallsBefore(model, last));
  }

  // ----- When it raises -----

  /** The conversation is still going on turn `n`. */
  ghost predicate Reaches(model: nat -> Turn, n: nat) {
    forall k | 0 <= k < n :: model(k).Reply? && model(k).calls != []
  }

  /** Turn `n` is reached and raises: the turn itself does, or, before the last one, one of
      the calls made so far. */
  ghost predicate RaisesOn(menu: Menu, group: string, model: nat -> Turn, n: nat) {
    && n < MAX_TURNS && Reaches(model, n)
    && (model(n).RaisingTurn?
        || (n < MAX_TURNS - 1 && model(n).calls != [] && !Quiet(menu, group, CallsBefore(model, n + 1))))
  }

  ghost predicate RaisesLater(menu: Menu, group: string, model: nat -> Turn, n: nat) {
    exists m: nat :: n <= m && RaisesOn(menu, group, model, m)
  }

  lemma NowOrLater(menu: Menu, group: string, model: nat -> Turn, n: nat)
    ensures RaisesLater(menu, group, model, n) <==>
              RaisesOn(menu, group, model, n) || RaisesLater(menu, group, model, n + 1)
  {
    if m: nat :| n <= m && RaisesOn(menu, group, model, m) {
      assert m > n ==> n + 1 <= m;
    }
  }

  lemma NothingLater(menu: Menu, group: string, model: nat -> Turn, n: nat)
    requires n >= MAX_TURNS - 1 || model(n).RaisingTurn? || model(n).calls == []
    ensures !RaisesLater(menu, group, model, n + 1)
  {
    forall m: nat | n + 1 <= m < MAX_TURNS ensures !Reaches(model, m) {
      assert 0 <= n < m && !(model(n).Reply? && model(n).calls != []);
    }
  }

  ghost function AttemptBefore(menu: Menu, group: string, model: nat -> Turn, n: nat): Attempt {
    AfterCalls(menu, group, FRESH, CallsBefore(model, n))
  }

  lemma CallsOfTurn(menu: Menu, group: string, model: nat -> Turn, n: nat)
    requires model(n).Reply? && Quiet(menu, group, CallsBefore(model, n))
    ensures var next := AttemptBefore(menu, group, model, n + 1);
            && next == AfterCalls(menu, group, AttemptBefore(menu, group, model, n), model(n).calls)
            && (next.error.None? <==> Quiet(menu, group, CallsBefore(model, n + 1)))
  {
    CallsAppended(menu, group, FRESH, CallsBefore(model, n), model(n).calls);
    RecordsLastAccepted(menu, group, CallsBefore(model, n + 1));
  }

  lemma {:induction false} RaisesFrom(menu: Menu, group: string, model: nat -> Turn, n: nat)
    requires n < MAX_TURNS && Reaches(model, n) && Quiet(menu, group, CallsBefore(model, n))
    ensures Converse(menu, group, model, n, AttemptBefore(menu, group, model, n)).1 == Raised
       <==> RaisesLater(menu, group, model, n)
    decreases MAX_TURNS - n
  {
    NowOrLater(menu, group, model, n);
    if n < MAX_TURNS - 1 && model(n).Reply? && model(n).calls != [] {
      CallsOfTurn(menu, group, model, n);
      if Quiet(menu, group, CallsBefore(model, n + 1)) {
        RaisesFrom(menu, group, model, n + 1);
      }
    } else {
      NothingLater(menu, group, model, n);
    }
  }

  /** For every model, an attempt raises exactly when a turn it reaches does, or a call made
      before the last turn allowed. */
  lemma AttemptRaisesExactly(menu: Menu, group: string, model: nat -> Turn)
    ensures Converse(menu, group, model, 0, FRESH).1 == Raised
       <==> exists n: nat :: RaisesOn(menu, group, model, n)
  {
    RaisesFrom(menu, group, model, 0);
    assert AttemptBefore(menu, group, model, 0) == FRESH;
  }

  /** So one reason that is not text, on a call that is right otherwise, is enough to raise
      out of the whole step. */
  lemma ReasonNotTextRaises(menu: Menu, group: string, code: string, reason: Json, model: nat -> nat -> Turn, max: nat)
    requires code in menu && !reason.Text? && max > 0
    requires var angle := menu[code].messageAngle;
             model(0)(0) == Reply([ChooseResponse(code, if angle.Some? then Text(angle.value) else Null, reason)])
    ensures Chosen(menu, group, model, max) == Err(NOT_TEXT)
  {
    var call := model(0)(0).calls[0];
    assert [call][1..] == [];
    assert AfterCalls(menu, group, FRESH, [call]) == AfterCall(menu, group, FRESH, call);
    assert Converse(menu, group, model(0), 0, FRESH) == (Attempt(None, [], Some(NOT_TEXT)), Raised);
    assert Attempts(menu, group, model)(0) == Converse(menu, group, model(0), 0, FRESH);
  }

  // ----- Which attempt counts -----

  /** An attempt that neither raised nor ended in a choice. */
  ghost predicate Fruitless(attempt: (Attempt, Stopped)) {
    attempt.1 != Raised && (attempt.1 == FinalAnswer ==> attempt.0.choice.None?)
  }

  /** The j-th attempt ends in this choice, and those from the k-th before it in nothing. */
  ghost predicate FirstFruit(attempts: nat -> (Attempt, Stopped), k: nat, j: nat, c: Choice) {
    && attempts(j).1 == FinalAnswer && attempts(j).0.choice == Some(c)
    && forall i | k <= i < j :: Fruitless(attempts(i))
  }

  lemma {:induction false} FruitIsChosen(attempts: nat -> (Attempt, Stopped), k: nat, max: nat, j: nat, c: Choice)
    requires k <= j < max && FirstFruit(attempts, k, j, c)
    ensures ChosenFrom(attempts, k, max) == Ok(Some(c))
    decreases max - k
  {
    if k < j {
      assert Fruitless(attempts(k));
      FruitIsChosen(attempts, k + 1, max, j, c);
    }
  }

  lemma {:induction false} ChosenIsFruit(attempts: nat -> (Attempt, Stopped), k: nat, max: nat, c: Choice)
    returns (j: nat)
    requires ChosenFrom(attempts, k, max) == Ok(Some(c))
    ensures k <= j < max && FirstFruit(attempts, k, j, c)
    decreases max - k
  {
    if Fruitless(attempts(k)) {
      j := ChosenIsFruit(attempts, k + 1, max, c);
    } else {
      j := k;
    }
  }

  /** The step goes on with a choice exactly when the first attempt not to come to nothing
      ended in that choice. */
  lemma FirstFruitfulAttempt(menu: Menu, group: string, model: nat -> nat -> Turn, max: nat, c: Choice)
    ensures Chosen(menu, group, model, max) == Ok(Some(c)) <==>
              exists j | 0 <= j < max :: FirstFruit(Attempts(menu, group, model), 0, j, c)
  {
    var attempts := Attempts(menu, group, model);
    if ChosenFrom(attempts, 0, max) == Ok(Some(c)) {
      var j := ChosenIsFruit(attempts, 0, max, c);
    }
    if j: nat :| 0 <= j < max && FirstFruit(attempts, 0, j, c) {
      FruitIsChosen(attempts, 0, max, j, c);
    }
  }

  lemma {:induction false} NothingChosen(attempts: nat -> (Attempt, Stopped), k: nat, max: nat)
    requires k <= max
    ensures ChosenFrom(attempts, k, max) == Ok(None) <==> forall i | k <= i < max :: Fruitless(attempts(i))
    decreases max - k
  {
    if k < max {
      NothingChosen(attempts, k + 1, max);
    }
  }

  /** It goes on with nothing exactly when every attempt came to nothing. */
  lemma AllFruitless(menu: Menu, group: string, model: nat -> nat -> Turn, max: nat)
    ensures Chosen(menu, group, model, max) == Ok(None) <==>
              forall i | 0 <= i < max :: Fruitless(Attempts(menu, group, model)(i))
  {
    NothingChosen(Attempts(menu, group, model), 0, max);
  }
}
