/** One action run: the transactions of its five steps, the write that ends it, and the
    refusals at its start (src/app/agents/action_agent.py, `fail_stale_runs` and
    `start_agent_run` in src/app/agents/agent_loop.py, `save_insight_proposal` in
    src/app/agents/insight_proposal.py). A table is the sequence of its rows; a row's id
    is its position. */
module ActionRun {
  import opened Common
  import opened Catalogue
  import opened Choosing
  import opened Checking

  datatype Kind = Risk | Opportunity | LifecycleChange | Anomaly | Pattern | CampaignFinding

  datatype FindingState = New | Accepted | ActedOn | Dismissed | Expired

  datatype Finding = Finding(kind: Kind, state: FindingState, groupName: string)

  datatype RunState = Running | Completed | Failed

  datatype Run = Run(
    finding: nat, state: RunState, startedAt: int, failureReason: Option<string>, summary: Option<string>)

  datatype Proposal = Proposal(
    run: nat, finding: nat, actionCode: string, version: int, angle: Option<string>, reason: string,
    moneyTotal: real)

  datatype ClientRow = ClientRow(proposal: nat, row: MemberRow)

  datatype Db = Db(findings: seq<Finding>, runs: seq<Run>, proposals: seq<Proposal>, clients: seq<ClientRow>)

  /** A database session: what is committed, and what this transaction sees. */
  class Session {
    var durable: Db
    var current: Db

    ghost predicate Clean()
      reads this
    {
      current == durable
    }

    constructor (db: Db)
      ensures durable == db && Clean()
    {
      durable, current := db, db;
    }

    method Commit()
      modifies this
      ensures durable == old(current) && Clean()
    {
      durable := current;
    }

    method Rollback()
      modifies this
      ensures durable == old(durable) && Clean()
    {
      current := durable;
    }
  }

  // ----- Starting -----

  datatype StartRefusal = NoSuchFinding | NotAccepted | IsPattern | IsLifecycleChange

  function RefusesStart(db: Db, finding: nat): Option<StartRefusal> {
    if finding >= |db.findings| then Some(NoSuchFinding)
    else if db.findings[finding].state != Accepted then Some(NotAccepted)
    else if db.findings[finding].kind == Pattern then Some(IsPattern)
    else if db.findings[finding].kind == LifecycleChange then Some(IsLifecycleChange)
    else None
  }

  const ORPHANED := "run exceeded the maximum runtime and was treated as orphaned"

  function Swept(runs: seq<Run>, cutoff: int): seq<Run> {
    seq(|runs|, i requires 0 <= i < |runs| =>
      if runs[i].state == Running && runs[i].startedAt < cutoff then
        runs[i].(state := Failed, failureReason := Some(ORPHANED))
      else runs[i])
  }

  function Started(db: Db, finding: nat, now: int, maxRuntime: int): Db {
    db.(runs := Swept(db.runs, now - maxRuntime) + [Run(finding, Running, now, None, None)])
  }

  method FailStaleRuns(s: Session, cutoff: int)
    requires s.Clean()
    modifies s
    ensures s.durable == old(s.durable).(runs := Swept(old(s.durable.runs), cutoff)) && s.Clean()
  {
    ghost var was := s.current.runs;
    for i := 0 to |s.current.runs|
      invariant s.durable == old(s.durable)
      invariant s.current == s.durable.(runs := s.current.runs) && |s.current.runs| == |was|
      invariant forall j | 0 <= j < |was| ::
                  s.current.runs[j] == if j < i then Swept(was, cutoff)[j] else was[j]
    {
      var run := s.current.runs[i];
      if run.state == Running && run.startedAt < cutoff {
        s.current := s.current.(runs := s.current.runs[i := run.(state := Failed, failureReason := Some(ORPHANED))]);
      }
    }
    assert s.current.runs == Swept(was, cutoff);
    s.Commit();
  }

  method StartActionRun(s: Session, finding: nat, now: int, maxRuntime: int) returns (r: Result<nat, StartRefusal>)
    requires s.Clean()
    modifies s
    ensures s.Clean()
    ensures match RefusesStart(old(s.durable), finding)
            case Some(refusal) => s.durable == old(s.durable) && r == Err(refusal)
            case None => s.durable == Started(old(s.durable), finding, now, maxRuntime)
                         && r == Ok(|old(s.durable.runs)|)
  {
    var refusal := RefusesStart(s.current, finding);
    if refusal.Some? {
      return Err(refusal.value);
    }
    FailStaleRuns(s, now - maxRuntime);
    s.current := s.current.(runs := s.current.runs + [Run(finding, Running, now, None, None)]);
    s.Commit();
    return Ok(|s.current.runs| - 1);
  }

  // ----- The steps -----

  /** Where something raises, if anywhere: 0 is before the first write, the numbers up to
      COMMIT lie between the writes, at COMMIT the commit itself fails, and after that
      the step raises with its work committed. */
  datatype Fault = NoFault | Raise(at: nat, error: string)

  const COMMIT: nat := 3

  /** What a step meets when it runs: the live catalogue, the members of the finding, the
      model, the checks' answers, and the text of the report. */
  datatype Input = Input(
    live: seq<ActionRow>, resolved: Resolved, model: nat -> nat -> Turn, maxAttempts: nat, checks: Checks,
    summary: string)

  /** What the steps hand on, with what the check step met. */
  datatype Local = Local(
    menu: Menu, group: string, resolved: Resolved, choice: Option<Choice>, live: seq<ActionRow>, checks: Checks,
    decision: Option<Decision>)

  datatype Stage = Read | Choose | Check | Propose | Report

  /** What a step leaves committed, what it hands on, and what it raised. */
  datatype StepResult = StepResult(db: Db, local: Local, error: Option<string>)

  function MenuOf(rows: seq<ActionRow>): Menu {
    if rows == [] then map[]
    else MenuOf(rows[..|rows| - 1])[rows[|rows| - 1].spec.actionCode := rows[|rows| - 1].spec]
  }

  /** A step whose writes lead from `db` to `after` and hand on `local`. */
  function Transacted(db: Db, after: Db, was: Local, local: Local, fault: Fault): StepResult {
    match fault
    case NoFault => StepResult(after, local, None)
    case Raise(at, error) => StepResult(if at <= COMMIT then db else after, was, Some(error))
  }

  const NOT_ACTIONABLE := "only an accepted finding may be acted on"
  const NEGATIVE_MONEY := "ck_agent_proposal_money_total_not_negative"
  const MEMBER_TWICE := "uq_agent_proposal_client_proposal_client_fund"

  function ReadOutcome(db: Db, r: nat, local: Local, input: Input, fault: Fault): StepResult
    requires r < |db.runs|
  {
    var f := db.runs[r].finding;
    if f >= |db.findings| || db.findings[f].state != Accepted then StepResult(db, local, Some(NOT_ACTIONABLE))
    else
      var next := local.(menu := MenuOf(Unpaused(input.live)), group := db.findings[f].groupName,
                         resolved := input.resolved);
      Transacted(db, db, local, next, fault)
  }

  function ChooseOutcome(db: Db, local: Local, input: Input, fault: Fault): StepResult {
    match Chosen(local.menu, local.group, input.model, input.maxAttempts)
    case Err(error) => StepResult(db, local, Some(error))
    case Ok(choice) => Transacted(db, db, local, local.(choice := choice), fault)
  }

  function CheckOutcome(db: Db, local: Local, input: Input, fault: Fault): StepResult {
    match Decide(local.choice, local.resolved, input.live, input.checks)
    case Err(error) => StepResult(db, local, Some(error))
    case Ok(decision) =>
      Transacted(db, db, local, local.(live := input.live, checks := input.checks, decision := Some(decision)), fault)
  }

  function ProposalFor(r: nat, finding: nat, d: Decision): Proposal {
    Proposal(r, finding, d.action.spec.actionCode, d.action.window.version, d.action.spec.messageAngle, d.reason,
             MoneyTotal(d.included))
  }

  function ClientRows(p: nat, rows: seq<MemberRow>): seq<ClientRow> {
    seq(|rows|, i requires 0 <= i < |rows| => ClientRow(p, rows[i]))
  }

  function ActOn(findings: seq<Finding>, f: nat): seq<Finding> {
    if f < |findings| && findings[f].state == Accepted then findings[f := findings[f].(state := ActedOn)]
    else findings
  }

  predicate RowsDistinct(rows: seq<MemberRow>) {
    forall i, j | 0 <= i < j < |rows| :: rows[i].key != rows[j].key
  }

  /** The tables with the whole proposal written. */
  function Proposed(db: Db, r: nat, d: Decision, members: seq<Member>): Db
    requires r < |db.runs|
  {
    var f := db.runs[r].finding;
    db.(proposals := db.proposals + [ProposalFor(r, f, d)],
        clients := db.clients + ClientRows(|db.proposals|, MemberRows(members, d.skipReasons)),
        findings := ActOn(db.findings, f))
  }

  function ProposeOutcome(db: Db, r: nat, local: Local, fault: Fault): StepResult
    requires r < |db.runs| && local.decision.Some?
  {
    var d, members := local.decision.value, local.resolved.members;
    if fault.Raise? && fault.at == 0 then StepResult(db, local, Some(fault.error))
    else if MoneyTotal(d.included) < 0.0 then StepResult(db, local, Some(NEGATIVE_MONEY))
    else if fault.Raise? && fault.at == 1 then StepResult(db, local, Some(fault.error))
    else if !RowsDistinct(MemberRows(members, d.skipReasons)) then StepResult(db, local, Some(MEMBER_TWICE))
    else Transacted(db, Proposed(db, r, d, members), local, local, fault)
  }

  function Summarised(db: Db, r: nat, summary: string): Db
    requires r < |db.runs|
  {
    db.(runs := db.runs[r := db.runs[r].(summary := Some(summary))])
  }

  function StageOutcome(db: Db, r: nat, stage: Stage, local: Local, input: Input, fault: Fault): StepResult
    requires r < |db.runs| && (stage == Propose ==> local.decision.Some?)
  {
    match stage
    case Read => ReadOutcome(db, r, local, input, fault)
    case Choose => ChooseOutcome(db, local, input, fault)
    case Check => CheckOutcome(db, local, input, fault)
    case Propose => ProposeOutcome(db, r, local, fault)
    case Report => Transacted(db, Summarised(db, r, input.summary), local, local, fault)
  }

  // ----- The life of a run -----

  datatype Pc = Doing(stage: Stage) | Failing(error: string) | Closing | Ended

  datatype Thread = Thread(pc: Pc, local: Local)

  /** What meets the run at one move: a step's input and fault, and whether the write that
      ends the run, either way, gets through. */
  datatype Move = Move(input: Input, fault: Fault, writes: bool)

  function After(stage: Stage): Pc {
    match stage
    case Read => Doing(Choose)
    case Choose => Doing(Check)
    case Check => Doing(Propose)
    case Propose => Doing(Report)
    case Report => Closing
  }

  predicate Ready(t: Thread) { t.pc == Doing(Propose) ==> t.local.decision.Some? }

  function RunFailed(db: Db, r: nat, error: string): Db
    requires r < |db.runs|
  {
    db.(runs := db.runs[r := db.runs[r].(state := Failed, failureReason := Some(error))])
  }

  function RunCompleted(db: Db, r: nat): Db
    requires r < |db.runs|
  {
    db.(runs := db.runs[r := db.runs[r].(state := Completed)])
  }

  /** One move of run `r`: a step, or the write that ends it. */
  function Advance(db: Db, r: nat, t: Thread, m: Move): (next: (Db, Thread))
    requires r < |db.runs| && Ready(t)
    ensures |next.0.runs| == |db.runs| && Ready(next.1)
  {
    match t.pc
    case Doing(stage) =>
      var o := StageOutcome(db, r, stage, t.local, m.input, m.fault);
      (o.db, Thread(if o.error.Some? then Failing(o.error.value) else After(stage), o.local))
    case Failing(error) => (if m.writes then RunFailed(db, r, error) else db, t.(pc := Ended))
    case Closing => (if m.writes then RunCompleted(db, r) else db, t.(pc := Ended))
    case Ended => (db, t)
  }

  function Rank(pc: Pc): nat {
    match pc
    case Doing(Read) => 7
    case Doing(Choose) => 6
    case Doing(Check) => 5
    case Doing(Propose) => 4
    case Doing(Report) => 3
    case Closing => 2
    case Failing(_) => 1
    case Ended => 0
  }

  /** The run taken to its end, from move `k` on. */
  function Finish(db: Db, r: nat, t: Thread, moves: nat -> Move, k: nat): (Db, Thread)
    requires r < |db.runs| && Ready(t)
    decreases Rank(t.pc)
  {
    if t.pc == Ended then (db, t)
    else
      var (after, next) := Advance(db, r, t, moves(k));
      Finish(after, r, next, moves, k + 1)
  }

  const NOBODY := Checks(false, _ => Facts(false, false, false, false, false))

  function Begin(): Thread {
    Thread(Doing(Read), Local(map[], "", Resolved([], None), None, [], NOBODY, None))
  }

  /** The propose step, write by write. */
  method ProposeStep(s: Session, r: nat, local: Local, fault: Fault) returns (error: Option<string>)
    requires s.Clean() && r < |s.durable.runs| && local.decision.Some?
    modifies s
    ensures var o := ProposeOutcome(old(s.durable), r, local, fault); s.durable == o.db && error == o.error
    ensures error.None? ==> s.Clean()
  {
    if fault.Raise? && fault.at == 0 {
      return Some(fault.error);
    }
    var d, f := local.decision.value, s.current.runs[r].finding;
    var p := |s.current.proposals|;
    var proposal := ProposalFor(r, f, d);
    if proposal.moneyTotal < 0.0 {
      return Some(NEGATIVE_MONEY);
    }
    s.current := s.current.(proposals := s.current.proposals + [proposal]);
    if fault.Raise? && fault.at == 1 {
      return Some(fault.error);
    }
    var rows := MemberRows(local.resolved.members, d.skipReasons);
    if !RowsDistinct(rows) {
      return Some(MEMBER_TWICE);
    }
    s.current := s.current.(clients := s.current.clients + ClientRows(p, rows));
    if fault.Raise? && fault.at == 2 {
      return Some(fault.error);
    }
    s.current := s.current.(findings := ActOn(s.current.findings, f));
    if fault.Raise? && fault.at <= COMMIT {
      return Some(fault.error);
    }
    s.Commit();
    if fault.Raise? {
      return Some(fault.error);
    }
    return None;
  }

  method ReportStep(s: Session, r: nat, summary: string, fault: Fault) returns (error: Option<string>)
    requires s.Clean() && r < |s.durable.runs|
    modifies s
    ensures s.durable == if fault.Raise? && fault.at <= COMMIT then old(s.durable)
                         else Summarised(old(s.durable), r, summary)
    ensures error == (if fault.Raise? then Some(fault.error) else None)
    ensures error.None? ==> s.Clean()
  {
    if fault.Raise? && fault.at == 0 {
      return Some(fault.error);
    }
    s.current := Summarised(s.current, r, summary);
    if fault.Raise? && fault.at <= COMMIT {
      return Some(fault.error);
    }
    s.Commit();
    return if fault.Raise? then Some(fault.error) else None;
  }

  /** One node of the graph. The first three write nothing this model keeps. */
  method RunStage(s: Session, r: nat, stage: Stage, local: Local, input: Input, fault: Fault)
    returns (next: Local, error: Option<string>)
    requires s.Clean() && r < |s.durable.runs| && (stage == Propose ==> local.decision.Some?)
    modifies s
    ensures StepResult(s.durable, next, error) == StageOutcome(old(s.durable), r, stage, local, input, fault)
    ensures error.None? ==> s.Clean()
  {
    next := local;
    match stage {
      case Propose =>
        error := ProposeStep(s, r, local, fault);
      case Report =>
        error := ReportStep(s, r, input.summary, fault);
      case _ =>
        var o := StageOutcome(s.current, r, stage, local, input, fault);
        next, error := o.local, o.error;
    }
  }

  /** The graph, the handler that marks a failed run, and the write that closes a finished
      one. */
  method ExecuteActionRun(s: Session, r: nat, moves: nat -> Move)
    requires s.Clean() && r < |s.durable.runs|
    modifies s
    ensures s.durable == Finish(old(s.durable), r, Begin(), moves, 0).0
  {
    var t := Begin();
    var k: nat := 0;
    while t.pc != Ended
      invariant s.Clean() && r < |s.durable.runs| && Ready(t)
      invariant Finish(s.durable, r, t, moves, k) == Finish(old(s.durable), r, Begin(), moves, 0)
      decreases Rank(t.pc)
    {
      var m := moves(k);
      match t.pc {
        case Doing(stage) =>
          var next, error := RunStage(s, r, stage, t.local, m.input, m.fault);
          if error.Some? {
            s.Rollback();
          }
          t := Thread(if error.Some? then Failing(error.value) else After(stage), next);
        case Failing(error) =>
          s.current := RunFailed(s.current, r, error);
          if m.writes { s.Commit(); } else { s.Rollback(); }
          t := t.(pc := Ended);
        case Closing =>
          s.current := RunCompleted(s.current, r);
          if m.writes { s.Commit(); } else { s.Rollback(); }
          t := t.(pc := Ended);
      }
      k := k + 1;
    }
  }
}
