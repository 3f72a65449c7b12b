/** What holds of action runs however they interleave: any number of runs, each moving one
    committed step at a time and raising wherever it likes, while people decide findings
    and new runs sweep up old ones. */
module ActionRunLaws {
  import opened Common
  import opened Catalogue
  import opened Choosing
  import opened Checking
  import opened Decisions
  import opened ActionRun

  /** The tables, and for each run where it is. */
  datatype World = World(db: Db, threads: seq<Thread>)

  datatype Event =
    | Notice(kind: Kind, groupName: string)
    | Transition(finding: nat, to: FindingState)
    | Start(finding: nat, now: int, maxRuntime: int)
    | Go(r: nat, move: Move)

  /** The table of moves in src/app/agents/insight_state.py. */
  predicate Allowed(from: FindingState, to: FindingState) {
    match from
    case New => to == Accepted || to == Dismissed || to == Expired
    case Accepted => to == ActedOn || to == Dismissed || to == Expired
    case _ => false
  }

  predicate Terminal(s: FindingState) { s == ActedOn || s == Dismissed || s == Expired }

  ghost predicate Fits(w: World) {
    |w.threads| == |w.db.runs| && forall r | 0 <= r < |w.threads| :: Ready(w.threads[r])
  }

  function Next(w: World, e: Event): (after: World)
    requires Fits(w)
    ensures Fits(after)
  {
    match e
    case Notice(kind, groupName) => w.(db := w.db.(findings := w.db.findings + [Finding(kind, New, groupName)]))
    case Transition(f, to) =>
      if f < |w.db.findings| && Allowed(w.db.findings[f].state, to) then
        w.(db := w.db.(findings := w.db.findings[f := w.db.findings[f].(state := to)]))
      else w
    case Start(f, now, maxRuntime) =>
      if RefusesStart(w.db, f).Some? then w
      else World(Started(w.db, f, now, maxRuntime), w.threads + [Begin()])
    case Go(r, move) =>
      if r >= |w.threads| then w
      else
        var (db, t) := Advance(w.db, r, w.threads[r], move);
        World(db, w.threads[r := t])
  }

  const NOTHING := World(Db([], [], [], []), [])

  function RunEvents(es: seq<Event>): (w: World)
    ensures Fits(w)
  {
    if es == [] then NOTHING else Next(RunEvents(es[..|es| - 1]), es[|es| - 1])
  }

  // ----- One run's proposal -----

  function RowsOf(clients: seq<ClientRow>, p: nat): seq<MemberRow> {
    if clients == [] then []
    else
      var last := clients[|clients| - 1];
      RowsOf(clients[..|clients| - 1], p) + if last.proposal == p then [last.row] else []
  }

  /** Proposal `p` is all that run `r` decided: its row, and a row for every member judged. */
  ghost predicate Whole(db: Db, p: nat, r: nat, local: Local) {
    && p < |db.proposals| && r < |db.runs| && local.decision.Some?
    && db.proposals[p] == ProposalFor(r, db.runs[r].finding, local.decision.value)
    && RowsOf(db.clients, p) == MemberRows(local.resolved.members, local.decision.value.skipReasons)
  }

  ghost predicate NoneBy(db: Db, r: nat) {
    forall p | 0 <= p < |db.proposals| :: db.proposals[p].run != r
  }

  ghost predicate OnlyBy(db: Db, r: nat, p: nat) {
    forall q | 0 <= q < |db.proposals| && db.proposals[q].run == r :: q == p
  }

  ghost predicate OneWhole(db: Db, r: nat, local: Local) {
    exists p :: Whole(db, p, r, local) && OnlyBy(db, r, p)
  }

  /** What the steps so far have handed on. */
  ghost predicate LocalOk(pc: Pc, l: Local) {
    && (pc == Doing(Read) || pc == Doing(Choose) ==> l.choice.None? && l.decision.None?)
    && (pc == Doing(Check) ==> l.decision.None?)
    && (l.choice.Some? ==> Sound(l.menu, l.group, l.choice.value))
    && (l.decision.Some? ==> Decide(l.choice, l.resolved, l.live, l.checks) == Ok(l.decision.value))
  }

  predicate BeforeProposal(pc: Pc) { pc.Doing? && pc.stage != Report }

  predicate AfterProposal(pc: Pc) { pc == Doing(Report) || pc == Closing }

  ghost predicate RunOk(db: Db, r: nat, t: Thread)
    requires r < |db.runs|
  {
    && Ready(t) && LocalOk(t.pc, t.local)
    && (BeforeProposal(t.pc) ==> NoneBy(db, r))
    && (AfterProposal(t.pc) ==> OneWhole(db, r, t.local))
    && (NoneBy(db, r) || OneWhole(db, r, t.local))
    && (db.runs[r].state == Completed ==> t.pc == Ended && OneWhole(db, r, t.local))
    && (db.runs[r].state == Failed ==> db.runs[r].failureReason.Some?)
  }

  ghost predicate TablesOk(db: Db) {
    && (forall p | 0 <= p < |db.proposals| :: db.proposals[p].run < |db.runs|)
    && forall i | 0 <= i < |db.clients| :: db.clients[i].proposal < |db.proposals|
  }

  ghost predicate WorldOk(w: World) {
    && Fits(w) && TablesOk(w.db)
    && forall r | 0 <= r < |w.threads| :: RunOk(w.db, r, w.threads[r])
  }

  // ----- What one run can change -----

  /** `after` is `db` with at most rows of run `r` changed or added. */
  ghost predicate GrewBy(db: Db, after: Db, r: nat) {
    && |after.runs| == |db.runs|
    && (forall q | 0 <= q < |db.runs| && q != r :: after.runs[q] == db.runs[q])
    && db.proposals <= after.proposals && db.clients <= after.clients
    && (forall p | |db.proposals| <= p < |after.proposals| :: after.proposals[p].run == r)
    && forall i | |db.clients| <= i < |after.clients| :: |db.proposals| <= after.clients[i].proposal < |after.proposals|
  }

  lemma AdvanceGrows(db: Db, r: nat, t: Thread, m: Move)
    requires r < |db.runs| && Ready(t)
    ensures GrewBy(db, Advance(db, r, t, m).0, r)
    ensures Advance(db, r, t, m).0.runs[r].finding == db.runs[r].finding
  {
  }

  lemma {:induction false} RowsOfUnchanged(clients: seq<ClientRow>, more: seq<ClientRow>, p: nat)
    requires forall i | 0 <= i < |more| :: more[i].proposal != p
    ensures RowsOf(clients + more, p) == RowsOf(clients, p)
  {
    if more == [] {
      assert clients + more == clients;
    } else {
      assert (clients + more)[..|clients + more| - 1] == clients + more[..|more| - 1];
      RowsOfUnchanged(clients, more[..|more| - 1], p);
    }
  }

  lemma {:induction false} RowsOfAdded(clients: seq<ClientRow>, rows: seq<MemberRow>, p: nat)
    ensures RowsOf(clients + ClientRows(p, rows), p) == RowsOf(clients, p) + rows
  {
    var more := ClientRows(p, rows);
    if rows == [] {
      assert clients + more == clients;
    } else {
      assert (clients + more)[..|clients + more| - 1] == clients + ClientRows(p, rows[..|rows| - 1]);
      RowsOfAdded(clients, rows[..|rows| - 1], p);
      assert rows == rows[..|rows| - 1] + [rows[|rows| - 1]];
    }
  }

  lemma {:induction false} RowsOfNew(clients: seq<ClientRow>, p: nat)
    requires forall i | 0 <= i < |clients| :: clients[i].proposal < p
    ensures RowsOf(clients, p) == []
  {
    RowsOfUnchanged([], clients, p);
    assert [] + clients == clients;
  }

  /** A run's proposal outlives whatever other runs add. */
  lemma GrowthKeepsOthers(db: Db, after: Db, r: nat, q: nat, t: Thread)
    requires TablesOk(db) && GrewBy(db, after, r) && q < |db.runs| && q != r
    requires RunOk(db, q, t)
    ensures RunOk(after, q, t)
  {
    if OneWhole(db, q, t.local) {
      var p :| Whole(db, p, q, t.local) && OnlyBy(db, q, p);
      WholeAfter(db, after, r, q, p, t.local);
    }
  }

  lemma WholeAfter(db: Db, after: Db, r: nat, q: nat, p: nat, local: Local)
    requires TablesOk(db) && GrewBy(db, after, r) && q < |db.runs|
    requires after.runs[q].finding == db.runs[q].finding
    requires Whole(db, p, q, local)
    ensures Whole(after, p, q, local)
  {
    var more := after.clients[|db.clients|..];
    assert after.clients == db.clients + more;
    RowsOfUnchanged(db.clients, more, p);
  }

  // ----- One run's own move -----

  lemma ProposingIsWhole(db: Db, r: nat, local: Local)
    requires TablesOk(db) && r < |db.runs| && local.decision.Some? && NoneBy(db, r)
    ensures OneWhole(Proposed(db, r, local.decision.value, local.resolved.members), r, local)
  {
    var d := local.decision.value;
    var p, rows := |db.proposals|, MemberRows(local.resolved.members, d.skipReasons);
    var after := Proposed(db, r, d, local.resolved.members);
    RowsOfAdded(db.clients, rows, p);
    RowsOfNew(db.clients, p);
    assert [] + rows == rows;
    assert Whole(after, p, r, local) && OnlyBy(after, r, p);
  }

  lemma ChooseKeepsLocal(db: Db, l: Local, input: Input, fault: Fault)
    requires LocalOk(Doing(Choose), l)
    ensures var o := ChooseOutcome(db, l, input, fault);
            LocalOk(if o.error.Some? then Failing(o.error.value) else Doing(Check), o.local)
  {
    var chosen := Chosen(l.menu, l.group, input.model, input.maxAttempts);
    if chosen.Ok? && chosen.value.Some? {
      ChoiceIsSound(l.menu, l.group, input.model, input.maxAttempts);
    }
  }

  lemma CheckKeepsLocal(db: Db, l: Local, input: Input, fault: Fault)
    requires LocalOk(Doing(Check), l)
    ensures var o := CheckOutcome(db, l, input, fault);
            LocalOk(if o.error.Some? then Failing(o.error.value) else Doing(Propose), o.local)
  {
  }

  lemma StepKeepsLocal(db: Db, r: nat, t: Thread, m: Move)
    requires r < |db.runs| && Ready(t) && LocalOk(t.pc, t.local)
    ensures LocalOk(Advance(db, r, t, m).1.pc, Advance(db, r, t, m).1.local)
  {
    if t.pc == Doing(Choose) {
      ChooseKeepsLocal(db, t.local, m.input, m.fault);
    } else if t.pc == Doing(Check) {
      CheckKeepsLocal(db, t.local, m.input, m.fault);
    } else if t.pc != Doing(Read) {
      assert Advance(db, r, t, m).1.local == t.local;
    }
  }

  /** The part of a run's condition that speaks of its proposal. */
  ghost predicate ProposalOk(db: Db, r: nat, t: Thread)
    requires r < |db.runs|
  {
    && (BeforeProposal(t.pc) ==> NoneBy(db, r))
    && (AfterProposal(t.pc) ==> OneWhole(db, r, t.local))
    && (NoneBy(db, r) || OneWhole(db, r, t.local))
  }

  /** Changing the run's own row alone leaves its proposal as it was. */
  lemma SameProposals(db: Db, after: Db, r: nat, local: Local)
    requires after.proposals == db.proposals && after.clients == db.clients
    requires r < |db.runs| == |after.runs| && after.runs[r].finding == db.runs[r].finding
    ensures NoneBy(after, r) == NoneBy(db, r)
    ensures OneWhole(db, r, local) ==> OneWhole(after, r, local)
  {
    if OneWhole(db, r, local) {
      var p :| Whole(db, p, r, local) && OnlyBy(db, r, p);
      assert Whole(after, p, r, local) && OnlyBy(after, r, p);
    }
  }

  lemma OtherMoves(db: Db, r: nat, t: Thread, m: Move)
    requires r < |db.runs| && Ready(t) && t.pc != Doing(Propose)
    ensures var (after, next) := Advance(db, r, t, m);
            && after.proposals == db.proposals && after.clients == db.clients
            && after.runs[r].finding == db.runs[r].finding
            && (AfterProposal(next.pc) ==> AfterProposal(t.pc) && next.local == t.local)
            && (BeforeProposal(next.pc) ==> BeforeProposal(t.pc))
            && (AfterProposal(t.pc) || t.pc.Failing? || t.pc == Ended ==> next.local == t.local)
  {
  }

  lemma ProposeMove(db: Db, r: nat, t: Thread, m: Move)
    requires r < |db.runs| && Ready(t) && t.pc == Doing(Propose)
    ensures var (after, next) := Advance(db, r, t, m);
            && next.local == t.local && !BeforeProposal(next.pc)
            && (after == Proposed(db, r, t.local.decision.value, t.local.resolved.members)
                || (after == db && next.pc.Failing?))
  {
  }

  lemma StepKeepsProposal(db: Db, r: nat, t: Thread, m: Move)
    requires TablesOk(db) && r < |db.runs| && Ready(t) && ProposalOk(db, r, t)
    ensures ProposalOk(Advance(db, r, t, m).0, r, Advance(db, r, t, m).1)
  {
    var (after, next) := Advance(db, r, t, m);
    if t.pc == Doing(Propose) {
      ProposeMove(db, r, t, m);
      ProposingIsWhole(db, r, t.local);
    } else {
      OtherMoves(db, r, t, m);
      SameProposals(db, after, r, t.local);
    }
  }

  ghost predicate StatusOk(db: Db, r: nat, t: Thread)
    requires r < |db.runs|
  {
    && (db.runs[r].state == Completed ==> t.pc == Ended && OneWhole(db, r, t.local))
    && (db.runs[r].state == Failed ==> db.runs[r].failureReason.Some?)
  }

  lemma StepKeepsStatus(db: Db, r: nat, t: Thread, m: Move)
    requires r < |db.runs| && Ready(t) && StatusOk(db, r, t)
    requires AfterProposal(t.pc) ==> OneWhole(db, r, t.local)
    ensures StatusOk(Advance(db, r, t, m).0, r, Advance(db, r, t, m).1)
  {
    var after := Advance(db, r, t, m).0;
    if !t.pc.Doing? {
      SameProposals(db, after, r, t.local);
    } else {
      assert after.runs[r].state == db.runs[r].state && after.runs[r].failureReason == db.runs[r].failureReason;
    }
  }

  lemma StepKeepsRun(db: Db, r: nat, t: Thread, m: Move)
    requires TablesOk(db) && r < |db.runs| && RunOk(db, r, t)
    ensures RunOk(Advance(db, r, t, m).0, r, Advance(db, r, t, m).1)
  {
    StepKeepsLocal(db, r, t, m);
    StepKeepsProposal(db, r, t, m);
    StepKeepsStatus(db, r, t, m);
    RunOkIs(Advance(db, r, t, m).0, r, Advance(db, r, t, m).1);
  }

  lemma RunOkIs(db: Db, r: nat, t: Thread)
    requires r < |db.runs| && Ready(t) && LocalOk(t.pc, t.local) && ProposalOk(db, r, t) && StatusOk(db, r, t)
    ensures RunOk(db, r, t)
  {
  }

  lemma GoKeepsWorld(w: World, r: nat, m: Move)
    requires WorldOk(w) && r < |w.threads|
    ensures WorldOk(Next(w, Go(r, m)))
  {
    var (after, t) := Advance(w.db, r, w.threads[r], m);
    AdvanceGrows(w.db, r, w.threads[r], m);
    StepKeepsRun(w.db, r, w.threads[r], m);
    forall q | 0 <= q < |w.threads| && q != r ensures RunOk(after, q, w.threads[q]) {
      GrowthKeepsOthers(w.db, after, r, q, w.threads[q]);
    }
    GrowthKeepsTables(w.db, after, r);
  }

  lemma GrowthKeepsTables(db: Db, after: Db, r: nat)
    requires TablesOk(db) && GrewBy(db, after, r) && r < |db.runs|
    ensures TablesOk(after)
  {
  }

  lemma SweptKeepsRun(db: Db, after: Db, r: nat, t: Thread)
    requires r < |db.runs| && RunOk(db, r, t)
    requires after.proposals == db.proposals && after.clients == db.clients && |after.runs| >= |db.runs|
    requires after.runs[r] == db.runs[r] || (after.runs[r].state == Failed && after.runs[r].failureReason.Some?)
    requires after.runs[r].finding == db.runs[r].finding
    ensures RunOk(after, r, t)
  {
    assert NoneBy(after, r) == NoneBy(db, r);
    if OneWhole(db, r, t.local) {
      var p :| Whole(db, p, r, t.local) && OnlyBy(db, r, p);
      assert Whole(after, p, r, t.local) && OnlyBy(after, r, p);
    }
  }

  lemma StartKeepsWorld(w: World, f: nat, now: int, maxRuntime: int)
    requires WorldOk(w) && RefusesStart(w.db, f).None?
    ensures WorldOk(Next(w, Start(f, now, maxRuntime)))
  {
    var after := Next(w, Start(f, now, maxRuntime));
    forall r | 0 <= r < |w.threads| ensures RunOk(after.db, r, w.threads[r]) {
      SweptKeepsRun(w.db, after.db, r, w.threads[r]);
    }
    assert RunOk(after.db, |w.threads|, Begin());
  }

  lemma StepKeepsWorld(w: World, e: Event)
    requires WorldOk(w)
    ensures WorldOk(Next(w, e))
  {
    match e
    case Go(r, m) => if r < |w.threads| { GoKeepsWorld(w, r, m); }
    case Start(f, now, maxRuntime) => if RefusesStart(w.db, f).None? { StartKeepsWorld(w, f, now, maxRuntime); }
    case _ =>
      var after := Next(w, e);
      forall r | 0 <= r < |w.threads| ensures RunOk(after.db, r, w.threads[r]) {
        SweptKeepsRun(w.db, after.db, r, w.threads[r]);
      }
  }

  /** In every interleaving: a completed run wrote exactly one proposal, and wrote all of
      it; any other run wrote none, or one and all of it; a failed run says why. */
  lemma {:induction false} EveryRunWellFormed(es: seq<Event>)
    ensures WorldOk(RunEvents(es))
  {
    if es != [] {
      EveryRunWellFormed(es[..|es| - 1]);
      StepKeepsWorld(RunEvents(es[..|es| - 1]), es[|es| - 1]);
    }
  }

  /** The stored row names a live action by its code, version and angle, gives the reason
      for that decision, and totals the balances of those left in. */
  ghost predicate SaysWhy(proposal: Proposal, l: Local) {
    && l.decision.Some?
    && proposal.moneyTotal == MoneyTotal(l.decision.value.included)
    && (exists row | row in l.live ::
          && row.spec.actionCode == proposal.actionCode && row.window.version == proposal.version
          && row.spec.messageAngle == proposal.angle)
    && (l.choice.None? ==>
          && proposal.actionCode == "do_nothing"
          && proposal.reason == "the model did not settle on a response for this finding")
    && (l.choice.Some? && l.resolved.refusal.Some? ==>
          proposal.actionCode == "do_nothing" && Some(proposal.reason) == l.resolved.refusal)
    && (l.choice.Some? && l.resolved.refusal.None? ==>
          && proposal.reason == l.choice.value.reason
          && proposal.actionCode
             == if l.decision.value.included != [] then l.choice.value.actionCode else "do_nothing")
  }

  lemma DecidedSaysWhy(l: Local, proposal: Proposal, r: nat, f: nat)
    requires l.decision.Some? && Decide(l.choice, l.resolved, l.live, l.checks) == Ok(l.decision.value)
    requires proposal == ProposalFor(r, f, l.decision.value)
    ensures SaysWhy(proposal, l)
  {
    NobodyMeansNothing(l.choice, l.resolved, l.live, l.checks);
    if l.choice.None? {
      NothingChosenSays(l.resolved, l.live, l.checks);
    } else if l.resolved.refusal.Some? {
      RefusalSays(l.choice.value, l.resolved, l.live, l.checks);
    } else {
      ChoiceSays(l.choice.value, l.resolved, l.live, l.checks);
    }
  }

  /** A client row repeats the verdict: for a client left out, the first check that stops
      it, or that nothing was chosen. */
  ghost predicate RowSays(row: MemberRow, m: Member, l: Local) {
    && row.key == m.key && (row.included <==> row.skipReason.None?)
    && (l.choice.None? ==> row.skipReason == Some("no_response_was_chosen"))
    && (l.choice.Some? ==>
          && Find(l.live, l.choice.value.actionCode).Some?
          && row.skipReason == SkipReason(Find(l.live, l.choice.value.actionCode).value.spec, l.checks, m.key))
  }

  lemma RowsSay(l: Local, d: Decision)
    requires l.resolved.refusal.None? && Decide(l.choice, l.resolved, l.live, l.checks) == Ok(d)
    ensures var rows := MemberRows(l.resolved.members, d.skipReasons);
            && |rows| == |l.resolved.members|
            && forall i | 0 <= i < |rows| :: RowSays(rows[i], l.resolved.members[i], l)
  {
    AllJudged(l.choice, l.resolved, l.live, l.checks);
    RowPerMember(l.resolved.members, d.skipReasons);
    forall i | 0 <= i < |l.resolved.members|
      ensures RowSays(MemberRows(l.resolved.members, d.skipReasons)[i], l.resolved.members[i], l)
    {
      if l.choice.None? {
        NothingChosenSays(l.resolved, l.live, l.checks);
      } else {
        VerdictOf(l.choice.value, l.resolved, l.live, l.checks, l.resolved.members[i]);
      }
    }
  }

  lemma {:induction false} NoRows(members: seq<Member>)
    ensures MemberRows(members, map[]) == []
  {
    if members != [] {
      NoRows(members[..|members| - 1]);
    }
  }

  /** Every proposal ever stored goes back to a run that chose soundly or does nothing,
      says why, and stores one row for each member the finding covers, saying why those left
      out were; or none at all when the members could not be worked out for the choice. */
  lemma ProposalTraced(es: seq<Event>, p: nat)
    requires p < |RunEvents(es).db.proposals|
    ensures var w := RunEvents(es); var proposal := w.db.proposals[p];
            && proposal.run < |w.threads|
            && var l, rows := w.threads[proposal.run].local, RowsOf(w.db.clients, p);
               && Whole(w.db, p, proposal.run, l) && OnlyBy(w.db, proposal.run, p)
               && proposal.finding == w.db.runs[proposal.run].finding
               && (l.choice.Some? ==> Sound(l.menu, l.group, l.choice.value))
               && SaysWhy(proposal, l)
               && (l.resolved.refusal.None? ==>
                     && |rows| == |l.resolved.members|
                     && forall i | 0 <= i < |rows| :: RowSays(rows[i], l.resolved.members[i], l))
               && (l.resolved.refusal.Some? && l.choice.Some? ==> rows == [])
  {
    var w := RunEvents(es);
    EveryRunWellFormed(es);
    ProposalIsWhole(w, p);
    var r := w.db.proposals[p].run;
    var l := w.threads[r].local;
    DecidedSaysWhy(l, w.db.proposals[p], r, w.db.runs[r].finding);
    if l.resolved.refusal.None? {
      RowsSay(l, l.decision.value);
    } else if l.choice.Some? {
      RefusalSays(l.choice.value, l.resolved, l.live, l.checks);
      NoRows(l.resolved.members);
    }
  }

  lemma ProposalIsWhole(w: World, p: nat)
    requires WorldOk(w) && p < |w.db.proposals|
    ensures var r := w.db.proposals[p].run;
            && r < |w.threads| && LocalOk(w.threads[r].pc, w.threads[r].local)
            && Whole(w.db, p, r, w.threads[r].local) && OnlyBy(w.db, r, p)
  {
    var r := w.db.proposals[p].run;
    assert RunOk(w.db, r, w.threads[r]);
    var q :| Whole(w.db, q, r, w.threads[r].local) && OnlyBy(w.db, r, q);
    assert p == q;
  }

  lemma AllJudged(choice: Option<Choice>, resolved: Resolved, live: seq<ActionRow>, checks: Checks)
    requires resolved.refusal.None? && Decide(choice, resolved, live, checks).Ok?
    ensures forall i | 0 <= i < |resolved.members| ::
              resolved.members[i].key in Decide(choice, resolved, live, checks).value.skipReasons
  {
    if choice.None? {
      VerdictsExact(resolved.members, _ => Some(NOT_CHOSEN));
    } else {
      VerdictsExact(resolved.members, k => SkipReason(Find(live, choice.value.actionCode).value.spec, checks, k));
    }
    forall i | 0 <= i < |resolved.members| ensures IsMember(resolved.members, resolved.members[i].key) {
    }
  }

  // ----- How a run ends -----

  /** The move that ends the run, counted from `k`. */
  function LastMove(db: Db, r: nat, t: Thread, moves: nat -> Move, k: nat): nat
    requires r < |db.runs| && Ready(t)
    decreases Rank(t.pc)
  {
    if t.pc.Doing? then
      var (after, next) := Advance(db, r, t, moves(k));
      LastMove(after, r, next, moves, k + 1)
    else k
  }

  /** The error of the first step that raises. */
  function FirstError(db: Db, r: nat, t: Thread, moves: nat -> Move, k: nat): Option<string>
    requires r < |db.runs| && Ready(t)
    decreases Rank(t.pc)
  {
    match t.pc
    case Doing(_) =>
      var (after, next) := Advance(db, r, t, moves(k));
      FirstError(after, r, next, moves, k + 1)
    case Failing(error) => Some(error)
    case _ => None
  }

  /** Wherever the steps raise, the run ends completed or failed with the first error as
      its reason, unless the write that says so is itself lost; only then does it stay in
      the state it was in. */
  lemma {:induction false} EndsExactly(db: Db, r: nat, t: Thread, moves: nat -> Move, k: nat)
    requires r < |db.runs| && Ready(t) && t.pc != Ended
    ensures var (after, last) := Finish(db, r, t, moves, k);
            && last.pc == Ended && |after.runs| == |db.runs|
            && (if !moves(LastMove(db, r, t, moves, k)).writes then after.runs[r].state == db.runs[r].state
                else match FirstError(db, r, t, moves, k)
                     case None => after.runs[r].state == Completed
                     case Some(error) => after.runs[r].state == Failed && after.runs[r].failureReason == Some(error))
    decreases Rank(t.pc)
  {
    var (after, next) := Advance(db, r, t, moves(k));
    if t.pc.Doing? {
      assert next.pc != Ended;
      assert after.runs[r].state == db.runs[r].state;
      EndsExactly(after, r, next, moves, k + 1);
    }
  }

  /** So a run is left running exactly when the write that ends it is lost. */
  lemma LeftRunningExactly(db: Db, r: nat, moves: nat -> Move)
    requires r < |db.runs| && db.runs[r].state == Running
    ensures var after := Finish(db, r, Begin(), moves, 0).0;
            |after.runs| == |db.runs| &&
            (after.runs[r].state == Running <==> !moves(LastMove(db, r, Begin(), moves, 0)).writes)
  {
    EndsExactly(db, r, Begin(), moves, 0);
  }

  /** And such a run is failed, with a reason, by the next start late enough. */
  lemma NextStartSweeps(db: Db, r: nat, f: nat, now: int, maxRuntime: int)
    requires r < |db.runs| && db.runs[r].state == Running && RefusesStart(db, f).None?
    ensures Started(db, f, now, maxRuntime).runs[r].state == Failed
       <==> db.runs[r].startedAt < now - maxRuntime
    ensures Started(db, f, now, maxRuntime).runs[r].state == Failed ==>
              Started(db, f, now, maxRuntime).runs[r].failureReason == Some(ORPHANED)
  {
  }

  /** A run taken to its end alone keeps the same conditions as one among others. */
  lemma {:induction false} FinishKeepsRun(db: Db, r: nat, t: Thread, moves: nat -> Move, k: nat)
    requires TablesOk(db) && r < |db.runs| && RunOk(db, r, t)
    ensures var (after, last) := Finish(db, r, t, moves, k);
            TablesOk(after) && |after.runs| == |db.runs| && RunOk(after, r, last)
    decreases Rank(t.pc)
  {
    if t.pc != Ended {
      var (after, next) := Advance(db, r, t, moves(k));
      AdvanceGrows(db, r, t, moves(k));
      GrowthKeepsTables(db, after, r);
      StepKeepsRun(db, r, t, moves(k));
      FinishKeepsRun(after, r, next, moves, k + 1);
    }
  }
}
