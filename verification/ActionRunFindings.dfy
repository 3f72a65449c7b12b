/** How often one finding is worked. `save_insight_proposal` moves the finding on "so the
    same finding is not worked twice" (src/app/agents/insight_proposal.py); the state is
    looked at when a run starts and when it reads, and not when it proposes. */
module ActionRunFindings {
  import opened Common
  import opened Catalogue
  import opened Choosing
  import opened Checking
  import opened ActionRun
  import opened ActionRunLaws
  import Validity

  ghost predicate OnePerFinding(db: Db) {
    forall p, q | 0 <= p < q < |db.proposals| :: db.proposals[p].finding != db.proposals[q].finding
  }

  ghost predicate HasProposal(db: Db, f: nat) {
    exists p :: 0 <= p < |db.proposals| && db.proposals[p].finding == f
  }

  // ----- Exactly when a finding is worked twice -----

  /** This run writes its proposal if nothing raises. */
  ghost predicate WillPropose(w: World, r: nat)
    requires Fits(w)
  {
    && r < |w.threads| && w.threads[r].pc == Doing(Propose)
    && MoneyTotal(w.threads[r].local.decision.value.included) >= 0.0
    && RowsDistinct(MemberRows(w.threads[r].local.resolved.members, w.threads[r].local.decision.value.skipReasons))
  }

  /** This move commits a proposal for a finding that already has one. */
  ghost predicate ProposesAgain(w: World, e: Event)
    requires Fits(w)
  {
    && e.Go? && WillPropose(w, e.r)
    && (e.move.fault.Raise? ==> e.move.fault.at > COMMIT)
    && HasProposal(w.db, w.db.runs[e.r].finding)
  }

  lemma ProposeMoveExactly(w: World, r: nat, m: Move)
    requires Fits(w) && r < |w.threads| && w.threads[r].pc == Doing(Propose)
    ensures var l := w.threads[r].local;
            Next(w, Go(r, m)).db
            == if WillPropose(w, r) && (m.fault.Raise? ==> m.fault.at > COMMIT) then
                 Proposed(w.db, r, l.decision.value, l.resolved.members)
               else w.db
  {
  }

  lemma OneMoreProposal(db: Db, after: Db, proposal: Proposal)
    requires OnePerFinding(db) && after.proposals == db.proposals + [proposal]
    ensures OnePerFinding(after) <==> !HasProposal(db, proposal.finding)
  {
    var n := |db.proposals|;
    assert after.proposals[n] == proposal;
    if p :| 0 <= p < n && db.proposals[p].finding == proposal.finding {
      assert after.proposals[p].finding == after.proposals[n].finding;
    }
  }

  lemma OthersKeepProposals(w: World, e: Event)
    requires Fits(w) && (e.Go? && e.r < |w.threads| ==> w.threads[e.r].pc != Doing(Propose))
    ensures Next(w, e).db.proposals == w.db.proposals
  {
    if e.Go? && e.r < |w.threads| {
      OtherMoves(w.db, e.r, w.threads[e.r], e.move);
    }
  }

  /** The one move that gives a finding its second proposal is a propose step that commits
      while the finding has its first. */
  lemma TwiceOnStepExactly(w: World, e: Event)
    requires Fits(w) && OnePerFinding(w.db)
    ensures !OnePerFinding(Next(w, e).db) <==> ProposesAgain(w, e)
  {
    if e.Go? && e.r < |w.threads| && w.threads[e.r].pc == Doing(Propose) {
      ProposeMoveExactly(w, e.r, e.move);
      if Next(w, e).db != w.db {
        OneMoreProposal(w.db, Next(w, e).db,
                        ProposalFor(e.r, w.db.runs[e.r].finding, w.threads[e.r].local.decision.value));
      }
    } else {
      OthersKeepProposals(w, e);
    }
  }

  lemma ProposalsStay(w: World, e: Event)
    requires Fits(w)
    ensures w.db.proposals <= Next(w, e).db.proposals
  {
    if e.Go? && e.r < |w.threads| {
      AdvanceGrows(w.db, e.r, w.threads[e.r], e.move);
    }
  }

  ghost predicate SomeProposesAgain(es: seq<Event>) {
    exists i :: 0 <= i < |es| && ProposesAgain(RunEvents(es[..i]), es[i])
  }

  lemma LastProposesAgain(es: seq<Event>)
    requires es != []
    ensures SomeProposesAgain(es) <==>
              SomeProposesAgain(es[..|es| - 1]) || ProposesAgain(RunEvents(es[..|es| - 1]), es[|es| - 1])
  {
    var before := es[..|es| - 1];
    assert forall i | 0 <= i < |before| :: before[i] == es[i] && before[..i] == es[..i];
    if i :| 0 <= i < |before| && ProposesAgain(RunEvents(before[..i]), before[i]) {
      assert ProposesAgain(RunEvents(es[..i]), es[i]);
    }
    if i :| 0 <= i < |es| && ProposesAgain(RunEvents(es[..i]), es[i]) {
      assert i < |before| ==> ProposesAgain(RunEvents(before[..i]), before[i]);
    }
  }

  lemma TwiceStays(db: Db, after: Db)
    requires !OnePerFinding(db) && db.proposals <= after.proposals
    ensures !OnePerFinding(after)
  {
    var p, q :| 0 <= p < q < |db.proposals| && db.proposals[p].finding == db.proposals[q].finding;
    assert after.proposals[p] == db.proposals[p] && after.proposals[q] == db.proposals[q];
  }

  /** Over any history, some finding has two proposals exactly when some such move was made. */
  lemma {:induction false} WorkedTwiceExactly(es: seq<Event>)
    ensures !OnePerFinding(RunEvents(es).db) <==> SomeProposesAgain(es)
  {
    if es != [] {
      var w, last := RunEvents(es[..|es| - 1]), es[|es| - 1];
      WorkedTwiceExactly(es[..|es| - 1]);
      LastProposesAgain(es);
      if OnePerFinding(w.db) {
        TwiceOnStepExactly(w, last);
      } else {
        ProposalsStay(w, last);
        TwiceStays(w.db, Next(w, last).db);
      }
    }
  }

  // ----- A schedule that rules it out -----

  /** Past its read and still to propose. */
  predicate Pending(pc: Pc) { pc == Doing(Choose) || pc == Doing(Check) || pc == Doing(Propose) }

  /** No run reads a finding while another, past its own read of it, has yet to propose. */
  ghost predicate ReadsAlone(w: World, e: Event)
    requires Fits(w)
  {
    e.Go? && e.r < |w.threads| && w.threads[e.r].pc == Doing(Read) ==>
      forall s | 0 <= s < |w.threads| && w.db.runs[s].finding == w.db.runs[e.r].finding :: !Pending(w.threads[s].pc)
  }

  ghost predicate AllReadAlone(es: seq<Event>) {
    forall i | 0 <= i < |es| :: ReadsAlone(RunEvents(es[..i]), es[i])
  }

  ghost predicate Settled(db: Db, f: nat) { f < |db.findings| && Terminal(db.findings[f].state) }

  ghost predicate WorkedOnce(w: World) {
    && Fits(w) && OnePerFinding(w.db)
    && (forall r | 0 <= r < |w.db.runs| ::
          w.db.runs[r].finding < |w.db.findings| && w.db.findings[w.db.runs[r].finding].state != New)
    && (forall p | 0 <= p < |w.db.proposals| :: Settled(w.db, w.db.proposals[p].finding))
    && (forall r, s | 0 <= r < s < |w.threads| && w.db.runs[r].finding == w.db.runs[s].finding ::
          !(Pending(w.threads[r].pc) && Pending(w.threads[s].pc)))
    && forall r | 0 <= r < |w.threads| && Pending(w.threads[r].pc) :: !HasProposal(w.db, w.db.runs[r].finding)
  }

  lemma ProposeKeepsOnce(w: World, r: nat, m: Move)
    requires WorkedOnce(w) && r < |w.threads| && w.threads[r].pc == Doing(Propose)
    ensures WorkedOnce(Next(w, Go(r, m)))
  {
    var after := Next(w, Go(r, m));
    ProposeMove(w.db, r, w.threads[r], m);
    TwiceOnStepExactly(w, Go(r, m));
    forall s | 0 <= s < |after.threads| && Pending(after.threads[s].pc)
      ensures !HasProposal(after.db, after.db.runs[s].finding)
    {
      assert s != r && !HasProposal(w.db, w.db.runs[s].finding);
    }
  }

  /** Neither the findings nor the proposals move, and a run comes to be pending only by
      reading an accepted finding. */
  lemma OtherMoveDetail(db: Db, r: nat, t: Thread, m: Move)
    requires r < |db.runs| && Ready(t) && t.pc != Doing(Propose)
    ensures var (after, next) := Advance(db, r, t, m);
            && after.findings == db.findings
            && (Pending(next.pc) ==>
                  Pending(t.pc)
                  || (t.pc == Doing(Read) && db.runs[r].finding < |db.findings|
                      && db.findings[db.runs[r].finding].state == Accepted))
  {
  }

  lemma OtherKeepsOnce(w: World, r: nat, m: Move)
    requires WorkedOnce(w) && r < |w.threads| && w.threads[r].pc != Doing(Propose) && ReadsAlone(w, Go(r, m))
    ensures WorkedOnce(Next(w, Go(r, m)))
  {
    OtherMoves(w.db, r, w.threads[r], m);
    AdvanceGrows(w.db, r, w.threads[r], m);
    OtherMoveDetail(w.db, r, w.threads[r], m);
    var after := Next(w, Go(r, m));
    assert forall q | 0 <= q < |w.db.runs| :: after.db.runs[q].finding == w.db.runs[q].finding;
    forall s | 0 <= s < |after.threads| && Pending(after.threads[s].pc)
      ensures !HasProposal(after.db, after.db.runs[s].finding)
    {
      assert Pending(w.threads[s].pc) ==> !HasProposal(w.db, w.db.runs[s].finding);
    }
  }

  lemma StartKeepsOnce(w: World, f: nat, now: int, maxRuntime: int)
    requires WorkedOnce(w) && RefusesStart(w.db, f).None?
    ensures WorkedOnce(Next(w, Start(f, now, maxRuntime)))
  {
    var after := Next(w, Start(f, now, maxRuntime));
    assert forall q | 0 <= q < |w.db.runs| :: after.db.runs[q].finding == w.db.runs[q].finding;
    forall s | 0 <= s < |after.threads| && Pending(after.threads[s].pc)
      ensures !HasProposal(after.db, after.db.runs[s].finding)
    {
      assert !HasProposal(w.db, w.db.runs[s].finding);
    }
  }

  lemma FindingEventKeepsOnce(w: World, e: Event)
    requires WorkedOnce(w) && (e.Notice? || e.Transition?)
    ensures WorkedOnce(Next(w, e))
  {
    var after := Next(w, e);
    forall s | 0 <= s < |after.threads| && Pending(after.threads[s].pc)
      ensures !HasProposal(after.db, after.db.runs[s].finding)
    {
      assert !HasProposal(w.db, w.db.runs[s].finding);
    }
  }

  lemma StepKeepsOnce(w: World, e: Event)
    requires WorkedOnce(w) && ReadsAlone(w, e)
    ensures WorkedOnce(Next(w, e))
  {
    match e
    case Go(r, m) =>
      if r < |w.threads| {
        if w.threads[r].pc == Doing(Propose) { ProposeKeepsOnce(w, r, m); } else { OtherKeepsOnce(w, r, m); }
      }
    case Start(f, now, maxRuntime) => if RefusesStart(w.db, f).None? { StartKeepsOnce(w, f, now, maxRuntime); }
    case _ => FindingEventKeepsOnce(w, e);
  }

  lemma LastReadsAlone(es: seq<Event>)
    requires es != [] && AllReadAlone(es)
    ensures AllReadAlone(es[..|es| - 1]) && ReadsAlone(RunEvents(es[..|es| - 1]), es[|es| - 1])
  {
    var before := es[..|es| - 1];
    forall i | 0 <= i < |before| ensures ReadsAlone(RunEvents(before[..i]), before[i]) {
      assert before[..i] == es[..i] && before[i] == es[i];
    }
    assert es[..|before|] == before;
  }

  lemma {:induction false} ReadingAloneKeepsOnce(es: seq<Event>)
    requires AllReadAlone(es)
    ensures WorkedOnce(RunEvents(es))
  {
    if es != [] {
      LastReadsAlone(es);
      ReadingAloneKeepsOnce(es[..|es| - 1]);
      StepKeepsOnce(RunEvents(es[..|es| - 1]), es[|es| - 1]);
    }
  }

  /** If no run reads a finding while another has yet to propose for it, each finding has
      at most one proposal, and one that has it is never started on again. Runs may start
      together: the read looks again. */
  lemma ReadingAloneMeansOnce(es: seq<Event>)
    requires AllReadAlone(es)
    ensures OnePerFinding(RunEvents(es).db)
    ensures forall f: nat | HasProposal(RunEvents(es).db, f) :: RefusesStart(RunEvents(es).db, f).Some?
  {
    ReadingAloneKeepsOnce(es);
    var w := RunEvents(es);
    forall f: nat | HasProposal(w.db, f) ensures RefusesStart(w.db, f).Some? {
      var p :| 0 <= p < |w.db.proposals| && w.db.proposals[p].finding == f;
      assert Settled(w.db, w.db.proposals[p].finding);
    }
  }

  // ----- Two runs at once -----

  /** Two runs that both reach the propose step for one finding both write a proposal for
      it: neither looks at the finding's state again. */
  lemma OverlapProposesTwice(w: World, r: nat, s: nat, input: Input)
    requires Fits(w) && r != s && WillPropose(w, r) && WillPropose(w, s)
    requires w.db.runs[r].finding == w.db.runs[s].finding
    ensures var m := Move(input, NoFault, true);
            var after := Next(Next(w, Go(r, m)), Go(s, m));
            var n := |w.db.proposals|;
            && |after.db.proposals| == n + 2
            && after.db.proposals[n].finding == after.db.proposals[n + 1].finding == w.db.runs[r].finding
            && after.db.proposals[n].run == r && after.db.proposals[n + 1].run == s
  {
    var m := Move(input, NoFault, true);
    var first := Next(w, Go(r, m));
    assert first.threads[s] == w.threads[s] && first.db.runs == w.db.runs;
    assert WillPropose(first, s);
  }

  // The smallest such history: a finding with no clients and a model that says nothing.

  const NO_ANSWER := Input(
    [ActionRow(ActionSpec(DO_NOTHING, "", "", "", "monitor_only", "balanced", "suggest_only", None, None, None, false),
               Validity.Window(1, Some(0), None), Published)],
    Resolved([], Some("no clients")), k => n => Reply([]), 1, NOBODY, "")

  const FREELY := Move(NO_ANSWER, NoFault, true)

  function AtPropose(): Thread {
    Thread(Doing(Propose),
           Local(MenuOf(Unpaused(NO_ANSWER.live)), "group", NO_ANSWER.resolved, None, NO_ANSWER.live, NOBODY,
                 Some(Decision(NO_ANSWER.live[0], None, CHOSE_NOTHING, [], map[]))))
  }

  lemma SaysNothing(menu: Menu)
    ensures Chosen(menu, "group", NO_ANSWER.model, 1) == Ok(None)
  {
    assert NO_ANSWER.model(0)(0) == Reply([]);
    assert Converse(menu, "group", NO_ANSWER.model(0), 0, FRESH) == (FRESH, FinalAnswer);
    assert Attempts(menu, "group", NO_ANSWER.model)(0) == (FRESH, FinalAnswer);
  }

  lemma ThreeSteps(db: Db, r: nat)
    requires r < |db.runs| && db.runs[r].finding < |db.findings|
    requires db.findings[db.runs[r].finding] == Finding(Risk, Accepted, "group")
    ensures var one := Advance(db, r, Begin(), FREELY);
            var two := Advance(one.0, r, one.1, FREELY);
            Advance(two.0, r, two.1, FREELY) == (db, AtPropose())
  {
    var begun := Begin().local.(menu := MenuOf(Unpaused(NO_ANSWER.live)), group := "group",
                                resolved := NO_ANSWER.resolved);
    assert Advance(db, r, Begin(), FREELY) == (db, Thread(Doing(Choose), begun));
    SaysNothing(begun.menu);
    assert Advance(db, r, Thread(Doing(Choose), begun), FREELY) == (db, Thread(Doing(Check), begun));
    assert Find(NO_ANSWER.live, DO_NOTHING) == Some(NO_ANSWER.live[0]);
  }

  lemma Append(es: seq<Event>, w: World, e: Event)
    requires RunEvents(es) == w
    ensures RunEvents(es + [e]) == Next(w, e)
  {
    assert (es + [e])[..|es|] == es;
  }

  /** Three moves of one run take it to the propose step and change nothing else. */
  lemma ThreeMoves(es: seq<Event>, w: World, r: nat) returns (more: seq<Event>)
    requires Fits(w) && RunEvents(es) == w && r < |w.threads| && w.threads[r] == Begin()
    requires w.db.runs[r].finding < |w.db.findings|
    requires w.db.findings[w.db.runs[r].finding] == Finding(Risk, Accepted, "group")
    ensures RunEvents(more) == World(w.db, w.threads[r := AtPropose()])
  {
    var e := Go(r, FREELY);
    var one, two, three := Next(w, e), Next(Next(w, e), e), Next(Next(Next(w, e), e), e);
    ThreeSteps(w.db, r);
    Append(es, w, e);
    Append(es + [e], one, e);
    Append(es + [e] + [e], two, e);
    assert three == World(w.db, w.threads[r := AtPropose()]);
    more := es + [e] + [e] + [e];
  }

  lemma OneNoticed()
    ensures RunEvents([Notice(Risk, "group")]) == World(Db([Finding(Risk, New, "group")], [], [], []), [])
  {
    assert [Notice(Risk, "group")][..0] == [];
  }

  lemma OneAccepted() returns (es: seq<Event>)
    ensures RunEvents(es) == World(Db([Finding(Risk, Accepted, "group")], [], [], []), [])
  {
    var noticed := World(Db([Finding(Risk, New, "group")], [], [], []), []);
    OneNoticed();
    assert Next(noticed, Transition(0, Accepted)) == World(Db([Finding(Risk, Accepted, "group")], [], [], []), []);
    es := [Notice(Risk, "group")] + [Transition(0, Accepted)];
    Append([Notice(Risk, "group")], noticed, Transition(0, Accepted));
  }

  lemma OneStarted(db: Db)
    requires |db.findings| == 1 && RefusesStart(db, 0).None? && forall r | r in db.runs :: r.startedAt == 0
    ensures Started(db, 0, 0, 120) == db.(runs := db.runs + [Run(0, Running, 0, None, None)])
  {
    assert Swept(db.runs, -120) == db.runs;
  }

  lemma TwoStarted() returns (es: seq<Event>)
    ensures RunEvents(es) == World(Db([Finding(Risk, Accepted, "group")],
                                      [Run(0, Running, 0, None, None), Run(0, Running, 0, None, None)], [], []),
                                   [Begin(), Begin()])
  {
    es := OneAccepted();
    var none, start := RunEvents(es), Start(0, 0, 120);
    OneStarted(none.db);
    Append(es, none, start);
    var one := Next(none, start);
    assert one.db.runs == [Run(0, Running, 0, None, None)];
    OneStarted(one.db);
    Append(es + [start], one, start);
    es := es + [start] + [start];
  }

  lemma BothAtPropose() returns (es: seq<Event>)
    ensures RunEvents(es) == World(Db([Finding(Risk, Accepted, "group")],
                                      [Run(0, Running, 0, None, None), Run(0, Running, 0, None, None)], [], []),
                                   [AtPropose(), AtPropose()])
  {
    es := TwoStarted();
    es := ThreeMoves(es, RunEvents(es), 0);
    es := ThreeMoves(es, RunEvents(es), 1);
    assert RunEvents(es).threads == [AtPropose(), AtPropose()];
  }

  lemma QuietlyProposes(w: World, r: nat)
    requires Fits(w) && r < |w.threads| && w.threads[r] == AtPropose()
    ensures WillPropose(w, r)
  {
  }

  /** So the claim fails for two runs that both read before either proposes: there is a
      history in which one finding is given two proposals. */
  lemma OverlapIsReached() returns (es: seq<Event>)
    ensures var db := RunEvents(es).db;
            |db.proposals| == 2 && db.proposals[0].finding == db.proposals[1].finding == 0
  {
    es := BothAtPropose();
    var w := RunEvents(es);
    QuietlyProposes(w, 0);
    QuietlyProposes(w, 1);
    OverlapProposesTwice(w, 0, 1, NO_ANSWER);
    Append(es, w, Go(0, FREELY));
    Append(es + [Go(0, FREELY)], Next(w, Go(0, FREELY)), Go(1, FREELY));
    es := es + [Go(0, FREELY)] + [Go(1, FREELY)];
  }

  /** And a proposal is written even for a finding a person dismissed after it was read. */
  lemma DismissedIsStillProposed(w: World, r: nat, input: Input)
    requires Fits(w) && WillPropose(w, r) && w.db.runs[r].finding < |w.db.findings|
    requires w.db.findings[w.db.runs[r].finding].state == Accepted
    ensures var f := w.db.runs[r].finding;
            var after := Next(Next(w, Transition(f, Dismissed)), Go(r, Move(input, NoFault, true)));
            && |after.db.proposals| == |w.db.proposals| + 1
            && after.db.proposals[|w.db.proposals|].finding == f
            && after.db.findings[f].state == Dismissed
  {
  }
}
