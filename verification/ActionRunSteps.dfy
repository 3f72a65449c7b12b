/** What each step of an action run commits, field by field, and what a whole run that
    nothing interrupts leaves in the tables. */
module ActionRunSteps {
  import opened Common
  import opened Catalogue
  import opened Choosing
  import opened Checking
  import opened ActionRun
  import opened ActionRunLaws

  // ----- Starting -----

  /** A start is accepted exactly for a stored, accepted finding that is neither a pattern
      nor a change of label, and each refusal has its own cause. */
  lemma StartsExactly(db: Db, f: nat)
    ensures var no := RefusesStart(db, f);
            && (no == None <==>
                  && f < |db.findings| && db.findings[f].state == Accepted
                  && db.findings[f].kind in {Risk, Opportunity, Anomaly, CampaignFinding})
            && (no == Some(NoSuchFinding) <==> f >= |db.findings|)
            && (no == Some(NotAccepted) <==> f < |db.findings| && db.findings[f].state != Accepted)
            && (no == Some(IsPattern) <==>
                  f < |db.findings| && db.findings[f].state == Accepted && db.findings[f].kind == Pattern)
            && (no == Some(IsLifecycleChange) <==>
                  f < |db.findings| && db.findings[f].state == Accepted && db.findings[f].kind == LifecycleChange)
  {
  }

  /** A start that is not refused fails the running runs started before the cut-off, leaves
      every other run as it is, adds its own run, and touches no other table. */
  lemma StartWritesExactly(db: Db, f: nat, now: int, maxRuntime: int)
    requires RefusesStart(db, f).None?
    ensures var after, n := Started(db, f, now, maxRuntime), |db.runs|;
            && |after.runs| == n + 1
            && after.runs[n] == Run(f, Running, now, None, None)
            && (forall r | 0 <= r < n ::
                  if db.runs[r].state == Running && db.runs[r].startedAt < now - maxRuntime then
                    after.runs[r]
                    == Run(db.runs[r].finding, Failed, db.runs[r].startedAt,
                           Some("run exceeded the maximum runtime and was treated as orphaned"),
                           db.runs[r].summary)
                  else after.runs[r] == db.runs[r])
            && after.findings == db.findings && after.proposals == db.proposals && after.clients == db.clients
  {
  }

  ghost predicate Startable(kind: Kind) { kind in {Risk, Opportunity, Anomaly, CampaignFinding} }

  ghost predicate OnlyStartable(w: World) {
    forall r | 0 <= r < |w.db.runs| ::
      w.db.runs[r].finding < |w.db.findings| && Startable(w.db.findings[w.db.runs[r].finding].kind)
  }

  lemma KindsKept(w: World, e: Event)
    requires Fits(w)
    ensures |Next(w, e).db.findings| >= |w.db.findings|
    ensures forall f | 0 <= f < |w.db.findings| :: Next(w, e).db.findings[f].kind == w.db.findings[f].kind
  {
  }

  lemma FindingsOfRunsKept(w: World, e: Event)
    requires Fits(w)
    ensures var after := Next(w, e).db;
            && |w.db.runs| <= |after.runs| <= |w.db.runs| + 1
            && (forall r | 0 <= r < |w.db.runs| :: after.runs[r].finding == w.db.runs[r].finding)
            && (|after.runs| > |w.db.runs| ==>
                  && e.Start? && RefusesStart(w.db, e.finding).None?
                  && after.runs[|w.db.runs|].finding == e.finding)
  {
    if e.Go? && e.r < |w.threads| {
      AdvanceGrows(w.db, e.r, w.threads[e.r], e.move);
    }
  }

  /** Over every history no run is ever for a pattern or a change of label. */
  lemma {:induction false} NeverOnPatterns(es: seq<Event>)
    ensures OnlyStartable(RunEvents(es))
  {
    if es != [] {
      var w, e := RunEvents(es[..|es| - 1]), es[|es| - 1];
      NeverOnPatterns(es[..|es| - 1]);
      KindsKept(w, e);
      FindingsOfRunsKept(w, e);
      if e.Start? {
        StartsExactly(w.db, e.finding);
      }
    }
  }

  // ----- Each step -----

  /** What the read step hands on: every unpaused live action by its code, the finding's
      group and the members; or it raises, and only then, because the finding is not, or no
      longer, accepted. */
  lemma ReadExactly(db: Db, r: nat, l: Local, input: Input)
    requires r < |db.runs|
    ensures var o, f := ReadOutcome(db, r, l, input, NoFault), db.runs[r].finding;
            && o.db == db
            && (o.error == None <==> f < |db.findings| && db.findings[f].state == Accepted)
            && (o.error != None ==> o.local == l)
            && (o.error == None ==>
                  && o.local.group == db.findings[f].groupName && o.local.resolved == input.resolved
                  && o.local.choice == l.choice && o.local.decision == l.decision
                  && (forall code :: code in o.local.menu <==> OnOffer(input.live, code))
                  && forall code | code in o.local.menu ::
                       Offered(input.live, o.local.menu[code]) && o.local.menu[code].actionCode == code)
  {
    MenuIs(Unpaused(input.live));
    UnpausedIs(input.live);
  }

  ghost predicate Offered(live: seq<ActionRow>, a: ActionSpec) {
    !a.paused && exists row :: row in live && row.spec == a
  }

  ghost predicate OnOffer(live: seq<ActionRow>, code: string) {
    exists row :: row in live && !row.spec.paused && row.spec.actionCode == code
  }

  lemma {:induction false} UnpausedIs(rows: seq<ActionRow>)
    ensures forall row :: row in Unpaused(rows) <==> row in rows && !row.spec.paused
  {
    if rows != [] {
      UnpausedIs(rows[1..]);
      assert rows == [rows[0]] + rows[1..];
    }
  }

  lemma {:induction false} MenuIs(rows: seq<ActionRow>)
    ensures forall code :: code in MenuOf(rows) <==> exists row :: row in rows && row.spec.actionCode == code
    ensures forall code | code in MenuOf(rows) ::
              MenuOf(rows)[code].actionCode == code && exists row :: row in rows && row.spec == MenuOf(rows)[code]
  {
    if rows != [] {
      var init, last := rows[..|rows| - 1], rows[|rows| - 1];
      MenuIs(init);
      assert rows == init + [last];
      forall code | code in MenuOf(rows)
        ensures MenuOf(rows)[code].actionCode == code && exists row :: row in rows && row.spec == MenuOf(rows)[code]
      {
        if code == last.spec.actionCode {
          assert last in rows;
        } else {
          var row :| row in init && row.spec == MenuOf(init)[code];
          assert row in rows;
        }
      }
      forall code ensures code in MenuOf(rows) <==> exists row :: row in rows && row.spec.actionCode == code {
        if row :| row in rows && row.spec.actionCode == code {
          assert row in init || row == last;
        }
        if code in MenuOf(init) {
          var row :| row in init && row.spec.actionCode == code;
          assert row in rows;
        }
      }
    }
  }

  /** The propose step may commit: the row passes its check, no client comes twice, and
      nothing raises up to the commit. */
  ghost predicate Commits(l: Local, fault: Fault)
    requires l.decision.Some?
  {
    && MoneyTotal(l.decision.value.included) >= 0.0
    && RowsDistinct(MemberRows(l.resolved.members, l.decision.value.skipReasons))
    && (fault.Raise? ==> fault.at > 3)
  }

  /** A proposal that commits adds its row and the client rows that name it, moves its
      finding from accepted to acted on, and leaves every other finding, a finding that is
      no longer accepted, and every run as they are. One that does not commit writes nothing. */
  lemma ProposeWritesExactly(db: Db, r: nat, l: Local, fault: Fault)
    requires r < |db.runs| && l.decision.Some?
    ensures var after, n, f := ProposeOutcome(db, r, l, fault).db, |db.proposals|, db.runs[r].finding;
            var d, rows := l.decision.value, MemberRows(l.resolved.members, l.decision.value.skipReasons);
            && (!Commits(l, fault) ==> after == db)
            && (Commits(l, fault) ==>
                  && after.runs == db.runs
                  && after.proposals
                     == db.proposals
                        + [Proposal(r, f, d.action.spec.actionCode, d.action.window.version,
                                    d.action.spec.messageAngle, d.reason, MoneyTotal(d.included))]
                  && |after.clients| == |db.clients| + |rows| && after.clients[..|db.clients|] == db.clients
                  && (forall i | 0 <= i < |rows| :: after.clients[|db.clients| + i] == ClientRow(n, rows[i]))
                  && |after.findings| == |db.findings|
                  && forall g | 0 <= g < |db.findings| ::
                       if g == f && db.findings[g].state == Accepted then
                         after.findings[g] == Finding(db.findings[g].kind, ActedOn, db.findings[g].groupName)
                       else after.findings[g] == db.findings[g])
    ensures ProposeOutcome(db, r, l, fault).error == None <==> Commits(l, fault) && fault == NoFault
    ensures ProposeOutcome(db, r, l, fault).local == l
  {
  }

  /** The report writes the summary on its own run and nothing else, unless it raises up to
      its commit; the first three steps write nothing. */
  lemma OtherStepsWriteExactly(db: Db, r: nat, stage: Stage, l: Local, input: Input, fault: Fault)
    requires r < |db.runs| && stage != Propose
    ensures var after := StageOutcome(db, r, stage, l, input, fault).db;
            if stage == Report && (fault.Raise? ==> fault.at > 3) then
              && after.findings == db.findings && after.proposals == db.proposals && after.clients == db.clients
              && |after.runs| == |db.runs|
              && (forall q | 0 <= q < |db.runs| && q != r :: after.runs[q] == db.runs[q])
              && after.runs[r]
                 == Run(db.runs[r].finding, db.runs[r].state, db.runs[r].startedAt, db.runs[r].failureReason,
                        Some(input.summary))
            else after == db
    ensures fault.Raise? ==> StageOutcome(db, r, stage, l, input, fault).error != None
  {
  }

  /** The write that ends a run sets its state, with the error as the reason when it failed,
      and nothing else; a lost one changes nothing. */
  lemma EndingWritesExactly(db: Db, r: nat, t: Thread, m: Move)
    requires r < |db.runs| && (t.pc.Failing? || t.pc == Closing)
    ensures var (after, next) := Advance(db, r, t, m); var run := db.runs[r];
            && next.pc == Ended && next.local == t.local
            && (!m.writes ==> after == db)
            && (m.writes ==>
                  && after.findings == db.findings && after.proposals == db.proposals && after.clients == db.clients
                  && |after.runs| == |db.runs|
                  && (forall q | 0 <= q < |db.runs| && q != r :: after.runs[q] == db.runs[q])
                  && after.runs[r]
                     == if t.pc == Closing then
                          Run(run.finding, Completed, run.startedAt, run.failureReason, run.summary)
                        else Run(run.finding, Failed, run.startedAt, Some(t.pc.error), run.summary))
  {
  }

  // ----- A run that nothing interrupts -----

  /** The run with a state and a summary; nothing else about it changes. */
  function Done(run: Run, summary: string): Run {
    Run(run.finding, Completed, run.startedAt, run.failureReason, Some(summary))
  }

  ghost predicate Uninterrupted(moves: nat -> Move) {
    (forall k: nat | k < 5 :: moves(k).fault == NoFault) && moves(5).writes
  }

  /** What the run reads, chooses and decides: the menu and members its read step meets, the
      model its choose step meets, and what is live when its check step runs. */
  ghost predicate Decides(db: Db, f: nat, moves: nat -> Move, d: Decision)
    requires f < |db.findings|
  {
    var read, choose, check := moves(0).input, moves(1).input, moves(2).input;
    var chosen := Chosen(MenuOf(Unpaused(read.live)), db.findings[f].groupName, choose.model, choose.maxAttempts);
    chosen.Ok? && Decide(chosen.value, read.resolved, check.live, check.checks) == Ok(d)
  }

  lemma FirstThreeSteps(db: Db, r: nat, moves: nat -> Move, d: Decision)
    requires r < |db.runs| && Uninterrupted(moves)
    requires var f := db.runs[r].finding;
             f < |db.findings| && db.findings[f].state == Accepted && Decides(db, f, moves, d)
    ensures var one := Advance(db, r, Begin(), moves(0));
            var two := Advance(one.0, r, one.1, moves(1));
            var three := Advance(two.0, r, two.1, moves(2));
            && three.0 == db && three.1.pc == Doing(Propose)
            && three.1.local.decision == Some(d) && three.1.local.resolved == moves(0).input.resolved
            && Finish(db, r, Begin(), moves, 0) == Finish(db, r, three.1, moves, 3)
  {
    var one := Advance(db, r, Begin(), moves(0));
    var two := Advance(one.0, r, one.1, moves(1));
    var three := Advance(two.0, r, two.1, moves(2));
    assert one.0 == db && one.1.pc == Doing(Choose);
    assert two.0 == db && two.1.pc == Doing(Check);
    assert three.0 == db && three.1.pc == Doing(Propose);
    assert Finish(db, r, one.1, moves, 1) == Finish(db, r, two.1, moves, 2);
  }

  lemma LastThreeSteps(db: Db, r: nat, t: Thread, moves: nat -> Move)
    requires r < |db.runs| && Uninterrupted(moves) && t.pc == Doing(Propose) && t.local.decision.Some?
    requires Commits(t.local, NoFault)
    ensures var proposed := Proposed(db, r, t.local.decision.value, t.local.resolved.members);
            Finish(db, r, t, moves, 3).0
            == proposed.(runs := db.runs[r := Done(db.runs[r], moves(4).input.summary)])
  {
    var proposed := Proposed(db, r, t.local.decision.value, t.local.resolved.members);
    var reported := Summarised(proposed, r, moves(4).input.summary);
    assert Advance(db, r, t, moves(3)) == (proposed, t.(pc := Doing(Report)));
    assert Advance(proposed, r, t.(pc := Doing(Report)), moves(4)) == (reported, t.(pc := Closing));
    assert Advance(reported, r, t.(pc := Closing), moves(5)) == (RunCompleted(reported, r), t.(pc := Ended));
    assert Finish(reported, r, t.(pc := Closing), moves, 5).0 == RunCompleted(reported, r);
  }

  /** A run on an accepted finding that nothing interrupts completes with its summary,
      having written the proposal for what was chosen and decided from what it met. */
  lemma CompletesExactly(db: Db, r: nat, moves: nat -> Move, d: Decision)
    requires r < |db.runs| && Uninterrupted(moves)
    requires var f := db.runs[r].finding;
             f < |db.findings| && db.findings[f].state == Accepted && Decides(db, f, moves, d)
    requires MoneyTotal(d.included) >= 0.0
    requires RowsDistinct(MemberRows(moves(0).input.resolved.members, d.skipReasons))
    ensures var after, f, n := Finish(db, r, Begin(), moves, 0).0, db.runs[r].finding, |db.proposals|;
            && after.runs
               == db.runs[r := Run(f, Completed, db.runs[r].startedAt, db.runs[r].failureReason,
                                   Some(moves(4).input.summary))]
            && after.findings
               == db.findings[f := Finding(db.findings[f].kind, ActedOn, db.findings[f].groupName)]
            && |after.proposals| == n + 1 && after.proposals[..n] == db.proposals
            && after.proposals[n]
               == Proposal(r, f, d.action.spec.actionCode, d.action.window.version, d.action.spec.messageAngle,
                           d.reason, MoneyTotal(d.included))
            && db.clients <= after.clients
            && RowsOf(after.clients[|db.clients|..], n)
               == MemberRows(moves(0).input.resolved.members, d.skipReasons)
  {
    FirstThreeSteps(db, r, moves, d);
    var one := Advance(db, r, Begin(), moves(0));
    var two := Advance(one.0, r, one.1, moves(1));
    var t := Advance(two.0, r, two.1, moves(2)).1;
    LastThreeSteps(db, r, t, moves);
    var after, rows := Finish(db, r, Begin(), moves, 0).0, MemberRows(t.local.resolved.members, d.skipReasons);
    assert after.clients[|db.clients|..] == [] + ClientRows(|db.proposals|, rows);
    RowsOfAdded([], rows, |db.proposals|);
    assert [] + rows == rows;
  }
}
