/** The measured messages behind the summary: the tables the detail query reads,
    its joins, and the one row it yields for each eligible message
    (src/app/agents/action_performance.py, detail_query). */
module Results {
  import opened Common
  import opened Relations

  const NONE_LABEL := "none"
  const UNKNOWN_LABEL := "unknown"

  datatype ActionResult = ActionResult(
    proposalId: int, clientId: int, fundId: int, messageId: string, sentAt: int,
    windowDays: int, replied: bool, optedOut: bool, reviewerChanged: bool,
    deposited: bool, depositKes: real)

  datatype Proposal = Proposal(
    id: int, actionCode: string, angle: Option<string>, contentMix: Option<string>,
    variant: Option<string>)

  datatype Message = Message(id: string, generationRun: Option<string>)

  datatype Generation = Generation(id: string, priorityTier: Option<string>)

  datatype ProposalClient = ProposalClient(
    proposalId: int, clientId: int, fundId: int, variant: Option<string>)

  datatype ProposalVariant = ProposalVariant(
    proposalId: int, variant: string, angle: string, contentMix: Option<string>)

  datatype Snapshot = Snapshot(clientId: int, fundId: int, band: string, createdAt: int)

  datatype Tables = Tables(
    results: seq<ActionResult>, proposals: seq<Proposal>, messages: seq<Message>,
    generations: seq<Generation>, clients: seq<ProposalClient>, variants: seq<ProposalVariant>,
    snapshots: seq<Snapshot>)

  datatype Labels = Labels(
    actionCode: string, angle: string, priorityTier: string, riskBand: string,
    contentMix: string, variant: string)

  datatype Detail = Detail(
    sentAt: int, labels: Labels, replied: bool, optedOut: bool, edited: bool,
    deposited: bool, depositKes: real)

  // The joins, one ON condition each, in the order the query makes them.

  type WithProposal = (ActionResult, Proposal)
  type WithMessage = (WithProposal, Message)
  type WithGeneration = (WithMessage, Option<Generation>)
  type WithClient = (WithGeneration, Option<ProposalClient>)
  type WithVariant = (WithClient, Option<ProposalVariant>)

  predicate OnProposal(r: ActionResult, p: Proposal) { p.id == r.proposalId }

  predicate OnMessage(x: WithProposal, m: Message) { m.id == x.0.messageId }

  predicate OnGeneration(x: WithMessage, g: Generation) { x.1.generationRun == Some(g.id) }

  predicate OnClient(x: WithGeneration, c: ProposalClient) {
    var r := x.0.0.0;
    c.proposalId == r.proposalId && c.clientId == r.clientId && c.fundId == r.fundId
  }

  predicate OnVariant(x: WithClient, v: ProposalVariant) {
    && v.proposalId == x.0.0.0.0.proposalId
    && x.1.Some? && x.1.value.variant == Some(v.variant)
  }

  /** The client fund's newest risk snapshot taken no later than the send. */
  function LatestSnapshot(snapshots: seq<Snapshot>, r: ActionResult): Option<Snapshot> {
    if snapshots == [] then None
    else
      var best := LatestSnapshot(snapshots[..|snapshots| - 1], r);
      var s := snapshots[|snapshots| - 1];
      if Seen(s, r) && (best.None? || best.value.createdAt < s.createdAt) then Some(s) else best
  }

  predicate Seen(s: Snapshot, r: ActionResult) {
    s.clientId == r.clientId && s.fundId == r.fundId && s.createdAt <= r.sentAt
  }

  function Emit(snapshots: seq<Snapshot>, x: WithVariant): Detail {
    var variant := x.1;
    var client := x.0.1;
    var generation := x.0.0.1;
    var proposal := x.0.0.0.0.1;
    var r := x.0.0.0.0.0;
    var band := LatestSnapshot(snapshots, r);
    Detail(
      r.sentAt,
      Labels(
        proposal.actionCode,
        if variant.Some? then variant.value.angle else proposal.angle.GetOr(NONE_LABEL),
        if generation.Some? then generation.value.priorityTier.GetOr(UNKNOWN_LABEL) else UNKNOWN_LABEL,
        if band.Some? then band.value.band else UNKNOWN_LABEL,
        (if variant.None? then proposal.contentMix else variant.value.contentMix).GetOr(NONE_LABEL),
        (if client.Some? then client.value.variant else None).Or(proposal.variant).GetOr(NONE_LABEL)),
      r.replied, r.optedOut, r.reviewerChanged, r.deposited, r.depositKes)
  }

  function EmitAll(snapshots: seq<Snapshot>, xs: seq<WithVariant>): seq<Detail> {
    seq(|xs|, i requires 0 <= i < |xs| => Emit(snapshots, xs[i]))
  }

  function Eligible(results: seq<ActionResult>, windowDays: int, before: int): seq<ActionResult> {
    if results == [] then []
    else
      var r := results[|results| - 1];
      Eligible(results[..|results| - 1], windowDays, before)
      + if r.windowDays == windowDays && r.sentAt < before then [r] else []
  }

  /** The query. Its WHERE reads columns of action_result alone, so it is applied
      to that table before the joins. */
  function DetailQuery(t: Tables, windowDays: int, before: int): seq<Detail> {
    var x0 := Eligible(t.results, windowDays, before);
    var x1 := InnerJoin(x0, t.proposals, OnProposal);
    var x2 := InnerJoin(x1, t.messages, OnMessage);
    var x3 := LeftJoin(x2, t.generations, OnGeneration);
    var x4 := LeftJoin(x3, t.clients, OnClient);
    EmitAll(t.snapshots, LeftJoin(x4, t.variants, OnVariant))
  }

  /** The keys, foreign keys and checks the schema declares on these tables. */
  ghost predicate Keyed(t: Tables) {
    && (forall i, j | 0 <= i < j < |t.proposals| :: t.proposals[i].id != t.proposals[j].id)
    && (forall i, j | 0 <= i < j < |t.messages| :: t.messages[i].id != t.messages[j].id)
    && (forall i, j | 0 <= i < j < |t.generations| :: t.generations[i].id != t.generations[j].id)
    && (forall i, j | 0 <= i < j < |t.clients| ::
          !(t.clients[i].proposalId == t.clients[j].proposalId
            && t.clients[i].clientId == t.clients[j].clientId
            && t.clients[i].fundId == t.clients[j].fundId))
    && (forall i, j | 0 <= i < j < |t.variants| ::
          !(t.variants[i].proposalId == t.variants[j].proposalId
            && t.variants[i].variant == t.variants[j].variant))
    && (forall r | r in t.results :: Linked(t, r) && r.windowDays > 0 && r.depositKes >= 0.0)
  }

  /** Both foreign keys of a result point at a row. */
  ghost predicate Linked(t: Tables, r: ActionResult) {
    && (exists i | 0 <= i < |t.proposals| :: t.proposals[i].id == r.proposalId)
    && (exists i | 0 <= i < |t.messages| :: t.messages[i].id == r.messageId)
  }

  lemma {:induction false} FetchProposal(r: ActionResult, ps: seq<Proposal>)
    requires exists i | 0 <= i < |ps| :: ps[i].id == r.proposalId
    ensures Lookup(r, ps, OnProposal).Some?
  {
    if ps[0].id != r.proposalId {
      var i :| 0 <= i < |ps| && ps[i].id == r.proposalId;
      assert ps[1..][i - 1] == ps[i];
      FetchProposal(r, ps[1..]);
    }
  }

  lemma {:induction false} FetchMessage(x: WithProposal, ms: seq<Message>)
    requires exists i | 0 <= i < |ms| :: ms[i].id == x.0.messageId
    ensures Lookup(x, ms, OnMessage).Some?
  {
    if ms[0].id != x.0.messageId {
      var i :| 0 <= i < |ms| && ms[i].id == x.0.messageId;
      assert ms[1..][i - 1] == ms[i];
      FetchMessage(x, ms[1..]);
    }
  }

  /** One result with everything it points at, each fetched by its key. */
  ghost function Fetch(t: Tables, r: ActionResult): WithVariant
    requires Linked(t, r)
  {
    FetchProposal(r, t.proposals);
    var x1 := (r, Lookup(r, t.proposals, OnProposal).value);
    FetchMessage(x1, t.messages);
    var x2 := (x1, Lookup(x1, t.messages, OnMessage).value);
    var x3 := (x2, Lookup(x2, t.generations, OnGeneration));
    var x4 := (x3, Lookup(x3, t.clients, OnClient));
    (x4, Lookup(x4, t.variants, OnVariant))
  }

  ghost function Describe(t: Tables, r: ActionResult): Detail
    requires Linked(t, r)
  {
    Emit(t.snapshots, Fetch(t, r))
  }

  /** The reference reading of the query: each eligible result, described once. */
  ghost function Details(t: Tables, results: seq<ActionResult>, windowDays: int, before: int): seq<Detail>
    requires forall r | r in results :: Linked(t, r)
  {
    if results == [] then []
    else
      var r := results[|results| - 1];
      Details(t, results[..|results| - 1], windowDays, before)
      + if r.windowDays == windowDays && r.sentAt < before then [Describe(t, r)] else []
  }

  lemma {:induction false} DetailsAreDescriptions(
    t: Tables, results: seq<ActionResult>, windowDays: int, before: int)
    requires forall r | r in results :: Linked(t, r)
    ensures var xs := Eligible(results, windowDays, before);
            && (forall x | x in xs :: x in results)
            && Details(t, results, windowDays, before)
               == seq(|xs|, i requires 0 <= i < |xs| => Describe(t, xs[i]))
  {
    if results != [] {
      DetailsAreDescriptions(t, results[..|results| - 1], windowDays, before);
    }
  }

  lemma InnerJoinsFetch(t: Tables, x0: seq<ActionResult>)
    requires Keyed(t) && forall x | x in x0 :: x in t.results
    ensures var x2 := InnerJoin(InnerJoin(x0, t.proposals, OnProposal), t.messages, OnMessage);
            && |x2| == |x0|
            && forall i | 0 <= i < |x0| :: Linked(t, x0[i]) && x2[i] == Fetch(t, x0[i]).0.0.0
  {
    forall x | x in x0 ensures Lookup(x, t.proposals, OnProposal).Some? {
      FetchProposal(x, t.proposals);
    }
    InnerJoinKeyed(x0, t.proposals, OnProposal);
    var x1 := InnerJoin(x0, t.proposals, OnProposal);
    forall x | x in x1 ensures Lookup(x, t.messages, OnMessage).Some? {
      var i :| 0 <= i < |x1| && x1[i] == x;
      assert Linked(t, x0[i]);
      FetchMessage(x, t.messages);
    }
    InnerJoinKeyed(x1, t.messages, OnMessage);
    forall i | 0 <= i < |x0| ensures Linked(t, x0[i]) {
      assert x0[i] in t.results;
    }
  }

  lemma OuterJoinsFetch(t: Tables, x0: seq<ActionResult>, x2: seq<WithMessage>)
    requires Keyed(t) && |x2| == |x0|
    requires forall i | 0 <= i < |x0| :: Linked(t, x0[i]) && x2[i] == Fetch(t, x0[i]).0.0.0
    ensures var x4 := LeftJoin(LeftJoin(x2, t.generations, OnGeneration), t.clients, OnClient);
            var x5 := LeftJoin(x4, t.variants, OnVariant);
            |x5| == |x0| && forall i | 0 <= i < |x0| :: x5[i] == Fetch(t, x0[i])
  {
    LeftJoinKeyed(x2, t.generations, OnGeneration);
    var x3 := LeftJoin(x2, t.generations, OnGeneration);
    LeftJoinKeyed(x3, t.clients, OnClient);
    LeftJoinKeyed(LeftJoin(x3, t.clients, OnClient), t.variants, OnVariant);
  }

  lemma EmittedAreDescriptions(t: Tables, x0: seq<ActionResult>, x5: seq<WithVariant>)
    requires |x5| == |x0| && forall i | 0 <= i < |x0| :: Linked(t, x0[i]) && x5[i] == Fetch(t, x0[i])
    ensures EmitAll(t.snapshots, x5) == seq(|x0|, i requires 0 <= i < |x0| => Describe(t, x0[i]))
  {
  }

  lemma JoinsFetch(t: Tables, x0: seq<ActionResult>) returns (x5: seq<WithVariant>)
    requires Keyed(t) && forall x | x in x0 :: x in t.results
    ensures var x2 := InnerJoin(InnerJoin(x0, t.proposals, OnProposal), t.messages, OnMessage);
            var x4 := LeftJoin(LeftJoin(x2, t.generations, OnGeneration), t.clients, OnClient);
            x5 == LeftJoin(x4, t.variants, OnVariant)
    ensures |x5| == |x0| && forall i | 0 <= i < |x0| :: Linked(t, x0[i]) && x5[i] == Fetch(t, x0[i])
  {
    var x2 := InnerJoin(InnerJoin(x0, t.proposals, OnProposal), t.messages, OnMessage);
    InnerJoinsFetch(t, x0);
    OuterJoinsFetch(t, x0, x2);
    x5 := LeftJoin(LeftJoin(LeftJoin(x2, t.generations, OnGeneration), t.clients, OnClient), t.variants, OnVariant);
  }

  /** Under the schema's keys the five joins neither drop nor repeat a result:
      the query yields exactly one row for each eligible one, the row that
      fetching by key describes. */
  lemma OneRowPerResult(t: Tables, windowDays: int, before: int)
    requires Keyed(t)
    ensures DetailQuery(t, windowDays, before) == Details(t, t.results, windowDays, before)
    ensures |DetailQuery(t, windowDays, before)| == |Eligible(t.results, windowDays, before)|
  {
    var x0 := Eligible(t.results, windowDays, before);
    DetailsAreDescriptions(t, t.results, windowDays, before);
    var x5 := JoinsFetch(t, x0);
    EmittedAreDescriptions(t, x0, x5);
  }

  /** The band subquery picks a snapshot that was there at the send, and none of
      those is newer. */
  lemma {:induction false} LatestSnapshotIsNewest(snapshots: seq<Snapshot>, r: ActionResult)
    ensures match LatestSnapshot(snapshots, r)
            case None =>
              forall s | s in snapshots && s.clientId == r.clientId && s.fundId == r.fundId :: s.createdAt > r.sentAt
            case Some(best) =>
              && best in snapshots
              && best.clientId == r.clientId && best.fundId == r.fundId && best.createdAt <= r.sentAt
              && forall s | s in snapshots && s.clientId == r.clientId && s.fundId == r.fundId ::
                   s.createdAt <= r.sentAt ==> s.createdAt <= best.createdAt
  {
    if snapshots != [] {
      var rest := snapshots[..|snapshots| - 1];
      LatestSnapshotIsNewest(rest, r);
      assert snapshots == rest + [snapshots[|snapshots| - 1]];
    }
  }

  /** Snapshots taken after a send do not change the band it is counted under. */
  lemma {:induction false} LaterSnapshotsUnseen(snapshots: seq<Snapshot>, newer: seq<Snapshot>, r: ActionResult)
    requires forall s | s in newer :: s.createdAt > r.sentAt
    ensures LatestSnapshot(snapshots + newer, r) == LatestSnapshot(snapshots, r)
  {
    if newer == [] {
      assert snapshots + newer == snapshots;
    } else {
      var last := |newer| - 1;
      assert (snapshots + newer)[..|snapshots + newer| - 1] == snapshots + newer[..last];
      LaterSnapshotsUnseen(snapshots, newer[..last], r);
    }
  }

  /** Whatever the client's side, the action code is the proposal's. */
  lemma ActionCodeLabel(t: Tables, r: ActionResult, p: nat)
    requires Keyed(t) && Linked(t, r)
    requires p < |t.proposals| && t.proposals[p].id == r.proposalId
    ensures Describe(t, r).labels.actionCode == t.proposals[p].actionCode
  {
    LookupIs(r, t.proposals, OnProposal, p);
  }

  /** A nullable label as it is shown. */
  function OrNone(text: Option<string>): string { if text == None then "none" else text.value }

  /** A client assigned to a side of a split proposal is counted under that side's
      angle and mix (a NULL mix there reads "none", never the proposal's own). */
  lemma SplitClientLabels(t: Tables, r: ActionResult, p: nat, c: nat, v: nat)
    requires Keyed(t) && Linked(t, r)
    requires p < |t.proposals| && t.proposals[p].id == r.proposalId
    requires c < |t.clients| && t.clients[c].proposalId == r.proposalId
    requires t.clients[c].clientId == r.clientId && t.clients[c].fundId == r.fundId
    requires v < |t.variants| && t.variants[v].proposalId == r.proposalId
    requires t.clients[c].variant == Some(t.variants[v].variant)
    ensures var labels := Describe(t, r).labels;
            && labels.actionCode == t.proposals[p].actionCode
            && labels.angle == t.variants[v].angle
            && labels.contentMix == OrNone(t.variants[v].contentMix)
            && labels.variant == t.variants[v].variant
  {
    var x := Fetch(t, r);
    LookupIs(r, t.proposals, OnProposal, p);
    LookupIs(x.0.0, t.clients, OnClient, c);
    LookupIs(x.0, t.variants, OnVariant, v);
  }

  /** A client on no side is counted under the proposal's own angle, mix and variant. */
  lemma UnsplitClientLabels(t: Tables, r: ActionResult, p: nat)
    requires Keyed(t) && Linked(t, r)
    requires p < |t.proposals| && t.proposals[p].id == r.proposalId
    requires forall c | c in t.clients && c.proposalId == r.proposalId
                        && c.clientId == r.clientId && c.fundId == r.fundId :: c.variant.None?
    ensures var labels := Describe(t, r).labels;
            && labels.actionCode == t.proposals[p].actionCode
            && labels.angle == OrNone(t.proposals[p].angle)
            && labels.contentMix == OrNone(t.proposals[p].contentMix)
            && labels.variant == OrNone(t.proposals[p].variant)
  {
    var x := Fetch(t, r);
    LookupIs(r, t.proposals, OnProposal, p);
    if x.0.1.Some? {
      LookupFinds(x.0.0, t.clients, OnClient);
    }
    if x.1.Some? {
      LookupFinds(x.0, t.variants, OnVariant);
    }
  }

  /** A client assigned to a side the proposal has no row for keeps the side's name beside the
      proposal's own angle and mix. */
  lemma MissingSideLabels(t: Tables, r: ActionResult, p: nat, c: nat)
    requires Keyed(t) && Linked(t, r)
    requires p < |t.proposals| && t.proposals[p].id == r.proposalId
    requires c < |t.clients| && t.clients[c].proposalId == r.proposalId
    requires t.clients[c].clientId == r.clientId && t.clients[c].fundId == r.fundId
    requires t.clients[c].variant.Some?
    requires forall v | v in t.variants && v.proposalId == r.proposalId :: t.clients[c].variant != Some(v.variant)
    ensures var labels := Describe(t, r).labels;
            && labels.angle == OrNone(t.proposals[p].angle)
            && labels.contentMix == OrNone(t.proposals[p].contentMix)
            && labels.variant == t.clients[c].variant.value
  {
    var x := Fetch(t, r);
    LookupIs(r, t.proposals, OnProposal, p);
    LookupIs(x.0.0, t.clients, OnClient, c);
    if x.1.Some? {
      LookupFinds(x.0, t.variants, OnVariant);
    }
  }

  /** The tier is the one recorded on the message's generation run, or "unknown". */
  lemma TierLabel(t: Tables, r: ActionResult, m: nat)
    requires Keyed(t) && Linked(t, r)
    requires m < |t.messages| && t.messages[m].id == r.messageId
    ensures var labels := Describe(t, r).labels;
            var run := t.messages[m].generationRun;
            && (forall g | g in t.generations && run == Some(g.id) ::
                  labels.priorityTier == if g.priorityTier == None then "unknown" else g.priorityTier.value)
            && ((forall g | g in t.generations :: run != Some(g.id)) ==> labels.priorityTier == "unknown")
  {
    var x := Fetch(t, r);
    LookupIs(x.0.0.0.0, t.messages, OnMessage, m);
    forall g | g in t.generations && t.messages[m].generationRun == Some(g.id)
      ensures x.0.0.1 == Some(g)
    {
      var k :| 0 <= k < |t.generations| && t.generations[k] == g;
      LookupIs(x.0.0.0, t.generations, OnGeneration, k);
    }
    if x.0.0.1.Some? {
      LookupFinds(x.0.0.0, t.generations, OnGeneration);
    }
  }

  /** The snapshot was taken of the result's client fund by the time of the send. */
  predicate TakenBySend(s: Snapshot, r: ActionResult) {
    s.clientId == r.clientId && s.fundId == r.fundId && !(s.createdAt > r.sentAt)
  }

  /** The band is the one in force at the send, or "unknown" when there is none. */
  lemma BandLabel(t: Tables, r: ActionResult)
    requires Linked(t, r)
    ensures var band := Describe(t, r).labels.riskBand;
            && (forall s | s in t.snapshots && TakenBySend(s, r) ::
                  (forall o | o in t.snapshots && o != s && TakenBySend(o, r) :: o.createdAt < s.createdAt) ==>
                    band == s.band)
            && ((forall s | s in t.snapshots :: !TakenBySend(s, r)) ==> band == "unknown")
  {
    LatestSnapshotIsNewest(t.snapshots, r);
  }
}
