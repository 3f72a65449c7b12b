/** The summary table over time: what later results, later builds, and deleted
    risk snapshots can and cannot change. */
module PerformanceRuns {
  import opened Common
  import opened Relations
  import opened Periods
  import opened Results
  import opened Performance
  import opened PerformanceLaws

  // ----- Risk snapshots only decide the band -----

  function WithoutBand(labels: Labels): Labels { labels.(riskBand := "") }

  /** The rows of one period with the given labels, whatever their band. */
  ghost function AnyBand(start: int, labels: Labels): Row -> bool {
    (x: Row) => x.periodStart == start && WithoutBand(x.labels) == WithoutBand(labels)
  }

  ghost function AnyBandCell(cut: Cut, start: int, labels: Labels): Cell -> bool {
    (x: Cell) => cut.StartOf(x.periodIndex) == start && WithoutBand(x.labels) == WithoutBand(labels)
  }

  lemma SnapshotsOnlyDecideBand(t: Tables, snapshots: seq<Snapshot>, r: ActionResult)
    requires Linked(t, r)
    ensures var other := t.(snapshots := snapshots);
            && Linked(other, r)
            && WithoutBand(Describe(other, r).labels) == WithoutBand(Describe(t, r).labels)
            && Describe(other, r).sentAt == Describe(t, r).sentAt == r.sentAt
  {
    assert Linked(t.(snapshots := snapshots), r);
    assert Fetch(t.(snapshots := snapshots), r) == Fetch(t, r);
  }

  lemma StillKeyed(t: Tables, snapshots: seq<Snapshot>)
    requires Keyed(t)
    ensures Keyed(t.(snapshots := snapshots))
  {
    forall r | r in t.results ensures Linked(t.(snapshots := snapshots), r) {
      assert Linked(t, r);
    }
  }

  lemma PickedWhateverBand(
    t: Tables, snapshots: seq<Snapshot>, cut: Cut, start: int, labels: Labels, r: ActionResult)
    requires cut.periodHours > 0 && Linked(t, r)
    ensures var p := AnyBandCell(cut, start, labels);
            Picked(t, cut, p, r) == Picked(t.(snapshots := snapshots), cut, p, r)
  {
    SnapshotsOnlyDecideBand(t, snapshots, r);
  }

  /** Deleting risk snapshots, or any other change to that table, leaves the totals
      summed over `risk_band` as they were. */
  lemma TotalsIgnoreSnapshots(t: Tables, snapshots: seq<Snapshot>, cut: Cut, start: int, labels: Labels)
    requires Keyed(t) && cut.periodHours > 0
    ensures SumRows(SliceRows(t.(snapshots := snapshots), cut), AnyBand(start, labels))
         == SumRows(SliceRows(t, cut), AnyBand(start, labels))
  {
    var other := t.(snapshots := snapshots);
    var p := AnyBandCell(cut, start, labels);
    StillKeyed(t, snapshots);
    SliceTotal(t, cut, AnyBand(start, labels), p);
    SliceTotal(other, cut, AnyBand(start, labels), p);
    forall r | r in t.results ensures Picked(t, cut, p, r) == Picked(other, cut, p, r) {
      PickedWhateverBand(t, snapshots, cut, start, labels, r);
    }
    SameSelection(t.results, Picks(t, cut, p), Picks(other, cut, p));
  }

  // ----- Time passing -----

  /** Every table with rows appended. */
  function Appended(t: Tables, more: Tables): Tables {
    Tables(t.results + more.results, t.proposals + more.proposals, t.messages + more.messages,
           t.generations + more.generations, t.clients + more.clients, t.variants + more.variants,
           t.snapshots + more.snapshots)
  }

  ghost predicate IsProposal(t: Tables, id: int) { exists i | 0 <= i < |t.proposals| :: t.proposals[i].id == id }

  /** The appended rows are about what came after: results are sent and snapshots taken no
      earlier than the cut-off, client and variant rows belong to new proposals, and no
      stored message names a new generation run. */
  ghost predicate OnlyNew(t: Tables, more: Tables, before: int) {
    && (forall r | r in more.results :: before <= r.sentAt)
    && (forall s | s in more.snapshots :: before <= s.createdAt)
    && (forall c | c in more.clients :: !IsProposal(t, c.proposalId))
    && (forall v | v in more.variants :: !IsProposal(t, v.proposalId))
    && forall m, g | m in t.messages && g in more.generations :: m.generationRun != Some(g.id)
  }

  /** The tables later on: any of them may have grown. */
  ghost predicate Later(t: Tables, later: Tables, before: int) {
    exists more :: later == Appended(t, more) && OnlyNew(t, more, before)
  }

  lemma LinkedLater(t: Tables, more: Tables, r: ActionResult)
    requires Linked(t, r)
    ensures Linked(Appended(t, more), r)
  {
    var later := Appended(t, more);
    var p :| 0 <= p < |t.proposals| && t.proposals[p].id == r.proposalId;
    var m :| 0 <= m < |t.messages| && t.messages[m].id == r.messageId;
    assert later.proposals[p].id == r.proposalId && later.messages[m].id == r.messageId;
  }

  lemma FetchedLater(t: Tables, more: Tables, before: int, r: ActionResult)
    requires Linked(t, r) && OnlyNew(t, more, before)
    ensures Linked(Appended(t, more), r) && Fetch(Appended(t, more), r) == Fetch(t, r)
  {
    LinkedLater(t, more, r);
    FetchProposal(r, t.proposals);
    LookupAppended(r, t.proposals, more.proposals, OnProposal);
    var x1 := (r, Lookup(r, t.proposals, OnProposal).value);
    FetchMessage(x1, t.messages);
    LookupAppended(x1, t.messages, more.messages, OnMessage);
    LookupFinds(x1, t.messages, OnMessage);
    var x2 := (x1, Lookup(x1, t.messages, OnMessage).value);
    LookupAppended(x2, t.generations, more.generations, OnGeneration);
    var x3 := (x2, Lookup(x2, t.generations, OnGeneration));
    assert IsProposal(t, r.proposalId);
    LookupAppended(x3, t.clients, more.clients, OnClient);
    var x4 := (x3, Lookup(x3, t.clients, OnClient));
    LookupAppended(x4, t.variants, more.variants, OnVariant);
  }

  lemma DescribedAlikeLater(t: Tables, more: Tables, before: int, r: ActionResult)
    requires Linked(t, r) && OnlyNew(t, more, before) && r.sentAt < before
    ensures Linked(Appended(t, more), r) && Describe(Appended(t, more), r) == Describe(t, r)
  {
    FetchedLater(t, more, before, r);
    LaterSnapshotsUnseen(t.snapshots, more.snapshots, r);
  }

  /** Each cell of a period that was complete at the old cut-off is tallied the
      same from the later tables with the later clock. */
  lemma CompleteCellsAreSettled(t: Tables, later: Tables, cut: Cut, now: int, c: Cell)
    requires Keyed(t) && Keyed(later) && cut.periodHours > 0 && cut.computedAt <= now
    requires Later(t, later, cut.CompleteBefore()) && cut.Complete(c.periodIndex)
    ensures CellResults(later, cut.(computedAt := now), c) == CellResults(t, cut, c)
  {
    var cut' := cut.(computedAt := now);
    var more :| later == Appended(t, more) && OnlyNew(t, more, cut.CompleteBefore());
    var now', was := Picks(later, cut', Is(c)), Picks(t, cut, Is(c));
    forall r | r in more.results ensures !now'(r) {
      NotInSettledCell(later, cut, now, c, r);
    }
    forall r | r in t.results ensures now'(r) == was(r) {
      SettledResult(t, more, cut, now, c, r);
    }
    SelectionOfConcat(t.results, more.results, now');
    SameSelection(t.results, now', was);
  }

  lemma SettledResult(t: Tables, more: Tables, cut: Cut, now: int, c: Cell, r: ActionResult)
    requires cut.periodHours > 0 && cut.computedAt <= now && cut.Complete(c.periodIndex) && Linked(t, r)
    requires OnlyNew(t, more, cut.CompleteBefore())
    ensures Picked(Appended(t, more), cut.(computedAt := now), Is(c), r) == Picked(t, cut, Is(c), r)
  {
    if cut.CompleteBefore() <= r.sentAt {
      NotInSettledCell(Appended(t, more), cut, now, c, r);
      NotInSettledCell(t, cut, cut.computedAt, c, r);
    } else {
      DescribedAlikeLater(t, more, cut.CompleteBefore(), r);
      CutOffIsExact(cut, r.sentAt);
      SameCell(cut, now, Describe(t, r));
    }
  }

  lemma SameCell(cut: Cut, now: int, d: Detail)
    requires cut.periodHours > 0 && cut.computedAt <= now && cut.Complete(cut.IndexOf(d.sentAt))
    ensures CellOf(cut.(computedAt := now), d) == CellOf(cut, d)
    ensures cut.(computedAt := now).Complete(cut.(computedAt := now).IndexOf(d.sentAt))
  {
  }

  lemma NotInSettledCell(t: Tables, cut: Cut, now: int, c: Cell, r: ActionResult)
    requires cut.periodHours > 0 && cut.Complete(c.periodIndex) && cut.CompleteBefore() <= r.sentAt
    ensures !Picked(t, cut.(computedAt := now), Is(c), r)
  {
    var cut' := cut.(computedAt := now);
    CutOffIsExact(cut, r.sentAt);
    assert cut'.IndexOf(r.sentAt) == cut.IndexOf(r.sentAt);
    if Linked(t, r) {
      assert CellOf(cut', Describe(t, r)).periodIndex == cut'.IndexOf(r.sentAt);
    }
  }

  lemma Redated(c: Cell, counts: Tally, cut: Cut, now: int)
    requires counts.sent > 0
    ensures RowOf(c, counts, cut).(computedAt := now) == RowOf(c, counts, cut.(computedAt := now))
  {
  }

  lemma RowStays(t: Tables, later: Tables, cut: Cut, now: int, row: Row)
    requires Keyed(t) && Keyed(later) && cut.periodHours > 0 && cut.computedAt <= now
    requires Later(t, later, cut.CompleteBefore()) && row in SliceRows(t, cut)
    ensures row.(computedAt := now) in SliceRows(later, cut.(computedAt := now))
  {
    var c, r := RowWitness(t, cut, row);
    CompleteCellsAreSettled(t, later, cut, now, c);
    var same := RowForCell(later, cut.(computedAt := now), c);
    Redated(c, row.counts, cut, now);
  }

  lemma EndsByCutOff(cut: Cut, i: int)
    requires cut.periodHours > 0 && cut.StartOf(i) + cut.Period() <= cut.CompleteBefore()
    ensures cut.Complete(i)
  {
    StartIsEnd(cut, i);
    StartOfStrictlyIncreasing(cut, cut.LastCompleteIndex() + 1, i + 1);
    CompleteIsExact(cut, i);
  }

  lemma RowWasThere(t: Tables, later: Tables, cut: Cut, now: int, row: Row)
    requires Keyed(t) && Keyed(later) && cut.periodHours > 0 && cut.computedAt <= now
    requires Later(t, later, cut.CompleteBefore()) && row in SliceRows(later, cut.(computedAt := now))
    requires row.periodEnd <= cut.CompleteBefore()
    ensures row.(computedAt := cut.computedAt) in SliceRows(t, cut)
  {
    var c, r := RowWitness(later, cut.(computedAt := now), row);
    EndsByCutOff(cut, c.periodIndex);
    CompleteCellsAreSettled(t, later, cut, now, c);
    var same := RowForCell(t, cut, c);
    Redated(c, row.counts, cut, now);
  }

  /** Moving the clock forward while the tables only grow so reproduces every earlier row,
      its labels and its counts, and adds no row to its periods. */
  lemma EarlierRowsReproduced(t: Tables, later: Tables, cut: Cut, now: int)
    requires Keyed(t) && Keyed(later) && cut.periodHours > 0 && cut.computedAt <= now
    requires Later(t, later, cut.CompleteBefore())
    ensures forall row | row in SliceRows(t, cut) ::
              row.(computedAt := now) in SliceRows(later, cut.(computedAt := now))
    ensures forall row | row in SliceRows(later, cut.(computedAt := now)) && row.periodEnd <= cut.CompleteBefore() ::
              row.(computedAt := cut.computedAt) in SliceRows(t, cut)
  {
    forall row | row in SliceRows(t, cut)
      ensures row.(computedAt := now) in SliceRows(later, cut.(computedAt := now))
    {
      RowStays(t, later, cut, now, row);
    }
    forall row | row in SliceRows(later, cut.(computedAt := now)) && row.periodEnd <= cut.CompleteBefore()
      ensures row.(computedAt := cut.computedAt) in SliceRows(t, cut)
    {
      RowWasThere(t, later, cut, now, row);
    }
  }

  // ----- Runs of builds -----

  lemma {:induction false} SliceOfConcat(a: seq<Row>, b: seq<Row>, hours: int, window: int)
    ensures Slice(a + b, hours, window) == Slice(a, hours, window) + Slice(b, hours, window)
  {
    if a == [] {
      assert a + b == b;
    } else {
      assert (a + b)[1..] == a[1..] + b;
      SliceOfConcat(a[1..], b, hours, window);
    }
  }

  lemma {:induction false} SliceOfOutside(rows: seq<Row>, hours: int, window: int, h: int, w: int)
    ensures Slice(Outside(rows, hours, window), h, w)
         == if h == hours && w == window then [] else Slice(rows, h, w)
  {
    if rows != [] {
      SliceOfOutside(rows[1..], hours, window, h, w);
      assert ([rows[0]] + Outside(rows[1..], hours, window))[1..] == Outside(rows[1..], hours, window);
    }
  }

  lemma {:induction false} SliceOfUniform(rows: seq<Row>, hours: int, window: int, h: int, w: int)
    requires forall row | row in rows :: InSlice(row, hours, window)
    ensures Slice(rows, h, w) == if h == hours && w == window then rows else []
  {
    if rows != [] {
      assert InSlice(rows[0], hours, window);
      SliceOfUniform(rows[1..], hours, window, h, w);
    }
  }

  /** A rebuild replaces its own slice and leaves every other one alone. */
  lemma RebuildReplacesOneSlice(rows: seq<Row>, t: Tables, cut: Cut, h: int, w: int)
    requires cut.periodHours > 0
    ensures Slice(Rebuilt(rows, t, cut), h, w)
         == if h == cut.periodHours && w == cut.windowDays then SliceRows(t, cut) else Slice(rows, h, w)
  {
    var kept, made := Outside(rows, cut.periodHours, cut.windowDays), SliceRows(t, cut);
    SliceOfConcat(kept, made, h, w);
    SliceOfOutside(rows, cut.periodHours, cut.windowDays, h, w);
    SliceOfUniform(made, cut.periodHours, cut.windowDays, h, w);
  }

  lemma LastWindow(windows: seq<int>, n: nat, w: int)
    requires 0 < n <= |windows|
    ensures w in windows[..n] <==> w in windows[..n - 1] || w == windows[n - 1]
  {
    assert windows[..n] == windows[..n - 1] + [windows[n - 1]];
  }

  lemma OneWindowMore(rows: seq<Row>, b: BuildRequest, n: nat, h: int, w: int)
    requires b.hours > 0 && 0 < n <= |b.windows|
    ensures Slice(BuiltUpTo(rows, b, n), h, w)
         == if h == b.hours && w == b.windows[n - 1] then SliceRows(b.tables, b.CutFor(w))
            else Slice(BuiltUpTo(rows, b, n - 1), h, w)
  {
    RebuildReplacesOneSlice(BuiltUpTo(rows, b, n - 1), b.tables, b.CutFor(b.windows[n - 1]), h, w);
  }

  /** What a slice holds after `n` windows: its new rows if they list it, else the old. */
  ghost function SliceAfter(rows: seq<Row>, b: BuildRequest, n: nat, h: int, w: int): seq<Row>
    requires b.hours > 0 && n <= |b.windows|
  {
    if h == b.hours && w in b.windows[..n] then SliceRows(b.tables, b.CutFor(w)) else Slice(rows, h, w)
  }

  lemma OneSliceMore(rows: seq<Row>, b: BuildRequest, n: nat, h: int, w: int)
    requires b.hours > 0 && 0 < n <= |b.windows|
    ensures SliceAfter(rows, b, n, h, w)
         == if h == b.hours && w == b.windows[n - 1] then SliceRows(b.tables, b.CutFor(w))
            else SliceAfter(rows, b, n - 1, h, w)
  {
    LastWindow(b.windows, n, w);
  }

  lemma NothingBuilt(rows: seq<Row>, b: BuildRequest, h: int, w: int)
    requires b.hours > 0
    ensures Slice(BuiltUpTo(rows, b, 0), h, w) == SliceAfter(rows, b, 0, h, w)
  {
    assert b.windows[..0] == [];
  }

  lemma {:induction false} BuildReplacesItsSlices(rows: seq<Row>, b: BuildRequest, n: nat, h: int, w: int)
    requires b.hours > 0 && n <= |b.windows|
    ensures Slice(BuiltUpTo(rows, b, n), h, w) == SliceAfter(rows, b, n, h, w)
  {
    if n == 0 {
      NothingBuilt(rows, b, h, w);
    } else {
      BuildReplacesItsSlices(rows, b, n - 1, h, w);
      OneWindowMore(rows, b, n, h, w);
      OneSliceMore(rows, b, n, h, w);
    }
  }

  ghost function RunBuilds(rows: seq<Row>, builds: seq<BuildRequest>): seq<Row>
    requires forall b | b in builds :: b.hours > 0
  {
    if builds == [] then rows
    else Built(RunBuilds(rows, builds[..|builds| - 1]), builds[|builds| - 1])
  }

  /** The last build of a run that rebuilt a slice. */
  function LastBuildOf(builds: seq<BuildRequest>, h: int, w: int): (b: Option<BuildRequest>)
    ensures b.Some? ==> b.value in builds && b.value.hours == h && w in b.value.windows
  {
    if builds == [] then None
    else
      var b := builds[|builds| - 1];
      if b.hours == h && w in b.windows then Some(b) else LastBuildOf(builds[..|builds| - 1], h, w)
  }

  /** After any run of builds a slice holds exactly what its own last build computes
      from the results, whatever the table held before, whatever other slices were
      built in between, and in whatever order or how often the windows were listed.
      A slice nobody built is untouched. */
  lemma {:induction false} SliceIsItsLastBuild(rows: seq<Row>, builds: seq<BuildRequest>, h: int, w: int)
    requires forall b | b in builds :: b.hours > 0
    ensures Slice(RunBuilds(rows, builds), h, w)
         == match LastBuildOf(builds, h, w)
            case Some(b) => SliceRows(b.tables, Cut(b.anchor, h, w, b.computedAt))
            case None => Slice(rows, h, w)
  {
    if builds != [] {
      var b := builds[|builds| - 1];
      var before := builds[..|builds| - 1];
      SliceIsItsLastBuild(rows, before, h, w);
      BuildReplacesItsSlices(RunBuilds(rows, before), b, |b.windows|, h, w);
      assert b.windows[..|b.windows|] == b.windows;
    }
  }

  // ----- The table's own constraints -----

  function Key(row: Row): (int, int, int, Labels) {
    (row.periodStart, row.periodHours, row.windowDays, row.labels)
  }

  ghost predicate UniqueKeys(rows: seq<Row>) {
    forall i, j {:trigger Key(rows[i]), Key(rows[j])} | 0 <= i < j < |rows| :: Key(rows[i]) != Key(rows[j])
  }

  ghost predicate IsRate(rate: real, count: nat, sent: nat) {
    0.0 <= rate <= 1.0 && rate * (sent as real) == count as real
  }

  /** The table's CHECK constraints, and rates that are what they are called. */
  ghost predicate RowOk(row: Row) {
    && row.periodHours > 0 && row.windowDays > 0 && row.counts.sent > 0 && row.counts.money >= 0.0
    && row.periodEnd == row.periodStart + row.periodHours * HOUR
    && IsRate(row.replyRate, row.counts.replied, row.counts.sent)
    && IsRate(row.optOutRate, row.counts.optedOut, row.counts.sent)
    && IsRate(row.editRate, row.counts.edited, row.counts.sent)
    && IsRate(row.depositRate, row.counts.deposited, row.counts.sent)
  }

  ghost predicate TableOk(rows: seq<Row>) {
    UniqueKeys(rows) && forall row {:trigger RowOk(row)} | row in rows :: RowOk(row)
  }

  lemma RateOfCount(count: nat, sent: nat)
    requires count <= sent && sent > 0
    ensures IsRate(count as real / sent as real, count, sent)
  {
    var rate := count as real / sent as real;
    assert rate * (sent as real) == count as real;
    assert rate > 1.0 ==> rate * (sent as real) > sent as real;
  }

  lemma {:induction false} ResultTallyBounded(results: seq<ActionResult>, sel: ActionResult -> bool)
    requires forall r | r in results :: r.depositKes >= 0.0
    ensures var y := ResultTally(results, sel);
            && y.replied <= y.sent && y.optedOut <= y.sent && y.edited <= y.sent
            && y.deposited <= y.sent && y.money >= 0.0
  {
    if results != [] {
      ResultTallyBounded(results[..|results| - 1], sel);
    }
  }

  lemma SliceRowsOk(t: Tables, cut: Cut)
    requires Keyed(t) && cut.periodHours > 0
    ensures TableOk(SliceRows(t, cut))
  {
    forall row | row in SliceRows(t, cut) ensures RowOk(row) {
      var c, r := RowWitness(t, cut, row);
      ResultTallyBounded(t.results, Picks(t, cut, Is(c)));
      RateOfCount(row.counts.replied, row.counts.sent);
      RateOfCount(row.counts.optedOut, row.counts.sent);
      RateOfCount(row.counts.edited, row.counts.sent);
      RateOfCount(row.counts.deposited, row.counts.sent);
    }
    var es := CutEntries(t, cut);
    CellsExact(es);
    var rows := SliceRows(t, cut);
    forall i, j | 0 <= i < j < |rows| ensures Key(rows[i]) != Key(rows[j]) {
      var c, d := Cells(es)[i], Cells(es)[j];
      assert rows[i] == RowOf(c, CellTally(es, c), cut) && rows[j] == RowOf(d, CellTally(es, d), cut);
      StartOfStrictlyIncreasing(cut, c.periodIndex, d.periodIndex);
      StartOfStrictlyIncreasing(cut, d.periodIndex, c.periodIndex);
    }
  }

  lemma {:induction false} OutsideKeepsOrder(rows: seq<Row>, hours: int, window: int)
    requires TableOk(rows)
    ensures TableOk(Outside(rows, hours, window))
    ensures forall row | row in Outside(rows, hours, window) :: row in rows && !InSlice(row, hours, window)
  {
    if rows != [] {
      var rest := rows[1..];
      assert forall i | 0 <= i < |rest| :: rest[i] == rows[i + 1];
      OutsideKeepsOrder(rest, hours, window);
      forall row | row in Outside(rest, hours, window) ensures Key(row) != Key(rows[0]) {
        var i :| 0 <= i < |rest| && rest[i] == row;
        assert Key(rows[0]) != Key(rows[i + 1]);
      }
    }
  }

  lemma ConcatOk(kept: seq<Row>, made: seq<Row>, hours: int, window: int)
    requires TableOk(kept) && TableOk(made)
    requires forall row | row in kept :: !InSlice(row, hours, window)
    requires forall row | row in made :: InSlice(row, hours, window)
    ensures TableOk(kept + made)
  {
    forall i, j | 0 <= i < |kept| && 0 <= j < |made| ensures Key(kept[i]) != Key(made[j]) {
      assert !InSlice(kept[i], hours, window) && InSlice(made[j], hours, window);
    }
  }

  lemma RebuildKeepsTableOk(rows: seq<Row>, t: Tables, cut: Cut)
    requires TableOk(rows) && cut.periodHours > 0 && TableOk(SliceRows(t, cut))
    ensures TableOk(Rebuilt(rows, t, cut))
  {
    OutsideKeepsOrder(rows, cut.periodHours, cut.windowDays);
    ConcatOk(Outside(rows, cut.periodHours, cut.windowDays), SliceRows(t, cut),
             cut.periodHours, cut.windowDays);
  }

  ghost predicate SlicesOk(b: BuildRequest) {
    b.hours > 0 && forall w: int :: TableOk(SliceRows(b.tables, b.CutFor(w)))
  }

  lemma KeyedSlicesOk(b: BuildRequest)
    requires Keyed(b.tables) && b.hours > 0
    ensures SlicesOk(b)
  {
    forall w: int ensures TableOk(SliceRows(b.tables, b.CutFor(w))) {
      SliceRowsOk(b.tables, b.CutFor(w));
    }
  }

  lemma {:induction false} BuildKeepsTableOk(rows: seq<Row>, b: BuildRequest, n: nat)
    requires TableOk(rows) && SlicesOk(b) && n <= |b.windows|
    ensures TableOk(BuiltUpTo(rows, b, n))
  {
    if n > 0 {
      BuildKeepsTableOk(rows, b, n - 1);
      RebuildKeepsTableOk(BuiltUpTo(rows, b, n - 1), b.tables, b.CutFor(b.windows[n - 1]));
    }
  }

  /** No run of builds ever violates the unique key or a check of the table, or
      divides by zero, or stores a rate outside [0, 1]. */
  lemma {:induction false} RunsKeepTableOk(rows: seq<Row>, builds: seq<BuildRequest>)
    requires TableOk(rows)
    requires forall b | b in builds :: b.hours > 0 && Keyed(b.tables)
    ensures TableOk(RunBuilds(rows, builds))
  {
    if builds != [] {
      var b := builds[|builds| - 1];
      RunsKeepTableOk(rows, builds[..|builds| - 1]);
      KeyedSlicesOk(b);
      BuildKeepsTableOk(RunBuilds(rows, builds[..|builds| - 1]), b, |b.windows|);
    }
  }
}
