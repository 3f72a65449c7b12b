/** What a row of the summary says about the measured results, in the results' own terms:
    times in microseconds, labels and flags as stored
    (src/app/agents/action_performance.py). */
module PerformanceRows {
  import opened Common
  import opened Periods
  import opened Results
  import opened Performance
  import opened PerformanceLaws
  import opened PerformanceRuns

  /** A period's length, from the hours given. */
  function Length(cut: Cut): int { cut.periodHours * 3_600_000_000 }

  /** How long after its period a message's window has surely passed. */
  function Wait(cut: Cut): int { cut.windowDays * 86_400_000_000 }

  lemma Lengths(cut: Cut)
    ensures cut.Period() == Length(cut) && cut.Window() == Wait(cut)
  {
  }

  lemma NextStart(anchor: int, i: int, length: int)
    ensures anchor + (i + 1) * length == anchor + i * length + length
  {
  }

  /** A message of the i-th period is counted exactly when the end of that period, plus the
      window's days, is no later than the clock. */
  lemma CutOffInMicroseconds(cut: Cut, sentAt: int, i: int)
    requires cut.periodHours > 0
    requires cut.anchor + i * Length(cut) <= sentAt < cut.anchor + i * Length(cut) + Length(cut)
    ensures sentAt < cut.CompleteBefore() <==>
              cut.anchor + i * Length(cut) + Length(cut) + Wait(cut) <= cut.computedAt
  {
    Lengths(cut);
    NextStart(cut.anchor, i, Length(cut));
    IndexOfSpec(cut, sentAt, i);
    CutOffIsExact(cut, sentAt);
  }

  /** The result is one the row counts. */
  ghost predicate InRow(t: Tables, row: Row, r: ActionResult) {
    && Linked(t, r) && r.windowDays == row.windowDays && row.periodStart <= r.sentAt < row.periodEnd
    && Describe(t, r).labels == row.labels
  }

  ghost function Counts(t: Tables, row: Row): ActionResult -> bool { (r: ActionResult) => InRow(t, row, r) }

  ghost function Both(a: ActionResult -> bool, b: ActionResult -> bool): ActionResult -> bool {
    (r: ActionResult) => a(r) && b(r)
  }

  ghost function HowMany(results: seq<ActionResult>, sel: ActionResult -> bool): nat {
    if results == [] then 0
    else HowMany(results[..|results| - 1], sel) + if sel(results[|results| - 1]) then 1 else 0
  }

  ghost function SumKes(results: seq<ActionResult>, sel: ActionResult -> bool): real {
    if results == [] then 0.0
    else
      var r := results[|results| - 1];
      SumKes(results[..|results| - 1], sel) + if sel(r) then r.depositKes else 0.0
  }

  const REPLIED: ActionResult -> bool := (r: ActionResult) => r.replied
  const OPTED_OUT: ActionResult -> bool := (r: ActionResult) => r.optedOut
  const EDITED: ActionResult -> bool := (r: ActionResult) => r.reviewerChanged
  const DEPOSITED: ActionResult -> bool := (r: ActionResult) => r.deposited

  /** A tally is a count of results for each flag, and the sum of their deposits. */
  lemma {:induction false} TallyCounts(results: seq<ActionResult>, sel: ActionResult -> bool)
    ensures var y := ResultTally(results, sel);
            && y.sent == HowMany(results, sel) && y.money == SumKes(results, sel)
            && y.replied == HowMany(results, Both(sel, REPLIED))
            && y.optedOut == HowMany(results, Both(sel, OPTED_OUT))
            && y.edited == HowMany(results, Both(sel, EDITED))
            && y.deposited == HowMany(results, Both(sel, DEPOSITED))
  {
    if results != [] {
      TallyCounts(results[..|results| - 1], sel);
    }
  }

  lemma CellIsRow(t: Tables, cut: Cut, row: Row, c: Cell, r: ActionResult)
    requires cut.periodHours > 0 && row.counts.sent > 0 && row == RowOf(c, row.counts, cut)
    requires cut.Complete(c.periodIndex) && Linked(t, r)
    ensures Picked(t, cut, Is(c), r) <==> InRow(t, row, r)
  {
    IndexOfSpec(cut, r.sentAt, c.periodIndex);
    StartIsEnd(cut, c.periodIndex);
    DescribedAsSent(t, r);
  }

  lemma DescribedAsSent(t: Tables, r: ActionResult)
    requires Linked(t, r)
    ensures Describe(t, r).sentAt == r.sentAt
  {
  }

  lemma RowCell(t: Tables, cut: Cut, row: Row) returns (c: Cell)
    requires Keyed(t) && cut.periodHours > 0 && row in SliceRows(t, cut)
    ensures row.counts.sent > 0 && row == RowOf(c, row.counts, cut) && cut.Complete(c.periodIndex)
    ensures row.counts == ResultTally(t.results, Counts(t, row))
  {
    var r: ActionResult;
    c, r := RowWitness(t, cut, row);
    DescribedAsSent(t, r);
    forall o | o in t.results ensures Picks(t, cut, Is(c))(o) == Counts(t, row)(o) {
      CellIsRow(t, cut, row, c, o);
    }
    SameSelection(t.results, Picks(t, cut, Is(c)), Counts(t, row));
  }

  /** The row's own columns: a period counted from the anchor, whose window has passed. */
  lemma RowPeriod(t: Tables, cut: Cut, row: Row) returns (i: int)
    requires Keyed(t) && cut.periodHours > 0 && row in SliceRows(t, cut)
    ensures row.periodStart == cut.anchor + i * Length(cut) && row.periodEnd == row.periodStart + Length(cut)
    ensures row.periodEnd + Wait(cut) <= cut.computedAt
    ensures row.periodHours == cut.periodHours && row.windowDays == cut.windowDays && row.computedAt == cut.computedAt
  {
    var c := RowCell(t, cut, row);
    i := c.periodIndex;
    Lengths(cut);
    NextStart(cut.anchor, i, Length(cut));
  }

  /** The row's counters count, flag by flag, the results of its window sent within its
      period that carry its labels. */
  lemma RowSaysItsResults(t: Tables, cut: Cut, row: Row)
    requires Keyed(t) && cut.periodHours > 0 && row in SliceRows(t, cut)
    ensures var sel := Counts(t, row);
            && row.counts.sent == HowMany(t.results, sel) > 0
            && row.counts.replied == HowMany(t.results, Both(sel, REPLIED))
            && row.counts.optedOut == HowMany(t.results, Both(sel, OPTED_OUT))
            && row.counts.edited == HowMany(t.results, Both(sel, EDITED))
            && row.counts.deposited == HowMany(t.results, Both(sel, DEPOSITED))
            && row.counts.money == SumKes(t.results, sel)
  {
    var c := RowCell(t, cut, row);
    TallyCounts(t.results, Counts(t, row));
  }

  lemma RateOf(part: nat, whole: nat)
    requires whole > 0
    ensures (part as real / whole as real) * whole as real == part as real
  {
  }

  ghost predicate RatesOk(row: Row) {
    var sent := row.counts.sent as real;
    && row.replyRate * sent == row.counts.replied as real
    && row.optOutRate * sent == row.counts.optedOut as real
    && row.editRate * sent == row.counts.edited as real
    && row.depositRate * sent == row.counts.deposited as real
  }

  lemma RowOfRates(c: Cell, y: Tally, cut: Cut)
    requires y.sent > 0
    ensures RatesOk(RowOf(c, y, cut))
  {
    RateOf(y.replied, y.sent);
    RateOf(y.optedOut, y.sent);
    RateOf(y.edited, y.sent);
    RateOf(y.deposited, y.sent);
  }

  /** Each rate, times the number sent, is the counter it is named for. */
  lemma RowRates(t: Tables, cut: Cut, row: Row)
    requires Keyed(t) && cut.periodHours > 0 && row in SliceRows(t, cut)
    ensures RatesOk(row)
  {
    var c := RowCell(t, cut, row);
    RowOfRates(c, row.counts, cut);
  }

  /** And every measured result whose period's window has passed is in exactly one row. */
  lemma EveryResultInOneRow(t: Tables, cut: Cut, r: ActionResult, i: int) returns (row: Row)
    requires Keyed(t) && cut.periodHours > 0 && r in t.results && r.windowDays == cut.windowDays
    requires cut.anchor + i * Length(cut) <= r.sentAt < cut.anchor + i * Length(cut) + Length(cut)
    requires cut.anchor + i * Length(cut) + Length(cut) + Wait(cut) <= cut.computedAt
    ensures row in SliceRows(t, cut) && InRow(t, row, r)
    ensures forall other | other in SliceRows(t, cut) && InRow(t, other, r) :: other == row
  {
    assert Linked(t, r);
    CutOffInMicroseconds(cut, r.sentAt, i);
    CutOffIsExact(cut, r.sentAt);
    DescribedAsSent(t, r);
    var c := CellOf(cut, Describe(t, r));
    assert Picks(t, cut, Is(c))(r);
    SomethingPicked(t.results, Picks(t, cut, Is(c)));
    row := RowForCell(t, cut, c);
    CellIsRow(t, cut, row, c, r);
    forall other | other in SliceRows(t, cut) && InRow(t, other, r) ensures other == row {
      SameRow(t, cut, row, other, r);
    }
  }

  lemma SameRow(t: Tables, cut: Cut, row: Row, other: Row, r: ActionResult)
    requires Keyed(t) && cut.periodHours > 0 && row in SliceRows(t, cut) && other in SliceRows(t, cut)
    requires InRow(t, row, r) && InRow(t, other, r)
    ensures other == row
  {
    var c := RowCell(t, cut, row);
    var d := RowCell(t, cut, other);
    CellIsRow(t, cut, row, c, r);
    CellIsRow(t, cut, other, d, r);
    assert c == CellOf(cut, Describe(t, r)) == d;
    assert forall o :: Counts(t, row)(o) == Counts(t, other)(o);
    SameSelection(t.results, Counts(t, row), Counts(t, other));
  }

  ghost function RowCount(b: BuildRequest, window: int): nat
    requires b.hours > 0
  {
    |SliceRows(b.tables, Cut(b.anchor, b.hours, window, b.computedAt))|
  }

  lemma LastOutcome(b: BuildRequest, n: nat)
    requires b.hours > 0 && 0 < n <= |b.windows|
    ensures OutcomesUpTo(b, n)
         == OutcomesUpTo(b, n - 1) + [(b.windows[n - 1], RowCount(b, b.windows[n - 1]))]
  {
  }

  /** A build reports each window it was given, in order, with its slice's number of rows. */
  lemma {:induction false} ReportsEachWindow(b: BuildRequest, n: nat, k: nat)
    requires b.hours > 0 && k < n <= |b.windows|
    ensures |OutcomesUpTo(b, n)| == n && OutcomesUpTo(b, n)[k] == (b.windows[k], RowCount(b, b.windows[k]))
  {
    LastOutcome(b, n);
    if n > 1 {
      ReportsEachWindow(b, n - 1, if k < n - 1 then k else 0);
    } else {
      assert OutcomesUpTo(b, 0) == [];
    }
  }
}
