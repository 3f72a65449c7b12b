/** What holds of the results summary over every set of tables and every run of
    builds. One lemma carries most of it: adding up the rows picked out by any
    property of a row equals tallying the messages picked out by that property
    (GroupTotal). */
module PerformanceLaws {
  import opened Common
  import opened Periods
  import opened Results
  import opened Performance

  ghost function SumRows(rows: seq<Row>, q: Row -> bool): Tally {
    if rows == [] then ZERO
    else
      var rest := SumRows(rows[..|rows| - 1], q);
      var row := rows[|rows| - 1];
      if q(row) then rest.Plus(row.counts) else rest
  }

  /** The sum, over the cells that satisfy `p`, of a tally given for each. */
  ghost function SumCells(cells: seq<Cell>, p: Cell -> bool, tally: Cell -> Tally): Tally {
    if cells == [] then ZERO
    else
      var rest := SumCells(cells[..|cells| - 1], p, tally);
      var c := cells[|cells| - 1];
      if p(c) then rest.Plus(tally(c)) else rest
  }

  lemma PlusLaws(a: Tally, b: Tally, c: Tally)
    ensures a.Plus(ZERO) == a
    ensures a.Plus(b.Plus(c)) == a.Plus(b).Plus(c)
    ensures a.Plus(b).Plus(c) == a.Plus(c).Plus(b)
  {
  }

  /** Adding `unit` to one cell's tally adds it once to the sum. */
  lemma {:induction false} SumCellsStep(
    cells: seq<Cell>, p: Cell -> bool, was: Cell -> Tally, now: Cell -> Tally, cell: Cell, unit: Tally)
    requires Distinct(cells)
    requires forall c :: now(c) == if c == cell then was(c).Plus(unit) else was(c)
    ensures SumCells(cells, p, now)
         == if cell in cells && p(cell) then SumCells(cells, p, was).Plus(unit)
            else SumCells(cells, p, was)
  {
    if cells != [] {
      var rest, last := cells[..|cells| - 1], cells[|cells| - 1];
      SumCellsStep(rest, p, was, now, cell, unit);
      PlusLaws(SumCells(rest, p, was), was(last), unit);
      assert cell in cells <==> cell in rest || cell == last;
      assert last !in rest;
    }
  }

  ghost function TallyOf(es: seq<Entry>): Cell -> Tally { c => CellTally(es, c) }

  lemma {:induction false} CellsAddUp(es: seq<Entry>, p: Cell -> bool)
    ensures SumCells(Cells(es), p, TallyOf(es)) == TallyWhere(es, p)
  {
    if es != [] {
      var rest, e := es[..|es| - 1], es[|es| - 1];
      CellsAddUp(rest, p);
      CellsExact(rest);
      SumCellsStep(Cells(rest), p, TallyOf(rest), TallyOf(es), e.cell, Unit(e.detail));
      if e.cell !in Cells(rest) {
        EmptyCell(rest, e.cell);
        assert Cells(es)[..|Cells(es)| - 1] == Cells(rest);
      }
    }
  }

  lemma {:induction false} EmptyCell(es: seq<Entry>, c: Cell)
    requires c !in Cells(es)
    ensures CellTally(es, c) == ZERO
  {
    if es != [] {
      EmptyCell(es[..|es| - 1], c);
    }
  }

  lemma {:induction false} SumRowsIsSumCells(
    cut: Cut, es: seq<Entry>, cells: seq<Cell>, q: Row -> bool, p: Cell -> bool)
    requires forall c | c in cells :: CellTally(es, c).sent > 0
    requires forall c | c in cells :: q(RowOf(c, CellTally(es, c), cut)) == p(c)
    ensures SumRows(RowsOf(cut, es, cells), q) == SumCells(cells, p, TallyOf(es))
  {
    if cells != [] {
      var rest := cells[..|cells| - 1];
      SumRowsIsSumCells(cut, es, rest, q, p);
      assert RowsOf(cut, es, cells)[..|cells| - 1] == RowsOf(cut, es, rest);
    }
  }

  lemma GroupTotal(t: Tables, cut: Cut, q: Row -> bool, p: Cell -> bool)
    requires cut.periodHours > 0
    requires forall c: Cell, y: Tally | y.sent > 0 :: q(RowOf(c, y, cut)) == p(c)
    ensures SumRows(SliceRows(t, cut), q) == TallyWhere(CutEntries(t, cut), p)
  {
    var es := CutEntries(t, cut);
    CellsExact(es);
    SumRowsIsSumCells(cut, es, Cells(es), q, p);
    CellsAddUp(es, p);
  }

  // ----- From rows back to the measured results -----

  function UnitOf(r: ActionResult): Tally {
    Tally(1, Bit(r.replied), Bit(r.optedOut), Bit(r.reviewerChanged), Bit(r.deposited), r.depositKes)
  }

  /** The results that satisfy `sel`, counted straight from the results table. */
  ghost function ResultTally(results: seq<ActionResult>, sel: ActionResult -> bool): Tally {
    if results == [] then ZERO
    else
      var rest := ResultTally(results[..|results| - 1], sel);
      var r := results[|results| - 1];
      if sel(r) then rest.Plus(UnitOf(r)) else rest
  }

  /** A result counted by a slice in a cell that satisfies `p`: measured over the
      slice's window, in a complete period. */
  ghost predicate Picked(t: Tables, cut: Cut, p: Cell -> bool, r: ActionResult)
    requires cut.periodHours > 0
  {
    && Linked(t, r) && r.windowDays == cut.windowDays && cut.Complete(cut.IndexOf(r.sentAt))
    && p(CellOf(cut, Describe(t, r)))
  }

  ghost function Picks(t: Tables, cut: Cut, p: Cell -> bool): ActionResult -> bool
    requires cut.periodHours > 0
  {
    (r: ActionResult) => Picked(t, cut, p, r)
  }

  lemma {:induction false} SameSelection(
    results: seq<ActionResult>, sel: ActionResult -> bool, other: ActionResult -> bool)
    requires forall r | r in results :: sel(r) == other(r)
    ensures ResultTally(results, sel) == ResultTally(results, other)
  {
    if results != [] {
      SameSelection(results[..|results| - 1], sel, other);
    }
  }

  lemma {:induction false} SelectionOfConcat(
    results: seq<ActionResult>, more: seq<ActionResult>, sel: ActionResult -> bool)
    requires forall r | r in more :: !sel(r)
    ensures ResultTally(results + more, sel) == ResultTally(results, sel)
  {
    if more == [] {
      assert results + more == results;
    } else {
      var last := |more| - 1;
      assert (results + more)[..|results + more| - 1] == results + more[..last];
      SelectionOfConcat(results, more[..last], sel);
    }
  }

  lemma PicksExact(t: Tables, cut: Cut, r: ActionResult, p: Cell -> bool)
    requires cut.periodHours > 0 && Linked(t, r)
    ensures Picked(t, cut, p, r) <==>
            r.windowDays == cut.windowDays && r.sentAt < cut.CompleteBefore() && p(CellOf(cut, Describe(t, r)))
  {
    CutOffIsExact(cut, r.sentAt);
  }

  ghost function EntriesFor(
    results: seq<ActionResult>, counted: ActionResult -> bool, entry: ActionResult -> Entry): seq<Entry>
  {
    if results == [] then []
    else
      var r := results[|results| - 1];
      EntriesFor(results[..|results| - 1], counted, entry) + if counted(r) then [entry(r)] else []
  }

  lemma {:induction false} TallyOfEntriesFor(
    results: seq<ActionResult>, counted: ActionResult -> bool, entry: ActionResult -> Entry,
    p: Cell -> bool, sel: ActionResult -> bool)
    requires forall r | r in results :: sel(r) == (counted(r) && p(entry(r).cell))
    requires forall r | r in results :: Unit(entry(r).detail) == UnitOf(r)
    ensures TallyWhere(EntriesFor(results, counted, entry), p) == ResultTally(results, sel)
  {
    if results != [] {
      var rest, r := results[..|results| - 1], results[|results| - 1];
      TallyOfEntriesFor(rest, counted, entry, p, sel);
      if counted(r) {
        var es := EntriesFor(rest, counted, entry) + [entry(r)];
        assert es[..|es| - 1] == EntriesFor(rest, counted, entry);
      } else {
        assert EntriesFor(results, counted, entry) == EntriesFor(rest, counted, entry);
      }
    }
  }

  ghost function Counted(cut: Cut): ActionResult -> bool
    requires cut.periodHours > 0
  {
    (r: ActionResult) => r.windowDays == cut.windowDays && r.sentAt < cut.CompleteBefore()
  }

  ghost function EntryOf(t: Tables, cut: Cut): ActionResult -> Entry
    requires cut.periodHours > 0
  {
    (r: ActionResult) =>
      var d := if Linked(t, r) then Describe(t, r) else Plain(r);
      Entry(CellOf(cut, d), d)
  }

  ghost function Plain(r: ActionResult): Detail {
    Detail(r.sentAt, Labels("", "", "", "", "", ""), r.replied, r.optedOut, r.reviewerChanged,
           r.deposited, r.depositKes)
  }

  lemma {:induction false} EntriesAreEntriesFor(t: Tables, cut: Cut, results: seq<ActionResult>)
    requires cut.periodHours > 0
    requires forall r | r in results :: Linked(t, r)
    ensures Entries(cut, Details(t, results, cut.windowDays, cut.CompleteBefore()))
         == EntriesFor(results, Counted(cut), EntryOf(t, cut))
  {
    if results != [] {
      EntriesAreEntriesFor(t, cut, results[..|results| - 1]);
    }
  }

  lemma TallyByResult(t: Tables, cut: Cut, p: Cell -> bool)
    requires Keyed(t) && cut.periodHours > 0
    ensures TallyWhere(CutEntries(t, cut), p) == ResultTally(t.results, Picks(t, cut, p))
  {
    OneRowPerResult(t, cut.windowDays, cut.CompleteBefore());
    EntriesAreEntriesFor(t, cut, t.results);
    forall r | r in t.results
      ensures Picked(t, cut, p, r) == (Counted(cut)(r) && p(EntryOf(t, cut)(r).cell))
    {
      PicksExact(t, cut, r, p);
    }
    TallyOfEntriesFor(t.results, Counted(cut), EntryOf(t, cut), p, Picks(t, cut, p));
  }

  /** The rows a property picks out of a slice add up to the results it picks out
      of the results table. */
  lemma SliceTotal(t: Tables, cut: Cut, q: Row -> bool, p: Cell -> bool)
    requires Keyed(t) && cut.periodHours > 0
    requires forall c: Cell, y: Tally | y.sent > 0 :: q(RowOf(c, y, cut)) == p(c)
    ensures SumRows(SliceRows(t, cut), q) == ResultTally(t.results, Picks(t, cut, p))
  {
    GroupTotal(t, cut, q, p);
    TallyByResult(t, cut, p);
  }

  ghost function CellResults(t: Tables, cut: Cut, c: Cell): Tally
    requires cut.periodHours > 0
  {
    ResultTally(t.results, Picks(t, cut, Is(c)))
  }

  /** A slice has a row for a cell exactly when some result falls in it, and the
      row holds what the results say. */
  lemma RowsExact(t: Tables, cut: Cut)
    requires Keyed(t) && cut.periodHours > 0
    ensures forall c :: c in Cells(CutEntries(t, cut)) <==> CellResults(t, cut, c).sent > 0
    ensures forall row | row in SliceRows(t, cut) ::
              exists c | CellResults(t, cut, c).sent > 0 :: row == RowOf(c, CellResults(t, cut, c), cut)
    ensures forall c | CellResults(t, cut, c).sent > 0 ::
              RowOf(c, CellResults(t, cut, c), cut) in SliceRows(t, cut)
  {
    var es := CutEntries(t, cut);
    CellsExact(es);
    forall c ensures CellTally(es, c) == CellResults(t, cut, c) {
      TallyByResult(t, cut, Is(c));
    }
    forall c | CellResults(t, cut, c).sent > 0
      ensures RowOf(c, CellResults(t, cut, c), cut) in SliceRows(t, cut)
    {
      var i :| 0 <= i < |Cells(es)| && Cells(es)[i] == c;
      assert SliceRows(t, cut)[i] == RowOf(c, CellTally(es, c), cut);
    }
  }

  lemma {:induction false} SomethingPicked(results: seq<ActionResult>, sel: ActionResult -> bool)
    ensures ResultTally(results, sel).sent > 0 <==> exists r | r in results :: sel(r)
  {
    if results != [] {
      SomethingPicked(results[..|results| - 1], sel);
      assert results == results[..|results| - 1] + [results[|results| - 1]];
    }
  }

  ghost function AnyRow(): Row -> bool { _ => true }

  ghost function AnyCell(): Cell -> bool { _ => true }

  /** Conservation: the sent counts of a rebuilt slice add up to the number of
      results of that window sent before the cut-off, none dropped, none doubled. */
  lemma SentIsConserved(t: Tables, cut: Cut)
    requires Keyed(t) && cut.periodHours > 0
    ensures SumRows(SliceRows(t, cut), AnyRow()).sent
         == |Eligible(t.results, cut.windowDays, cut.CompleteBefore())|
  {
    GroupTotal(t, cut, AnyRow(), AnyCell());
    OneRowPerResult(t, cut.windowDays, cut.CompleteBefore());
    EverythingTallied(CutEntries(t, cut));
  }

  lemma {:induction false} EverythingTallied(es: seq<Entry>)
    ensures TallyWhere(es, AnyCell()).sent == |es|
  {
    if es != [] {
      EverythingTallied(es[..|es| - 1]);
    }
  }

  // ----- Coarsening -----

  /** The rows of a finer slice with the labels of `row` that lie within its period. */
  ghost function Inside(row: Row): Row -> bool {
    (x: Row) => x.labels == row.labels && row.periodStart <= x.periodStart && x.periodEnd <= row.periodEnd
  }

  ghost function InsideCell(c: Cell, k: int): Cell -> bool {
    (x: Cell) => x.labels == c.labels && k * c.periodIndex <= x.periodIndex < k * (c.periodIndex + 1)
  }

  lemma InsideIsInsideCell(fine: Cut, k: int, c: Cell, total: Tally, x: Cell, y: Tally)
    requires fine.periodHours > 0 && k > 0 && total.sent > 0 && y.sent > 0
    ensures Inside(RowOf(c, total, Coarser(fine, k)))(RowOf(x, y, fine)) == InsideCell(c, k)(x)
  {
    CoarserNests(fine, k, 0, c.periodIndex);
    CoarserNests(fine, k, 0, c.periodIndex + 1);
    StartOfStrictlyIncreasing(fine, x.periodIndex, k * c.periodIndex);
    StartOfStrictlyIncreasing(fine, k * (c.periodIndex + 1), x.periodIndex + 1);
    StartIsEnd(fine, x.periodIndex);
    StartIsEnd(Coarser(fine, k), c.periodIndex);
  }

  lemma StartIsEnd(cut: Cut, i: int)
    ensures cut.StartOf(i) + cut.Period() == cut.StartOf(i + 1)
  {
  }

  lemma PickedInside(t: Tables, fine: Cut, k: int, c: Cell, r: ActionResult)
    requires fine.periodHours > 0 && k > 0 && Coarser(fine, k).periodHours > 0 && Linked(t, r)
    requires Coarser(fine, k).Complete(c.periodIndex)
    ensures Picked(t, fine, InsideCell(c, k), r) == Picked(t, Coarser(fine, k), Is(c), r)
  {
    var coarse, i, j := Coarser(fine, k), c.periodIndex, fine.IndexOf(r.sentAt);
    var d := Describe(t, r);
    CoarserNests(fine, k, r.sentAt, i);
    if k * i <= j < k * (i + 1) {
      CoarserComplete(fine, k, i, j);
    }
    assert InsideCell(c, k)(CellOf(fine, d)) == Is(c)(CellOf(coarse, d)) by {
      assert d.sentAt == r.sentAt;
    }
  }

  lemma InsideCellTally(t: Tables, fine: Cut, k: int, c: Cell)
    requires Keyed(t) && fine.periodHours > 0 && k > 0 && Coarser(fine, k).periodHours > 0
    requires CellResults(t, Coarser(fine, k), c).sent > 0
    ensures Coarser(fine, k).Complete(c.periodIndex)
    ensures ResultTally(t.results, Picks(t, fine, InsideCell(c, k))) == CellResults(t, Coarser(fine, k), c)
  {
    var coarse := Coarser(fine, k);
    SomethingPicked(t.results, Picks(t, coarse, Is(c)));
    var some :| some in t.results && Picked(t, coarse, Is(c), some);
    assert CellOf(coarse, Describe(t, some)) == c;
    forall r | r in t.results
      ensures Picked(t, fine, InsideCell(c, k), r) == Picked(t, coarse, Is(c), r)
    {
      PickedInside(t, fine, k, c, r);
    }
    SameSelection(t.results, Picks(t, fine, InsideCell(c, k)), Picks(t, coarse, Is(c)));
  }

  /** Periods k times as long: every row carries exactly the counts and the money
      of the shorter rows inside its period, and its k sub-periods are complete. */
  lemma CoarseRowIsSumOfFineRows(t: Tables, fine: Cut, k: int, row: Row) returns (i: int)
    requires Keyed(t) && fine.periodHours > 0 && k > 0
    requires Coarser(fine, k).periodHours > 0 && row in SliceRows(t, Coarser(fine, k))
    ensures SumRows(SliceRows(t, fine), Inside(row)) == row.counts
    ensures row.periodStart == fine.StartOf(k * i) && row.periodEnd == fine.StartOf(k * (i + 1))
    ensures forall j | k * i <= j < k * (i + 1) :: fine.Complete(j)
  {
    var coarse := Coarser(fine, k);
    RowsExact(t, coarse);
    var c :| CellResults(t, coarse, c).sent > 0 && row == RowOf(c, CellResults(t, coarse, c), coarse);
    i := c.periodIndex;
    InsideCellTally(t, fine, k, c);
    forall j | k * i <= j < k * (i + 1) ensures fine.Complete(j) {
      CoarserComplete(fine, k, i, j);
    }
    CoarserNests(fine, k, 0, i);
    CoarserNests(fine, k, 0, i + 1);
    StartIsEnd(coarse, i);
    forall x: Cell, y: Tally | y.sent > 0
      ensures Inside(row)(RowOf(x, y, fine)) == InsideCell(c, k)(x)
    {
      InsideIsInsideCell(fine, k, c, row.counts, x, y);
    }
    SliceTotal(t, fine, Inside(row), InsideCell(c, k));
  }

  lemma PickedAlso(t: Tables, cut: Cut, p: Cell -> bool, q: Cell -> bool, r: ActionResult)
    requires cut.periodHours > 0 && Picked(t, cut, p, r)
    requires q(CellOf(cut, Describe(t, r)))
    ensures Picked(t, cut, q, r)
  {
  }

  /** The cell behind a row, and a result counted in it. */
  lemma RowWitness(t: Tables, cut: Cut, row: Row) returns (c: Cell, r: ActionResult)
    requires Keyed(t) && cut.periodHours > 0 && row in SliceRows(t, cut)
    ensures row.counts.sent > 0 && row == RowOf(c, row.counts, cut)
    ensures row.counts == CellResults(t, cut, c)
    ensures r in t.results && Linked(t, r) && Picked(t, cut, Is(c), r)
    ensures CellOf(cut, Describe(t, r)) == c
  {
    RowsExact(t, cut);
    c :| CellResults(t, cut, c).sent > 0 && row == RowOf(c, CellResults(t, cut, c), cut);
    SomethingPicked(t.results, Picks(t, cut, Is(c)));
    r :| r in t.results && Picked(t, cut, Is(c), r);
  }

  lemma RowForCell(t: Tables, cut: Cut, c: Cell) returns (row: Row)
    requires Keyed(t) && cut.periodHours > 0 && CellResults(t, cut, c).sent > 0
    ensures row in SliceRows(t, cut)
    ensures row.counts.sent > 0 && row.counts == CellResults(t, cut, c) && row == RowOf(c, row.counts, cut)
  {
    RowsExact(t, cut);
    row := RowOf(c, CellResults(t, cut, c), cut);
  }

  lemma NestedCell(fine: Cut, k: int, x: Cell, c: Cell)
    requires fine.periodHours > 0 && k > 0 && Coarser(fine, k).periodHours > 0
    requires c == Cell(Coarser(fine, k).IndexOf(fine.StartOf(x.periodIndex)), x.labels)
    ensures InsideCell(c, k)(x)
  {
    var start := fine.StartOf(x.periodIndex);
    CoarserNests(fine, k, start, c.periodIndex);
    IndexOfSpec(fine, start, x.periodIndex);
    StartOfStrictlyIncreasing(fine, x.periodIndex, x.periodIndex + 1);
  }

  /** And no short row is lost: one whose long period is complete lies inside a
      long row of the same labels. */
  lemma FineRowHasCoarseRow(t: Tables, fine: Cut, k: int, row: Row) returns (big: Row)
    requires Keyed(t) && fine.periodHours > 0 && k > 0 && Coarser(fine, k).periodHours > 0
    requires row in SliceRows(t, fine)
    requires Coarser(fine, k).Complete(Coarser(fine, k).IndexOf(row.periodStart))
    ensures big in SliceRows(t, Coarser(fine, k)) && Inside(big)(row)
  {
    var coarse := Coarser(fine, k);
    var x, r := RowWitness(t, fine, row);
    var c := Cell(coarse.IndexOf(row.periodStart), x.labels);
    NestedCell(fine, k, x, c);
    PickedAlso(t, fine, Is(x), InsideCell(c, k), r);
    PickedInside(t, fine, k, c, r);
    SomethingPicked(t.results, Picks(t, coarse, Is(c)));
    big := RowForCell(t, coarse, c);
    InsideIsInsideCell(fine, k, c, big.counts, x, row.counts);
  }
}
