/** The results summary: tallying measured messages per cell, and replacing one
    slice of the summary table (src/app/agents/action_performance.py). Money and
    rates are real numbers here. */
module Performance {
  import opened Common
  import opened Periods
  import opened Results

  datatype Cell = Cell(periodIndex: int, labels: Labels)

  datatype Tally = Tally(
    sent: nat, replied: nat, optedOut: nat, edited: nat, deposited: nat, money: real)
  {
    function Plus(o: Tally): Tally {
      Tally(sent + o.sent, replied + o.replied, optedOut + o.optedOut, edited + o.edited,
            deposited + o.deposited, money + o.money)
    }
  }

  const ZERO := Tally(0, 0, 0, 0, 0, 0.0)

  datatype Row = Row(
    periodStart: int, periodEnd: int, periodHours: int, windowDays: int, labels: Labels,
    counts: Tally, replyRate: real, optOutRate: real, editRate: real, depositRate: real,
    computedAt: int)

  function Bit(b: bool): nat { if b then 1 else 0 }

  /** A message with the cell it is counted in. */
  datatype Entry = Entry(cell: Cell, detail: Detail)

  function CellOf(cut: Cut, d: Detail): Cell
    requires cut.periodHours > 0
  {
    Cell(cut.IndexOf(d.sentAt), d.labels)
  }

  // ----- What the tally means -----

  ghost function Entries(cut: Cut, ds: seq<Detail>): seq<Entry>
    requires cut.periodHours > 0
  {
    seq(|ds|, i requires 0 <= i < |ds| => Entry(CellOf(cut, ds[i]), ds[i]))
  }

  /** One message, counted. */
  function Unit(d: Detail): Tally {
    Tally(1, Bit(d.replied), Bit(d.optedOut), Bit(d.edited), Bit(d.deposited), d.depositKes)
  }

  /** Everything counted over the messages whose cell satisfies `p`. */
  ghost function TallyWhere(es: seq<Entry>, p: Cell -> bool): Tally {
    if es == [] then ZERO
    else
      var e := es[|es| - 1];
      var rest := TallyWhere(es[..|es| - 1], p);
      if p(e.cell) then rest.Plus(Unit(e.detail)) else rest
  }

  ghost function Is(c: Cell): Cell -> bool { x => x == c }

  ghost function CellTally(es: seq<Entry>, c: Cell): Tally { TallyWhere(es, Is(c)) }

  /** The cells some message falls in, in the order first met. */
  ghost function Cells(es: seq<Entry>): seq<Cell> {
    if es == [] then []
    else
      var before := Cells(es[..|es| - 1]);
      var c := es[|es| - 1].cell;
      if c in before then before else before + [c]
  }

  /** A cell exists exactly when some message falls in it, and each once. */
  lemma {:induction false} CellsExact(es: seq<Entry>)
    ensures Distinct(Cells(es))
    ensures forall c :: c in Cells(es) <==> exists e | e in es :: e.cell == c
    ensures forall c :: c in Cells(es) <==> CellTally(es, c).sent > 0
  {
    if es != [] {
      var rest := es[..|es| - 1];
      CellsExact(rest);
      assert es == rest + [es[|es| - 1]];
    }
  }

  /** What one more message does to the cells and to each cell's tally. */
  lemma OneMore(es: seq<Entry>, e: Entry)
    ensures Cells(es + [e]) == if e.cell in Cells(es) then Cells(es) else Cells(es) + [e.cell]
    ensures forall c :: CellTally(es + [e], c)
                     == if c == e.cell then CellTally(es, c).Plus(Unit(e.detail)) else CellTally(es, c)
  {
    assert (es + [e])[..|es|] == es;
  }

  /** No counter passes `sent`, and no money is lost. */
  lemma {:induction false} TallyBounded(es: seq<Entry>, p: Cell -> bool)
    requires forall e | e in es :: e.detail.depositKes >= 0.0
    ensures var y := TallyWhere(es, p);
            && y.replied <= y.sent && y.optedOut <= y.sent && y.edited <= y.sent
            && y.deposited <= y.sent && y.money >= 0.0
  {
    if es != [] {
      TallyBounded(es[..|es| - 1], p);
    }
  }

  /** The dictionary's reading of a cell, with its default. */
  function At(tallies: map<Cell, Tally>, c: Cell): Tally {
    if c in tallies then tallies[c] else ZERO
  }

  /** One pass of the loop: fetch the cell's counters, or start them, and count `d`. */
  method CountOne(order: seq<Cell>, tallies: map<Cell, Tally>, cell: Cell, d: Detail)
    returns (order': seq<Cell>, tallies': map<Cell, Tally>)
    requires forall c :: c in tallies <==> c in order
    ensures order' == if cell in order then order else order + [cell]
    ensures forall c :: c in tallies' <==> c in order'
    ensures forall c :: At(tallies', c) == if c == cell then At(tallies, c).Plus(Unit(d)) else At(tallies, c)
  {
    order', tallies' := order, tallies;
    if cell !in tallies' {
      order' := order' + [cell];
      tallies' := tallies'[cell := ZERO];
    }
    var tally := tallies'[cell];
    tally := tally.(sent := tally.sent + 1);
    tally := tally.(replied := tally.replied + Bit(d.replied));
    tally := tally.(optedOut := tally.optedOut + Bit(d.optedOut));
    tally := tally.(edited := tally.edited + Bit(d.edited));
    tally := tally.(deposited := tally.deposited + Bit(d.deposited));
    tally := tally.(money := tally.money + d.depositKes);
    tallies' := tallies'[cell := tally];
  }

  /** The loop over the query's rows, one counter set per cell. `order` is the order
      in which the dictionary met its keys. */
  method TallyResults(cut: Cut, ds: seq<Detail>) returns (order: seq<Cell>, tallies: map<Cell, Tally>)
    requires cut.periodHours > 0
    ensures order == Cells(Entries(cut, ds))
    ensures forall c :: c in tallies <==> c in order
    ensures forall c :: At(tallies, c) == CellTally(Entries(cut, ds), c)
  {
    ghost var es := Entries(cut, ds);
    order, tallies := [], map[];
    for i := 0 to |ds|
      invariant order == Cells(es[..i])
      invariant forall c :: c in tallies <==> c in order
      invariant forall c :: At(tallies, c) == CellTally(es[..i], c)
    {
      order, tallies := CountOne(order, tallies, CellOf(cut, ds[i]), ds[i]);
      OneMore(es[..i], es[i]);
      assert es[..i + 1] == es[..i] + [es[i]];
    }
    assert es[..|ds|] == es;
  }

  // ----- Rows of the summary -----

  function RowOf(cell: Cell, tally: Tally, cut: Cut): Row
    requires tally.sent > 0
  {
    var start := cut.StartOf(cell.periodIndex);
    var sent := tally.sent as real;
    Row(start, start + cut.Period(), cut.periodHours, cut.windowDays, cell.labels, tally,
        tally.replied as real / sent, tally.optedOut as real / sent,
        tally.edited as real / sent, tally.deposited as real / sent, cut.computedAt)
  }

  ghost function RowsOf(cut: Cut, es: seq<Entry>, cells: seq<Cell>): seq<Row>
    requires forall c | c in cells :: CellTally(es, c).sent > 0
  {
    seq(|cells|, i requires 0 <= i < |cells| => RowOf(cells[i], CellTally(es, cells[i]), cut))
  }

  ghost function CutEntries(t: Tables, cut: Cut): seq<Entry>
    requires cut.periodHours > 0
  {
    Entries(cut, DetailQuery(t, cut.windowDays, cut.CompleteBefore()))
  }

  /** The rows that belong in the slice of `cut`, from the measured results alone. */
  ghost function SliceRows(t: Tables, cut: Cut): seq<Row>
    requires cut.periodHours > 0
  {
    var es := CutEntries(t, cut);
    CellsExact(es);
    RowsOf(cut, es, Cells(es))
  }

  predicate InSlice(row: Row, hours: int, window: int) {
    row.periodHours == hours && row.windowDays == window
  }

  function Slice(rows: seq<Row>, hours: int, window: int): seq<Row> {
    if rows == [] then []
    else
      var rest := Slice(rows[1..], hours, window);
      if InSlice(rows[0], hours, window) then [rows[0]] + rest else rest
  }

  function Outside(rows: seq<Row>, hours: int, window: int): seq<Row> {
    if rows == [] then []
    else
      var rest := Outside(rows[1..], hours, window);
      if InSlice(rows[0], hours, window) then rest else [rows[0]] + rest
  }

  ghost function Rebuilt(rows: seq<Row>, t: Tables, cut: Cut): seq<Row>
    requires cut.periodHours > 0
  {
    Outside(rows, cut.periodHours, cut.windowDays) + SliceRows(t, cut)
  }

  datatype BuildRequest = BuildRequest(
    tables: Tables, anchor: int, hours: int, windows: seq<int>, computedAt: int)
  {
    function CutFor(window: int): Cut { Cut(anchor, hours, window, computedAt) }
  }

  /** The table once the first `n` windows of a build have been rebuilt. */
  ghost function BuiltUpTo(rows: seq<Row>, b: BuildRequest, n: nat): seq<Row>
    requires b.hours > 0 && n <= |b.windows|
  {
    if n == 0 then rows
    else Rebuilt(BuiltUpTo(rows, b, n - 1), b.tables, b.CutFor(b.windows[n - 1]))
  }

  ghost function Built(rows: seq<Row>, b: BuildRequest): seq<Row>
    requires b.hours > 0
  {
    BuiltUpTo(rows, b, |b.windows|)
  }

  /** What the build reports: each window with the number of rows its slice got. */
  ghost function OutcomesUpTo(b: BuildRequest, n: nat): seq<(int, nat)>
    requires b.hours > 0 && n <= |b.windows|
  {
    if n == 0 then []
    else
      var window := b.windows[n - 1];
      OutcomesUpTo(b, n - 1) + [(window, |SliceRows(b.tables, b.CutFor(window))|)]
  }

  method MakeRows(cut: Cut, ds: seq<Detail>) returns (made: seq<Row>)
    requires cut.periodHours > 0
    ensures var es := Entries(cut, ds);
            && (forall c | c in Cells(es) :: CellTally(es, c).sent > 0)
            && made == RowsOf(cut, es, Cells(es))
  {
    ghost var es := Entries(cut, ds);
    CellsExact(es);
    var order, tallies := TallyResults(cut, ds);
    made := [];
    for i := 0 to |order|
      invariant |made| == i
      invariant forall j | 0 <= j < i :: made[j] == RowOf(order[j], CellTally(es, order[j]), cut)
    {
      assert At(tallies, order[i]) == tallies[order[i]];
      made := made + [RowOf(order[i], tallies[order[i]], cut)];
    }
  }

  /** The summary table. */
  class ActionPerformanceTable {
    var rows: seq<Row>

    constructor ()
      ensures rows == []
    {
      rows := [];
    }

    method RebuildWindow(t: Tables, cut: Cut) returns (count: nat)
      requires cut.periodHours > 0
      modifies this
      ensures rows == Rebuilt(old(rows), t, cut)
      ensures count == |SliceRows(t, cut)|
    {
      var made := MakeRows(cut, DetailQuery(t, cut.windowDays, cut.CompleteBefore()));
      rows := Outside(rows, cut.periodHours, cut.windowDays);
      rows := rows + made;
      count := |made|;
    }

    method Build(b: BuildRequest) returns (outcomes: seq<(int, nat)>)
      requires b.hours > 0
      modifies this
      ensures rows == Built(old(rows), b)
      ensures outcomes == OutcomesUpTo(b, |b.windows|)
    {
      outcomes := [];
      for i := 0 to |b.windows|
        invariant rows == BuiltUpTo(old(rows), b, i)
        invariant outcomes == OutcomesUpTo(b, i)
      {
        var count := RebuildWindow(b.tables, b.CutFor(b.windows[i]));
        outcomes := outcomes + [(b.windows[i], count)];
      }
    }
  }
}
