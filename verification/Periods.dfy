/** Cutting time into fixed periods counted from one anchor
    (src/app/agents/action_performance.py, class Cut). Instants are whole
    microseconds, so a difference divides with no rounding but the floor. */
module Periods {
  const HOUR := 3_600_000_000
  const DAY := 24 * HOUR

  datatype Cut = Cut(anchor: int, periodHours: int, windowDays: int, computedAt: int) {
    function Period(): int { periodHours * HOUR }

    function Window(): int { windowDays * DAY }

    /** The last period whose results have had their whole window to arrive. */
    function LastCompleteIndex(): int
      requires periodHours > 0
    {
      (computedAt - Window() - anchor) / Period() - 1
    }

    function IndexOf(moment: int): int
      requires periodHours > 0
    {
      (moment - anchor) / Period()
    }

    function StartOf(index: int): int { anchor + index * Period() }

    function CompleteBefore(): int
      requires periodHours > 0
    {
      StartOf(LastCompleteIndex() + 1)
    }

    ghost predicate Complete(index: int) {
      StartOf(index + 1) + Window() <= computedAt
    }
  }

  lemma MulMonotone(a: int, b: int, p: int)
    requires a <= b && 0 <= p
    ensures a * p <= b * p
  {
    assert 0 <= (b - a) * p;
  }

  /** Floor division, said without dividing. */
  lemma DivAtLeast(x: int, p: int, i: int)
    requires p > 0
    ensures i <= x / p <==> i * p <= x
  {
    var q := x / p;
    assert q * p <= x < (q + 1) * p by { assert x == p * q + x % p; }
    if i <= q {
      MulMonotone(i, q, p);
    } else {
      MulMonotone(q + 1, i, p);
    }
  }

  /** A moment falls in the period that its index names, and in no other. */
  lemma IndexOfSpec(cut: Cut, moment: int, i: int)
    requires cut.periodHours > 0
    ensures cut.IndexOf(moment) == i <==> cut.StartOf(i) <= moment < cut.StartOf(i + 1)
  {
    DivAtLeast(moment - cut.anchor, cut.Period(), i);
    DivAtLeast(moment - cut.anchor, cut.Period(), i + 1);
  }

  lemma StartOfStrictlyIncreasing(cut: Cut, i: int, j: int)
    requires cut.periodHours > 0
    ensures i < j <==> cut.StartOf(i) < cut.StartOf(j)
  {
    if i < j {
      MulMonotone(i + 1, j, cut.Period());
    } else {
      MulMonotone(j, i, cut.Period());
    }
  }

  /** A period is complete exactly when its index is no later than the last
      complete one. */
  lemma CompleteIsExact(cut: Cut, i: int)
    requires cut.periodHours > 0
    ensures cut.Complete(i) <==> i <= cut.LastCompleteIndex()
  {
    DivAtLeast(cut.computedAt - cut.Window() - cut.anchor, cut.Period(), i + 1);
  }

  /** The one comparison the query makes (sent before the cut-off) includes a
      message exactly when the end of its own period plus the window has come. */
  lemma CutOffIsExact(cut: Cut, sentAt: int)
    requires cut.periodHours > 0
    ensures sentAt < cut.CompleteBefore() <==> cut.Complete(cut.IndexOf(sentAt))
  {
    var x := sentAt - cut.anchor;
    DivAtLeast(x, cut.Period(), cut.LastCompleteIndex() + 1);
    CompleteIsExact(cut, cut.IndexOf(sentAt));
  }

  function Coarser(fine: Cut, k: int): Cut {
    fine.(periodHours := k * fine.periodHours)
  }

  /** Periods k times as long hold k whole shorter ones, because both are
      counted from the same anchor. */
  lemma CoarserNests(fine: Cut, k: int, moment: int, i: int)
    requires fine.periodHours > 0 && k > 0
    ensures Coarser(fine, k).periodHours > 0
    ensures Coarser(fine, k).IndexOf(moment) == i <==> k * i <= fine.IndexOf(moment) < k * (i + 1)
    ensures Coarser(fine, k).StartOf(i) == fine.StartOf(k * i)
  {
    var p := fine.Period();
    var x := moment - fine.anchor;
    assert k * fine.periodHours >= fine.periodHours by { MulMonotone(1, k, fine.periodHours); }
    assert Coarser(fine, k).Period() == k * p;
    Reassociate(k, i, p);
    Reassociate(k, i + 1, p);
    DivAtLeast(x, k * p, i);
    DivAtLeast(x, k * p, i + 1);
    DivAtLeast(x, p, k * i);
    DivAtLeast(x, p, k * (i + 1));
  }

  lemma Reassociate(k: int, i: int, p: int)
    ensures i * (k * p) == (k * i) * p
  {
  }

  /** A complete long period is made of complete short ones only. */
  lemma CoarserComplete(fine: Cut, k: int, i: int, j: int)
    requires fine.periodHours > 0 && k > 0
    requires Coarser(fine, k).Complete(i) && k * i <= j < k * (i + 1)
    ensures fine.Complete(j)
  {
    CoarserNests(fine, k, 0, i + 1);
    MulMonotone(j + 1, k * (i + 1), fine.Period());
  }
}
