/** Validity windows: which numbered version is in force on a date. The action
    catalogue and the rule store select the same way
    (src/app/agents/action_catalog.py, src/app/rules/store.py). Dates are day
    numbers; a draft has no start. */
module Validity {
  import opened Common

  datatype Window = Window(version: int, validFrom: Option<int>, validTo: Option<int>) {
    /** The WHERE clause: a NULL start compares as unknown, so a draft never qualifies. */
    predicate InForce(at: int) {
      validFrom.Some? && validFrom.value <= at && (validTo.None? || validTo.value > at)
    }
  }

  /** ORDER BY valid_from DESC, version DESC. */
  predicate Outranks(a: Window, b: Window)
    requires a.validFrom.Some? && b.validFrom.Some?
  {
    a.validFrom.value > b.validFrom.value
    || (a.validFrom.value == b.validFrom.value && a.version > b.version)
  }

  function FirstRanked(ws: seq<Window>, at: int): (best: Option<Window>)
    ensures best.Some? ==> best.value.InForce(at)
  {
    if ws == [] then None
    else
      var best := FirstRanked(ws[..|ws| - 1], at);
      var w := ws[|ws| - 1];
      if w.InForce(at) && (best.None? || Outranks(w, best.value)) then Some(w) else best
  }

  function ActiveVersion(ws: seq<Window>, at: int): Option<int> {
    match FirstRanked(ws, at)
    case None => None
    case Some(w) => Some(w.version)
  }

  /** The query answers with a window in force that no other one in force outranks,
      and answers nothing only when nothing is in force. */
  lemma {:induction false} FirstRankedExact(ws: seq<Window>, at: int)
    ensures match FirstRanked(ws, at)
            case None => forall w | w in ws :: !w.InForce(at)
            case Some(best) =>
              best in ws && forall w | w in ws && w.InForce(at) :: !Outranks(w, best)
  {
    if ws != [] {
      var rest := ws[..|ws| - 1];
      FirstRankedExact(rest, at);
      assert ws == rest + [ws[|ws| - 1]];
    }
  }

  /** Version `v` is the answer exactly when one of its windows is in force and no
      window of another version in force outranks it. */
  lemma ActiveVersionIs(ws: seq<Window>, at: int, v: int)
    ensures ActiveVersion(ws, at) == Some(v) <==>
            exists w | w in ws && w.version == v ::
              w.InForce(at) && forall o | o in ws && o.InForce(at) && o.version != v :: Outranks(w, o)
  {
    FirstRankedExact(ws, at);
  }

  /** Two tables in which the same windows are in force, apart from where they end,
      give the same answer. */
  lemma {:induction false} SameInForce(ws: seq<Window>, others: seq<Window>, at: int)
    requires |ws| == |others|
    requires forall i | 0 <= i < |ws| ::
               && ws[i].version == others[i].version && ws[i].validFrom == others[i].validFrom
               && ws[i].InForce(at) == others[i].InForce(at)
    ensures match (FirstRanked(ws, at), FirstRanked(others, at))
            case (None, None) => true
            case (Some(a), Some(b)) => a.version == b.version && a.validFrom == b.validFrom
            case _ => false
    ensures ActiveVersion(ws, at) == ActiveVersion(others, at)
  {
    if ws != [] {
      SameInForce(ws[..|ws| - 1], others[..|others| - 1], at);
    }
  }

  lemma {:induction false} NotInForceAppended(ws: seq<Window>, more: seq<Window>, at: int)
    requires forall w | w in more :: !w.InForce(at)
    ensures FirstRanked(ws + more, at) == FirstRanked(ws, at)
  {
    if more == [] {
      assert ws + more == ws;
    } else {
      var last := |more| - 1;
      assert (ws + more)[..|ws + more| - 1] == ws + more[..last];
      NotInForceAppended(ws, more[..last], at);
    }
  }
}
