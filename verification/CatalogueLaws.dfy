/** What the catalogue keeps over every run of saves and mix changes, when a new
    version takes over, and when the migration's undo is an inverse. */
module CatalogueLaws {
  import opened Common
  import opened Text
  import opened Validity
  import opened Catalogue

  // ----- Append only -----

  /** A later state of the same row: nothing has moved but an open end, once. */
  ghost predicate SameBut(was: ActionRow, now: ActionRow) {
    && now.spec == was.spec && now.status == was.status
    && now.window.version == was.window.version && now.window.validFrom == was.window.validFrom
    && (now.window.validTo == was.window.validTo || (was.window.validTo.None? && now.window.validTo.Some?))
  }

  ghost predicate Grown(before: seq<ActionRow>, after: seq<ActionRow>) {
    |before| <= |after| && forall i | 0 <= i < |before| :: SameBut(before[i], after[i])
  }

  datatype Edit =
    | Saving(save: Save)
    | Mixing(code: string, mix: string, start: int)
  {
    function Start(): int { if Saving? then save.validFrom else start }

    function Apply(rows: seq<ActionRow>): seq<ActionRow> {
      match this
      case Saving(s) => SaveOutcome(rows, s).rows
      case Mixing(code, mix, start) => MixOutcome(rows, code, mix, start).rows
    }
  }

  /** Every edit either leaves the table alone or is one save starting on its date. */
  lemma EditIsASave(rows: seq<ActionRow>, e: Edit)
    ensures e.Apply(rows) == rows
         || exists s: Save :: s.validFrom == e.Start() && SaveError(rows, s).None? && e.Apply(rows) == Saved(rows, s)
  {
    match e
    case Saving(s) =>
    case Mixing(code, mix, start) =>
      var s := MixSave(rows, code, mix, start);
      assert SaveError(rows, s).None? ==> SaveOutcome(rows, s).rows == Saved(rows, s);
  }

  ghost function Run(rows: seq<ActionRow>, edits: seq<Edit>): seq<ActionRow> {
    if edits == [] then rows
    else edits[|edits| - 1].Apply(Run(rows, edits[..|edits| - 1]))
  }

  /** Over every run of edits, refused ones included, a written row keeps every field
      except an open end, which is filled in at most once. */
  lemma {:induction false} HistoryIsAppendOnly(rows: seq<ActionRow>, edits: seq<Edit>)
    ensures Grown(rows, Run(rows, edits))
  {
    if edits != [] {
      var before := Run(rows, edits[..|edits| - 1]);
      HistoryIsAppendOnly(rows, edits[..|edits| - 1]);
      EditIsASave(before, edits[|edits| - 1]);
    }
  }

  // ----- The past stays put -----

  /** What a reader is given for a date: the version and its actions. */
  ghost function Offered(rows: seq<ActionRow>, at: int): (Option<int>, seq<ActionSpec>) {
    (ActiveVersion(Windows(rows), at), SpecsOf(LoadActive(rows, at)))
  }

  lemma {:induction false} OfVersionAppended(rows: seq<ActionRow>, more: seq<ActionRow>, v: int)
    ensures OfVersion(rows + more, v) == OfVersion(rows, v) + OfVersion(more, v)
  {
    if rows == [] {
      assert rows + more == more;
    } else {
      assert (rows + more)[1..] == rows[1..] + more;
      OfVersionAppended(rows[1..], more, v);
    }
  }

  lemma {:induction false} OfVersionUniform(rows: seq<ActionRow>, version: int, v: int)
    requires forall r | r in rows :: r.window.version == version
    ensures OfVersion(rows, v) == if v == version then rows else []
  {
    if rows != [] {
      assert rows[0] in rows;
      OfVersionUniform(rows[1..], version, v);
    }
  }

  lemma {:induction false} ClosingKeepsSpecs(rows: seq<ActionRow>, version: int, start: int, v: int)
    ensures SpecsOf(OfVersion(CloseEach(rows, version, start), v)) == SpecsOf(OfVersion(rows, v))
  {
    if rows != [] {
      var closed := CloseEach(rows, version, start);
      assert closed[1..] == CloseEach(rows[1..], version, start);
      ClosingKeepsSpecs(rows[1..], version, start, v);
      SpecsAppended([rows[0]], OfVersion(rows[1..], v));
      SpecsAppended([closed[0]], OfVersion(closed[1..], v));
    }
  }

  lemma SpecsAppended(a: seq<ActionRow>, b: seq<ActionRow>)
    ensures SpecsOf(a + b) == SpecsOf(a) + SpecsOf(b)
  {
  }

  /** The rows a save keeps: closed or not, everything before the new ones. */
  ghost function Kept(rows: seq<ActionRow>, s: Save): seq<ActionRow> {
    if s.closePrevious then CloseEach(rows, s.version, s.validFrom) else rows
  }

  lemma SpecsAfterSave(rows: seq<ActionRow>, s: Save, v: int)
    ensures var was := SpecsOf(OfVersion(rows, v));
            SpecsOf(OfVersion(Saved(rows, s), v)) == if v == s.version then was + s.actions else was
  {
    var made := NewRows(s.actions, s.NewWindow());
    OfVersionAppended(Kept(rows, s), made, v);
    OfVersionUniform(made, s.version, v);
    SpecsAppended(OfVersion(Kept(rows, s), v), OfVersion(made, v));
    if s.closePrevious {
      ClosingKeepsSpecs(rows, s.version, s.validFrom, v);
    }
    assert SpecsOf(made) == s.actions;
  }

  lemma {:induction false} NoRowsOfVersion(rows: seq<ActionRow>, v: int)
    ensures OfVersion(rows, v) == [] <==> !HasVersion(rows, v)
  {
    if rows != [] {
      NoRowsOfVersion(rows[1..], v);
      assert forall i | 1 <= i < |rows| :: rows[i] == rows[1..][i - 1];
      assert HasVersion(rows, v) <==> rows[0].window.version == v || HasVersion(rows[1..], v);
    }
  }

  lemma ActiveIsStored(rows: seq<ActionRow>, at: int)
    requires ActiveVersion(Windows(rows), at).Some?
    ensures HasVersion(rows, ActiveVersion(Windows(rows), at).value)
  {
    ActiveVersionIs(Windows(rows), at, ActiveVersion(Windows(rows), at).value);
    var w :| w in Windows(rows) && w.version == ActiveVersion(Windows(rows), at).value;
    var i :| 0 <= i < |rows| && Windows(rows)[i] == w;
  }

  lemma AcceptedIsNew(rows: seq<ActionRow>, s: Save)
    requires SaveError(rows, s).None?
    ensures WellFormed(s.actions) && !HasVersion(rows, s.version)
  {
    ValidateExact(s.actions);
  }

  lemma SaveKeepsPastVersion(rows: seq<ActionRow>, s: Save, at: int)
    requires at < s.validFrom
    ensures ActiveVersion(Windows(Saved(rows, s)), at) == ActiveVersion(Windows(rows), at)
  {
    var kept, made := Kept(rows, s), NewRows(s.actions, s.NewWindow());
    assert Windows(kept + made) == Windows(kept) + Windows(made);
    NotInForceAppended(Windows(kept), Windows(made), at);
    SameInForce(Windows(rows), Windows(kept), at);
  }

  /** A save changes nothing a reader is given for a date before its start, however
      it is dated against the versions already there. */
  lemma SaveKeepsThePast(rows: seq<ActionRow>, s: Save, at: int)
    requires SaveError(rows, s).None? && at < s.validFrom
    ensures Offered(Saved(rows, s), at) == Offered(rows, at)
  {
    SaveKeepsPastVersion(rows, s, at);
    if ActiveVersion(Windows(rows), at).Some? {
      ActiveIsStored(rows, at);
      AcceptedIsNew(rows, s);
      SpecsAfterSave(rows, s, ActiveVersion(Windows(rows), at).value);
    }
  }

  /** Over every run of edits, what was offered on a date before all of their starts
      never changes, back-dated and overlapping saves included. */
  lemma {:induction false} RunKeepsThePast(rows: seq<ActionRow>, edits: seq<Edit>, at: int)
    requires forall e | e in edits :: at < e.Start()
    ensures Offered(Run(rows, edits), at) == Offered(rows, at)
  {
    if edits != [] {
      var e := edits[|edits| - 1];
      var before := Run(rows, edits[..|edits| - 1]);
      RunKeepsThePast(rows, edits[..|edits| - 1], at);
      EditIsASave(before, e);
      if e.Apply(before) != before {
        var s: Save :| s.validFrom == e.Start() && SaveError(before, s).None? && e.Apply(before) == Saved(before, s);
        SaveKeepsThePast(before, s, at);
      }
    }
  }

  // ----- When a new version takes over -----

  ghost predicate TakesOver(rows: seq<ActionRow>, s: Save) {
    forall at | s.validFrom <= at :: ActiveVersion(Windows(Saved(rows, s)), at) == Some(s.version)
  }

  /** Nothing stored starts later (or as late, under a higher number) with a window
      that the save neither closes nor finds already empty. */
  ghost predicate Unrivalled(rows: seq<ActionRow>, s: Save) {
    forall r | r in rows && r.window.validFrom.Some? && Outranks(r.window, s.NewWindow()) ::
      Closes(r, s.version)
      || (r.window.validTo.Some? && r.window.validTo.value <= r.window.validFrom.value)
  }

  lemma NewWindowStored(rows: seq<ActionRow>, s: Save)
    requires SaveError(rows, s).None?
    ensures s.NewWindow() in Windows(Saved(rows, s))
    ensures forall w | w in Windows(Saved(rows, s)) && w.version == s.version :: w == s.NewWindow()
  {
    var after := Saved(rows, s);
    var ws := Windows(after);
    AcceptedIsNew(rows, s);
    assert ws[|rows|] == s.NewWindow();
    forall j | 0 <= j < |rows| ensures ws[j].version != s.version {
      assert ws[j].version == rows[j].window.version;
    }
    forall j | |rows| <= j < |ws| ensures ws[j] == s.NewWindow() {
    }
  }

  lemma UnrivalledTakesOver(rows: seq<ActionRow>, s: Save, at: int)
    requires SaveError(rows, s).None? && s.validTo.None? && s.closePrevious
    requires Unrivalled(rows, s) && s.validFrom <= at
    ensures ActiveVersion(Windows(Saved(rows, s)), at) == Some(s.version)
  {
    var ws := Windows(Saved(rows, s));
    NewWindowStored(rows, s);
    forall o | o in ws && o.InForce(at) && o.version != s.version ensures Outranks(s.NewWindow(), o) {
      var i :| 0 <= i < |ws| && ws[i] == o;
      assert i < |rows| && o == Closed(rows[i], s.version, s.validFrom).window;
    }
    ActiveVersionIs(ws, at, s.version);
  }

  lemma RivalWins(rows: seq<ActionRow>, s: Save, i: nat)
    requires SaveError(rows, s).None? && s.validTo.None? && s.closePrevious
    requires i < |rows| && rows[i].window.validFrom.Some? && Outranks(rows[i].window, s.NewWindow())
    requires !Closes(rows[i], s.version)
    requires rows[i].window.validTo.None? || rows[i].window.validTo.value > rows[i].window.validFrom.value
    ensures ActiveVersion(Windows(Saved(rows, s)), rows[i].window.validFrom.value) != Some(s.version)
  {
    var ws, r := Windows(Saved(rows, s)), rows[i];
    AcceptedIsNew(rows, s);
    NewWindowStored(rows, s);
    assert ws[i] == r.window && r.window.InForce(r.window.validFrom.value);
    ActiveVersionIs(ws, r.window.validFrom.value, s.version);
  }

  /** An open-ended save that closes the versions before it is in force on every
      date from its start exactly when it is unrivalled. A back-dated one may not
      be: a later, already closed window keeps its own dates. */
  lemma TakesOverExactly(rows: seq<ActionRow>, s: Save)
    requires SaveError(rows, s).None? && s.validTo.None? && s.closePrevious
    ensures TakesOver(rows, s) <==> Unrivalled(rows, s)
  {
    if Unrivalled(rows, s) {
      forall at | s.validFrom <= at ensures ActiveVersion(Windows(Saved(rows, s)), at) == Some(s.version) {
        UnrivalledTakesOver(rows, s, at);
      }
    } else {
      var r :| r in rows && r.window.validFrom.Some? && Outranks(r.window, s.NewWindow())
               && !Closes(r, s.version)
               && !(r.window.validTo.Some? && r.window.validTo.value <= r.window.validFrom.value);
      var i :| 0 <= i < |rows| && rows[i] == r;
      RivalWins(rows, s, i);
    }
  }

  ghost function Plain(): ActionSpec {
    ActionSpec("a", "a", "a", "a", "monitor_only", "balanced", "suggest_only", None, None, None, false)
  }

  ghost function OpenSave(version: int, start: int): Save {
    Save(version, [Plain()], start, None, true)
  }

  ghost function TwoSaves(): seq<ActionRow> {
    Saved(Saved([], OpenSave(1, 10)), OpenSave(2, 20))
  }

  /** Saves starting on day 10, then 20, then back-dated to 5: the third takes over
      on none of the days 10 to 19, where the first still answers. */
  lemma BackDatedSaveLoses()
    ensures SaveError(TwoSaves(), OpenSave(3, 5)).None?
    ensures !Unrivalled(TwoSaves(), OpenSave(3, 5)) && !TakesOver(TwoSaves(), OpenSave(3, 5))
    ensures forall at | 10 <= at < 20 ::
              ActiveVersion(Windows(Saved(TwoSaves(), OpenSave(3, 5))), at) == Some(1)
  {
    var rows, s := TwoSaves(), OpenSave(3, 5);
    assert !IsSpace("a"[0]);
    assert ActionOk(Plain());
    ValidateExact([Plain()]);
    var w1, w2 := Window(1, Some(10), Some(20)), Window(2, Some(20), None);
    assert rows == [ActionRow(Plain(), w1, Published), ActionRow(Plain(), w2, Published)];
    assert rows[0].window == w1;
    TakesOverExactly(rows, s);
    var ws := Windows(Saved(rows, s));
    assert ws == [w1, Window(2, Some(20), Some(5)), Window(3, Some(5), None)];
    forall at | 10 <= at < 20 ensures ActiveVersion(ws, at) == Some(1) {
      assert w1 == ws[0];
      ActiveVersionIs(ws, at, 1);
    }
  }

  ghost predicate NonEmpty(w: Window) {
    w.validFrom.Some? && (w.validTo.None? || w.validFrom.value < w.validTo.value)
  }

  lemma InForceSomeday(w: Window)
    ensures (exists at :: w.InForce(at)) <==> NonEmpty(w)
  {
    assert NonEmpty(w) ==> w.InForce(w.validFrom.value);
  }

  /** A stored window still has a date it is in force on after a save that closes the
      versions before it, except where the save closes it no later than it starts. */
  lemma ScheduledOnSave(rows: seq<ActionRow>, s: Save, i: nat)
    requires s.closePrevious && i < |rows| && NonEmpty(rows[i].window)
    ensures (exists at :: Saved(rows, s)[i].window.InForce(at)) <==>
              !(Closes(rows[i], s.version) && s.validFrom <= rows[i].window.validFrom.value)
  {
    InForceSomeday(Saved(rows, s)[i].window);
  }

  /** Such a version, once it has an end, is in force on some date after any further
      edits exactly when it was not open and scheduled for the save's start or later:
      that one is cancelled for good. */
  lemma ScheduledVersionExactly(rows: seq<ActionRow>, s: Save, edits: seq<Edit>, i: nat)
    requires s.closePrevious && i < |rows| && NonEmpty(rows[i].window)
    requires Closes(rows[i], s.version) || rows[i].window.validTo.Some?
    ensures i < |Run(Saved(rows, s), edits)|
    ensures (exists at :: Run(Saved(rows, s), edits)[i].window.InForce(at)) <==>
              !(Closes(rows[i], s.version) && s.validFrom <= rows[i].window.validFrom.value)
  {
    HistoryIsAppendOnly(Saved(rows, s), edits);
    assert SameBut(Saved(rows, s)[i], Run(Saved(rows, s), edits)[i]);
    InForceSomeday(Run(Saved(rows, s), edits)[i].window);
  }

  // ----- Saves in order -----

  /** Open-ended saves with rising version numbers and starts that never go back. */
  ghost predicate Orderly(saves: seq<Save>) {
    && (forall s | s in saves :: s.validTo.None? && s.closePrevious && WellFormed(s.actions))
    && (forall i, j | 0 <= i < j < |saves| ::
          saves[i].version < saves[j].version && saves[i].validFrom <= saves[j].validFrom)
  }

  ghost function RunSaves(saves: seq<Save>): seq<ActionRow> {
    if saves == [] then [] else Saved(RunSaves(saves[..|saves| - 1]), saves[|saves| - 1])
  }

  /** The simple reading of the store: the last saved version that has started. */
  function LastStarted(saves: seq<Save>, at: int): Option<Save> {
    if saves == [] then None
    else
      var s := saves[|saves| - 1];
      if s.validFrom <= at then Some(s) else LastStarted(saves[..|saves| - 1], at)
  }

  /** The whole table written out: one published window per save, each ending where
      the next one starts and the last one ending at `end`. */
  ghost function Laid(saves: seq<Save>, end: Option<int>): seq<ActionRow> {
    if saves == [] then []
    else
      var s := saves[|saves| - 1];
      Laid(saves[..|saves| - 1], Some(s.validFrom))
      + NewRows(s.actions, Window(s.version, Some(s.validFrom), end))
  }

  lemma {:induction false} LaidRows(saves: seq<Save>, end: Option<int>, below: int)
    requires forall s | s in saves :: s.version < below
    ensures forall r | r in Laid(saves, end) ::
              r.status == Published && r.window.version < below && (end.Some? ==> r.window.validTo.Some?)
  {
    if saves != [] {
      LaidRows(saves[..|saves| - 1], Some(saves[|saves| - 1].validFrom), below);
      assert saves[|saves| - 1] in saves;
    }
  }

  lemma ClosingLaid(saves: seq<Save>, version: int, start: int)
    requires forall s | s in saves :: s.version < version
    ensures CloseEach(Laid(saves, None), version, start) == Laid(saves, Some(start))
  {
    if saves != [] {
      var before, s := saves[..|saves| - 1], saves[|saves| - 1];
      var kept := Laid(before, Some(s.validFrom));
      var made := NewRows(s.actions, Window(s.version, Some(s.validFrom), None));
      LaidRows(before, Some(s.validFrom), version);
      assert s in saves;
      assert CloseEach(kept, version, start) == kept;
      assert CloseEach(made, version, start) == NewRows(s.actions, Window(s.version, Some(s.validFrom), Some(start)));
      assert CloseEach(kept + made, version, start)
          == CloseEach(kept, version, start) + CloseEach(made, version, start);
    }
  }

  /** After an orderly run the table is exactly the contiguous, disjoint windows of
      its saves, with only the last one open. */
  lemma {:induction false} WindowsAreContiguous(saves: seq<Save>)
    requires Orderly(saves)
    ensures RunSaves(saves) == Laid(saves, None)
  {
    if saves != [] {
      var before, s := saves[..|saves| - 1], saves[|saves| - 1];
      WindowsAreContiguous(before);
      assert s in saves && s.validTo.None? && s.closePrevious;
      ClosingLaid(before, s.version, s.validFrom);
    }
  }

  lemma {:induction false} LastStartedIsSaved(saves: seq<Save>, at: int)
    ensures LastStarted(saves, at).Some? ==> LastStarted(saves, at).value in saves
    ensures saves != [] && saves[0].validFrom <= at ==> LastStarted(saves, at).Some?
  {
    if saves != [] && at < saves[|saves| - 1].validFrom {
      LastStartedIsSaved(saves[..|saves| - 1], at);
    }
  }

  /** The stored rows in force on a date are those of the last save that has started. */
  ghost predicate ServesLastStarted(rows: seq<ActionRow>, saves: seq<Save>, at: int) {
    forall r | r in rows ::
      r.window.InForce(at) <==> LastStarted(saves, at).Some? && r.window.version == LastStarted(saves, at).value.version
  }

  lemma {:induction false} NewRowsWindow(actions: seq<ActionSpec>, window: Window)
    ensures forall r | r in NewRows(actions, window) :: r.window == window
  {
  }

  /** One more save ends the rows laid so far on its start and adds its own. */
  lemma LaidStep(kept: seq<ActionRow>, before: seq<Save>, s: Save, end: Option<int>, at: int)
    requires ServesLastStarted(kept, before, at) || s.validFrom <= at
    requires forall r | r in kept :: r.window.version < s.version
    requires s.validFrom <= at ==> forall r | r in kept :: !r.window.InForce(at)
    requires LastStarted(before, at).Some? ==> LastStarted(before, at).value.version < s.version
    requires end.Some? ==> at < end.value
    ensures ServesLastStarted(kept + NewRows(s.actions, Window(s.version, Some(s.validFrom), end)), before + [s], at)
  {
    assert (before + [s])[..|before|] == before;
    NewRowsWindow(s.actions, Window(s.version, Some(s.validFrom), end));
  }

  lemma {:induction false} LaidEndsBy(saves: seq<Save>, end: int, at: int)
    requires Orderly(saves) && end <= at
    requires forall s | s in saves :: s.validFrom <= end
    ensures forall r | r in Laid(saves, Some(end)) :: !r.window.InForce(at)
  {
    if saves != [] {
      var before, s := saves[..|saves| - 1], saves[|saves| - 1];
      StartsBy(saves);
      assert s in saves;
      LaidEndsBy(before, s.validFrom, at);
      NewRowsWindow(s.actions, Window(s.version, Some(s.validFrom), Some(end)));
    }
  }

  lemma StartsBy(saves: seq<Save>)
    requires Orderly(saves) && saves != []
    ensures var before, s := saves[..|saves| - 1], saves[|saves| - 1];
            Orderly(before) && forall b | b in before :: b.validFrom <= s.validFrom && b.version < s.version
  {
    var before := saves[..|saves| - 1];
    forall b | b in before ensures b in saves {
      var i :| 0 <= i < |before| && before[i] == b;
      assert saves[i] == b;
    }
  }

  lemma {:induction false} LaidServesLastStarted(saves: seq<Save>, end: Option<int>, at: int)
    requires Orderly(saves) && (end.Some? ==> at < end.value)
    ensures ServesLastStarted(Laid(saves, end), saves, at)
  {
    if saves != [] {
      var before, s := saves[..|saves| - 1], saves[|saves| - 1];
      StartsBy(saves);
      LaidRows(before, Some(s.validFrom), s.version);
      LastStartedIsSaved(before, at);
      if s.validFrom <= at {
        LaidEndsBy(before, s.validFrom, at);
      } else {
        LaidServesLastStarted(before, Some(s.validFrom), at);
      }
      LaidStep(Laid(before, Some(s.validFrom)), before, s, end, at);
      assert before + [s] == saves;
    }
  }

  lemma {:induction false} LaidHolds(saves: seq<Save>, end: Option<int>, s: Save)
    requires s in saves && s.actions != []
    ensures exists r | r in Laid(saves, end) :: r.window.version == s.version
  {
    var last := saves[|saves| - 1];
    if s == last {
      var made := NewRows(s.actions, Window(s.version, Some(s.validFrom), end));
      assert made[0] in made && made[0].window.version == s.version;
      assert made[0] in Laid(saves, end);
    } else {
      var before := saves[..|saves| - 1];
      assert saves == before + [last];
      LaidHolds(before, Some(last.validFrom), s);
      var r :| r in Laid(before, Some(last.validFrom)) && r.window.version == s.version;
      assert r in Laid(saves, end);
    }
  }

  /** On every date from the first start the table has rows in force, and they are
      exactly the stored rows of one version, that of the last save that has started. */
  lemma ExactlyOneInForce(saves: seq<Save>, at: int)
    requires Orderly(saves) && saves != [] && saves[0].validFrom <= at
    ensures LastStarted(saves, at).Some? && LastStarted(saves, at).value in saves
    ensures var version := LastStarted(saves, at).value.version;
            && (forall r | r in RunSaves(saves) :: r.window.InForce(at) <==> r.window.version == version)
            && exists r | r in RunSaves(saves) :: r.window.InForce(at)
  {
    WindowsAreContiguous(saves);
    LaidServesLastStarted(saves, None, at);
    LastStartedIsSaved(saves, at);
    LaidHolds(saves, None, LastStarted(saves, at).value);
  }

  lemma {:induction false} StoredBelow(saves: seq<Save>, next: Save)
    requires Orderly(saves + [next])
    ensures Orderly(saves)
    ensures forall r | r in RunSaves(saves) ::
              r.window.version < next.version && r.window.validFrom.Some? && r.window.validFrom.value <= next.validFrom
  {
    assert forall i | 0 <= i < |saves| :: saves[i] == (saves + [next])[i];
    assert (saves + [next])[|saves|] == next;
    if saves != [] {
      var before, s := saves[..|saves| - 1], saves[|saves| - 1];
      assert forall i | 0 <= i < |before| :: (before + [next])[i] == (saves + [next])[i];
      StoredBelow(before, next);
      forall k | 0 <= k < |RunSaves(saves)|
        ensures var r := RunSaves(saves)[k];
                && r.window.version < next.version
                && r.window.validFrom.Some? && r.window.validFrom.value <= next.validFrom
      {
        if k < |RunSaves(before)| {
          assert RunSaves(before)[k] in RunSaves(before);
        }
      }
    }
  }

  lemma OrderlyStep(before: seq<Save>, s: Save)
    requires Orderly(before + [s])
    ensures Orderly(before)
    ensures SaveError(RunSaves(before), s).None? && Unrivalled(RunSaves(before), s)
    ensures s.validTo.None? && s.closePrevious
  {
    StoredBelow(before, s);
    assert s in before + [s];
    ValidateExact(s.actions);
    var was := RunSaves(before);
    forall i | 0 <= i < |was| ensures was[i].window.version != s.version {
      assert was[i] in was;
    }
  }

  lemma OfferedByNothing(at: int)
    ensures Offered([], at) == (None, [])
  {
    assert Windows([]) == [] && SpecsOf([]) == [];
  }

  lemma OfferedWhenActive(rows: seq<ActionRow>, s: Save, at: int)
    requires SaveError(rows, s).None? && ActiveVersion(Windows(Saved(rows, s)), at) == Some(s.version)
    ensures Offered(Saved(rows, s), at) == (Some(s.version), s.actions)
  {
    AcceptedIsNew(rows, s);
    SpecsAfterSave(rows, s, s.version);
    NoRowsOfVersion(rows, s.version);
    assert SpecsOf(OfVersion(rows, s.version)) + s.actions == s.actions;
  }

  /** Over every orderly run, no save is refused, and a reader is given on each date
      exactly the actions of the last saved version that has started. */
  lemma {:induction false} ReaderSeesLastStarted(saves: seq<Save>, at: int)
    requires Orderly(saves)
    ensures Offered(RunSaves(saves), at)
         == match LastStarted(saves, at)
            case None => (None, [])
            case Some(s) => (Some(s.version), s.actions)
    ensures saves != [] ==> SaveError(RunSaves(saves[..|saves| - 1]), saves[|saves| - 1]).None?
  {
    if saves == [] {
      OfferedByNothing(at);
    } else {
      var before, s := saves[..|saves| - 1], saves[|saves| - 1];
      assert before + [s] == saves;
      OrderlyStep(before, s);
      ReaderSeesLastStarted(before, at);
      if at < s.validFrom {
        SaveKeepsThePast(RunSaves(before), s, at);
      } else {
        UnrivalledTakesOver(RunSaves(before), s, at);
        OfferedWhenActive(RunSaves(before), s, at);
      }
    }
  }

  // ----- Changing one action's mix -----

  /** The unique key of the table, and stored actions that would pass validation. */
  ghost predicate Sound(rows: seq<ActionRow>) {
    && (forall i, j | 0 <= i < j < |rows| ::
          !(rows[i].window.version == rows[j].window.version
            && rows[i].spec.actionCode == rows[j].spec.actionCode))
    && forall r | r in rows :: ActionOk(r.spec)
  }

  lemma SaveKeepsSound(rows: seq<ActionRow>, s: Save)
    requires Sound(rows) && SaveError(rows, s).None?
    ensures Sound(Saved(rows, s))
  {
    var after := Saved(rows, s);
    AcceptedIsNew(rows, s);
    forall k | |rows| <= k < |after|
      ensures after[k].window.version == s.version && after[k].spec == s.actions[k - |rows|]
    {
    }
    forall k | 0 <= k < |rows|
      ensures after[k].spec == rows[k].spec && after[k].window.version == rows[k].window.version != s.version
    {
    }
  }

  /** Every run of edits keeps the unique key and keeps every stored action valid. */
  lemma {:induction false} RunKeepsSound(rows: seq<ActionRow>, edits: seq<Edit>)
    requires Sound(rows)
    ensures Sound(Run(rows, edits))
  {
    if edits != [] {
      var before, e := Run(rows, edits[..|edits| - 1]), edits[|edits| - 1];
      RunKeepsSound(rows, edits[..|edits| - 1]);
      EditIsASave(before, e);
      if e.Apply(before) != before {
        var s: Save :| SaveError(before, s).None? && e.Apply(before) == Saved(before, s);
        SaveKeepsSound(before, s);
      }
    }
  }

  lemma {:induction false} OfVersionSound(rows: seq<ActionRow>, v: int)
    requires Sound(rows)
    ensures CodesDistinct(SpecsOf(OfVersion(rows, v)))
    ensures forall r | r in OfVersion(rows, v) :: r in rows && r.window.version == v && ActionOk(r.spec)
  {
    if rows != [] {
      var rest := rows[1..];
      assert forall i | 0 <= i < |rest| :: rest[i] == rows[i + 1];
      OfVersionSound(rest, v);
      if rows[0].window.version == v {
        SpecsAppended([rows[0]], OfVersion(rest, v));
        forall r | r in OfVersion(rest, v) ensures r.spec.actionCode != rows[0].spec.actionCode {
          var i :| 0 <= i < |rest| && rest[i] == r;
          assert rows[i + 1] == r;
        }
      }
    }
  }

  lemma {:induction false} FindExact(rows: seq<ActionRow>, code: string) returns (k: nat)
    requires CodesDistinct(SpecsOf(rows)) && Find(rows, code).Some?
    ensures k < |rows| && Find(rows, code) == Some(rows[k])
    ensures forall i: nat | i < |rows| :: rows[i].spec.actionCode == code <==> i == k
  {
    if rows[0].spec.actionCode == code {
      k := 0;
      forall i: nat | 0 < i < |rows| ensures rows[i].spec.actionCode != code {
        assert SpecsOf(rows)[0].actionCode != SpecsOf(rows)[i].actionCode;
      }
    } else {
      forall i, j | 0 <= i < j < |rows| - 1
        ensures SpecsOf(rows[1..])[i].actionCode != SpecsOf(rows[1..])[j].actionCode
      {
        assert SpecsOf(rows)[i + 1].actionCode != SpecsOf(rows)[j + 1].actionCode;
      }
      k := FindExact(rows[1..], code);
      assert forall i: nat | 0 < i < |rows| :: rows[i] == rows[1..][i - 1];
      k := k + 1;
    }
  }

  ghost predicate MixChanges(rows: seq<ActionRow>, code: string, mix: string, start: int) {
    && mix in CONTENT_MIXES
    && Find(LoadActive(rows, start), code).Some?
    && Find(LoadActive(rows, start), code).value.spec.contentMix != mix
  }

  lemma NextVersionIsNew(rows: seq<ActionRow>)
    ensures forall r | r in rows :: r.window.version < NextVersion(rows)
    ensures !HasVersion(rows, NextVersion(rows))
  {
    assert forall i | 0 <= i < |rows| :: rows[i] in rows;
  }

  lemma WithMixesWellFormed(actions: seq<ActionSpec>, code: string, mix: string)
    requires WellFormed(actions) && mix in CONTENT_MIXES
    ensures WellFormed(WithMixes(actions, code, mix))
  {
    var changed := WithMixes(actions, code, mix);
    forall a | a in changed ensures ActionOk(a) {
      var i :| 0 <= i < |changed| && changed[i] == a;
      assert ActionOk(actions[i]);
    }
  }

  /** What a sound table offers would pass validation again. */
  lemma OfferedIsWellFormed(rows: seq<ActionRow>, at: int)
    requires Sound(rows) && LoadActive(rows, at) != []
    ensures WellFormed(SpecsOf(LoadActive(rows, at)))
  {
    var current := LoadActive(rows, at);
    OfVersionSound(rows, ActiveVersion(Windows(rows), at).value);
    forall a | a in SpecsOf(current) ensures ActionOk(a) {
      var i :| 0 <= i < |current| && current[i].spec == a;
      assert current[i] in current;
    }
  }

  /** The edited list validates and its version is new, so the save goes through. */
  lemma MixSaveAccepted(rows: seq<ActionRow>, code: string, mix: string, start: int)
    requires Sound(rows) && MixChanges(rows, code, mix, start)
    ensures var s := MixSave(rows, code, mix, start);
            SaveError(rows, s).None? && MixOutcome(rows, code, mix, start) == Outcome(Saved(rows, s), Ok(s.version))
  {
    var s := MixSave(rows, code, mix, start);
    OfferedIsWellFormed(rows, start);
    WithMixesWellFormed(SpecsOf(LoadActive(rows, start)), code, mix);
    ValidateExact(s.actions);
    NextVersionIsNew(rows);
  }

  /** On its own start date a save under the highest number answers, even with later
      versions scheduled. */
  lemma HighestWinsOnItsStart(rows: seq<ActionRow>, s: Save)
    requires SaveError(rows, s).None? && s.validTo.None?
    requires forall r | r in rows :: r.window.version < s.version
    ensures ActiveVersion(Windows(Saved(rows, s)), s.validFrom) == Some(s.version)
  {
    var ws, at := Windows(Saved(rows, s)), s.validFrom;
    NewWindowStored(rows, s);
    forall o | o in ws && o.InForce(at) && o.version != s.version ensures Outranks(s.NewWindow(), o) {
      var i :| 0 <= i < |ws| && ws[i] == o;
      assert i < |rows| && rows[i] in rows;
      assert o.version == rows[i].window.version && o.validFrom == rows[i].window.validFrom;
    }
    ActiveVersionIs(ws, at, s.version);
  }

  lemma MixTouchesOne(current: seq<ActionRow>, code: string, mix: string) returns (k: nat)
    requires CodesDistinct(SpecsOf(current)) && Find(current, code).Some?
    ensures k < |current| && current[k].spec.actionCode == code
    ensures WithMixes(SpecsOf(current), code, mix) == SpecsOf(current)[k := current[k].spec.(contentMix := mix)]
  {
    k := FindExact(current, code);
  }

  /** A mix change writes one new version in which exactly one field of exactly one
      action differs from what was offered on the start date. */
  lemma MixChangesOneField(rows: seq<ActionRow>, code: string, mix: string, start: int) returns (k: nat)
    requires Sound(rows) && MixChanges(rows, code, mix, start)
    ensures var was, o := Offered(rows, start).1, MixOutcome(rows, code, mix, start);
            && o.result == Ok(NextVersion(rows)) && Sound(o.rows)
            && k < |was| && was[k].actionCode == code
            && Offered(o.rows, start) == (Some(NextVersion(rows)), was[k := was[k].(contentMix := mix)])
  {
    var s := MixSave(rows, code, mix, start);
    var current := LoadActive(rows, start);
    MixSaveAccepted(rows, code, mix, start);
    SaveKeepsSound(rows, s);
    NextVersionIsNew(rows);
    HighestWinsOnItsStart(rows, s);
    OfferedWhenActive(rows, s, start);
    OfferedIsWellFormed(rows, start);
    k := MixTouchesOne(current, code, mix);
  }

  ghost function Codes(actions: seq<ActionSpec>): seq<string> {
    seq(|actions|, i requires 0 <= i < |actions| => actions[i].actionCode)
  }

  lemma {:induction false} UnpausedDependsOnSpecs(a: seq<ActionRow>, b: seq<ActionRow>)
    requires |a| == |b|
    requires forall i | 0 <= i < |a| ::
               a[i].spec.actionCode == b[i].spec.actionCode && a[i].spec.paused == b[i].spec.paused
    ensures Codes(SpecsOf(Unpaused(a))) == Codes(SpecsOf(Unpaused(b)))
  {
    if a != [] {
      UnpausedDependsOnSpecs(a[1..], b[1..]);
      var x, y := Unpaused(a[1..]), Unpaused(b[1..]);
      assert Codes(SpecsOf([a[0]] + x)) == [a[0].spec.actionCode] + Codes(SpecsOf(x));
      assert Codes(SpecsOf([b[0]] + y)) == [b[0].spec.actionCode] + Codes(SpecsOf(y));
      assert [] + x == x && [] + y == y;
    }
  }

  /** The actions that may be chosen stay the same, in the same order, and asking for
      the same mix again writes nothing. */
  lemma MixKeepsChoicesAndSettles(rows: seq<ActionRow>, code: string, mix: string, start: int)
    requires Sound(rows) && MixChanges(rows, code, mix, start)
    ensures var o := MixOutcome(rows, code, mix, start);
            && Codes(SpecsOf(SelectableActions(o.rows, start))) == Codes(SpecsOf(SelectableActions(rows, start)))
            && MixOutcome(o.rows, code, mix, start) == o
  {
    var o := MixOutcome(rows, code, mix, start);
    var k := MixChangesOneField(rows, code, mix, start);
    var was, now := LoadActive(rows, start), LoadActive(o.rows, start);
    assert SpecsOf(now) == SpecsOf(was)[k := was[k].spec.(contentMix := mix)];
    forall i | 0 <= i < |now|
      ensures now[i].spec.actionCode == was[i].spec.actionCode && now[i].spec.paused == was[i].spec.paused
    {
      assert SpecsOf(now)[i] == now[i].spec && SpecsOf(was)[i] == was[i].spec;
    }
    UnpausedDependsOnSpecs(now, was);
    OfVersionSound(o.rows, NextVersion(rows));
    assert SpecsOf(now)[k] == now[k].spec;
    FindIsAt(now, code, k);
  }

  lemma {:induction false} FindIsAt(rows: seq<ActionRow>, code: string, k: nat)
    requires CodesDistinct(SpecsOf(rows)) && k < |rows| && rows[k].spec.actionCode == code
    ensures Find(rows, code) == Some(rows[k])
  {
    if k > 0 {
      assert SpecsOf(rows)[0].actionCode != SpecsOf(rows)[k].actionCode;
      forall i, j | 0 <= i < j < |rows| - 1
        ensures SpecsOf(rows[1..])[i].actionCode != SpecsOf(rows[1..])[j].actionCode
      {
        assert SpecsOf(rows)[i + 1].actionCode != SpecsOf(rows)[j + 1].actionCode;
      }
      FindIsAt(rows[1..], code, k - 1);
    }
  }

  lemma {:induction false} FindNothing(rows: seq<ActionRow>, code: string)
    requires forall i | 0 <= i < |rows| :: rows[i].spec.actionCode != code
    ensures Find(rows, code).None?
  {
    if rows != [] {
      FindNothing(rows[1..], code);
    }
  }

  lemma {:induction false} FindUnpaused(rows: seq<ActionRow>, code: string)
    requires CodesDistinct(SpecsOf(rows))
    ensures Find(Unpaused(rows), code)
         == if Find(rows, code).Some? && !Find(rows, code).value.spec.paused then Find(rows, code) else None
  {
    if rows != [] {
      forall i, j | 0 <= i < j < |rows| - 1
        ensures SpecsOf(rows[1..])[i].actionCode != SpecsOf(rows[1..])[j].actionCode
      {
        assert SpecsOf(rows)[i + 1].actionCode != SpecsOf(rows)[j + 1].actionCode;
      }
      FindUnpaused(rows[1..], code);
      if rows[0].spec.actionCode == code {
        forall i | 0 <= i < |rows| - 1 ensures rows[1..][i].spec.actionCode != code {
          assert SpecsOf(rows)[0].actionCode != SpecsOf(rows)[i + 1].actionCode;
        }
        FindNothing(rows[1..], code);
      }
      var rest := Unpaused(rows[1..]);
      assert [] + rest == rest && ([rows[0]] + rest)[1..] == rest;
    }
  }

  /** An action counts as paused exactly when it is not among those that may be chosen,
      whether its row says so or there is none. */
  lemma PausedExactly(rows: seq<ActionRow>, code: string, at: int)
    requires Sound(rows)
    ensures ActionIsPaused(rows, code, at) <==> Find(SelectableActions(rows, at), code).None?
  {
    var active := ActiveVersion(Windows(rows), at);
    if active.Some? {
      OfVersionSound(rows, active.value);
    }
    FindUnpaused(LoadActive(rows, at), code);
  }
}
