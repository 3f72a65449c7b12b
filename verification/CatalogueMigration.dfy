/** The action-catalogue step of migrations/versions/b2d5f8a1c4e7_remaining_actions_on.py
    and its undo. The start dates stored in the two other catalogues the step reads,
    and its own earliest date, come in as one lower bound. */
module CatalogueMigration {
  import opened Common
  import opened Validity
  import opened Catalogue
  import opened CatalogueLaws

  /** What the step overrides for one action code besides the fixed changes. */
  datatype Change = Change(contentMix: Option<string>, evidenceRequired: Option<string>)

  function ChangedSpec(a: ActionSpec, changes: map<string, Change>): ActionSpec {
    if a.actionCode !in changes then a
    else
      var c := changes[a.actionCode];
      a.(paused := false, messageAngle := Some(a.actionCode), defaultPermission := "suggest_only",
         contentMix := c.contentMix.GetOr(a.contentMix),
         evidenceRequired := c.evidenceRequired.GetOr(a.evidenceRequired))
  }

  function ChangedSpecs(actions: seq<ActionSpec>, changes: map<string, Change>): seq<ActionSpec> {
    seq(|actions|, i requires 0 <= i < |actions| => ChangedSpec(actions[i], changes))
  }

  /** The latest of `floor` and every stored start. */
  function StartDate(rows: seq<ActionRow>, floor: int): (start: int)
    ensures floor <= start
    ensures forall r | r in rows && r.window.validFrom.Some? :: r.window.validFrom.value <= start
  {
    if rows == [] then floor
    else
      var last := rows[|rows| - 1].window.validFrom;
      var rest := StartDate(rows[..|rows| - 1], floor);
      assert rows == rows[..|rows| - 1] + [rows[|rows| - 1]];
      if last.Some? && last.value > rest then last.value else rest
  }

  function StepSave(rows: seq<ActionRow>, changes: map<string, Change>, floor: int): Save {
    var start := StartDate(rows, floor);
    Save(NextVersion(rows), ChangedSpecs(SpecsOf(LoadActive(rows, start)), changes), start, None, true)
  }

  /** The step takes over on every date from its start, offering the changed actions,
      and changes nothing offered on any earlier date. */
  lemma StepTakesOver(rows: seq<ActionRow>, changes: map<string, Change>, floor: int, at: int)
    requires SaveError(rows, StepSave(rows, changes, floor)).None?
    ensures var s := StepSave(rows, changes, floor);
            Offered(Saved(rows, s), at)
            == if s.validFrom <= at then (Some(s.version), ChangedSpecs(Offered(rows, s.validFrom).1, changes))
               else Offered(rows, at)
  {
    var s := StepSave(rows, changes, floor);
    if at < s.validFrom {
      SaveKeepsThePast(rows, s, at);
    } else {
      NextVersionIsNew(rows);
      assert Unrivalled(rows, s);
      UnrivalledTakesOver(rows, s, at);
      OfferedWhenActive(rows, s, at);
    }
  }

  /** The latest of them exactly: the floor itself or some stored start. */
  lemma {:induction false} StartDateExactly(rows: seq<ActionRow>, floor: int)
    ensures StartDate(rows, floor) == floor
         || exists r | r in rows :: r.window.validFrom == Some(StartDate(rows, floor))
  {
    if rows != [] {
      StartDateExactly(rows[..|rows| - 1], floor);
      assert rows == rows[..|rows| - 1] + [rows[|rows| - 1]];
    }
  }

  /** On every date from its start the step offers each action offered before: one it names
      unpaused, sending its own angle, only suggested, with the mix and the evidence it gives
      where it gives any; the others, and every other field, as they were. */
  lemma StepOffersChanged(rows: seq<ActionRow>, changes: map<string, Change>, floor: int, at: int, k: nat)
    requires SaveError(rows, StepSave(rows, changes, floor)).None?
    requires StepSave(rows, changes, floor).validFrom <= at
    requires k < |Offered(rows, StepSave(rows, changes, floor).validFrom).1|
    ensures var before := Offered(rows, StepSave(rows, changes, floor).validFrom).1;
            var after := Offered(Saved(rows, StepSave(rows, changes, floor)), at).1;
            && |after| == |before|
            && var was, now := before[k], after[k];
               if was.actionCode !in changes then now == was
               else
                 var c := changes[was.actionCode];
                 && now.actionCode == was.actionCode && now.title == was.title && now.who == was.who
                 && now.responseKind == was.responseKind && now.channel == was.channel
                 && now.moneyCeilingKes == was.moneyCeilingKes
                 && !now.paused && now.messageAngle == Some(was.actionCode)
                 && now.defaultPermission == "suggest_only"
                 && now.contentMix == (if c.contentMix == None then was.contentMix else c.contentMix.value)
                 && now.evidenceRequired
                    == (if c.evidenceRequired == None then was.evidenceRequired else c.evidenceRequired.value)
  {
    StepTakesOver(rows, changes, floor, at);
  }

  /** And every published row still open ends on the step's start; no other stored row moves. */
  lemma StepCloses(rows: seq<ActionRow>, changes: map<string, Change>, floor: int, i: nat)
    requires SaveError(rows, StepSave(rows, changes, floor)).None? && i < |rows|
    ensures var s := StepSave(rows, changes, floor);
            && s.version == NextVersion(rows) && s.validFrom == StartDate(rows, floor) && s.validTo.None?
            && Saved(rows, s)[i]
               == if rows[i].status == Published && rows[i].window.validTo == None then
                    rows[i].(window := rows[i].window.(validTo := Some(s.validFrom)))
                  else rows[i]
  {
    NextVersionIsNew(rows);
    assert rows[i] in rows;
  }

  // ----- The undo -----

  function WithoutVersion(rows: seq<ActionRow>, version: int): seq<ActionRow> {
    if rows == [] then []
    else
      var rest := WithoutVersion(rows[1..], version);
      if rows[0].window.version == version then rest else [rows[0]] + rest
  }

  /** The highest version below the given one, if any row has one. */
  function PreviousVersion(rows: seq<ActionRow>, version: int): (v: Option<int>)
    ensures v.None? ==> forall r | r in rows :: r.window.version >= version
    ensures v.Some? ==> v.value < version && (exists r | r in rows :: r.window.version == v.value)
                        && forall r | r in rows && r.window.version < version :: r.window.version <= v.value
  {
    if rows == [] then None
    else
      var last := rows[|rows| - 1].window.version;
      var rest := PreviousVersion(rows[..|rows| - 1], version);
      assert rows == rows[..|rows| - 1] + [rows[|rows| - 1]];
      if last < version && (rest.None? || rest.value < last) then Some(last) else rest
  }

  /** The earliest start stored under a version; NULL starts are skipped. */
  function EarliestStart(rows: seq<ActionRow>, version: int): Option<int> {
    if rows == [] then None
    else
      var w := rows[|rows| - 1].window;
      var rest := EarliestStart(rows[..|rows| - 1], version);
      if w.version == version && w.validFrom.Some? && (rest.None? || w.validFrom.value < rest.value)
      then w.validFrom else rest
  }

  lemma {:induction false} EarliestExactly(rows: seq<ActionRow>, version: int)
    ensures var e := EarliestStart(rows, version);
            && (e.Some? ==> exists r | r in rows :: r.window.version == version && r.window.validFrom == e)
            && forall r | r in rows && r.window.version == version && r.window.validFrom.Some? ::
                 e.Some? && e.value <= r.window.validFrom.value
  {
    if rows != [] {
      EarliestExactly(rows[..|rows| - 1], version);
      assert rows == rows[..|rows| - 1] + [rows[|rows| - 1]];
    }
  }

  predicate Reopens(row: ActionRow, previous: int, start: Option<int>) {
    row.window.version == previous && row.window.validTo.Some? && row.window.validTo == start
  }

  function Reopened(row: ActionRow, previous: int, start: Option<int>): ActionRow {
    if Reopens(row, previous, start) then row.(window := row.window.(validTo := None)) else row
  }

  function ReopenEach(rows: seq<ActionRow>, previous: int, start: Option<int>): seq<ActionRow> {
    seq(|rows|, i requires 0 <= i < |rows| => Reopened(rows[i], previous, start))
  }

  function Undone(rows: seq<ActionRow>, version: int): seq<ActionRow> {
    var previous := PreviousVersion(rows, version);
    var start := EarliestStart(rows, version);
    var left := WithoutVersion(rows, version);
    if previous.None? then left else ReopenEach(left, previous.value, start)
  }

  lemma {:induction false} WithoutExactly(rows: seq<ActionRow>, version: int)
    ensures forall r :: r in WithoutVersion(rows, version) <==> r in rows && r.window.version != version
    ensures (forall r | r in rows :: r.window.version != version) ==> WithoutVersion(rows, version) == rows
  {
    if rows != [] {
      WithoutExactly(rows[1..], version);
      assert rows == [rows[0]] + rows[1..];
    }
  }

  /** Undoing any version deletes its rows, whatever else is stored, and of the highest
      version below it reopens the rows that ended on the earliest start it had. */
  lemma UndoWritesExactly(rows: seq<ActionRow>, version: int)
    ensures var kept, after := WithoutVersion(rows, version), Undone(rows, version);
            && (forall r :: r in kept <==> r in rows && r.window.version != version)
            && |after| == |kept|
            && forall i | 0 <= i < |kept| ::
                 var w := kept[i].window;
                 after[i]
                 == if Some(w.version) == PreviousVersion(rows, version) && w.validTo != None
                       && w.validTo == EarliestStart(rows, version)
                    then ActionRow(kept[i].spec, Window(w.version, w.validFrom, None), kept[i].status)
                    else kept[i]
  {
    WithoutExactly(rows, version);
  }

  /** The upgrade's action-catalogue step. */
  method Upgrade(c: ActionCatalogue, changes: map<string, Change>, floor: int)
    returns (r: Result<int, CatalogueError>)
    modifies c
    ensures Outcome(c.rows, r) == SaveOutcome(old(c.rows), StepSave(old(c.rows), changes, floor))
  {
    var start := StartDate(c.rows, floor);
    var version := NextVersion(c.rows);
    var actions := ChangedSpecs(SpecsOf(LoadActive(c.rows, start)), changes);
    r := c.SaveVersion(Save(version, actions, start, None, true));
  }

  /** Delete a version and reopen the one before it where the deleted one had closed it. */
  method UndoVersion(c: ActionCatalogue, version: int)
    modifies c
    ensures c.rows == Undone(old(c.rows), version)
  {
    var previous := PreviousVersion(c.rows, version);
    var start := EarliestStart(c.rows, version);
    c.rows := WithoutVersion(c.rows, version);
    if previous.None? {
      return;
    }
    c.rows := ReopenEach(c.rows, previous.value, start);
  }

  lemma {:induction false} WithoutAppended(rows: seq<ActionRow>, made: seq<ActionRow>, version: int)
    requires forall r | r in rows :: r.window.version != version
    requires forall r | r in made :: r.window.version == version
    ensures WithoutVersion(rows + made, version) == rows
  {
    if rows == [] {
      assert rows + made == made;
      if made != [] {
        assert made[0].window.version == version;
        assert made[1..] == [] + made[1..];
        WithoutAppended([], made[1..], version);
      }
    } else {
      assert rows[0] in rows && (rows + made)[1..] == rows[1..] + made;
      WithoutAppended(rows[1..], made, version);
    }
  }

  lemma {:induction false} EarliestIsTheStart(rows: seq<ActionRow>, made: seq<ActionRow>, version: int, start: int)
    requires forall r | r in rows :: r.window.version != version
    requires forall r | r in made :: r.window.version == version && r.window.validFrom == Some(start)
    ensures EarliestStart(rows + made, version) == if made == [] then None else Some(start)
  {
    var all := rows + made;
    if all != [] {
      var last := |all| - 1;
      if made == [] {
        assert all == rows && all[last] in rows;
        assert all[..last] == rows[..last] + [];
        EarliestIsTheStart(rows[..last], [], version, start);
      } else {
        assert all[last] == made[|made| - 1];
        assert all[..last] == rows + made[..|made| - 1];
        EarliestIsTheStart(rows, made[..|made| - 1], version, start);
      }
    }
  }

  /** Every window the step closed belongs to the highest version, and no window of
      that version already ended on the step's start date. */
  ghost predicate OnlyHighestOpen(rows: seq<ActionRow>, s: Save)
    requires rows != []
  {
    forall r | r in rows ::
      && (Closes(r, s.version) ==> r.window.version == MaxVersion(rows))
      && (r.window.version == MaxVersion(rows) ==> r.window.validTo != Some(s.validFrom))
  }

  lemma PreviousIs(rows: seq<ActionRow>, version: int, k: nat)
    requires k < |rows| && rows[k].window.version < version
    requires forall i | 0 <= i < |rows| && rows[i].window.version < version ::
               rows[i].window.version <= rows[k].window.version
    ensures PreviousVersion(rows, version) == Some(rows[k].window.version)
  {
    assert rows[k] in rows;
  }

  lemma PreviousIsHighest(rows: seq<ActionRow>, s: Save)
    requires rows != [] && s.closePrevious && s.version == NextVersion(rows)
    ensures PreviousVersion(Saved(rows, s), s.version) == Some(MaxVersion(rows))
  {
    var all := Saved(rows, s);
    var top :| top in rows && top.window.version == MaxVersion(rows);
    var t :| 0 <= t < |rows| && rows[t] == top;
    forall i | 0 <= i < |all|
      ensures all[i].window.version == if i < |rows| then rows[i].window.version else s.version
      ensures i < |rows| ==> rows[i].window.version <= MaxVersion(rows)
    {
      assert i < |rows| ==> rows[i] in rows;
    }
    PreviousIs(all, s.version, t);
  }

  lemma UndoneIs(rows: seq<ActionRow>, s: Save)
    requires rows != [] && SaveError(rows, s).None? && s.closePrevious && s.version == NextVersion(rows)
    ensures Undone(Saved(rows, s), s.version)
         == ReopenEach(CloseEach(rows, s.version, s.validFrom), MaxVersion(rows), Some(s.validFrom))
  {
    var closed, made := CloseEach(rows, s.version, s.validFrom), NewRows(s.actions, s.NewWindow());
    NextVersionIsNew(rows);
    AcceptedIsNew(rows, s);
    forall r | r in closed ensures r.window.version != s.version {
      var i :| 0 <= i < |closed| && closed[i] == r;
      assert rows[i] in rows;
    }
    WithoutAppended(closed, made, s.version);
    EarliestIsTheStart(closed, made, s.version, s.validFrom);
    PreviousIsHighest(rows, s);
  }

  /** Undoing the step restores the window table exactly when, before the step, the
      highest version was the only one it had open windows of to close. */
  lemma UndoIsInverseExactly(rows: seq<ActionRow>, s: Save)
    requires rows != [] && SaveError(rows, s).None? && s.closePrevious && s.version == NextVersion(rows)
    ensures Undone(Saved(rows, s), s.version) == rows <==> OnlyHighestOpen(rows, s)
  {
    var back := ReopenEach(CloseEach(rows, s.version, s.validFrom), MaxVersion(rows), Some(s.validFrom));
    UndoneIs(rows, s);
    if OnlyHighestOpen(rows, s) {
      forall i | 0 <= i < |rows| ensures back[i] == rows[i] {
        assert rows[i] in rows;
      }
    }
    if back == rows {
      forall r | r in rows
        ensures (Closes(r, s.version) ==> r.window.version == MaxVersion(rows))
             && (r.window.version == MaxVersion(rows) ==> r.window.validTo != Some(s.validFrom))
      {
        var i :| 0 <= i < |rows| && rows[i] == r;
        assert back[i] == r;
      }
    }
  }
}
