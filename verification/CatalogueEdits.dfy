/** What each edit of the catalogue does to the stored rows, row by row and field by field,
    and which refusal it gives (src/app/agents/action_catalog.py). */
module CatalogueEdits {
  import opened Common
  import opened Text
  import opened Validity
  import opened Catalogue
  import opened CatalogueLaws

  // ----- Saving -----

  /** What becomes of a stored row when a version starts on a day and closes those before it:
      a published row of a lower version that is still open ends that day. */
  function EndedBy(row: ActionRow, version: int, start: int): ActionRow {
    if row.window.version < version && row.status == Published && row.window.validTo == None then
      ActionRow(row.spec, Window(row.window.version, row.window.validFrom, Some(start)), Published)
    else row
  }

  /** An accepted save ends exactly those rows, only when told to, and adds the actions it
      was given, published, under its own number and window. */
  lemma SaveWritesExactly(rows: seq<ActionRow>, s: Save)
    requires SaveOutcome(rows, s).result.Ok?
    ensures var after := SaveOutcome(rows, s).rows;
            && |after| == |rows| + |s.actions|
            && (forall i | 0 <= i < |rows| ::
                  after[i] == if s.closePrevious then EndedBy(rows[i], s.version, s.validFrom) else rows[i])
            && forall k | 0 <= k < |s.actions| ::
                 after[|rows| + k]
                 == ActionRow(s.actions[k], Window(s.version, Some(s.validFrom), s.validTo), Published)
    ensures SaveOutcome(rows, s).result == Ok(|s.actions|)
  {
  }

  ghost predicate VersionStored(rows: seq<ActionRow>, version: int) {
    exists r | r in rows :: r.window.version == version
  }

  lemma VersionStoredIs(rows: seq<ActionRow>, version: int)
    ensures VersionStored(rows, version) <==> HasVersion(rows, version)
  {
    if HasVersion(rows, version) {
      var i :| 0 <= i < |rows| && rows[i].window.version == version;
      assert rows[i] in rows;
    }
  }

  /** A save is refused exactly when its actions are not well formed or its number is taken,
      the first reason first, and then nothing is written. */
  lemma SaveRefusedExactly(rows: seq<ActionRow>, s: Save)
    ensures var o := SaveOutcome(rows, s);
            && (o.result.Err? <==> !WellFormed(s.actions) || VersionStored(rows, s.version))
            && (o.result == Err(VersionExists(s.version)) <==>
                  WellFormed(s.actions) && VersionStored(rows, s.version))
            && (o.result.Err? ==> o.rows == rows)
  {
    ValidateExact(s.actions);
    VersionStoredIs(rows, s.version);
    ErrorsOfActions(s.actions, s.version);
  }

  lemma {:induction false} EachNotVersion(actions: seq<ActionSpec>, version: int)
    ensures CheckEach(actions) != Some(VersionExists(version))
  {
    if actions != [] {
      EachNotVersion(actions[1..], version);
    }
  }

  lemma ErrorsOfActions(actions: seq<ActionSpec>, version: int)
    ensures ValidateActions(actions) != Some(VersionExists(version))
  {
    EachNotVersion(actions, version);
  }

  /** Each fault of an action has its own error, and the earlier fault is the one named. */
  lemma FaultNamed(a: ActionSpec)
    ensures var e, c := CheckAction(a), a.actionCode;
            && (e == Some(EmptyField(c, "action_code")) <==> Blank(c))
            && (e == Some(EmptyField(c, "title")) <==> !Blank(c) && Blank(a.title))
            && (e == Some(EmptyField(c, "who")) <==> !Blank(c) && !Blank(a.title) && Blank(a.who))
            && (e == Some(EmptyField(c, "evidence_required")) <==>
                  !Blank(c) && !Blank(a.title) && !Blank(a.who) && Blank(a.evidenceRequired))
            && (e == Some(UnknownResponseKind(c)) <==> Filled(a) && a.responseKind !in RESPONSE_KINDS)
            && (e == Some(UnknownContentMix(c)) <==>
                  Filled(a) && a.responseKind in RESPONSE_KINDS && a.contentMix !in CONTENT_MIXES)
            && (e == Some(UnknownPermission(c)) <==> Listed(a) && a.defaultPermission !in PERMISSION_LEVELS)
            && (e == Some(CeilingNotAboveZero(c)) <==>
                  && Listed(a) && a.defaultPermission in PERMISSION_LEVELS
                  && a.moneyCeilingKes != None && a.moneyCeilingKes.value <= 0.0)
            && (e == Some(HalfAMessage(c)) <==>
                  && Listed(a) && a.defaultPermission in PERMISSION_LEVELS
                  && (a.moneyCeilingKes == None || a.moneyCeilingKes.value > 0.0)
                  && (a.messageAngle != None && |a.messageAngle.value| > 0)
                     != (a.channel != None && |a.channel.value| > 0))
  {
    assert "title" != "action_code" && |"who"| == 3;
  }

  /** What is wrong with a whole catalogue: that it is empty, then that a code comes twice,
      then the first fault of the first faulty action. */
  lemma CatalogueFaultNamed(actions: seq<ActionSpec>)
    ensures var e := ValidateActions(actions);
            && (e == Some(EmptyCatalogue) <==> actions == [])
            && (e == Some(DuplicateCodes) <==> actions != [] && !CodesDistinct(actions))
            && (actions != [] && CodesDistinct(actions) && e.Some? ==>
                  exists i | 0 <= i < |actions| ::
                    CheckAction(actions[i]) == e && forall j | 0 <= j < i :: CheckAction(actions[j]).None?)
  {
    FirstFaultNamed(actions);
  }

  lemma {:induction false} FirstFaultNamed(actions: seq<ActionSpec>)
    ensures CheckEach(actions) != Some(EmptyCatalogue) && CheckEach(actions) != Some(DuplicateCodes)
    ensures CheckEach(actions).Some? ==>
              exists i | 0 <= i < |actions| ::
                CheckAction(actions[i]) == CheckEach(actions)
                && forall j | 0 <= j < i :: CheckAction(actions[j]).None?
  {
    if actions != [] && CheckAction(actions[0]).None? {
      FirstFaultNamed(actions[1..]);
      if CheckEach(actions).Some? {
        var i :| 0 <= i < |actions[1..]| && CheckAction(actions[1..][i]) == CheckEach(actions)
                 && forall j | 0 <= j < i :: CheckAction(actions[1..][j]).None?;
        assert forall j | 0 < j < i + 1 :: actions[j] == actions[1..][j - 1];
        assert CheckAction(actions[i + 1]) == CheckEach(actions);
      }
    }
  }

  ghost predicate Filled(a: ActionSpec) {
    !Blank(a.actionCode) && !Blank(a.title) && !Blank(a.who) && !Blank(a.evidenceRequired)
  }

  ghost predicate Listed(a: ActionSpec) {
    Filled(a) && a.responseKind in RESPONSE_KINDS && a.contentMix in CONTENT_MIXES
  }

  /** The next number is one above the highest stored, or 1. */
  lemma NextVersionExactly(rows: seq<ActionRow>)
    ensures rows == [] ==> NextVersion(rows) == 1
    ensures rows != [] ==> VersionStored(rows, NextVersion(rows) - 1)
    ensures forall r | r in rows :: r.window.version <= NextVersion(rows) - 1
  {
  }

  // ----- Changing a mix -----

  /** A change is refused for a mix that is none or an action that is not in force, and one
      to the mix the action has answers with its version; none of these writes anything. */
  lemma MixRefusedExactly(rows: seq<ActionRow>, code: string, mix: string, start: int)
    requires Sound(rows)
    ensures var o, offered := MixOutcome(rows, code, mix, start), LoadActive(rows, start);
            && (o.result == Err(NotAContentMix(mix)) <==> mix !in CONTENT_MIXES)
            && (o.result == Err(NoSuchAction(code)) <==>
                  mix in CONTENT_MIXES && forall r | r in offered :: r.spec.actionCode != code)
            && (o.result.Err? ==> o.rows == rows)
            && forall r | r in offered && mix in CONTENT_MIXES && r.spec.actionCode == code ::
                 r.spec.contentMix == mix ==> o == Outcome(rows, Ok(r.window.version))
  {
    var offered := LoadActive(rows, start);
    FindDecides(offered, code);
    if MixChanges(rows, code, mix, start) {
      MixSaveAccepted(rows, code, mix, start);
    }
    var active := ActiveVersion(Windows(rows), start);
    if active.Some? {
      OfVersionSound(rows, active.value);
    }
    forall r | r in offered && r.spec.actionCode == code ensures Find(offered, code) == Some(r) {
      var k :| 0 <= k < |offered| && offered[k] == r;
      FindIsAt(offered, code, k);
    }
  }

  lemma {:induction false} FindDecides(rows: seq<ActionRow>, code: string)
    ensures Find(rows, code).None? <==> forall r | r in rows :: r.spec.actionCode != code
  {
    if rows != [] {
      FindDecides(rows[1..], code);
      assert forall r :: r in rows <==> r == rows[0] || r in rows[1..];
    }
  }

  /** What a mix change adds for an action that was offered. */
  function Remixed(was: ActionSpec, code: string, mix: string): ActionSpec {
    if was.actionCode != code then was
    else
      ActionSpec(
        was.actionCode, was.title, was.who, was.evidenceRequired, was.responseKind, mix,
        was.defaultPermission, was.messageAngle, was.channel, was.moneyCeilingKes, was.paused)
  }

  lemma MixOutcomeIs(rows: seq<ActionRow>, code: string, mix: string, start: int)
    requires Sound(rows) && MixChanges(rows, code, mix, start)
    ensures MixOutcome(rows, code, mix, start).result == Ok(NextVersion(rows))
    ensures SaveOutcome(rows, MixSave(rows, code, mix, start)).result.Ok?
    ensures MixOutcome(rows, code, mix, start).rows == SaveOutcome(rows, MixSave(rows, code, mix, start)).rows
  {
    MixSaveAccepted(rows, code, mix, start);
  }

  /** A mix change ends every stored published row still open on its start date, changes no
      other stored row, and adds the offered actions with that one mix replaced. */
  lemma MixWritesExactly(rows: seq<ActionRow>, code: string, mix: string, start: int)
    requires Sound(rows) && MixChanges(rows, code, mix, start)
    ensures var o, offered := MixOutcome(rows, code, mix, start), LoadActive(rows, start);
            && |o.rows| == |rows| + |offered| && o.result == Ok(NextVersion(rows))
            && (forall i | 0 <= i < |rows| :: o.rows[i] == EndedBy(rows[i], NextVersion(rows), start))
            && forall k | 0 <= k < |offered| ::
                 o.rows[|rows| + k]
                 == ActionRow(Remixed(offered[k].spec, code, mix),
                              Window(NextVersion(rows), Some(start), None), Published)
    ensures forall i | 0 <= i < |rows| :: rows[i].window.version < NextVersion(rows)
  {
    var s, offered := MixSave(rows, code, mix, start), LoadActive(rows, start);
    MixOutcomeIs(rows, code, mix, start);
    SaveWritesExactly(rows, s);
    MixSaveSays(rows, code, mix, start);
    NextVersionExactly(rows);
    assert forall i | 0 <= i < |rows| :: rows[i] in rows;
  }

  lemma MixSaveSays(rows: seq<ActionRow>, code: string, mix: string, start: int)
    ensures var s, offered := MixSave(rows, code, mix, start), LoadActive(rows, start);
            && s.version == NextVersion(rows) && s.validFrom == start && s.validTo == None && s.closePrevious
            && |s.actions| == |offered|
            && forall k | 0 <= k < |offered| :: s.actions[k] == Remixed(offered[k].spec, code, mix)
  {
  }
}
