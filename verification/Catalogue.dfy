/** The versioned action catalogue: validation, the append-only store, and the
    edits made to it (src/app/agents/action_catalog.py and the action-catalogue
    step of migrations/versions/b2d5f8a1c4e7_remaining_actions_on.py). A table is
    the sequence of its rows in catalog_id order. */
module Catalogue {
  import opened Common
  import opened Text
  import opened Validity

  const RESPONSE_KINDS := {
    "automated_email", "advisor_task", "phone_call", "campaign_enrolment", "product_teaching",
    "monitor_only", "escalate", "change_client_state", "ask_a_person_first"}
  const CONTENT_MIXES := {"learning_only", "mostly_learning", "balanced", "mostly_ask"}
  const PERMISSION_LEVELS := {"suggest_only", "approve_each", "approve_sample", "act_alone"}

  datatype ActionSpec = ActionSpec(
    actionCode: string, title: string, who: string, evidenceRequired: string,
    responseKind: string, contentMix: string, defaultPermission: string,
    messageAngle: Option<string>, channel: Option<string>,
    moneyCeilingKes: Option<real>, paused: bool)

  datatype Status = Draft | Published | Archived

  datatype ActionRow = ActionRow(spec: ActionSpec, window: Window, status: Status)

  datatype CatalogueError =
    | EmptyCatalogue
    | DuplicateCodes
    | EmptyField(code: string, field: string)
    | UnknownResponseKind(code: string)
    | UnknownContentMix(code: string)
    | UnknownPermission(code: string)
    | CeilingNotAboveZero(code: string)
    | HalfAMessage(code: string)
    | VersionExists(version: int)
    | NotAContentMix(mix: string)
    | NoSuchAction(code: string)

  // ----- Validation -----

  /** A nullable text column read as a truth value: NULL and "" are both false. */
  predicate Given(s: Option<string>) { s.Some? && s.value != "" }

  /** The first check this action fails, in the order they are made. */
  function CheckAction(a: ActionSpec): Option<CatalogueError> {
    if Blank(a.actionCode) then Some(EmptyField(a.actionCode, "action_code"))
    else if Blank(a.title) then Some(EmptyField(a.actionCode, "title"))
    else if Blank(a.who) then Some(EmptyField(a.actionCode, "who"))
    else if Blank(a.evidenceRequired) then Some(EmptyField(a.actionCode, "evidence_required"))
    else if a.responseKind !in RESPONSE_KINDS then Some(UnknownResponseKind(a.actionCode))
    else if a.contentMix !in CONTENT_MIXES then Some(UnknownContentMix(a.actionCode))
    else if a.defaultPermission !in PERMISSION_LEVELS then Some(UnknownPermission(a.actionCode))
    else if a.moneyCeilingKes.Some? && a.moneyCeilingKes.value <= 0.0 then
      Some(CeilingNotAboveZero(a.actionCode))
    else if (Given(a.messageAngle) || Given(a.channel)) && !(Given(a.messageAngle) && Given(a.channel)) then
      Some(HalfAMessage(a.actionCode))
    else None
  }

  function CheckEach(actions: seq<ActionSpec>): Option<CatalogueError> {
    if actions == [] then None else CheckAction(actions[0]).Or(CheckEach(actions[1..]))
  }

  function ValidateActions(actions: seq<ActionSpec>): Option<CatalogueError> {
    if actions == [] then Some(EmptyCatalogue)
    else if exists i, j | 0 <= i < j < |actions| :: actions[i].actionCode == actions[j].actionCode then
      Some(DuplicateCodes)
    else CheckEach(actions)
  }

  /** What a stored action has to be, said without an order of checking. */
  ghost predicate ActionOk(a: ActionSpec) {
    && !Blank(a.actionCode) && !Blank(a.title) && !Blank(a.who) && !Blank(a.evidenceRequired)
    && a.responseKind in RESPONSE_KINDS && a.contentMix in CONTENT_MIXES
    && a.defaultPermission in PERMISSION_LEVELS
    && (a.moneyCeilingKes.None? || a.moneyCeilingKes.value > 0.0)
    && (Given(a.messageAngle) <==> Given(a.channel))
  }

  ghost predicate CodesDistinct(actions: seq<ActionSpec>) {
    forall i, j | 0 <= i < j < |actions| :: actions[i].actionCode != actions[j].actionCode
  }

  ghost predicate WellFormed(actions: seq<ActionSpec>) {
    actions != [] && CodesDistinct(actions) && forall a | a in actions :: ActionOk(a)
  }

  lemma {:induction false} CheckEachExact(actions: seq<ActionSpec>)
    ensures CheckEach(actions).None? <==> forall a | a in actions :: ActionOk(a)
  {
    if actions != [] {
      CheckEachExact(actions[1..]);
      assert CheckAction(actions[0]).None? <==> ActionOk(actions[0]);
      assert forall a :: a in actions <==> a == actions[0] || a in actions[1..];
    }
  }

  /** Validation passes exactly the well-formed catalogues. */
  lemma ValidateExact(actions: seq<ActionSpec>)
    ensures ValidateActions(actions).None? <==> WellFormed(actions)
  {
    CheckEachExact(actions);
  }

  // ----- The table -----

  function Windows(rows: seq<ActionRow>): seq<Window> {
    seq(|rows|, i requires 0 <= i < |rows| => rows[i].window)
  }

  function SpecsOf(rows: seq<ActionRow>): seq<ActionSpec> {
    seq(|rows|, i requires 0 <= i < |rows| => rows[i].spec)
  }

  function OfVersion(rows: seq<ActionRow>, version: int): seq<ActionRow> {
    if rows == [] then []
    else
      var rest := OfVersion(rows[1..], version);
      if rows[0].window.version == version then [rows[0]] + rest else rest
  }

  predicate HasVersion(rows: seq<ActionRow>, version: int) {
    exists i | 0 <= i < |rows| :: rows[i].window.version == version
  }

  /** Whether saving `version` with close_previous ends this row. */
  predicate Closes(row: ActionRow, version: int) {
    row.window.version < version && row.status == Published && row.window.validTo.None?
  }

  function Closed(row: ActionRow, version: int, start: int): ActionRow {
    if Closes(row, version) then row.(window := row.window.(validTo := Some(start))) else row
  }

  function CloseEach(rows: seq<ActionRow>, version: int, start: int): seq<ActionRow> {
    seq(|rows|, i requires 0 <= i < |rows| => Closed(rows[i], version, start))
  }

  function NewRows(actions: seq<ActionSpec>, window: Window): seq<ActionRow> {
    seq(|actions|, i requires 0 <= i < |actions| => ActionRow(actions[i], window, Published))
  }

  datatype Save = Save(
    version: int, actions: seq<ActionSpec>, validFrom: int, validTo: Option<int>, closePrevious: bool)
  {
    function NewWindow(): Window { Window(version, Some(validFrom), validTo) }
  }

  function SaveError(rows: seq<ActionRow>, s: Save): Option<CatalogueError> {
    ValidateActions(s.actions).Or(
      if HasVersion(rows, s.version) then Some(VersionExists(s.version)) else None)
  }

  /** The table after a save that was not refused. */
  function Saved(rows: seq<ActionRow>, s: Save): seq<ActionRow> {
    (if s.closePrevious then CloseEach(rows, s.version, s.validFrom) else rows)
    + NewRows(s.actions, s.NewWindow())
  }

  function MaxVersion(rows: seq<ActionRow>): (v: int)
    requires rows != []
    ensures forall r | r in rows :: r.window.version <= v
    ensures exists r | r in rows :: r.window.version == v
  {
    var last := rows[|rows| - 1].window.version;
    if |rows| == 1 then last
    else
      var rest := MaxVersion(rows[..|rows| - 1]);
      assert rows == rows[..|rows| - 1] + [rows[|rows| - 1]];
      if last > rest then last else rest
  }

  function NextVersion(rows: seq<ActionRow>): int {
    (if rows == [] then 0 else MaxVersion(rows)) + 1
  }

  /** Every action in the version in force, in the order it was written. The unique
      key on (version, action_code) makes this the same as the keyed dictionary. */
  function LoadActive(rows: seq<ActionRow>, at: int): seq<ActionRow> {
    match ActiveVersion(Windows(rows), at)
    case None => []
    case Some(v) => OfVersion(rows, v)
  }

  function Find(rows: seq<ActionRow>, code: string): Option<ActionRow> {
    if rows == [] then None
    else if rows[0].spec.actionCode == code then Some(rows[0]) else Find(rows[1..], code)
  }

  function ActionIsPaused(rows: seq<ActionRow>, code: string, at: int): bool {
    var row := Find(LoadActive(rows, at), code);
    row.None? || row.value.spec.paused
  }

  function Unpaused(rows: seq<ActionRow>): seq<ActionRow> {
    if rows == [] then []
    else (if rows[0].spec.paused then [] else [rows[0]]) + Unpaused(rows[1..])
  }

  function SelectableActions(rows: seq<ActionRow>, at: int): seq<ActionRow> {
    Unpaused(LoadActive(rows, at))
  }

  // ----- Changing one action's mix -----

  function WithMix(a: ActionSpec, code: string, mix: string): ActionSpec {
    if a.actionCode == code then a.(contentMix := mix) else a
  }

  function WithMixes(actions: seq<ActionSpec>, code: string, mix: string): seq<ActionSpec> {
    seq(|actions|, i requires 0 <= i < |actions| => WithMix(actions[i], code, mix))
  }

  function MixSave(rows: seq<ActionRow>, code: string, mix: string, start: int): Save {
    Save(NextVersion(rows), WithMixes(SpecsOf(LoadActive(rows, start)), code, mix), start, None, true)
  }

  datatype Outcome = Outcome(rows: seq<ActionRow>, result: Result<int, CatalogueError>)

  function SaveOutcome(rows: seq<ActionRow>, s: Save): Outcome {
    match SaveError(rows, s)
    case Some(e) => Outcome(rows, Err(e))
    case None => Outcome(Saved(rows, s), Ok(|s.actions|))
  }

  function MixOutcome(rows: seq<ActionRow>, code: string, mix: string, start: int): Outcome {
    if mix !in CONTENT_MIXES then Outcome(rows, Err(NotAContentMix(mix)))
    else
      match Find(LoadActive(rows, start), code)
      case None => Outcome(rows, Err(NoSuchAction(code)))
      case Some(before) =>
        if before.spec.contentMix == mix then Outcome(rows, Ok(before.window.version))
        else
          var s := MixSave(rows, code, mix, start);
          var saved := SaveOutcome(rows, s);
          if saved.result.Ok? then saved.(result := Ok(s.version)) else saved
  }

  /** The catalogue table. */
  class ActionCatalogue {
    var rows: seq<ActionRow>

    constructor ()
      ensures rows == []
    {
      rows := [];
    }

    method SaveVersion(s: Save) returns (r: Result<int, CatalogueError>)
      modifies this
      ensures Outcome(rows, r) == SaveOutcome(old(rows), s)
    {
      var invalid := ValidateActions(s.actions);
      if invalid.Some? {
        return Err(invalid.value);
      }
      if HasVersion(rows, s.version) {
        return Err(VersionExists(s.version));
      }
      if s.closePrevious {
        rows := CloseEach(rows, s.version, s.validFrom);
      }
      rows := rows + NewRows(s.actions, s.NewWindow());
      return Ok(|s.actions|);
    }

    method SetActionContentMix(code: string, mix: string, start: int) returns (r: Result<int, CatalogueError>)
      modifies this
      ensures Outcome(rows, r) == MixOutcome(old(rows), code, mix, start)
    {
      if mix !in CONTENT_MIXES {
        return Err(NotAContentMix(mix));
      }
      var current := LoadActive(rows, start);
      var before := Find(current, code);
      if before.None? {
        return Err(NoSuchAction(code));
      }
      if before.value.spec.contentMix == mix {
        return Ok(before.value.window.version);
      }
      var version := NextVersion(rows);
      r := SaveVersion(Save(version, WithMixes(SpecsOf(current), code, mix), start, None, true));
      if r.Ok? {
        r := Ok(version);
      }
    }
  }
}
