/** The small text settings: the adviser roster and the result windows
    (src/app/config.py) and durations (src/app/durations.py). */
module Roster {
  import opened Common
  import opened Text

  datatype FaRecord = FaRecord(faId: string, name: string, email: string, dailyCapacity: int)

  function StripEach(parts: seq<string>): seq<string> {
    seq(|parts|, i requires 0 <= i < |parts| => Strip(parts[i]))
  }

  /** One entry of the roster; None where it is skipped whatever came before it. */
  function ParseEntry(entry: string): Option<FaRecord> {
    var parts := StripEach(Split(entry, ':'));
    if |parts| != 4 || parts[0] == "" || parts[1] == "" || parts[2] == "" then None
    else
      match ParseInt(parts[3])
      case None => None
      case Some(n) => if n <= 0 then None else Some(FaRecord(parts[0], parts[1], parts[2], n))
  }

  predicate HasId(records: seq<FaRecord>, id: string) {
    exists i | 0 <= i < |records| :: records[i].faId == id
  }

  function ParseEntries(entries: seq<string>): seq<Option<FaRecord>> {
    seq(|entries|, i requires 0 <= i < |entries| => ParseEntry(entries[i]))
  }

  /** One more entry: kept unless it was skipped or its id is already there. */
  function Add(records: seq<FaRecord>, entry: Option<FaRecord>): seq<FaRecord> {
    if entry.None? || HasId(records, entry.value.faId) then records else records + [entry.value]
  }

  /** The records of some parsed entries, in order, each id once. */
  function Collect(parsed: seq<Option<FaRecord>>): seq<FaRecord> {
    if parsed == [] then [] else Add(Collect(parsed[..|parsed| - 1]), parsed[|parsed| - 1])
  }

  function FaRecords(roster: string): seq<FaRecord> { Collect(ParseEntries(Split(roster, ','))) }

  lemma IdsAfter(before: seq<FaRecord>, r: FaRecord)
    ensures forall id :: HasId(before + [r], id) <==> HasId(before, id) || id == r.faId
  {
    var now := before + [r];
    assert now[|before|] == r;
    forall id | HasId(before, id) ensures HasId(now, id) {
      var i :| 0 <= i < |before| && before[i].faId == id;
      assert now[i].faId == id;
    }
  }

  /** The loop over the entries, with the ids seen kept in a set. */
  method ReadRoster(roster: string) returns (records: seq<FaRecord>)
    ensures records == FaRecords(roster)
  {
    var entries := Split(roster, ',');
    ghost var parsed := ParseEntries(entries);
    records := [];
    var seen: set<string> := {};
    for n := 0 to |entries|
      invariant records == Collect(parsed[..n])
      invariant forall id :: id in seen <==> HasId(records, id)
    {
      assert parsed[..n + 1][..n] == parsed[..n];
      var parts := StripEach(Split(entries[n], ':'));
      if |parts| != 4 {
        continue;
      }
      if parts[0] == "" || parts[1] == "" || parts[2] == "" {
        continue;
      }
      var capacity := ParseInt(parts[3]);
      if capacity.None? {
        continue;
      }
      if capacity.value <= 0 || parts[0] in seen {
        continue;
      }
      seen := seen + {parts[0]};
      ghost var before := records;
      records := records + [FaRecord(parts[0], parts[1], parts[2], capacity.value)];
      IdsAfter(before, FaRecord(parts[0], parts[1], parts[2], capacity.value));
    }
    assert parsed[..|entries|] == parsed;
  }

  // ----- What a roster can hold -----

  ghost predicate IdsUnique(records: seq<FaRecord>) {
    forall i, j | 0 <= i < j < |records| :: records[i].faId != records[j].faId
  }

  ghost predicate RecordOk(r: FaRecord) {
    && r.faId != "" && r.name != "" && r.email != "" && r.dailyCapacity > 0
    && Stripped(r.faId) && Stripped(r.name) && Stripped(r.email)
  }

  lemma EntryOk(entry: string)
    requires ParseEntry(entry).Some?
    ensures RecordOk(ParseEntry(entry).value)
  {
    var parts := Split(entry, ':');
    var l, r := StripExact(parts[0]);
    l, r := StripExact(parts[1]);
    l, r := StripExact(parts[2]);
  }

  lemma FourFields(a: string, b: string, c: string, d: string)
    requires ':' !in a && ':' !in b && ':' !in c && ':' !in d
    ensures Split(a + ":" + (b + ":" + (c + ":" + d)), ':') == [a, b, c, d]
  {
    SplitNone(a, ':');
    SplitNone(b, ':');
    SplitNone(c, ':');
    SplitNone(d, ':');
    SplitJoined(c, d, ':');
    SplitJoined(b, c + ":" + d, ':');
    SplitJoined(a, b + ":" + (c + ":" + d), ':');
  }

  function RecordOf(a: string, b: string, c: string, n: Option<int>): Option<FaRecord> {
    if a == "" || b == "" || c == "" || n.None? || n.value <= 0 then None else Some(FaRecord(a, b, c, n.value))
  }

  /** An entry of four fields is the record of them stripped, when the first three are not
      blank and the last is a number above zero; else it is skipped. */
  lemma EntryExactly(a: string, b: string, c: string, d: string)
    requires ':' !in a && ':' !in b && ':' !in c && ':' !in d
    ensures ParseEntry(a + ":" + (b + ":" + (c + ":" + d)))
         == RecordOf(Strip(a), Strip(b), Strip(c), ParseInt(Strip(d)))
  {
    FourFields(a, b, c, d);
  }

  /** A field counts as empty exactly when it is blank. */
  lemma BlankStripped(s: string)
    ensures Strip(s) == "" <==> Blank(s)
  {
    var left, right := StripExact(s);
    if Strip(s) == "" {
      assert s == left + right;
    } else {
      assert s[|left|] == Strip(s)[0];
    }
  }

  /** An entry with any other number of fields is skipped. */
  lemma OtherEntriesSkipped(entry: string)
    requires |Split(entry, ':')| != 4
    ensures ParseEntry(entry).None?
  {
  }

  lemma {:induction false} CollectOk(parsed: seq<Option<FaRecord>>)
    requires forall i | 0 <= i < |parsed| && parsed[i].Some? :: RecordOk(parsed[i].value)
    ensures IdsUnique(Collect(parsed))
    ensures forall i | 0 <= i < |Collect(parsed)| :: RecordOk(Collect(parsed)[i])
  {
    if parsed != [] {
      CollectOk(parsed[..|parsed| - 1]);
    }
  }

  /** Whatever the text, the ids are unique, every field is stripped and not empty, and
      every capacity is above zero. */
  lemma RosterOk(roster: string)
    ensures IdsUnique(FaRecords(roster))
    ensures forall i | 0 <= i < |FaRecords(roster)| :: RecordOk(FaRecords(roster)[i])
  {
    var entries := Split(roster, ',');
    forall i | 0 <= i < |entries| && ParseEntry(entries[i]).Some? ensures RecordOk(ParseEntry(entries[i]).value) {
      EntryOk(entries[i]);
    }
    CollectOk(ParseEntries(entries));
  }

  // ----- Joining rosters -----

  /** The records whose id is not already among `seen`. */
  function Unseen(records: seq<FaRecord>, seen: seq<FaRecord>): seq<FaRecord> {
    if records == [] then []
    else
      var before, last := Unseen(records[..|records| - 1], seen), records[|records| - 1];
      if HasId(seen, last.faId) then before else before + [last]
  }

  lemma HasIdAppended(a: seq<FaRecord>, b: seq<FaRecord>, id: string)
    ensures HasId(a + b, id) <==> HasId(a, id) || HasId(b, id)
  {
    var all := a + b;
    if i :| 0 <= i < |a| && a[i].faId == id {
      assert all[i].faId == id;
    }
    if i :| 0 <= i < |b| && b[i].faId == id {
      assert all[|a| + i].faId == id;
    }
  }

  lemma {:induction false} UnseenHas(records: seq<FaRecord>, seen: seq<FaRecord>, id: string)
    ensures HasId(Unseen(records, seen), id) <==> HasId(records, id) && !HasId(seen, id)
  {
    if records != [] {
      var rest, last := records[..|records| - 1], records[|records| - 1];
      UnseenHas(rest, seen, id);
      HasIdAppended(rest, [last], id);
      HasIdAppended(Unseen(rest, seen), [last], id);
      assert records == rest + [last];
      assert HasId([last], id) <==> last.faId == id by {
        assert [last][0] == last;
      }
    }
  }

  lemma UnseenAdded(more: seq<FaRecord>, seen: seq<FaRecord>, entry: Option<FaRecord>)
    ensures seen + Unseen(Add(more, entry), seen) == Add(seen + Unseen(more, seen), entry)
  {
    if entry.Some? {
      var r := entry.value;
      HasIdAppended(seen, Unseen(more, seen), r.faId);
      UnseenHas(more, seen, r.faId);
      if !HasId(more, r.faId) {
        assert (more + [r])[..|more|] == more;
      }
    }
  }

  lemma {:induction false} CollectAppended(a: seq<Option<FaRecord>>, b: seq<Option<FaRecord>>)
    ensures Collect(a + b) == Collect(a) + Unseen(Collect(b), Collect(a))
  {
    if b == [] {
      assert a + b == a;
    } else {
      var init, last := b[..|b| - 1], b[|b| - 1];
      CollectAppended(a, init);
      assert (a + b)[..|a + b| - 1] == a + init;
      UnseenAdded(Collect(init), Collect(a), last);
    }
  }

  /** Two rosters joined by a comma hold the records of the first, then those of the
      second whose id the first does not have. */
  lemma RostersJoin(a: string, b: string)
    ensures FaRecords(a + "," + b) == FaRecords(a) + Unseen(FaRecords(b), FaRecords(a))
  {
    SplitJoined(a, b, ',');
    var x, y := Split(a, ','), Split(b, ',');
    assert ParseEntries(x + y) == ParseEntries(x) + ParseEntries(y);
    CollectAppended(ParseEntries(x), ParseEntries(y));
  }

  // ----- Printing a roster -----

  function PrintRecord(r: FaRecord): string
    requires r.dailyCapacity > 0
  {
    r.faId + ":" + (r.name + ":" + (r.email + ":" + Print(r.dailyCapacity)))
  }

  ghost predicate Printable(r: FaRecord) {
    && RecordOk(r)
    && ':' !in r.faId && ':' !in r.name && ':' !in r.email
    && ',' !in r.faId && ',' !in r.name && ',' !in r.email
  }

  lemma DigitsHold(n: nat, c: char)
    requires !IsDigit(c)
    ensures c !in Print(n)
  {
    PrintExact(n);
  }

  lemma RecordFields(r: FaRecord)
    requires Printable(r)
    ensures Split(PrintRecord(r), ':') == [r.faId, r.name, r.email, Print(r.dailyCapacity)]
  {
    var number := Print(r.dailyCapacity);
    DigitsHold(r.dailyCapacity, ':');
    SplitNone(number, ':');
    SplitNone(r.email, ':');
    SplitNone(r.name, ':');
    SplitNone(r.faId, ':');
    SplitJoined(r.email, number, ':');
    SplitJoined(r.name, r.email + ":" + number, ':');
    SplitJoined(r.faId, r.name + ":" + (r.email + ":" + number), ':');
  }

  lemma RecordParses(r: FaRecord)
    requires Printable(r)
    ensures ParseEntry(PrintRecord(r)) == Some(r)
  {
    RecordFields(r);
    StripIsSame(r.faId);
    StripIsSame(r.name);
    StripIsSame(r.email);
    ParsePrinted(r.dailyCapacity);
    PrintExact(r.dailyCapacity);
    StripIsSame(Print(r.dailyCapacity));
  }

  function PrintRoster(records: seq<FaRecord>): string
    requires records != [] && forall i | 0 <= i < |records| :: records[i].dailyCapacity > 0
  {
    if |records| == 1 then PrintRecord(records[0])
    else PrintRoster(records[..|records| - 1]) + "," + PrintRecord(records[|records| - 1])
  }

  lemma OneEntry(r: FaRecord)
    requires Printable(r)
    ensures FaRecords(PrintRecord(r)) == [r]
  {
    DigitsHold(r.dailyCapacity, ',');
    assert ',' !in PrintRecord(r);
    SplitNone(PrintRecord(r), ',');
    RecordParses(r);
    OneRecord(PrintRecord(r), r);
  }

  lemma OneRecord(entry: string, r: FaRecord)
    requires ParseEntry(entry) == Some(r)
    ensures Collect(ParseEntries([entry])) == [r]
  {
    assert ParseEntries([entry]) == [Some(r)];
    assert [Some(r)][..0] == [] && Collect([Some(r)]) == Add(Collect([]), Some(r));
  }

  lemma UnseenNew(seen: seq<FaRecord>, r: FaRecord)
    requires !HasId(seen, r.faId)
    ensures Unseen([r], seen) == [r]
  {
    assert [r][..0] == [];
  }

  /** Printing records that could have come from a roster and reading them gives them back. */
  lemma {:induction false} RosterRoundTrip(records: seq<FaRecord>)
    requires records != [] && IdsUnique(records)
    requires forall i | 0 <= i < |records| :: Printable(records[i]) && records[i].dailyCapacity > 0
    ensures FaRecords(PrintRoster(records)) == records
  {
    var last := records[|records| - 1];
    OneEntry(last);
    if |records| > 1 {
      var init := records[..|records| - 1];
      RosterRoundTrip(init);
      RostersJoin(PrintRoster(init), PrintRecord(last));
      UnseenNew(init, last);
      assert records == init + [last];
    }
  }

  // ----- Result windows -----

  datatype TextError = NotANumber | NotADuration

  /** A set of numbers kept in ascending order. */
  function InsertDay(n: int, days: seq<int>): seq<int> {
    if days == [] || n < days[0] then [n] + days
    else if n == days[0] then days
    else [days[0]] + InsertDay(n, days[1..])
  }

  /** The numbers listed; None where some part that is not blank does not parse. */
  function DaysOf(parts: seq<string>): Option<seq<int>> {
    if parts == [] then Some([])
    else
      var rest := DaysOf(parts[1..]);
      if Strip(parts[0]) == "" then rest
      else
        match (ParseInt(parts[0]), rest)
        case (Some(n), Some(days)) => Some(InsertDay(n, days))
        case _ => None
  }

  function Positive(days: seq<int>): seq<int> {
    if days == [] then [] else (if days[0] > 0 then [days[0]] else []) + Positive(days[1..])
  }

  function ResultWindows(text: string): Result<seq<int>, TextError> {
    match DaysOf(Split(text, ','))
    case None => Err(NotANumber)
    case Some(days) => Ok(Positive(days))
  }

  ghost predicate Ascending(days: seq<int>) { forall i, j | 0 <= i < j < |days| :: days[i] < days[j] }

  lemma {:induction false} InsertDayExact(n: int, days: seq<int>)
    requires Ascending(days)
    ensures Ascending(InsertDay(n, days))
    ensures forall d :: d in InsertDay(n, days) <==> d == n || d in days
  {
    if days != [] && n > days[0] {
      InsertDayExact(n, days[1..]);
      var rest := InsertDay(n, days[1..]);
      forall i | 0 <= i < |rest| ensures days[0] < rest[i] {
        assert rest[i] in rest;
      }
    }
  }

  lemma {:induction false} PositiveExact(days: seq<int>)
    requires Ascending(days)
    ensures Ascending(Positive(days))
    ensures forall d :: d in Positive(days) <==> d in days && d > 0
  {
    if days != [] {
      PositiveExact(days[1..]);
      var rest := Positive(days[1..]);
      forall i | 0 <= i < |rest| ensures days[0] < rest[i] {
        assert rest[i] in rest;
      }
    }
  }

  /** Whether some part reads as this number. */
  ghost predicate Lists(parts: seq<string>, d: int) {
    exists i | 0 <= i < |parts| :: Strip(parts[i]) != "" && ParseInt(parts[i]) == Some(d)
  }

  ghost predicate AllParse(parts: seq<string>) {
    forall i | 0 <= i < |parts| :: Strip(parts[i]) == "" || ParseInt(parts[i]).Some?
  }

  lemma ListsFirst(parts: seq<string>, d: int)
    requires parts != []
    ensures Lists(parts, d) <==>
              (Strip(parts[0]) != "" && ParseInt(parts[0]) == Some(d)) || Lists(parts[1..], d)
    ensures AllParse(parts) <==> (Strip(parts[0]) == "" || ParseInt(parts[0]).Some?) && AllParse(parts[1..])
  {
    assert forall i | 0 <= i < |parts| - 1 :: parts[1..][i] == parts[i + 1];
  }

  lemma {:induction false} DaysExact(parts: seq<string>)
    ensures DaysOf(parts).Some? <==> AllParse(parts)
    ensures DaysOf(parts).Some? ==>
              Ascending(DaysOf(parts).value) && forall d :: d in DaysOf(parts).value <==> Lists(parts, d)
  {
    if parts != [] {
      DaysExact(parts[1..]);
      forall d ensures Lists(parts, d) <==>
        (Strip(parts[0]) != "" && ParseInt(parts[0]) == Some(d)) || Lists(parts[1..], d)
      {
        ListsFirst(parts, d);
      }
      ListsFirst(parts, 0);
      if DaysOf(parts).Some? && Strip(parts[0]) != "" {
        InsertDayExact(ParseInt(parts[0]).value, DaysOf(parts[1..]).value);
      }
    }
  }

  /** The windows are the positive numbers listed, each once, from the shortest up; the
      setting is refused exactly when some part is neither blank nor a number. */
  lemma WindowsExact(text: string)
    ensures ResultWindows(text).Ok? <==> AllParse(Split(text, ','))
    ensures ResultWindows(text).Ok? ==>
              && Ascending(ResultWindows(text).value)
              && forall d :: d in ResultWindows(text).value <==> d > 0 && Lists(Split(text, ','), d)
  {
    DaysExact(Split(text, ','));
    if DaysOf(Split(text, ',')).Some? {
      PositiveExact(DaysOf(Split(text, ',')).value);
    }
  }

  // ----- Durations -----

  function UnitHours(c: char): nat {
    if c == 'h' || c == 'H' then 1 else if c == 'd' || c == 'D' then 24 else 0
  }

  /** A number and a unit, with blanks allowed anywhere around them. */
  function ParseHours(text: string): Result<nat, TextError> {
    var s := Strip(text);
    var unit := if s == "" then 0 else UnitHours(s[|s| - 1]);
    var number := if s == "" then "" else StripRight(s[..|s| - 1]);
    if unit != 0 && number != "" && AllDigits(number) && Value(number) * unit > 0 then Ok(Value(number) * unit)
    else Err(NotADuration)
  }

  /** The pattern, read as a way to cut the text up. */
  ghost predicate Fits(text: string, hours: nat, left: string, number: string, gap: string, unit: char, right: string) {
    && text == left + number + gap + [unit] + right
    && Blank(left) && Blank(gap) && Blank(right)
    && number != "" && AllDigits(number)
    && ((unit in {'h', 'H'} && hours == Value(number)) || (unit in {'d', 'D'} && hours == 24 * Value(number)))
  }

  ghost predicate IsDuration(text: string, hours: nat) {
    exists left: string, number: string, gap: string, unit: char, right: string ::
      Fits(text, hours, left, number, gap, unit, right)
  }

  lemma DurationParses(text: string, left: string, number: string, gap: string, unit: char, right: string)
    requires text == left + number + gap + [unit] + right
    requires Blank(left) && Blank(gap) && Blank(right)
    requires number != "" && AllDigits(number) && UnitHours(unit) != 0 && Value(number) * UnitHours(unit) > 0
    ensures ParseHours(text) == Ok(Value(number) * UnitHours(unit))
  {
    var middle := number + gap + [unit];
    assert text == left + middle + right;
    assert IsDigit(number[0]) && IsDigit(number[|number| - 1]);
    StripPads(left, middle, right);
    assert middle[..|middle| - 1] == number + gap;
    StripRightPads(number, gap);
  }

  lemma CutUp(s: string) returns (gap: string)
    requires s != ""
    ensures s == StripRight(s[..|s| - 1]) + gap + [s[|s| - 1]]
    ensures Blank(gap)
  {
    var body := s[..|s| - 1];
    StripRightExact(body);
    gap := body[|StripRight(body)|..];
    assert body == StripRight(body) + gap;
  }

  lemma Around(text: string, left: string, s: string, right: string, number: string, gap: string, unit: char)
    requires text == left + s + right && s == number + gap + [unit]
    ensures text == left + number + gap + [unit] + right
  {
  }

  lemma ParsedIsDuration(text: string)
    requires ParseHours(text).Ok?
    ensures IsDuration(text, ParseHours(text).value)
  {
    var s := Strip(text);
    var left, right := StripExact(text);
    var gap := CutUp(s);
    Around(text, left, s, right, StripRight(s[..|s| - 1]), gap, s[|s| - 1]);
    assert Fits(text, ParseHours(text).value, left, StripRight(s[..|s| - 1]), gap, s[|s| - 1], right);
  }

  lemma FittingParses(text: string, hours: nat)
    requires IsDuration(text, hours) && hours > 0
    ensures ParseHours(text) == Ok(hours)
  {
    var left, number, gap, unit, right :| Fits(text, hours, left, number, gap, unit, right);
    DurationParses(text, left, number, gap, unit, right);
  }

  /** A text is a duration of some hours exactly when it fits the pattern with that many,
      and more than none; anything else is refused. */
  lemma ParseHoursExact(text: string, hours: nat)
    ensures ParseHours(text) == Ok(hours) <==> IsDuration(text, hours) && hours > 0
  {
    if ParseHours(text) == Ok(hours) {
      ParsedIsDuration(text);
    }
    if IsDuration(text, hours) && hours > 0 {
      FittingParses(text, hours);
    }
  }

  /** Reading a printed duration gives it back. */
  lemma DurationRoundTrip(n: nat, unit: char)
    requires n > 0 && unit in {'h', 'H', 'd', 'D'}
    ensures ParseHours(Print(n) + [unit]) == Ok(n * UnitHours(unit))
    ensures unit in {'h', 'H'} ==> ParseHours(Print(n) + [unit]) == Ok(n)
    ensures unit in {'d', 'D'} ==> ParseHours(Print(n) + [unit]) == Ok(24 * n)
  {
    PrintExact(n);
    Scaled(n, UnitHours(unit));
    NumberAndUnit(Print(n), unit);
  }

  lemma NumberAndUnit(number: string, unit: char)
    requires number != "" && AllDigits(number) && UnitHours(unit) != 0 && Value(number) * UnitHours(unit) > 0
    ensures ParseHours(number + [unit]) == Ok(Value(number) * UnitHours(unit))
  {
    assert number + [unit] == "" + number + "" + [unit] + "";
    DurationParses(number + [unit], "", number, "", unit, "");
  }

  lemma Scaled(n: nat, k: nat)
    requires n > 0 && k > 0
    ensures n * k > 0
  {
  }
}
