/**
 * The behaviour attached to the food-entry record: the fields a stored
 * entry must carry, the "clock time" display string built from the
 * seconds-in-day `time`, and the rewrite applied to an entry's dictionary
 * when it is turned into JSON.
 */
module Entries {
  import opened Results
  import opened Strings
  import opened ObjectIds

  // ---------------------------------------------------------------------
  // Required fields

  /** Milliseconds since the epoch, the content of a stored date. */
  type Date = int

  /** An entry as given to the schema; `None` is a field left undefined. */
  datatype EntryFields = EntryFields(
    description: Option<string>,
    date: Option<Date>,
    time: Option<int>,      // seconds in day
    calories: Option<int>,
    user: Option<ObjectId>)

  datatype EntryPath = DatePath | TimePath | CaloriesPath | UserPath

  /** The required paths an entry leaves undefined, in schema order. */
  function MissingEntryPaths(e: EntryFields): (r: seq<EntryPath>)
    ensures DatePath in r <==> e.date.None?
    ensures TimePath in r <==> e.time.None?
    ensures CaloriesPath in r <==> e.calories.None?
    ensures UserPath in r <==> e.user.None?
    ensures forall i, j :: 0 <= i < j < |r| ==> r[i] != r[j]
  {
    (if e.date.None? then [DatePath] else [])
    + (if e.time.None? then [TimePath] else [])
    + (if e.calories.None? then [CaloriesPath] else [])
    + (if e.user.None? then [UserPath] else [])
  }

  predicate IsValidEntry(e: EntryFields) {
    MissingEntryPaths(e) == []
  }

  /** Valid exactly when date, time, calories and user are present; the description never matters. */
  lemma ValidEntryIff(e: EntryFields)
    ensures IsValidEntry(e) <==> e.date.Some? && e.time.Some? && e.calories.Some? && e.user.Some?
    ensures IsValidEntry(e) <==> IsValidEntry(e.(description := None))
  {
  }

  // ---------------------------------------------------------------------
  // Clock time

  /** Whole hours elapsed: the hour lies in 0..23 for a seconds-in-day value. */
  function Hour(time: nat): (h: nat)
    ensures h * 3600 <= time < (h + 1) * 3600
    ensures time < 86400 ==> h < 24
  {
    time / 3600
  }

  /** Whole minutes elapsed within the current hour. */
  function Minute(time: nat): (m: nat)
    ensures m < 60
    ensures Hour(time) * 3600 + m * 60 <= time < Hour(time) * 3600 + (m + 1) * 60
  {
    (time % 3600) / 60
  }

  /**
   * The minute field as the getter builds it. The padding test is `> 10`,
   * so 10 is padded as well and comes out as "010".
   */
  function MinuteField(m: nat): (s: string)
    ensures AllDigits(s) && DecimalValue(s) == m
    ensures m < 10 ==> |s| == 2 && s[0] == '0'
    ensures m == 10 ==> s == "010"
    ensures 10 < m < 100 ==> |s| == 2 && s[0] != '0'
  {
    DecimalRoundTrip(m);
    NatToStringLength(m);
    if m > 10 then NatToString(m)
    else
      LeadingZero(NatToString(m));
      "0" + NatToString(m)
  }

  /** The `clockTime` display string: hour, one colon, minute field. */
  function ClockTime(time: nat): (s: string)
    ensures ParseClock(s) == Some(Reading(Hour(time), Minute(time)))
    ensures multiset(s)[':'] == 1
    ensures s[0] == '0' ==> s[1] == ':'
  {
    var h := NatToString(Hour(time));
    var s := h + ":" + MinuteField(Minute(time));
    DecimalRoundTrip(Hour(time));
    ParseJoined(h, MinuteField(Minute(time)));
    s
  }

  // The reading of a display string, used as the partner of ClockTime.

  datatype Reading = Reading(hour: nat, minute: nat)

  /** Splits at the first colon; both sides must be non-empty decimal digits. */
  function ParseClock(s: string): Option<Reading> {
    if ':' !in s then None
    else
      var k := FirstIndex(s, ':');
      var hour, minute := s[..k], s[k + 1..];
      if hour != [] && minute != [] && AllDigits(hour) && AllDigits(minute)
      then Some(Reading(DecimalValue(hour), DecimalValue(minute)))
      else None
  }

  /** Joining two non-empty digit strings with a colon parses back into the two values. */
  lemma ParseJoined(h: string, m: string)
    requires h != [] && m != [] && AllDigits(h) && AllDigits(m)
    ensures ParseClock(h + ":" + m) == Some(Reading(DecimalValue(h), DecimalValue(m)))
    ensures multiset(h + ":" + m)[':'] == 1
  {
    var s := h + ":" + m;
    assert ':' !in h;
    FirstIndexOfJoin(h, ':', m);
    assert ':' !in multiset(h) && ':' !in multiset(m);
    assert multiset(s) == multiset(h) + multiset{':'} + multiset(m);
  }

  /** Exactly ten minutes past an hour renders the minute field as "010". */
  lemma ClockTimeTenMinutes(time: nat)
    requires Minute(time) == 10
    ensures ClockTime(time) == NatToString(Hour(time)) + ":010"
  {
  }

  /** At 600 seconds past midnight the getter gives "0:010". */
  lemma ClockTimeTenPastMidnight()
    ensures ClockTime(600) == "0:010"
  {
    assert Minute(600) == 10 && Hour(600) == 0;
    ClockTimeTenMinutes(600);
    assert NatToString(0) == "0";
  }

  /** Midnight renders as "0:00": the hour is not zero-padded. */
  lemma ClockTimeMidnight()
    ensures ClockTime(0) == "0:00"
  {
  }

  /** 50400 seconds (2 PM) renders as "14:00". */
  lemma ClockTimeTwoPm()
    ensures ClockTime(50400) == "14:00"
  {
    assert Hour(50400) == 14 && Minute(50400) == 0;
    assert MinuteField(0) == "00";
    NatToStringTwoDigits(14);
    ClockTimeShape(50400);
  }

  /** The display string is the unpadded hour, a colon, and the minute field. */
  lemma ClockTimeShape(time: nat)
    ensures ClockTime(time) == NatToString(Hour(time)) + ":" + MinuteField(Minute(time))
  {
  }

  // The evident intent of the padding rule, for comparison.

  /** Minute field padded to exactly two digits. */
  function IntendedMinuteField(m: nat): (s: string)
    ensures AllDigits(s) && DecimalValue(s) == m
    ensures m < 100 ==> |s| == 2
  {
    DecimalRoundTrip(m);
    NatToStringLength(m);
    if m >= 10 then NatToString(m)
    else
      LeadingZero(NatToString(m));
      "0" + NatToString(m)
  }

  /** Clock time with a two-digit minute field. */
  function IntendedClockTime(time: nat): (s: string)
    ensures ParseClock(s) == Some(Reading(Hour(time), Minute(time)))
    ensures |s| == |NatToString(Hour(time))| + 3 && s[|s| - 3] == ':'
  {
    var h := NatToString(Hour(time));
    DecimalRoundTrip(Hour(time));
    ParseJoined(h, IntendedMinuteField(Minute(time)));
    h + ":" + IntendedMinuteField(Minute(time))
  }

  /** The getter agrees with the two-digit format at every minute but 10. */
  lemma ClockTimeDiffersOnlyAtTen(time: nat)
    ensures ClockTime(time) == IntendedClockTime(time) <==> Minute(time) != 10
  {
  }

  // ---------------------------------------------------------------------
  // JSON projection

  /** A value held in an entry's plain-object form. */
  datatype Value =
    | Str(s: string)
    | Num(n: int)
    | Bool(b: bool)
    | Oid(id: ObjectId)
    | Null
    | Obj(fields: map<string, Value>)

  /** `v.toString()`; None where the call throws (on null). */
  function ToText(v: Value): (r: Option<string>)
    ensures r.None? <==> v.Null?
    ensures v.Oid? ==> r == Some(ToHexString(v.id))
    ensures v.Str? ==> r == Some(v.s)
  {
    match v
    case Str(s) => Some(s)
    case Num(n) => Some(IntToString(n))
    case Bool(b) => Some(if b then "true" else "false")
    case Oid(id) => Some(ToHexString(id))
    case Null => None
    case Obj(_) => Some("[object Object]")
  }

  datatype TransformError = IdNotConvertible  // `_id` is undefined or null

  /**
   * The dictionary after the transform: `id` holds the text of the old
   * `_id`; `_id` and `_v` are gone; every other key keeps its value.
   */
  function ProjectToJson(m: map<string, Value>): (r: Result<map<string, Value>, TransformError>)
    ensures r.Failure? <==> "_id" !in m || m["_id"] == Null
    ensures r.Success? ==>
      && r.value.Keys == m.Keys - {"_id", "_v"} + {"id"}
      && r.value["id"].Str? && ToText(m["_id"]) == Some(r.value["id"].s)
      && forall k :: k in m && k != "id" && k != "_id" && k != "_v" ==> r.value[k] == m[k]
  {
    if "_id" !in m then Failure(IdNotConvertible)
    else
      match ToText(m["_id"])
      case None => Failure(IdNotConvertible)
      case Some(text) => Success((m - {"_id", "_v"})["id" := Str(text)])
  }

  /** The transform deletes `_v`, not `__v`: a `__v` key survives with its value. */
  lemma ProjectKeepsDoubleUnderscoreV(m: map<string, Value>)
    requires ProjectToJson(m).Success? && "__v" in m
    ensures "__v" in ProjectToJson(m).value && ProjectToJson(m).value["__v"] == m["__v"]
  {
  }

  /** For a stored identifier, `id` is 24 hex characters that read back as the identifier. */
  lemma ProjectIdRecoversObjectId(m: map<string, Value>)
    requires "_id" in m && m["_id"].Oid? && WellFormed(m["_id"].id)
    ensures ProjectToJson(m).Success?
    ensures |ProjectToJson(m).value["id"].s| == 24
    ensures ParseHex(ProjectToJson(m).value["id"].s) == Some(m["_id"].id.bytes)
  {
    HexRoundTrip(m["_id"].id.bytes);
  }

  /** The plain object handed to the transform, rewritten in place. */
  class JsonObject {
    var fields: map<string, Value>

    constructor (fields0: map<string, Value>)
      ensures fields == fields0
    {
      fields := fields0;
    }

    /** Assigns `id`, then deletes `_id` and `_v`; throws before any change when `_id` has no text. */
    method ApplyTransform() returns (r: Outcome<TransformError>)
      modifies this
      ensures ProjectToJson(old(fields)).Success? ==> r == Pass && fields == ProjectToJson(old(fields)).value
      ensures ProjectToJson(old(fields)).Failure? ==> r == Fail(IdNotConvertible) && fields == old(fields)
    {
      if "_id" !in fields {
        return Fail(IdNotConvertible);
      }
      var text := ToText(fields["_id"]);
      if text.None? {
        return Fail(IdNotConvertible);
      }
      fields := fields["id" := Str(text.value)];
      fields := fields - {"_id"};
      fields := fields - {"_v"};
      r := Pass;
    }
  }
}
