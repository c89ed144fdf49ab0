/** The `TimeZone` value object: a display name and a fixed offset from
    UTC, validated when it is built and compared by name and offset. */
module TimeZones {

  import opened Wrappers
  import opened Text

  /** Bounds of the offset, in minutes: -12:00 and +14:00. */
  const MinOffset: int := -720
  const MaxOffset: int := 840
  /** Largest magnitude accepted for the minutes component. */
  const MaxMinutes: int := 59
  /** Largest magnitude of the `days` field of a Python `timedelta`. */
  const MaxTimedeltaDays: int := 999999999

  const EmptyNameMessage := "Timezone name cannot be empty."
  const MinutesMessage := "Minutes offset must be in range (-59,59."
  const OffsetMessage := " Offset must be between -12:00 - +14:00."

  /** The stored state of a `TimeZone`: the stripped name, the two raw
      components as given, and the derived offset in minutes. */
  datatype TimeZone = TimeZone(name: string, offsetHours: int, offsetMinutes: int, offset: int)

  /** What every constructed `TimeZone` satisfies. */
  predicate Valid(z: TimeZone) {
    && z.name != []
    && Trim(z.name) == z.name
    && -MaxMinutes <= z.offsetMinutes <= MaxMinutes
    && z.offset == 60 * z.offsetHours + z.offsetMinutes
    && MinOffset <= z.offset <= MaxOffset
  }

  /** `timedelta(minutes=m)` is representable: its day count, rounded
      down, has magnitude at most 999999999. */
  predicate TimedeltaFits(minutes: int) {
    -MaxTimedeltaDays <= minutes / 1440 <= MaxTimedeltaDays
  }

  /** Range of a C `int`, the type CPython's `timedelta` stores its day
      count in. */
  const CIntMin: int := -0x8000_0000
  const CIntMax: int := 0x7FFF_FFFF

  /** The text of the `OverflowError` a `timedelta` of `days` days raises
      in CPython: a count that does not fit a C `int` fails its conversion;
      one that fits fails the range check, which names the count. */
  function TimedeltaOverflowMessage(days: int): string {
    if days < CIntMin || days > CIntMax then "Python int too large to convert to C int"
    else "days=" + IntToString(days) + "; must have magnitude <= 999999999"
  }

  /** `TimeZone(name, offset_hours, offset_minutes)`: the checks run in the
      source's order, each raising `ValueError` with its own message; an
      offset too large for a `timedelta` raises `OverflowError` before the
      range check is reached. */
  function NewTimeZone(name: string, offsetHours: int, offsetMinutes: int): (r: Result<TimeZone>)
    ensures r.Success? <==>
      && Trim(name) != []
      && -MaxMinutes <= offsetMinutes <= MaxMinutes
      && MinOffset <= 60 * offsetHours + offsetMinutes <= MaxOffset
    ensures r.Success? ==>
      && r.value.name == Trim(name)
      && r.value.offsetHours == offsetHours
      && r.value.offsetMinutes == offsetMinutes
      && r.value.offset == 60 * offsetHours + offsetMinutes
    ensures Trim(name) == [] ==> r == Failure(ValueError(EmptyNameMessage))
    ensures Trim(name) != [] && !(-MaxMinutes <= offsetMinutes <= MaxMinutes) ==>
      r == Failure(ValueError(MinutesMessage))
    ensures (&& Trim(name) != []
             && -MaxMinutes <= offsetMinutes <= MaxMinutes
             && TimedeltaFits(60 * offsetHours + offsetMinutes)
             && !(MinOffset <= 60 * offsetHours + offsetMinutes <= MaxOffset))
      ==> r == Failure(ValueError(OffsetMessage))
    ensures (&& Trim(name) != []
             && -MaxMinutes <= offsetMinutes <= MaxMinutes
             && !TimedeltaFits(60 * offsetHours + offsetMinutes))
      ==> r == Failure(OverflowError(TimedeltaOverflowMessage((60 * offsetHours + offsetMinutes) / 1440)))
  {
    var stripped := Trim(name);
    if stripped == [] then Failure(ValueError(EmptyNameMessage))
    else if offsetMinutes > MaxMinutes || offsetMinutes < -MaxMinutes then
      Failure(ValueError(MinutesMessage))
    else
      var offset := 60 * offsetHours + offsetMinutes;
      if !TimedeltaFits(offset) then
        assert offset < MinOffset || offset > MaxOffset;
        Failure(OverflowError(TimedeltaOverflowMessage(offset / 1440)))
      else if offset > MaxOffset || offset < MinOffset then
        Failure(ValueError(OffsetMessage))
      else
        Success(TimeZone(stripped, offsetHours, offsetMinutes, offset))
  }

  /** Every zone the constructor returns satisfies the invariant. */
  lemma NewTimeZoneValid(name: string, offsetHours: int, offsetMinutes: int)
    requires NewTimeZone(name, offsetHours, offsetMinutes).Success?
    ensures Valid(NewTimeZone(name, offsetHours, offsetMinutes).value)
  {
    TrimIdempotent(name);
  }

  /** The default zone the source builds as `TimeZone('UTC', 0, 0)`. */
  const Utc: TimeZone := TimeZone("UTC", 0, 0, 0)

  /** `TimeZone.__eq__`: same name and same offset; the raw components
      are not compared. */
  predicate Same(a: TimeZone, b: TimeZone) {
    a.name == b.name && a.offset == b.offset
  }

  /** The constant `Utc` is what the source's `TimeZone('UTC', 0, 0)`
      builds. */
  lemma UtcIsConstructed()
    ensures NewTimeZone("UTC", 0, 0) == Success(Utc)
  {
    assert !IsSpace('U') && !IsSpace('C');
    assert TrimStart("UTC") == "UTC";
    assert TrimEnd("UTC") == "UTC";
  }

  /** Both ends of the offset range are accepted; one minute beyond either
      end, and minutes of magnitude 60, are refused. */
  lemma OffsetBoundaries(name: string)
    requires Trim(name) != []
    ensures NewTimeZone(name, -12, 0).Success?
    ensures NewTimeZone(name, 14, 0).Success?
    ensures NewTimeZone(name, 14, 1) == Failure(ValueError(OffsetMessage))
    ensures NewTimeZone(name, -12, -1) == Failure(ValueError(OffsetMessage))
    ensures NewTimeZone(name, 0, 60) == Failure(ValueError(MinutesMessage))
    ensures NewTimeZone(name, 0, -60) == Failure(ValueError(MinutesMessage))
  {
  }

  /** Zone equality is an equivalence relation. */
  lemma SameIsEquivalence(a: TimeZone, b: TimeZone, c: TimeZone)
    ensures Same(a, a)
    ensures Same(a, b) ==> Same(b, a)
    ensures Same(a, b) && Same(b, c) ==> Same(a, c)
  {
  }

  /** Two constructed zones are equal exactly when their stripped names
      and their combined offsets agree, whatever the raw components. */
  lemma SameIffNameAndOffset(n1: string, h1: int, m1: int, n2: string, h2: int, m2: int)
    requires NewTimeZone(n1, h1, m1).Success? && NewTimeZone(n2, h2, m2).Success?
    ensures Same(NewTimeZone(n1, h1, m1).value, NewTimeZone(n2, h2, m2).value)
      <==> Trim(n1) == Trim(n2) && 60 * h1 + m1 == 60 * h2 + m2
  {
  }

  /** `TimeZone('X', 1, -30) == TimeZone('X', 0, 30)`: equal zones whose
      stored components differ. */
  lemma SameDespiteDifferentComponents()
    ensures NewTimeZone("X", 1, -30).Success? && NewTimeZone("X", 0, 30).Success?
    ensures Same(NewTimeZone("X", 1, -30).value, NewTimeZone("X", 0, 30).value)
    ensures NewTimeZone("X", 1, -30).value != NewTimeZone("X", 0, 30).value
  {
    assert !IsSpace('X');
    assert TrimStart("X") == "X";
    assert TrimEnd("X") == "X";
  }

  /** An offset of 10^11 hours has 4166666666 days, too many for a C `int`;
      1000000000 days fit one but exceed the `timedelta` range. */
  lemma TimedeltaOverflowMessages()
    ensures NewTimeZone("X", 100000000000, 0)
      == Failure(OverflowError("Python int too large to convert to C int"))
    ensures NewTimeZone("X", 24000000000, 0)
      == Failure(OverflowError(TimedeltaOverflowMessage(1000000000)))
  {
    assert !IsSpace('X');
    assert TrimStart("X") == "X";
    assert TrimEnd("X") == "X";
  }
}
