# Bank account confirmation codes, modelled in Dafny

This project models the core of a small Python bank-account class
(`main.py`). It has three parts.

- **`TimeZone` value object.** A display name plus a fixed UTC offset. It
  is validated when built and compared by name and offset.
- **Confirmation-code codec** of `Account`. `generate_confirmation_code`
  writes `<transaction code>-<account number>-<YYYYMMDDHHMMSS>-<sequence id>`.
  The sequence id comes from a counter that every account shares and that
  starts at 100. `parse_confirmation_code` splits a code into its four
  fields and renders the UTC time as ISO text. It also renders the date in
  a preferred zone as `YYYY-MM-DD(name)`.
- **The `Account` record.** Its name validators, its read-only balance, its
  timezone attribute and the class-wide interest rate.

The wall clock (`datetime.utcnow()`) is a parameter. The class-level state
is threaded explicitly as an `AccountClass` value: the counter's next
value and the interest rate. Setters return the updated record.

Modules, one per file:

| file | module | models |
|---|---|---|
| wrappers.dfy | `Wrappers` | `Option`, `Result`, and the Python exceptions raised (`ValueError`, `AttributeError`, `OverflowError`) with their message texts |
| text.dfy | `Text` | `str.strip()` with Python's whitespace set, `str.split('-')`, hyphen joins, `str(int)`, zero-padded digits |
| calendar.dfy | `Calendar` | proleptic Gregorian calendar, `date.toordinal()`, day stepping, `datetime + timedelta(minutes=…)` |
| timestamps.dfy | `Timestamps` | `strftime('%Y%m%d%H%M%S')`, the strict `strptime` inverse, `isoformat()`, `strftime('%Y-%m-%d')` |
| timezones.dfy | `TimeZones` | the `TimeZone` class |
| accounts.dfy | `Accounts` | the `Account` record, name validation, class state, interest rate |
| confirmations.dfy | `Confirmations` | code generation, `make_transaction`, code parsing, the sequence of ids |

The day ordinal (`Calendar.Ordinal`, where 0001-01-01 is day 1) is the
reference for the calendar arithmetic. Adding an offset is proved to land
on the unique valid datetime whose instant is the original instant plus
the offset. The proof does not re-derive carries by hand.

Facts about `main.py` that the model keeps:

- A zone passed to the `Account` constructor is neither checked nor stored.
- `parse_confirmation_code` returns the sequence id as text.
- `datetime.utcnow()` carries microseconds, and `strftime('%Y%m%d%H%M%S')`
  drops them. The decoded UTC time is therefore the clock reading truncated
  to whole seconds. The clock is modelled as a `ClockReading`: a
  whole-second datetime plus its microseconds.

The message `"Minutes offset must be in range (-59,59."` reads like an open
interval, but the check it reports is inclusive. The model keeps the
message text as written and the check as coded.

## Model

| member | source | states |
|---|---|---|
| Text.TrimIsStrip | main.py:10-13 | stripping removes exactly the leading and trailing whitespace: the result is a slice of the input, surrounded only by whitespace, and it neither starts nor ends with whitespace |
| Text.TrimEmptyIffAllSpace | main.py:10-11 | a name is empty after stripping exactly when it is whitespace only |
| Text.TrimIdempotent | main.py:13 | stripping a stripped name changes nothing |
| Text.Split | main.py:140 | `split('-')` yields one more piece than there are hyphens, and no piece contains a hyphen |
| Text.JoinSplit | main.py:140 | joining the split pieces with hyphens gives back the original string |
| Text.SplitJoin | main.py:135-140 | splitting a hyphen join of hyphen-free fields gives back exactly those fields |
| Text.PadRoundTrip | main.py:134-146 | a zero-padded fixed-width field reads back as the number written |
| Text.NatToStringRoundTrip | main.py:135 | the decimal text of the sequence id reads back as that id |
| Calendar.AddDays | main.py:156 | moving a date by n days gives a calendar date whose ordinal is n more |
| Calendar.OrdinalInjective | main.py:156 | distinct calendar dates have distinct ordinals, so a date is determined by its ordinal |
| Calendar.ValidIffOrdinalInRange | main.py:156 | a date lies in the years 1..9999 exactly when its ordinal lies in 1..3652059 |
| Calendar.SecondsInjective | main.py:156 | distinct valid datetimes name distinct instants |
| Calendar.AddMinutes | main.py:156 | adding an offset succeeds exactly when the target instant is representable; the result is then a valid datetime at that instant; otherwise it raises `OverflowError` |
| Timestamps.ParseCompactOfCompact | main.py:134-146 | parsing the 14-digit timestamp of a valid datetime gives that datetime back |
| Timestamps.CompactOfParseCompact | main.py:145-148 | whatever the timestamp parser accepts is a valid datetime that renders back to the same 14 digits |
| Timestamps.IsoFormatInjective | main.py:159 | the ISO text of a datetime determines the datetime |
| TimeZones.NewTimeZone | main.py:9-31 | construction succeeds exactly when the stripped name is non-empty, the minutes lie in -59..59 and 60·hours+minutes lies in -720..840; it stores the stripped name, the raw components and that offset; each failure raises the source's message; an offset whose day count a `timedelta` cannot hold raises `OverflowError` before the range check |
| TimeZones.TimedeltaOverflowMessages | main.py:24 | an offset of 10^11 hours overflows the C `int` day count; one of 1000000000 days fits it and fails the `timedelta` range check |
| TimeZones.NewTimeZoneValid | main.py:9-31 | every constructed zone satisfies the zone invariant |
| TimeZones.OffsetBoundaries | main.py:21-27 | (-12,0) and (14,0) are accepted; (14,1), (-12,-1) and minutes of ±60 are refused with the matching message |
| TimeZones.UtcIsConstructed | main.py:84 | `TimeZone('UTC', 0, 0)` is the zone named UTC with offset 0 |
| TimeZones.SameIsEquivalence | main.py:41-44 | zone equality is reflexive, symmetric and transitive |
| TimeZones.SameIffNameAndOffset | main.py:41-44 | two constructed zones are equal exactly when their stripped names and their combined offsets are equal |
| TimeZones.SameDespiteDifferentComponents | main.py:41-44 | `('X',1,-30)` equals `('X',0,30)` although their stored components differ |
| Accounts.ValidateName | main.py:121-124 | a blank value is refused with "<field> can not be empty"; otherwise the stored value is the non-empty stripped text |
| Accounts.NewAccount | main.py:75-85 | construction succeeds exactly when both names are non-blank; the first name is checked first; it stores the number, the stripped names and the balance; the default UTC zone is stored only when no zone is passed |
| Accounts.NewAccountIntended | main.py:83-85 | the corrected constructor stores the passed zone, or UTC when none is passed, and otherwise agrees with the constructor as written |
| Accounts.Timezone | main.py:111-113 | the `timezone` getter succeeds exactly when the attribute has been set; it returns the stored zone; otherwise it raises `AttributeError` naming `_timezone` |
| Accounts.SetFirstName | main.py:99-101 | the setter refuses blanks; otherwise it stores the stripped value and changes nothing else |
| Accounts.SetLastName | main.py:107-109 | the setter refuses blanks; otherwise it stores the stripped value and changes nothing else |
| Accounts.SetTimezone | main.py:115-119 | after the setter, the getter returns the zone; number, names and balance are unchanged |
| Accounts.SetInterestRate | main.py:67-73 | a rate is refused exactly when it is negative; otherwise the getter returns it and the counter is unchanged |
| Accounts.InterestRateRoundTrip | main.py:63-73 | a stored rate reads back unchanged, and a second set overrides the first |
| Accounts.NameSettersIdempotent | main.py:121-124 | storing the stored name again changes nothing |
| Accounts.BalanceIsReadOnly | main.py:81-89 | the balance and the account number survive every setter as constructed |
| Accounts.SuppliedTimezoneIsDropped | main.py:83-85 | with a zone passed, the constructor as written leaves `timezone` unreadable; the corrected one returns that zone |
| Accounts.DefaultTimezoneIsUtc | main.py:83-85 | without a zone argument both constructors store UTC and agree |
| Accounts.FirstNameGetterFails | main.py:95-101 | the `first_name` getter as written always raises `AttributeError` for `_name`, although the name was stored |
| Accounts.FirstNameIntendedRoundTrip | main.py:99-101 | the corrected getter returns the stripped name the constructor or the setter stored |
| Confirmations.GenerateConfirmationCode | main.py:133-135 | the code carries the counter's current value as its last field; the counter advances by exactly one; the rate is untouched |
| Confirmations.MakeTransaction | main.py:130-131 | a dummy transaction draws one sequence id and embeds it |
| Confirmations.ParseConfirmationCode | main.py:137-159 | a code with other than three hyphens fails with "Invalid confirmation code"; a bad third field fails with "Invalid transaction datetime."; for four fields with a valid timestamp, decoding succeeds exactly when shifting it by the preferred zone's offset (UTC's when none is given) succeeds, and otherwise raises that shift's `OverflowError`; on success the fields rejoin to the code and `time_utc` is the ISO text of the parsed timestamp |
| Confirmations.LocalDateIsShiftedInstant | main.py:150-157 | the local label is the date of the UTC instant shifted by the zone's offset, followed by the zone name in parentheses |
| Confirmations.DefaultZoneShowsUtcDate | main.py:150-157 | with no zone given, the label is the UTC date followed by `(UTC)` |
| Confirmations.RoundTrip | main.py:133-159 | decoding an encoded code whose transaction code and account text have no hyphen recovers the transaction code, `str(account)`, `str(id)`, the ISO text of the clock reading truncated to whole seconds, and the UTC date label |
| Confirmations.RoundTripWithZone | main.py:133-159 | with a preferred zone, decoding succeeds exactly when the shifted instant is representable; the fields and the id are recovered, `time_utc` is the clock reading truncated to whole seconds, and the label is the shifted date with the zone's name |
| Confirmations.DecodesIffNoExtraHyphen | main.py:140-142 | an encoded code decodes exactly when neither the transaction code nor the account text contains a hyphen; otherwise it fails with "Invalid confirmation code" |
| Confirmations.NegativeAccountNumberBreaksDecoding | main.py:135-142 | a negative numeric account number is written with a minus sign, so its codes never decode |
| Confirmations.IssueTransactions | main.py:130-135 | successive transactions across any accounts embed consecutive ids from the counter's value on; the ids are pairwise distinct and strictly increasing |
| Confirmations.FirstSequenceIdIs100 | main.py:53 | from the initial class state the first code carries 100 and the next 101 |
| Confirmations.ThreeFieldCodeIsRefused | main.py:140-142 | `dummy-A1-20200101000000` fails with "Invalid confirmation code" |
| Confirmations.ShortTimestampIsRefused | main.py:145-148 | `dummy-A1-2020-101` fails with "Invalid transaction datetime." |
| Timestamps.CompactDropsMicroseconds | main.py:134 | a clock reading and its truncation to whole seconds write the same timestamp; the truncation's ISO text is the whole-second one, and differs from the reading's own when the reading has microseconds |
| Confirmations.DecodeExample | main.py:137-159 | `dummy-A100-20200115093000-100`, the code issued at 09:30:00.5, decodes to `A100`, `dummy`, `100`, `2020-01-15T09:30:00` and `2020-01-15(UTC)` |

## Left out

- `datetime.utcnow()` is the wall clock. It is the parameter `now`.
- The script code at the end of the file and its prints are left out. So
  are the unused `mailbox` import and the commented-out first
  `make_transaction`.
- The `isinstance` checks against `numbers.Integral`, `numbers.Real` and
  `TimeZone` are vacuous in Dafny's types. For the same reason, a `None`
  name cannot be passed to the validators.
- `float(initial_balance)` and the float interest rate are modelled as
  `real`. Float rounding and NaN are left out. A NaN rate passes the
  source's sign check.
- Assigning to `balance` raises `AttributeError` through Python's property
  machinery. It is modelled as the absence of any balance setter.
- The `_transaction_codes` table is never used by the code.
- `TimeZone.__repr__` is display text only.
- `strptime` also accepts unpadded fields, a day padded with a blank
  (`%d` matches ` 1`, so `"202001 1000000"` reads as 2020-01-01 00:00:00),
  and non-ASCII Unicode digits. Only the strict 14-ASCII-digit form the
  encoder writes is modelled. For 14 ASCII digits the two readings agree.
- `%Y` is modelled as four zero-padded digits, which is CPython's
  documented behaviour. Some older Linux builds write years below 1000
  without padding. On those builds the round trip holds only for the
  years 1000..9999.
- Concurrent access to the shared counter is left out. The model is
  sequential, as the code is.
- `itertools.count` is unbounded, and the counter is a `nat`.
- TimeZones.NewTimeZone: the `OverflowError` texts are those of CPython's
  C `datetime` module. The pure-Python implementation raises
  `"timedelta # of days is too large: <n>"` instead.
- Confirmations.ParseConfirmationCode: its contract does not itself
  describe the local label. Confirmations.LocalDateIsShiftedInstant and
  Confirmations.DefaultZoneShowsUtcDate state that part.

## Findings

| source | as written | input that shows it | evidently intended | confidence | as-written member | corrected member |
|---|---|---|---|---|---|---|
| main.py:83-85 | `self.timezone = timezone` sits inside `if timezone is None`, so a zone passed by the caller is never validated or stored | `Account(1, 'a', 'b', 0, TimeZone('X', 1, 0)).timezone` raises `AttributeError` | store the passed zone through the validating setter, UTC otherwise | high; not executed | Accounts.NewAccount | Accounts.NewAccountIntended |
| main.py:95-97 | the `first_name` getter reads `self._name`, which nothing sets; the setter writes `_first_name` | `Account(1, 'a', 'b').first_name` raises `AttributeError` | return `self._first_name` | high; not executed | Accounts.FirstName | Accounts.FirstNameIntended |

The lemma Accounts.SuppliedTimezoneIsDropped shows the first discrepancy.
Accounts.NewAccountIntended's contract proves the intended behaviour.
Accounts.FirstNameGetterFails shows the second discrepancy, and
Accounts.FirstNameIntendedRoundTrip proves the corrected getter.
