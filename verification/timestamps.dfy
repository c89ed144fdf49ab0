/** The three text forms of a datetime the confirmation codec uses:
    `strftime('%Y%m%d%H%M%S')` and its inverse `strptime`, `isoformat()`,
    and the date rendering `strftime('%Y-%m-%d')`. Years are written with
    four digits, zero padded. */
module Timestamps {

  import opened Wrappers
  import opened Text
  import opened Calendar

  /** `t.strftime('%Y%m%d%H%M%S')`: fourteen digits, no separators. */
  function Compact(t: DateTime): (s: string)
    requires ValidDateTime(t)
    ensures |s| == 14 && AllDigits(s)
  {
    Pad(t.date.year, 4) + Pad(t.date.month, 2) + Pad(t.date.day, 2)
    + Pad(t.hour, 2) + Pad(t.minute, 2) + Pad(t.second, 2)
  }

  /** The number written in characters `i..j` of an all-digit string. */
  function Field(s: string, i: int, j: int): nat
    requires AllDigits(s) && 0 <= i <= j <= |s|
  {
    assert AllDigits(s[i..j]) by {
      forall k | 0 <= k < j - i ensures IsDigit(s[i..j][k]) {
        assert s[i..j][k] == s[i + k];
      }
    }
    DigitsValue(s[i..j])
  }

  /** `datetime.strptime(s, '%Y%m%d%H%M%S')` on the fixed-width form the
      encoder writes: fourteen ASCII digits whose fields name a datetime
      Python can represent; anything else is rejected. */
  function ParseCompact(s: string): (r: Option<DateTime>)
    ensures r.Some? ==> ValidDateTime(r.value)
  {
    if |s| == 14 && AllDigits(s) then
      var t := DateTime(Date(Field(s, 0, 4), Field(s, 4, 6), Field(s, 6, 8)),
                        Field(s, 8, 10), Field(s, 10, 12), Field(s, 12, 14));
      if ValidDateTime(t) then Some(t) else None
    else None
  }

  /** Writing a valid datetime and parsing it back gives the datetime. */
  lemma ParseCompactOfCompact(t: DateTime)
    requires ValidDateTime(t)
    ensures ParseCompact(Compact(t)) == Some(t)
  {
    var s := Compact(t);
    assert s[0..4] == Pad(t.date.year, 4);
    assert s[4..6] == Pad(t.date.month, 2);
    assert s[6..8] == Pad(t.date.day, 2);
    assert s[8..10] == Pad(t.hour, 2);
    assert s[10..12] == Pad(t.minute, 2);
    assert s[12..14] == Pad(t.second, 2);
    PadRoundTrip(t.date.year, 4);
    PadRoundTrip(t.date.month, 2);
    PadRoundTrip(t.date.day, 2);
    PadRoundTrip(t.hour, 2);
    PadRoundTrip(t.minute, 2);
    PadRoundTrip(t.second, 2);
  }

  /** The parser accepts only the encoder's own output: whatever it
      accepts is a valid datetime that writes back to the same text. */
  lemma CompactOfParseCompact(s: string)
    requires ParseCompact(s).Some?
    ensures ValidDateTime(ParseCompact(s).value)
    ensures Compact(ParseCompact(s).value) == s
  {
    var t := ParseCompact(s).value;
    PadField(s, 0, 4);
    PadField(s, 4, 6);
    PadField(s, 6, 8);
    PadField(s, 8, 10);
    PadField(s, 10, 12);
    PadField(s, 12, 14);
    assert s == s[0..4] + s[4..6] + s[6..8] + s[8..10] + s[10..12] + s[12..14];
  }

  lemma PadField(s: string, i: int, j: int)
    requires AllDigits(s) && 0 <= i <= j <= |s|
    ensures Pad(Field(s, i, j), j - i) == s[i..j]
  {
    PadOfDigitsValue(s[i..j]);
  }

  /** `t.isoformat()` for a datetime without microseconds:
      `YYYY-MM-DDTHH:MM:SS`. */
  function IsoFormat(t: DateTime): string
    requires ValidDateTime(t)
  {
    DateFormat(t.date) + "T" + Pad(t.hour, 2) + ":" + Pad(t.minute, 2) + ":" + Pad(t.second, 2)
  }

  /** `d.strftime('%Y-%m-%d')`. */
  function DateFormat(d: Date): string
    requires ValidDate(d)
  {
    Pad(d.year, 4) + "-" + Pad(d.month, 2) + "-" + Pad(d.day, 2)
  }

  /** The ISO text of a datetime determines it: distinct valid datetimes
      have distinct ISO renderings. */
  lemma IsoFormatInjective(a: DateTime, b: DateTime)
    requires ValidDateTime(a) && ValidDateTime(b)
    requires IsoFormat(a) == IsoFormat(b)
    ensures a == b
  {
    var s := IsoFormat(a);
    assert s == IsoFormat(b);
    IsoFields(a);
    IsoFields(b);
  }

  /** Where each field of a datetime sits in its ISO text. */
  lemma IsoFields(t: DateTime)
    requires ValidDateTime(t)
    ensures |IsoFormat(t)| == 19
    ensures DigitsValue(IsoFormat(t)[0..4]) == t.date.year
    ensures DigitsValue(IsoFormat(t)[5..7]) == t.date.month
    ensures DigitsValue(IsoFormat(t)[8..10]) == t.date.day
    ensures DigitsValue(IsoFormat(t)[11..13]) == t.hour
    ensures DigitsValue(IsoFormat(t)[14..16]) == t.minute
    ensures DigitsValue(IsoFormat(t)[17..19]) == t.second
  {
    var s := IsoFormat(t);
    assert s[0..4] == Pad(t.date.year, 4);
    assert s[5..7] == Pad(t.date.month, 2);
    assert s[8..10] == Pad(t.date.day, 2);
    assert s[11..13] == Pad(t.hour, 2);
    assert s[14..16] == Pad(t.minute, 2);
    assert s[17..19] == Pad(t.second, 2);
    PadRoundTrip(t.date.year, 4);
    PadRoundTrip(t.date.month, 2);
    PadRoundTrip(t.date.day, 2);
    PadRoundTrip(t.hour, 2);
    PadRoundTrip(t.minute, 2);
    PadRoundTrip(t.second, 2);
  }

  /** A reading of `datetime.utcnow()`: the whole-second datetime and the
      microseconds past it. */
  datatype ClockReading = ClockReading(time: DateTime, microsecond: nat)

  predicate ValidReading(c: ClockReading) {
    ValidDateTime(c.time) && c.microsecond < 1000000
  }

  /** `c.replace(microsecond=0)`. */
  function Truncate(c: ClockReading): ClockReading {
    c.(microsecond := 0)
  }

  /** `c.isoformat()`: the fraction `.ffffff` is written only when the
      microseconds are not zero. */
  function ReadingIsoFormat(c: ClockReading): string
    requires ValidReading(c)
  {
    IsoFormat(c.time) + (if c.microsecond == 0 then "" else "." + Pad(c.microsecond, 6))
  }

  /** `strftime('%Y%m%d%H%M%S')` has no field for the microseconds: a
      reading and its truncation write the same text, the truncation's ISO
      text is the whole-second one, and a reading with a fraction has a
      different ISO text from its truncation. */
  lemma CompactDropsMicroseconds(c: ClockReading)
    requires ValidReading(c)
    ensures ValidReading(Truncate(c)) && Truncate(c).time == c.time
    ensures ReadingIsoFormat(Truncate(c)) == IsoFormat(c.time)
    ensures c.microsecond != 0 ==> ReadingIsoFormat(c) != ReadingIsoFormat(Truncate(c))
  {
    IsoFields(c.time);
    if c.microsecond != 0 {
      assert |ReadingIsoFormat(c)| == 26;
    }
  }
}
