/** Confirmation codes: `generate_confirmation_code` writes
    `<transaction code>-<account number>-<YYYYMMDDHHMMSS>-<sequence id>`,
    drawing the sequence id from the counter every account shares, and
    `parse_confirmation_code` splits such a code back into its fields,
    rendering the UTC time in ISO form and the date in a preferred zone. The
    wall clock is a parameter. */
module Confirmations {

  import opened Wrappers
  import opened Text
  import opened Calendar
  import opened Timestamps
  import opened TimeZones
  import opened Accounts

  /** The `Confirmation` named tuple, fields in the source's order. */
  datatype Confirmation = Confirmation(
    accountNumber: string,
    transactionCode: string,
    transactionId: string,
    timeUtc: string,
    time: string)

  /** A code together with the class state after drawing its sequence id. */
  datatype Issued = Issued(code: string, state: AccountClass)

  const Separator: char := '-'
  const InvalidCodeMessage := "Invalid confirmation code"
  const InvalidDatetimeMessage := "Invalid transaction datetime."
  /** The transaction code `make_transaction` passes. */
  const DummyCode := "dummy"

  /** The four fields of a code joined by hyphens. */
  function CodeText(transactionCode: string, account: string, timestamp: string, id: string): string {
    Join([transactionCode, account, timestamp, id], Separator)
  }

  /** The sequence id a code carries: its last hyphen-separated field read
      as a number. */
  function EmbeddedId(code: string): Option<nat> {
    var parts := Split(code, Separator);
    ParseNat(parts[|parts| - 1])
  }

  /** The four-field join, written out. */
  lemma CodeTextIsConcatenation(t: string, a: string, s: string, i: string)
    ensures CodeText(t, a, s, i) == t + [Separator] + a + [Separator] + s + [Separator] + i
  {
    var parts := [t, a, s, i];
    assert parts[1..] == [a, s, i];
    assert [a, s, i][1..] == [s, i];
    assert [s, i][1..] == [i];
    assert Join([i], Separator) == i;
    assert Join([s, i], Separator) == s + [Separator] + i;
    assert Join([a, s, i], Separator) == a + [Separator] + (s + [Separator] + i);
  }

  /** A code ending in a separator-free field has that field as its last
      piece, however many hyphens come before it. */
  lemma LastFieldOfCode(t: string, a: string, s: string, i: string)
    requires Separator !in i
    ensures var parts := Split(CodeText(t, a, s, i), Separator); parts[|parts| - 1] == i
  {
    CodeTextIsConcatenation(t, a, s, i);
    var front := t + [Separator] + a + [Separator] + s;
    assert CodeText(t, a, s, i) == front + [Separator] + i;
    SplitConcat(front, i, Separator);
    SplitNoSeparator(i, Separator);
  }

  /** The code's hyphens are the three it adds plus those inside its
      fields. */
  lemma CodeTextHyphens(t: string, a: string, s: string, i: string)
    ensures Count(CodeText(t, a, s, i), Separator)
      == Count(t, Separator) + Count(a, Separator) + Count(s, Separator) + Count(i, Separator) + 3
  {
    CodeTextIsConcatenation(t, a, s, i);
    var sep: string := [Separator];
    assert Count(sep, Separator) == 1;
    CountConcat(t, sep, Separator);
    CountConcat(t + sep, a, Separator);
    CountConcat(t + sep + a, sep, Separator);
    CountConcat(t + sep + a + sep, s, Separator);
    CountConcat(t + sep + a + sep + s, sep, Separator);
    CountConcat(t + sep + a + sep + s + sep, i, Separator);
  }

  /** `generate_confirmation_code(transaction_code)` with the clock reading
      `now`: the code carries the counter's current value, and the counter
      moves on by one. */
  function GenerateConfirmationCode(a: Account, transactionCode: string, now: ClockReading,
                                    state: AccountClass): (r: Issued)
    requires ValidReading(now)
    ensures r.state.nextId == state.nextId + 1
    ensures r.state.interestRate == state.interestRate
    ensures EmbeddedId(r.code) == Some(state.nextId)
  {
    var id := NatToString(state.nextId);
    NatToStringHasNoHyphen(state.nextId);
    LastFieldOfCode(transactionCode, AccountIdText(a.number), Compact(now.time), id);
    NatToStringRoundTrip(state.nextId);
    Issued(CodeText(transactionCode, AccountIdText(a.number), Compact(now.time), id),
           state.(nextId := state.nextId + 1))
  }

  /** `make_transaction`: a confirmation code for the dummy transaction. */
  function MakeTransaction(a: Account, now: ClockReading, state: AccountClass): (r: Issued)
    requires ValidReading(now)
    ensures r.state.nextId == state.nextId + 1
    ensures EmbeddedId(r.code) == Some(state.nextId)
  {
    GenerateConfirmationCode(a, DummyCode, now, state)
  }

  /** `parse_confirmation_code(code, preferred_time_zone)`: a code must
      split into exactly four fields and its third field must be a valid
      timestamp; the UTC time is shifted by the preferred zone's offset (UTC
      when none is given) and that local date is labelled with the zone's
      name. A shifted time outside the years 1..9999 raises
      `OverflowError`. */
  function ParseConfirmationCode(code: string, preferred: Option<TimeZone>): (r: Result<Confirmation>)
    ensures Count(code, Separator) != 3 ==> r == Failure(ValueError(InvalidCodeMessage))
    ensures Count(code, Separator) == 3 && ParseCompact(Split(code, Separator)[2]).None?
      ==> r == Failure(ValueError(InvalidDatetimeMessage))
    ensures Count(code, Separator) == 3 && ParseCompact(Split(code, Separator)[2]).Some? ==>
      var shifted := AddMinutes(ParseCompact(Split(code, Separator)[2]).value, preferred.GetOr(Utc).offset);
      && (r.Success? <==> shifted.Success?)
      && (r.Failure? ==> r.error == shifted.error)
    ensures r.Success? ==>
      var parts := Split(code, Separator);
      && |parts| == 4
      && CodeText(r.value.transactionCode, r.value.accountNumber, parts[2], r.value.transactionId) == code
      && ParseCompact(parts[2]).Some?
      && r.value.timeUtc == IsoFormat(ParseCompact(parts[2]).value)
  {
    var parts := Split(code, Separator);
    if |parts| != 4 then Failure(ValueError(InvalidCodeMessage))
    else
      match ParseCompact(parts[2])
      case None => Failure(ValueError(InvalidDatetimeMessage))
      case Some(utc) =>
        var zone := preferred.GetOr(Utc);
        match AddMinutes(utc, zone.offset)
        case Failure(e) => Failure(e)
        case Success(local) =>
          JoinSplit(code, Separator);
          assert parts == [parts[0], parts[1], parts[2], parts[3]];
          Success(Confirmation(parts[1], parts[0], parts[3], IsoFormat(utc),
                               DateFormat(local.date) + "(" + zone.name + ")"))
  }

  /** The local label of a decoded code names the date, in the preferred
      zone, of the instant the code's UTC timestamp names, shifted by the
      zone's offset; the zone's name follows in parentheses. */
  lemma LocalDateIsShiftedInstant(code: string, preferred: Option<TimeZone>)
    requires ParseConfirmationCode(code, preferred).Success?
    ensures var utc := ParseCompact(Split(code, Separator)[2]).value;
      var zone := preferred.GetOr(Utc);
      exists local: DateTime :: ValidDateTime(local)
        && Seconds(local) == Seconds(utc) + 60 * zone.offset
        && ParseConfirmationCode(code, preferred).value.time
           == DateFormat(local.date) + "(" + zone.name + ")"
  {
    var utc := ParseCompact(Split(code, Separator)[2]).value;
    var zone := preferred.GetOr(Utc);
    var local := AddMinutes(utc, zone.offset).value;
    assert ValidDateTime(local) && Seconds(local) == Seconds(utc) + 60 * zone.offset;
  }

  /** With no preferred zone, the local label is the UTC date followed by
      `(UTC)`. */
  lemma DefaultZoneShowsUtcDate(code: string)
    requires ParseConfirmationCode(code, None).Success?
    ensures var utc := ParseCompact(Split(code, Separator)[2]).value;
      ParseConfirmationCode(code, None).value.time == DateFormat(utc.date) + "(UTC)"
  {
    var utc := ParseCompact(Split(code, Separator)[2]).value;
    AddNoMinutes(utc);
  }

  /** Decoding what was encoded recovers every field: the transaction code,
      the account number's text, the sequence id's text, the ISO form of
      the clock reading truncated to whole seconds (the encoder writes no
      microseconds), and the UTC date labelled `(UTC)`. */
  lemma RoundTrip(a: Account, transactionCode: string, now: ClockReading, state: AccountClass)
    requires ValidReading(now)
    requires Separator !in transactionCode && Separator !in AccountIdText(a.number)
    ensures ParseConfirmationCode(GenerateConfirmationCode(a, transactionCode, now, state).code, None)
      == Success(Confirmation(AccountIdText(a.number), transactionCode, NatToString(state.nextId),
                              ReadingIsoFormat(Truncate(now)), DateFormat(now.time.date) + "(UTC)"))
  {
    var code := GenerateConfirmationCode(a, transactionCode, now, state).code;
    DecodedFields(a, transactionCode, now, state);
    var parts := Split(code, Separator);
    assert |parts| == 4 && parts[2] == Compact(now.time);
    AddNoMinutes(now.time);
    CompactDropsMicroseconds(now);
    assert None.GetOr(Utc) == Utc;
    var tag := DateFormat(now.time.date) + "(" + Utc.name + ")";
    assert tag == DateFormat(now.time.date) + "(UTC)";
    assert ParseConfirmationCode(code, None)
      == Success(Confirmation(parts[1], parts[0], parts[3], ReadingIsoFormat(Truncate(now)), tag));
  }

  /** Shifting by a zero offset leaves a datetime unchanged. */
  lemma AddNoMinutes(t: DateTime)
    requires ValidDateTime(t)
    ensures AddMinutes(t, 0) == Success(t)
  {
    ValidIffOrdinalInRange(t.date);
    var secs := (t.hour * 60 + t.minute) * 60 + t.second;
    assert 0 <= secs < SecondsPerDay;
    assert Seconds(t) == Ordinal(t.date) * SecondsPerDay + secs;
    assert SecondsPerDay <= Seconds(t) < (MaxOrdinal + 1) * SecondsPerDay;
    var r := AddMinutes(t, 0);
    assert r.Success?;
    SecondsInjective(r.value, t);
  }

  /** The fields a decoder sees in an encoded code are the ones the
      encoder wrote. */
  lemma DecodedFields(a: Account, transactionCode: string, now: ClockReading, state: AccountClass)
    requires ValidReading(now)
    requires Separator !in transactionCode && Separator !in AccountIdText(a.number)
    ensures Split(GenerateConfirmationCode(a, transactionCode, now, state).code, Separator)
      == [transactionCode, AccountIdText(a.number), Compact(now.time), NatToString(state.nextId)]
    ensures ParseCompact(Compact(now.time)) == Some(now.time)
  {
    var parts := [transactionCode, AccountIdText(a.number), Compact(now.time), NatToString(state.nextId)];
    DigitsHaveNoHyphen(Compact(now.time));
    NatToStringHasNoHyphen(state.nextId);
    SplitJoin(parts, Separator);
    ParseCompactOfCompact(now.time);
  }

  /** Decoding with a preferred zone succeeds exactly when the shifted
      instant is one a `datetime` can hold; the label is then the date of
      that instant followed by the zone's name, and the sequence id reads
      back as the counter value drawn. The UTC time is the clock reading
      truncated to whole seconds. */
  lemma RoundTripWithZone(a: Account, transactionCode: string, now: ClockReading,
                          state: AccountClass, zone: TimeZone)
    requires ValidReading(now)
    requires Separator !in transactionCode && Separator !in AccountIdText(a.number)
    ensures var r := ParseConfirmationCode(GenerateConfirmationCode(a, transactionCode, now, state).code, Some(zone));
      && (r.Success? <==> SecondsPerDay <= Seconds(now.time) + 60 * zone.offset < (MaxOrdinal + 1) * SecondsPerDay)
      && (r.Failure? ==> r.error == OverflowError("date value out of range"))
      && (r.Success? ==>
            && r.value.transactionCode == transactionCode
            && r.value.accountNumber == AccountIdText(a.number)
            && ParseNat(r.value.transactionId) == Some(state.nextId)
            && r.value.timeUtc == ReadingIsoFormat(Truncate(now))
            && r.value.time == DateFormat(AddMinutes(now.time, zone.offset).value.date) + "(" + zone.name + ")")
  {
    DecodedFields(a, transactionCode, now, state);
    CompactDropsMicroseconds(now);
    NatToStringRoundTrip(state.nextId);
  }

  /** An encoded code decodes exactly when neither the transaction code nor
      the account number's text contains a hyphen; otherwise the split
      yields more than four fields. */
  lemma DecodesIffNoExtraHyphen(a: Account, transactionCode: string, now: ClockReading, state: AccountClass)
    requires ValidReading(now)
    ensures ParseConfirmationCode(GenerateConfirmationCode(a, transactionCode, now, state).code, None).Success?
      <==> Separator !in transactionCode && Separator !in AccountIdText(a.number)
    ensures Separator in transactionCode || Separator in AccountIdText(a.number) ==>
      ParseConfirmationCode(GenerateConfirmationCode(a, transactionCode, now, state).code, None)
        == Failure(ValueError(InvalidCodeMessage))
  {
    var acct := AccountIdText(a.number);
    var ts := Compact(now.time);
    var id := NatToString(state.nextId);
    if Separator !in transactionCode && Separator !in acct {
      RoundTrip(a, transactionCode, now, state);
    } else {
      CodeTextHyphens(transactionCode, acct, ts, id);
      CountPositive(transactionCode, Separator);
      CountPositive(acct, Separator);
    }
  }

  /** A negative numeric account number is written with a minus sign, so
      its codes never decode. */
  lemma NegativeAccountNumberBreaksDecoding(a: Account, transactionCode: string, now: ClockReading,
                                            state: AccountClass)
    requires ValidReading(now)
    requires a.number.Numeric? && a.number.number < 0
    ensures ParseConfirmationCode(GenerateConfirmationCode(a, transactionCode, now, state).code, None)
      == Failure(ValueError(InvalidCodeMessage))
  {
    assert AccountIdText(a.number)[0] == Separator;
    DecodesIffNoExtraHyphen(a, transactionCode, now, state);
  }

  /** Issues one dummy transaction per entry of `accounts`, in order, the
      i-th at clock reading `clock[i]`, all drawing on one shared counter:
      the codes carry consecutive sequence ids starting at the counter's
      value, so they are pairwise distinct and strictly increasing. */
  method IssueTransactions(accounts: seq<Account>, clock: seq<ClockReading>, state: AccountClass)
    returns (codes: seq<string>, final: AccountClass)
    requires |clock| == |accounts|
    requires forall i :: 0 <= i < |clock| ==> ValidReading(clock[i])
    ensures |codes| == |accounts|
    ensures final.nextId == state.nextId + |accounts|
    ensures final.interestRate == state.interestRate
    ensures forall i :: 0 <= i < |codes| ==> EmbeddedId(codes[i]) == Some(state.nextId + i)
    ensures forall i, j :: 0 <= i < j < |codes| ==>
      EmbeddedId(codes[i]).Some? && EmbeddedId(codes[j]).Some? &&
      EmbeddedId(codes[i]).value < EmbeddedId(codes[j]).value
  {
    codes := [];
    final := state;
    var k := 0;
    while k < |accounts|
      invariant 0 <= k <= |accounts|
      invariant |codes| == k
      invariant final.nextId == state.nextId + k
      invariant final.interestRate == state.interestRate
      invariant forall i :: 0 <= i < k ==> EmbeddedId(codes[i]) == Some(state.nextId + i)
    {
      var issued := MakeTransaction(accounts[k], clock[k], final);
      codes := codes + [issued.code];
      final := issued.state;
      k := k + 1;
    }
  }

  /** From the class's initial state the first code carries 100, the next
      101, and so on. */
  lemma FirstSequenceIdIs100(a: Account, b: Account, now: ClockReading, later: ClockReading)
    requires ValidReading(now) && ValidReading(later)
    ensures EmbeddedId(MakeTransaction(a, now, InitialClass).code) == Some(100)
    ensures EmbeddedId(MakeTransaction(b, later, MakeTransaction(a, now, InitialClass).state).code) == Some(101)
  {
  }

  /** A code with other than three hyphens is refused before its timestamp
      is looked at: `dummy-A1-20200101000000` has only three fields. */
  lemma ThreeFieldCodeIsRefused()
    ensures ParseConfirmationCode("dummy-A1-20200101000000", None) == Failure(ValueError(InvalidCodeMessage))
  {
    var code := "dummy-A1-20200101000000";
    assert code == CodeTextThree("dummy", "A1", "20200101000000");
    SplitJoin(["dummy", "A1", "20200101000000"], Separator);
  }

  /** Three fields joined by hyphens, the shape of a code with a field
      missing. */
  function CodeTextThree(t: string, a: string, s: string): string {
    Join([t, a, s], Separator)
  }

  /** Four fields whose third is not fourteen digits are refused as a bad
      datetime: `dummy-A1-2020-101`. */
  lemma ShortTimestampIsRefused()
    ensures ParseConfirmationCode("dummy-A1-2020-101", None) == Failure(ValueError(InvalidDatetimeMessage))
  {
    var code := "dummy-A1-2020-101";
    CodeTextIsConcatenation("dummy", "A1", "2020", "101");
    assert code == CodeText("dummy", "A1", "2020", "101");
    SplitJoin(["dummy", "A1", "2020", "101"], Separator);
  }

  /** `parse_confirmation_code('dummy-A100-20200115093000-100')` with the
      default zone: the code is the one account `A100` gets for the dummy
      transaction at 2020-01-15 09:30:00.5 UTC when the counter stands at
      100, and the half second is gone from the decoded time. */
  lemma DecodeExample()
    ensures ParseConfirmationCode("dummy-A100-20200115093000-100", None)
      == Success(Confirmation("A100", "dummy", "100", "2020-01-15T09:30:00", "2020-01-15(UTC)"))
  {
    ExampleLiteral();
    ExampleRoundTrip();
    ExampleTexts();
  }

  /** The example code is the four-field join of its fields. */
  lemma ExampleLiteral()
    ensures "dummy-A100-20200115093000-100" == CodeText("dummy", "A100", "20200115093000", "100")
  {
    CodeTextIsConcatenation("dummy", "A100", "20200115093000", "100");
    assert "dummy" + [Separator] + "A100" + [Separator] + "20200115093000" + [Separator] + "100"
      == "dummy-A100-20200115093000-100";
  }

  /** The example code is the one the encoder writes, so the round trip
      applies to it. */
  lemma ExampleRoundTrip()
    ensures ParseConfirmationCode(CodeText("dummy", "A100", "20200115093000", "100"), None)
      == Success(Confirmation(AccountIdText(Textual("A100")), DummyCode, NatToString(100),
                              IsoFormat(ExampleInstant()), DateFormat(ExampleInstant().date) + "(UTC)"))
  {
    var now := ExampleReading();
    var a := Account(Textual("A100"), "Pan", "Domcio", 1000.0, Some(Utc));
    var state := AccountClass(0.05, 100);
    ExampleCode(a, state);
    assert Separator !in DummyCode && AccountIdText(a.number) == "A100";
    RoundTrip(a, DummyCode, now, state);
    CompactDropsMicroseconds(now);
  }

  /** The clock reading 2020-01-15 09:30:00.500000 UTC. */
  function ExampleReading(): (c: ClockReading)
    ensures ValidReading(c) && c.time == ExampleInstant()
  {
    ClockReading(ExampleInstant(), 500000)
  }

  function ExampleInstant(): (t: DateTime)
    ensures ValidDateTime(t)
  {
    DateTime(Date(2020, 1, 15), 9, 30, 0)
  }

  lemma ExampleTexts()
    ensures Compact(ExampleInstant()) == "20200115093000"
    ensures IsoFormat(ExampleInstant()) == "2020-01-15T09:30:00"
    ensures DateFormat(ExampleInstant().date) + "(UTC)" == "2020-01-15(UTC)"
    ensures NatToString(100) == "100"
  {
    ExamplePads();
    var t := ExampleInstant();
    assert DateFormat(t.date) == "2020" + "-" + "01" + "-" + "15";
    assert DateFormat(t.date) == "2020-01-15";
    assert Compact(t) == "2020" + "01" + "15" + "09" + "30" + "00";
    assert IsoFormat(t) == "2020-01-15" + "T" + "09" + ":" + "30" + ":" + "00";
  }

  lemma ExamplePads()
    ensures Pad(2020, 4) == "2020"
    ensures Pad(1, 2) == "01" && Pad(15, 2) == "15" && Pad(9, 2) == "09"
    ensures Pad(30, 2) == "30" && Pad(0, 2) == "00"
    ensures NatToString(100) == "100"
  {
    assert Pad(2, 1) == "2";
    assert Pad(20, 2) == "20";
    assert Pad(202, 3) == "202";
    assert NatToString(1) == "1";
    assert NatToString(10) == "10";
  }

  lemma ExampleCode(a: Account, state: AccountClass)
    requires a.number == Textual("A100") && state.nextId == 100
    ensures MakeTransaction(a, ExampleReading(), state).code == CodeText("dummy", "A100", "20200115093000", "100")
  {
    ExampleTexts();
  }
}
