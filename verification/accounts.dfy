/** The `Account` record: identity, names, a read-only balance and a
    display zone, plus the class-level state every account shares (the
    interest rate and the transaction counter). Setters return the updated
    record instead of mutating it. */
module Accounts {

  import opened Wrappers
  import opened Text
  import opened TimeZones

  /** The account number is stored as given; the source annotates it as an
      `int` and its own example passes a string. */
  datatype AccountId = Numeric(number: int) | Textual(text: string)

  /** `str(account_number)`, the text an f-string writes. */
  function AccountIdText(id: AccountId): string {
    match id
    case Numeric(n) => IntToString(n)
    case Textual(t) => t
  }

  /** The attributes an `Account` instance holds. `timezone` is `None`
      while the `_timezone` attribute has never been set. The balance has
      no setter. */
  datatype Account = Account(
    number: AccountId,
    firstName: string,
    lastName: string,
    balance: real,
    timezone: Option<TimeZone>)

  /** Class attributes shared by all accounts: `_interest_rate` and the
      next value `transaction_counter` will yield. */
  datatype AccountClass = AccountClass(interestRate: real, nextId: nat)

  /** The class attributes as the class body initialises them. */
  const InitialClass: AccountClass := AccountClass(0.05, 100)

  const NegativeRateMessage := "Interest rate must be positive. "

  function NameMessage(fieldName: string): string {
    fieldName + " can not be empty"
  }

  function MissingAttribute(attribute: string): Exception {
    AttributeError("'Account' object has no attribute '" + attribute + "'")
  }

  /** `validate_and_set_name`: a name that is blank after stripping is
      refused with a message naming the field; otherwise the stripped text
      is what gets stored. */
  function ValidateName(value: string, fieldName: string): (r: Result<string>)
    ensures r.Success? <==> !AllSpace(value)
    ensures r.Success? ==> r.value == Trim(value) && r.value != [] && Trim(r.value) == r.value
    ensures r.Failure? ==> r.error == ValueError(NameMessage(fieldName))
  {
    TrimEmptyIffAllSpace(value);
    TrimIdempotent(value);
    var stripped := Trim(value);
    if stripped == [] then Failure(ValueError(NameMessage(fieldName))) else Success(stripped)
  }

  /** `Account(account_number, first_name, last_name, initial_balance,
      timezone)` as written: the names are validated first name first, the
      balance is stored, and only when no zone is passed is the default UTC
      zone stored; a zone that is passed is neither checked nor stored. */
  function NewAccount(number: AccountId, first: string, last: string,
                      initialBalance: real, timezone: Option<TimeZone>): (r: Result<Account>)
    ensures r.Success? <==> !AllSpace(first) && !AllSpace(last)
    ensures AllSpace(first) ==> r == Failure(ValueError(NameMessage("First name")))
    ensures !AllSpace(first) && AllSpace(last) ==> r == Failure(ValueError(NameMessage("Last name")))
    ensures r.Success? ==>
      && r.value.number == number
      && r.value.firstName == Trim(first)
      && r.value.lastName == Trim(last)
      && r.value.balance == initialBalance
      && r.value.timezone == (if timezone.None? then Some(Utc) else None)
  {
    match ValidateName(first, "First name")
    case Failure(e) => Failure(e)
    case Success(f) =>
      match ValidateName(last, "Last name")
      case Failure(e) => Failure(e)
      case Success(l) =>
        Success(Account(number, f, l, initialBalance,
                        if timezone.None? then Some(Utc) else None))
  }

  /** The constructor as evidently intended: the zone passed in, or UTC
      when none is, is stored. */
  function NewAccountIntended(number: AccountId, first: string, last: string,
                              initialBalance: real, timezone: Option<TimeZone>): (r: Result<Account>)
    ensures r.Success? <==> !AllSpace(first) && !AllSpace(last)
    ensures r.Success? ==> Timezone(r.value) == Success(timezone.GetOr(Utc))
    ensures r.Success? ==> NewAccount(number, first, last, initialBalance, timezone).value == r.value.(timezone := if timezone.None? then Some(Utc) else None)
  {
    match NewAccount(number, first, last, initialBalance, timezone)
    case Failure(e) => Failure(e)
    case Success(a) => Success(SetTimezone(a, timezone.GetOr(Utc)))
  }

  /** The `balance` property: the value stored at construction. */
  function Balance(a: Account): real {
    a.balance
  }

  /** The `first_name` property as written: it reads `_name`, an attribute
      no code ever sets, so it always raises. */
  function FirstName(a: Account): (r: Result<string>) {
    Failure(MissingAttribute("_name"))
  }

  /** The `first_name` property as evidently intended: it reads the
      attribute its setter writes. */
  function FirstNameIntended(a: Account): string {
    a.firstName
  }

  /** The `last_name` property. */
  function LastName(a: Account): string {
    a.lastName
  }

  /** The `timezone` property: raises while `_timezone` is unset. */
  function Timezone(a: Account): (r: Result<TimeZone>)
    ensures r.Success? <==> a.timezone.Some?
    ensures r.Success? ==> r.value == a.timezone.value
    ensures r.Failure? ==> r.error == MissingAttribute("_timezone")
  {
    match a.timezone
    case Some(z) => Success(z)
    case None => Failure(MissingAttribute("_timezone"))
  }

  /** The `first_name` setter: validates and stores the stripped name;
      nothing else about the account changes. */
  function SetFirstName(a: Account, value: string): (r: Result<Account>)
    ensures r.Success? <==> !AllSpace(value)
    ensures r.Success? ==> FirstNameIntended(r.value) == Trim(value) && r.value == a.(firstName := r.value.firstName)
    ensures r.Failure? ==> r.error == ValueError(NameMessage("First name"))
  {
    match ValidateName(value, "First name")
    case Failure(e) => Failure(e)
    case Success(f) => Success(a.(firstName := f))
  }

  /** The `last_name` setter: validates and stores the stripped name;
      nothing else about the account changes. */
  function SetLastName(a: Account, value: string): (r: Result<Account>)
    ensures r.Success? <==> !AllSpace(value)
    ensures r.Success? ==> LastName(r.value) == Trim(value) && r.value == a.(lastName := r.value.lastName)
    ensures r.Failure? ==> r.error == ValueError(NameMessage("Last name"))
  {
    match ValidateName(value, "Last name")
    case Failure(e) => Failure(e)
    case Success(l) => Success(a.(lastName := l))
  }

  /** The `timezone` setter: the getter then returns the zone, and nothing
      else about the account changes. */
  function SetTimezone(a: Account, z: TimeZone): (r: Account)
    ensures Timezone(r) == Success(z)
    ensures r.number == a.number && r.firstName == a.firstName && r.lastName == a.lastName
    ensures Balance(r) == Balance(a)
  {
    a.(timezone := Some(z))
  }

  /** `get_interest_rate`. */
  function GetInterestRate(c: AccountClass): real {
    c.interestRate
  }

  /** `set_interest_rate`: a negative rate is refused; otherwise it is
      stored and the counter is left alone. */
  function SetInterestRate(c: AccountClass, value: real): (r: Result<AccountClass>)
    ensures r.Success? <==> value >= 0.0
    ensures r.Success? ==> GetInterestRate(r.value) == value && r.value.nextId == c.nextId
    ensures r.Failure? ==> r.error == ValueError(NegativeRateMessage)
  {
    if value < 0.0 then Failure(ValueError(NegativeRateMessage))
    else Success(c.(interestRate := value))
  }

  /** Setting a rate and reading it back gives the rate; setting it twice
      keeps the second. */
  lemma InterestRateRoundTrip(c: AccountClass, v: real, w: real)
    requires v >= 0.0 && w >= 0.0
    ensures GetInterestRate(SetInterestRate(c, v).value) == v
    ensures SetInterestRate(SetInterestRate(c, v).value, w) == SetInterestRate(c, w)
  {
  }

  /** The name setters are idempotent: storing the stored name again
      changes nothing. */
  lemma NameSettersIdempotent(a: Account, value: string)
    requires !AllSpace(value)
    ensures SetFirstName(SetFirstName(a, value).value, Trim(value)) == SetFirstName(a, value)
    ensures SetLastName(SetLastName(a, value).value, Trim(value)) == SetLastName(a, value)
  {
    TrimEmptyIffAllSpace(Trim(value));
    TrimEmptyIffAllSpace(value);
    TrimIdempotent(value);
  }

  /** No operation on an account changes its balance or number: the
      setters leave both as the constructor stored them. */
  lemma BalanceIsReadOnly(number: AccountId, first: string, last: string, balance: real,
                          f2: string, l2: string, z: TimeZone)
    requires !AllSpace(first) && !AllSpace(last) && !AllSpace(f2) && !AllSpace(l2)
    ensures var a := NewAccount(number, first, last, balance, None).value;
      var b := SetTimezone(SetLastName(SetFirstName(a, f2).value, l2).value, z);
      Balance(b) == balance && b.number == number
  {
  }

  /** Defect in the constructor: a zone passed by the caller is dropped,
      so reading `timezone` afterwards raises, while the intended
      constructor returns the zone. */
  lemma SuppliedTimezoneIsDropped(number: AccountId, first: string, last: string,
                                  balance: real, z: TimeZone)
    requires !AllSpace(first) && !AllSpace(last)
    ensures Timezone(NewAccount(number, first, last, balance, Some(z)).value)
      == Failure(MissingAttribute("_timezone"))
    ensures Timezone(NewAccountIntended(number, first, last, balance, Some(z)).value) == Success(z)
  {
  }

  /** Without a zone argument both constructors store UTC. */
  lemma DefaultTimezoneIsUtc(number: AccountId, first: string, last: string, balance: real)
    requires !AllSpace(first) && !AllSpace(last)
    ensures Timezone(NewAccount(number, first, last, balance, None).value) == Success(Utc)
    ensures NewAccount(number, first, last, balance, None) == NewAccountIntended(number, first, last, balance, None)
  {
  }

  /** Defect in the `first_name` getter: the name the constructor stored
      is never returned by the getter as written, while the intended getter
      returns the stripped name. */
  lemma FirstNameGetterFails(number: AccountId, first: string, last: string,
                             balance: real, timezone: Option<TimeZone>)
    requires !AllSpace(first) && !AllSpace(last)
    ensures var a := NewAccount(number, first, last, balance, timezone).value;
      && FirstName(a) == Failure(MissingAttribute("_name"))
      && FirstNameIntended(a) == Trim(first)
  {
  }

  /** The intended `first_name` getter returns what the constructor and
      the setter stored: the stripped name. */
  lemma FirstNameIntendedRoundTrip(number: AccountId, first: string, last: string,
                                   balance: real, timezone: Option<TimeZone>, value: string)
    requires !AllSpace(first) && !AllSpace(last) && !AllSpace(value)
    ensures var a := NewAccount(number, first, last, balance, timezone).value;
      && FirstNameIntended(a) == Trim(first)
      && FirstNameIntended(SetFirstName(a, value).value) == Trim(value)
  {
  }
}
