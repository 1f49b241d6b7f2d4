/**
 * The booking form's submit validation (script.js, initForms): the required
 * fields are checked first and reported in a fixed order, then the phone
 * number, then the date; the first failing check stops the submission.
 *
 * A date is an integer day number; the form's empty date field is `None`.
 * A text field is missing when it is the empty string (FormData yields the
 * empty string or null, both falsy).
 */
module Booking {
  import opened JsCore
  import Phone

  datatype Field = FullName | PhoneNumber | Date | Time | BookingFor

  datatype BookingData = BookingData(
    fullName: string,
    phoneNumber: string,
    date: Option<int>,
    time: string,
    bookingFor: string)

  /** `requiredFields`, in the order in which missing ones are reported. */
  const RequiredFields: seq<Field> := [FullName, PhoneNumber, Date, Time, BookingFor]

  /** The field's position in RequiredFields. */
  function Rank(f: Field): (r: nat)
    ensures r < |RequiredFields| && RequiredFields[r] == f
  {
    match f
    case FullName => 0
    case PhoneNumber => 1
    case Date => 2
    case Time => 3
    case BookingFor => 4
  }

  /** `!bookingData[field]` */
  predicate IsMissing(b: BookingData, f: Field) {
    match f
    case FullName => b.fullName == ""
    case PhoneNumber => b.phoneNumber == ""
    case Date => b.date.None?
    case Time => b.time == ""
    case BookingFor => b.bookingFor == ""
  }

  /** `fields.filter(field => !bookingData[field])` */
  function MissingAmong(b: BookingData, fields: seq<Field>): (r: seq<Field>)
    ensures |r| <= |fields|
  {
    if fields == [] then []
    else (if IsMissing(b, fields[0]) then [fields[0]] else []) + MissingAmong(b, fields[1..])
  }

  function MissingFields(b: BookingData): seq<Field> {
    MissingAmong(b, RequiredFields)
  }

  /** The result of a submission: the alert it raises, or acceptance. */
  datatype Verdict =
    | MissingRequired(fields: seq<Field>)
    | InvalidPhone
    | PastDate
    | Submitted

  /**
   * `selectedDate < today` on day numbers. An empty date never gets this far
   * (it is reported as missing first).
   */
  predicate BeforeToday(date: Option<int>, today: int) {
    match date
    case Some(day) => day < today
    case None => false
  }

  /** The submit handler's checks, in the order the code runs them. */
  function Validate(b: BookingData, today: int): Verdict {
    var missing := MissingFields(b);
    if |missing| > 0 then MissingRequired(missing)
    else if !Phone.ValidPhone(b.phoneNumber) then InvalidPhone
    else if BeforeToday(b.date, today) then PastDate
    else Submitted
  }

  lemma {:induction false} MissingAmongMembers(b: BookingData, fields: seq<Field>, f: Field)
    ensures f in MissingAmong(b, fields) <==> f in fields && IsMissing(b, f)
  {
    if fields != [] {
      MissingAmongMembers(b, fields[1..], f);
      assert fields == [fields[0]] + fields[1..];
    }
  }

  /** Every element of the filtered list comes from the list, at an increasing position. */
  lemma {:induction false} MissingAmongOrdered(b: BookingData, fields: seq<Field>)
    requires forall i, j :: 0 <= i < j < |fields| ==> Rank(fields[i]) < Rank(fields[j])
    ensures forall i, j :: 0 <= i < j < |MissingAmong(b, fields)| ==>
              Rank(MissingAmong(b, fields)[i]) < Rank(MissingAmong(b, fields)[j])
  {
    if fields != [] {
      var rest := MissingAmong(b, fields[1..]);
      MissingAmongOrdered(b, fields[1..]);
      forall f | f in rest ensures Rank(fields[0]) < Rank(f) {
        MissingAmongMembers(b, fields[1..], f);
      }
    }
  }

  /**
   * The reported list holds exactly the missing fields, each once, in the
   * order fullName, phoneNumber, date, time, bookingFor.
   */
  lemma MissingFieldsSpec(b: BookingData)
    ensures forall f :: f in MissingFields(b) <==> IsMissing(b, f)
    ensures forall i, j :: 0 <= i < j < |MissingFields(b)| ==>
              Rank(MissingFields(b)[i]) < Rank(MissingFields(b)[j])
  {
    forall f ensures f in MissingFields(b) <==> IsMissing(b, f) {
      MissingAmongMembers(b, RequiredFields, f);
      assert RequiredFields[Rank(f)] == f;
    }
    MissingAmongOrdered(b, RequiredFields);
  }

  /**
   * The checks short-circuit in the order missing fields, phone, date: each
   * verdict holds exactly when every earlier check passed and its own check
   * failed. The phone check fails exactly when the phone field has fewer than
   * ten digits, and a date equal to today is accepted.
   */
  lemma ValidateOrder(b: BookingData, today: int)
    ensures Validate(b, today).MissingRequired? <==> exists f :: IsMissing(b, f)
    ensures Validate(b, today).MissingRequired? ==> Validate(b, today).fields == MissingFields(b)
    ensures Validate(b, today) == InvalidPhone <==>
              (forall f :: !IsMissing(b, f)) && |Phone.Digits(b.phoneNumber)| < 10
    ensures Validate(b, today) == PastDate <==>
              (forall f :: !IsMissing(b, f)) && |Phone.Digits(b.phoneNumber)| >= 10 &&
              b.date.Some? && b.date.value < today
    ensures Validate(b, today) == Submitted <==>
              (forall f :: !IsMissing(b, f)) && |Phone.Digits(b.phoneNumber)| >= 10 &&
              b.date.Some? && b.date.value >= today
  {
    MissingFieldsSpec(b);
    Phone.ValidPhoneIff(b.phoneNumber);
    if |MissingFields(b)| > 0 {
      assert IsMissing(b, MissingFields(b)[0]);
    } else {
      assert !IsMissing(b, Date);
    }
  }
}
