/**
 * The booking form of app.js: the submit handler trims the name and phone,
 * rejects the submission when any of name, phone, date, guests or booking
 * type is empty, and otherwise opens a WhatsApp deep link whose `text`
 * parameter is a fixed greeting followed by one line per field, each value
 * passed through encodeURIComponent and the lines joined by `%0A`.
 */
module WhatsAppBooking {
  import opened JsCore
  import opened UriComponent

  // ---------------------------------------------------------------------
  // String.prototype.trim
  // ---------------------------------------------------------------------

  /** ECMAScript WhiteSpace and LineTerminator code points, which `trim` removes. */
  const WhiteSpace: set<char> := {
    '\t', '\n', '\U{000B}', '\U{000C}', '\r', ' ', '\U{00A0}', '\U{1680}',
    '\U{2000}', '\U{2001}', '\U{2002}', '\U{2003}', '\U{2004}', '\U{2005}',
    '\U{2006}', '\U{2007}', '\U{2008}', '\U{2009}', '\U{200A}',
    '\U{2028}', '\U{2029}', '\U{202F}', '\U{205F}', '\U{3000}', '\U{FEFF}'
  }

  predicate IsWhiteSpace(c: char) { c in WhiteSpace }

  predicate AllWhiteSpace(s: string) { forall i :: 0 <= i < |s| ==> IsWhiteSpace(s[i]) }

  /** `s` without its leading white space: a suffix of s, preceded only by white space. */
  function TrimStart(s: string): (r: string)
    ensures |r| <= |s| && r == s[|s| - |r|..]
    ensures r != [] ==> !IsWhiteSpace(r[0])
  {
    if s != [] && IsWhiteSpace(s[0]) then TrimStart(s[1..]) else s
  }

  /** `s` without its trailing white space: a prefix of s, followed only by white space. */
  function TrimEnd(s: string): (r: string)
    ensures |r| <= |s| && r == s[..|r|]
    ensures r != [] ==> !IsWhiteSpace(r[|r| - 1])
  {
    if s != [] && IsWhiteSpace(s[|s| - 1]) then TrimEnd(s[..|s| - 1]) else s
  }

  /** `s.trim()` */
  function Trim(s: string): string {
    TrimEnd(TrimStart(s))
  }

  /**
   * The trimmed string is s with only white space cut from both ends, it
   * neither starts nor ends with white space, and it is empty exactly when
   * s is all white space.
   */
  lemma TrimSpec(s: string)
    ensures Trim(s) != [] ==> !IsWhiteSpace(Trim(s)[0]) && !IsWhiteSpace(Trim(s)[|Trim(s)| - 1])
    ensures Trim(s) == "" <==> AllWhiteSpace(s)
    ensures exists i, j :: 0 <= i <= j <= |s| && Trim(s) == s[i..j] && AllWhiteSpace(s[..i]) && AllWhiteSpace(s[j..])
  {
    var i, j := TrimBounds(s);
    if Trim(s) != [] {
      assert s[i] == Trim(s)[0] && s[i] == TrimStart(s)[0];
    }
  }

  /** Where the trimmed string sits in s. */
  lemma TrimBounds(s: string) returns (i: nat, j: nat)
    ensures i <= j <= |s| && Trim(s) == s[i..j] && AllWhiteSpace(s[..i]) && AllWhiteSpace(s[j..])
    ensures TrimStart(s) == s[i..]
  {
    var a := TrimStart(s);
    var t := TrimEnd(a);
    i, j := |s| - |a|, |s| - |a| + |t|;
    TrimStartCut(s);
    TrimEndCut(a);
    assert s[j..] == a[|t|..];
    assert t == s[i..j];
  }

  /** What TrimStart cuts off is white space. */
  lemma {:induction false} TrimStartCut(s: string)
    ensures AllWhiteSpace(s[..|s| - |TrimStart(s)|])
  {
    if s != [] && IsWhiteSpace(s[0]) {
      var r := TrimStart(s[1..]);
      TrimStartCut(s[1..]);
      assert s[..|s| - |r|] == [s[0]] + s[1..][..|s| - 1 - |r|];
    }
  }

  /** What TrimEnd cuts off is white space. */
  lemma {:induction false} TrimEndCut(s: string)
    ensures AllWhiteSpace(s[|TrimEnd(s)|..])
  {
    if s != [] && IsWhiteSpace(s[|s| - 1]) {
      var r := TrimEnd(s[..|s| - 1]);
      TrimEndCut(s[..|s| - 1]);
      assert s[|r|..] == s[..|s| - 1][|r|..] + [s[|s| - 1]];
    }
  }

  // ---------------------------------------------------------------------
  // The submission
  // ---------------------------------------------------------------------

  /** The raw values of the form's fields (the time field is never read). */
  datatype BookingForm = BookingForm(
    fullName: string,
    phoneNumber: string,
    date: string,
    guests: string,
    bookingType: string)

  datatype Outcome = Rejected | OpenWhatsApp(url: string)

  /** The greeting that opens every message: "Hello Moments Cafe! I would like to make a booking." */
  const Greeting := "Hello Moments " + "Cafe! I would " + "like to make " + "a booking."
  /** An encoded line break. */
  const NewLine := "%0A"
  const WhatsAppBase := "https://wa.me/918112291143?text="

  /** `%0A<title>${encodeURIComponent(value)}` */
  function Line(title: string, value: string): string {
    NewLine + title + Encode(value)
  }

  /** The `message` template: greeting, a blank line, then Name, Phone, Date, Guests and Booking Type. */
  function Message(name: string, phone: string, date: string, guests: string, bookingType: string): string {
    Greeting + NewLine +
    Line("Name: ", name) + Line("Phone: ", phone) + Line("Date: ", date) +
    Line("Guests: ", guests) + Line("Booking Type: ", bookingType)
  }

  /** The submit handler. */
  function Submit(f: BookingForm): Outcome {
    var fullName := Trim(f.fullName);
    var phoneNumber := Trim(f.phoneNumber);
    if fullName == "" || phoneNumber == "" || f.date == "" || f.guests == "" || f.bookingType == "" then
      Rejected
    else
      OpenWhatsApp(WhatsAppBase + Message(fullName, phoneNumber, f.date, f.guests, f.bookingType))
  }

  /**
   * A submission is rejected exactly when the name or the phone is empty or
   * white space only, or the date, guests or booking type is empty.
   */
  lemma SubmitRejectedIff(f: BookingForm)
    ensures Submit(f) == Rejected <==>
              AllWhiteSpace(f.fullName) || AllWhiteSpace(f.phoneNumber) ||
              f.date == "" || f.guests == "" || f.bookingType == ""
  {
    TrimSpec(f.fullName);
    TrimSpec(f.phoneNumber);
  }

  // ---------------------------------------------------------------------
  // What the receiver reads
  // ---------------------------------------------------------------------

  /** The booking summary as plain text, with real line breaks. */
  function PlainLine(title: string, value: string): string {
    "\n" + title + value
  }

  function Summary(name: string, phone: string, date: string, guests: string, bookingType: string): string {
    Greeting + "\n" +
    PlainLine("Name: ", name) + PlainLine("Phone: ", phone) + PlainLine("Date: ", date) +
    PlainLine("Guests: ", guests) + PlainLine("Booking Type: ", bookingType)
  }

  /** `a` percent-decodes to the UTF-8 octets of `plain`. */
  ghost predicate DecodesTo(a: string, plain: string) {
    DecodeOctets(a) == Some(Utf8Encode(plain))
  }

  lemma DecodesToAppend(a: string, pa: string, b: string, pb: string)
    requires DecodesTo(a, pa) && DecodesTo(b, pb)
    ensures DecodesTo(a + b, pa + pb)
  {
    DecodeOctetsAppend(a, b);
    Utf8EncodeAppend(pa, pb);
  }

  lemma NewLineDecodes()
    ensures DecodesTo(NewLine, "\n")
  {
    assert NewLine[3..] == [];
    assert Utf8Encode("\n") == [10];
  }

  lemma LineDecodes(title: string, value: string)
    requires NoPercent(title)
    ensures DecodesTo(Line(title, value), PlainLine(title, value))
  {
    NewLineDecodes();
    DecodeOctetsPlain(title);
    DecodeOctetsOfEncode(value);
    DecodesToAppend(NewLine, "\n", title, title);
    DecodesToAppend(NewLine + title, "\n" + title, Encode(value), value);
  }

  /** No `%` in s: s percent-decodes to itself. */
  predicate NoPercent(s: string) {
    forall i :: 0 <= i < |s| ==> s[i] != '%'
  }

  lemma NoPercentAppend(a: string, b: string)
    requires NoPercent(a) && NoPercent(b)
    ensures NoPercent(a + b)
  {
  }

  lemma PlainParts()
    ensures NoPercent("Hello Moments ") && NoPercent("Cafe! I would ") && NoPercent("like to make ") && NoPercent("a booking.")
    ensures NoPercent("Name: ") && NoPercent("Phone: ") && NoPercent("Date: ") && NoPercent("Guests: ") && NoPercent("Booking Type: ")
  {
  }

  lemma GreetingNoPercent()
    ensures NoPercent(Greeting)
  {
    PlainParts();
    var g1, g2, g3, g4 := "Hello Moments ", "Cafe! I would ", "like to make ", "a booking.";
    NoPercentAppend(g1, g2);
    NoPercentAppend(g1 + g2, g3);
    NoPercentAppend(g1 + g2 + g3, g4);
  }

  lemma GreetingDecodes()
    ensures DecodesTo(Greeting + NewLine, Greeting + "\n")
  {
    GreetingNoPercent();
    DecodeOctetsPlain(Greeting);
    NewLineDecodes();
    DecodesToAppend(Greeting, Greeting, NewLine, "\n");
  }

  /**
   * Decoding the `text` parameter gives back the plain summary with the
   * user's values exactly as entered: no value can add, remove or reorder
   * lines.
   */
  lemma MessageDecodes(name: string, phone: string, date: string, guests: string, bookingType: string)
    ensures Decode(Message(name, phone, date, guests, bookingType)) == Some(Summary(name, phone, date, guests, bookingType))
  {
    GreetingDecodes();
    PlainParts();
    var m, p := Greeting + NewLine, Greeting + "\n";
    LineDecodes("Name: ", name);
    DecodesToAppend(m, p, Line("Name: ", name), PlainLine("Name: ", name));
    m, p := m + Line("Name: ", name), p + PlainLine("Name: ", name);
    LineDecodes("Phone: ", phone);
    DecodesToAppend(m, p, Line("Phone: ", phone), PlainLine("Phone: ", phone));
    m, p := m + Line("Phone: ", phone), p + PlainLine("Phone: ", phone);
    LineDecodes("Date: ", date);
    DecodesToAppend(m, p, Line("Date: ", date), PlainLine("Date: ", date));
    m, p := m + Line("Date: ", date), p + PlainLine("Date: ", date);
    LineDecodes("Guests: ", guests);
    DecodesToAppend(m, p, Line("Guests: ", guests), PlainLine("Guests: ", guests));
    m, p := m + Line("Guests: ", guests), p + PlainLine("Guests: ", guests);
    LineDecodes("Booking Type: ", bookingType);
    DecodesToAppend(m, p, Line("Booking Type: ", bookingType), PlainLine("Booking Type: ", bookingType));
    m, p := m + Line("Booking Type: ", bookingType), p + PlainLine("Booking Type: ", bookingType);
    assert m == Message(name, phone, date, guests, bookingType);
    assert p == Summary(name, phone, date, guests, bookingType);
    Utf8RoundTrip(p);
  }

  /**
   * An accepted submission opens the fixed WhatsApp address with a `text`
   * parameter that decodes to the summary of the trimmed name and phone and
   * of the date, guests and booking type as entered.
   */
  lemma SubmittedLinkCarriesSummary(f: BookingForm)
    requires Submit(f).OpenWhatsApp?
    ensures |Submit(f).url| >= |WhatsAppBase| && Submit(f).url[..|WhatsAppBase|] == WhatsAppBase
    ensures Decode(Submit(f).url[|WhatsAppBase|..]) ==
              Some(Summary(Trim(f.fullName), Trim(f.phoneNumber), f.date, f.guests, f.bookingType))
  {
    var text := Message(Trim(f.fullName), Trim(f.phoneNumber), f.date, f.guests, f.bookingType);
    assert (WhatsAppBase + text)[|WhatsAppBase|..] == text;
    MessageDecodes(Trim(f.fullName), Trim(f.phoneNumber), f.date, f.guests, f.bookingType);
  }
}
