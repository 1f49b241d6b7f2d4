/**
 * Phone-number handling of the booking form (script.js): the digit filter
 * `replace(/\D/g, '')`, the submit-time check that the last ten digits form
 * a ten-digit number, and the input formatter that keeps at most ten digits
 * and writes a dash after the fifth.
 */
module Phone {

  /** `\d` of a JavaScript regular expression without the `u` flag: ASCII 0-9. */
  predicate IsDigit(c: char) { '0' <= c <= '9' }

  predicate AllDigits(s: string) { forall i :: 0 <= i < |s| ==> IsDigit(s[i]) }

  /** `s.replace(/\D/g, '')`: the digits of s, in order. */
  function Digits(s: string): (d: string)
    ensures AllDigits(d) && |d| <= |s|
  {
    if s == [] then [] else (if IsDigit(s[0]) then [s[0]] else []) + Digits(s[1..])
  }

  lemma {:induction false} DigitsAppend(a: string, b: string)
    ensures Digits(a + b) == Digits(a) + Digits(b)
  {
    if a == [] {
      assert a + b == b;
    } else {
      assert (a + b)[1..] == a[1..] + b;
      DigitsAppend(a[1..], b);
    }
  }

  /** A string without digits has no digits to keep. */
  lemma {:induction false} DigitsOfNonDigits(s: string)
    requires forall i :: 0 <= i < |s| ==> !IsDigit(s[i])
    ensures Digits(s) == []
  {
    if s != [] {
      assert !IsDigit(s[0]);
      DigitsOfNonDigits(s[1..]);
    }
  }

  /** Removing the non-digits of a string made of digits changes nothing. */
  lemma {:induction false} DigitsOfDigits(s: string)
    requires AllDigits(s)
    ensures Digits(s) == s
  {
    if s != [] {
      DigitsOfDigits(s[1..]);
    }
  }

  /** `s.slice(-k)` for k > 0: the last k characters, or all of s when it is shorter. */
  function SliceLast(s: string, k: nat): (r: string)
    requires k > 0
    ensures |r| == if |s| < k then |s| else k
    ensures s == s[..|s| - |r|] + r
  {
    if |s| <= k then s else s[|s| - k..]
  }

  /** `/^\d{10}$/.test(s)` */
  predicate IsTenDigits(s: string) { |s| == 10 && AllDigits(s) }

  /** The submit-time phone check: `/^\d{10}$/.test(phone.replace(/\D/g, '').slice(-10))`. */
  predicate ValidPhone(phone: string) {
    IsTenDigits(SliceLast(Digits(phone), 10))
  }

  /** The phone check passes exactly when the field holds at least ten digits, wherever they are. */
  lemma ValidPhoneIff(phone: string)
    ensures ValidPhone(phone) <==> |Digits(phone)| >= 10
  {
    var d := Digits(phone);
    var last := SliceLast(d, 10);
    if |d| >= 10 {
      forall i | 0 <= i < |last| ensures IsDigit(last[i]) {
        assert last[i] == d[|d| - 10 + i];
      }
    }
  }

  /**
   * The `input` handler of the phone field: keep the digits, at most ten of
   * them, and put a dash after the fifth when there are six or more.
   */
  function FormatPhone(input: string): string {
    var all := Digits(input);
    var value := if |all| > 10 then all[..10] else all;
    if |value| >= 6 then value[..5] + "-" + value[5..] else value
  }

  /** The number of digits the formatter keeps. */
  function KeptDigits(input: string): nat {
    var n := |Digits(input)|;
    if n < 10 then n else 10
  }

  /** `s` with every dash removed. */
  function WithoutDashes(s: string): (r: string)
    ensures |r| <= |s|
  {
    if s == [] then [] else (if s[0] == '-' then [] else [s[0]]) + WithoutDashes(s[1..])
  }

  lemma {:induction false} WithoutDashesAppend(a: string, b: string)
    ensures WithoutDashes(a + b) == WithoutDashes(a) + WithoutDashes(b)
  {
    if a == [] {
      assert a + b == b;
    } else {
      assert (a + b)[1..] == a[1..] + b;
      WithoutDashesAppend(a[1..], b);
    }
  }

  lemma {:induction false} WithoutDashesOfDigits(s: string)
    requires AllDigits(s)
    ensures WithoutDashes(s) == s
  {
    if s != [] {
      WithoutDashesOfDigits(s[1..]);
    }
  }

  /** Writing a dash after the fifth of six or more digits: removing it gives the digits back. */
  lemma DashedWithoutDashes(v: string)
    requires AllDigits(v) && |v| >= 6
    ensures WithoutDashes(v[..5] + "-" + v[5..]) == v
  {
    WithoutDashesAppend(v[..5] + "-", v[5..]);
    WithoutDashesAppend(v[..5], "-");
    WithoutDashesOfDigits(v[..5]);
    WithoutDashesOfDigits(v[5..]);
    assert v[..5] + v[5..] == v;
  }

  /** The dash written after the fifth digit is the only dash, and every other character is a digit. */
  lemma DashedPositions(v: string)
    requires AllDigits(v) && |v| >= 6
    ensures |v[..5] + "-" + v[5..]| == |v| + 1
    ensures forall i :: 0 <= i < |v| + 1 ==> ((v[..5] + "-" + v[5..])[i] == '-' <==> i == 5)
    ensures forall i :: 0 <= i < |v| + 1 ==> i != 5 ==> IsDigit((v[..5] + "-" + v[5..])[i])
  {
    var out := v[..5] + "-" + v[5..];
    forall i | 0 <= i < |v| + 1
      ensures (out[i] == '-' <==> i == 5) && (i != 5 ==> IsDigit(out[i]))
    {
      if i < 5 {
        assert out[i] == v[i];
      } else if i > 5 {
        assert out[i] == v[i - 1];
      }
    }
  }

  /**
   * The formatted value: with its dash removed it is the first
   * min(10, #digits) digits of the input; it holds a dash exactly at index 5
   * and exactly when there are six or more such digits; every other
   * character is a digit.
   */
  lemma FormatPhoneShape(input: string)
    ensures WithoutDashes(FormatPhone(input)) == Digits(input)[..KeptDigits(input)]
    ensures |FormatPhone(input)| == if KeptDigits(input) >= 6 then KeptDigits(input) + 1 else KeptDigits(input)
    ensures forall i :: 0 <= i < |FormatPhone(input)| ==>
              (FormatPhone(input)[i] == '-' <==> i == 5 && KeptDigits(input) >= 6)
    ensures forall i :: 0 <= i < |FormatPhone(input)| ==>
              IsDigit(FormatPhone(input)[i]) || FormatPhone(input)[i] == '-'
  {
    var value := Digits(input)[..KeptDigits(input)];
    assert AllDigits(value) && |value| == KeptDigits(input);
    if |value| >= 6 {
      assert FormatPhone(input) == value[..5] + "-" + value[5..];
      DashedWithoutDashes(value);
      DashedPositions(value);
    } else {
      assert FormatPhone(input) == value;
      WithoutDashesOfDigits(value);
    }
  }

  /** The digits of the formatted value are the digits the formatter kept. */
  lemma DigitsOfFormatted(input: string)
    ensures Digits(FormatPhone(input)) == Digits(input)[..KeptDigits(input)]
  {
    var value := Digits(input)[..KeptDigits(input)];
    if |value| >= 6 {
      assert FormatPhone(input) == value[..5] + "-" + value[5..];
      DigitsAppend(value[..5] + "-", value[5..]);
      DigitsAppend(value[..5], "-");
      DigitsOfDigits(value[..5]);
      DigitsOfDigits(value[5..]);
      assert Digits("-") == "";
      assert value[..5] + value[5..] == value;
    } else {
      assert FormatPhone(input) == value;
      DigitsOfDigits(value);
    }
  }

  /** Formatting an already formatted value changes nothing. */
  lemma FormatPhoneIdempotent(input: string)
    ensures FormatPhone(FormatPhone(input)) == FormatPhone(input)
  {
    DigitsOfFormatted(input);
    var value := Digits(input)[..KeptDigits(input)];
    assert Digits(FormatPhone(input)) == value;
  }

  /** A formatted phone passes the submit-time check exactly when the input had ten digits or more. */
  lemma FormattedPhoneValid(input: string)
    ensures ValidPhone(FormatPhone(input)) <==> |Digits(input)| >= 10
  {
    DigitsOfFormatted(input);
    ValidPhoneIff(FormatPhone(input));
  }
}
