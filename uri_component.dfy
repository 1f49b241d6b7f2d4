/**
 * `encodeURIComponent` as ECMAScript defines it: characters of the unescaped
 * set (ASCII letters, digits and `-_.!~*'()`) stay as they are; every other
 * character is encoded as UTF-8 and each octet written as `%` and two
 * upper-case hexadecimal digits, the percent-encoding of section 2.1 of
 * RFC 3986.
 *
 * Beside it stands the inverse a receiver applies: percent-decoding to
 * octets (section 2.1 of RFC 3986, either case of hex digit) followed by
 * UTF-8 decoding (RFC 3629), with the round trip proved.
 *
 * Dafny's `char` is a Unicode scalar value, so the lone surrogates on which
 * JavaScript's encodeURIComponent throws do not arise here.
 */
module UriComponent {
  import opened JsCore

  type Byte = b: int | 0 <= b < 256

  /** The characters encodeURIComponent leaves unescaped. */
  predicate IsUnescaped(c: char) {
    ('A' <= c <= 'Z') || ('a' <= c <= 'z') || ('0' <= c <= '9') ||
    c == '-' || c == '_' || c == '.' || c == '!' || c == '~' || c == '*' || c == '\'' || c == '(' || c == ')'
  }

  predicate IsUpperHexDigit(c: char) { ('0' <= c <= '9') || ('A' <= c <= 'F') }

  function HexDigit(n: int): (c: char)
    requires 0 <= n < 16
    ensures IsUpperHexDigit(c)
  {
    if n < 10 then ('0' as int + n) as char else ('A' as int + n - 10) as char
  }

  /** The value of a hexadecimal digit of either case. */
  function HexValue(c: char): (r: Option<int>)
    ensures r.Some? ==> 0 <= r.value < 16
  {
    if '0' <= c <= '9' then Some(c as int - '0' as int)
    else if 'A' <= c <= 'F' then Some(c as int - 'A' as int + 10)
    else if 'a' <= c <= 'f' then Some(c as int - 'a' as int + 10)
    else None
  }

  lemma HexValueOfDigit(n: int)
    requires 0 <= n < 16
    ensures HexValue(HexDigit(n)) == Some(n)
  {
  }

  // ---------------------------------------------------------------------
  // UTF-8
  // ---------------------------------------------------------------------

  /** A continuation octet 10xxxxxx carrying the low six bits of n. */
  function Cont(n: nat): Byte { 0x80 + n % 64 }

  /** The UTF-8 encoding of one scalar value (RFC 3629, section 3). */
  function Utf8(c: char): (bs: seq<Byte>)
    ensures 1 <= |bs| <= 4
  {
    var cp := c as int;
    var q1 := cp / 64;
    var q2 := q1 / 64;
    var q3 := q2 / 64;
    if cp < 0x80 then [cp]
    else if cp < 0x800 then [0xC0 + q1, Cont(cp)]
    else if cp < 0x10000 then [0xE0 + q2, Cont(q1), Cont(cp)]
    else [0xF0 + q3, Cont(q2), Cont(q1), Cont(cp)]
  }

  function Utf8Encode(s: string): seq<Byte> {
    if s == [] then [] else Utf8(s[0]) + Utf8Encode(s[1..])
  }

  predicate IsCont(b: Byte) { 0x80 <= b < 0xC0 }

  /**
   * The first scalar value of a UTF-8 octet sequence and the number of octets
   * it takes; None for an ill-formed start (a stray continuation octet, an
   * overlong form, a surrogate, a value beyond U+10FFFF, a truncated
   * sequence).
   */
  function DecodeFirst(bs: seq<Byte>): (r: Option<(char, nat)>)
    requires |bs| > 0
    ensures r.Some? ==> 1 <= r.value.1 <= |bs|
  {
    var b0: int := bs[0];
    var b1: int := if |bs| > 1 then bs[1] else 0;
    var b2: int := if |bs| > 2 then bs[2] else 0;
    var b3: int := if |bs| > 3 then bs[3] else 0;
    if b0 < 0x80 then Some((b0 as char, 1))
    else if 0xC2 <= b0 < 0xE0 && |bs| >= 2 && IsCont(bs[1]) then
      var cp := (b0 - 0xC0) * 64 + (b1 - 0x80);
      Some((cp as char, 2))
    else if 0xE0 <= b0 < 0xF0 && |bs| >= 3 && IsCont(bs[1]) && IsCont(bs[2]) then
      var cp := ((b0 - 0xE0) * 64 + (b1 - 0x80)) * 64 + (b2 - 0x80);
      if cp < 0x800 || (0xD800 <= cp < 0xE000) then None else Some((cp as char, 3))
    else if 0xF0 <= b0 < 0xF5 && |bs| >= 4 && IsCont(bs[1]) && IsCont(bs[2]) && IsCont(bs[3]) then
      var cp := (((b0 - 0xF0) * 64 + (b1 - 0x80)) * 64 + (b2 - 0x80)) * 64 + (b3 - 0x80);
      if cp < 0x10000 || cp > 0x10FFFF then None else Some((cp as char, 4))
    else None
  }

  /** UTF-8 decoding of a whole octet sequence; None when it is ill-formed anywhere. */
  function Utf8Decode(bs: seq<Byte>): Option<string>
    decreases |bs|
  {
    if bs == [] then Some([])
    else match DecodeFirst(bs)
      case None => None
      case Some((c, k)) =>
        match Utf8Decode(bs[k..])
        case None => None
        case Some(rest) => Some([c] + rest)
  }

  /** The UTF-8 encoding of a character is decoded back to it, whatever follows. */
  lemma DecodeFirstUtf8(c: char, rest: seq<Byte>)
    ensures DecodeFirst(Utf8(c) + rest) == Some((c, |Utf8(c)|))
  {
    var cp := c as int;
    if cp < 0x80 {
    } else if cp < 0x800 {
      DecodeFirstTwo(c, rest);
    } else if cp < 0x10000 {
      DecodeFirstThree(c, rest);
    } else {
      DecodeFirstFour(c, rest);
    }
  }

  lemma DecodeFirstTwo(c: char, rest: seq<Byte>)
    requires 0x80 <= c as int < 0x800
    ensures DecodeFirst(Utf8(c) + rest) == Some((c, 2))
  {
    var cp := c as int;
    var q1 := cp / 64;
    var bs := Utf8(c) + rest;
    assert cp == q1 * 64 + cp % 64;
    assert bs[0] == 0xC0 + q1 && bs[1] == 0x80 + cp % 64;
  }

  lemma DecodeFirstThree(c: char, rest: seq<Byte>)
    requires 0x800 <= c as int < 0x10000
    ensures DecodeFirst(Utf8(c) + rest) == Some((c, 3))
  {
    var cp := c as int;
    var q1 := cp / 64;
    var q2 := q1 / 64;
    var bs := Utf8(c) + rest;
    assert cp == q1 * 64 + cp % 64;
    assert q1 == q2 * 64 + q1 % 64;
    assert bs[0] == 0xE0 + q2 && bs[1] == 0x80 + q1 % 64 && bs[2] == 0x80 + cp % 64;
    assert (q2 * 64 + q1 % 64) * 64 + cp % 64 == cp;
  }

  lemma DecodeFirstFour(c: char, rest: seq<Byte>)
    requires 0x10000 <= c as int
    ensures DecodeFirst(Utf8(c) + rest) == Some((c, 4))
  {
    var cp := c as int;
    var q1 := cp / 64;
    var q2 := q1 / 64;
    var q3 := q2 / 64;
    var bs := Utf8(c) + rest;
    assert cp == q1 * 64 + cp % 64;
    assert q1 == q2 * 64 + q1 % 64;
    assert q2 == q3 * 64 + q2 % 64;
    assert q3 < 5;
    assert bs[0] == 0xF0 + q3 && bs[1] == 0x80 + q2 % 64 && bs[2] == 0x80 + q1 % 64 && bs[3] == 0x80 + cp % 64;
    assert ((q3 * 64 + q2 % 64) * 64 + q1 % 64) * 64 + cp % 64 == cp;
  }

  /** Joining two decodings, failing when either fails. */
  function Join<T>(a: Option<seq<T>>, b: Option<seq<T>>): Option<seq<T>> {
    match (a, b)
    case (Some(x), Some(y)) => Some(x + y)
    case _ => None
  }

  /** Putting a character in front of a decoding, failing when the decoding fails. */
  function Cons(c: char, o: Option<string>): Option<string> {
    match o
    case None => None
    case Some(t) => Some([c] + t)
  }

  lemma Utf8DecodeCons(c: char, rest: seq<Byte>)
    ensures Utf8Decode(Utf8(c) + rest) == Cons(c, Utf8Decode(rest))
  {
    var bs := Utf8(c) + rest;
    DecodeFirstUtf8(c, rest);
    assert bs[|Utf8(c)|..] == rest;
  }

  lemma ConsJoin(c: char, x: string, o: Option<string>)
    ensures Cons(c, Join(Some(x), o)) == Join(Some([c] + x), o)
  {
    if o.Some? {
      assert [c] + (x + o.value) == ([c] + x) + o.value;
    }
  }

  /** Decoding the UTF-8 encoding of a string in front of more octets yields the string first. */
  lemma {:induction false} Utf8DecodeEncode(s: string, rest: seq<Byte>)
    ensures Utf8Decode(Utf8Encode(s) + rest) == Join(Some(s), Utf8Decode(rest))
  {
    if s == [] {
      assert Utf8Encode(s) + rest == rest;
      JoinEmpty(Utf8Decode(rest));
    } else {
      var tail := Utf8Encode(s[1..]) + rest;
      assert Utf8Encode(s) + rest == Utf8(s[0]) + tail;
      Utf8DecodeCons(s[0], tail);
      Utf8DecodeEncode(s[1..], rest);
      ConsJoin(s[0], s[1..], Utf8Decode(rest));
      assert [s[0]] + s[1..] == s;
    }
  }

  lemma JoinEmpty<T>(o: Option<seq<T>>)
    ensures Join(Some([]), o) == o
  {
    if o.Some? {
      assert [] + o.value == o.value;
    }
  }

  lemma Utf8RoundTrip(s: string)
    ensures Utf8Decode(Utf8Encode(s)) == Some(s)
  {
    Utf8DecodeEncode(s, []);
    assert Utf8Encode(s) + [] == Utf8Encode(s);
    assert s + [] == s;
  }

  lemma {:induction false} Utf8EncodeAppend(a: string, b: string)
    ensures Utf8Encode(a + b) == Utf8Encode(a) + Utf8Encode(b)
  {
    if a == [] {
      assert a + b == b;
    } else {
      assert (a + b)[1..] == a[1..] + b;
      Utf8EncodeAppend(a[1..], b);
    }
  }

  // ---------------------------------------------------------------------
  // Percent-encoding
  // ---------------------------------------------------------------------

  /** `%` followed by the octet's two upper-case hex digits. */
  function PercentOctet(b: Byte): string {
    ['%', HexDigit(b / 16), HexDigit(b % 16)]
  }

  function PercentOctets(bs: seq<Byte>): string {
    if bs == [] then [] else PercentOctet(bs[0]) + PercentOctets(bs[1..])
  }

  function EncodeChar(c: char): string {
    if IsUnescaped(c) then [c] else PercentOctets(Utf8(c))
  }

  /** `encodeURIComponent(s)` */
  function Encode(s: string): string {
    if s == [] then [] else EncodeChar(s[0]) + Encode(s[1..])
  }

  /**
   * Percent-decoding to octets: `%XY` is the octet with hex value XY, any
   * other character stands for its own UTF-8 octets; None for a `%` not
   * followed by two hex digits.
   */
  function DecodeOctets(s: string): Option<seq<Byte>>
    decreases |s|
  {
    if s == [] then Some([])
    else if s[0] == '%' then
      if |s| >= 3 && HexValue(s[1]).Some? && HexValue(s[2]).Some? then
        match DecodeOctets(s[3..])
        case None => None
        case Some(rest) => Some([HexValue(s[1]).value * 16 + HexValue(s[2]).value] + rest)
      else None
    else
      match DecodeOctets(s[1..])
      case None => None
      case Some(rest) => Some(Utf8(s[0]) + rest)
  }

  /** The receiver's decoding: percent-decoding, then UTF-8 decoding. */
  function Decode(s: string): Option<string> {
    match DecodeOctets(s)
    case None => None
    case Some(bs) => Utf8Decode(bs)
  }

  lemma JoinAssoc<T>(x: seq<T>, y: seq<T>, o: Option<seq<T>>)
    ensures Join(Some(x), Join(Some(y), o)) == Join(Some(x + y), o)
  {
    if o.Some? {
      assert x + (y + o.value) == (x + y) + o.value;
    }
  }

  /** A string that decodes completely can be decoded on its own in front of anything. */
  lemma {:induction false} DecodeOctetsAppend(a: string, b: string)
    requires DecodeOctets(a).Some?
    ensures DecodeOctets(a + b) == Join(DecodeOctets(a), DecodeOctets(b))
    decreases |a|
  {
    if a == [] {
      assert a + b == b;
      JoinEmpty(DecodeOctets(b));
    } else if a[0] == '%' {
      var o := HexValue(a[1]).value * 16 + HexValue(a[2]).value;
      assert DecodeOctets(a + b) == Join(Some([o]), DecodeOctets(a[3..] + b)) by {
        assert (a + b)[..3] == a[..3];
        assert (a + b)[3..] == a[3..] + b;
      }
      assert DecodeOctets(a) == Join(Some([o]), DecodeOctets(a[3..]));
      DecodeOctetsAppend(a[3..], b);
      JoinAssoc([o], DecodeOctets(a[3..]).value, DecodeOctets(b));
    } else {
      assert DecodeOctets(a + b) == Join(Some(Utf8(a[0])), DecodeOctets(a[1..] + b)) by {
        assert (a + b)[1..] == a[1..] + b;
      }
      assert DecodeOctets(a) == Join(Some(Utf8(a[0])), DecodeOctets(a[1..]));
      DecodeOctetsAppend(a[1..], b);
      JoinAssoc(Utf8(a[0]), DecodeOctets(a[1..]).value, DecodeOctets(b));
    }
  }

  /** The two hex digits of an octet give the octet back. */
  lemma PercentOctetValue(b: Byte)
    ensures HexValue(HexDigit(b / 16)).value * 16 + HexValue(HexDigit(b % 16)).value == b
  {
    HexValueOfDigit(b / 16);
    HexValueOfDigit(b % 16);
  }

  lemma DecodePercentOctetFront(b: Byte, t: string)
    ensures DecodeOctets(PercentOctet(b) + t) == Join(Some([b]), DecodeOctets(t))
  {
    var s := PercentOctet(b) + t;
    PercentOctetValue(b);
    assert s[0] == '%' && s[1] == HexDigit(b / 16) && s[2] == HexDigit(b % 16);
    assert s[3..] == t;
  }

  lemma {:induction false} DecodePercentOctets(bs: seq<Byte>)
    ensures DecodeOctets(PercentOctets(bs)) == Some(bs)
  {
    if bs != [] {
      DecodePercentOctets(bs[1..]);
      DecodePercentOctetFront(bs[0], PercentOctets(bs[1..]));
      assert bs == [bs[0]] + bs[1..];
    }
  }

  lemma DecodeEncodeChar(c: char)
    ensures DecodeOctets(EncodeChar(c)) == Some(Utf8(c))
  {
    if IsUnescaped(c) {
      assert [c][1..] == [];
      assert Utf8(c) + [] == Utf8(c);
    } else {
      DecodePercentOctets(Utf8(c));
    }
  }

  /** Percent-decoding an encoded string yields the string's UTF-8 octets. */
  lemma {:induction false} DecodeOctetsOfEncode(s: string)
    ensures DecodeOctets(Encode(s)) == Some(Utf8Encode(s))
  {
    if s != [] {
      DecodeEncodeChar(s[0]);
      DecodeOctetsOfEncode(s[1..]);
      DecodeOctetsAppend(EncodeChar(s[0]), Encode(s[1..]));
    }
  }

  /** decodeURIComponent(encodeURIComponent(s)) == s */
  lemma RoundTrip(s: string)
    ensures Decode(Encode(s)) == Some(s)
  {
    DecodeOctetsOfEncode(s);
    Utf8RoundTrip(s);
  }

  /** A string with no `%` percent-decodes to its own UTF-8 octets. */
  lemma {:induction false} DecodeOctetsPlain(s: string)
    requires forall i :: 0 <= i < |s| ==> s[i] != '%'
    ensures DecodeOctets(s) == Some(Utf8Encode(s))
  {
    if s != [] {
      DecodeOctetsPlain(s[1..]);
    }
  }

  /** The alphabet of an encoded string. */
  predicate IsEncodedChar(c: char) { IsUnescaped(c) || c == '%' || IsUpperHexDigit(c) }

  lemma {:induction false} PercentOctetsAlphabet(bs: seq<Byte>)
    ensures forall i :: 0 <= i < |PercentOctets(bs)| ==> IsEncodedChar(PercentOctets(bs)[i])
  {
    if bs != [] {
      PercentOctetsAlphabet(bs[1..]);
      var p := PercentOctet(bs[0]);
      var t := PercentOctets(bs[1..]);
      forall i | 0 <= i < |p + t| ensures IsEncodedChar((p + t)[i]) {
        if i >= 3 { assert (p + t)[i] == t[i - 3]; }
      }
    }
  }

  /**
   * An encoded value holds nothing but unescaped characters, `%` and hex
   * digits; in particular no `&`, `#`, `=` or space, so a value cannot end
   * or split the query parameter it is placed in.
   */
  lemma {:induction false} EncodeAlphabet(s: string)
    ensures forall i :: 0 <= i < |Encode(s)| ==> IsEncodedChar(Encode(s)[i])
  {
    if s != [] {
      EncodeAlphabet(s[1..]);
      var e := EncodeChar(s[0]);
      var t := Encode(s[1..]);
      if !IsUnescaped(s[0]) {
        PercentOctetsAlphabet(Utf8(s[0]));
      }
      forall i | 0 <= i < |e + t| ensures IsEncodedChar((e + t)[i]) {
        if i >= |e| { assert (e + t)[i] == t[i - |e|]; }
      }
    }
  }
}
