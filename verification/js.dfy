/**
  The host-language values the email worker handles: bytes, the text fields a
  parsed message may leave undefined, the decimal rendering JavaScript uses when
  a number is concatenated to a string, `String.prototype.includes`, and the
  faults and completions that stand in for thrown exceptions.
 */
module Js {

  /** One element of a `Uint8Array`. */
  newtype uint8 = x: int | 0 <= x < 0x100

  /** A failure that JavaScript would raise as an exception. */
  datatype Fault =
    /** `Uint8Array.prototype.set` asked to copy `length` elements at `offset`
        into an array of `capacity` elements, past its end. */
    | RangeError(offset: nat, length: nat, capacity: nat)
    /** A failure raised inside a capability this model keeps abstract
        (the MIME parser, the network, the JSON parser, the host's forwarder). */
    | Rejected(reason: string)

  /** The value of an expression that either produces a `T` or throws. */
  datatype Result<+T> = Ok(value: T) | Err(error: Fault)

  /** How a statement that produces no value ends: normally or by throwing. */
  datatype Completion = Normal | Abrupt(fault: Fault)

  /** A property of a parsed message that is a string, or is missing. */
  datatype JsText = Str(s: string) | Undefined | Null

  /** What the `+` operator inserts for a `JsText`: the string itself, or
      the names JavaScript gives to the two missing values. A missing field
      therefore reads exactly like a field holding the text "undefined" or
      "null". */
  function ToStr(v: JsText): (r: string)
    ensures v.Str? ==> r == v.s
    ensures r == "undefined" <==> v == Undefined || v == Str("undefined")
    ensures r == "null" <==> v == Null || v == Str("null")
  {
    match v
    case Str(s) => s
    case Undefined => "undefined"
    case Null => "null"
  }

  // ---------------------------------------------------------------------------
  // Decimal rendering of a non-negative integer (what `"" + n` produces)
  // ---------------------------------------------------------------------------

  predicate IsDigit(c: char) {
    '0' <= c <= '9'
  }

  predicate AllDigits(s: string) {
    forall i :: 0 <= i < |s| ==> IsDigit(s[i])
  }

  /** A digit string as JavaScript prints an integer: non-empty, and without a
      leading zero unless it is "0" itself. */
  predicate IsCanonicalDecimal(s: string) {
    |s| >= 1 && AllDigits(s) && (|s| > 1 ==> s[0] != '0')
  }

  function DigitChar(d: nat): (c: char)
    requires d < 10
    ensures IsDigit(c)
  {
    (48 + d) as char
  }

  function DigitValue(c: char): (d: nat)
    requires IsDigit(c)
    ensures d < 10
    ensures DigitChar(d) == c
  {
    c as int - 48
  }

  /** The text JavaScript gives a non-negative integer below 2^53, such as a
      byte length. (From 10^21 upward JavaScript switches to exponent
      notation; no byte length comes near that.) */
  function DecimalString(n: nat): (s: string)
    ensures IsCanonicalDecimal(s)
    ensures (n < 10) == (|s| == 1)
    decreases n
  {
    if n < 10 then [DigitChar(n)]
    else DecimalString(n / 10) + [DigitChar(n % 10)]
  }

  /** The value of a digit string, read most significant digit first. */
  function ParseDecimal(s: string): nat
    requires AllDigits(s)
  {
    if |s| == 0 then 0
    else 10 * ParseDecimal(s[..|s| - 1]) + DigitValue(s[|s| - 1])
  }

  /** Reading back the rendering of `n` gives `n`. */
  lemma {:induction false} DecimalRoundTrip(n: nat)
    ensures ParseDecimal(DecimalString(n)) == n
    decreases n
  {
    var s := DecimalString(n);
    if n >= 10 {
      DecimalRoundTrip(n / 10);
      assert s[..|s| - 1] == DecimalString(n / 10);
      assert DigitValue(DigitChar(n % 10)) == n % 10;
    } else {
      assert DigitValue(DigitChar(n)) == n;
    }
  }

  /** A canonical digit string that does not start with '0' denotes a positive number. */
  lemma {:induction false} LeadingNonZeroIsPositive(s: string)
    requires |s| >= 1 && AllDigits(s) && s[0] != '0'
    ensures ParseDecimal(s) >= 1
    decreases |s|
  {
    if |s| > 1 {
      LeadingNonZeroIsPositive(s[..|s| - 1]);
    }
  }

  /** Every canonical digit string is the rendering of the number it denotes,
      so rendering is a bijection between naturals and canonical strings. */
  lemma {:induction false} DecimalStringOfParse(s: string)
    requires IsCanonicalDecimal(s)
    ensures DecimalString(ParseDecimal(s)) == s
    decreases |s|
  {
    var d := DigitValue(s[|s| - 1]);
    if |s| == 1 {
      assert ParseDecimal(s) == d;
      assert s == [s[0]];
    } else {
      var front := s[..|s| - 1];
      assert front[0] == s[0];
      LeadingNonZeroIsPositive(front);
      DecimalStringOfParse(front);
      var p := ParseDecimal(front);
      var n := 10 * p + d;
      assert n / 10 == p && n % 10 == d;
      assert s == front + [s[|s| - 1]];
    }
  }

  /** Two distinct numbers never render to the same text. */
  lemma DecimalStringInjective(m: nat, n: nat)
    ensures DecimalString(m) == DecimalString(n) ==> m == n
  {
    DecimalRoundTrip(m);
    DecimalRoundTrip(n);
  }

  // ---------------------------------------------------------------------------
  // String.prototype.includes
  // ---------------------------------------------------------------------------

  /** `t` occurs in `s` starting at position `i`. */
  predicate OccursAt(s: string, t: string, i: int) {
    0 <= i && i + |t| <= |s| && s[i..i + |t|] == t
  }

  /** `s.includes(t)`: scans `s` from the left for an occurrence of `t`, and
      finds one exactly when `t` occurs somewhere in `s`. */
  function Includes(s: string, t: string): (r: bool)
    ensures r <==> exists i :: OccursAt(s, t, i)
    decreases |s|
  {
    if |t| > |s| then false
    else if s[..|t|] == t then
      assert OccursAt(s, t, 0);
      true
    else
      OccurrenceShift(s, t);
      Includes(s[1..], t)
  }

  /** When `t` does not start `s`, its occurrences in `s` are those in `s[1..]`,
      moved one position right. */
  lemma OccurrenceShift(s: string, t: string)
    requires |s| >= 1 && !OccursAt(s, t, 0)
    ensures (exists i :: OccursAt(s, t, i)) <==> (exists i :: OccursAt(s[1..], t, i))
  {
    if exists i :: OccursAt(s[1..], t, i) {
      var i :| OccursAt(s[1..], t, i);
      assert s[1..][i..i + |t|] == s[i + 1..i + 1 + |t|];
      assert OccursAt(s, t, i + 1);
    }
    if exists i :: OccursAt(s, t, i) {
      var i :| OccursAt(s, t, i);
      assert s[1..][i - 1..i - 1 + |t|] == s[i..i + |t|];
      assert OccursAt(s[1..], t, i - 1);
    }
  }
}
