/** JavaScript's global `parseInt(string)` called without a radix, as the
    ECMAScript definition of that function describes it: leading whitespace
    is skipped, an optional sign is read, a `0x`/`0X` prefix switches to
    base 16, and the longest run of digits that follows is the value.
    `None` stands for `NaN` (no digit at all). */
module JsInt {
  import opened Options
  import Text

  /** The value of `c` read as a digit in bases up to 36, or 36 for a
      character that is a digit in no base. */
  function DigitWeight(c: char): (w: nat)
    ensures w <= 36
  {
    if '0' <= c <= '9' then c as int - '0' as int
    else if 'a' <= c <= 'z' then c as int - 'a' as int + 10
    else if 'A' <= c <= 'Z' then c as int - 'A' as int + 10
    else 36
  }

  predicate IsDigit(c: char, radix: nat) {
    DigitWeight(c) < radix
  }

  /** Length of the longest prefix of `s` made of digits of `radix`. */
  function DigitRun(s: string, radix: nat): (n: nat)
    ensures n <= |s|
    ensures forall i :: 0 <= i < n ==> IsDigit(s[i], radix)
    ensures n < |s| ==> !IsDigit(s[n], radix)
  {
    if s == [] || !IsDigit(s[0], radix) then 0 else 1 + DigitRun(s[1..], radix)
  }

  /** The number a string of digits denotes in base `radix`, most
      significant digit first. */
  function DigitsValue(s: string, radix: nat): nat {
    if s == [] then 0
    else DigitsValue(s[..|s| - 1], radix) * radix + DigitWeight(s[|s| - 1])
  }

  /** Position in `s` after its leading whitespace and at most one sign. */
  function DigitsStart(s: string): (j: nat)
    ensures Text.LeadingSpaces(s) <= j <= |s|
    ensures forall i :: 0 <= i < Text.LeadingSpaces(s) ==> Text.IsSpace(s[i])
  {
    var k := Text.LeadingSpaces(s);
    if k < |s| && (s[k] == '-' || s[k] == '+') then k + 1 else k
  }

  /** Whether `s` holds a number for `parseInt`: after the blanks and the
      sign comes either `0x`/`0X` and a hexadecimal digit, or a decimal
      digit that does not open a `0x` prefix. */
  predicate HasNumber(s: string) {
    var j := DigitsStart(s);
    if j + 1 < |s| && s[j] == '0' && (s[j + 1] == 'x' || s[j + 1] == 'X')
    then j + 2 < |s| && IsDigit(s[j + 2], 16)
    else j < |s| && IsDigit(s[j], 10)
  }

  /** `parseInt(s)`: a number exactly when `HasNumber(s)`, `NaN` otherwise. */
  function ParseInt(s: string): (r: Option<int>)
    ensures r.Some? <==> HasNumber(s)
  {
    UnsignedPart(s);
    MagnitudeDefined(s[DigitsStart(s)..]);
    ParseDigits(Text.TrimStart(s))
  }

  /** What `ParseDigits` reads its magnitude from is the suffix of `s` at
      `DigitsStart(s)`. */
  lemma UnsignedPart(s: string)
    ensures var t := Text.TrimStart(s);
      (if |t| > 0 && (t[0] == '-' || t[0] == '+') then t[1..] else t) == s[DigitsStart(s)..]
  {
    var k := Text.LeadingSpaces(s);
    var t := Text.TrimStart(s);
    assert t == s[k..];
    if |t| > 0 {
      assert t[0] == s[k];
      assert t[1..] == s[k + 1..];
    }
  }

  lemma RunDefined(v: string, radix: nat)
    ensures ReadDigits(v, radix).Some? <==> (|v| > 0 && IsDigit(v[0], radix))
  {
  }

  lemma MagnitudeDefined(u: string)
    ensures Magnitude(u).Some? <==>
      (if HasHexPrefix(u) then |u| > 2 && IsDigit(u[2], 16) else |u| > 0 && IsDigit(u[0], 10))
  {
    if HasHexPrefix(u) {
      RunDefined(u[2..], 16);
    } else {
      RunDefined(u, 10);
    }
  }

  /** `parseInt` on a string whose leading whitespace is already gone. */
  function ParseDigits(t: string): Option<int> {
    var negative := |t| > 0 && t[0] == '-';
    var u := if |t| > 0 && (t[0] == '-' || t[0] == '+') then t[1..] else t;
    Signed(negative, Magnitude(u))
  }

  function Signed(negative: bool, m: Option<nat>): Option<int> {
    match m
    case None => None
    case Some(v) => Some(if negative then -(v as int) else v as int)
  }

  predicate HasHexPrefix(u: string) {
    |u| >= 2 && u[0] == '0' && (u[1] == 'x' || u[1] == 'X')
  }

  /** The unsigned value at the front of `u`: hexadecimal after a `0x`
      prefix, decimal otherwise. */
  function Magnitude(u: string): Option<nat> {
    if HasHexPrefix(u) then ReadDigits(u[2..], 16) else ReadDigits(u, 10)
  }

  function ReadDigits(v: string, radix: nat): Option<nat> {
    var n := DigitRun(v, radix);
    if n == 0 then None else Some(DigitsValue(v[..n], radix))
  }

  function DecimalDigit(d: nat): (c: char)
    requires d < 10
    ensures DigitWeight(c) == d
  {
    ['0', '1', '2', '3', '4', '5', '6', '7', '8', '9'][d]
  }

  /** The decimal rendering of a natural number, without leading zeros. */
  function ShowNat(n: nat): (s: string)
    ensures |s| > 0
    ensures forall i :: 0 <= i < |s| ==> IsDigit(s[i], 10)
    ensures |s| > 1 ==> s[0] != '0'
  {
    if n < 10 then [DecimalDigit(n)] else ShowNat(n / 10) + [DecimalDigit(n % 10)]
  }

  /** The decimal rendering of an integer, with a `-` for negatives. */
  function Show(n: int): string {
    if n < 0 then "-" + ShowNat(-n) else ShowNat(n)
  }

  lemma {:induction false} ShowNatValue(n: nat)
    ensures DigitsValue(ShowNat(n), 10) == n
  {
    var s := ShowNat(n);
    if n >= 10 {
      assert s[..|s| - 1] == ShowNat(n / 10);
      ShowNatValue(n / 10);
    }
  }

  lemma {:induction false} DigitRunAppend(d: string, tail: string, radix: nat)
    requires forall i :: 0 <= i < |d| ==> IsDigit(d[i], radix)
    requires tail == [] || !IsDigit(tail[0], radix)
    ensures DigitRun(d + tail, radix) == |d|
  {
    if d == [] {
      assert d + tail == tail;
    } else {
      assert (d + tail)[1..] == d[1..] + tail;
      DigitRunAppend(d[1..], tail, radix);
    }
  }

  /** An unsigned run of decimal digits followed by a separator reads as
      the run's value. */
  lemma ParseUnsigned(d: string, tail: string)
    requires d != [] && forall i :: 0 <= i < |d| ==> IsDigit(d[i], 10)
    requires tail == [] || DigitWeight(tail[0]) == 36
    ensures Magnitude(d + tail) == Some(DigitsValue(d, 10))
  {
    var u := d + tail;
    if |u| >= 2 {
      if |d| >= 2 { assert u[1] == d[1]; } else { assert u[1] == tail[0]; }
    }
    assert !HasHexPrefix(u);
    DigitRunAppend(d, tail, 10);
    assert u[..|d|] == d;
  }

  lemma ParseMinus(x: string)
    ensures ParseDigits("-" + x) == Signed(true, Magnitude(x))
  {
    assert ("-" + x)[1..] == x;
  }

  lemma ParseUnsignedStart(x: string)
    requires x != [] && DigitWeight(x[0]) < 10
    ensures ParseDigits(x) == Signed(false, Magnitude(x))
  {
  }

  lemma ParseNonNegative(n: nat, tail: string)
    requires tail == [] || DigitWeight(tail[0]) == 36
    ensures ParseInt(ShowNat(n) + tail) == Some(n as int)
  {
    var d := ShowNat(n);
    var x := d + tail;
    assert Magnitude(x) == Some(n) by {
      ShowNatValue(n);
      ParseUnsigned(d, tail);
    }
    assert x[0] == d[0];
    assert Text.LeadingSpaces(x) == 0;
    ParseUnsignedStart(x);
  }

  lemma ParseNegative(n: nat, tail: string)
    requires tail == [] || DigitWeight(tail[0]) == 36
    ensures ParseInt("-" + ShowNat(n) + tail) == Some(-(n as int))
  {
    var d := ShowNat(n);
    var x := d + tail;
    assert Magnitude(x) == Some(n) by {
      ShowNatValue(n);
      ParseUnsigned(d, tail);
    }
    var s := "-" + d + tail;
    assert s == "-" + x;
    assert Text.LeadingSpaces(s) == 0;
    ParseMinus(x);
  }

  /** Round trip: `parseInt` reads back the decimal rendering of any
      integer, and ignores whatever follows it from the first character
      that is neither a letter nor a digit (a letter could turn a leading
      `0` into a `0x` prefix). */
  lemma ParseShow(n: int, tail: string)
    requires tail == [] || DigitWeight(tail[0]) == 36
    ensures ParseInt(Show(n) + tail) == Some(n)
  {
    if n < 0 {
      var m: nat := -n;
      ParseNegative(m, tail);
      assert Show(n) + tail == "-" + ShowNat(m) + tail;
    } else {
      ParseNonNegative(n, tail);
      assert Show(n) == ShowNat(n);
    }
  }

  lemma {:induction false} LeadingSpacesAppend(ws: string, s: string)
    requires forall i :: 0 <= i < |ws| ==> Text.IsSpace(ws[i])
    ensures Text.LeadingSpaces(ws + s) == |ws| + Text.LeadingSpaces(s)
  {
    if ws != [] {
      assert (ws + s)[1..] == ws[1..] + s;
      LeadingSpacesAppend(ws[1..], s);
    } else {
      assert ws + s == s;
    }
  }

  /** Leading whitespace never changes what `parseInt` reads. */
  lemma ParseSkipsLeadingSpace(ws: string, s: string)
    requires forall i :: 0 <= i < |ws| ==> Text.IsSpace(ws[i])
    ensures ParseInt(ws + s) == ParseInt(s)
  {
    LeadingSpacesAppend(ws, s);
    assert Text.TrimStart(ws + s) == Text.TrimStart(s);
  }

  /** A string whose first character after the blanks and at most one
      sign is not a decimal digit is `NaN`. */
  lemma NonNumericIsNaN(s: string)
    requires DigitsStart(s) == |s| || !IsDigit(s[DigitsStart(s)], 10)
    ensures ParseInt(s) == None
  {
  }

  /** Conversely, a decimal digit there gives a number, unless it is the
      `0` of a `0x` prefix. */
  lemma DecimalStartIsNumber(s: string)
    requires DigitsStart(s) < |s| && IsDigit(s[DigitsStart(s)], 10)
    requires !(DigitsStart(s) + 1 < |s| && s[DigitsStart(s)] == '0'
               && (s[DigitsStart(s) + 1] == 'x' || s[DigitsStart(s) + 1] == 'X'))
    ensures ParseInt(s).Some?
  {
  }

  /** A `0x` prefix with no hexadecimal digit after it is `NaN`, although
      it starts with the digit `0`. */
  lemma BareHexPrefixIsNaN(s: string)
    requires DigitsStart(s) + 1 < |s| && s[DigitsStart(s)] == '0'
    requires s[DigitsStart(s) + 1] == 'x' || s[DigitsStart(s) + 1] == 'X'
    requires DigitsStart(s) + 2 == |s| || !IsDigit(s[DigitsStart(s) + 2], 16)
    ensures ParseInt(s) == None
  {
  }
}
