/** Decimal text: `str(n)` for labels and Python's `int()` for the Routes API's
    "Ns" leg durations. */
module Text {
  import opened Records

  predicate IsDigit(c: char) {
    '0' <= c <= '9'
  }

  predicate AllDigits(s: string) {
    forall i :: 0 <= i < |s| ==> IsDigit(s[i])
  }

  function DigitValue(c: char): (d: nat)
    requires IsDigit(c)
    ensures d < 10
  {
    (c as int) - ('0' as int)
  }

  function DigitChar(d: nat): (c: char)
    requires d < 10
    ensures IsDigit(c) && DigitValue(c) == d
  {
    (('0' as int) + d) as char
  }

  /** Python's `str(n)` for a non-negative integer: decimal, no leading zeros. */
  function NatToString(n: nat): (s: string)
    ensures 0 < |s| && AllDigits(s)
    ensures |s| > 1 ==> s[0] != '0'
  {
    if n < 10 then [DigitChar(n)] else NatToString(n / 10) + [DigitChar(n % 10)]
  }

  /** The number a string of decimal digits denotes. */
  function DigitsValue(s: string): nat
    requires AllDigits(s)
  {
    if |s| == 0 then 0 else DigitsValue(s[..|s| - 1]) * 10 + DigitValue(s[|s| - 1])
  }

  /** The value of a non-empty run of decimal digits, read left to right;
      nothing when the run is empty or holds anything else. */
  function ScanDigits(s: string): (r: Option<nat>)
  {
    if |s| == 0 || !IsDigit(s[|s| - 1]) then None
    else if |s| == 1 then Some(DigitValue(s[0]))
    else
      match ScanDigits(s[..|s| - 1])
      case None => None
      case Some(v) => Some(v * 10 + DigitValue(s[|s| - 1]))
  }

  /** The start of the ValueError message `int()` raises. */
  const INVALID_LITERAL := "invalid literal for int() with base 10: '"

  /** Python's `int()` on a string made of an optional sign and decimal digits;
      anything else raises ValueError. */
  function ParseInt(s: string): (r: Attempt<int>)
    ensures r.Ok? ==> 0 < |s|
  {
    var signed := 0 < |s| && (s[0] == '+' || s[0] == '-');
    var digits := if signed then s[1..] else s;
    match ScanDigits(digits)
    case None => Raised(INVALID_LITERAL + s + "'")
    case Some(v) => Ok(if signed && s[0] == '-' then -(v as int) else v)
  }

  /** The scanner accepts exactly the non-empty digit runs, with their value. */
  lemma {:induction false} ScanDigitsValue(s: string)
    ensures ScanDigits(s).Some? <==> 0 < |s| && AllDigits(s)
    ensures ScanDigits(s).Some? ==> ScanDigits(s).value == DigitsValue(s)
  {
    if 1 < |s| {
      ScanDigitsValue(s[..|s| - 1]);
      assert AllDigits(s) <==> AllDigits(s[..|s| - 1]) && IsDigit(s[|s| - 1]);
    }
  }

  /** An unsigned digit string parses to the number it denotes, and a string
      with anything but digits after the optional sign does not parse. */
  lemma ParseIntDigits(s: string)
    ensures 0 < |s| && AllDigits(s) ==> ParseInt(s) == Ok(DigitsValue(s))
    ensures ParseInt(s).Ok? <==> var digits := if 0 < |s| && (s[0] == '+' || s[0] == '-') then s[1..] else s;
                                0 < |digits| && AllDigits(digits)
  {
    ScanDigitsValue(s);
    if 0 < |s| && (s[0] == '+' || s[0] == '-') {
      ScanDigitsValue(s[1..]);
    }
  }

  /** Python's `s.replace(c, "")`. */
  function RemoveAll(s: string, c: char): (r: string)
    ensures c !in r
    ensures c !in s ==> r == s
  {
    if |s| == 0 then []
    else
      assert s == [s[0]] + s[1..];
      (if s[0] == c then [] else [s[0]]) + RemoveAll(s[1..], c)
  }

  /** `replace(c, "")` keeps every other character, as often as it occurs. */
  lemma {:induction false} RemoveAllKeepsOthers(s: string, c: char)
    ensures forall x :: x != c ==> multiset(RemoveAll(s, c))[x] == multiset(s)[x]
  {
    if |s| > 0 {
      RemoveAllKeepsOthers(s[1..], c);
      assert s == [s[0]] + s[1..];
    }
  }

  /** A Routes API leg duration such as "754s", in seconds: `int(d.replace("s", ""))`. */
  function ParseDuration(d: string): Attempt<int> {
    ParseInt(RemoveAll(d, 's'))
  }

  /** `str(n)` denotes `n`. */
  lemma {:induction false} NatToStringValue(n: nat)
    ensures DigitsValue(NatToString(n)) == n
  {
    if n >= 10 {
      var s := NatToString(n);
      NatToStringValue(n / 10);
      assert s[..|s| - 1] == NatToString(n / 10);
    }
  }

  /** The duration text "{n}s" parses back to `n` seconds. */
  lemma DurationRoundTrip(n: nat)
    ensures ParseDuration(NatToString(n) + "s") == Ok(n)
  {
    var s := NatToString(n);
    assert 's' !in s;
    assert RemoveAll(s, 's') == s;
    assert RemoveAll("s", 's') == [] by {
      assert "s"[1..] == [];
    }
    RemoveAllAppend(s, "s", 's');
    assert RemoveAll(s + "s", 's') == s;
    NatToStringValue(n);
    ParseIntDigits(s);
  }

  lemma {:induction false} RemoveAllAppend(a: string, b: string, c: char)
    ensures RemoveAll(a + b, c) == RemoveAll(a, c) + RemoveAll(b, c)
  {
    if |a| > 0 {
      assert (a + b)[1..] == a[1..] + b;
      RemoveAllAppend(a[1..], b, c);
    } else {
      assert a + b == b;
    }
  }
}
