/** The integer formats of OCaml's `Printf` used by the server: `%X`, `%d` and `%02d`,
    with parsers that invert them. */
module Numerals {
  import opened Text

  function DigitChar(d: nat): char
    requires d < 16
  {
    if d < 10 then ('0' as int + d) as char else ('A' as int + d - 10) as char
  }

  /** The value of a digit; hexadecimal digits are accepted in either case. */
  function DigitValue(c: char): (d: Option<nat>)
    ensures d.Some? ==> d.value < 16
  {
    if '0' <= c <= '9' then Some(c as int - '0' as int)
    else if 'A' <= c <= 'F' then Some(c as int - 'A' as int + 10)
    else if 'a' <= c <= 'f' then Some(c as int - 'a' as int + 10)
    else None
  }

  predicate IsBase(base: nat) { base == 10 || base == 16 }

  function Numeral(base: nat, n: nat): (s: string)
    requires IsBase(base)
    ensures s != ""
  {
    if n < base then [DigitChar(n)] else Numeral(base, n / base) + [DigitChar(n % base)]
  }

  /** Reads digits from the left, starting from the value `acc` of those already read. */
  function ParseFrom(base: nat, acc: nat, s: string): Option<nat>
    decreases |s|
  {
    if s == "" then Some(acc)
    else
      var d := DigitValue(s[0]);
      if d.Some? && d.value < base then ParseFrom(base, acc * base + d.value, s[1..]) else None
  }

  function ParseNumeral(base: nat, s: string): Option<nat> {
    if s == "" then None else ParseFrom(base, 0, s)
  }

  /** Only digits of the base are printed, and letters in upper case. */
  lemma {:induction false} NumeralDigits(base: nat, n: nat)
    requires IsBase(base)
    ensures forall c :: c in Numeral(base, n) ==>
      DigitValue(c).Some? && DigitValue(c).value < base && ('0' <= c <= '9' || 'A' <= c <= 'F')
    decreases n
  {
    if n >= base {
      NumeralDigits(base, n / base);
    }
  }

  lemma {:induction false} ParseDigit(base: nat, acc: nat, d: nat, t: string)
    requires IsBase(base) && d < base
    ensures ParseFrom(base, acc, [DigitChar(d)] + t) == ParseFrom(base, acc * base + d, t)
  {
    assert ([DigitChar(d)] + t)[1..] == t;
  }

  lemma {:induction false} ParseNumeralPrefix(base: nat, n: nat, t: string)
    requires IsBase(base)
    ensures ParseFrom(base, 0, Numeral(base, n) + t) == ParseFrom(base, n, t)
    decreases n
  {
    hide DigitChar, DigitValue, ParseFrom;
    if n < base {
      ParseDigit(base, 0, n, t);
    } else {
      var q, d := n / base, n % base;
      assert Numeral(base, n) + t == Numeral(base, q) + ([DigitChar(d)] + t);
      ParseNumeralPrefix(base, q, [DigitChar(d)] + t);
      ParseDigit(base, q, d, t);
      assert q * base + d == n;
    }
  }

  lemma {:induction false} NumeralRoundTrip(base: nat, n: nat)
    requires IsBase(base)
    ensures ParseNumeral(base, Numeral(base, n)) == Some(n)
  {
    ParseNumeralPrefix(base, n, "");
    assert Numeral(base, n) + "" == Numeral(base, n);
  }

  function Pow(base: nat, e: nat): nat {
    if e == 0 then 1 else base * Pow(base, e - 1)
  }

  /** The number of digits: 1 at zero, otherwise the `d` with base^(d-1) <= n < base^d. */
  lemma {:induction false} NumeralLength(base: nat, n: nat)
    requires IsBase(base)
    ensures n < Pow(base, |Numeral(base, n)|)
    ensures if n == 0 then |Numeral(base, n)| == 1 else Pow(base, |Numeral(base, n)| - 1) <= n
    decreases n
  {
    if n < base {
      assert Pow(base, 1) == base * Pow(base, 0);
    } else {
      NumeralLength(base, n / base);
      var d := |Numeral(base, n / base)|;
      assert |Numeral(base, n)| == d + 1;
      assert Pow(base, d + 1) == base * Pow(base, d);
      assert Pow(base, d) == base * Pow(base, d - 1);
    }
  }

  /** `%d` (and `string_of_int`), negative numbers included. */
  function FormatInt(n: int): string {
    if n < 0 then "-" + Numeral(10, -n) else Numeral(10, n)
  }

  /** `%02d`: one-digit numbers get a leading zero; a minus sign already fills the width. */
  function FormatInt2(n: int): string {
    if 0 <= n < 10 then "0" + FormatInt(n) else FormatInt(n)
  }

  function ParseInt(s: string): Option<int> {
    if s != "" && s[0] == '-' then
      match ParseNumeral(10, s[1..])
      case Some(n) => Some(-(n as int))
      case None => None
    else
      ParseNumeral(10, s)
  }

  lemma {:induction false} FormatIntRoundTrip(n: int)
    ensures ParseInt(FormatInt(n)) == Some(n)
  {
    NumeralRoundTrip(10, if n < 0 then -n else n);
    if n < 0 {
      assert FormatInt(n)[1..] == Numeral(10, -n);
    } else {
      NumeralDigits(10, n);
      assert DigitValue(FormatInt(n)[0]).Some?;
    }
  }

  lemma {:induction false} FormatInt2RoundTrip(n: int)
    ensures ParseInt(FormatInt2(n)) == Some(n)
  {
    FormatIntRoundTrip(n);
    if 0 <= n < 10 {
      var s := FormatInt2(n);
      assert s[1..] == FormatInt(n);
      assert ParseFrom(10, 0, s) == ParseFrom(10, 0, s[1..]);
    }
  }

  /** Characters that separate or end fields never occur inside a printed integer. */
  lemma {:induction false} FormatIntChars(n: int, c: char)
    requires c in FormatInt(n) || c in FormatInt2(n)
    ensures c == '-' || DigitValue(c).Some?
  {
    NumeralDigits(10, if n < 0 then -n else n);
  }
}
