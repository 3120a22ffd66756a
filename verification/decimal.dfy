/** Decimal text of integers, as Go's strconv.Itoa and strconv.FormatInt
    (base 10) write it, together with a reference reader used to show that
    the written text determines the number. */
module Decimal {
  import opened Wrappers

  predicate IsDigit(c: char) {
    '0' <= c <= '9'
  }

  predicate AllDigits(s: string) {
    forall i :: 0 <= i < |s| ==> IsDigit(s[i])
  }

  function DigitValue(c: char): (n: nat)
    requires IsDigit(c)
    ensures n < 10
  {
    c as int - '0' as int
  }

  function DigitChar(n: nat): (c: char)
    requires n < 10
    ensures IsDigit(c) && DigitValue(c) == n
  {
    ('0' as int + n) as char
  }

  /** The shortest decimal digits of `n`: no leading zero except for 0 itself. */
  function NatToDigits(n: nat): (s: string)
    ensures |s| >= 1 && AllDigits(s)
    ensures |s| > 1 ==> s[0] != '0'
    ensures n < 10 <==> |s| == 1
    decreases n
  {
    if n < 10 then [DigitChar(n)] else NatToDigits(n / 10) + [DigitChar(n % 10)]
  }

  /** The number a string of digits denotes (most significant first). */
  function DigitsToNat(s: string): nat
    requires AllDigits(s)
  {
    if s == [] then 0 else DigitsToNat(s[..|s| - 1]) * 10 + DigitValue(s[|s| - 1])
  }

  lemma {:induction false} DigitsRoundTrip(n: nat)
    ensures DigitsToNat(NatToDigits(n)) == n
    decreases n
  {
    var s := NatToDigits(n);
    if n >= 10 {
      DigitsRoundTrip(n / 10);
      assert s[..|s| - 1] == NatToDigits(n / 10);
    }
  }

  lemma DigitCharOfValue(c: char)
    requires IsDigit(c)
    ensures DigitChar(DigitValue(c)) == c
  {
  }

  /** The value of a two-digit string. */
  lemma TwoDigits(s: string)
    requires |s| == 2 && AllDigits(s)
    ensures DigitsToNat(s) == 10 * DigitValue(s[0]) + DigitValue(s[1])
  {
    LastDigit(s);
    LastDigit(s[..1]);
    assert s[..1][..0] == [];
  }

  /** The value of a four-digit string. */
  lemma FourDigits(s: string)
    requires |s| == 4 && AllDigits(s)
    ensures DigitsToNat(s) == 1000 * DigitValue(s[0]) + 100 * DigitValue(s[1]) + 10 * DigitValue(s[2]) + DigitValue(s[3])
  {
    LastDigit(s);
    LastDigit(s[..3]);
    assert s[..3][..2] == s[..2];
    TwoDigits(s[..2]);
  }

  lemma LastDigit(s: string)
    requires |s| >= 1 && AllDigits(s)
    ensures DigitsToNat(s) == DigitsToNat(s[..|s| - 1]) * 10 + DigitValue(s[|s| - 1])
  {
  }

  /** strconv.Itoa: an optional minus sign followed by the shortest digits. */
  function Itoa(n: int): (s: string)
    ensures |s| >= 1
    ensures s[0] == '-' <==> n < 0
    ensures n >= 0 ==> AllDigits(s)
    ensures n < 0 ==> |s| >= 2 && AllDigits(s[1..])
    ensures n >= 0 ==> |s| == 1 || s[0] != '0'
    ensures n < 0 ==> s[1] != '0'
  {
    if n < 0 then "-" + NatToDigits(-n) else NatToDigits(n)
  }

  /** Reference reader: an optional '-' then one or more digits. */
  function ParseInt(s: string): Option<int> {
    if |s| >= 2 && s[0] == '-' && AllDigits(s[1..]) then Some(-(DigitsToNat(s[1..]) as int))
    else if |s| >= 1 && AllDigits(s) then Some(DigitsToNat(s) as int)
    else None
  }

  /** The text Itoa writes reads back as the same number. */
  lemma ItoaRoundTrip(n: int)
    ensures ParseInt(Itoa(n)) == Some(n)
  {
    var s := Itoa(n);
    if n < 0 {
      assert s[1..] == NatToDigits(-n);
      DigitsRoundTrip(-n);
    } else {
      DigitsRoundTrip(n);
    }
  }

  /** Itoa never writes two different numbers the same way. */
  lemma ItoaInjective(a: int, b: int)
    requires Itoa(a) == Itoa(b)
    ensures a == b
  {
    ItoaRoundTrip(a);
    ItoaRoundTrip(b);
  }
}
