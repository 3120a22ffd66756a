/** The day-of-month ordinal used in formatted event dates: the day's
    decimal digits followed by a two-letter suffix from a fixed table. */
module DateFormat {
  import opened Decimal

  /** The last two characters of a string of at least two. */
  function SuffixOf(s: string): string
    requires |s| >= 2
  {
    s[|s| - 2..]
  }

  function Ordinal(day: int): (s: string)
    ensures |s| >= 3 && s[..|s| - 2] == Itoa(day)
    ensures SuffixOf(s) == "st" <==> day == 1 || day == 21 || day == 31
    ensures SuffixOf(s) == "nd" <==> day == 2 || day == 22
    ensures SuffixOf(s) == "rd" <==> day == 3 || day == 23
    ensures SuffixOf(s) == "th" <==> !(day in {1, 2, 3, 21, 22, 23, 31})
  {
    var suffix :=
      if day == 1 || day == 21 || day == 31 then "st"
      else if day == 2 || day == 22 then "nd"
      else if day == 3 || day == 23 then "rd"
      else "th";
    Itoa(day) + suffix
  }

  /** The English rule for ordinals: 11th-13th of every hundred, otherwise
      by the last digit. */
  function EnglishSuffix(n: nat): string {
    if 11 <= n % 100 <= 13 then "th"
    else if n % 10 == 1 then "st"
    else if n % 10 == 2 then "nd"
    else if n % 10 == 3 then "rd"
    else "th"
  }

  /** On every day a month can have, the table gives the English ordinal;
      in particular 11, 12 and 13 take "th". */
  lemma OrdinalIsEnglishForDays(day: int)
    requires 1 <= day <= 31
    ensures Ordinal(day) == Itoa(day) + EnglishSuffix(day)
  {
  }

  /** Past 31 the table is not the English rule: it writes "41th". */
  lemma OrdinalIsNotEnglishPast31()
    ensures Ordinal(41) != Itoa(41) + EnglishSuffix(41)
  {
  }

  /** Distinct days never share an ordinal. */
  lemma OrdinalInjective(a: int, b: int)
    requires Ordinal(a) == Ordinal(b)
    ensures a == b
  {
    ItoaInjective(a, b);
  }

  // Examples of the table, including the teens that take "th".

  lemma SingleDigitOrdinals()
    ensures Ordinal(1) == "1st" && Ordinal(2) == "2nd" && Ordinal(3) == "3rd" && Ordinal(4) == "4th"
  {
  }

  lemma TeenOrdinals()
    ensures Ordinal(11) == "11th" && Ordinal(12) == "12th" && Ordinal(13) == "13th"
  {
    assert Itoa(11) == "11" by { assert NatToDigits(11) == NatToDigits(1) + [DigitChar(1)]; }
    assert Itoa(12) == "12" by { assert NatToDigits(12) == NatToDigits(1) + [DigitChar(2)]; }
    assert Itoa(13) == "13" by { assert NatToDigits(13) == NatToDigits(1) + [DigitChar(3)]; }
  }

  lemma TwentiesOrdinals()
    ensures Ordinal(21) == "21st" && Ordinal(22) == "22nd" && Ordinal(23) == "23rd"
  {
    assert Itoa(21) == "21" by { assert NatToDigits(21) == NatToDigits(2) + [DigitChar(1)]; }
    assert Itoa(22) == "22" by { assert NatToDigits(22) == NatToDigits(2) + [DigitChar(2)]; }
    assert Itoa(23) == "23" by { assert NatToDigits(23) == NatToDigits(2) + [DigitChar(3)]; }
  }

  lemma ThirtiesOrdinals()
    ensures Ordinal(30) == "30th" && Ordinal(31) == "31st"
  {
    assert Itoa(30) == "30" by { assert NatToDigits(30) == NatToDigits(3) + [DigitChar(0)]; }
    assert Itoa(31) == "31" by { assert NatToDigits(31) == NatToDigits(3) + [DigitChar(1)]; }
  }
}
