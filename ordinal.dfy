/**
 * `getOrdinalSuffix`, used for the day of the month in the footer of the
 * downloaded image.
 */
module Ordinal {

  /**
   * The script's rule: 4 to 20 take "th"; otherwise the last digit decides
   * ("st" for 1, "nd" for 2, "rd" for 3, "th" for anything else).
   */
  function Suffix(day: nat): (r: string)
    ensures r in {"st", "nd", "rd", "th"}
  {
    if 3 < day < 21 then "th"
    else if day % 10 == 1 then "st"
    else if day % 10 == 2 then "nd"
    else if day % 10 == 3 then "rd"
    else "th"
  }

  /**
   * The English rule, stated independently: numbers whose last two digits
   * are 11, 12 or 13 take "th"; otherwise "st", "nd", "rd" follow the last
   * digit 1, 2, 3 and every other number takes "th".
   */
  function EnglishSuffix(n: nat): string {
    var lastTwo := n % 100;
    var last := n % 10;
    if 11 <= lastTwo <= 13 then "th"
    else if last == 1 then "st"
    else if last == 2 then "nd"
    else if last == 3 then "rd"
    else "th"
  }

  /** For every day of a month the script's rule agrees with the English rule. */
  lemma SuffixIsEnglishForDays(day: nat)
    requires 1 <= day <= 31
    ensures Suffix(day) == EnglishSuffix(day)
  {
  }

  /**
   * The day table of the footer: 1st, 2nd, 3rd, 11th, 12th, 13th, 21st,
   * 22nd, 23rd, 24th, 31st.
   */
  lemma SuffixExamples()
    ensures Suffix(1) == "st" && Suffix(2) == "nd" && Suffix(3) == "rd"
    ensures Suffix(11) == "th" && Suffix(12) == "th" && Suffix(13) == "th"
    ensures Suffix(21) == "st" && Suffix(22) == "nd" && Suffix(23) == "rd"
    ensures Suffix(24) == "th" && Suffix(31) == "st"
  {
  }

  /** "th" exactly on 4 to 20 and on the days 24 to 30. */
  lemma SuffixThIff(day: nat)
    requires 1 <= day <= 31
    ensures Suffix(day) == "th" <==> 4 <= day <= 20 || 24 <= day <= 30
  {
  }
}
