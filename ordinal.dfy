/** `getRankSuffix` of src/components/PokerGame.tsx: a rank written as an English ordinal
    ("1st", "2nd", "3rd", "4th", "11th", "21st", ...). JavaScript's `%` truncates toward
    zero and `${rank}` writes the integer in decimal; both are spelled out here. */
module Ordinal {

  /** JavaScript's `a % b` for `b > 0`: the remainder takes the sign of `a`. */
  function JsRem(a: int, b: int): (r: int)
    requires b > 0
    ensures a >= 0 ==> 0 <= r < b && r == a % b
    ensures a < 0 ==> -b < r <= 0 && r == -((-a) % b)
  {
    if a >= 0 then a % b else -((-a) % b)
  }

  /** The decimal digit character for `d`. */
  function Digit(d: nat): (c: char)
    requires d < 10
    ensures '0' <= c <= '9' && c as int - '0' as int == d
  {
    ('0' as int + d) as char
  }

  /** The number a string of decimal digits stands for. */
  function ParseDigits(s: string): int
    decreases |s|
  {
    if s == [] then 0 else ParseDigits(s[..|s| - 1]) * 10 + (s[|s| - 1] as int - '0' as int)
  }

  /** The decimal numeral of `n`: digits only, no leading zero, reading back as `n`; its last
      digit is the units digit and the one before it, when `n >= 10`, the tens digit. */
  function NatToString(n: nat): (s: string)
    ensures |s| >= 1 && forall i :: 0 <= i < |s| ==> '0' <= s[i] <= '9'
    ensures |s| > 1 ==> s[0] != '0'
    ensures ParseDigits(s) == n
    ensures s[|s| - 1] == Digit(n % 10)
    ensures n >= 10 <==> |s| >= 2
    ensures n >= 10 ==> s[|s| - 2] == Digit(n / 10 % 10)
  {
    if n < 10 then [Digit(n)]
    else
      var p := NatToString(n / 10);
      var s := p + [Digit(n % 10)];
      assert s[..|s| - 1] == p;
      s
  }

  /** `${rank}`: the decimal numeral, with a minus sign for a negative number. */
  function IntToString(i: int): (s: string)
    ensures i >= 0 ==> s == NatToString(i)
    ensures i < 0 ==> s == "-" + NatToString(-i)
  {
    if i >= 0 then NatToString(i) else "-" + NatToString(-i)
  }

  /** `getRankSuffix(rank)`: the numeral of `rank` followed by a two-letter suffix. */
  function GetRankSuffix(rank: int): (s: string)
    ensures |s| == |IntToString(rank)| + 2 && s[..|IntToString(rank)|] == IntToString(rank)
  {
    var suffix :=
      if 11 <= JsRem(rank, 100) <= 13 then "th"
      else if JsRem(rank, 10) == 1 then "st"
      else if JsRem(rank, 10) == 2 then "nd"
      else if JsRem(rank, 10) == 3 then "rd"
      else "th";
    IntToString(rank) + suffix
  }

  /** The English ordinal rule read off the numeral: "th" after a tens digit 1, otherwise
      "st", "nd" or "rd" after a units digit 1, 2 or 3, and "th" after any other. Numerals
      that are not of a positive number always take "th". */
  function SuffixByDigits(numeral: string, positive: bool): string
    requires |numeral| >= 1
  {
    var units := numeral[|numeral| - 1];
    var tens := if |numeral| >= 2 then numeral[|numeral| - 2] else '0';
    if !positive || tens == '1' then "th"
    else if units == '1' then "st"
    else if units == '2' then "nd"
    else if units == '3' then "rd"
    else "th"
  }

  /** `getRankSuffix` is the numeral followed by the suffix the ordinal rule gives for its
      digits; in particular 1, 2, 3 give "1st", "2nd", "3rd" and 11, 12, 13 give "11th",
      "12th", "13th". */
  lemma GetRankSuffixByDigits(rank: int)
    ensures |IntToString(rank)| >= 1
    ensures GetRankSuffix(rank) == IntToString(rank) + SuffixByDigits(IntToString(rank), rank > 0)
  {
    if rank > 0 {
      var n: nat := rank;
      var s := NatToString(n);
      var units, tens := n % 10, if n >= 10 then n / 10 % 10 else 0;
      LastTwoDigits(n);
      assert s[|s| - 1] == Digit(units);
      assert (if |s| >= 2 then s[|s| - 2] else '0') == Digit(tens);
      DigitIs(units);
      DigitIs(tens);
    }
  }

  /** The remainder by 100 is made of the tens and units digits. */
  lemma LastTwoDigits(n: nat)
    ensures n % 100 == (if n >= 10 then n / 10 % 10 else 0) * 10 + n % 10
  {
    var q, r := n / 100, n % 100;
    assert n == q * 100 + r;
    assert n == (q * 10 + r / 10) * 10 + r % 10;
    assert n / 10 == q * 10 + r / 10;
    assert n / 10 % 10 == r / 10;
  }

  /** Digit characters of different digits differ. */
  lemma DigitIs(d: nat)
    requires d < 10
    ensures Digit(d) == '1' <==> d == 1
    ensures Digit(d) == '2' <==> d == 2
    ensures Digit(d) == '3' <==> d == 3
  {
  }
}
