/**
  The Russian plural form of the word "документ" that the success message
  puts after the document count (getDocumentWord in script.js).
 */
module Plural {
  import opened Decimal

  const One: string := "документ"
  const Few: string := "документа"
  const Many: string := "документов"

  /**
    JavaScript's `%` on integers: the quotient is truncated toward zero, so
    the remainder carries the sign of the dividend (Dafny's `%` never goes
    negative, so it is written out here).
   */
  function JsRem(a: int, b: int): (r: int)
    requires b > 0
    ensures -b < r < b
    ensures a >= 0 ==> r == a % b
    ensures a <= 0 ==> r <= 0
  {
    if a >= 0 then a % b else -((-a) % b)
  }

  /** The truncating remainder is odd in the dividend: `(-a) % b == -(a % b)` in JavaScript. */
  lemma JsRemOdd(a: int, b: int)
    requires b > 0
    ensures JsRem(-a, b) == -JsRem(a, b)
  {
  }

  /** The word form for `count`, choosing on the last two digits as the source does. */
  function DocumentWord(count: int): (w: string)
    ensures w == One || w == Few || w == Many
  {
    var lastDigit := JsRem(count, 10);
    var lastTwoDigits := JsRem(count, 100);
    if 11 <= lastTwoDigits <= 19 then Many
    else if lastDigit == 1 then One
    else if 2 <= lastDigit <= 4 then Few
    else Many
  }

  /** The last digit of `n` is also the last digit of its last two digits. */
  lemma LastDigitOfLastTwo(n: nat)
    ensures (n % 100) % 10 == n % 10
    ensures n % 100 == 10 * ((n / 10) % 10) + n % 10
  {
    var q := n / 100;
    var r := n % 100;
    assert n == 100 * q + r;
    assert n == 10 * (10 * q + r / 10) + r % 10;
    assert n / 10 == 10 * q + r / 10;
  }

  /**
    The three forms as a reader states them for a natural count: "документ"
    exactly when it ends in 1 but not 11, "документа" exactly when it ends in
    2, 3 or 4 but not 12, 13 or 14, "документов" in every other case.
   */
  lemma DocumentWordForms(n: nat)
    ensures DocumentWord(n) == One <==> n % 10 == 1 && n % 100 != 11
    ensures DocumentWord(n) == Few <==> 2 <= n % 10 <= 4 && !(12 <= n % 100 <= 14)
    ensures DocumentWord(n) == Many <==> !(n % 10 == 1 && n % 100 != 11) && !(2 <= n % 10 <= 4 && !(12 <= n % 100 <= 14))
  {
    LastDigitOfLastTwo(n);
  }

  /** The form depends on nothing but the last two digits of a natural count. */
  lemma DocumentWordLastTwoDigits(n: nat, m: nat)
    requires n % 100 == m % 100
    ensures DocumentWord(n) == DocumentWord(m)
  {
    LastDigitOfLastTwo(n);
    LastDigitOfLastTwo(m);
  }

  /**
    Because `%` keeps the dividend's sign, a negative count never meets the
    "one" or "few" tests: it always gets "документов".
   */
  lemma NegativeCountIsMany(n: int)
    requires n < 0
    ensures DocumentWord(n) == Many
  {
  }

  /** Sample counts and their forms, including the 11–14 exceptions. */
  lemma DocumentWordExamples()
    ensures DocumentWord(1) == One && DocumentWord(21) == One && DocumentWord(101) == One
    ensures DocumentWord(2) == Few && DocumentWord(3) == Few && DocumentWord(24) == Few
    ensures DocumentWord(0) == Many && DocumentWord(5) == Many && DocumentWord(11) == Many
    ensures DocumentWord(12) == Many && DocumentWord(111) == Many && DocumentWord(112) == Many
  {
  }

  /**
    The rule a reader applies to the printed numeral: a tens digit of 1 means
    "документов"; otherwise the last digit 1 means "документ", 2 to 4 means
    "документа", anything else "документов".
   */
  function WordForNumeral(s: string): string
    requires |s| >= 1 && AllDigits(s)
  {
    var last := s[|s| - 1];
    if |s| >= 2 && s[|s| - 2] == '1' then Many
    else if last == '1' then One
    else if '2' <= last <= '4' then Few
    else Many
  }

  /** For a natural count the source's arithmetic agrees with reading the printed numeral. */
  lemma DocumentWordMatchesNumeral(n: nat)
    ensures DocumentWord(n) == WordForNumeral(NatText(n))
  {
    var s := NatText(n);
    var units := DigitValue(s[|s| - 1]);
    assert units == n % 10;
    LastDigitOfLastTwo(n);
    if n >= 10 {
      NatTextTensDigit(n);
      var tens := DigitValue(s[|s| - 2]);
      assert n % 100 == 10 * tens + units;
      assert s[|s| - 2] == '1' <==> tens == 1;
    } else {
      assert n % 100 == n;
    }
    assert s[|s| - 1] == '1' <==> units == 1;
    assert '2' <= s[|s| - 1] <= '4' <==> 2 <= units <= 4;
  }
}
