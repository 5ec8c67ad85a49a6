/**
  Decimal numerals of integers, as a JavaScript template literal writes a
  number that holds a safe integer, together with the parser that reads such
  a numeral back. The widget prints the server's document count this way.
 */
module Decimal {
  import opened Wrappers

  /** `Number.MAX_SAFE_INTEGER`: every integer up to it in magnitude is exact in a JavaScript number. */
  const MaxSafeInteger: int := 9007199254740991

  /** The integers a JSON number can carry into the widget without rounding. */
  type SafeInt = n: int | -MaxSafeInteger <= n <= MaxSafeInteger

  predicate IsDigit(c: char)
  {
    '0' <= c <= '9'
  }

  predicate AllDigits(s: string)
  {
    forall i :: 0 <= i < |s| ==> IsDigit(s[i])
  }

  /** A numeral as JavaScript prints a natural number: digits only, no leading zero. */
  predicate Canonical(s: string)
  {
    |s| >= 1 && AllDigits(s) && (s[0] == '0' ==> |s| == 1)
  }

  function DigitValue(c: char): (d: nat)
    requires IsDigit(c)
    ensures d < 10
  {
    c as int - '0' as int
  }

  function DigitChar(d: nat): (c: char)
    requires d < 10
    ensures IsDigit(c) && DigitValue(c) == d
  {
    (d + '0' as int) as char
  }

  lemma DigitCharOfValue(c: char)
    requires IsDigit(c)
    ensures DigitChar(DigitValue(c)) == c
  {
  }

  /** The decimal numeral of `n`. */
  function NatText(n: nat): (s: string)
    ensures Canonical(s)
    ensures DigitValue(s[|s| - 1]) == n % 10
    ensures s[0] == '0' <==> n == 0
    ensures |s| >= 2 <==> n >= 10
    decreases n
  {
    if n < 10 then [DigitChar(n)] else NatText(n / 10) + [DigitChar(n % 10)]
  }

  /** The value of a string of digits, most significant first. */
  function ParseNat(s: string): (n: nat)
    requires AllDigits(s)
    decreases |s|
  {
    if |s| == 0 then 0 else 10 * ParseNat(s[..|s| - 1]) + DigitValue(s[|s| - 1])
  }

  /** The numeral of `n` with its last digit removed is the numeral of `n / 10`. */
  lemma NatTextInit(n: nat)
    requires n >= 10
    ensures NatText(n)[..|NatText(n)| - 1] == NatText(n / 10)
  {
    var s := NatText(n / 10);
    assert NatText(n) == s + [DigitChar(n % 10)];
    assert (s + [DigitChar(n % 10)])[..|s|] == s;
  }

  /** The second digit from the right of a numeral is the tens digit. */
  lemma NatTextTensDigit(n: nat)
    requires n >= 10
    ensures DigitValue(NatText(n)[|NatText(n)| - 2]) == (n / 10) % 10
  {
    var s := NatText(n / 10);
    assert NatText(n) == s + [DigitChar(n % 10)];
    assert NatText(n)[|NatText(n)| - 2] == s[|s| - 1];
  }

  /** Reading a printed natural number gives it back. */
  lemma {:induction false} ParseNatText(n: nat)
    ensures ParseNat(NatText(n)) == n
    decreases n
  {
    if n >= 10 {
      NatTextInit(n);
      ParseNatText(n / 10);
    }
  }

  /** A numeral is never worth less than its leading digit. */
  lemma {:induction false} ParseNatAtLeastLead(s: string)
    requires |s| >= 1 && AllDigits(s)
    ensures ParseNat(s) >= DigitValue(s[0])
    decreases |s|
  {
    if |s| > 1 {
      var p := s[..|s| - 1];
      assert p[0] == s[0];
      ParseNatAtLeastLead(p);
    }
  }

  /** Printing the value of a canonical numeral gives the numeral back. */
  lemma {:induction false} NatTextParse(s: string)
    requires Canonical(s)
    ensures NatText(ParseNat(s)) == s
    decreases |s|
  {
    var last := s[|s| - 1];
    if |s| == 1 {
      DigitCharOfValue(last);
      assert s == [last];
    } else {
      var p := s[..|s| - 1];
      assert p[0] == s[0];
      assert Canonical(p);
      ParseNatAtLeastLead(p);
      var n := ParseNat(s);
      assert n == 10 * ParseNat(p) + DigitValue(last);
      assert n / 10 == ParseNat(p) && n % 10 == DigitValue(last);
      NatTextParse(p);
      DigitCharOfValue(last);
      assert s == p + [last];
    }
  }

  /** The numeral of an integer: a minus sign before the numeral of its magnitude when negative. */
  function IntText(n: int): (s: string)
    ensures |s| >= 1
    ensures ' ' !in s
    ensures n < 0 <==> s[0] == '-'
  {
    if n < 0 then "-" + NatText(-n) else NatText(n)
  }

  /** The integer a numeral denotes, or None when it is not one JavaScript would print. */
  function ParseInt(s: string): (r: Option<int>)
    ensures r.Some? ==> |s| >= 1
  {
    if |s| >= 2 && s[0] == '-' && Canonical(s[1..]) && s[1] != '0' then Some(-(ParseNat(s[1..]) as int))
    else if Canonical(s) then Some(ParseNat(s))
    else None
  }

  /** Reading the numeral of an integer gives the integer back. */
  lemma ParseIntText(n: int)
    ensures ParseInt(IntText(n)) == Some(n)
  {
    if n < 0 {
      var t := NatText(-n);
      assert IntText(n) == "-" + t;
      assert IntText(n)[1..] == t;
      ParseNatText(-n);
    } else {
      ParseNatText(n);
    }
  }

  /** Every numeral ParseInt accepts is the one IntText prints for its value. */
  lemma ParseIntCanonical(s: string)
    requires ParseInt(s).Some?
    ensures IntText(ParseInt(s).value) == s
  {
    if |s| >= 2 && s[0] == '-' && Canonical(s[1..]) && s[1] != '0' {
      var t := s[1..];
      NatTextParse(t);
      assert t[0] != '0';
      ParseNatAtLeastLead(t);
      assert s == "-" + t;
    } else {
      NatTextParse(s);
    }
  }
}
