/** Decimal text of natural numbers: the conversion the journal uses to turn its
    sequence number into the prefix of an entry, and the parser that reads it back. */
module Decimal {

  datatype Option<+T> = None | Some(value: T)

  predicate IsDigit(c: char) {
    '0' <= c <= '9'
  }

  predicate AllDigits(s: string) {
    forall i :: 0 <= i < |s| ==> IsDigit(s[i])
  }

  /** The text a positive or zero number prints as: no sign, no leading zero
      (except for zero itself), at least one digit. */
  predicate IsCanonical(s: string) {
    s != [] && AllDigits(s) && (s[0] == '0' ==> |s| == 1)
  }

  function DigitChar(d: nat): (c: char)
    requires d < 10
    ensures IsDigit(c)
  {
    ('0' as int + d) as char
  }

  function DigitValue(c: char): (d: nat)
    requires IsDigit(c)
    ensures d < 10 && DigitChar(d) == c
  {
    c as int - '0' as int
  }

  /** Decimal form of `n`, most significant digit first. */
  function NatToDecimal(n: nat): (r: string)
    ensures IsCanonical(r)
    ensures r[0] == '0' <==> n == 0
    decreases n
  {
    if n < 10 then [DigitChar(n)] else NatToDecimal(n / 10) + [DigitChar(n % 10)]
  }

  /** Value of a string of digits (leading zeros allowed). */
  function DigitsValue(s: string): nat
    requires AllDigits(s)
  {
    if s == [] then 0 else DigitsValue(s[..|s| - 1]) * 10 + DigitValue(s[|s| - 1])
  }

  /** Reads a decimal number; the empty string and any non-digit are refused. */
  function ParseDecimal(s: string): (r: Option<nat>)
    ensures r.Some? <==> s != [] && AllDigits(s)
  {
    if s != [] && AllDigits(s) then Some(DigitsValue(s)) else None
  }

  /** Reading back the printed form of a number gives that number. */
  lemma {:induction false} ParsePrinted(n: nat)
    ensures ParseDecimal(NatToDecimal(n)) == Some(n)
    decreases n
  {
    if n < 10 {
      var s := [DigitChar(n)];
      assert s[..0] == [];
      assert DigitValue(s[0]) == n;
      assert NatToDecimal(n) == s;
      assert DigitsValue(s) == DigitsValue(s[..0]) * 10 + n;
    } else {
      var p := NatToDecimal(n / 10);
      var s := p + [DigitChar(n % 10)];
      assert s[..|s| - 1] == p;
      ParsePrinted(n / 10);
      assert DigitValue(s[|s| - 1]) == n % 10;
      assert DigitsValue(s) == (n / 10) * 10 + n % 10;
    }
  }

  /** Printing the value of a canonical decimal string gives that string back. */
  lemma {:induction false} PrintParsed(s: string)
    requires IsCanonical(s)
    ensures NatToDecimal(DigitsValue(s)) == s
    decreases |s|
  {
    if |s| > 1 {
      var p := s[..|s| - 1];
      var d := DigitValue(s[|s| - 1]);
      assert IsCanonical(p);
      PrintParsed(p);
      var v := DigitsValue(p);
      assert v != 0 by {
        assert NatToDecimal(v)[0] == s[0] != '0';
      }
      assert (v * 10 + d) / 10 == v && (v * 10 + d) % 10 == d;
      assert s == p + [s[|s| - 1]];
    }
  }

  /** Different numbers print differently. */
  lemma NatToDecimalInjective(m: nat, n: nat)
    requires m != n
    ensures NatToDecimal(m) != NatToDecimal(n)
  {
    ParsePrinted(m);
    ParsePrinted(n);
  }
}
