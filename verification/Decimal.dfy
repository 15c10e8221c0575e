/** Decimal numerals, printed and parsed. */
module Decimal {
  import opened Common

  predicate IsDigit(c: char) {
    '0' <= c <= '9'
  }

  predicate Digits(s: string) {
    s != [] && forall i :: 0 <= i < |s| ==> IsDigit(s[i])
  }

  function DigitChar(d: nat): (c: char)
    requires d < 10
    ensures IsDigit(c) && DigitValue(c) == d
  {
    '0' + d as char
  }

  function DigitValue(c: char): (d: nat)
    requires IsDigit(c)
    ensures d < 10
  {
    (c - '0') as nat
  }

  /** The numeral of n, without leading zeros. */
  function Print(n: nat): (s: string)
    ensures Digits(s)
  {
    if n < 10 then [DigitChar(n)] else Print(n / 10) + [DigitChar(n % 10)]
  }

  /** The number a run of digits stands for. */
  function Number(s: string): (n: nat)
    requires forall i :: 0 <= i < |s| ==> IsDigit(s[i])
  {
    if s == [] then 0 else Number(s[..|s| - 1]) * 10 + DigitValue(s[|s| - 1])
  }

  lemma {:induction false} NumberOfPrint(n: nat)
    ensures Number(Print(n)) == n
  {
    if n >= 10 {
      NumberOfPrint(n / 10);
      var s := Print(n);
      assert s[..|s| - 1] == Print(n / 10);
    } else {
      assert Number([]) == 0;
      assert Print(n)[..0] == [];
    }
  }

  predicate Zeros(s: string) {
    forall i :: 0 <= i < |s| ==> s[i] == '0'
  }

  /** A numeral of n: possibly with zeros in front. */
  ghost predicate Spells(s: string, n: nat) {
    exists zeros :: Zeros(zeros) && s == zeros + Print(n)
  }

  lemma {:induction false} NumberOfZeros(zeros: string)
    requires Zeros(zeros)
    ensures Number(zeros) == 0
  {
    if zeros != [] {
      NumberOfZeros(zeros[..|zeros| - 1]);
    }
  }

  lemma {:induction false} NumberWithZeros(zeros: string, s: string)
    requires Zeros(zeros) && forall i :: 0 <= i < |s| ==> IsDigit(s[i])
    ensures Number(zeros + s) == Number(s)
  {
    if s == [] {
      NumberOfZeros(zeros);
      assert zeros + s == zeros;
    } else {
      NumberWithZeros(zeros, s[..|s| - 1]);
      assert (zeros + s)[..|zeros + s| - 1] == zeros + s[..|s| - 1];
    }
  }

  lemma {:induction false} DigitsSpell(s: string)
    requires Digits(s)
    ensures Spells(s, Number(s))
  {
    var m := |s| - 1;
    var front, last := s[..m], s[m];
    var v := DigitValue(last);
    assert s == front + [last] && DigitChar(v) == last;
    if Number(front) == 0 {
      assert Zeros(front) by {
        ZeroIsZeros(front);
      }
      assert Print(v) == [last];
    } else {
      assert Number([]) == 0 && front != [];
      DigitsSpell(front);
      var zeros :| Zeros(zeros) && front == zeros + Print(Number(front));
      assert Number(s) / 10 == Number(front) && Number(s) % 10 == v;
      assert s == zeros + Print(Number(s));
    }
  }

  lemma {:induction false} ZeroIsZeros(s: string)
    requires (forall i :: 0 <= i < |s| ==> IsDigit(s[i])) && Number(s) == 0
    ensures Zeros(s)
  {
    if s != [] {
      ZeroIsZeros(s[..|s| - 1]);
      assert s == s[..|s| - 1] + [s[|s| - 1]];
    }
  }

  lemma SpelledNumber(zeros: string, n: nat)
    requires Zeros(zeros)
    ensures Digits(zeros + Print(n)) && Number(zeros + Print(n)) == n
  {
    hide Print, Number;
    NumberWithZeros(zeros, Print(n));
    NumberOfPrint(n);
  }

  /** Digits stand for n exactly if they are its numeral after zeros. */
  lemma {:induction false} SpellsIff(s: string, n: nat)
    ensures Spells(s, n) <==> Digits(s) && Number(s) == n
  {
    hide Print, Number, Zeros;
    if Digits(s) && Number(s) == n {
      DigitsSpell(s);
    }
    if Spells(s, n) {
      var zeros :| Zeros(zeros) && s == zeros + Print(n);
      SpelledNumber(zeros, n);
    }
  }

  /** An unsigned machine number: an optional plus sign, then digits, in range. */
  function ParseUnsigned(s: string, max: nat): (r: Option<nat>)
    ensures r.Some? ==> r.value <= max
  {
    var digits := if |s| > 1 && s[0] == '+' then s[1..] else s;
    if Digits(digits) && Number(digits) <= max then Some(Number(digits)) else None
  }

  /** What is read as n: exactly its numeral, after zeros and after one plus sign. */
  lemma UnsignedIff(s: string, max: nat, n: nat)
    ensures ParseUnsigned(s, max) == Some(n) <==>
      n <= max && (Spells(s, n) || (s != [] && s[0] == '+' && Spells(s[1..], n)))
  {
    hide Spells, Number;
    SpellsIff(s, n);
    if s != [] {
      SpellsIff(s[1..], n);
    }
  }

  /** A printed number is read back exactly when it is in range. */
  lemma UnsignedRoundTrip(n: nat, max: nat)
    ensures ParseUnsigned(Print(n), max) == if n <= max then Some(n) else None
  {
    NumberOfPrint(n);
    assert IsDigit(Print(n)[0]);
  }
}
