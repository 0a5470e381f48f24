/**
 Positional numerals. `ToBase` is the printer behind `toString(10)` and `toString(16)`;
 `Parse` is the reader behind `toBN`, `BigNumber.from` and `new BigNumber("0x...")`.
 */
module Numerals {
  import opened Arithmetic

  // --- Digits -----------------------------------------------------------------------------

  function DigitChar(d: nat): char
    requires d < 16
  {
    if d < 10 then ('0' as int + d) as char else ('a' as int + (d - 10)) as char
  }

  /** The value of a lower-case hexadecimal digit, and 16 for every other character. */
  function DigitValue(c: char): nat
  {
    if '0' <= c <= '9' then c as int - '0' as int
    else if 'a' <= c <= 'f' then c as int - 'a' as int + 10
    else 16
  }

  predicate IsDigit(c: char, base: nat)
    requires 2 <= base <= 16
  {
    DigitValue(c) < base
  }

  predicate AllDigits(s: string, base: nat)
    requires 2 <= base <= 16
  {
    forall i :: 0 <= i < |s| ==> IsDigit(s[i], base)
  }

  /** A string matching `^\d+$`, for any base. */
  predicate IsNumeral(s: string, base: nat)
    requires 2 <= base <= 16
  {
    s != [] && AllDigits(s, base)
  }

  // --- Letter case ------------------------------------------------------------------------

  function LowerChar(c: char): char
  {
    if 'A' <= c <= 'Z' then (c as int - 'A' as int + 'a' as int) as char else c
  }

  function LowerCase(s: string): string
  {
    seq(|s|, i requires 0 <= i < |s| => LowerChar(s[i]))
  }

  /** Printed digits are in lower case already. */
  lemma LowerCaseDigits(s: string, base: nat)
    requires 2 <= base <= 16 && AllDigits(s, base)
    ensures LowerCase(s) == s
  {
    forall i | 0 <= i < |s| ensures LowerChar(s[i]) == s[i] {
      assert IsDigit(s[i], base);
    }
  }

  // --- Printing and reading ---------------------------------------------------------------

  function ToBase(n: nat, base: nat): string
    requires 2 <= base <= 16
  {
    if n < base then [DigitChar(n)]
    else ToBase(n / base, base) + [DigitChar(n % base)]
  }

  function Parse(s: string, base: nat): nat
    requires 2 <= base <= 16 && AllDigits(s, base)
  {
    if s == [] then 0
    else Parse(s[..|s| - 1], base) * base + DigitValue(s[|s| - 1])
  }

  function Pow(base: nat, k: nat): nat
  {
    if k == 0 then 1 else Pow(base, k - 1) * base
  }

  // --- Powers -----------------------------------------------------------------------------

  lemma {:induction false} PowPositive(base: nat, k: nat)
    requires 2 <= base
    ensures 1 <= Pow(base, k)
  {
    if k > 0 {
      PowPositive(base, k - 1);
      PositiveTimes(Pow(base, k - 1), base);
    }
  }

  lemma TimesGrows(x: nat, base: nat)
    requires 2 <= base && 1 <= x
    ensures x < x * base
  {
  }

  lemma {:induction false} PowMonotone(base: nat, j: nat, k: nat)
    requires 2 <= base
    ensures 1 <= Pow(base, j)
    ensures j < k ==> Pow(base, j) < Pow(base, k)
  {
    PowPositive(base, j);
    if j < k {
      PowMonotone(base, j, k - 1);
      PowPositive(base, k - 1);
      TimesGrows(Pow(base, k - 1), base);
    }
  }

  lemma {:induction false} PowSum(base: nat, j: nat, k: nat)
    ensures Pow(base, j + k) == Pow(base, j) * Pow(base, k)
  {
    if k > 0 {
      PowSum(base, j, k - 1);
      Regroup(Pow(base, j), Pow(base, k - 1), 0, base);
    }
  }

  // --- Round trips ------------------------------------------------------------------------

  lemma DigitInverse(d: nat)
    requires d < 16
    ensures DigitValue(DigitChar(d)) == d
  {
  }

  lemma ParseAppend(s: string, c: char, base: nat)
    requires 2 <= base <= 16 && AllDigits(s, base) && IsDigit(c, base)
    ensures AllDigits(s + [c], base)
    ensures Parse(s + [c], base) == Parse(s, base) * base + DigitValue(c)
  {
  }

  lemma DivMod(n: nat, base: nat)
    requires 2 <= base
    ensures 0 <= n / base && 0 <= n % base < base
    ensures n == (n / base) * base + n % base
    ensures base <= n ==> 0 < n / base < n
  {
  }

  lemma {:induction false} ParsePrinted(n: nat, base: nat)
    requires 2 <= base <= 16
    ensures IsNumeral(ToBase(n, base), base)
    ensures Parse(ToBase(n, base), base) == n
  {
    if n < base {
      DigitInverse(n);
      ParseAppend([], DigitChar(n), base);
      assert [] + [DigitChar(n)] == [DigitChar(n)];
    } else {
      DivMod(n, base);
      var q, d := n / base, n % base;
      ParsePrinted(q, base);
      DigitInverse(d);
      ParseAppend(ToBase(q, base), DigitChar(d), base);
    }
  }

  lemma PrintingIsInjective(m: nat, n: nat, base: nat)
    requires 2 <= base <= 16 && ToBase(m, base) == ToBase(n, base)
    ensures m == n
  {
    ParsePrinted(m, base);
    ParsePrinted(n, base);
  }

  /** A numeral as the printer writes it: no leading zero unless it is "0" itself. */
  predicate Canonical(s: string, base: nat)
    requires 2 <= base <= 16
  {
    IsNumeral(s, base) && (|s| > 1 ==> s[0] != '0')
  }

  lemma {:induction false} PrintedIsCanonical(n: nat, base: nat)
    requires 2 <= base <= 16
    ensures Canonical(ToBase(n, base), base)
    ensures n > 0 ==> ToBase(n, base)[0] != '0'
  {
    ParsePrinted(n, base);
    if n < base {
      DigitInverse(n);
    } else {
      DivMod(n, base);
      PrintedIsCanonical(n / base, base);
    }
  }

  /** A numeral that does not start with '0' reads to a positive number. */
  lemma {:induction false} LeadingDigitPositive(s: string, base: nat)
    requires 2 <= base <= 16 && IsNumeral(s, base) && s[0] != '0'
    ensures Parse(s, base) > 0
  {
    var front := s[..|s| - 1];
    if front == [] {
      assert DigitValue(s[0]) > 0;
    } else {
      LeadingDigitPositive(front, base);
      PositiveTimes(Parse(front, base), base);
    }
  }

  lemma DivideBack(q: nat, base: nat, d: nat)
    requires 2 <= base && d < base
    ensures (q * base + d) / base == q && (q * base + d) % base == d
  {
    FloorUnique(q * base + d, base, q);
    DivMod(q * base + d, base);
  }

  lemma {:induction false} PrintParsed(s: string, base: nat)
    requires 2 <= base <= 16 && Canonical(s, base)
    ensures ToBase(Parse(s, base), base) == s
  {
    var k := |s| - 1;
    var front, c := s[..k], s[k];
    var d := DigitValue(c);
    assert s == front + [c];
    assert DigitChar(d) == c;
    ParseAppend(front, c, base);
    if k == 0 {
      assert Parse(front, base) == 0;
    } else {
      assert front[0] == s[0];
      PrintParsed(front, base);
      LeadingDigitPositive(front, base);
      var q := Parse(front, base);
      DivideBack(q, base, d);
      PositiveTimes(q, base);
    }
  }

  lemma PositiveTimes(q: nat, base: nat)
    requires q > 0
    ensures q * base >= base
  {
  }

  lemma {:induction false} ParseConcat(a: string, b: string, base: nat)
    requires 2 <= base <= 16 && AllDigits(a, base) && AllDigits(b, base)
    ensures AllDigits(a + b, base)
    ensures Parse(a + b, base) == Parse(a, base) * Pow(base, |b|) + Parse(b, base)
  {
    if b == [] {
      assert a + b == a;
    } else {
      var k := |b| - 1;
      var front := b[..k];
      ParseConcat(a, front, base);
      assert (a + b)[..|a + b| - 1] == a + front;
      Regroup(Parse(a, base), Pow(base, k), Parse(front, base), base);
    }
  }

  lemma Regroup(x: int, p: int, y: int, base: int)
    ensures (x * p + y) * base == x * (p * base) + y * base
  {
  }

  lemma {:induction false} ParseBound(s: string, base: nat)
    requires 2 <= base <= 16 && AllDigits(s, base)
    ensures Parse(s, base) < Pow(base, |s|)
  {
    if s != [] {
      var front := s[..|s| - 1];
      ParseBound(front, base);
      BoundStep(Parse(front, base), Pow(base, |front|), base, DigitValue(s[|s| - 1]));
    }
  }

  lemma BoundStep(x: nat, p: nat, base: nat, d: nat)
    requires x < p && d < base
    ensures x * base + d < p * base
  {
    assert (x + 1) * base <= p * base;
  }

  /** How many digits a number prints to. */
  lemma PrintedLength(n: nat, base: nat, k: nat)
    requires 2 <= base <= 16 && k > 0
    ensures |ToBase(n, base)| > k <==> n >= Pow(base, k)
  {
    var s := ToBase(n, base);
    PrintedIsCanonical(n, base);
    ParsePrinted(n, base);
    ParseBound(s, base);
    if |s| <= k {
      PowMonotone(base, |s|, k);
    } else {
      var hd, tl := s[..1], s[1..];
      assert s == hd + tl;
      SplitPrinted(n, base, hd, tl);
      LeadingDigitPositive(hd, base);
      PowMonotone(base, k, |tl|);
      PositiveTimes(Parse(hd, base), Pow(base, |tl|));
    }
  }

  /** Cutting a printed number after its last k digits divides it by base^k. */
  lemma SplitPrinted(n: nat, base: nat, hi: string, lo: string)
    requires 2 <= base <= 16 && ToBase(n, base) == hi + lo
    ensures AllDigits(hi, base) && AllDigits(lo, base)
    ensures n == Parse(hi, base) * Pow(base, |lo|) + Parse(lo, base)
    ensures Parse(lo, base) < Pow(base, |lo|)
  {
    ParsePrinted(n, base);
    var s := hi + lo;
    forall i | 0 <= i < |hi| ensures IsDigit(hi[i], base) { assert hi[i] == s[i]; }
    forall i | 0 <= i < |lo| ensures IsDigit(lo[i], base) { assert lo[i] == s[|hi| + i]; }
    ParseConcat(hi, lo, base);
    ParseBound(lo, base);
  }

  // --- Hexadecimal digits in either letter case -------------------------------------------

  /** What a hexadecimal digit stands for, in either letter case; 16 for every other character. */
  function HexValue(c: char): nat
  {
    if '0' <= c <= '9' then c as int - 48
    else if 'a' <= c <= 'f' then c as int - 97 + 10
    else if 'A' <= c <= 'F' then c as int - 65 + 10
    else 16
  }

  predicate IsHexText(s: string)
  {
    forall i :: 0 <= i < |s| ==> HexValue(s[i]) < 16
  }

  /** The number written in hexadecimal digits of either case. */
  function HexNumber(s: string): nat
  {
    if s == [] then 0 else 16 * HexNumber(s[..|s| - 1]) + HexValue(s[|s| - 1])
  }

  lemma LowerCaseValue(c: char)
    ensures DigitValue(LowerChar(c)) == HexValue(c)
  {
  }

  /** Lower-casing loses no digit: the reader sees the number that is written. */
  lemma {:induction false} LowerCaseReads(s: string)
    requires IsHexText(s)
    ensures AllDigits(LowerCase(s), 16) && Parse(LowerCase(s), 16) == HexNumber(s)
  {
    forall i | 0 <= i < |s| ensures IsDigit(LowerCase(s)[i], 16) {
      LowerCaseValue(s[i]);
    }
    if s != [] {
      var n := |s| - 1;
      LowerCaseReads(s[..n]);
      LowerCaseValue(s[n]);
      assert LowerCase(s)[..n] == LowerCase(s[..n]);
    }
  }

  /** Printed numbers use the ten digits and small letters only. */
  lemma {:induction false} PrintedChars(n: nat, base: nat)
    requires 2 <= base <= 16
    ensures forall i :: 0 <= i < |ToBase(n, base)| ==>
              '0' <= ToBase(n, base)[i] <= '9' || 'a' <= ToBase(n, base)[i] <= 'f'
  {
    if n >= base {
      DivMod(n, base);
      PrintedChars(n / base, base);
    }
  }

  lemma SameQuotient(q: nat, d: nat, q': nat, d': nat, base: nat)
    requires 2 <= base && d < base && d' < base && q * base + d == q' * base + d'
    ensures q == q' && d == d'
  {
    DivideBack(q, base, d);
    DivideBack(q', base, d');
  }

  lemma SameDigit(c: char, d: char)
    requires DigitValue(c) == DigitValue(d) < 16
    ensures c == d
  {
  }

  /** Numerals of one length that read alike are alike. */
  lemma {:induction false} SameLengthSameText(s: string, t: string, base: nat)
    requires 2 <= base <= 16 && AllDigits(s, base) && AllDigits(t, base)
    requires |s| == |t| && Parse(s, base) == Parse(t, base)
    ensures s == t
  {
    if s != [] {
      var n := |s| - 1;
      assert IsDigit(s[n], base) && IsDigit(t[n], base);
      SameQuotient(Parse(s[..n], base), DigitValue(s[n]), Parse(t[..n], base), DigitValue(t[n]), base);
      SameLengthSameText(s[..n], t[..n], base);
      SameDigit(s[n], t[n]);
      assert s == s[..n] + [s[n]] && t == t[..n] + [t[n]];
    }
  }
}
