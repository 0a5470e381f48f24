/** The wei printer of the genesis reports and the reader of the account definitions. */
module WeiFormat {
  import opened Numerals
  import opened DigitGrouping
  import opened Wrappers

  const WEI_PER_NATIVE: nat := 1_000_000_000_000_000_000

  // --- String primitives ------------------------------------------------------------------

  function Fill(c: char, n: nat): string
  {
    seq(n, i => c)
  }

  function PadStart(s: string, width: nat, c: char): string
  {
    if |s| >= width then s else Fill(c, width - |s|) + s
  }

  /** `s.slice(-k)` for k > 0. */
  function SliceLast(s: string, k: nat): string
  {
    if |s| <= k then s else s[|s| - k..]
  }

  // --- Printer and reader -----------------------------------------------------------------

  function FormatWei(valueWei: nat, fixedLength: nat): string
  {
    PadStart(RegexGroup(ToBase(valueWei / WEI_PER_NATIVE, 10), ','), fixedLength, ' ')
    + ['.'] + RegexGroup(SliceLast(ToBase(valueWei, 10), 18), ' ')
  }

  /** Decimal digits, or "0x" and hexadecimal digits in either letter case. */
  function ReadUnsigned(s: string): Option<nat>
  {
    if IsNumeral(s, 10) then Some(Parse(s, 10))
    else if |s| > 2 && s[..2] == "0x" && IsNumeral(LowerCase(s[2..]), 16) then Some(Parse(LowerCase(s[2..]), 16))
    else None
  }

  /** `BigNumber.from` on a string: an optionally signed numeral of either kind, anything else throws. */
  function BigNumberFrom(s: string): Option<int>
  {
    if s == [] || s[0] != '-' then
      match ReadUnsigned(s)
      case Some(v) => Some(v)
      case None => None
    else
      match ReadUnsigned(s[1..])
      case Some(v) => Some(0 - v)
      case None => None
  }

  /** Hexadecimal texts of either letter case read to the number they write. */
  lemma HexEntryReads(digits: string)
    requires digits != [] && IsHexText(digits)
    ensures BigNumberFrom("0x" + digits) == Some(HexNumber(digits))
  {
    var s := "0x" + digits;
    LowerCaseReads(digits);
    assert s[1] == 'x' && s[..2] == "0x" && s[2..] == digits;
    assert !IsDigit(s[1], 10);
  }

  lemma HexDigitsRead(digits: string)
    requires IsNumeral(digits, 16)
    ensures BigNumberFrom("0x" + digits) == Some(Parse(digits, 16))
  {
    var s := "0x" + digits;
    LowerCaseDigits(digits, 16);
    assert s[1] == 'x' && s[..2] == "0x" && s[2..] == digits;
    assert !IsDigit(s[1], 10);
  }

  /** An `initialEntryWei` text: thousands separators, the point and spaces are dropped. */
  function ReadEntryWei(s: string): Option<int>
  {
    BigNumberFrom(Strip(s, {',', '.', ' '}))
  }

  /** An `initialEntryNat` text: whole native units; a point is not dropped and makes it throw. */
  function ReadEntryNat(s: string): Option<int>
  {
    match BigNumberFrom(Strip(s, {',', ' '}))
    case None => None
    case Some(v) => Some(v * WEI_PER_NATIVE)
  }

  // --- Round trip -------------------------------------------------------------------------

  lemma PowTen18()
    ensures Pow(10, 17) == 100_000_000_000_000_000
    ensures Pow(10, 18) == WEI_PER_NATIVE
  {
    assert Pow(10, 3) == 1000;
    PowSum(10, 3, 3);
    assert Pow(10, 6) == 1000 * 1000;
    PowSum(10, 6, 6);
    assert Pow(10, 12) == 1_000_000 * 1_000_000;
    PowSum(10, 12, 3);
    assert Pow(10, 15) == 1_000_000_000_000 * 1000;
    assert Pow(10, 16) == Pow(10, 15) * 10;
    assert Pow(10, 17) == Pow(10, 16) * 10;
    assert Pow(10, 18) == Pow(10, 17) * 10;
  }

  /** The last 18 digits printed hold the value below one native unit. */
  lemma LastDigits(v: nat)
    ensures var lo := SliceLast(ToBase(v, 10), 18);
            IsNumeral(lo, 10) && |lo| <= 18 &&
            Parse(lo, 10) == v % WEI_PER_NATIVE &&
            (|lo| < 18 ==> v < Pow(10, |lo|) <= WEI_PER_NATIVE) &&
            (|lo| == 18 <==> v >= Pow(10, 17))
  {
    PowTen18();
    ParsePrinted(v, 10);
    var s := ToBase(v, 10);
    PrintedLength(v, 10, 18);
    PrintedLength(v, 10, 17);
    ParseBound(s, 10);
    if |s| > 18 {
      var hi, lo := s[..|s| - 18], s[|s| - 18..];
      assert s == hi + lo;
      SplitPrinted(v, 10, hi, lo);
      DivideByUnit(v, Parse(hi, 10), Parse(lo, 10));
    } else {
      DivideByUnit(v, if v < WEI_PER_NATIVE then 0 else 1, v);
      if |s| < 18 {
        PowMonotone(10, |s|, 18);
      }
    }
  }

  lemma DivideByUnit(v: nat, q: nat, r: nat)
    requires r < WEI_PER_NATIVE && v == q * WEI_PER_NATIVE + r
    ensures v / WEI_PER_NATIVE == q && v % WEI_PER_NATIVE == r
  {
  }

  lemma DigitsAreDec(s: string)
    requires AllDigits(s, 10)
    ensures AllDec(s)
  {
  }

  lemma StripPadded(s: string, width: nat, drop: set<char>)
    requires ' ' in drop
    ensures Strip(PadStart(s, width, ' '), drop) == Strip(s, drop)
  {
    if |s| < width {
      StripFill(width - |s|, drop);
      StripConcat(Fill(' ', width - |s|), s, drop);
    }
  }

  lemma {:induction false} StripFill(n: nat, drop: set<char>)
    requires ' ' in drop
    ensures Strip(Fill(' ', n), drop) == []
  {
    if n > 0 {
      StripFill(n - 1, drop);
      assert Fill(' ', n)[1..] == Fill(' ', n - 1);
    }
  }

  lemma StripDigits(s: string, drop: set<char>)
    requires AllDigits(s, 10) && drop <= {',', '.', ' '}
    ensures Strip(s, drop) == s
  {
  }

  lemma StripWhole(n: nat, fixedLength: nat, drop: set<char>)
    requires {',', ' '} <= drop <= {',', '.', ' '}
    ensures Strip(PadStart(RegexGroup(ToBase(n, 10), ','), fixedLength, ' '), drop) == ToBase(n, 10)
  {
    ParsePrinted(n, 10);
    StripPadded(RegexGroup(ToBase(n, 10), ','), fixedLength, drop);
    StripUndoesGroupers(ToBase(n, 10), ',', drop);
    StripDigits(ToBase(n, 10), drop);
  }

  lemma StripFraction(lo: string, drop: set<char>)
    requires AllDigits(lo, 10)
    requires {',', ' '} <= drop <= {',', '.', ' '}
    ensures Strip(RegexGroup(lo, ' '), drop) == lo
  {
    StripUndoesGroupers(lo, ' ', drop);
    StripDigits(lo, drop);
  }

  lemma StripAroundPoint(left: string, right: string, drop: set<char>)
    requires '.' in drop
    ensures Strip(left + ['.'] + right, drop) == Strip(left, drop) + Strip(right, drop)
  {
    StripConcat(left + ['.'], right, drop);
    StripConcat(left, ['.'], drop);
    assert Strip(['.'], drop) == Strip([], drop) == [];
    assert Strip(left, drop) + [] == Strip(left, drop);
  }

  lemma StripFormatted(v: nat, fixedLength: nat)
    ensures Strip(FormatWei(v, fixedLength), {',', '.', ' '})
         == ToBase(v / WEI_PER_NATIVE, 10) + SliceLast(ToBase(v, 10), 18)
  {
    var drop := {',', '.', ' '};
    LastDigits(v);
    var left := PadStart(RegexGroup(ToBase(v / WEI_PER_NATIVE, 10), ','), fixedLength, ' ');
    var right := RegexGroup(SliceLast(ToBase(v, 10), 18), ' ');
    StripAroundPoint(left, right, drop);
    StripWhole(v / WEI_PER_NATIVE, fixedLength, drop);
    StripFraction(SliceLast(ToBase(v, 10), 18), drop);
  }

  lemma JoinValue(v: nat, p: nat)
    requires p == WEI_PER_NATIVE || v < WEI_PER_NATIVE
    ensures v / WEI_PER_NATIVE * p + v % WEI_PER_NATIVE == v
  {
  }

  /** The whole digits followed by the last 18 (or fewer) digits are a numeral for the value. */
  lemma JoinedDigits(v: nat, hi: string, lo: string)
    requires hi == ToBase(v / WEI_PER_NATIVE, 10) && lo == SliceLast(ToBase(v, 10), 18)
    ensures IsNumeral(hi + lo, 10) && Parse(hi + lo, 10) == v
  {
    ParsePrinted(v / WEI_PER_NATIVE, 10);
    LastDigits(v);
    ParseConcat(hi, lo, 10);
    PowTen18();
    JoinValue(v, Pow(10, |lo|));
  }

  /** Every printed wei value, at any padding, is read back to itself by the definition reader. */
  lemma FormatReadRoundTrip(v: nat, fixedLength: nat)
    ensures ReadEntryWei(FormatWei(v, fixedLength)) == Some(v)
  {
    StripFormatted(v, fixedLength);
    JoinedDigits(v, ToBase(v / WEI_PER_NATIVE, 10), SliceLast(ToBase(v, 10), 18));
  }

  /** So the printout at a fixed width never shows two values alike. */
  lemma FormatIsInjective(v: nat, w: nat, fixedLength: nat)
    requires FormatWei(v, fixedLength) == FormatWei(w, fixedLength)
    ensures v == w
  {
    FormatReadRoundTrip(v, fixedLength);
    FormatReadRoundTrip(w, fixedLength);
  }

  // --- What an entry in native units is worth ---------------------------------------------

  lemma DecimalReads(s: string)
    requires IsNumeral(s, 10)
    ensures BigNumberFrom(s) == Some(Parse(s, 10))
  {
    assert IsDigit(s[0], 10);
  }

  lemma StripGroupedNumber(n: nat, drop: set<char>)
    requires {',', ' '} <= drop <= {',', '.', ' '}
    ensures Strip(RegexGroup(ToBase(n, 10), ','), drop) == ToBase(n, 10)
  {
    StripWhole(n, 0, drop);
  }

  /** Eighteen zeros in triples. */
  const NO_FRACTION: string := "000 " + ("000 " + ("000 " + ("000 " + ("000 " + "000"))))

  lemma StripZeros(rest: string)
    ensures Strip("000 " + rest, {',', '.', ' '}) == "000" + Strip(rest, {',', '.', ' '})
  {
    var drop := {',', '.', ' '};
    StripConcat("000 ", rest, drop);
    StripConcat("000", " ", drop);
    StripDigits("000", drop);
    assert Strip(" ", drop) == Strip("", drop) == "";
    assert "000" + " " == "000 " && "000" + "" == "000";
  }

  lemma MoreZeros(rest: string, k: nat)
    requires Strip(rest, {',', '.', ' '}) == Fill('0', k)
    ensures Strip("000 " + rest, {',', '.', ' '}) == Fill('0', k + 3)
  {
    StripZeros(rest);
    assert "000" + Fill('0', k) == Fill('0', k + 3);
  }

  lemma StripNoFraction()
    ensures Strip(NO_FRACTION, {',', '.', ' '}) == Fill('0', 18)
  {
    var z1: string := "000";
    var z2, z3 := "000 " + z1, "000 " + ("000 " + z1);
    StripDigits(z1, {',', '.', ' '});
    assert z1 == Fill('0', 3);
    MoreZeros(z1, 3);
    MoreZeros(z2, 6);
    MoreZeros(z3, 9);
    MoreZeros("000 " + z3, 12);
    MoreZeros("000 " + ("000 " + z3), 15);
  }

  lemma {:induction false} ZerosRead(k: nat)
    ensures AllDigits(Fill('0', k), 10) && Parse(Fill('0', k), 10) == 0
  {
    if k > 0 {
      ZerosRead(k - 1);
      assert Fill('0', k)[..k - 1] == Fill('0', k - 1);
    }
  }

  lemma NativeEntryReads(n: nat)
    ensures ReadEntryNat(RegexGroup(ToBase(n, 10), ',')) == Some(n * Pow(10, 18))
  {
    ParsePrinted(n, 10);
    PowTen18();
    StripGroupedNumber(n, {',', ' '});
    DecimalReads(ToBase(n, 10));
  }

  lemma TimesEighteenZeros(n: nat, digits: string)
    requires IsNumeral(digits, 10) && Parse(digits, 10) == n
    ensures BigNumberFrom(digits + Fill('0', 18)) == Some(n * Pow(10, 18))
  {
    ZerosRead(18);
    ParseConcat(digits, Fill('0', 18), 10);
    DecimalReads(digits + Fill('0', 18));
  }

  lemma WholeWeiEntryReads(n: nat)
    ensures ReadEntryWei(RegexGroup(ToBase(n, 10), ',') + ['.'] + NO_FRACTION) == Some(n * Pow(10, 18))
  {
    ParsePrinted(n, 10);
    StripAroundPoint(RegexGroup(ToBase(n, 10), ','), NO_FRACTION, {',', '.', ' '});
    StripGroupedNumber(n, {',', '.', ' '});
    StripNoFraction();
    TimesEighteenZeros(n, ToBase(n, 10));
  }

  /**
   A native entry of n is worth n * 10^18 wei: exactly what the wei entry with the same whole part
   and eighteen zeros behind the point is worth.
   */
  lemma NativeEntryWorth(n: nat)
    ensures var text := RegexGroup(ToBase(n, 10), ',');
            && ReadEntryNat(text) == Some(n * Pow(10, 18))
            && ReadEntryWei(text + ['.'] + NO_FRACTION) == Some(n * Pow(10, 18))
  {
    NativeEntryReads(n);
    WholeWeiEntryReads(n);
  }

  lemma {:induction false} StripLeaves(s: string, drop: set<char>, c: char)
    requires c in s && c !in drop
    ensures c in Strip(s, drop)
  {
    if s[0] != c {
      StripLeaves(s[1..], drop, c);
    }
  }

  /** A native entry with a point cannot be read. */
  lemma NativeEntryHasNoPoint(s: string)
    requires '.' in s
    ensures ReadEntryNat(s) == None
  {
    var t := Strip(s, {',', ' '});
    StripLeaves(s, {',', ' '}, '.');
    PointIsNoNumber(t);
    if t[0] == '-' {
      PointIsNoNumber(t[1..]);
    }
  }

  lemma PointIsNoNumber(s: string)
    requires '.' in s
    ensures ReadUnsigned(s) == None
  {
    var i :| 0 <= i < |s| && s[i] == '.';
    assert !IsDigit(s[i], 10);
    if |s| > 2 && s[..2] == "0x" {
      assert s[0] == s[..2][0] && s[1] == s[..2][1];
      assert LowerCase(s[2..])[i - 2] == '.';
      assert !IsDigit(LowerCase(s[2..])[i - 2], 16);
    }
  }

  // --- Reading the printout as a decimal fraction -----------------------------------------

  /** The blanks a text begins with. */
  function LeadingBlanks(s: string): (k: nat)
    ensures k <= |s| && forall i :: 0 <= i < k ==> s[i] == ' '
    ensures k < |s| ==> s[k] != ' '
  {
    if s == [] || s[0] != ' ' then 0 else 1 + LeadingBlanks(s[1..])
  }

  /** The printout taken apart at its point, the blanks in front cut off. */
  datatype Parts = Parts(blanks: nat, whole: string, fraction: string)

  function PartsOf(s: string): Parts
  {
    var dot, k := IndexOf(s, '.'), LeadingBlanks(s);
    if k <= dot then Parts(k, s[k..dot], s[dot + 1..]) else Parts(0, s, "")
  }

  /** The printed number as the fraction a reader sees: numerator over 10^scale. */
  datatype Fraction = Fraction(numerator: nat, scale: nat)

  /** Reads "whole.fraction" after the separators and padding are dropped. */
  function ReadFraction(whole: string, fraction: string): (f: Fraction)
    requires AllDigits(whole, 10) && AllDigits(fraction, 10)
  {
    Fraction(Parse(whole, 10) * Pow(10, |fraction|) + Parse(fraction, 10), |fraction|)
  }

  /** The printout around its point, separators and padding dropped. */
  function PrintedFraction(v: nat, fixedLength: nat): Fraction
  {
    var p := PartsOf(FormatWei(v, fixedLength));
    var whole, fraction := Strip(p.whole, {','}), Strip(p.fraction, {' '});
    if AllDigits(whole, 10) && AllDigits(fraction, 10) then ReadFraction(whole, fraction)
    else Fraction(0, 0)
  }

  lemma {:induction false} IndexOfFirst(a: string, b: string, c: char)
    requires c !in a
    ensures IndexOf(a + [c] + b, c) == |a|
  {
    if a != [] {
      assert (a + [c] + b)[1..] == a[1..] + [c] + b;
      IndexOfFirst(a[1..], b, c);
    }
  }

  lemma {:induction false} NoPointGrouped(x: string)
    requires '.' !in x
    ensures '.' !in Grouped(x, ',')
    decreases |x|
  {
    if |x| > 3 {
      NoPointGrouped(x[..|x| - 3]);
    }
  }

  lemma {:induction false} BlanksBefore(n: nat, s: string)
    requires s != [] && s[0] != ' '
    ensures LeadingBlanks(Fill(' ', n) + s) == n
  {
    if n > 0 {
      BlanksBefore(n - 1, s);
      assert (Fill(' ', n) + s)[1..] == Fill(' ', n - 1) + s;
    } else {
      assert Fill(' ', n) + s == s;
    }
  }

  function BlanksNeeded(whole: string, fixedLength: nat): nat
  {
    if |whole| < fixedLength then fixedLength - |whole| else 0
  }

  lemma PartsOfText(blanks: nat, whole: string, fraction: string)
    requires whole != [] && whole[0] != ' ' && '.' !in whole
    ensures PartsOf(Fill(' ', blanks) + whole + ['.'] + fraction) == Parts(blanks, whole, fraction)
  {
    var left := Fill(' ', blanks) + whole;
    var s := left + ['.'] + fraction;
    IndexOfFirst(left, fraction, '.');
    BlanksBefore(blanks, whole + ['.'] + fraction);
    assert s == Fill(' ', blanks) + (whole + ['.'] + fraction);
    assert s[blanks..|left|] == whole && s[|left| + 1..] == fraction;
  }

  lemma PaddedParts(whole: string, fraction: string, fixedLength: nat)
    requires whole != [] && whole[0] != ' ' && '.' !in whole
    ensures PadStart(whole, fixedLength, ' ') == Fill(' ', BlanksNeeded(whole, fixedLength)) + whole
    ensures PartsOf(PadStart(whole, fixedLength, ' ') + ['.'] + fraction)
         == Parts(BlanksNeeded(whole, fixedLength), whole, fraction)
  {
    assert Fill(' ', 0) + whole == whole;
    PartsOfText(BlanksNeeded(whole, fixedLength), whole, fraction);
  }

  lemma FormatParts(v: nat, fixedLength: nat)
    ensures var hi, lo := ToBase(v / WEI_PER_NATIVE, 10), SliceLast(ToBase(v, 10), 18);
            && IsNumeral(hi, 10) && IsNumeral(lo, 10)
            && PartsOf(FormatWei(v, fixedLength))
               == Parts(BlanksNeeded(RegexGroup(hi, ','), fixedLength), RegexGroup(hi, ','), RegexGroup(lo, ' '))
  {
    var hi, lo := ToBase(v / WEI_PER_NATIVE, 10), SliceLast(ToBase(v, 10), 18);
    ParsePrinted(v / WEI_PER_NATIVE, 10);
    ParsePrinted(v, 10);
    LastDigits(v);
    GroupedPart(hi, ',');
    PaddedParts(RegexGroup(hi, ','), RegexGroup(lo, ' '), fixedLength);
  }

  /**
   The printed text by positions: blanks to the asked width and no more, then whole native units in
   triples with commas, the point, and the last eighteen digits in triples with blanks.
   */
  lemma FormatByPositions(v: nat, fixedLength: nat)
    ensures var s, p := FormatWei(v, fixedLength), PartsOf(FormatWei(v, fixedLength));
            && s == Fill(' ', p.blanks) + p.whole + ['.'] + p.fraction
            && p.blanks == BlanksNeeded(p.whole, fixedLength)
            && InTriples(p.whole, ',') && InTriples(p.fraction, ' ')
            && Strip(p.whole, {','}) == ToBase(v / WEI_PER_NATIVE, 10)
            && Strip(p.fraction, {' '}) == SliceLast(ToBase(v, 10), 18)
  {
    var hi, lo := ToBase(v / WEI_PER_NATIVE, 10), SliceLast(ToBase(v, 10), 18);
    FormatParts(v, fixedLength);
    GroupedPart(hi, ',');
    GroupedPart(lo, ' ');
    PaddedParts(RegexGroup(hi, ','), RegexGroup(lo, ' '), fixedLength);
  }

  /** One side of the point. */
  lemma GroupedPart(digits: string, sep: char)
    requires IsNumeral(digits, 10) && sep in {',', ' '}
    ensures var g := RegexGroup(digits, sep);
            && InTriples(g, sep) && Strip(g, {sep}) == digits
            && g != [] && g[0] != ' ' && (sep == ',' ==> '.' !in g)
  {
    DigitsAreDec(digits);
    RegexRefinesGrouped(digits, sep);
    GroupedInTriples(digits, sep);
    StripUndoesGroupers(digits, sep, {sep});
    StripDigits(digits, {sep});
    if sep == ',' {
      NoPointGrouped(digits);
    }
  }

  /** Whole native units before the point and wei behind it; a text without both has no such reading. */
  function ReadPrinted(s: string): Option<nat>
  {
    var p := PartsOf(s);
    var whole, fraction := Strip(p.whole, {','}), Strip(p.fraction, {' '});
    if IsNumeral(whole, 10) && IsNumeral(fraction, 10)
    then Some(Parse(whole, 10) * Pow(10, 18) + Parse(fraction, 10)) else None
  }

  /** Read on either side of its point, the printout gives the amount. */
  lemma PrintedReads(v: nat, fixedLength: nat)
    ensures ReadPrinted(FormatWei(v, fixedLength)) == Some(v)
  {
    FormatByPositions(v, fixedLength);
    ParsePrinted(v / WEI_PER_NATIVE, 10);
    ParsePrinted(v, 10);
    LastDigits(v);
    PowTen18();
    JoinValue(v, WEI_PER_NATIVE);
  }

  lemma PrintedFractionParts(v: nat, fixedLength: nat)
    ensures var hi, lo := ToBase(v / WEI_PER_NATIVE, 10), SliceLast(ToBase(v, 10), 18);
            AllDigits(hi, 10) && AllDigits(lo, 10) &&
            PrintedFraction(v, fixedLength) == ReadFraction(hi, lo)
  {
    FormatByPositions(v, fixedLength);
    ParsePrinted(v / WEI_PER_NATIVE, 10);
    LastDigits(v);
  }

  /**
   The printout reads as the true amount in native units exactly for zero and from 10^17 wei on:
   below that the fraction is not padded to 18 places, so 5 wei is printed "0.5".
   */
  lemma PrintedAmountIsTrue(v: nat, fixedLength: nat)
    ensures var f := PrintedFraction(v, fixedLength);
            f.numerator * WEI_PER_NATIVE == v * Pow(10, f.scale) <==> v == 0 || v >= 100_000_000_000_000_000
  {
    var hi, lo := ToBase(v / WEI_PER_NATIVE, 10), SliceLast(ToBase(v, 10), 18);
    PrintedFractionParts(v, fixedLength);
    ParsePrinted(v / WEI_PER_NATIVE, 10);
    LastDigits(v);
    PowTen18();
    AmountComparison(v, |lo|);
  }

  lemma AmountComparison(v: nat, k: nat)
    requires k <= 18 && (k < 18 ==> v < WEI_PER_NATIVE)
    ensures var n := v / WEI_PER_NATIVE * Pow(10, k) + v % WEI_PER_NATIVE;
            n * WEI_PER_NATIVE == v * Pow(10, k) <==> v == 0 || k == 18
  {
    PowTen18();
    if k < 18 {
      assert v / WEI_PER_NATIVE == 0;
      PowMonotone(10, k, 18);
      SmallerProduct(v, Pow(10, k), WEI_PER_NATIVE);
    }
  }

  lemma SmallerProduct(v: nat, a: nat, b: nat)
    requires a < b
    ensures v * b == v * a <==> v == 0
  {
  }
}
