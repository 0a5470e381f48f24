/** From snapshot lines to credited wei, and how far the rounded total stays behind the expected one. */
module Conversion {
  import opened Numerals
  import opened Sums
  import opened Snapshot
  import opened Ledger

  /** XRP balances carry 6 decimals, wei 18. */
  const WEI_PER_DROP: real := 1_000_000_000_000.0

  // --- The valid lines --------------------------------------------------------------------

  function ValidLines(lines: seq<LineItem>, flags: seq<bool>): seq<LineItem>
    requires |flags| == |lines|
  {
    if lines == [] then []
    else
      var k := |lines| - 1;
      var front := ValidLines(lines[..k], flags[..k]);
      if flags[k] then front + [lines[k]] else front
  }

  lemma {:induction false} ValidLinesTotals(lines: seq<LineItem>, flags: seq<bool>)
    requires |flags| == |lines|
    ensures |ValidLines(lines, flags)| == Count(flags, true)
    ensures Sum(XrpColumn(ValidLines(lines, flags))) == SumWhere(XrpColumn(lines), flags, true)
    ensures Sum(FlrColumn(ValidLines(lines, flags))) == SumWhere(FlrColumn(lines), flags, true)
  {
    if lines != [] {
      var k := |lines| - 1;
      var front := ValidLines(lines[..k], flags[..k]);
      ValidLinesTotals(lines[..k], flags[..k]);
      assert XrpColumn(lines)[..k] == XrpColumn(lines[..k]);
      assert FlrColumn(lines)[..k] == FlrColumn(lines[..k]);
      if flags[k] {
        assert XrpColumn(front + [lines[k]]) == XrpColumn(front) + [Amount(lines[k].xrpBalance)];
        assert FlrColumn(front + [lines[k]]) == FlrColumn(front) + [Amount(lines[k].flareBalance)];
        SumAppend(XrpColumn(front), Amount(lines[k].xrpBalance));
        SumAppend(FlrColumn(front), Amount(lines[k].flareBalance));
      }
    }
  }

  /** Lines flagged valid have numeric balances, as both validators guarantee. */
  predicate NumericWhereValid(lines: seq<LineItem>, flags: seq<bool>)
    requires |flags| == |lines|
  {
    forall i :: 0 <= i < |lines| && flags[i] ==>
      IsNumeral(lines[i].xrpBalance, 10) && IsNumeral(lines[i].flareBalance, 10)
  }

  // --- Converting one balance -------------------------------------------------------------

  lemma ProductNonNegative(x: real, y: real)
    requires x >= 0.0 && y >= 0.0
    ensures x * y >= 0.0
  {
  }

  /** Flare: convert, round down, then cap. */
  function FlareWei(xrp: nat, xrpAddress: string, factor: real): nat
    requires factor >= 0.0
  {
    ProductNonNegative(xrp as real, factor);
    var wei := (xrp as real * factor * WEI_PER_DROP).Floor;
    if xrpAddress == RIPPLE_WORKS && wei > MAX_FLARE_BALANCE then MAX_FLARE_BALANCE else wei
  }

  datatype Percentages = Percentages(contingent: real, initialAirdrop: real)

  ghost predicate NonNegative(p: Percentages)
  {
    p.contingent >= 0.0 && p.initialAirdrop >= 0.0
  }

  /** Both percentages of an amount, rounded down. */
  function ShareWei(amount: real, p: Percentages): nat
    requires amount >= 0.0 && NonNegative(p)
  {
    ProductNonNegative(amount, p.contingent);
    ProductNonNegative(amount * p.contingent, p.initialAirdrop);
    (amount * p.contingent * p.initialAirdrop).Floor
  }

  /** Songbird: convert, cap, take both percentages, then round down. */
  function SongbirdWei(xrp: nat, xrpAddress: string, factor: real, p: Percentages): nat
    requires factor >= 0.0 && NonNegative(p)
  {
    ProductNonNegative(xrp as real, factor);
    var flare := xrp as real * factor * WEI_PER_DROP;
    ShareWei(if xrpAddress == RIPPLE_WORKS && flare > MAX_FLARE_BALANCE as real
             then MAX_FLARE_BALANCE as real else flare, p)
  }

  // --- The credits both conversion loops make ---------------------------------------------

  function FlareCredit(item: LineItem, factor: real): Credit
    requires factor >= 0.0
  {
    Credit(item.flareAddress, FlareWei(Amount(item.xrpBalance), item.xrpAddress, factor))
  }

  function FlareCredits(valid: seq<LineItem>, factor: real): seq<Credit>
    requires factor >= 0.0
  {
    seq(|valid|, i requires 0 <= i < |valid| => FlareCredit(valid[i], factor))
  }

  function SongbirdCredit(item: LineItem, factor: real, p: Percentages): Credit
    requires factor >= 0.0 && NonNegative(p)
  {
    Credit(item.flareAddress, SongbirdWei(Amount(item.xrpBalance), item.xrpAddress, factor, p))
  }

  function SongbirdCredits(valid: seq<LineItem>, factor: real, p: Percentages): seq<Credit>
    requires factor >= 0.0 && NonNegative(p)
  {
    seq(|valid|, i requires 0 <= i < |valid| => SongbirdCredit(valid[i], factor, p))
  }

  function FlareAddresses(valid: seq<LineItem>): seq<string>
  {
    seq(|valid|, i requires 0 <= i < |valid| => valid[i].flareAddress)
  }

  lemma {:induction false} ValidLineIsFlagged(lines: seq<LineItem>, flags: seq<bool>, k: nat) returns (i: nat)
    requires |flags| == |lines| && k < |ValidLines(lines, flags)|
    ensures i < |lines| && flags[i] && lines[i] == ValidLines(lines, flags)[k]
  {
    var n := |lines| - 1;
    if k < |ValidLines(lines[..n], flags[..n])| {
      i := ValidLineIsFlagged(lines[..n], flags[..n], k);
    } else {
      i := n;
    }
  }

  // --- Floor loss of a whole column -------------------------------------------------------

  function RealSum(es: seq<real>): real
  {
    if es == [] then 0.0 else RealSum(es[..|es| - 1]) + es[|es| - 1]
  }

  /** The exact, unrounded amounts of a column at one rate. */
  function Scaled(xs: seq<nat>, k: real): seq<real>
  {
    seq(|xs|, i requires 0 <= i < |xs| => xs[i] as real * k)
  }

  lemma {:induction false} ScaledSum(xs: seq<nat>, k: real)
    ensures RealSum(Scaled(xs, k)) == Sum(xs) as real * k
  {
    if xs != [] {
      var n := |xs| - 1;
      ScaledSum(xs[..n], k);
      forall i | 0 <= i < n ensures Scaled(xs, k)[i] == Scaled(xs[..n], k)[i] {
        assert xs[..n][i] == xs[i];
      }
      assert Scaled(xs, k)[..n] == Scaled(xs[..n], k);
      Distribute(Sum(xs[..n]), xs[n], k);
    }
  }

  lemma Distribute(a: int, b: int, k: real)
    ensures (a + b) as real * k == a as real * k + b as real * k
  {
  }

  /** Every credit is its exact amount, rounded down or capped. */
  ghost predicate AtMost(cs: seq<Credit>, es: seq<real>)
  {
    |cs| == |es| && forall i :: 0 <= i < |cs| ==> cs[i].amount as real <= es[i]
  }

  ghost predicate WithinOneWei(cs: seq<Credit>, es: seq<real>)
  {
    |cs| == |es| && forall i :: 0 <= i < |cs| ==> es[i] < cs[i].amount as real + 1.0
  }

  ghost predicate Exact(cs: seq<Credit>, es: seq<real>)
  {
    |cs| == |es| && forall i :: 0 <= i < |cs| ==> cs[i].amount as real == es[i]
  }

  /**
   Rounded credits never total more than the exact amounts, fall short by at most one wei each
   when none was capped, and meet the exact total only if every single credit is exact.
   */
  lemma {:induction false} FloorLoss(cs: seq<Credit>, es: seq<real>)
    requires AtMost(cs, es)
    ensures TotalOf(cs) as real <= RealSum(es)
    ensures TotalOf(cs) as real == RealSum(es) <==> Exact(cs, es)
    ensures WithinOneWei(cs, es) ==> RealSum(es) <= TotalOf(cs) as real + |cs| as real
  {
    if cs != [] {
      var n := |cs| - 1;
      FloorLoss(cs[..n], es[..n]);
      assert Exact(cs, es) <==> Exact(cs[..n], es[..n]) && cs[n].amount as real == es[n] by {
        if Exact(cs[..n], es[..n]) && cs[n].amount as real == es[n] {
          forall i | 0 <= i < |cs| ensures cs[i].amount as real == es[i] {
            if i < n { assert cs[..n][i] == cs[i] && es[..n][i] == es[i]; }
          }
        }
      }
    }
  }

  // --- The Flare expectation --------------------------------------------------------------

  /** `expectedFlrToDistribute` of the Flare script, from the validator's XRP total. */
  function FlareExpected(totalXRP: int, factor: real): real
  {
    totalXRP as real * factor * WEI_PER_DROP
  }

  /** The cap took something away from this line. */
  predicate FlareCapped(item: LineItem, factor: real)
  {
    item.xrpAddress == RIPPLE_WORKS &&
    FlareExpected(Amount(item.xrpBalance), factor).Floor > MAX_FLARE_BALANCE
  }

  function FlareExacts(valid: seq<LineItem>, factor: real): seq<real>
  {
    Scaled(XrpColumn(valid), factor * WEI_PER_DROP)
  }

  lemma Associate(x: real, f: real, w: real)
    ensures x * f * w == x * (f * w)
  {
  }

  /** One line: the exact amount rounded down, unless the cap took something away; then the cap. */
  lemma FlareLine(item: LineItem, factor: real)
    requires factor >= 0.0
    ensures var wei, exact := FlareCredit(item, factor).amount as real, FlareExpected(Amount(item.xrpBalance), factor);
            && wei <= exact && (!FlareCapped(item, factor) ==> exact < wei + 1.0)
            && (FlareCapped(item, factor) ==> wei == MAX_FLARE_BALANCE as real)
            && (item.xrpAddress == RIPPLE_WORKS ==> wei <= MAX_FLARE_BALANCE as real)
  {
  }

  lemma FlareExactAt(valid: seq<LineItem>, factor: real, i: nat)
    requires i < |valid|
    ensures FlareExacts(valid, factor)[i] == FlareExpected(Amount(valid[i].xrpBalance), factor)
  {
  }

  lemma FlareCreditBounds(valid: seq<LineItem>, factor: real)
    requires factor >= 0.0
    ensures AtMost(FlareCredits(valid, factor), FlareExacts(valid, factor))
    ensures (forall i :: 0 <= i < |valid| ==> !FlareCapped(valid[i], factor)) ==>
              WithinOneWei(FlareCredits(valid, factor), FlareExacts(valid, factor))
  {
    var cs, es := FlareCredits(valid, factor), FlareExacts(valid, factor);
    forall i | 0 <= i < |valid|
      ensures cs[i].amount as real <= es[i]
      ensures !FlareCapped(valid[i], factor) ==> es[i] < cs[i].amount as real + 1.0
    {
      FlareLine(valid[i], factor);
      FlareExactAt(valid, factor, i);
    }
  }

  /**
   The wei handed out never exceed the expectation computed from the validator's XRP total, fall
   short by at most one wei per valid line unless a line was capped, and meet it exactly when no
   line lost anything to rounding or to the cap.
   */
  lemma FlareFloorLoss(lines: seq<LineItem>, flags: seq<bool>, factor: real)
    requires |flags| == |lines| && factor >= 0.0
    ensures var valid := ValidLines(lines, flags);
            var expected := FlareExpected(SumWhere(XrpColumn(lines), flags, true), factor);
            var total := TotalOf(FlareCredits(valid, factor)) as real;
            && total <= expected
            && ((forall i :: 0 <= i < |valid| ==> !FlareCapped(valid[i], factor)) ==>
                 expected <= total + Count(flags, true) as real)
            && (total == expected <==> Exact(FlareCredits(valid, factor), FlareExacts(valid, factor)))
  {
    var valid := ValidLines(lines, flags);
    ValidLinesTotals(lines, flags);
    FlareExactTotal(valid, factor);
    FlareCreditBounds(valid, factor);
    FloorLoss(FlareCredits(valid, factor), FlareExacts(valid, factor));
  }

  lemma FlareExactTotal(valid: seq<LineItem>, factor: real)
    ensures RealSum(FlareExacts(valid, factor)) == FlareExpected(Sum(XrpColumn(valid)), factor)
  {
    ScaledSum(XrpColumn(valid), factor * WEI_PER_DROP);
    Associate(Sum(XrpColumn(valid)) as real, factor, WEI_PER_DROP);
  }

  // --- The Songbird expectation -----------------------------------------------------------

  /** `expectedFlrToDistribute` of the Songbird script: the factors in the script's own order. */
  function SongbirdExpected(totalXRP: int, factor: real, p: Percentages): real
  {
    totalXRP as real * factor * p.contingent * p.initialAirdrop * WEI_PER_DROP
  }

  predicate SongbirdCapped(item: LineItem, factor: real)
  {
    item.xrpAddress == RIPPLE_WORKS &&
    FlareExpected(Amount(item.xrpBalance), factor) > MAX_FLARE_BALANCE as real
  }

  function SongbirdRate(factor: real, p: Percentages): real
  {
    factor * WEI_PER_DROP * p.contingent * p.initialAirdrop
  }

  function SongbirdExacts(valid: seq<LineItem>, factor: real, p: Percentages): seq<real>
  {
    Scaled(XrpColumn(valid), SongbirdRate(factor, p))
  }

  /** One line: the exact share rounded down, a capped line being shared out from the cap. */
  lemma SongbirdLine(item: LineItem, factor: real, p: Percentages)
    requires factor >= 0.0 && NonNegative(p)
    ensures var wei := SongbirdCredit(item, factor, p).amount as real;
            var exact := FlareExpected(Amount(item.xrpBalance), factor) * p.contingent * p.initialAirdrop;
            var fromCap := MAX_FLARE_BALANCE as real * p.contingent * p.initialAirdrop;
            && wei <= exact && (!SongbirdCapped(item, factor) ==> exact < wei + 1.0)
            && (SongbirdCapped(item, factor) ==> wei <= fromCap < wei + 1.0)
  {
  }

  lemma SongbirdExactAt(valid: seq<LineItem>, factor: real, p: Percentages, i: nat)
    requires i < |valid|
    ensures SongbirdExacts(valid, factor, p)[i]
         == FlareExpected(Amount(valid[i].xrpBalance), factor) * p.contingent * p.initialAirdrop
  {
  }

  lemma SongbirdCreditBounds(valid: seq<LineItem>, factor: real, p: Percentages)
    requires factor >= 0.0 && NonNegative(p)
    ensures AtMost(SongbirdCredits(valid, factor, p), SongbirdExacts(valid, factor, p))
    ensures (forall i :: 0 <= i < |valid| ==> !SongbirdCapped(valid[i], factor)) ==>
              WithinOneWei(SongbirdCredits(valid, factor, p), SongbirdExacts(valid, factor, p))
  {
    forall i | 0 <= i < |valid| {
      SongbirdBoundAt(valid, factor, p, i);
    }
  }

  lemma SongbirdBoundAt(valid: seq<LineItem>, factor: real, p: Percentages, i: nat)
    requires i < |valid| && factor >= 0.0 && NonNegative(p)
    ensures var wei, exact := SongbirdCredits(valid, factor, p)[i].amount as real, SongbirdExacts(valid, factor, p)[i];
            wei <= exact && (!SongbirdCapped(valid[i], factor) ==> exact < wei + 1.0)
  {
    SongbirdLine(valid[i], factor, p);
    SongbirdExactAt(valid, factor, p, i);
  }

  lemma SongbirdExpectedRate(x: int, factor: real, p: Percentages)
    ensures SongbirdExpected(x, factor, p) == x as real * SongbirdRate(factor, p)
  {
  }

  lemma SongbirdExactTotal(valid: seq<LineItem>, factor: real, p: Percentages)
    ensures RealSum(SongbirdExacts(valid, factor, p)) == SongbirdExpected(Sum(XrpColumn(valid)), factor, p)
  {
    ScaledSum(XrpColumn(valid), SongbirdRate(factor, p));
    SongbirdExpectedRate(Sum(XrpColumn(valid)), factor, p);
  }

  /** The same three bounds for Songbird, whose cap comes before the percentages and the rounding. */
  lemma SongbirdFloorLoss(lines: seq<LineItem>, flags: seq<bool>, factor: real, p: Percentages)
    requires |flags| == |lines| && factor >= 0.0 && NonNegative(p)
    ensures var valid := ValidLines(lines, flags);
            var expected := SongbirdExpected(SumWhere(XrpColumn(lines), flags, true), factor, p);
            var total := TotalOf(SongbirdCredits(valid, factor, p)) as real;
            && total <= expected
            && ((forall i :: 0 <= i < |valid| ==> !SongbirdCapped(valid[i], factor)) ==>
                 expected <= total + Count(flags, true) as real)
            && (total == expected <==> Exact(SongbirdCredits(valid, factor, p), SongbirdExacts(valid, factor, p)))
  {
    var valid := ValidLines(lines, flags);
    ValidLinesTotals(lines, flags);
    SongbirdExactTotal(valid, factor, p);
    SongbirdCreditBounds(valid, factor, p);
    FloorLoss(SongbirdCredits(valid, factor, p), SongbirdExacts(valid, factor, p));
  }

  // --- The repository's own constants -----------------------------------------------------

  const CONVERSION_FACTOR: real := 1.0073
  const INITIAL_AIRDROP_PERCENTAGE: real := 0.15

  lemma WholeFlareWei(xrp: nat)
    ensures FlareExpected(xrp, CONVERSION_FACTOR) == (xrp * 1_007_300_000_000) as real
  {
  }

  /** With the repository's factor the total is exact if and only if no line is capped. */
  lemma FlareConstantsExact(lines: seq<LineItem>, flags: seq<bool>)
    requires |flags| == |lines|
    ensures TotalOf(FlareCredits(ValidLines(lines, flags), CONVERSION_FACTOR)) as real
            == FlareExpected(SumWhere(XrpColumn(lines), flags, true), CONVERSION_FACTOR)
            <==> forall i :: 0 <= i < |ValidLines(lines, flags)| ==>
                   !FlareCapped(ValidLines(lines, flags)[i], CONVERSION_FACTOR)
  {
    var valid := ValidLines(lines, flags);
    var cs, es := FlareCredits(valid, CONVERSION_FACTOR), FlareExacts(valid, CONVERSION_FACTOR);
    forall i | 0 <= i < |valid| ensures cs[i].amount as real == es[i] <==> !FlareCapped(valid[i], CONVERSION_FACTOR) {
      WholeFlareLine(valid[i]);
      FlareExactAt(valid, CONVERSION_FACTOR, i);
    }
    FlareFloorLoss(lines, flags, CONVERSION_FACTOR);
  }

  lemma WholeFlareLine(item: LineItem)
    ensures FlareCredit(item, CONVERSION_FACTOR).amount as real
            == FlareExpected(Amount(item.xrpBalance), CONVERSION_FACTOR)
            <==> !FlareCapped(item, CONVERSION_FACTOR)
  {
    WholeFlareWei(Amount(item.xrpBalance));
    FlareLine(item, CONVERSION_FACTOR);
  }

  /** The script offers whole contingent percentages from 0 to 100. */
  function RepositoryPercentages(percent: nat): Percentages
  {
    Percentages(percent as real / 100.0, INITIAL_AIRDROP_PERCENTAGE)
  }

  lemma WholeSongbirdWei(xrp: nat, percent: nat)
    ensures var p := RepositoryPercentages(percent);
            FlareExpected(xrp, CONVERSION_FACTOR) * p.contingent * p.initialAirdrop
            == (xrp * percent * 1_510_950_000) as real
  {
  }

  /**
   With the repository's constants and a whole percentage the total is exact if and only if no
   line is capped or the percentage is zero and nothing is handed out.
   */
  lemma SongbirdConstantsExact(lines: seq<LineItem>, flags: seq<bool>, percent: nat)
    requires |flags| == |lines|
    ensures var p := RepositoryPercentages(percent);
            TotalOf(SongbirdCredits(ValidLines(lines, flags), CONVERSION_FACTOR, p)) as real
            == SongbirdExpected(SumWhere(XrpColumn(lines), flags, true), CONVERSION_FACTOR, p)
            <==> percent == 0 || forall i :: 0 <= i < |ValidLines(lines, flags)| ==>
                                   !SongbirdCapped(ValidLines(lines, flags)[i], CONVERSION_FACTOR)
  {
    var valid, p := ValidLines(lines, flags), RepositoryPercentages(percent);
    var cs, es := SongbirdCredits(valid, CONVERSION_FACTOR, p), SongbirdExacts(valid, CONVERSION_FACTOR, p);
    forall i | 0 <= i < |valid|
      ensures cs[i].amount as real == es[i] <==> percent == 0 || !SongbirdCapped(valid[i], CONVERSION_FACTOR)
    {
      SongbirdLineExactIff(valid[i], percent);
      SongbirdExactAt(valid, CONVERSION_FACTOR, p, i);
    }
    SongbirdFloorLoss(lines, flags, CONVERSION_FACTOR, p);
  }

  lemma SongbirdLineExactIff(item: LineItem, percent: nat)
    ensures var p := RepositoryPercentages(percent);
            SongbirdCredit(item, CONVERSION_FACTOR, p).amount as real
            == FlareExpected(Amount(item.xrpBalance), CONVERSION_FACTOR) * p.contingent * p.initialAirdrop
            <==> percent == 0 || !SongbirdCapped(item, CONVERSION_FACTOR)
  {
    if !SongbirdCapped(item, CONVERSION_FACTOR) {
      WholeSongbirdLine(item, percent);
    } else {
      CappedSongbirdLine(item, percent);
    }
  }

  lemma ScaleStrictly(x: real, y: real, k: real)
    requires x < y && k > 0.0
    ensures x * k < y * k
  {
  }

  lemma ShareOfLess(cap: real, exact: real, c: real, a: real)
    requires cap < exact && c >= 0.0 && a > 0.0
    ensures c > 0.0 ==> cap * c * a < exact * c * a
    ensures c == 0.0 ==> cap * c * a == 0.0 && exact * c * a == 0.0
  {
    if c > 0.0 {
      ScaleStrictly(cap, exact, c);
      ScaleStrictly(cap * c, exact * c, a);
    }
  }

  /** Wei shared out from the cap fall short of the exact share, unless the share is nothing. */
  lemma CappedSongbirdLine(item: LineItem, percent: nat)
    requires SongbirdCapped(item, CONVERSION_FACTOR)
    ensures var p := RepositoryPercentages(percent);
            SongbirdCredit(item, CONVERSION_FACTOR, p).amount as real
            == FlareExpected(Amount(item.xrpBalance), CONVERSION_FACTOR) * p.contingent * p.initialAirdrop
            <==> percent == 0
  {
    var p, exact := RepositoryPercentages(percent), FlareExpected(Amount(item.xrpBalance), CONVERSION_FACTOR);
    CapShareIff(exact, percent);
    assert SongbirdCredit(item, CONVERSION_FACTOR, p).amount == ShareWei(MAX_FLARE_BALANCE as real, p);
  }

  lemma CapShareIff(exact: real, percent: nat)
    requires exact > MAX_FLARE_BALANCE as real
    ensures var p := RepositoryPercentages(percent);
            ShareWei(MAX_FLARE_BALANCE as real, p) as real == exact * p.contingent * p.initialAirdrop <==> percent == 0
  {
    var p, cap := RepositoryPercentages(percent), MAX_FLARE_BALANCE as real;
    ShareOfLess(cap, exact, p.contingent, p.initialAirdrop);
    PercentIsZero(percent);
    FallsShort(ShareWei(cap, p), p.contingent, cap * p.contingent * p.initialAirdrop,
               exact * p.contingent * p.initialAirdrop);
  }

  lemma PercentIsZero(percent: nat)
    ensures RepositoryPercentages(percent).contingent == 0.0 <==> percent == 0
  {
  }

  lemma FallsShort(wei: nat, c: real, fromCap: real, exact: real)
    requires wei as real <= fromCap && c >= 0.0
    requires (c > 0.0 ==> fromCap < exact) && (c == 0.0 ==> fromCap == exact == 0.0)
    ensures wei as real == exact <==> c == 0.0
  {
  }

  lemma WholeShare(amount: real, p: Percentages, n: nat)
    requires amount >= 0.0 && NonNegative(p) && amount * p.contingent * p.initialAirdrop == n as real
    ensures ShareWei(amount, p) == n
  {
  }

  lemma WholeSongbirdLine(item: LineItem, percent: nat)
    requires !SongbirdCapped(item, CONVERSION_FACTOR)
    ensures var p := RepositoryPercentages(percent);
            SongbirdCredit(item, CONVERSION_FACTOR, p).amount as real
            == FlareExpected(Amount(item.xrpBalance), CONVERSION_FACTOR) * p.contingent * p.initialAirdrop
  {
    var p, xrp := RepositoryPercentages(percent), Amount(item.xrpBalance);
    WholeSongbirdWei(xrp, percent);
    WholeShare(FlareExpected(xrp, CONVERSION_FACTOR), p, xrp * percent * 1_510_950_000);
  }
}
