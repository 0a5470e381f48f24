/**
 The daily inflation is shared out by flooring each receiver's part of what is still left over
 the BIPS still unassigned, instead of each receiver's part of the whole.
 */
module InflationSplit {
  import opened Arithmetic
  import opened Sums

  const BIPS: nat := 10000

  /** An amount, or whatever the library makes of a division by a divisor that has run out. */
  datatype Outcome = Share(wei: int) | DivisorExhausted

  // --- The split as a recurrence ----------------------------------------------------------

  /** The BIPS not yet assigned when receiver i is reached. */
  function Divisor(bips: seq<nat>, i: nat): int
    requires i <= |bips|
  {
    if i == 0 then BIPS else Divisor(bips, i - 1) - bips[i - 1]
  }

  /** The wei not yet assigned when receiver i is reached. */
  function Left(total: nat, bips: seq<nat>, i: nat): int
    requires i <= |bips|
    decreases i, 0
  {
    if i == 0 then total else Left(total, bips, i - 1) - ShareAt(total, bips, i - 1)
  }

  function ShareAt(total: nat, bips: seq<nat>, i: nat): int
    requires i < |bips|
    decreases i, 1
  {
    if Divisor(bips, i) <= 0 then 0
    else Left(total, bips, i) * bips[i] / Divisor(bips, i)
  }

  function Shares(total: nat, bips: seq<nat>): seq<int>
  {
    seq(|bips|, i requires 0 <= i < |bips| => ShareAt(total, bips, i))
  }

  function FirstIndex(receivers: seq<string>, name: string): (i: nat)
    ensures i <= |receivers|
    ensures i < |receivers| ==> receivers[i] == name
    ensures forall j :: 0 <= j < i ==> receivers[j] != name
  {
    if receivers == [] || receivers[0] == name then 0 else 1 + FirstIndex(receivers[1..], name)
  }

  /** The first receiver of that name gets its share; an unlisted name gets nothing. */
  function AuthorizedShare(receivers: seq<string>, bips: seq<nat>, total: nat, name: string): Outcome
    requires |bips| == |receivers|
  {
    var i := FirstIndex(receivers, name);
    if i == |receivers| then Share(0)
    else if Divisor(bips, i) > 0 then Share(ShareAt(total, bips, i))
    else DivisorExhausted
  }

  /** `total.muln(bips).divn(divisor)` */
  function PartOf(total: Outcome, bips: nat, divisor: int): Outcome
  {
    if total.Share? && divisor > 0 then Share(total.wei * bips / divisor) else DivisorExhausted
  }

  /** `total.sub(part)` */
  function Minus(total: Outcome, part: Outcome): Outcome
  {
    if total.Share? && part.Share? then Share(total.wei - part.wei) else DivisorExhausted
  }

  // --- The loop ---------------------------------------------------------------------------

  method CalculateAuthorizedInflationWei(receivers: seq<string>, bips: seq<nat>, total: nat, name: string)
      returns (r: Outcome)
    requires |bips| == |receivers|
    ensures r == AuthorizedShare(receivers, bips, total, name)
  {
    var divisorRemaining: int := 10000;
    var totalAuthorized := Share(total);
    for i := 0 to |receivers|
      invariant i <= FirstIndex(receivers, name)
      invariant divisorRemaining == Divisor(bips, i)
      invariant totalAuthorized
             == if i == 0 || Divisor(bips, i - 1) > 0 then Share(Left(total, bips, i)) else DivisorExhausted
    {
      if i > 0 {
        DivisorDecreases(bips, i - 1, i);
      }
      var serviceAuth := PartOf(totalAuthorized, bips[i], divisorRemaining);
      if receivers[i] == name {
        return serviceAuth;
      } else {
        totalAuthorized := Minus(totalAuthorized, serviceAuth);
        divisorRemaining := divisorRemaining - bips[i];
      }
    }
    return Share(0);
  }

  lemma {:induction false} DivisorDecreases(bips: seq<nat>, i: nat, j: nat)
    requires i <= j <= |bips|
    ensures Divisor(bips, j) <= Divisor(bips, i)
    decreases j
  {
    if i < j {
      DivisorDecreases(bips, i, j - 1);
    }
  }

  // --- Rounding bounds --------------------------------------------------------------------

  /** Every division met while serving `bips` has a positive divisor, and BIPS is not exceeded. */
  ghost predicate Configured(bips: seq<nat>)
  {
    Divisor(bips, |bips|) >= 0 && (|bips| > 0 ==> Divisor(bips, |bips| - 1) > 0)
  }

  lemma PositiveBipsConfigured(bips: seq<nat>)
    requires forall i :: 0 <= i < |bips| ==> bips[i] > 0
    requires Divisor(bips, |bips|) >= 0
    ensures Configured(bips)
  {
  }

  lemma DivisorsPositive(bips: seq<nat>, i: nat)
    requires Configured(bips) && i < |bips|
    ensures 0 < Divisor(bips, i) && bips[i] <= Divisor(bips, i) <= BIPS
  {
    DivisorDecreases(bips, i, |bips| - 1);
    DivisorDecreases(bips, i + 1, |bips|);
    DivisorDecreases(bips, 0, i);
  }

  lemma CancelFactor(d: int, x: int, y: int)
    requires d > 0 && d * x <= d * y
    ensures x <= y
  {
  }

  /** One step keeps "what is left" within one wei of its exact proportion. */
  lemma LeftStepLower(t: int, l: int, d: int, b: int, s: int)
    requires 0 < d && 0 <= b <= d && s * d <= l * b
    requires t * d <= BIPS * l
    ensures t * (d - b) <= BIPS * (l - s)
  {
  }

  lemma LeftStepUpper(t: int, l: int, d: int, b: int, s: int, e: int)
    requires 0 < d && 0 <= b <= d && l * b < s * d + d
    requires 0 <= e && BIPS * l <= t * d + e
    ensures BIPS * (l - s) < t * (d - b) + e + BIPS
  {
  }

  /** What is left stays above its exact proportion and below it plus one wei per receiver served. */
  lemma {:induction false} LeftBounds(total: nat, bips: seq<nat>, i: nat)
    requires Configured(bips) && i <= |bips|
    ensures total * Divisor(bips, i) <= BIPS * Left(total, bips, i)
    ensures BIPS * Left(total, bips, i) <= total * Divisor(bips, i) + BIPS * i
    ensures i > 0 ==> BIPS * Left(total, bips, i) < total * Divisor(bips, i) + BIPS * i
  {
    if i > 0 {
      var j := i - 1;
      LeftBounds(total, bips, j);
      DivisorsPositive(bips, j);
      var l, d, b, s := Left(total, bips, j), Divisor(bips, j), bips[j], ShareAt(total, bips, j);
      FloorBounds(l * b, d);
      LeftStepLower(total, l, d, b, s);
      LeftStepUpper(total, l, d, b, s, BIPS * j);
    }
  }

  lemma ShareLowerStep(t: nat, l: int, d: int, b: int, f: int)
    requires 0 < d && 0 <= b && t * d <= BIPS * l && f * BIPS <= t * b
    ensures f * d <= l * b
  {
  }

  lemma ShareUpperStep(t: nat, l: int, d: int, b: int, s: int, e: int)
    requires 0 < d && 0 <= b <= d && 0 <= e && BIPS * l <= t * d + e && s * d <= l * b
    ensures BIPS * s <= t * b + e
  {
  }

  /**
   Receiver i gets at least the floor of its exact part of the whole and at most one wei per
   earlier receiver more than that part.
   */
  lemma ShareBounds(total: nat, bips: seq<nat>, i: nat)
    requires Configured(bips) && i < |bips|
    ensures total * bips[i] / BIPS <= ShareAt(total, bips, i)
    ensures BIPS * ShareAt(total, bips, i) <= total * bips[i] + BIPS * i
  {
    LeftBounds(total, bips, i);
    DivisorsPositive(bips, i);
    var l, d, b := Left(total, bips, i), Divisor(bips, i), bips[i];
    FloorBounds(total * b, BIPS);
    ShareLowerStep(total, l, d, b, total * b / BIPS);
    FloorAtLeast(l * b, d, total * b / BIPS);
    FloorBounds(l * b, d);
    ShareUpperStep(total, l, d, b, ShareAt(total, bips, i), BIPS * i);
  }

  // --- Exactness --------------------------------------------------------------------------

  lemma {:induction false} SharesAndLeft(total: nat, bips: seq<nat>, i: nat)
    requires i <= |bips|
    ensures Sum(Shares(total, bips)[..i]) + Left(total, bips, i) == total
  {
    if i > 0 {
      SharesAndLeft(total, bips, i - 1);
      assert Shares(total, bips)[..i][..i - 1] == Shares(total, bips)[..i - 1];
    }
  }

  lemma LeftAtEnd(total: nat, bips: seq<nat>)
    requires Configured(bips)
    ensures Left(total, bips, |bips|) >= 0
    ensures Left(total, bips, |bips|) == 0 <==> Divisor(bips, |bips|) == 0 || total == 0
  {
    var n := |bips|;
    var d := Divisor(bips, n);
    LeftBounds(total, bips, n);
    if d == 0 {
      assert Divisor(bips, n - 1) == bips[n - 1];
      DivideOut(Left(total, bips, n - 1), bips[n - 1]);
    } else if total == 0 {
      ZeroSplit(bips, n);
    } else {
      Scale(total, 1, d);
    }
  }

  /** Nothing of the total is lost exactly when the BIPS add up to the whole (or there is nothing). */
  lemma SplitIsExact(total: nat, bips: seq<nat>)
    requires Configured(bips)
    ensures Sum(Shares(total, bips)) <= total
    ensures Sum(Shares(total, bips)) == total <==> Divisor(bips, |bips|) == 0 || total == 0
  {
    SharesAndLeft(total, bips, |bips|);
    assert Shares(total, bips)[..|bips|] == Shares(total, bips);
    LeftAtEnd(total, bips);
  }

  lemma DivideOut(l: int, b: int)
    requires b > 0
    ensures l * b / b == l
  {
    FloorBounds(l * b, b);
    FloorAtLeast(l * b, b, l);
    CancelFactor(b, l * b / b, l);
  }

  lemma {:induction false} ZeroSplit(bips: seq<nat>, i: nat)
    requires i <= |bips|
    ensures Left(0, bips, i) == 0
  {
    if i > 0 {
      ZeroSplit(bips, i - 1);
      assert 0 * bips[i - 1] == 0;
    }
  }

  lemma {:induction false} DivisorIsRest(bips: seq<nat>, i: nat)
    requires i <= |bips|
    ensures Divisor(bips, i) == BIPS - Sum(bips[..i])
  {
    if i > 0 {
      DivisorIsRest(bips, i - 1);
      assert bips[..i][..i - 1] == bips[..i - 1];
    }
  }

  /**
   Receiver i gets the floor of its part of the rest, taken over the BIPS not yet assigned: what
   earlier receivers lost to rounding is handed on to all later ones.
   */
  lemma ShareIsPartOfRest(total: nat, bips: seq<nat>, i: nat)
    requires Configured(bips) && i < |bips|
    ensures var shares := Shares(total, bips);
            && Sum(bips[..i]) < BIPS
            && shares[i] == (total - Sum(shares[..i])) * bips[i] / (BIPS - Sum(bips[..i]))
  {
    DivisorsPositive(bips, i);
    DivisorIsRest(bips, i);
    SharesAndLeft(total, bips, i);
  }

  /** Asking for every receiver in turn, under distinct names, reads off exactly the shares. */
  lemma EachReceiverGetsItsShare(receivers: seq<string>, bips: seq<nat>, total: nat, i: nat)
    requires |bips| == |receivers| && Distinct(receivers) && Configured(bips) && i < |receivers|
    ensures AuthorizedShare(receivers, bips, total, receivers[i]) == Share(Shares(total, bips)[i])
  {
    DivisorsPositive(bips, i);
    assert FirstIndex(receivers, receivers[i]) == i;
  }

  /** The repository's configuration: positive BIPS adding up to 10000 share out the whole total. */
  lemma WholeInflationIsShared(bips: seq<nat>, total: nat)
    requires forall i :: 0 <= i < |bips| ==> bips[i] > 0
    requires Sum(bips) == BIPS
    ensures Configured(bips) && Sum(Shares(total, bips)) == total
  {
    DivisorIsRest(bips, |bips|);
    assert bips[..|bips|] == bips;
    PositiveBipsConfigured(bips);
    SplitIsExact(total, bips);
  }
}
