/** The snapshot lines and what both validators compute about them. */
module Snapshot {
  import opened Numerals
  import opened Sums

  const MAX_FLARE_BALANCE: nat := 1_000_000_000_000_000_000_000_000_000

  /** The one XRP address whose airdrop is capped at `MAX_FLARE_BALANCE`. */
  const RIPPLE_WORKS: string := "rKveEyR1SrkWbJX214xcfH43ZsoGMb3PEv"

  datatype LineItem = LineItem(xrpAddress: string, flareAddress: string, xrpBalance: string, flareBalance: string)

  /** The address checks of the ripple and web3 libraries. */
  datatype Checks = Checks(isXrpAddress: string -> bool, isFlareAddress: string -> bool)

  datatype ValidateRes = ValidateRes(
    validAccounts: seq<bool>,
    validAccountsLen: nat,
    invalidAccountsLen: nat,
    totalXRPBalance: nat,
    invalidXRPBalance: nat,
    totalFLRBalance: nat,
    invalidFLRBalance: nat,
    lineErrors: nat)

  // --- One line ---------------------------------------------------------------------------

  function FieldErrors(item: LineItem, checks: Checks): nat
  {
    (if checks.isXrpAddress(item.xrpAddress) then 0 else 1) +
    (if checks.isFlareAddress(item.flareAddress) then 0 else 1) +
    (if IsNumeral(item.xrpBalance, 10) then 0 else 1) +
    (if IsNumeral(item.flareBalance, 10) then 0 else 1)
  }

  /** A text of one or more decimal digits. */
  predicate DigitText(s: string)
  {
    s != "" && forall i :: 0 <= i < |s| ==> '0' <= s[i] <= '9'
  }

  lemma NumeralIsDigitText(s: string)
    ensures IsNumeral(s, 10) <==> DigitText(s)
  {
    if DigitText(s) {
      forall i | 0 <= i < |s| ensures IsDigit(s[i], 10) {
        assert '0' <= s[i] <= '9';
      }
    } else if s != "" {
      var i :| 0 <= i < |s| && !('0' <= s[i] <= '9');
      assert !IsDigit(s[i], 10);
    }
  }

  /** The verdicts of the four checks of a line. */
  function Verdicts(item: LineItem, checks: Checks): multiset<bool>
  {
    multiset{checks.isXrpAddress(item.xrpAddress), checks.isFlareAddress(item.flareAddress),
             DigitText(item.xrpBalance), DigitText(item.flareBalance)}
  }

  /** A line has as many errors as checks that fail: none exactly if all four pass. */
  lemma ErrorsAreFailedChecks(item: LineItem, checks: Checks)
    ensures FieldErrors(item, checks) == Verdicts(item, checks)[false]
    ensures FieldErrors(item, checks) == 0 <==>
            && checks.isXrpAddress(item.xrpAddress) && checks.isFlareAddress(item.flareAddress)
            && DigitText(item.xrpBalance) && DigitText(item.flareBalance)
  {
    NumeralIsDigitText(item.xrpBalance);
    NumeralIsDigitText(item.flareBalance);
  }

  /** The value of a balance text; texts that are not numerals carry no balance. */
  function Amount(s: string): nat
  {
    if IsNumeral(s, 10) then Parse(s, 10) else 0
  }

  // --- All lines --------------------------------------------------------------------------

  function Errors(lines: seq<LineItem>, checks: Checks): seq<int>
  {
    seq(|lines|, i requires 0 <= i < |lines| => FieldErrors(lines[i], checks))
  }

  function XrpColumn(lines: seq<LineItem>): seq<nat>
  {
    seq(|lines|, i requires 0 <= i < |lines| => Amount(lines[i].xrpBalance))
  }

  function FlrColumn(lines: seq<LineItem>): seq<nat>
  {
    seq(|lines|, i requires 0 <= i < |lines| => Amount(lines[i].flareBalance))
  }

  function XrpAddresses(lines: seq<LineItem>): set<string>
  {
    set i | 0 <= i < |lines| :: lines[i].xrpAddress
  }

  function Count(flags: seq<bool>, want: bool): nat
  {
    if flags == [] then 0
    else Count(flags[..|flags| - 1], want) + if flags[|flags| - 1] == want then 1 else 0
  }

  function SumWhere(values: seq<nat>, flags: seq<bool>, want: bool): nat
    requires |values| == |flags|
  {
    if flags == [] then 0
    else
      var k := |flags| - 1;
      SumWhere(values[..k], flags[..k], want) + if flags[k] == want then values[k] else 0
  }

  /** Valid and invalid totals cover every line exactly once. */
  lemma {:induction false} TotalsPartition(values: seq<nat>, flags: seq<bool>)
    requires |values| == |flags|
    ensures SumWhere(values, flags, true) + SumWhere(values, flags, false) == Sum(values)
    ensures Count(flags, true) + Count(flags, false) == |flags|
  {
    if flags != [] {
      TotalsPartition(values[..|flags| - 1], flags[..|flags| - 1]);
    }
  }

  /** The report of a validator that flagged the lines as given. */
  function Report(lines: seq<LineItem>, checks: Checks, flags: seq<bool>): ValidateRes
    requires |flags| == |lines|
  {
    ValidateRes(
      flags, Count(flags, true), Count(flags, false),
      SumWhere(XrpColumn(lines), flags, true), SumWhere(XrpColumn(lines), flags, false),
      SumWhere(FlrColumn(lines), flags, true), SumWhere(FlrColumn(lines), flags, false),
      ErrorCount(lines, checks))
  }

  /** The report covers every line once: counts, XRP balances and Flare balances, valid and invalid. */
  lemma ReportCoversLines(lines: seq<LineItem>, checks: Checks, flags: seq<bool>)
    requires |flags| == |lines|
    ensures var r := Report(lines, checks, flags);
            && r.validAccounts == flags
            && r.validAccountsLen + r.invalidAccountsLen == |lines|
            && r.totalXRPBalance + r.invalidXRPBalance == Sum(XrpColumn(lines))
            && r.totalFLRBalance + r.invalidFLRBalance == Sum(FlrColumn(lines))
  {
    TotalsPartition(XrpColumn(lines), flags);
    TotalsPartition(FlrColumn(lines), flags);
  }

  /** Every failed field check is an error, and so is every repetition of an XRP address. */
  function ErrorCount(lines: seq<LineItem>, checks: Checks): (n: nat)
  {
    RepetitionsNonNegative(lines);
    ErrorsNonNegative(lines, checks);
    Sum(Errors(lines, checks)) + |lines| - |XrpAddresses(lines)|
  }

  lemma {:induction false} RepetitionsNonNegative(lines: seq<LineItem>)
    ensures |XrpAddresses(lines)| <= |lines|
  {
    if lines != [] {
      var k := |lines| - 1;
      RepetitionsNonNegative(lines[..k]);
      assert lines[..k] + [lines[k]] == lines;
      AddressesOfMore(lines[..k], lines[k]);
    }
  }

  lemma AddressesOfMore(lines: seq<LineItem>, item: LineItem)
    ensures XrpAddresses(lines + [item]) == XrpAddresses(lines) + {item.xrpAddress}
  {
    var more := lines + [item];
    forall a ensures a in XrpAddresses(more) <==> a in XrpAddresses(lines) + {item.xrpAddress} {
      if a in XrpAddresses(lines) {
        var i :| 0 <= i < |lines| && lines[i].xrpAddress == a;
        assert more[i].xrpAddress == a;
      }
      if a == item.xrpAddress {
        assert more[|lines|].xrpAddress == a;
      }
    }
  }

  lemma {:induction false} ErrorsNonNegative(lines: seq<LineItem>, checks: Checks)
    ensures Sum(Errors(lines, checks)) >= 0
  {
    if lines != [] {
      ErrorsNonNegative(lines[..|lines| - 1], checks);
      assert Errors(lines, checks)[..|lines| - 1] == Errors(lines[..|lines| - 1], checks);
    }
  }

  /** The report after one more line. */
  function Extend(r: ValidateRes, item: LineItem, errors: nat, flag: bool): ValidateRes
  {
    var x, f := Amount(item.xrpBalance), Amount(item.flareBalance);
    if flag then
      ValidateRes(r.validAccounts + [true], r.validAccountsLen + 1, r.invalidAccountsLen,
                  r.totalXRPBalance + x, r.invalidXRPBalance,
                  r.totalFLRBalance + f, r.invalidFLRBalance, r.lineErrors + errors)
    else
      ValidateRes(r.validAccounts + [false], r.validAccountsLen, r.invalidAccountsLen + 1,
                  r.totalXRPBalance, r.invalidXRPBalance + x,
                  r.totalFLRBalance, r.invalidFLRBalance + f, r.lineErrors + errors)
  }

  function LineErrors(lines: seq<LineItem>, item: LineItem, checks: Checks): nat
  {
    FieldErrors(item, checks) + if item.xrpAddress in XrpAddresses(lines) then 1 else 0
  }

  lemma ReportStep(lines: seq<LineItem>, checks: Checks, flags: seq<bool>, item: LineItem, flag: bool)
    requires |flags| == |lines|
    ensures Report(lines + [item], checks, flags + [flag])
         == Extend(Report(lines, checks, flags), item, LineErrors(lines, item, checks), flag)
  {
    assert (flags + [flag])[..|flags|] == flags;
    assert XrpColumn(lines + [item])[..|flags|] == XrpColumn(lines);
    assert FlrColumn(lines + [item])[..|flags|] == FlrColumn(lines);
    ErrorCountStep(lines, checks, item);
  }

  lemma ErrorCountStep(lines: seq<LineItem>, checks: Checks, item: LineItem)
    ensures ErrorCount(lines + [item], checks) == ErrorCount(lines, checks) + LineErrors(lines, item, checks)
  {
    assert Errors(lines + [item], checks) == Errors(lines, checks) + [FieldErrors(item, checks)];
    SumAppend(Errors(lines, checks), FieldErrors(item, checks));
    AddressesOfMore(lines, item);
    if item.xrpAddress in XrpAddresses(lines) {
      assert XrpAddresses(lines) + {item.xrpAddress} == XrpAddresses(lines);
    }
  }

  /** The four field checks of a validation step. */
  method CheckFields(item: LineItem, checks: Checks)
      returns (isValid: bool, isValidXRP: bool, isValidFLR: bool, lineErrors: nat)
    ensures lineErrors == FieldErrors(item, checks) && (isValid <==> lineErrors == 0)
    ensures isValidXRP == IsNumeral(item.xrpBalance, 10) && isValidFLR == IsNumeral(item.flareBalance, 10)
    ensures isValid ==> isValidXRP && isValidFLR
  {
    isValid, isValidXRP, isValidFLR, lineErrors := true, true, true, 0;
    if !checks.isXrpAddress(item.xrpAddress) {
      isValid := false;
      lineErrors := lineErrors + 1;
    }
    if !checks.isFlareAddress(item.flareAddress) {
      isValid := false;
      lineErrors := lineErrors + 1;
    }
    if !IsNumeral(item.xrpBalance, 10) {
      isValid := false;
      lineErrors := lineErrors + 1;
      isValidXRP := false;
    }
    if !IsNumeral(item.flareBalance, 10) {
      isValid := false;
      lineErrors := lineErrors + 1;
      isValidFLR := false;
    }
  }

  /** The tail of a validation step: the verdict is stored and the balances are totalled. */
  method Tally(r: ValidateRes, item: LineItem, lineErrors: nat, isValid: bool, isValidXRP: bool, isValidFLR: bool)
      returns (res: ValidateRes)
    requires isValidXRP == IsNumeral(item.xrpBalance, 10) && isValidFLR == IsNumeral(item.flareBalance, 10)
    requires isValid ==> isValidXRP && isValidFLR
    requires lineErrors >= r.lineErrors
    ensures res == Extend(r, item, lineErrors - r.lineErrors, isValid)
  {
    res := r.(validAccounts := r.validAccounts + [isValid], lineErrors := lineErrors);
    if isValid {
      res := res.(validAccountsLen := res.validAccountsLen + 1,
                  totalXRPBalance := res.totalXRPBalance + Parse(item.xrpBalance, 10),
                  totalFLRBalance := res.totalFLRBalance + Parse(item.flareBalance, 10));
    } else {
      res := res.(invalidAccountsLen := res.invalidAccountsLen + 1);
      if isValidXRP {
        res := res.(invalidXRPBalance := res.invalidXRPBalance + Parse(item.xrpBalance, 10));
      }
      if isValidFLR {
        res := res.(invalidFLRBalance := res.invalidFLRBalance + Parse(item.flareBalance, 10));
      }
    }
  }

  // --- The duplicate index ----------------------------------------------------------------

  /** The line indices of an XRP address, in increasing order. */
  function IndicesOf(lines: seq<LineItem>, a: string): seq<nat>
  {
    if lines == [] then []
    else
      var k := |lines| - 1;
      IndicesOf(lines[..k], a) + if lines[k].xrpAddress == a then [k] else []
  }

  /** Index lists are strictly increasing and hold exactly the lines of their address. */
  lemma {:induction false} IndicesPartitionLines(lines: seq<LineItem>, a: string)
    ensures forall i, j :: 0 <= i < j < |IndicesOf(lines, a)| ==> IndicesOf(lines, a)[i] < IndicesOf(lines, a)[j]
    ensures forall k :: k in IndicesOf(lines, a) <==> 0 <= k < |lines| && lines[k].xrpAddress == a
  {
    if lines != [] {
      var n := |lines| - 1;
      var front := IndicesOf(lines[..n], a);
      IndicesPartitionLines(lines[..n], a);
      forall i | 0 <= i < |front| ensures front[i] < n { assert front[i] in front; }
    }
  }

  lemma {:induction false} NoIndicesBeforeFirst(lines: seq<LineItem>, a: string)
    requires a !in XrpAddresses(lines)
    ensures IndicesOf(lines, a) == []
  {
    if lines != [] {
      assert lines[|lines| - 1].xrpAddress in XrpAddresses(lines);
      assert XrpAddresses(lines[..|lines| - 1]) <= XrpAddresses(lines);
      NoIndicesBeforeFirst(lines[..|lines| - 1], a);
    }
  }

  /** `seenXRPAddressesDetail` after the given lines: every address with all its line indices. */
  ghost predicate IndexesLines(lines: seq<LineItem>, detail: map<string, seq<nat>>)
  {
    detail.Keys == XrpAddresses(lines) && forall a :: a in detail ==> detail[a] == IndicesOf(lines, a)
  }

  lemma IndexStep(lines: seq<LineItem>, detail: map<string, seq<nat>>, item: LineItem)
    requires IndexesLines(lines, detail)
    ensures var a := item.xrpAddress;
            IndexesLines(lines + [item],
              detail[a := (if a in XrpAddresses(lines) then detail[a] else []) + [|lines|]])
  {
    var a := item.xrpAddress;
    AddressesOfMore(lines, item);
    assert (lines + [item])[..|lines|] == lines;
    if a !in XrpAddresses(lines) {
      NoIndicesBeforeFirst(lines, a);
    }
  }
}
