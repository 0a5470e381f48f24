/** `createFlareAirdropGenesisData` of the Flare airdrop. */
module FlareConversion {
  import opened Numerals
  import opened Snapshot
  import opened Ledger
  import opened Conversion

  const INDEX_OFFSET: nat := 2

  /** Line numbers whose converted balance differs from the one the snapshot predicts. */
  function BalanceErrors(lines: seq<LineItem>, flags: seq<bool>, factor: real): seq<nat>
    requires |flags| == |lines| && factor >= 0.0
  {
    if lines == [] then []
    else
      var k := |lines| - 1;
      var front := BalanceErrors(lines[..k], flags[..k], factor);
      if flags[k] && FlareCredit(lines[k], factor).amount != Amount(lines[k].flareBalance)
      then front + [k + INDEX_OFFSET] else front
  }

  method ConvertBalance(lineItem: LineItem, conversionFactor: real) returns (accBalance: nat)
    requires conversionFactor >= 0.0 && IsNumeral(lineItem.xrpBalance, 10)
    ensures Credit(lineItem.flareAddress, accBalance) == FlareCredit(lineItem, conversionFactor)
  {
    var exact := Parse(lineItem.xrpBalance, 10) as real;
    ProductNonNegative(exact, conversionFactor);
    exact := exact * conversionFactor;
    exact := exact * WEI_PER_DROP;
    accBalance := exact.Floor;
    if lineItem.xrpAddress == RIPPLE_WORKS {
      accBalance := if accBalance <= MAX_FLARE_BALANCE then accBalance else MAX_FLARE_BALANCE;
    }
  }

  lemma CreditsStep(lines: seq<LineItem>, flags: seq<bool>, i: nat, factor: real)
    requires |flags| == |lines| && i < |lines| && factor >= 0.0
    ensures FlareCredits(ValidLines(lines[..i + 1], flags[..i + 1]), factor)
         == FlareCredits(ValidLines(lines[..i], flags[..i]), factor)
            + if flags[i] then [FlareCredit(lines[i], factor)] else []
    ensures BalanceErrors(lines[..i + 1], flags[..i + 1], factor)
         == BalanceErrors(lines[..i], flags[..i], factor)
            + if flags[i] && FlareCredit(lines[i], factor).amount != Amount(lines[i].flareBalance)
              then [i + INDEX_OFFSET] else []
  {
    assert lines[..i + 1][..i] == lines[..i] && flags[..i + 1][..i] == flags[..i];
  }

  method CreateFlareAirdropGenesisData(parsedFile: seq<LineItem>, validAccounts: seq<bool>, conversionFactor: real)
      returns (res: AirdropGenesisRes, balanceErrors: seq<nat>)
    requires |validAccounts| == |parsedFile| && NumericWhereValid(parsedFile, validAccounts)
    requires conversionFactor >= 0.0
    ensures res == GenesisData(FlareCredits(ValidLines(parsedFile, validAccounts), conversionFactor), 10)
    ensures balanceErrors == BalanceErrors(parsedFile, validAccounts, conversionFactor)
  {
    var processedAccountsLen: nat, processedWei: nat := 0, 0;
    var seenFlareAddresses: seq<string>, flrAddDetail: map<string, Detail> := [], map[];
    balanceErrors := [];
    ghost var cs: seq<Credit> := [];
    for lineIndex: nat := 0 to |parsedFile|
      invariant cs == FlareCredits(ValidLines(parsedFile[..lineIndex], validAccounts[..lineIndex]), conversionFactor)
      invariant Records(cs, seenFlareAddresses, flrAddDetail)
      invariant processedAccountsLen == |cs| && processedWei == TotalOf(cs)
      invariant balanceErrors == BalanceErrors(parsedFile[..lineIndex], validAccounts[..lineIndex], conversionFactor)
    {
      CreditsStep(parsedFile, validAccounts, lineIndex, conversionFactor);
      if validAccounts[lineIndex] {
        var lineItem := parsedFile[lineIndex];
        processedAccountsLen := processedAccountsLen + 1;
        var accBalance := ConvertBalance(lineItem, conversionFactor);
        if accBalance != Parse(lineItem.flareBalance, 10) {
          balanceErrors := balanceErrors + [lineIndex + INDEX_OFFSET];
        }
        processedWei := processedWei + accBalance;
        var c := Credit(lineItem.flareAddress, accBalance);
        RecordKeepsRecords(cs, seenFlareAddresses, flrAddDetail, c);
        TotalStep(cs, c);
        seenFlareAddresses, flrAddDetail := AddCredit(seenFlareAddresses, flrAddDetail, c);
        cs := cs + [c];
      }
    }
    assert parsedFile[..|parsedFile|] == parsedFile && validAccounts[..|parsedFile|] == validAccounts;
    var processedAccounts, accountsDistribution := ListAccounts(seenFlareAddresses, flrAddDetail, 10, cs);
    res := AirdropGenesisRes(processedAccounts, processedAccountsLen, processedWei, accountsDistribution);
  }

  /** Exactly the numbers of the valid lines with a wrong predicted balance are reported, in order. */
  lemma {:induction false} BalanceErrorsMeaning(lines: seq<LineItem>, flags: seq<bool>, factor: real)
    requires |flags| == |lines| && factor >= 0.0
    ensures forall n :: n in BalanceErrors(lines, flags, factor) <==>
              2 <= n < |lines| + 2 && flags[n - 2]
              && FlareCredit(lines[n - 2], factor).amount != Amount(lines[n - 2].flareBalance)
    ensures forall i, j :: 0 <= i < j < |BalanceErrors(lines, flags, factor)| ==>
              BalanceErrors(lines, flags, factor)[i] < BalanceErrors(lines, flags, factor)[j]
  {
    if lines != [] {
      var k := |lines| - 1;
      var front := BalanceErrors(lines[..k], flags[..k], factor);
      BalanceErrorsMeaning(lines[..k], flags[..k], factor);
      forall i | 0 <= i < |front| ensures front[i] < k + 2 { assert front[i] in front; }
    }
  }

  /** If no balance error was reported, the handed out total is the snapshot's predicted total. */
  lemma {:induction false} NoErrorsMeansPredictedTotal(lines: seq<LineItem>, flags: seq<bool>, factor: real)
    requires |flags| == |lines| && factor >= 0.0 && BalanceErrors(lines, flags, factor) == []
    ensures TotalOf(FlareCredits(ValidLines(lines, flags), factor)) == SumWhere(FlrColumn(lines), flags, true)
  {
    if lines != [] {
      var k := |lines| - 1;
      NoErrorsMeansPredictedTotal(lines[..k], flags[..k], factor);
      assert lines[..k + 1] == lines && flags[..k + 1] == flags;
      CreditsStep(lines, flags, k, factor);
      if flags[k] {
        TotalStep(FlareCredits(ValidLines(lines[..k], flags[..k]), factor), FlareCredit(lines[k], factor));
      } else {
        assert FlareCredits(ValidLines(lines, flags), factor)
            == FlareCredits(ValidLines(lines[..k], flags[..k]), factor);
      }
      assert FlrColumn(lines)[..k] == FlrColumn(lines[..k]);
    }
  }
}
