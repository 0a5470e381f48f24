/** The Songbird airdrop from snapshot to signed transactions: one hex-valued transfer per account. */
module SongbirdAirdrop {
  import opened Numerals
  import opened Sums
  import opened Snapshot
  import opened SongbirdValidation
  import opened Ledger
  import opened Conversion
  import opened TransactionFees

  // --- Conversion -------------------------------------------------------------------------

  method ConvertBalance(lineItem: LineItem, factor: real, p: Percentages) returns (accBalance: nat)
    requires factor >= 0.0 && NonNegative(p) && IsNumeral(lineItem.xrpBalance, 10)
    ensures Credit(lineItem.flareAddress, accBalance) == SongbirdCredit(lineItem, factor, p)
  {
    var exact := Parse(lineItem.xrpBalance, 10) as real;
    ProductNonNegative(exact, factor);
    exact := exact * factor;
    exact := exact * WEI_PER_DROP;
    if lineItem.xrpAddress == RIPPLE_WORKS {
      exact := if exact <= MAX_FLARE_BALANCE as real then exact else MAX_FLARE_BALANCE as real;
    }
    ProductNonNegative(exact, p.contingent);
    exact := exact * p.contingent;
    ProductNonNegative(exact, p.initialAirdrop);
    exact := exact * p.initialAirdrop;
    accBalance := exact.Floor;
  }

  lemma CreditsStep(lines: seq<LineItem>, flags: seq<bool>, i: nat, factor: real, p: Percentages)
    requires |flags| == |lines| && i < |lines| && factor >= 0.0 && NonNegative(p)
    ensures SongbirdCredits(ValidLines(lines[..i + 1], flags[..i + 1]), factor, p)
         == SongbirdCredits(ValidLines(lines[..i], flags[..i]), factor, p)
            + if flags[i] then [SongbirdCredit(lines[i], factor, p)] else []
  {
    assert lines[..i + 1][..i] == lines[..i] && flags[..i + 1][..i] == flags[..i];
  }

  method CreateFlareAirdropGenesisData(parsedFile: seq<LineItem>, validAccounts: seq<bool>, conversionFactor: real,
                                       p: Percentages) returns (res: AirdropGenesisRes)
    requires |validAccounts| == |parsedFile| && NumericWhereValid(parsedFile, validAccounts)
    requires conversionFactor >= 0.0 && NonNegative(p)
    ensures res == GenesisData(SongbirdCredits(ValidLines(parsedFile, validAccounts), conversionFactor, p), 16)
  {
    var processedAccountsLen: nat, processedWei: nat := 0, 0;
    var seenFlareAddresses: seq<string>, flrAddDetail: map<string, Detail> := [], map[];
    ghost var cs: seq<Credit> := [];
    for lineIndex: nat := 0 to |parsedFile|
      invariant cs == SongbirdCredits(ValidLines(parsedFile[..lineIndex], validAccounts[..lineIndex]),
                                      conversionFactor, p)
      invariant Records(cs, seenFlareAddresses, flrAddDetail)
      invariant processedAccountsLen == |cs| && processedWei == TotalOf(cs)
    {
      CreditsStep(parsedFile, validAccounts, lineIndex, conversionFactor, p);
      if validAccounts[lineIndex] {
        processedAccountsLen := processedAccountsLen + 1;
        var accBalance := ConvertBalance(parsedFile[lineIndex], conversionFactor, p);
        processedWei := processedWei + accBalance;
        var c := Credit(parsedFile[lineIndex].flareAddress, accBalance);
        RecordKeepsRecords(cs, seenFlareAddresses, flrAddDetail, c);
        TotalStep(cs, c);
        seenFlareAddresses, flrAddDetail := AddCredit(seenFlareAddresses, flrAddDetail, c);
        cs := cs + [c];
      }
    }
    assert parsedFile[..|parsedFile|] == parsedFile && validAccounts[..|parsedFile|] == validAccounts;
    var processedAccounts, accountsDistribution := ListAccounts(seenFlareAddresses, flrAddDetail, 16, cs);
    res := AirdropGenesisRes(processedAccounts, processedAccountsLen, processedWei, accountsDistribution);
  }

  // --- Unsigned transactions --------------------------------------------------------------

  datatype Transfer = Transfer(
    from: string, to: string, gas: string, gasPrice: string, value: string, nonce: nat, chainId: int)

  function TransferOf(acc: ProcessedAccount, sender: string, fees: Fees, nonce: nat): Transfer
  {
    Transfer(sender, acc.nativeAddress, fees.gas, fees.gasPrice, "0x" + acc.nativeBalance, nonce, fees.chainId)
  }

  function Transfers(accounts: seq<ProcessedAccount>, sender: string, fees: Fees, nonce: nat): seq<Transfer>
  {
    seq(|accounts|, i requires 0 <= i < |accounts| => TransferOf(accounts[i], sender, fees, nonce + i))
  }

  method CreateAirdropUnsignedTransactions(processedAccounts: seq<ProcessedAccount>, senderAddress: string, fees: Fees,
                                           initialNonceOffset: nat)
      returns (transactions: seq<Transfer>, totalGasPrice: string)
    requires NumericFees(fees)
    ensures transactions == Transfers(processedAccounts, senderAddress, fees, initialNonceOffset)
    ensures forall tx :: tx in transactions ==>
              tx.gas == fees.gas && tx.gasPrice == fees.gasPrice && tx.chainId == fees.chainId
    ensures IsNumeral(totalGasPrice, 10)
    ensures Parse(totalGasPrice, 10) == |transactions| * GasPerTransaction(fees)
  {
    transactions := [];
    var nonce := initialNonceOffset;
    for i := 0 to |processedAccounts|
      invariant nonce == initialNonceOffset + i
      invariant transactions == Transfers(processedAccounts, senderAddress, fees, initialNonceOffset)[..i]
    {
      var acc := processedAccounts[i];
      transactions := transactions + [Transfer(senderAddress, acc.nativeAddress, fees.gas, fees.gasPrice,
                                               "0x" + acc.nativeBalance, nonce, fees.chainId)];
      nonce := nonce + 1;
    }
    totalGasPrice := TotalGas(|transactions|, fees);
  }

  // --- Signing ----------------------------------------------------------------------------

  predicate HexValue(s: string)
  {
    |s| > 2 && s[..2] == "0x" && IsNumeral(s[2..], 16)
  }

  /** `new BigNumber("0x...")`. */
  function ReadValue(s: string): nat
    requires HexValue(s)
  {
    Parse(s[2..], 16)
  }

  predicate Signable(txs: seq<Transfer>)
  {
    forall i :: 0 <= i < |txs| ==>
      HexValue(txs[i].value) && IsNumeral(txs[i].gas, 10) && IsNumeral(txs[i].gasPrice, 10)
  }

  function Values(txs: seq<Transfer>): seq<int>
    requires Signable(txs)
  {
    seq(|txs|, i requires 0 <= i < |txs| => ReadValue(txs[i].value))
  }

  function GasCosts(txs: seq<Transfer>): seq<int>
    requires Signable(txs)
  {
    seq(|txs|, i requires 0 <= i < |txs| => Parse(txs[i].gas, 10) * Parse(txs[i].gasPrice, 10))
  }

  lemma TotalsStep(txs: seq<Transfer>, i: nat)
    requires Signable(txs) && i < |txs|
    ensures Sum(Values(txs)[..i + 1]) == Sum(Values(txs)[..i]) + ReadValue(txs[i].value)
    ensures Sum(GasCosts(txs)[..i + 1])
         == Sum(GasCosts(txs)[..i]) + Parse(txs[i].gas, 10) * Parse(txs[i].gasPrice, 10)
  {
    assert Values(txs)[..i + 1] == Values(txs)[..i] + [Values(txs)[i]];
    SumAppend(Values(txs)[..i], Values(txs)[i]);
    assert GasCosts(txs)[..i + 1] == GasCosts(txs)[..i] + [GasCosts(txs)[i]];
    SumAppend(GasCosts(txs)[..i], GasCosts(txs)[i]);
  }

  /** `sign` stands for the wallet's signature function. */
  method SignAirdropTransactions(txs: seq<Transfer>, sign: Transfer -> string)
      returns (signedTransactions: seq<string>, totalBalance: int, totalGas: int)
    requires Signable(txs)
    ensures |signedTransactions| == |txs| && forall i :: 0 <= i < |txs| ==> signedTransactions[i] == sign(txs[i])
    ensures totalBalance == Sum(Values(txs))
    ensures totalGas == Sum(GasCosts(txs))
  {
    signedTransactions, totalBalance, totalGas := [], 0, 0;
    for i := 0 to |txs|
      invariant |signedTransactions| == i && forall j :: 0 <= j < i ==> signedTransactions[j] == sign(txs[j])
      invariant totalBalance == Sum(Values(txs)[..i])
      invariant totalGas == Sum(GasCosts(txs)[..i])
    {
      var tx := txs[i];
      var signedTx := sign(tx);
      TotalsStep(txs, i);
      totalBalance := totalBalance + ReadValue(tx.value);
      var tempGas := Parse(tx.gas, 10);
      totalGas := totalGas + tempGas * Parse(tx.gasPrice, 10);
      signedTransactions := signedTransactions + [signedTx];
    }
    assert Values(txs)[..|txs|] == Values(txs) && GasCosts(txs)[..|txs|] == GasCosts(txs);
  }

  // --- Conservation -----------------------------------------------------------------------

  /** What a snapshot owes an address: its first-seen valid lines' conversions, one by one. */
  function OwedTo(lines: seq<LineItem>, checks: Checks, factor: real, p: Percentages, a: string): nat
    requires factor >= 0.0 && NonNegative(p)
  {
    if lines == [] then 0
    else
      var k := |lines| - 1;
      OwedTo(lines[..k], checks, factor, p, a)
      + if FieldErrors(lines[k], checks) == 0 && lines[k].flareAddress == a
           && (forall j :: 0 <= j < k ==> lines[j].xrpAddress != lines[k].xrpAddress)
        then SongbirdWei(Parse(lines[k].xrpBalance, 10), lines[k].xrpAddress, factor, p) else 0
  }

  function SnapshotCredits(lines: seq<LineItem>, checks: Checks, factor: real, p: Percentages): seq<Credit>
    requires factor >= 0.0 && NonNegative(p)
  {
    SongbirdCredits(ValidLines(lines, Flags(lines, checks)), factor, p)
  }

  lemma SnapshotCreditsStep(lines: seq<LineItem>, checks: Checks, factor: real, p: Percentages)
    requires factor >= 0.0 && NonNegative(p) && lines != []
    ensures var k := |lines| - 1;
            SnapshotCredits(lines, checks, factor, p)
            == SnapshotCredits(lines[..k], checks, factor, p)
               + if Flags(lines, checks)[k] then [SongbirdCredit(lines[k], factor, p)] else []
  {
    var k := |lines| - 1;
    assert lines[..k + 1] == lines && Flags(lines, checks)[..k + 1] == Flags(lines, checks);
    assert lines == lines[..k] + [lines[k]];
    FlagsAppend(lines[..k], lines[k], checks);
    CreditsStep(lines, Flags(lines, checks), k, factor, p);
  }

  lemma {:induction false} CreditsAreOwed(lines: seq<LineItem>, checks: Checks, factor: real, p: Percentages, a: string)
    requires factor >= 0.0 && NonNegative(p)
    ensures BalanceOf(SnapshotCredits(lines, checks, factor, p), a) == OwedTo(lines, checks, factor, p, a)
  {
    if lines != [] {
      var k := |lines| - 1;
      CreditsAreOwed(lines[..k], checks, factor, p, a);
      SnapshotCreditsStep(lines, checks, factor, p);
      ValidLinesAreFirst(lines, checks, k);
      var front, c := SnapshotCredits(lines[..k], checks, factor, p), SongbirdCredit(lines[k], factor, p);
      assert (front + [c])[..|front|] == front;
      if !Flags(lines, checks)[k] {
        assert SnapshotCredits(lines, checks, factor, p) == front;
      }
    }
  }

  /** Prefixing "0x" to the hexadecimal balances gives values that read back to the balances. */
  lemma TransfersCarryBalances(accounts: seq<ProcessedAccount>, sender: string, fees: Fees, nonce: nat)
    requires NumeralBalances(accounts, 16) && NumericFees(fees)
    ensures Signable(Transfers(accounts, sender, fees, nonce))
    ensures Values(Transfers(accounts, sender, fees, nonce)) == ReadBalances(accounts, 16)
  {
  }

  lemma ListedIsChecked(lines: seq<LineItem>, checks: Checks, factor: real, p: Percentages, a: string)
    requires factor >= 0.0 && NonNegative(p) && a in FirstSeen(SnapshotCredits(lines, checks, factor, p))
    ensures checks.isFlareAddress(a)
  {
    var cs, valid := SnapshotCredits(lines, checks, factor, p), ValidLines(lines, Flags(lines, checks));
    CreditedIffSeen(cs, a);
    var k :| 0 <= k < |cs| && CreditedAddresses(cs)[k] == a;
    assert valid[k].flareAddress == a;
    var i := ValidLineIsFlagged(lines, Flags(lines, checks), k);
    ValidLinesAreFirst(lines, checks, i);
  }

  /** Transfer i pays the i-th address, a checked one, what the snapshot owes it, with the i-th nonce. */
  ghost predicate PaysOwed(tx: Transfer, lines: seq<LineItem>, checks: Checks, factor: real, p: Percentages,
                           sender: string, fees: Fees, nonce: nat, i: nat)
    requires factor >= 0.0 && NonNegative(p) && i < |FirstSeen(SnapshotCredits(lines, checks, factor, p))|
  {
    var a := FirstSeen(SnapshotCredits(lines, checks, factor, p))[i];
    && tx.from == sender && tx.to == a && checks.isFlareAddress(a) && tx.nonce == nonce + i
    && tx.gas == fees.gas && tx.gasPrice == fees.gasPrice && tx.chainId == fees.chainId
    && HexValue(tx.value) && ReadValue(tx.value) == OwedTo(lines, checks, factor, p, a)
  }

  lemma TransferPaysOwed(lines: seq<LineItem>, checks: Checks, factor: real, p: Percentages,
                         sender: string, fees: Fees, nonce: nat, i: nat)
    requires factor >= 0.0 && NonNegative(p) && NumericFees(fees)
    requires i < |FirstSeen(SnapshotCredits(lines, checks, factor, p))|
    ensures PaysOwed(Transfers(Accounts(SnapshotCredits(lines, checks, factor, p), 16), sender, fees, nonce)[i],
                     lines, checks, factor, p, sender, fees, nonce, i)
  {
    var cs := SnapshotCredits(lines, checks, factor, p);
    TransfersTotal(cs, sender, fees, nonce);
    CreditsAreOwed(lines, checks, factor, p, FirstSeen(cs)[i]);
    ListedIsChecked(lines, checks, factor, p, FirstSeen(cs)[i]);
    assert Values(Transfers(Accounts(cs, 16), sender, fees, nonce))[i] == Balances(FirstSeen(cs), cs)[i];
  }

  lemma TransfersTotal(cs: seq<Credit>, sender: string, fees: Fees, nonce: nat)
    requires NumericFees(fees)
    ensures var txs := Transfers(Accounts(cs, 16), sender, fees, nonce);
            Signable(txs) && Values(txs) == Balances(FirstSeen(cs), cs) && Sum(Values(txs)) == TotalOf(cs)
  {
    AccountsCarryTheCredits(cs, 16);
    TransfersCarryBalances(Accounts(cs, 16), sender, fees, nonce);
  }

  /**
   The transfers pay every address once, in first-seen order, exactly what the snapshot owes it;
   their hexadecimal values add up to the processed wei and their nonces are consecutive.
   */
  lemma SongbirdConservation(lines: seq<LineItem>, checks: Checks, factor: real, p: Percentages,
                             sender: string, fees: Fees, nonce: nat)
    requires factor >= 0.0 && NonNegative(p) && NumericFees(fees)
    ensures var cs := SnapshotCredits(lines, checks, factor, p);
            var txs, order := Transfers(Accounts(cs, 16), sender, fees, nonce), FirstSeen(cs);
            && |txs| == |order| && Distinct(order) && Signable(txs)
            && (forall i :: 0 <= i < |order| ==> PaysOwed(txs[i], lines, checks, factor, p, sender, fees, nonce, i))
            && Sum(Values(txs)) == GenesisData(cs, 16).processedWei
  {
    var cs := SnapshotCredits(lines, checks, factor, p);
    TransfersTotal(cs, sender, fees, nonce);
    FirstSeenDistinct(cs);
    forall i | 0 <= i < |FirstSeen(cs)| {
      TransferPaysOwed(lines, checks, factor, p, sender, fees, nonce, i);
    }
  }

  lemma OneMore(n: nat, g: nat)
    requires n > 0
    ensures n * g == (n - 1) * g + g
  {
  }

  lemma {:induction false} EqualCosts(n: nat, g: nat, costs: seq<int>)
    requires |costs| == n && forall i :: 0 <= i < n ==> costs[i] == g
    ensures Sum(costs) == n * g
  {
    if n > 0 {
      EqualCosts(n - 1, g, costs[..n - 1]);
      OneMore(n, g);
    }
  }

  datatype CreateResult =
    | Unhealthy
    | Created(data: AirdropGenesisRes, transactions: seq<Transfer>, totalGasPrice: nat, expected: real, totalCost: nat)

  method ExpectedFlrToDistribute(totalXRPBalance: nat, conversionFactor: real, p: Percentages) returns (expected: real)
    ensures expected == SongbirdExpected(totalXRPBalance, conversionFactor, p)
  {
    expected := totalXRPBalance as real;
    expected := expected * conversionFactor;
    expected := expected * p.contingent;
    expected := expected * p.initialAirdrop;
    expected := expected * WEI_PER_DROP;
  }

  /** The creation script; its health check can never fail, both sides count the valid lines. */
  method CreateAirdropTransactions(lines: seq<LineItem>, checks: Checks, conversionFactor: real, p: Percentages,
                                   sender: string, fees: Fees, nonceOffset: nat) returns (r: CreateResult)
    requires conversionFactor >= 0.0 && NonNegative(p) && NumericFees(fees)
    ensures r.Created?
    ensures r.data == GenesisData(SnapshotCredits(lines, checks, conversionFactor, p), 16)
    ensures r.transactions == Transfers(r.data.processedAccounts, sender, fees, nonceOffset)
    ensures forall tx :: tx in r.transactions ==>
              tx.gas == fees.gas && tx.gasPrice == fees.gasPrice && tx.chainId == fees.chainId
    ensures r.expected == SongbirdExpected(SumWhere(XrpColumn(lines), Flags(lines, checks), true), conversionFactor, p)
    ensures r.totalGasPrice == |r.transactions| * GasPerTransaction(fees)
    ensures r.totalCost == r.data.processedWei + r.totalGasPrice
  {
    var validated, detail := ValidateFile(lines, checks);
    var expected := ExpectedFlrToDistribute(validated.totalXRPBalance, conversionFactor, p);
    var data := CreateFlareAirdropGenesisData(lines, validated.validAccounts, conversionFactor, p);
    var accountsMatch := data.processedAccountsLen == validated.validAccountsLen;
    ValidLinesTotals(lines, Flags(lines, checks));
    if !accountsMatch {
      return Unhealthy;
    }
    var transactions, totalGasPrice :=
      CreateAirdropUnsignedTransactions(data.processedAccounts, sender, fees, nonceOffset);
    var totalGas := Parse(totalGasPrice, 10);
    r := Created(data, transactions, totalGas, expected, data.processedWei + totalGas);
  }

  /** The signer's totals over any account list are the account balances and the announced gas. */
  lemma SignerTotals(accounts: seq<ProcessedAccount>, sender: string, fees: Fees, nonce: nat)
    requires NumeralBalances(accounts, 16) && NumericFees(fees)
    ensures var txs := Transfers(accounts, sender, fees, nonce);
            && Signable(txs)
            && Sum(Values(txs)) == Sum(ReadBalances(accounts, 16))
            && Sum(GasCosts(txs)) == |txs| * GasPerTransaction(fees)
  {
    TransfersCarryBalances(accounts, sender, fees, nonce);
    EqualCosts(|accounts|, GasPerTransaction(fees), GasCosts(Transfers(accounts, sender, fees, nonce)));
  }

  /**
   Creation followed by signing: the signer's balance total is the processed wei, and with its gas
   total it is the total cost the creation script announced.
   */
  method CreateAndSign(lines: seq<LineItem>, checks: Checks, conversionFactor: real, p: Percentages,
                       sender: string, fees: Fees, nonceOffset: nat, sign: Transfer -> string)
      returns (created: CreateResult, signed: seq<string>, totalBalance: int, totalGas: int)
    requires conversionFactor >= 0.0 && NonNegative(p) && NumericFees(fees)
    ensures created.Created? && |signed| == |created.transactions|
    ensures totalBalance == created.data.processedWei
    ensures totalGas == created.totalGasPrice
    ensures totalBalance + totalGas == created.totalCost
  {
    created := CreateAirdropTransactions(lines, checks, conversionFactor, p, sender, fees, nonceOffset);
    AccountsCarryTheCredits(SnapshotCredits(lines, checks, conversionFactor, p), 16);
    SignerTotals(created.data.processedAccounts, sender, fees, nonceOffset);
    signed, totalBalance, totalGas := SignAirdropTransactions(created.transactions, sign);
  }

  /** No account is listed under two addresses if and only if no two valid lines spell one account differently. */
  lemma AccountsListedOnce(lines: seq<LineItem>, checks: Checks, factor: real, p: Percentages)
    requires factor >= 0.0 && NonNegative(p)
    ensures DistinctAccounts(FirstSeen(SnapshotCredits(lines, checks, factor, p)), AccountOf)
            <==> SpelledAlike(FlareAddresses(ValidLines(lines, Flags(lines, checks))), AccountOf)
  {
    var cs := SnapshotCredits(lines, checks, factor, p);
    AccountsListedOnceIff(cs, AccountOf);
    assert CreditedAddresses(cs) == FlareAddresses(ValidLines(lines, Flags(lines, checks)));
  }

  /** The histogram counts the listed addresses, and weighted it counts the validator's valid lines. */
  lemma SongbirdHistogram(lines: seq<LineItem>, checks: Checks, factor: real, p: Percentages)
    requires factor >= 0.0 && NonNegative(p)
    ensures var data := GenesisData(SnapshotCredits(lines, checks, factor, p), 16);
            var validated := Report(lines, checks, Flags(lines, checks));
            && Sum(data.accountsDistribution) == |data.processedAccounts|
            && Weighted(data.accountsDistribution) == data.processedAccountsLen
            && data.processedAccountsLen == validated.validAccountsLen
  {
    DistributionCounts(SnapshotCredits(lines, checks, factor, p));
    ValidLinesTotals(lines, Flags(lines, checks));
  }
}
