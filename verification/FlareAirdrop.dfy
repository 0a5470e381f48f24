/** The Flare airdrop from snapshot to transactions, and what is conserved along the whole way. */
module FlareAirdrop {
  import opened Numerals
  import opened Sums
  import opened Snapshot
  import opened FlareValidation
  import opened Ledger
  import opened Conversion
  import opened FlareConversion
  import opened FlareTransactions
  import opened TransactionFees

  const BATCH_SIZE: nat := 35

  /** What a snapshot owes an address: its valid lines' conversions, one by one. */
  function OwedTo(lines: seq<LineItem>, checks: Checks, factor: real, a: string): nat
    requires factor >= 0.0
  {
    if lines == [] then 0
    else
      var item := lines[|lines| - 1];
      OwedTo(lines[..|lines| - 1], checks, factor, a)
      + if FieldErrors(item, checks) == 0 && item.flareAddress == a
        then FlareWei(Parse(item.xrpBalance, 10), item.xrpAddress, factor) else 0
  }

  function SnapshotCredits(lines: seq<LineItem>, checks: Checks, factor: real): seq<Credit>
    requires factor >= 0.0
  {
    FlareCredits(ValidLines(lines, Flags(lines, checks)), factor)
  }

  lemma SnapshotCreditsStep(lines: seq<LineItem>, checks: Checks, factor: real)
    requires factor >= 0.0 && lines != []
    ensures var k := |lines| - 1;
            SnapshotCredits(lines, checks, factor)
            == SnapshotCredits(lines[..k], checks, factor)
               + if FieldErrors(lines[k], checks) == 0 then [FlareCredit(lines[k], factor)] else []
  {
    var k := |lines| - 1;
    assert lines[..k + 1] == lines && Flags(lines, checks)[..k + 1] == Flags(lines, checks);
    assert Flags(lines, checks)[..k] == Flags(lines[..k], checks);
    CreditsStep(lines, Flags(lines, checks), k, factor);
  }

  lemma OwedStep(lines: seq<LineItem>, checks: Checks, factor: real, a: string)
    requires factor >= 0.0 && lines != []
    ensures var k := |lines| - 1;
            OwedTo(lines, checks, factor, a)
            == OwedTo(lines[..k], checks, factor, a)
               + if FieldErrors(lines[k], checks) == 0 && lines[k].flareAddress == a
                 then FlareCredit(lines[k], factor).amount else 0
  {
  }

  lemma BalanceStep(cs: seq<Credit>, c: Credit, a: string)
    ensures BalanceOf(cs + [c], a) == BalanceOf(cs, a) + if c.address == a then c.amount else 0
  {
    assert (cs + [c])[..|cs|] == cs;
  }

  lemma {:induction false} CreditsAreOwed(lines: seq<LineItem>, checks: Checks, factor: real, a: string)
    requires factor >= 0.0
    ensures BalanceOf(SnapshotCredits(lines, checks, factor), a) == OwedTo(lines, checks, factor, a)
  {
    if lines != [] {
      var k := |lines| - 1;
      var front := SnapshotCredits(lines[..k], checks, factor);
      CreditsAreOwed(lines[..k], checks, factor, a);
      SnapshotCreditsStep(lines, checks, factor);
      OwedStep(lines, checks, factor, a);
      BalanceStep(front, FlareCredit(lines[k], factor), a);
      assert front + [] == front;
    }
  }

  // --- The creation script ----------------------------------------------------------------

  datatype CreateResult =
    | Unhealthy
    | Created(transactions: seq<ContractCall>, totalGasPrice: string, data: AirdropGenesisRes,
              expected: real, totalCost: nat, balancesMatch: bool)

  method ExpectedFlrToDistribute(totalXRPBalance: nat, conversionFactor: real) returns (expected: real)
    ensures expected == FlareExpected(totalXRPBalance, conversionFactor)
  {
    expected := totalXRPBalance as real;
    expected := expected * conversionFactor;
    expected := expected * WEI_PER_DROP;
  }

  /** The health check of the script can never fail: both sides count the valid lines. */
  method CreateAirdropTransactions(lines: seq<LineItem>, checks: Checks, conversionFactor: real, p: Parties, fees: Fees,
                                   initialAirdropNonce: nat, distributionNonce: nat) returns (r: CreateResult)
    requires conversionFactor >= 0.0 && NumericFees(fees)
    ensures r.Created?
    ensures var cs := SnapshotCredits(lines, checks, conversionFactor);
            && r.data == GenesisData(cs, 10)
            && NumeralBatches(Batches(Accounts(cs, 10), BATCH_SIZE))
            && r.transactions == Transactions(Batches(Accounts(cs, 10), BATCH_SIZE), p, fees,
                                              initialAirdropNonce, distributionNonce)
            && IsNumeral(r.totalGasPrice, 10)
            && Parse(r.totalGasPrice, 10) == |r.transactions| * GasPerTransaction(fees)
            && r.totalCost == TotalOf(cs) + Parse(r.totalGasPrice, 10)
            && CarryFees(r.transactions, fees)
    ensures var flags := Flags(lines, checks);
            && r.expected == FlareExpected(SumWhere(XrpColumn(lines), flags, true), conversionFactor)
            && (r.balancesMatch <==> r.data.processedWei == SumWhere(FlrColumn(lines), flags, true))
  {
    var validated, detail := ValidateFile(lines, checks);
    var expected := ExpectedFlrToDistribute(validated.totalXRPBalance, conversionFactor);
    var data, balanceErrors := CreateFlareAirdropGenesisData(lines, validated.validAccounts, conversionFactor);
    var healthy := true;
    var accountsMatch := data.processedAccountsLen == validated.validAccountsLen;
    healthy := healthy && accountsMatch;
    ValidLinesTotals(lines, Flags(lines, checks));
    AccountsCarryTheCredits(SnapshotCredits(lines, checks, conversionFactor), 10);
    if healthy {
      var transactions, totalGasPrice := CreateSetAirdropBalanceUnsignedTransactions(
        data.processedAccounts, p, fees, initialAirdropNonce, distributionNonce, BATCH_SIZE);
      var totalCost := data.processedWei + Parse(totalGasPrice, 10);
      var balancesMatch := ToBase(validated.totalFLRBalance, 10) == ToBase(data.processedWei, 10);
      if balancesMatch {
        PrintingIsInjective(validated.totalFLRBalance, data.processedWei, 10);
      }
      r := Created(transactions, totalGasPrice, data, expected, totalCost, balancesMatch);
    } else {
      r := Unhealthy;
    }
  }

  /**
   Creation followed by signing with the two senders' wallets: no transaction comes from anybody
   else, each is signed by its own sender, and the two gas totals add up to the one announced.
   */
  method CreateAndSign(lines: seq<LineItem>, checks: Checks, conversionFactor: real, p: Parties, fees: Fees,
                       initialAirdropNonce: nat, distributionNonce: nat, sign: (string, ContractCall) -> string)
      returns (created: CreateResult, signed: SignResult)
    requires conversionFactor >= 0.0 && NumericFees(fees)
    ensures created.Created? && signed.Signed? && IsNumeral(created.totalGasPrice, 10)
    ensures SignedBy(created.transactions, signed.raw, p.initialAirdropSender, p.distributionSender, sign)
    ensures signed.gasInitialAirdrop + signed.gasDistribution == Parse(created.totalGasPrice, 10)
    ensures LowerCase(p.initialAirdropSender) != LowerCase(p.distributionSender) ==>
              signed.gasInitialAirdrop == signed.gasDistribution
    ensures created.data.processedWei + signed.gasInitialAirdrop + signed.gasDistribution == created.totalCost
  {
    created := CreateAirdropTransactions(lines, checks, conversionFactor, p, fees,
                                         initialAirdropNonce, distributionNonce);
    ghost var batches := Batches(Accounts(SnapshotCredits(lines, checks, conversionFactor), 10), BATCH_SIZE);
    var w1, w2 := p.initialAirdropSender, p.distributionSender;
    SignerTotalsAgree(batches, p, fees, initialAirdropNonce, distributionNonce, w1);
    if LowerCase(w1) != LowerCase(w2) {
      WalletsPayTheSame(batches, p, fees, initialAirdropNonce, distributionNonce, w1);
    }
    signed := SignAirdropTransactions(created.transactions, w1, w2, sign);
    if signed.NeitherSigner? {
      AllFromSenders(batches, p, fees, initialAirdropNonce, distributionNonce, signed.index);
      assert false;
    }
  }

  // --- Conservation from snapshot to payments ---------------------------------------------

  function Wei(ps: seq<Payment>): seq<int>
  {
    seq(|ps|, i requires 0 <= i < |ps| => ps[i].wei)
  }

  /**
   What either contract is told to pay: every address once, in first-seen order, exactly what the
   snapshot owes it, in total the processed wei, for any batch size.
   */
  lemma FlareConservation(lines: seq<LineItem>, checks: Checks, factor: real, p: Parties, fees: Fees,
                          n1: nat, n2: nat, size: nat, contract: string)
    requires factor >= 0.0 && size >= 1
    requires !SameAccount(p.initialAirdropContract, p.distributionContract)
    requires SameAccount(p.initialAirdropContract, contract) || SameAccount(p.distributionContract, contract)
    ensures var cs := SnapshotCredits(lines, checks, factor);
            var accounts, order := Accounts(cs, 10), FirstSeen(cs);
            && NumeralBalances(accounts, 10)
            && NumeralBatches(Batches(accounts, size))
            && var txs := Transactions(Batches(accounts, size), p, fees, n1, n2);
            && WellFormed(txs)
            && var payments := PaymentsTo(txs, contract);
            && |payments| == |order| && Distinct(order)
            && (forall i :: 0 <= i < |order| ==>
                  payments[i] == Payment(order[i], OwedTo(lines, checks, factor, order[i])))
            && Sum(Wei(payments)) == GenesisData(cs, 10).processedWei
  {
    var cs := SnapshotCredits(lines, checks, factor);
    var accounts, order := Accounts(cs, 10), FirstSeen(cs);
    AccountsCarryTheCredits(cs, 10);
    BatchesNumeral(accounts, size);
    BatchesShape(accounts, size);
    FlattenedPayments(Batches(accounts, size));
    ContractPaysAll(Batches(accounts, size), p, fees, n1, n2, contract);
    var payments := AccountPayments(accounts);
    forall i | 0 <= i < |order| {
      PaymentIsOwed(lines, checks, factor, i);
    }
    assert Wei(payments) == ReadBalances(accounts, 10);
  }

  lemma PaymentIsOwed(lines: seq<LineItem>, checks: Checks, factor: real, i: nat)
    requires factor >= 0.0 && i < |FirstSeen(SnapshotCredits(lines, checks, factor))|
    ensures var cs := SnapshotCredits(lines, checks, factor);
            NumeralBalances(Accounts(cs, 10), 10) &&
            AccountPayments(Accounts(cs, 10))[i]
            == Payment(FirstSeen(cs)[i], OwedTo(lines, checks, factor, FirstSeen(cs)[i]))
  {
    var cs := SnapshotCredits(lines, checks, factor);
    AccountsCarryTheCredits(cs, 10);
    CreditsAreOwed(lines, checks, factor, FirstSeen(cs)[i]);
    assert ReadBalances(Accounts(cs, 10), 10)[i] == BalanceOf(cs, FirstSeen(cs)[i]);
  }

  function WeiTo(txs: seq<ContractCall>, contract: string): int
    requires WellFormed(txs)
  {
    Sum(Wei(PaymentsTo(txs, contract)))
  }

  /** What the contract is sent when `total` goes to each of the two roles it may have. */
  function DueTo(contract: string, p: Parties, total: int): int
  {
    (if SameAccount(p.initialAirdropContract, contract) then total else 0)
    + (if SameAccount(p.distributionContract, contract) then total else 0)
  }

  /** The balances of all batches in total, batch by batch. */
  function BatchWei(batches: seq<seq<ProcessedAccount>>): int
    requires NumeralBatches(batches)
  {
    if batches == [] then 0
    else
      var k := |batches| - 1;
      BatchWei(batches[..k]) + Sum(ReadBalances(batches[k], 10))
  }

  lemma {:induction false} FlattenedWei(batches: seq<seq<ProcessedAccount>>)
    requires NumeralBatches(batches)
    ensures NumeralBalances(Flatten(batches), 10)
    ensures Sum(ReadBalances(Flatten(batches), 10)) == BatchWei(batches)
  {
    if batches != [] {
      var k := |batches| - 1;
      FlattenedWei(batches[..k]);
      BalancesAppend(batches[..k], batches[k]);
      assert batches[..k] + [batches[k]] == batches;
    }
  }

  lemma {:induction false} WeiPerContract(batches: seq<seq<ProcessedAccount>>, p: Parties, fees: Fees, n1: nat, n2: nat,
                                          contract: string)
    requires NumeralBatches(batches)
    ensures var txs := Transactions(batches, p, fees, n1, n2);
            WellFormed(txs) && WeiTo(txs, contract) == DueTo(contract, p, BatchWei(batches))
  {
    if batches != [] {
      var k := |batches| - 1;
      WeiPerContract(batches[..k], p, fees, n1, n2, contract);
      WeiOfPair(Transactions(batches[..k], p, fees, n1, n2), batches[k], p, fees, n1 + k, n2 + k, contract);
    }
  }

  lemma BalancesAppend(front: seq<seq<ProcessedAccount>>, batch: seq<ProcessedAccount>)
    requires NumeralBalances(Flatten(front), 10) && NumeralBalances(batch, 10)
    ensures NumeralBalances(Flatten(front + [batch]), 10)
    ensures Sum(ReadBalances(Flatten(front + [batch]), 10))
         == Sum(ReadBalances(Flatten(front), 10)) + Sum(ReadBalances(batch, 10))
  {
    var accounts := Flatten(front);
    FlattenAppend(front, batch);
    assert ReadBalances(accounts + batch, 10) == ReadBalances(accounts, 10) + ReadBalances(batch, 10);
    SumConcat(ReadBalances(accounts, 10), ReadBalances(batch, 10));
  }

  lemma WeiOfPair(txs: seq<ContractCall>, batch: seq<ProcessedAccount>, p: Parties, fees: Fees, m1: nat, m2: nat,
                  contract: string)
    requires WellFormed(txs) && NumeralBalances(batch, 10)
    ensures var more := txs + [AirdropTx(batch, p, fees, m1)] + [DistributionTx(batch, p, fees, m2)];
            WellFormed(more)
            && WeiTo(more, contract) == WeiTo(txs, contract) + DueTo(contract, p, Sum(ReadBalances(batch, 10)))
  {
    var a, b := AirdropTx(batch, p, fees, m1), DistributionTx(batch, p, fees, m2);
    var paid, pay := PaymentsTo(txs, contract), PaymentsOf(CallOf(batch));
    var payA, payB := if SameAccount(a.to, contract) then pay else [], if SameAccount(b.to, contract) then pay else [];
    PaymentsOfTwo(txs, a, b, contract);
    assert PaymentsTo(txs + [a] + [b], contract) == paid + payA + payB;
    WeiAppend(paid, payA, payB);
    assert Wei(pay) == ReadBalances(batch, 10);
    assert Sum(Wei(payA)) == if SameAccount(a.to, contract) then Sum(ReadBalances(batch, 10)) else 0;
    assert Sum(Wei(payB)) == if SameAccount(b.to, contract) then Sum(ReadBalances(batch, 10)) else 0;
  }

  lemma WeiAppend(a: seq<Payment>, b: seq<Payment>, c: seq<Payment>)
    ensures Sum(Wei(a + b + c)) == Sum(Wei(a)) + Sum(Wei(b)) + Sum(Wei(c))
  {
    assert Wei(a + b + c) == Wei(a) + Wei(b) + Wei(c);
    SumConcat(Wei(a) + Wei(b), Wei(c));
    SumConcat(Wei(a), Wei(b));
  }

  /**
   Each contract is sent exactly the airdrop total if and only if the two contract addresses
   differ or there is nothing to hand out; the script falls back to the empty address
   for both when the deployment file names neither, and that address would be sent everything twice.
   */
  lemma ContractsAreSentTotalIff(accounts: seq<ProcessedAccount>, p: Parties, fees: Fees, n1: nat, n2: nat, size: nat)
    requires size >= 1 && NumeralBalances(accounts, 10)
    ensures NumeralBatches(Batches(accounts, size))
    ensures var txs, total := Transactions(Batches(accounts, size), p, fees, n1, n2), Sum(ReadBalances(accounts, 10));
            && WellFormed(txs)
            && (Sum(Wei(PaymentsTo(txs, p.initialAirdropContract))) == total
                && Sum(Wei(PaymentsTo(txs, p.distributionContract))) == total
                <==> !SameAccount(p.initialAirdropContract, p.distributionContract) || total == 0)
  {
    BatchesNumeral(accounts, size);
    BatchesShape(accounts, size);
    FlattenedWei(Batches(accounts, size));
    WeiPerContract(Batches(accounts, size), p, fees, n1, n2, p.initialAirdropContract);
    WeiPerContract(Batches(accounts, size), p, fees, n1, n2, p.distributionContract);
  }

  /** No address that is owed something is forgotten. */
  lemma {:induction false} EveryOwedAddressIsListed(lines: seq<LineItem>, checks: Checks, factor: real, a: string)
    requires factor >= 0.0 && OwedTo(lines, checks, factor, a) > 0
    ensures a in FirstSeen(SnapshotCredits(lines, checks, factor))
  {
    CreditsAreOwed(lines, checks, factor, a);
    UnseenHasNothing(SnapshotCredits(lines, checks, factor), a);
  }

  lemma ListedIsChecked(lines: seq<LineItem>, checks: Checks, factor: real, a: string)
    requires factor >= 0.0 && a in FirstSeen(SnapshotCredits(lines, checks, factor))
    ensures checks.isFlareAddress(a)
  {
    var cs, valid := SnapshotCredits(lines, checks, factor), ValidLines(lines, Flags(lines, checks));
    CreditedIffSeen(cs, a);
    var k :| 0 <= k < |cs| && CreditedAddresses(cs)[k] == a;
    assert valid[k].flareAddress == a;
    var i := ValidLineIsFlagged(lines, Flags(lines, checks), k);
    ValidIff(lines, checks, i);
  }

  lemma {:induction false} BatchedIsListed(accounts: seq<ProcessedAccount>, size: nat, j: nat, i: nat)
    requires size >= 1 && j < |Batches(accounts, size)| && i < |Batches(accounts, size)[j]|
    ensures Batches(accounts, size)[j][i] in accounts
    decreases |accounts|
  {
    if |accounts| > size && j > 0 {
      BatchedIsListed(accounts[size..], size, j - 1, i);
    }
  }

  /** Every address any transaction pays has passed the address check. */
  lemma PaidAddressesAreChecked(lines: seq<LineItem>, checks: Checks, factor: real, p: Parties, fees: Fees,
                                n1: nat, n2: nat, size: nat, j: nat, i: nat)
    requires factor >= 0.0 && size >= 1
    ensures var accounts := Accounts(SnapshotCredits(lines, checks, factor), 10);
            && NumeralBatches(Batches(accounts, size))
            && var txs := Transactions(Batches(accounts, size), p, fees, n1, n2);
            j < |txs| && i < |txs[j].data.addresses| ==> checks.isFlareAddress(txs[j].data.addresses[i])
  {
    var cs := SnapshotCredits(lines, checks, factor);
    var accounts := Accounts(cs, 10);
    AccountsCarryTheCredits(cs, 10);
    BatchesNumeral(accounts, size);
    var batches := Batches(accounts, size);
    var txs := Transactions(batches, p, fees, n1, n2);
    if j < |txs| && i < |txs[j].data.addresses| {
      TransactionPair(batches, p, fees, n1, n2, j / 2);
      assert j == 2 * (j / 2) || j == 2 * (j / 2) + 1;
      assert txs[j].data == CallOf(batches[j / 2]);
      BatchedIsListed(accounts, size, j / 2, i);
      var m :| 0 <= m < |accounts| && accounts[m] == batches[j / 2][i];
      assert Addresses(accounts)[m] == txs[j].data.addresses[i];
      ListedIsChecked(lines, checks, factor, FirstSeen(cs)[m]);
    }
  }

  /** No account is listed under two addresses if and only if no two valid lines spell one account differently. */
  lemma AccountsListedOnce(lines: seq<LineItem>, checks: Checks, factor: real)
    requires factor >= 0.0
    ensures DistinctAccounts(FirstSeen(SnapshotCredits(lines, checks, factor)), AccountOf)
            <==> SpelledAlike(FlareAddresses(ValidLines(lines, Flags(lines, checks))), AccountOf)
  {
    var cs := SnapshotCredits(lines, checks, factor);
    AccountsListedOnceIff(cs, AccountOf);
    assert CreditedAddresses(cs) == FlareAddresses(ValidLines(lines, Flags(lines, checks)));
  }

  /** The histogram counts the listed addresses, and weighted it counts the validator's valid lines. */
  lemma FlareHistogram(lines: seq<LineItem>, checks: Checks, factor: real)
    requires factor >= 0.0
    ensures var data := GenesisData(SnapshotCredits(lines, checks, factor), 10);
            var validated := Report(lines, checks, Flags(lines, checks));
            && Sum(data.accountsDistribution) == |data.processedAccounts|
            && Weighted(data.accountsDistribution) == data.processedAccountsLen
            && data.processedAccountsLen == validated.validAccountsLen
  {
    DistributionCounts(SnapshotCredits(lines, checks, factor));
    ValidLinesTotals(lines, Flags(lines, checks));
  }
}
