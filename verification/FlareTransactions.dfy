/**
 The unsigned transactions of the Flare airdrop: the account list is cut into batches and every
 batch is sent to two contracts, each sender counting its own nonces; then they are signed.
 */
module FlareTransactions {
  import opened Arithmetic
  import opened Numerals
  import opened Ledger
  import opened TransactionFees

  /** The encoded call; the encoding determines its arguments. */
  datatype Call = SetAirdropBalances(addresses: seq<string>, balances: seq<int>)

  datatype ContractCall = ContractCall(
    from: string, to: string, data: Call, gas: string, gasPrice: string, nonce: nat, chainId: int)

  datatype Parties = Parties(
    initialAirdropContract: string, distributionContract: string,
    initialAirdropSender: string, distributionSender: string)

  // --- What the batching computes ---------------------------------------------------------

  function Batches(accounts: seq<ProcessedAccount>, size: nat): seq<seq<ProcessedAccount>>
    requires size >= 1
    decreases |accounts|
  {
    if accounts == [] then []
    else if |accounts| <= size then [accounts]
    else [accounts[..size]] + Batches(accounts[size..], size)
  }

  function CallOf(batch: seq<ProcessedAccount>): Call
    requires NumeralBalances(batch, 10)
  {
    SetAirdropBalances(Addresses(batch), ReadBalances(batch, 10))
  }

  predicate NumeralBatches(batches: seq<seq<ProcessedAccount>>)
  {
    forall i :: 0 <= i < |batches| ==> NumeralBalances(batches[i], 10)
  }

  function AirdropTx(batch: seq<ProcessedAccount>, p: Parties, fees: Fees, nonce: nat): ContractCall
    requires NumeralBalances(batch, 10)
  {
    ContractCall(p.initialAirdropSender, p.initialAirdropContract, CallOf(batch), fees.gas, fees.gasPrice, nonce,
                 fees.chainId)
  }

  function DistributionTx(batch: seq<ProcessedAccount>, p: Parties, fees: Fees, nonce: nat): ContractCall
    requires NumeralBalances(batch, 10)
  {
    ContractCall(p.distributionSender, p.distributionContract, CallOf(batch), fees.gas, fees.gasPrice, nonce,
                 fees.chainId)
  }

  /** Two transactions per batch, the initial airdrop first, each sender with its own nonce. */
  function Transactions(batches: seq<seq<ProcessedAccount>>, p: Parties, fees: Fees, n1: nat, n2: nat)
      : (txs: seq<ContractCall>)
    requires NumeralBatches(batches)
    ensures |txs| == 2 * |batches|
  {
    if batches == [] then []
    else
      var k := |batches| - 1;
      Transactions(batches[..k], p, fees, n1, n2)
      + [AirdropTx(batches[k], p, fees, n1 + k)] + [DistributionTx(batches[k], p, fees, n2 + k)]
  }

  /** The j-th pair of transactions carries batch j, in equal payloads to the two contracts. */
  lemma {:induction false} TransactionPair(batches: seq<seq<ProcessedAccount>>, p: Parties, fees: Fees,
                                           n1: nat, n2: nat, j: nat)
    requires NumeralBatches(batches) && j < |batches|
    ensures var txs := Transactions(batches, p, fees, n1, n2);
            && txs[2 * j] == AirdropTx(batches[j], p, fees, n1 + j)
            && txs[2 * j + 1] == DistributionTx(batches[j], p, fees, n2 + j)
            && txs[2 * j].data == txs[2 * j + 1].data
  {
    if j < |batches| - 1 {
      TransactionPair(batches[..|batches| - 1], p, fees, n1, n2, j);
    }
  }

  /** Each sender calls its own contract: initial airdrops at even places, distributions at odd ones. */
  lemma RolesStayApart(batches: seq<seq<ProcessedAccount>>, p: Parties, fees: Fees, n1: nat, n2: nat, j: nat)
    requires NumeralBatches(batches) && j < |batches|
    ensures var txs := Transactions(batches, p, fees, n1, n2);
            && txs[2 * j].from == p.initialAirdropSender && txs[2 * j].to == p.initialAirdropContract
            && txs[2 * j + 1].from == p.distributionSender && txs[2 * j + 1].to == p.distributionContract
            && txs[2 * j].nonce == n1 + j && txs[2 * j + 1].nonce == n2 + j
  {
    TransactionPair(batches, p, fees, n1, n2, j);
  }

  /** Every transaction asks for the gas, the gas price and the chain it was given. */
  ghost predicate CarryFees(txs: seq<ContractCall>, fees: Fees)
  {
    forall j :: 0 <= j < |txs| ==>
      txs[j].gas == fees.gas && txs[j].gasPrice == fees.gasPrice && txs[j].chainId == fees.chainId
  }

  lemma {:induction false} TransactionsCarryFees(batches: seq<seq<ProcessedAccount>>, p: Parties, fees: Fees,
                                                 n1: nat, n2: nat)
    requires NumeralBatches(batches)
    ensures CarryFees(Transactions(batches, p, fees, n1, n2), fees)
  {
    if batches != [] {
      TransactionsCarryFees(batches[..|batches| - 1], p, fees, n1, n2);
    }
  }

  // --- Properties of the batches ----------------------------------------------------------

  function Flatten<T>(ss: seq<seq<T>>): seq<T>
  {
    if ss == [] then [] else ss[0] + Flatten(ss[1..])
  }

  /** Batches are consecutive, non-empty, full except the last, and as many as the ceiling says. */
  lemma {:induction false} BatchesShape(accounts: seq<ProcessedAccount>, size: nat)
    requires size >= 1
    ensures Flatten(Batches(accounts, size)) == accounts
    ensures |Batches(accounts, size)| == (|accounts| + size - 1) / size
    ensures forall i :: 0 <= i < |Batches(accounts, size)| ==> 0 < |Batches(accounts, size)[i]| <= size
    ensures forall i :: 0 <= i < |Batches(accounts, size)| - 1 ==> |Batches(accounts, size)[i]| == size
    decreases |accounts|
  {
    var n := |accounts|;
    if n == 0 {
      CeilingStep(0, size);
    } else if n <= size {
      CeilingStep(n, size);
      assert Flatten([accounts]) == accounts + Flatten([]);
    } else {
      BatchesShape(accounts[size..], size);
      CeilingStep(n, size);
      assert Batches(accounts, size)[1..] == Batches(accounts[size..], size);
      assert accounts[..size] + accounts[size..] == accounts;
    }
  }

  lemma CeilingStep(n: nat, size: nat)
    requires size >= 1
    ensures n == 0 ==> (n + size - 1) / size == 0
    ensures 0 < n <= size ==> (n + size - 1) / size == 1
    ensures n > size ==> (n + size - 1) / size == 1 + (n - size + size - 1) / size
  {
    if n > size {
      var q := (n - 1) / size;
      FloorBounds(n - 1, size);
      FloorUnique(n + size - 1, size, q + 1);
    } else if n > 0 {
      FloorUnique(n + size - 1, size, 1);
    } else {
      FloorUnique(size - 1, size, 0);
    }
  }

  lemma {:induction false} BatchesNumeral(accounts: seq<ProcessedAccount>, size: nat)
    requires size >= 1 && NumeralBalances(accounts, 10)
    ensures NumeralBatches(Batches(accounts, size))
    decreases |accounts|
  {
    if |accounts| > size {
      BatchesNumeral(accounts[size..], size);
    }
  }

  // --- The while(true) loop ---------------------------------------------------------------

  /** The inner loop: the next at most batchSize accounts, and whether the list ran out on the way. */
  method TakeBatch(accounts: seq<ProcessedAccount>, start: nat, batchSize: nat)
      returns (tempAddresses: seq<string>, tempBalances: seq<int>, index: nat, shouldBreak: bool)
    requires start <= |accounts| && NumeralBalances(accounts, 10)
    ensures start <= index <= |accounts|
    ensures index == if start + batchSize <= |accounts| then start + batchSize else |accounts|
    ensures shouldBreak <==> start + batchSize > |accounts|
    ensures NumeralBalances(accounts[start..index], 10)
    ensures SetAirdropBalances(tempAddresses, tempBalances) == CallOf(accounts[start..index])
  {
    tempAddresses, tempBalances, index, shouldBreak := [], [], start, false;
    for i := 0 to batchSize
      invariant index == start + i && index <= |accounts| && !shouldBreak
      invariant tempAddresses == Addresses(accounts[start..index])
      invariant tempBalances == ReadBalances(accounts[start..index], 10)
    {
      if !(index < |accounts|) {
        shouldBreak := true;
        break;
      }
      tempAddresses := tempAddresses + [accounts[index].nativeAddress];
      tempBalances := tempBalances + [Parse(accounts[index].nativeBalance, 10)];
      index := index + 1;
    }
  }

  lemma NextBatch(accounts: seq<ProcessedAccount>, start: nat, index: nat, size: nat)
    requires size >= 1 && start <= |accounts|
    requires index == if start + size <= |accounts| then start + size else |accounts|
    ensures start == |accounts| ==> Batches(accounts[start..], size) == []
    ensures start < |accounts| ==>
              Batches(accounts[start..], size) == [accounts[start..index]] + Batches(accounts[index..], size)
  {
    var rest := accounts[start..];
    if |rest| > size {
      assert rest[..size] == accounts[start..index] && rest[size..] == accounts[index..];
    } else {
      assert rest == accounts[start..index] && accounts[index..] == [];
    }
  }

  /** What has been sent when the first `index` accounts are used up. */
  ghost predicate SentSoFar(accounts: seq<ProcessedAccount>, size: nat, index: nat, done: seq<seq<ProcessedAccount>>,
                            txs: seq<ContractCall>, p: Parties, fees: Fees, off1: nat, off2: nat, n1: nat, n2: nat)
    requires size >= 1
  {
    && index <= |accounts| && NumeralBatches(done)
    && Batches(accounts, size) == done + Batches(accounts[index..], size)
    && txs == Transactions(done, p, fees, off1, off2)
    && n1 == off1 + |done| && n2 == off2 + |done|
  }

  lemma SentStep(accounts: seq<ProcessedAccount>, size: nat, index: nat, index': nat, done: seq<seq<ProcessedAccount>>,
                 txs: seq<ContractCall>, p: Parties, fees: Fees, off1: nat, off2: nat, n1: nat, n2: nat)
    requires size >= 1 && SentSoFar(accounts, size, index, done, txs, p, fees, off1, off2, n1, n2)
    requires index < |accounts| && index' == if index + size <= |accounts| then index + size else |accounts|
    requires NumeralBalances(accounts[index..index'], 10)
    ensures var batch := accounts[index..index'];
            SentSoFar(accounts, size, index', done + [batch],
                      txs + [AirdropTx(batch, p, fees, n1)] + [DistributionTx(batch, p, fees, n2)],
                      p, fees, off1, off2, n1 + 1, n2 + 1)
  {
    var batch := accounts[index..index'];
    NextBatch(accounts, index, index', size);
    TransactionsStep(done, batch, p, fees, off1, off2);
    assert done + ([batch] + Batches(accounts[index'..], size)) == (done + [batch]) + Batches(accounts[index'..], size);
  }

  /** The body of the while(true) loop. */
  method SendNext(accounts: seq<ProcessedAccount>, batchSize: nat, index0: nat, txs0: seq<ContractCall>, p: Parties,
                  fees: Fees, n1_0: nat, n2_0: nat, ghost done0: seq<seq<ProcessedAccount>>,
                  ghost off1: nat, ghost off2: nat)
      returns (shouldBreak: bool, index: nat, txs: seq<ContractCall>, n1: nat, n2: nat,
               ghost done: seq<seq<ProcessedAccount>>)
    requires batchSize >= 1 && NumeralBalances(accounts, 10)
    requires SentSoFar(accounts, batchSize, index0, done0, txs0, p, fees, off1, off2, n1_0, n2_0)
    ensures SentSoFar(accounts, batchSize, index, done, txs, p, fees, off1, off2, n1, n2)
    ensures if shouldBreak then index == |accounts| else index == index0 + batchSize
  {
    var tempAddresses: seq<string>, tempBalances: seq<int>;
    txs, n1, n2, done := txs0, n1_0, n2_0, done0;
    tempAddresses, tempBalances, index, shouldBreak := TakeBatch(accounts, index0, batchSize);
    if |tempAddresses| > 0 && |tempAddresses| == |tempBalances| {
      ghost var batch := accounts[index0..index];
      SentStep(accounts, batchSize, index0, index, done, txs, p, fees, off1, off2, n1, n2);
      txs, n1, n2 := SendBatch(txs, SetAirdropBalances(tempAddresses, tempBalances), p, fees, n1, n2, batch);
      done := done + [batch];
    }
  }

  method CreateSetAirdropBalanceUnsignedTransactions(processedAccounts: seq<ProcessedAccount>, p: Parties, fees: Fees,
      initialAirdropNonceOffset: nat, initialDistributionNonceOffset: nat, batchSize: nat)
      returns (rawTransactions: seq<ContractCall>, totalGasPrice: string)
    requires batchSize >= 1
    requires NumeralBalances(processedAccounts, 10) && NumericFees(fees)
    ensures NumeralBatches(Batches(processedAccounts, batchSize))
    ensures rawTransactions == Transactions(Batches(processedAccounts, batchSize), p, fees,
                                            initialAirdropNonceOffset, initialDistributionNonceOffset)
    ensures CarryFees(rawTransactions, fees)
    ensures IsNumeral(totalGasPrice, 10) && Parse(totalGasPrice, 10) == |rawTransactions| * GasPerTransaction(fees)
  {
    rawTransactions := [];
    var index: nat := 0;
    var initialAirdropNonce, distributionNonce := initialAirdropNonceOffset, initialDistributionNonceOffset;
    var shouldBreak := false;
    ghost var done: seq<seq<ProcessedAccount>> := [];
    assert processedAccounts[0..] == processedAccounts;
    while true
      invariant SentSoFar(processedAccounts, batchSize, index, done, rawTransactions, p, fees,
                          initialAirdropNonceOffset, initialDistributionNonceOffset,
                          initialAirdropNonce, distributionNonce)
      decreases |processedAccounts| - index
    {
      shouldBreak, index, rawTransactions, initialAirdropNonce, distributionNonce, done :=
        SendNext(processedAccounts, batchSize, index, rawTransactions, p, fees, initialAirdropNonce, distributionNonce,
                 done, initialAirdropNonceOffset, initialDistributionNonceOffset);
      if shouldBreak {
        break;
      }
    }
    assert processedAccounts[index..] == [] && done + [] == done;
    TransactionsCarryFees(done, p, fees, initialAirdropNonceOffset, initialDistributionNonceOffset);
    totalGasPrice := TotalGas(|rawTransactions|, fees);
  }

  /** Both transactions of a batch, each with its sender's next nonce. */
  method SendBatch(rawTransactions0: seq<ContractCall>, data: Call, p: Parties, fees: Fees, n1: nat, n2: nat,
                   ghost batch: seq<ProcessedAccount>)
      returns (rawTransactions: seq<ContractCall>, initialAirdropNonce: nat, distributionNonce: nat)
    requires NumeralBalances(batch, 10) && data == CallOf(batch)
    ensures rawTransactions == rawTransactions0 + [AirdropTx(batch, p, fees, n1)] + [DistributionTx(batch, p, fees, n2)]
    ensures initialAirdropNonce == n1 + 1 && distributionNonce == n2 + 1
  {
    rawTransactions, initialAirdropNonce, distributionNonce := rawTransactions0, n1, n2;
    rawTransactions := rawTransactions + [ContractCall(p.initialAirdropSender, p.initialAirdropContract, data,
      fees.gas, fees.gasPrice, initialAirdropNonce, fees.chainId)];
    initialAirdropNonce := initialAirdropNonce + 1;
    rawTransactions := rawTransactions + [ContractCall(p.distributionSender, p.distributionContract, data,
      fees.gas, fees.gasPrice, distributionNonce, fees.chainId)];
    distributionNonce := distributionNonce + 1;
  }

  lemma TransactionsStep(done: seq<seq<ProcessedAccount>>, batch: seq<ProcessedAccount>, p: Parties, fees: Fees,
                         n1: nat, n2: nat)
    requires NumeralBatches(done) && NumeralBalances(batch, 10)
    ensures Transactions(done + [batch], p, fees, n1, n2)
         == Transactions(done, p, fees, n1, n2)
            + [AirdropTx(batch, p, fees, n1 + |done|)] + [DistributionTx(batch, p, fees, n2 + |done|)]
  {
  }

  // --- Who is paid what -------------------------------------------------------------------

  datatype Payment = Payment(address: string, wei: int)

  function PaymentsOf(c: Call): seq<Payment>
    requires |c.addresses| == |c.balances|
  {
    seq(|c.addresses|, i requires 0 <= i < |c.addresses| => Payment(c.addresses[i], c.balances[i]))
  }

  predicate WellFormed(txs: seq<ContractCall>)
  {
    forall j :: 0 <= j < |txs| ==> |txs[j].data.addresses| == |txs[j].data.balances|
  }

  /** All payments handed to one contract, however it is spelled, in transaction order. */
  function PaymentsTo(txs: seq<ContractCall>, contract: string): seq<Payment>
    requires WellFormed(txs)
  {
    if txs == [] then []
    else
      var k := |txs| - 1;
      PaymentsTo(txs[..k], contract) + if SameAccount(txs[k].to, contract) then PaymentsOf(txs[k].data) else []
  }

  function AccountPayments(accounts: seq<ProcessedAccount>): seq<Payment>
    requires NumeralBalances(accounts, 10)
  {
    seq(|accounts|, i requires 0 <= i < |accounts| =>
      Payment(accounts[i].nativeAddress, Parse(accounts[i].nativeBalance, 10)))
  }

  lemma {:induction false} FlattenAppend<T>(ss: seq<seq<T>>, s: seq<T>)
    ensures Flatten(ss + [s]) == Flatten(ss) + s
  {
    if ss == [] {
      assert Flatten([s]) == s + Flatten([]);
      assert [] + [s] == [s];
    } else {
      FlattenAppend(ss[1..], s);
      assert (ss + [s])[1..] == ss[1..] + [s];
    }
  }

  lemma PaymentsOfTwo(txs: seq<ContractCall>, a: ContractCall, b: ContractCall, contract: string)
    requires WellFormed(txs) && WellFormed([a]) && WellFormed([b])
    requires |a.data.addresses| == |a.data.balances| && |b.data.addresses| == |b.data.balances|
    ensures WellFormed(txs + [a] + [b])
    ensures PaymentsTo(txs + [a] + [b], contract)
         == PaymentsTo(txs, contract) + (if SameAccount(a.to, contract) then PaymentsOf(a.data) else [])
            + (if SameAccount(b.to, contract) then PaymentsOf(b.data) else [])
  {
  }

  /** The payments of all batches, batch by batch. */
  function BatchPayments(batches: seq<seq<ProcessedAccount>>): seq<Payment>
    requires NumeralBatches(batches)
  {
    if batches == [] then []
    else
      var k := |batches| - 1;
      BatchPayments(batches[..k]) + PaymentsOf(CallOf(batches[k]))
  }

  lemma PaymentsAppend(front: seq<seq<ProcessedAccount>>, batch: seq<ProcessedAccount>)
    requires NumeralBalances(Flatten(front), 10) && NumeralBalances(batch, 10)
    ensures NumeralBalances(Flatten(front + [batch]), 10)
    ensures AccountPayments(Flatten(front + [batch])) == AccountPayments(Flatten(front)) + PaymentsOf(CallOf(batch))
  {
    FlattenAppend(front, batch);
  }

  lemma {:induction false} FlattenedPayments(batches: seq<seq<ProcessedAccount>>)
    requires NumeralBatches(batches)
    ensures NumeralBalances(Flatten(batches), 10)
    ensures AccountPayments(Flatten(batches)) == BatchPayments(batches)
  {
    if batches != [] {
      var k := |batches| - 1;
      FlattenedPayments(batches[..k]);
      PaymentsAppend(batches[..k], batches[k]);
      assert batches[..k] + [batches[k]] == batches;
    }
  }

  lemma BatchPaymentsStep(batches: seq<seq<ProcessedAccount>>, k: nat)
    requires NumeralBatches(batches) && |batches| == k + 1
    ensures BatchPayments(batches) == BatchPayments(batches[..k]) + PaymentsOf(CallOf(batches[k]))
  {
  }

  lemma {:induction false} TransactionsWellFormed(batches: seq<seq<ProcessedAccount>>, p: Parties, fees: Fees,
                                                  n1: nat, n2: nat)
    requires NumeralBatches(batches)
    ensures WellFormed(Transactions(batches, p, fees, n1, n2))
  {
    if batches != [] {
      TransactionsWellFormed(batches[..|batches| - 1], p, fees, n1, n2);
    }
  }

  lemma {:induction false} ContractPaysAll(batches: seq<seq<ProcessedAccount>>, p: Parties, fees: Fees,
                                           n1: nat, n2: nat, contract: string)
    requires NumeralBatches(batches)
    requires SameAccount(p.initialAirdropContract, contract) != SameAccount(p.distributionContract, contract)
    ensures WellFormed(Transactions(batches, p, fees, n1, n2))
    ensures PaymentsTo(Transactions(batches, p, fees, n1, n2), contract) == BatchPayments(batches)
  {
    TransactionsWellFormed(batches, p, fees, n1, n2);
    if batches != [] {
      var k := |batches| - 1;
      ContractPaysAll(batches[..k], p, fees, n1, n2, contract);
      PaymentsOfPair(Transactions(batches[..k], p, fees, n1, n2), batches[k], p, fees, n1 + k, n2 + k, contract);
    }
  }

  lemma PaymentsOfPair(txs: seq<ContractCall>, batch: seq<ProcessedAccount>, p: Parties, fees: Fees, m1: nat, m2: nat,
                       contract: string)
    requires WellFormed(txs) && NumeralBalances(batch, 10)
    requires SameAccount(p.initialAirdropContract, contract) != SameAccount(p.distributionContract, contract)
    ensures var more := txs + [AirdropTx(batch, p, fees, m1)] + [DistributionTx(batch, p, fees, m2)];
            WellFormed(more) && PaymentsTo(more, contract) == PaymentsTo(txs, contract) + PaymentsOf(CallOf(batch))
  {
    var a, b := AirdropTx(batch, p, fees, m1), DistributionTx(batch, p, fees, m2);
    if SameAccount(p.initialAirdropContract, contract) {
      PaidByNext(txs, a, contract);
      NotPaidByNext(txs + [a], b, contract);
    } else {
      NotPaidByNext(txs, a, contract);
      PaidByNext(txs + [a], b, contract);
    }
  }

  lemma PaidByNext(txs: seq<ContractCall>, tx: ContractCall, contract: string)
    requires WellFormed(txs) && |tx.data.addresses| == |tx.data.balances| && SameAccount(tx.to, contract)
    ensures WellFormed(txs + [tx])
    ensures PaymentsTo(txs + [tx], contract) == PaymentsTo(txs, contract) + PaymentsOf(tx.data)
  {
    assert (txs + [tx])[..|txs|] == txs;
  }

  lemma NotPaidByNext(txs: seq<ContractCall>, tx: ContractCall, contract: string)
    requires WellFormed(txs) && |tx.data.addresses| == |tx.data.balances| && !SameAccount(tx.to, contract)
    ensures WellFormed(txs + [tx])
    ensures PaymentsTo(txs + [tx], contract) == PaymentsTo(txs, contract)
  {
    assert (txs + [tx])[..|txs|] == txs;
  }

  /** Each contract, taken alone, is sent exactly the accounts of all batches in order. */
  lemma BothContractsPayAll(batches: seq<seq<ProcessedAccount>>, p: Parties, fees: Fees, n1: nat, n2: nat)
    requires NumeralBatches(batches) && !SameAccount(p.initialAirdropContract, p.distributionContract)
    ensures var txs := Transactions(batches, p, fees, n1, n2);
            && WellFormed(txs)
            && NumeralBalances(Flatten(batches), 10)
            && PaymentsTo(txs, p.initialAirdropContract) == AccountPayments(Flatten(batches))
            && PaymentsTo(txs, p.distributionContract) == AccountPayments(Flatten(batches))
  {
    FlattenedPayments(batches);
    ContractPaysAll(batches, p, fees, n1, n2, p.initialAirdropContract);
    ContractPaysAll(batches, p, fees, n1, n2, p.distributionContract);
  }

  // --- Nonces -----------------------------------------------------------------------------

  function NoncesOf(txs: seq<ContractCall>, sender: string): seq<nat>
  {
    if txs == [] then []
    else
      var k := |txs| - 1;
      NoncesOf(txs[..k], sender) + if SameAccount(txs[k].from, sender) then [txs[k].nonce] else []
  }

  lemma NoncesOfTwo(txs: seq<ContractCall>, a: ContractCall, b: ContractCall, sender: string)
    ensures NoncesOf(txs + [a] + [b], sender)
         == NoncesOf(txs, sender) + (if SameAccount(a.from, sender) then [a.nonce] else [])
            + (if SameAccount(b.from, sender) then [b.nonce] else [])
  {
  }

  function Consecutive(from: nat, count: nat): seq<nat>
  {
    seq(count, i => from + i)
  }

  lemma ConsecutiveStep(from: nat, count: nat)
    ensures Consecutive(from, count + 1) == Consecutive(from, count) + [from + count]
  {
  }

  lemma PairNonces(txs: seq<ContractCall>, batch: seq<ProcessedAccount>, p: Parties, fees: Fees, m1: nat, m2: nat)
    requires NumeralBalances(batch, 10) && !SameAccount(p.initialAirdropSender, p.distributionSender)
    ensures var more := txs + [AirdropTx(batch, p, fees, m1)] + [DistributionTx(batch, p, fees, m2)];
            && NoncesOf(more, p.initialAirdropSender) == NoncesOf(txs, p.initialAirdropSender) + [m1]
            && NoncesOf(more, p.distributionSender) == NoncesOf(txs, p.distributionSender) + [m2]
  {
    var a, b := AirdropTx(batch, p, fees, m1), DistributionTx(batch, p, fees, m2);
    NoncesOfTwo(txs, a, b, p.initialAirdropSender);
    NoncesOfTwo(txs, a, b, p.distributionSender);
  }

  lemma {:induction false} InitialNonces(batches: seq<seq<ProcessedAccount>>, p: Parties, fees: Fees, n1: nat, n2: nat)
    requires NumeralBatches(batches) && !SameAccount(p.initialAirdropSender, p.distributionSender)
    ensures NoncesOf(Transactions(batches, p, fees, n1, n2), p.initialAirdropSender) == Consecutive(n1, |batches|)
  {
    if batches != [] {
      var k := |batches| - 1;
      InitialNonces(batches[..k], p, fees, n1, n2);
      PairNonces(Transactions(batches[..k], p, fees, n1, n2), batches[k], p, fees, n1 + k, n2 + k);
      ConsecutiveStep(n1, k);
    }
  }

  lemma {:induction false} DistributionNonces(batches: seq<seq<ProcessedAccount>>, p: Parties, fees: Fees,
                                              n1: nat, n2: nat)
    requires NumeralBatches(batches) && !SameAccount(p.initialAirdropSender, p.distributionSender)
    ensures NoncesOf(Transactions(batches, p, fees, n1, n2), p.distributionSender) == Consecutive(n2, |batches|)
  {
    if batches != [] {
      var k := |batches| - 1;
      DistributionNonces(batches[..k], p, fees, n1, n2);
      PairNonces(Transactions(batches[..k], p, fees, n1, n2), batches[k], p, fees, n1 + k, n2 + k);
      ConsecutiveStep(n2, k);
    }
  }

  /** Each of two distinct senders numbers its transactions consecutively from its own offset. */
  lemma NoncesAreConsecutive(batches: seq<seq<ProcessedAccount>>, p: Parties, fees: Fees, n1: nat, n2: nat)
    requires NumeralBatches(batches) && !SameAccount(p.initialAirdropSender, p.distributionSender)
    ensures var txs := Transactions(batches, p, fees, n1, n2);
            && NoncesOf(txs, p.initialAirdropSender) == Consecutive(n1, |batches|)
            && NoncesOf(txs, p.distributionSender) == Consecutive(n2, |batches|)
  {
    InitialNonces(batches, p, fees, n1, n2);
    DistributionNonces(batches, p, fees, n1, n2);
  }

  ghost predicate NoNonceReused(txs: seq<ContractCall>)
  {
    forall i, j :: 0 <= i < j < |txs| ==> !SameAccount(txs[i].from, txs[j].from) || txs[i].nonce != txs[j].nonce
  }

  /** Sender and nonce of every transaction: even ones are initial airdrops, odd ones distributions. */
  ghost predicate Numbered(txs: seq<ContractCall>, p: Parties, n1: nat, n2: nat)
  {
    forall j :: 0 <= j < |txs| ==>
      && txs[j].from == (if j % 2 == 0 then p.initialAirdropSender else p.distributionSender)
      && txs[j].nonce == j / 2 + (if j % 2 == 0 then n1 else n2)
  }

  lemma TransactionsNumbered(batches: seq<seq<ProcessedAccount>>, p: Parties, fees: Fees, n1: nat, n2: nat)
    requires NumeralBatches(batches)
    ensures Numbered(Transactions(batches, p, fees, n1, n2), p, n1, n2)
  {
    var txs := Transactions(batches, p, fees, n1, n2);
    forall j | 0 <= j < |txs|
      ensures txs[j].from == if j % 2 == 0 then p.initialAirdropSender else p.distributionSender
      ensures txs[j].nonce == j / 2 + if j % 2 == 0 then n1 else n2
    {
      TransactionPair(batches, p, fees, n1, n2, j / 2);
    }
  }

  lemma PairApart(txs: seq<ContractCall>, p: Parties, n1: nat, n2: nat, k: nat, i: nat, j: nat)
    requires Numbered(txs, p, n1, n2) && i < j < |txs| == 2 * k
    requires !SameAccount(p.initialAirdropSender, p.distributionSender) || n1 + k <= n2 || n2 + k <= n1
    ensures !SameAccount(txs[i].from, txs[j].from) || txs[i].nonce != txs[j].nonce
  {
    assert i / 2 < k && j / 2 < k;
    if i % 2 == j % 2 {
      assert i / 2 < j / 2;
    }
  }

  lemma NumberedApart(txs: seq<ContractCall>, p: Parties, n1: nat, n2: nat, k: nat)
    requires Numbered(txs, p, n1, n2) && |txs| == 2 * k
    requires !SameAccount(p.initialAirdropSender, p.distributionSender) || n1 + k <= n2 || n2 + k <= n1
    ensures NoNonceReused(txs)
  {
    forall i, j | 0 <= i < j < |txs|
      ensures !SameAccount(txs[i].from, txs[j].from) || txs[i].nonce != txs[j].nonce
    {
      PairApart(txs, p, n1, n2, k, i, j);
    }
  }

  lemma NumberedAlike(txs: seq<ContractCall>, p: Parties, n1: nat, n2: nat, k: nat)
    requires Numbered(txs, p, n1, n2) && |txs| == 2 * k > 0
    requires SameAccount(p.initialAirdropSender, p.distributionSender) && n2 < n1 + k && n1 < n2 + k
    ensures !NoNonceReused(txs)
  {
    var i, j := if n1 <= n2 then n2 - n1 else 0, if n1 <= n2 then 0 else n1 - n2;
    assert txs[2 * i].nonce == n1 + i && txs[2 * j + 1].nonce == n2 + j;
    assert SameAccount(txs[2 * i].from, txs[2 * j + 1].from);
    assert 2 * i < 2 * j + 1 || 2 * j + 1 < 2 * i;
  }

  /**
   No account uses a nonce twice exactly when the senders are different accounts, there is nothing
   to send, or the two nonce ranges do not meet. One account acting as both senders, in the same or
   in another spelling, starts both counters at its own transaction count and reuses every nonce.
   */
  lemma NonceReuse(batches: seq<seq<ProcessedAccount>>, p: Parties, fees: Fees, n1: nat, n2: nat)
    requires NumeralBatches(batches)
    ensures NoNonceReused(Transactions(batches, p, fees, n1, n2)) <==>
            (!SameAccount(p.initialAirdropSender, p.distributionSender) || batches == []
             || n1 + |batches| <= n2 || n2 + |batches| <= n1)
  {
    var txs, k := Transactions(batches, p, fees, n1, n2), |batches|;
    TransactionsNumbered(batches, p, fees, n1, n2);
    if SameAccount(p.initialAirdropSender, p.distributionSender) && k > 0 && n2 < n1 + k && n1 < n2 + k {
      NumberedAlike(txs, p, n1, n2, k);
    } else if k > 0 {
      NumberedApart(txs, p, n1, n2, k);
    }
  }

  // --- Signing ----------------------------------------------------------------------------

  function GasCost(tx: ContractCall): nat
    requires IsNumeral(tx.gas, 10) && IsNumeral(tx.gasPrice, 10)
  {
    Parse(tx.gas, 10) * Parse(tx.gasPrice, 10)
  }

  predicate NumericGas(txs: seq<ContractCall>)
  {
    forall i :: 0 <= i < |txs| ==> IsNumeral(txs[i].gas, 10) && IsNumeral(txs[i].gasPrice, 10)
  }

  predicate FromInitial(tx: ContractCall, w1: string)
  {
    LowerCase(tx.from) == LowerCase(w1)
  }

  predicate FromEither(tx: ContractCall, w1: string, w2: string)
  {
    FromInitial(tx, w1) || LowerCase(tx.from) == LowerCase(w2)
  }

  /** The gas of the transactions routed to the initial-airdrop wallet, or of the other ones. */
  function RoutedGas(txs: seq<ContractCall>, w1: string, initial: bool): nat
    requires NumericGas(txs)
  {
    if txs == [] then 0
    else
      var k := |txs| - 1;
      RoutedGas(txs[..k], w1, initial) + if FromInitial(txs[k], w1) == initial then GasCost(txs[k]) else 0
  }

  datatype SignResult =
    | NeitherSigner(index: nat)
    | Signed(raw: seq<string>, gasInitialAirdrop: nat, gasDistribution: nat)

  /** Signed by the wallet whose address the sender spells; the first wallet goes first. */
  ghost predicate SignedOne(tx: ContractCall, raw: string, w1: string, w2: string,
                            sign: (string, ContractCall) -> string)
  {
    if LowerCase(tx.from) == LowerCase(w1) then raw == sign(w1, tx)
    else LowerCase(tx.from) == LowerCase(w2) && raw == sign(w2, tx)
  }

  /** Every transaction comes from a signer and is signed, in order, by the wallet its sender names. */
  ghost predicate SignedBy(txs: seq<ContractCall>, raw: seq<string>, w1: string, w2: string,
                           sign: (string, ContractCall) -> string)
  {
    |raw| == |txs| && forall i :: 0 <= i < |txs| ==> SignedOne(txs[i], raw[i], w1, w2, sign)
  }

  lemma SignedByStep(txs: seq<ContractCall>, i: nat, raw: seq<string>, signedTx: string, w1: string, w2: string,
                     sign: (string, ContractCall) -> string)
    requires i < |txs| && SignedBy(txs[..i], raw, w1, w2, sign) && SignedOne(txs[i], signedTx, w1, w2, sign)
    ensures SignedBy(txs[..i + 1], raw + [signedTx], w1, w2, sign)
  {
  }

  /** `sign` stands for the wallets' signature function. */
  method SignAirdropTransactions(txs: seq<ContractCall>, initialWallet: string, distributionWallet: string,
                                 sign: (string, ContractCall) -> string) returns (r: SignResult)
    requires NumericGas(txs)
    ensures r.NeitherSigner? ==>
              && r.index < |txs| && !FromEither(txs[r.index], initialWallet, distributionWallet)
              && forall i :: 0 <= i < r.index ==> FromEither(txs[i], initialWallet, distributionWallet)
    ensures r.Signed? ==>
              && SignedBy(txs, r.raw, initialWallet, distributionWallet, sign)
              && r.gasInitialAirdrop == RoutedGas(txs, initialWallet, true)
              && r.gasDistribution == RoutedGas(txs, initialWallet, false)
  {
    var signed: seq<string> := [];
    var gasInitialAirdrop: nat, gasDistribution: nat := 0, 0;
    for i: nat := 0 to |txs|
      invariant SignedBy(txs[..i], signed, initialWallet, distributionWallet, sign)
      invariant gasInitialAirdrop == RoutedGas(txs[..i], initialWallet, true)
      invariant gasDistribution == RoutedGas(txs[..i], initialWallet, false)
    {
      var ok, signedTx, gas1, gas2 :=
        SignOne(txs[i], initialWallet, distributionWallet, sign, gasInitialAirdrop, gasDistribution);
      if !ok {
        forall j | 0 <= j < i ensures FromEither(txs[j], initialWallet, distributionWallet) {
          assert SignedOne(txs[..i][j], signed[j], initialWallet, distributionWallet, sign);
        }
        return NeitherSigner(i);
      }
      SignedByStep(txs, i, signed, signedTx, initialWallet, distributionWallet, sign);
      RoutedGasStep(txs, i, initialWallet);
      signed, gasInitialAirdrop, gasDistribution := signed + [signedTx], gas1, gas2;
    }
    assert txs[..|txs|] == txs;
    r := Signed(signed, gasInitialAirdrop, gasDistribution);
  }

  lemma RoutedGasStep(txs: seq<ContractCall>, i: nat, w1: string)
    requires NumericGas(txs) && i < |txs|
    ensures RoutedGas(txs[..i + 1], w1, true)
         == RoutedGas(txs[..i], w1, true) + if FromInitial(txs[i], w1) then GasCost(txs[i]) else 0
    ensures RoutedGas(txs[..i + 1], w1, false)
         == RoutedGas(txs[..i], w1, false) + if FromInitial(txs[i], w1) then 0 else GasCost(txs[i])
  {
    assert txs[..i + 1][..i] == txs[..i];
  }

  /** The body of the signing loop: the sender decides the wallet and the gas total. */
  method SignOne(tx: ContractCall, initialWallet: string, distributionWallet: string,
                 sign: (string, ContractCall) -> string, gas1_0: nat, gas2_0: nat)
      returns (ok: bool, signedTx: string, gas1: nat, gas2: nat)
    requires IsNumeral(tx.gas, 10) && IsNumeral(tx.gasPrice, 10)
    ensures ok <==> FromEither(tx, initialWallet, distributionWallet)
    ensures ok ==> SignedOne(tx, signedTx, initialWallet, distributionWallet, sign)
    ensures ok ==> gas1 == gas1_0 + if FromInitial(tx, initialWallet) then GasCost(tx) else 0
    ensures ok ==> gas2 == gas2_0 + if FromInitial(tx, initialWallet) then 0 else GasCost(tx)
  {
    ok, signedTx, gas1, gas2 := true, "", gas1_0, gas2_0;
    var tempGas := Parse(tx.gas, 10);
    if LowerCase(tx.from) == LowerCase(initialWallet) {
      signedTx := sign(initialWallet, tx);
      gas1 := gas1 + tempGas * Parse(tx.gasPrice, 10);
    } else if LowerCase(tx.from) == LowerCase(distributionWallet) {
      signedTx := sign(distributionWallet, tx);
      gas2 := gas2 + tempGas * Parse(tx.gasPrice, 10);
    } else {
      ok := false;
    }
  }

  lemma RoutedGasOfTwo(txs: seq<ContractCall>, a: ContractCall, b: ContractCall, w1: string, initial: bool)
    requires NumericGas(txs) && NumericGas([a]) && NumericGas([b])
    requires IsNumeral(a.gas, 10) && IsNumeral(a.gasPrice, 10) && IsNumeral(b.gas, 10) && IsNumeral(b.gasPrice, 10)
    ensures NumericGas(txs + [a] + [b])
    ensures RoutedGas(txs + [a] + [b], w1, initial)
         == RoutedGas(txs, w1, initial) + (if FromInitial(a, w1) == initial then GasCost(a) else 0)
            + (if FromInitial(b, w1) == initial then GasCost(b) else 0)
  {
  }

  lemma GasScale(n: nat, g: nat)
    ensures (n + 2) * g == n * g + g + g
  {
  }

  lemma PairGas(batch: seq<ProcessedAccount>, p: Parties, fees: Fees, m1: nat, m2: nat, txs: seq<ContractCall>,
                w1: string, initial: bool)
    requires NumeralBalances(batch, 10) && NumericFees(fees) && NumericGas(txs)
    ensures var a, b := AirdropTx(batch, p, fees, m1), DistributionTx(batch, p, fees, m2);
            && NumericGas(txs + [a] + [b])
            && RoutedGas(txs + [a] + [b], w1, initial)
               == RoutedGas(txs, w1, initial)
                  + (if FromInitial(a, w1) == initial then GasPerTransaction(fees) else 0)
                  + (if FromInitial(b, w1) == initial then GasPerTransaction(fees) else 0)
  {
    RoutedGasOfTwo(txs, AirdropTx(batch, p, fees, m1), DistributionTx(batch, p, fees, m2), w1, initial);
  }

  /** Both gas totals of the signer together. */
  function SignerGas(txs: seq<ContractCall>, w1: string): nat
    requires NumericGas(txs)
  {
    RoutedGas(txs, w1, true) + RoutedGas(txs, w1, false)
  }

  lemma PairGasTotal(batch: seq<ProcessedAccount>, p: Parties, fees: Fees, m1: nat, m2: nat, txs: seq<ContractCall>,
                     w1: string)
    requires NumeralBalances(batch, 10) && NumericFees(fees) && NumericGas(txs)
    ensures var more := txs + [AirdropTx(batch, p, fees, m1)] + [DistributionTx(batch, p, fees, m2)];
            NumericGas(more)
            && SignerGas(more, w1) == SignerGas(txs, w1) + GasPerTransaction(fees) + GasPerTransaction(fees)
  {
    PairGas(batch, p, fees, m1, m2, txs, w1, true);
    PairGas(batch, p, fees, m1, m2, txs, w1, false);
  }

  /** The two gas totals of the signer add up to the gas total announced at creation. */
  lemma {:induction false} SignerTotalsAgree(batches: seq<seq<ProcessedAccount>>, p: Parties, fees: Fees,
                                             n1: nat, n2: nat, w1: string)
    requires NumeralBatches(batches) && NumericFees(fees)
    ensures var txs := Transactions(batches, p, fees, n1, n2);
            NumericGas(txs) && SignerGas(txs, w1) == |txs| * GasPerTransaction(fees)
  {
    if batches != [] {
      var k := |batches| - 1;
      var txs := Transactions(batches[..k], p, fees, n1, n2);
      SignerTotalsAgree(batches[..k], p, fees, n1, n2, w1);
      PairGasTotal(batches[k], p, fees, n1 + k, n2 + k, txs, w1);
      GasScale(|txs|, GasPerTransaction(fees));
    }
  }

  /** Every created transaction is sent by one of the two senders. */
  lemma AllFromSenders(batches: seq<seq<ProcessedAccount>>, p: Parties, fees: Fees, n1: nat, n2: nat, i: nat)
    requires NumeralBatches(batches) && i < 2 * |batches|
    ensures FromEither(Transactions(batches, p, fees, n1, n2)[i], p.initialAirdropSender, p.distributionSender)
  {
    TransactionsNumbered(batches, p, fees, n1, n2);
  }

  lemma PairGasSame(batch: seq<ProcessedAccount>, p: Parties, fees: Fees, m1: nat, m2: nat, txs: seq<ContractCall>,
                    w1: string)
    requires NumeralBalances(batch, 10) && NumericFees(fees) && NumericGas(txs)
    requires LowerCase(p.initialAirdropSender) == LowerCase(w1) != LowerCase(p.distributionSender)
    requires RoutedGas(txs, w1, true) == RoutedGas(txs, w1, false)
    ensures var more := txs + [AirdropTx(batch, p, fees, m1)] + [DistributionTx(batch, p, fees, m2)];
            NumericGas(more) && RoutedGas(more, w1, true) == RoutedGas(more, w1, false)
  {
    PairGas(batch, p, fees, m1, m2, txs, w1, true);
    PairGas(batch, p, fees, m1, m2, txs, w1, false);
  }

  /** Distinct signers pay the same gas, half of the announced total each. */
  lemma {:induction false} WalletsPayTheSame(batches: seq<seq<ProcessedAccount>>, p: Parties, fees: Fees,
                                             n1: nat, n2: nat, w1: string)
    requires NumeralBatches(batches) && NumericFees(fees)
    requires LowerCase(p.initialAirdropSender) == LowerCase(w1) != LowerCase(p.distributionSender)
    ensures var txs := Transactions(batches, p, fees, n1, n2);
            NumericGas(txs) && RoutedGas(txs, w1, true) == RoutedGas(txs, w1, false)
  {
    if batches != [] {
      var k := |batches| - 1;
      WalletsPayTheSame(batches[..k], p, fees, n1, n2, w1);
      PairGasSame(batches[k], p, fees, n1 + k, n2 + k, Transactions(batches[..k], p, fees, n1, n2), w1);
    }
  }
}
