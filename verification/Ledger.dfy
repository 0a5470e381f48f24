/**
 The per-address bookkeeping shared by both airdrops: credits are gathered in a dictionary keyed
 by address, addresses are listed in first-seen order, and a histogram counts how many addresses
 were credited how often.
 */
module Ledger {
  import opened Numerals
  import opened Sums

  datatype Credit = Credit(address: string, amount: nat)

  /** An entry of the address dictionary. */
  datatype Detail = Detail(balance: nat, num: nat)

  datatype ProcessedAccount = ProcessedAccount(nativeAddress: string, nativeBalance: string)

  // --- What the dictionary and the set of seen addresses hold -----------------------------

  function BalanceOf(cs: seq<Credit>, a: string): nat
  {
    if cs == [] then 0
    else
      var c := cs[|cs| - 1];
      BalanceOf(cs[..|cs| - 1], a) + if c.address == a then c.amount else 0
  }

  function TimesOf(cs: seq<Credit>, a: string): nat
  {
    if cs == [] then 0
    else TimesOf(cs[..|cs| - 1], a) + if cs[|cs| - 1].address == a then 1 else 0
  }

  function TotalOf(cs: seq<Credit>): nat
  {
    if cs == [] then 0 else TotalOf(cs[..|cs| - 1]) + cs[|cs| - 1].amount
  }

  /** The credited addresses, each once, in the order of their first credit. */
  function FirstSeen(cs: seq<Credit>): seq<string>
  {
    if cs == [] then []
    else
      var f, a := FirstSeen(cs[..|cs| - 1]), cs[|cs| - 1].address;
      if a in f then f else f + [a]
  }

  ghost predicate Records(cs: seq<Credit>, seen: seq<string>, detail: map<string, Detail>)
  {
    && seen == FirstSeen(cs)
    && (forall a :: a in detail <==> a in seen)
    && (forall a :: a in detail ==> detail[a] == Detail(BalanceOf(cs, a), TimesOf(cs, a)))
  }

  /** The dictionary update of one credit, as both conversion loops perform it. */
  function Record(seen: seq<string>, detail: map<string, Detail>, c: Credit): (seq<string>, map<string, Detail>)
    requires c.address in seen ==> c.address in detail
  {
    if c.address in seen then
      var d := detail[c.address];
      (seen, detail[c.address := Detail(d.balance + c.amount, d.num + 1)])
    else
      (seen + [c.address], detail[c.address := Detail(c.amount, 1)])
  }

  /** The if/else of the conversion loops on the set of seen addresses and the dictionary. */
  method AddCredit(seen0: seq<string>, detail0: map<string, Detail>, c: Credit)
      returns (seen: seq<string>, detail: map<string, Detail>)
    requires c.address in seen0 ==> c.address in detail0
    ensures seen == Record(seen0, detail0, c).0 && detail == Record(seen0, detail0, c).1
  {
    seen, detail := seen0, detail0;
    if c.address in seen {
      detail := detail[c.address := detail[c.address].(balance := detail[c.address].balance + c.amount)];
      detail := detail[c.address := detail[c.address].(num := detail[c.address].num + 1)];
    } else {
      seen := seen + [c.address];
      detail := detail[c.address := Detail(c.amount, 1)];
    }
  }

  lemma RecordKeepsRecords(cs: seq<Credit>, seen: seq<string>, detail: map<string, Detail>, c: Credit)
    requires Records(cs, seen, detail)
    ensures var (seen', detail') := Record(seen, detail, c); Records(cs + [c], seen', detail')
  {
    var cs' := cs + [c];
    assert cs'[..|cs|] == cs;
    if c.address !in seen {
      UnseenHasNothing(cs, c.address);
    }
  }

  lemma TotalStep(cs: seq<Credit>, c: Credit)
    ensures TotalOf(cs + [c]) == TotalOf(cs) + c.amount
  {
    assert (cs + [c])[..|cs|] == cs;
  }

  lemma {:induction false} UnseenHasNothing(cs: seq<Credit>, a: string)
    ensures a !in FirstSeen(cs) <==> TimesOf(cs, a) == 0
    ensures TimesOf(cs, a) == 0 ==> BalanceOf(cs, a) == 0
  {
    if cs != [] {
      UnseenHasNothing(cs[..|cs| - 1], a);
    }
  }

  lemma {:induction false} FirstSeenDistinct(cs: seq<Credit>)
    ensures Distinct(FirstSeen(cs))
  {
    if cs != [] {
      FirstSeenDistinct(cs[..|cs| - 1]);
    }
  }

  // --- First-seen order -------------------------------------------------------------------

  /** The index of the first credit of an address, or the number of credits if it has none. */
  function FirstAt(cs: seq<Credit>, a: string): (k: nat)
    ensures k <= |cs|
    ensures k < |cs| ==> cs[k].address == a
    ensures forall j :: 0 <= j < k ==> cs[j].address != a
  {
    if cs == [] || cs[0].address == a then 0 else 1 + FirstAt(cs[1..], a)
  }

  lemma FirstAtFront(cs: seq<Credit>, a: string)
    requires cs != []
    ensures FirstAt(cs[..|cs| - 1], a) < |cs| - 1 ==> FirstAt(cs, a) == FirstAt(cs[..|cs| - 1], a)
    ensures FirstAt(cs[..|cs| - 1], a) == |cs| - 1 && cs[|cs| - 1].address == a ==> FirstAt(cs, a) == |cs| - 1
  {
    var k, k' := FirstAt(cs, a), FirstAt(cs[..|cs| - 1], a);
    if k' < |cs| - 1 {
      assert cs[..|cs| - 1][k'] == cs[k'];
    }
    assert forall j :: 0 <= j < k' ==> cs[..|cs| - 1][j] == cs[j];
  }

  /** The listed addresses are exactly the credited ones, ordered by their first credit. */
  lemma {:induction false} FirstSeenIsInOrder(cs: seq<Credit>)
    ensures forall i :: 0 <= i < |FirstSeen(cs)| ==> FirstAt(cs, FirstSeen(cs)[i]) < |cs|
    ensures forall i, j :: 0 <= i < j < |FirstSeen(cs)| ==>
              FirstAt(cs, FirstSeen(cs)[i]) < FirstAt(cs, FirstSeen(cs)[j])
    ensures forall a :: FirstAt(cs, a) < |cs| ==> a in FirstSeen(cs)
  {
    if cs != [] {
      var front := cs[..|cs| - 1];
      FirstSeenIsInOrder(front);
      forall a ensures FirstAt(front, a) < |front| ==> FirstAt(cs, a) == FirstAt(front, a)
      ensures FirstAt(front, a) == |front| && cs[|cs| - 1].address == a ==> FirstAt(cs, a) == |front|
      {
        FirstAtFront(cs, a);
      }
      forall a | FirstAt(cs, a) < |cs| ensures a in FirstSeen(cs) {
        CreditedIsNewOrOld(cs, a);
      }
    }
  }

  lemma CreditedIsNewOrOld(cs: seq<Credit>, a: string)
    requires cs != [] && FirstAt(cs, a) < |cs|
    ensures FirstAt(cs[..|cs| - 1], a) < |cs| - 1 || cs[|cs| - 1].address == a
  {
    var front := cs[..|cs| - 1];
    if FirstAt(front, a) == |front| {
      assert forall j :: 0 <= j < |front| ==> front[j] == cs[j];
    }
  }

  // --- Conservation -----------------------------------------------------------------------

  function Balances(order: seq<string>, cs: seq<Credit>): seq<int>
  {
    seq(|order|, i requires 0 <= i < |order| => BalanceOf(cs, order[i]))
  }

  function Times(order: seq<string>, cs: seq<Credit>): seq<nat>
  {
    seq(|order|, i requires 0 <= i < |order| => TimesOf(cs, order[i]))
  }

  /** No wei is lost or doubled by gathering credits per address. */
  lemma {:induction false} BalancesConserveTotal(cs: seq<Credit>)
    ensures Sum(Balances(FirstSeen(cs), cs)) == TotalOf(cs)
  {
    if cs != [] {
      var front, c := cs[..|cs| - 1], cs[|cs| - 1];
      var f := FirstSeen(front);
      BalancesConserveTotal(front);
      FirstSeenDistinct(front);
      if c.address in f {
        var i :| 0 <= i < |f| && f[i] == c.address;
        assert Balances(f, cs) == Balances(f, front)[i := BalanceOf(front, c.address) + c.amount];
        SumUpdate(Balances(f, front), i, BalanceOf(front, c.address) + c.amount);
      } else {
        UnseenHasNothing(front, c.address);
        assert Balances(f + [c.address], cs) == Balances(f, front) + [c.amount];
        SumAppend(Balances(f, front), c.amount);
      }
    }
  }

  /** The multiplicities add up to the number of credits. */
  lemma {:induction false} TimesConserveCount(cs: seq<Credit>)
    ensures Sum(Times(FirstSeen(cs), cs)) == |cs|
  {
    if cs != [] {
      var front, c := cs[..|cs| - 1], cs[|cs| - 1];
      var f := FirstSeen(front);
      TimesConserveCount(front);
      FirstSeenDistinct(front);
      if c.address in f {
        var i :| 0 <= i < |f| && f[i] == c.address;
        assert Times(f, cs) == Times(f, front)[i := TimesOf(front, c.address) + 1];
        SumUpdate(Times(f, front), i, TimesOf(front, c.address) + 1);
      } else {
        UnseenHasNothing(front, c.address);
        assert Times(f + [c.address], cs) == Times(f, front) + [1];
        SumAppend(Times(f, front), 1);
      }
    }
  }

  // --- The histogram of multiplicities ----------------------------------------------------

  function Zeros(n: nat): seq<nat>
  {
    seq(n, i => 0)
  }

  /** `array[k] = v` on a JavaScript array: holes read as falsy, like 0. */
  function AssignAt(dist: seq<nat>, k: nat, v: nat): seq<nat>
  {
    if k < |dist| then dist[k := v] else dist + Zeros(k - |dist|) + [v]
  }

  function ReadAt(dist: seq<nat>, k: nat): nat
  {
    if k < |dist| then dist[k] else 0
  }

  function DistributionOf(counts: seq<nat>): seq<nat>
  {
    if counts == [] then []
    else
      var d, k := DistributionOf(counts[..|counts| - 1]), counts[|counts| - 1];
      AssignAt(d, k, ReadAt(d, k) + 1)
  }

  function Occurrences(counts: seq<nat>, k: nat): nat
  {
    if counts == [] then 0
    else Occurrences(counts[..|counts| - 1], k) + if counts[|counts| - 1] == k then 1 else 0
  }

  /** The sum of k * dist[k]. */
  function Weighted(dist: seq<nat>): nat
  {
    if dist == [] then 0 else Weighted(dist[..|dist| - 1]) + (|dist| - 1) * dist[|dist| - 1]
  }

  lemma {:induction false} WeightedUpdate(dist: seq<nat>, k: nat, v: nat)
    requires k < |dist|
    ensures Weighted(dist[k := v]) == Weighted(dist) - k * dist[k] + k * v
  {
    var n := |dist| - 1;
    if k == n {
      assert dist[k := v][..n] == dist[..n];
    } else {
      WeightedUpdate(dist[..n], k, v);
      assert dist[k := v][..n] == dist[..n][k := v];
    }
  }

  lemma AppendValue(dist: seq<nat>, v: nat)
    ensures Sum(dist + [v]) == Sum(dist) + v
    ensures Weighted(dist + [v]) == Weighted(dist) + |dist| * v
  {
    SumAppend(dist, v);
    assert (dist + [v])[..|dist|] == dist;
  }

  lemma TimesZero(k: nat)
    ensures k * 0 == 0
  {
  }

  lemma {:induction false} PadWithZeros(dist: seq<nat>, n: nat)
    ensures Weighted(dist + Zeros(n)) == Weighted(dist)
    ensures Sum(dist + Zeros(n)) == Sum(dist)
  {
    if n == 0 {
      assert dist + Zeros(n) == dist;
    } else {
      var shorter := dist + Zeros(n - 1);
      PadWithZeros(dist, n - 1);
      AppendValue(shorter, 0);
      TimesZero(|shorter|);
      assert dist + Zeros(n) == shorter + [0];
    }
  }

  lemma BumpProduct(k: nat, n: nat)
    ensures k * (n + 1) == k * n + k
  {
  }

  /** A multiplicity inside the array: its counter grows. */
  lemma BumpInside(dist: seq<nat>, k: nat)
    requires k < |dist|
    ensures var d := AssignAt(dist, k, dist[k] + 1);
            Sum(d) == Sum(dist) + 1 && Weighted(d) == Weighted(dist) + k
  {
    SumUpdate(dist, k, dist[k] + 1);
    WeightedUpdate(dist, k, dist[k] + 1);
    BumpProduct(k, dist[k]);
  }

  lemma BumpTotals(dist: seq<nat>, k: nat)
    ensures var d := AssignAt(dist, k, ReadAt(dist, k) + 1);
            Sum(d) == Sum(dist) + 1 && Weighted(d) == Weighted(dist) + k
  {
    if k < |dist| {
      BumpInside(dist, k);
    } else {
      PadWithZeros(dist, k - |dist|);
      AppendValue(dist + Zeros(k - |dist|), 1);
    }
  }

  /** The histogram counts every address once and every credit once. */
  lemma {:induction false} DistributionTotals(counts: seq<nat>)
    ensures Sum(DistributionOf(counts)) == |counts|
    ensures Weighted(DistributionOf(counts)) == Sum(counts)
  {
    if counts != [] {
      var front, k := counts[..|counts| - 1], counts[|counts| - 1];
      var d := DistributionOf(front);
      DistributionTotals(front);
      BumpTotals(d, k);
      assert DistributionOf(counts) == AssignAt(d, k, ReadAt(d, k) + 1);
      assert Sum(counts) == Sum(front) + k;
    }
  }

  /** Entry k is the number of addresses credited k times; the array ends at the largest such k. */
  lemma {:induction false} DistributionMeaning(counts: seq<nat>, k: nat)
    ensures ReadAt(DistributionOf(counts), k) == Occurrences(counts, k)
    ensures DistributionOf(counts) != [] ==> DistributionOf(counts)[|DistributionOf(counts)| - 1] > 0
  {
    if counts != [] {
      DistributionMeaning(counts[..|counts| - 1], k);
    }
  }

  // --- The account list -------------------------------------------------------------------

  /** The processed accounts: one per address in first-seen order, the balance printed. */
  function Accounts(cs: seq<Credit>, radix: nat): seq<ProcessedAccount>
    requires 2 <= radix <= 16
  {
    var order := FirstSeen(cs);
    seq(|order|, i requires 0 <= i < |order| =>
      ProcessedAccount(order[i], ToBase(BalanceOf(cs, order[i]), radix)))
  }

  function Distribution(cs: seq<Credit>): seq<nat>
  {
    DistributionOf(Times(FirstSeen(cs), cs))
  }

  /** The loop over the seen addresses that fills `processedAccounts` and `accountsDistribution`. */
  method ListAccounts(seen: seq<string>, detail: map<string, Detail>, radix: nat, ghost cs: seq<Credit>)
      returns (processedAccounts: seq<ProcessedAccount>, accountsDistribution: seq<nat>)
    requires 2 <= radix <= 16 && Records(cs, seen, detail)
    ensures processedAccounts == Accounts(cs, radix)
    ensures accountsDistribution == Distribution(cs)
  {
    processedAccounts, accountsDistribution := [], [];
    ghost var counts := Times(seen, cs);
    for i := 0 to |seen|
      invariant processedAccounts == Accounts(cs, radix)[..i]
      invariant accountsDistribution == DistributionOf(counts[..i])
    {
      var flrAdd := seen[i];
      ListedStep(seen, detail, radix, cs, i);
      processedAccounts := processedAccounts + [ProcessedAccount(flrAdd, ToBase(detail[flrAdd].balance, radix))];
      accountsDistribution := CountOne(accountsDistribution, detail[flrAdd].num);
    }
    assert counts[..|seen|] == counts;
    assert Accounts(cs, radix)[..|seen|] == Accounts(cs, radix);
  }

  lemma ListedStep(seen: seq<string>, detail: map<string, Detail>, radix: nat, cs: seq<Credit>, i: nat)
    requires 2 <= radix <= 16 && Records(cs, seen, detail) && i < |seen|
    ensures seen[i] in detail
    ensures Accounts(cs, radix)[..i + 1]
         == Accounts(cs, radix)[..i] + [ProcessedAccount(seen[i], ToBase(detail[seen[i]].balance, radix))]
    ensures var d := DistributionOf(Times(seen, cs)[..i]);
            DistributionOf(Times(seen, cs)[..i + 1])
            == AssignAt(d, detail[seen[i]].num, ReadAt(d, detail[seen[i]].num) + 1)
  {
    DistributionStep(Times(seen, cs), i);
  }

  lemma DistributionStep(counts: seq<nat>, i: nat)
    requires i < |counts|
    ensures var d := DistributionOf(counts[..i]);
            DistributionOf(counts[..i + 1]) == AssignAt(d, counts[i], ReadAt(d, counts[i]) + 1)
  {
    assert counts[..i + 1][..i] == counts[..i];
  }

  /** One more address of this multiplicity. */
  method CountOne(dist0: seq<nat>, num: nat) returns (dist: seq<nat>)
    ensures dist == AssignAt(dist0, num, ReadAt(dist0, num) + 1)
  {
    if num < |dist0| && dist0[num] != 0 {
      dist := dist0[num := dist0[num] + 1];
    } else {
      dist := AssignAt(dist0, num, 1);
    }
  }

  // --- Reading the account list back ------------------------------------------------------

  predicate NumeralBalances(accounts: seq<ProcessedAccount>, radix: nat)
    requires 2 <= radix <= 16
  {
    forall i :: 0 <= i < |accounts| ==> IsNumeral(accounts[i].nativeBalance, radix)
  }

  function ReadBalances(accounts: seq<ProcessedAccount>, radix: nat): seq<int>
    requires 2 <= radix <= 16 && NumeralBalances(accounts, radix)
  {
    seq(|accounts|, i requires 0 <= i < |accounts| => Parse(accounts[i].nativeBalance, radix))
  }

  function Addresses(accounts: seq<ProcessedAccount>): seq<string>
  {
    seq(|accounts|, i requires 0 <= i < |accounts| => accounts[i].nativeAddress)
  }

  /** Reading the printed balances gives every address its credits, and the total back. */
  lemma AccountsCarryTheCredits(cs: seq<Credit>, radix: nat)
    requires 2 <= radix <= 16
    ensures NumeralBalances(Accounts(cs, radix), radix)
    ensures Addresses(Accounts(cs, radix)) == FirstSeen(cs) && Distinct(FirstSeen(cs))
    ensures ReadBalances(Accounts(cs, radix), radix) == Balances(FirstSeen(cs), cs)
    ensures Sum(ReadBalances(Accounts(cs, radix), radix)) == TotalOf(cs)
  {
    var order := FirstSeen(cs);
    forall i | 0 <= i < |order|
      ensures IsNumeral(Accounts(cs, radix)[i].nativeBalance, radix)
      ensures Parse(Accounts(cs, radix)[i].nativeBalance, radix) == BalanceOf(cs, order[i])
    {
      ParsePrinted(BalanceOf(cs, order[i]), radix);
    }
    FirstSeenDistinct(cs);
    BalancesConserveTotal(cs);
  }

  /** Histogram of histogram: its entries count the addresses, weighted they count the credits. */
  lemma DistributionCounts(cs: seq<Credit>)
    ensures Sum(Distribution(cs)) == |FirstSeen(cs)|
    ensures Weighted(Distribution(cs)) == |cs|
  {
    DistributionTotals(Times(FirstSeen(cs), cs));
    TimesConserveCount(cs);
  }

  // --- Accounts behind the addresses ------------------------------------------------------

  /** The account an address names: neither its letter case nor the prefix "0x" matters. */
  function AccountOf(address: string): string
  {
    var lower := LowerCase(address);
    if |lower| >= 2 && lower[..2] == "0x" then lower[2..] else lower
  }

  predicate SameAccount(a: string, b: string)
  {
    AccountOf(a) == AccountOf(b)
  }

  lemma DigitsHaveNoPrefix(s: string)
    requires AllDigits(s, 16)
    ensures |s| >= 2 ==> s[..2] != "0x"
  {
    if |s| >= 2 {
      assert IsDigit(s[1], 16) && s[..2][1] == s[1];
    }
  }

  lemma AccountDigits(h: string, prefix: string)
    requires IsHexText(h) && prefix in {"", "0x", "0X"}
    ensures AccountOf(prefix + h) == LowerCase(h)
  {
    LowerCaseReads(h);
    var lower := LowerCase(prefix + h);
    if prefix == "" {
      assert prefix + h == h;
      DigitsHaveNoPrefix(lower);
    } else {
      assert lower[..2] == "0x" && lower[2..] == LowerCase(h);
    }
  }

  /** Two addresses of one length name the same account exactly when their digits write the same number. */
  lemma SameAccountIff(h: string, k: string, prefix: string, prefix': string)
    requires IsHexText(h) && IsHexText(k) && |h| == |k|
    requires prefix in {"", "0x", "0X"} && prefix' in {"", "0x", "0X"}
    ensures SameAccount(prefix + h, prefix' + k) <==> HexNumber(h) == HexNumber(k)
  {
    AccountDigits(h, prefix);
    AccountDigits(k, prefix');
    LowerCaseReads(h);
    LowerCaseReads(k);
    if HexNumber(h) == HexNumber(k) {
      SameLengthSameText(LowerCase(h), LowerCase(k), 16);
    }
  }

  /** No two entries of a list name the same account. */
  ghost predicate DistinctAccounts(addresses: seq<string>, account: string -> string)
  {
    forall i, j :: 0 <= i < j < |addresses| ==> account(addresses[i]) != account(addresses[j])
  }

  /** Wherever the credits name one account twice, they spell it alike. */
  ghost predicate SpelledAlike(addresses: seq<string>, account: string -> string)
  {
    forall i, j :: 0 <= i < |addresses| && 0 <= j < |addresses| && account(addresses[i]) == account(addresses[j]) ==>
      addresses[i] == addresses[j]
  }

  function CreditedAddresses(cs: seq<Credit>): seq<string>
  {
    seq(|cs|, i requires 0 <= i < |cs| => cs[i].address)
  }

  lemma CreditedIffSeen(cs: seq<Credit>, a: string)
    ensures a in CreditedAddresses(cs) <==> a in FirstSeen(cs)
  {
    FirstSeenIsInOrder(cs);
    if a in CreditedAddresses(cs) {
      var k :| 0 <= k < |cs| && CreditedAddresses(cs)[k] == a;
      assert cs[k].address == a;
      assert FirstAt(cs, a) < |cs|;
    }
    if a in FirstSeen(cs) {
      var i :| 0 <= i < |FirstSeen(cs)| && FirstSeen(cs)[i] == a;
      assert CreditedAddresses(cs)[FirstAt(cs, a)] == a;
    }
  }

  lemma AlikeMeansOnce(order: seq<string>, credited: seq<string>, account: string -> string, i: nat, j: nat)
    requires SpelledAlike(credited, account) && Distinct(order)
    requires i < j < |order| && order[i] in credited && order[j] in credited
    ensures account(order[i]) != account(order[j])
  {
    var k :| 0 <= k < |credited| && credited[k] == order[i];
    var l :| 0 <= l < |credited| && credited[l] == order[j];
    assert credited[k] != credited[l];
  }

  lemma OnceMeansAlike(order: seq<string>, account: string -> string, a: string, b: string)
    requires DistinctAccounts(order, account) && a in order && b in order && account(a) == account(b)
    ensures a == b
  {
    var i :| 0 <= i < |order| && order[i] == a;
    var j :| 0 <= j < |order| && order[j] == b;
    assert !(i < j) && !(j < i);
  }

  /**
   The scripts tell addresses apart as texts. Whatever account each text names, every account is
   listed once exactly when the credits spell it alike throughout.
   */
  lemma AccountsListedOnceIff(cs: seq<Credit>, account: string -> string)
    ensures DistinctAccounts(FirstSeen(cs), account) <==> SpelledAlike(CreditedAddresses(cs), account)
  {
    var order, credited := FirstSeen(cs), CreditedAddresses(cs);
    forall a ensures a in credited <==> a in order {
      CreditedIffSeen(cs, a);
    }
    if SpelledAlike(credited, account) {
      FirstSeenDistinct(cs);
      forall i, j | 0 <= i < j < |order| ensures account(order[i]) != account(order[j]) {
        AlikeMeansOnce(order, credited, account, i, j);
      }
    }
    if DistinctAccounts(order, account) {
      forall k, l | 0 <= k < |credited| && 0 <= l < |credited| && account(credited[k]) == account(credited[l])
        ensures credited[k] == credited[l]
      {
        OnceMeansAlike(order, account, credited[k], credited[l]);
      }
    }
  }

  // --- The result of a conversion ---------------------------------------------------------

  datatype AirdropGenesisRes = AirdropGenesisRes(
    processedAccounts: seq<ProcessedAccount>,
    processedAccountsLen: nat,
    processedWei: nat,
    accountsDistribution: seq<nat>)

  /** What a conversion returns that made the given credits and prints balances in this radix. */
  function GenesisData(cs: seq<Credit>, radix: nat): AirdropGenesisRes
    requires 2 <= radix <= 16
  {
    AirdropGenesisRes(Accounts(cs, radix), |cs|, TotalOf(cs), Distribution(cs))
  }
}
