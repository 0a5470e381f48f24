/**
 Joining the genesis accounts into the chain genesis: the alloc dictionary and its entries are
 changed in place, serialized for production, changed again and serialized for staging.
 */
module AllocMerge {
  import opened Wrappers

  /** One allocation as it is serialized; most have no code. */
  datatype EntryData = EntryData(balance: string, code: Option<string>)

  /** What `JSON.stringify` writes: a value that later changes cannot reach. */
  datatype Snapshot = Snapshot(alloc: map<string, EntryData>, chainId: int)

  datatype Allocation = Allocation(address: string, balance: string)

  class AllocEntry {
    var balance: string
    var code: Option<string>

    constructor (balance: string)
      ensures this.balance == balance && code == None
    {
      this.balance, code := balance, None;
    }
  }

  // --- Merging, on values -----------------------------------------------------------------

  function Put(alloc: map<string, EntryData>, a: Allocation): map<string, EntryData>
  {
    alloc[a.address := EntryData(a.balance, if a.address in alloc then alloc[a.address].code else None)]
  }

  function Merge(alloc: map<string, EntryData>, accounts: seq<Allocation>): map<string, EntryData>
  {
    if accounts == [] then alloc
    else Put(Merge(alloc, accounts[..|accounts| - 1]), accounts[|accounts| - 1])
  }

  function Listed(accounts: seq<Allocation>): set<string>
  {
    set i | 0 <= i < |accounts| :: accounts[i].address
  }

  // --- The genesis object -----------------------------------------------------------------

  class ChainGenesis {
    var alloc: map<string, AllocEntry>
    var chainId: int

    ghost predicate Valid()
      reads this`alloc
    {
      forall a, b :: a in alloc && b in alloc && a != b ==> alloc[a] != alloc[b]
    }

    ghost function Entries(): set<AllocEntry>
      reads this`alloc
    {
      set a | a in alloc :: alloc[a]
    }

    function Contents(): map<string, EntryData>
      reads this`alloc, Entries()
    {
      map a | a in alloc :: EntryData(alloc[a].balance, alloc[a].code)
    }

    /** One round of a merge loop. */
    method SetBalance(address: string, balance: string)
      requires Valid()
      modifies this`alloc, Entries()
      ensures Valid() && Contents() == Put(old(Contents()), Allocation(address, balance))
      ensures fresh(Entries() - old(Entries()))
    {
      if address in alloc {
        var entry := alloc[address];
        assert entry in Entries();
        entry.balance := balance;
      } else {
        var entry := new AllocEntry(balance);
        alloc := alloc[address := entry];
      }
      assert Contents() == Put(old(Contents()), Allocation(address, balance));
    }

    /** A merge loop; a later account of the same address overwrites an earlier one. */
    method MergeAccounts(accounts: seq<Allocation>)
      requires Valid()
      modifies this`alloc, Entries()
      ensures Valid() && Contents() == Merge(old(Contents()), accounts)
      ensures fresh(Entries() - old(Entries()))
    {
      for i := 0 to |accounts|
        invariant Valid() && Contents() == Merge(old(Contents()), accounts[..i])
        invariant fresh(Entries() - old(Entries()))
      {
        assert accounts[..i + 1][..i] == accounts[..i];
        SetBalance(accounts[i].address, accounts[i].balance);
      }
      assert accounts[..|accounts|] == accounts;
    }

    /** `alloc[address].code = code`, which throws on a missing entry. */
    method SetCode(address: string, code: string) returns (ok: bool)
      requires Valid()
      modifies Entries()
      ensures ok <==> address in alloc
      ensures !ok ==> Contents() == old(Contents())
      ensures ok ==> Contents() == old(Contents())[address := old(Contents())[address].(code := Some(code))]
    {
      ok := address in alloc;
      if ok {
        var entry := alloc[address];
        assert entry in Entries();
        entry.code := Some(code);
      }
    }

    method Serialize() returns (s: Snapshot)
      ensures s == Snapshot(Contents(), chainId)
    {
      s := Snapshot(Contents(), chainId);
    }
  }

  // --- Joining ----------------------------------------------------------------------------

  const STAGING_CHAIN_ID: int := 161

  /** The alloc with contract code written at the given addresses, one after the other. */
  function WithCodes(alloc: map<string, EntryData>, addresses: seq<string>, codes: seq<string>)
      : (coded: map<string, EntryData>)
    requires |addresses| == |codes|
    requires forall i :: 0 <= i < |addresses| ==> addresses[i] in alloc
    ensures coded.Keys == alloc.Keys
    ensures forall a :: a in alloc ==> coded[a].balance == alloc[a].balance
    ensures forall a :: a in alloc && a !in addresses ==> coded[a] == alloc[a]
  {
    if addresses == [] then alloc
    else
      var k := |addresses| - 1;
      var front := WithCodes(alloc, addresses[..k], codes[..k]);
      front[addresses[k] := front[addresses[k]].(code := Some(codes[k]))]
  }

  lemma WithCodesStep(alloc: map<string, EntryData>, addresses: seq<string>, codes: seq<string>, i: nat)
    requires i < |addresses| == |codes|
    requires forall k :: 0 <= k <= i ==> addresses[k] in alloc
    ensures var front := WithCodes(alloc, addresses[..i], codes[..i]);
            WithCodes(alloc, addresses[..i + 1], codes[..i + 1])
            == front[addresses[i] := front[addresses[i]].(code := Some(codes[i]))]
  {
    assert addresses[..i + 1][..i] == addresses[..i] && codes[..i + 1][..i] == codes[..i];
  }

  /** At distinct addresses every code ends up at its own entry. */
  lemma {:induction false} CodesAreInstalled(alloc: map<string, EntryData>, addresses: seq<string>, codes: seq<string>,
                                             i: nat)
    requires i < |addresses| == |codes| && forall k :: 0 <= k < |addresses| ==> addresses[k] in alloc
    requires forall j, k :: 0 <= j < k < |addresses| ==> addresses[j] != addresses[k]
    ensures WithCodes(alloc, addresses, codes)[addresses[i]].code == Some(codes[i])
  {
    var n := |addresses| - 1;
    if i < n {
      CodesAreInstalled(alloc, addresses[..n], codes[..n], i);
    }
  }

  /** The code assignments in sequence; the first missing entry makes the script stop. */
  method InstallCodes(g: ChainGenesis, addresses: seq<string>, codes: seq<string>) returns (ok: bool)
    requires g.Valid() && |addresses| == |codes|
    modifies g.Entries()
    ensures ok <==> forall i :: 0 <= i < |addresses| ==> addresses[i] in g.alloc
    ensures ok ==> g.Contents() == WithCodes(old(g.Contents()), addresses, codes)
  {
    for i := 0 to |addresses|
      invariant forall k :: 0 <= k < i ==> addresses[k] in g.alloc
      invariant g.Contents() == WithCodes(old(g.Contents()), addresses[..i], codes[..i])
    {
      ok := g.SetCode(addresses[i], codes[i]);
      if !ok {
        return false;
      }
      WithCodesStep(old(g.Contents()), addresses, codes, i);
    }
    assert addresses[..|addresses|] == addresses && codes[..|addresses|] == codes;
    ok := true;
  }

  method MergeAndSerialize(g: ChainGenesis, accounts: seq<Allocation>) returns (s: Snapshot)
    requires g.Valid()
    modifies g`alloc, g.Entries()
    ensures g.Valid() && fresh(g.Entries() - old(g.Entries()))
    ensures g.Contents() == Merge(old(g.Contents()), accounts)
    ensures s == Snapshot(g.Contents(), g.chainId)
  {
    g.MergeAccounts(accounts);
    s := g.Serialize();
  }

  /** Both serializations, the second after the test accounts and the staging chain id are in. */
  method SerializeBoth(g: ChainGenesis, accounts: seq<Allocation>, testAccounts: seq<Allocation>)
      returns (production: Snapshot, staging: Snapshot)
    requires g.Valid()
    modifies g, g.Entries()
    ensures production == Snapshot(Merge(old(g.Contents()), accounts), old(g.chainId))
    ensures staging == Snapshot(Merge(production.alloc, testAccounts), STAGING_CHAIN_ID)
  {
    production := MergeAndSerialize(g, accounts);
    g.MergeAccounts(testAccounts);
    g.chainId := STAGING_CHAIN_ID;
    staging := g.Serialize();
  }

  /** The production genesis: code first, then the accounts. */
  function Production(alloc: map<string, EntryData>, addresses: seq<string>, codes: seq<string>,
                      accounts: seq<Allocation>): map<string, EntryData>
    requires |addresses| == |codes| && forall i :: 0 <= i < |addresses| ==> addresses[i] in alloc
  {
    Merge(WithCodes(alloc, addresses, codes), accounts)
  }

  /** The staging genesis: the test accounts on top. */
  function Staging(alloc: map<string, EntryData>, addresses: seq<string>, codes: seq<string>,
                   accounts: seq<Allocation>, testAccounts: seq<Allocation>): map<string, EntryData>
    requires |addresses| == |codes| && forall i :: 0 <= i < |addresses| ==> addresses[i] in alloc
  {
    Merge(Production(alloc, addresses, codes, accounts), testAccounts)
  }

  /**
   The production genesis is serialized before the test accounts are merged into the same object,
   so it holds the listed accounts only; the staging genesis builds on it.
   */
  method JoinChainGenesis(g: ChainGenesis, addresses: seq<string>, codes: seq<string>,
                          accounts: seq<Allocation>, testAccounts: seq<Allocation>)
      returns (ok: bool, production: Snapshot, staging: Snapshot)
    requires g.Valid() && |addresses| == |codes|
    modifies g, g.Entries()
    ensures ok <==> forall i :: 0 <= i < |addresses| ==> addresses[i] in old(g.alloc)
    ensures ok ==>
      && production == Snapshot(Production(old(g.Contents()), addresses, codes, accounts), old(g.chainId))
      && staging == Snapshot(Staging(old(g.Contents()), addresses, codes, accounts, testAccounts), STAGING_CHAIN_ID)
  {
    ok := InstallCodes(g, addresses, codes);
    if ok {
      production, staging := SerializeBoth(g, accounts, testAccounts);
    } else {
      production, staging := Snapshot(map[], 0), Snapshot(map[], 0);
    }
  }

  // --- Totals -----------------------------------------------------------------------------

  /** The balances of all entries, read by the given function and summed. */
  ghost function AllocTotal(alloc: map<string, EntryData>, read: string -> int): int
    decreases |alloc|
  {
    if alloc == map[] then 0
    else
      var a :| a in alloc;
      RemoveShrinks(alloc, a);
      read(alloc[a].balance) + AllocTotal(alloc - {a}, read)
  }

  lemma RemoveShrinks(alloc: map<string, EntryData>, a: string)
    requires a in alloc
    ensures |alloc - {a}| < |alloc|
  {
  }

  /** The order of summation does not matter: any entry can be taken out first. */
  lemma {:induction false} TakeOut(alloc: map<string, EntryData>, a: string, read: string -> int)
    requires a in alloc
    ensures AllocTotal(alloc, read) == read(alloc[a].balance) + AllocTotal(alloc - {a}, read)
    decreases |alloc|
  {
    var b :| b in alloc && AllocTotal(alloc, read) == read(alloc[b].balance) + AllocTotal(alloc - {b}, read);
    if a != b {
      RemoveShrinks(alloc, b);
      TakeOut(alloc - {b}, a, read);
      TakeOutOther(alloc, a, b, read);
    }
  }

  lemma TakeOutOther(alloc: map<string, EntryData>, a: string, b: string, read: string -> int)
    requires a in alloc && b in alloc && a != b
    ensures AllocTotal(alloc - {a}, read) == read(alloc[b].balance) + AllocTotal(alloc - {b} - {a}, read)
    decreases |alloc|, 0
  {
    RemoveShrinks(alloc, a);
    TakeOut(alloc - {a}, b, read);
    assert alloc - {a} - {b} == alloc - {b} - {a};
  }

  function BalanceSum(accounts: seq<Allocation>, read: string -> int): int
  {
    if accounts == [] then 0
    else BalanceSum(accounts[..|accounts| - 1], read) + read(accounts[|accounts| - 1].balance)
  }

  ghost predicate DistinctAddresses(accounts: seq<Allocation>)
  {
    forall i, j :: 0 <= i < j < |accounts| ==> accounts[i].address != accounts[j].address
  }

  lemma {:induction false} MergeWithout(alloc: map<string, EntryData>, accounts: seq<Allocation>, a: string)
    requires a !in Listed(accounts)
    ensures Merge(alloc, accounts) - {a} == Merge(alloc - {a}, accounts)
  {
    if accounts != [] {
      var k := |accounts| - 1;
      assert accounts[k].address in Listed(accounts);
      assert Listed(accounts[..k]) <= Listed(accounts);
      MergeWithout(alloc, accounts[..k], a);
    }
  }

  /** The merged total is the listed balances plus the balances of the entries not listed. */
  lemma {:induction false} MergedTotal(alloc: map<string, EntryData>, accounts: seq<Allocation>, read: string -> int)
    requires DistinctAddresses(accounts)
    ensures AllocTotal(Merge(alloc, accounts), read)
         == BalanceSum(accounts, read) + AllocTotal(alloc - Listed(accounts), read)
    decreases |accounts|
  {
    if accounts == [] {
      assert alloc - Listed(accounts) == alloc;
    } else {
      var k := |accounts| - 1;
      var front, last := accounts[..k], accounts[k];
      assert last.address !in Listed(front);
      MergedTotal(alloc - {last.address}, front, read);
      TakeOut(Merge(alloc, accounts), last.address, read);
      assert Merge(alloc, accounts) - {last.address} == Merge(alloc, front) - {last.address};
      MergeWithout(alloc, front, last.address);
      ListedStep(front, last);
      assert front + [last] == accounts;
      assert alloc - {last.address} - Listed(front) == alloc - Listed(accounts);
    }
  }

  lemma ListedStep(front: seq<Allocation>, last: Allocation)
    ensures Listed(front + [last]) == Listed(front) + {last.address}
  {
    var all := front + [last];
    forall a ensures a in Listed(all) <==> a in Listed(front) + {last.address} {
      if a in Listed(front) {
        var i :| 0 <= i < |front| && front[i].address == a;
        assert all[i].address == a;
      }
      if a == last.address {
        assert all[|front|].address == a;
      }
    }
  }

  lemma {:induction false} SameBalances(a: map<string, EntryData>, b: map<string, EntryData>, read: string -> int)
    requires a.Keys == b.Keys && forall k :: k in a ==> a[k].balance == b[k].balance
    ensures AllocTotal(a, read) == AllocTotal(b, read)
    decreases |a|
  {
    if a == map[] {
      assert b == map[];
    } else {
      var k :| k in a;
      TakeOut(a, k, read);
      TakeOut(b, k, read);
      RemoveShrinks(a, k);
      SameBalances(a - {k}, b - {k}, read);
    }
  }

  /** Merging one list and then another is merging the joined list. */
  lemma {:induction false} MergeTwice(alloc: map<string, EntryData>, accounts: seq<Allocation>, more: seq<Allocation>)
    ensures Merge(Merge(alloc, accounts), more) == Merge(alloc, accounts + more)
  {
    if more == [] {
      assert accounts + more == accounts;
    } else {
      var k := |more| - 1;
      MergeTwice(alloc, accounts, more[..k]);
      assert (accounts + more)[..|accounts| + k] == accounts + more[..k];
    }
  }

  lemma {:induction false} BalanceSumConcat(accounts: seq<Allocation>, more: seq<Allocation>, read: string -> int)
    ensures BalanceSum(accounts + more, read) == BalanceSum(accounts, read) + BalanceSum(more, read)
  {
    if more == [] {
      assert accounts + more == accounts;
    } else {
      var k := |more| - 1;
      BalanceSumConcat(accounts, more[..k], read);
      assert (accounts + more)[..|accounts| + k] == accounts + more[..k];
    }
  }

  /** Contract code does not change what the unlisted entries hold. */
  lemma CodesKeepTotal(alloc: map<string, EntryData>, addresses: seq<string>, codes: seq<string>, listed: set<string>,
                       read: string -> int)
    requires |addresses| == |codes| && forall i :: 0 <= i < |addresses| ==> addresses[i] in alloc
    ensures AllocTotal(WithCodes(alloc, addresses, codes) - listed, read) == AllocTotal(alloc - listed, read)
  {
    SameBalances(WithCodes(alloc, addresses, codes) - listed, alloc - listed, read);
  }

  /** The production total: the listed balances and the original balances of the unlisted entries. */
  lemma ProductionTotal(alloc: map<string, EntryData>, addresses: seq<string>, codes: seq<string>,
                        accounts: seq<Allocation>, read: string -> int)
    requires |addresses| == |codes| && forall i :: 0 <= i < |addresses| ==> addresses[i] in alloc
    requires DistinctAddresses(accounts)
    ensures AllocTotal(Production(alloc, addresses, codes, accounts), read)
         == BalanceSum(accounts, read) + AllocTotal(alloc - Listed(accounts), read)
  {
    MergedTotal(WithCodes(alloc, addresses, codes), accounts, read);
    CodesKeepTotal(alloc, addresses, codes, Listed(accounts), read);
  }

  /**
   The staging total: the test balances and what production holds elsewhere. If no test account is
   listed, that is both lists and the original balances of the entries in neither.
   */
  lemma StagingTotal(alloc: map<string, EntryData>, addresses: seq<string>, codes: seq<string>,
                     accounts: seq<Allocation>, testAccounts: seq<Allocation>, read: string -> int)
    requires |addresses| == |codes| && forall i :: 0 <= i < |addresses| ==> addresses[i] in alloc
    requires DistinctAddresses(testAccounts)
    ensures AllocTotal(Staging(alloc, addresses, codes, accounts, testAccounts), read)
         == BalanceSum(testAccounts, read)
            + AllocTotal(Production(alloc, addresses, codes, accounts) - Listed(testAccounts), read)
    ensures DistinctAddresses(accounts + testAccounts) ==>
              AllocTotal(Staging(alloc, addresses, codes, accounts, testAccounts), read)
              == BalanceSum(accounts, read) + BalanceSum(testAccounts, read)
                 + AllocTotal(alloc - Listed(accounts + testAccounts), read)
  {
    MergedTotal(Production(alloc, addresses, codes, accounts), testAccounts, read);
    if DistinctAddresses(accounts + testAccounts) {
      MergeTwice(WithCodes(alloc, addresses, codes), accounts, testAccounts);
      ProductionTotal(alloc, addresses, codes, accounts + testAccounts, read);
      BalanceSumConcat(accounts, testAccounts, read);
    }
  }

  /** Merging keeps all entries and their code, and gives new entries none. */
  lemma {:induction false} MergeKeepsCode(alloc: map<string, EntryData>, accounts: seq<Allocation>)
    ensures Merge(alloc, accounts).Keys == alloc.Keys + Listed(accounts)
    ensures forall a :: a in Merge(alloc, accounts) ==>
              Merge(alloc, accounts)[a].code == if a in alloc then alloc[a].code else None
    ensures forall a :: a in alloc && a !in Listed(accounts) ==> Merge(alloc, accounts)[a] == alloc[a]
  {
    if accounts != [] {
      var k := |accounts| - 1;
      MergeKeepsCode(alloc, accounts[..k]);
      assert accounts[..k] + [accounts[k]] == accounts;
      ListedStep(accounts[..k], accounts[k]);
    }
  }
}
