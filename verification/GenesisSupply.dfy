/** From the processed account list to the total of the joined chain genesis. */
module GenesisSupply {
  import opened WeiFormat
  import opened Wrappers
  import opened GenesisAccounts
  import opened GenesisBalancing
  import opened GenesisCsv
  import opened AllocMerge

  // --- The serialized balances ------------------------------------------------------------

  /** `${balance?.toHexString()}`: a missing balance is written out as a word. */
  function BalanceText(balance: Option<int>): string
  {
    match balance
    case None => "undefined"
    case Some(v) => if v < 0 then "-" + HexText(-v) else HexText(v)
  }

  function GenesisJson(rs: seq<Account>): seq<Allocation>
  {
    seq(|rs|, i requires 0 <= i < |rs| => Allocation(rs[i].address, BalanceText(rs[i].balance)))
  }

  method AccountsGenesisJSON(accounts: seq<GenesisAccount>) returns (addressList: seq<Allocation>)
    ensures addressList == GenesisJson(Views(accounts))
  {
    addressList := [];
    for i := 0 to |accounts|
      invariant addressList == GenesisJson(Views(accounts))[..i]
    {
      assert Views(accounts)[i] == accounts[i].View();
      addressList := addressList + [Allocation(accounts[i].address, BalanceText(accounts[i].balance))];
    }
    assert GenesisJson(Views(accounts))[..|accounts|] == GenesisJson(Views(accounts));
  }

  /** The number behind a balance text of the alloc; a text that cannot be read counts as nothing. */
  function ReadBalance(s: string): int
  {
    match BigNumberFrom(s)
    case Some(v) => v
    case None => 0
  }

  /** Every balance text reads back, also a negative one, and the word for a missing one is no number. */
  lemma BalanceTextReads(balance: Option<int>)
    ensures BigNumberFrom(BalanceText(balance)) == balance
  {
    match balance
    case None =>
      assert BalanceText(balance)[0] == 'u';
    case Some(v) =>
      HexTextReads(if v < 0 then -v else v);
      if v < 0 {
        NegatedReads(HexText(-v), -v);
      }
  }

  lemma NegatedReads(s: string, n: int)
    requires s != [] && s[0] != '-' && BigNumberFrom(s) == Some(n)
    ensures BigNumberFrom("-" + s) == Some(-n)
  {
    assert ("-" + s)[1..] == s;
  }

  lemma JsonReads(rs: seq<Account>, i: nat)
    requires i < |rs|
    ensures ReadBalance(GenesisJson(rs)[i].balance) == Held(rs[i])
  {
    BalanceTextReads(rs[i].balance);
  }

  lemma {:induction false} JsonTotal(rs: seq<Account>)
    ensures BalanceSum(GenesisJson(rs), ReadBalance) == Total(rs)
  {
    if rs != [] {
      var k := |rs| - 1;
      JsonTotal(rs[..k]);
      JsonReads(rs, k);
      assert GenesisJson(rs)[..k] == GenesisJson(rs[..k]);
    }
  }

  // --- The same from the definitions alone ------------------------------------------------

  /** The given addresses are hexadecimal and pairwise distinct; any number may be missing. */
  ghost predicate DistinctHexAddresses(defs: seq<Account>)
  {
    && (forall k :: 0 <= k < |defs| && defs[k].address != "" ==> HexAddress(defs[k].address))
    && (forall i, j :: 0 <= i < j < |defs| && defs[i].address == defs[j].address ==> defs[i].address == "")
  }

  lemma EntriesKeepAddress(a: Account)
    requires WithEntries(a).Some?
    ensures WithEntries(a).value.address == a.address
  {
  }

  lemma SettledKeepsAddresses(ps: seq<Account>, remaining: int, i: nat)
    requires BalancingIndices(ps) != [] && i < |ps|
    ensures Settle(ps, remaining)[i].address == ps[i].address
  {
  }

  lemma EntriesAreReadable(defs: seq<Account>, k: nat)
    requires Prepare(ReadAll(defs)).Some? && k < |defs|
    ensures ReadAll(defs)[k].Some? && ReadAll(defs)[k].value.address == defs[k].address
  {
    PrepareSucceeds(ReadAll(defs));
    assert ReadAll(defs)[k].Some?;
    EntriesKeepAddress(defs[k]);
  }

  lemma ProcessedAddressesDistinct(defs: seq<Account>, target: int, i: nat, j: nat)
    requires FlareProcessed(defs, target).Some? && DistinctHexAddresses(defs)
    requires i < j < |FlareProcessed(defs, target).value|
    ensures FlareProcessed(defs, target).value[i].address != FlareProcessed(defs, target).value[j].address
  {
    var entries := ReadAll(defs);
    ProcessedParts(defs, target);
    var ps := Prepare(entries).value.accounts;
    PrepareSucceeds(entries);
    forall k | 0 <= k < |defs| ensures entries[k].Some? && entries[k].value.address == defs[k].address {
      EntriesAreReadable(defs, k);
    }
    AddressesStayDistinct(entries, i, j);
    SettledKeepsAddresses(ps, target - Total(ps), i);
    SettledKeepsAddresses(ps, target - Total(ps), j);
  }

  lemma JsonAddressesDistinct(defs: seq<Account>, target: int, rs: seq<Account>)
    requires FlareProcessed(defs, target) == Some(rs) && DistinctHexAddresses(defs)
    ensures DistinctAddresses(GenesisJson(rs))
  {
    forall i, j | 0 <= i < j < |rs| ensures GenesisJson(rs)[i].address != GenesisJson(rs)[j].address {
      ProcessedAddressesDistinct(defs, target, i, j);
    }
  }

  /**
   From the definitions to the chain: if the given addresses are distinct, the joined production
   genesis holds the target supply, less what the balancing accounts brought along, plus what the
   unlisted entries held. Balancing, hexadecimal printing, reading and merging lose nothing else.
   */
  lemma GenesisFromDefinitions(defs: seq<Account>, target: int, rs: seq<Account>, alloc: map<string, EntryData>,
                               addresses: seq<string>, codes: seq<string>)
    requires FlareProcessed(defs, target) == Some(rs) && DistinctHexAddresses(defs)
    requires |addresses| == |codes| && forall i :: 0 <= i < |addresses| ==> addresses[i] in alloc
    ensures AllocTotal(Production(alloc, addresses, codes, GenesisJson(rs)), ReadBalance)
         == target - OwnEntries(defs) + AllocTotal(alloc - Listed(GenesisJson(rs)), ReadBalance)
  {
    SupplyMeetsTarget(defs, target);
    JsonTotal(rs);
    JsonAddressesDistinct(defs, target, rs);
    ProductionTotal(alloc, addresses, codes, GenesisJson(rs), ReadBalance);
  }

  /** The definitions processed and written out. */
  method SerializeDefinitions(definitions: seq<GenesisAccount>, target: int)
      returns (ok: bool, json: seq<Allocation>)
    ensures ok <==> FlareProcessed(old(Views(definitions)), target).Some?
    ensures ok ==> json == GenesisJson(FlareProcessed(old(Views(definitions)), target).value)
  {
    var processed;
    json := [];
    ok, processed := ProcessGenesisAccountDefinitionsFlare(definitions, target);
    if ok {
      assert Views(processed) == FlareProcessed(old(Views(definitions)), target).value;
      json := AccountsGenesisJSON(processed);
    }
  }

  /** The whole way: definitions processed, serialized, and joined into the chain genesis twice. */
  method BuildChainGenesis(definitions: seq<GenesisAccount>, target: int, g: ChainGenesis, addresses: seq<string>,
                           codes: seq<string>, testAccounts: seq<Allocation>)
      returns (ok: bool, production: Snapshot, staging: Snapshot, json: seq<Allocation>)
    requires g.Valid() && |addresses| == |codes|
    modifies g, g.Entries()
    ensures ok <==>
      && FlareProcessed(old(Views(definitions)), target).Some?
      && forall i :: 0 <= i < |addresses| ==> addresses[i] in old(g.alloc)
    ensures ok ==> json == GenesisJson(FlareProcessed(old(Views(definitions)), target).value)
    ensures ok && DistinctHexAddresses(old(Views(definitions))) ==>
      AllocTotal(production.alloc, ReadBalance)
      == target - OwnEntries(old(Views(definitions))) + AllocTotal(old(g.Contents()) - Listed(json), ReadBalance)
    ensures ok && DistinctAddresses(testAccounts) ==>
      AllocTotal(staging.alloc, ReadBalance)
      == BalanceSum(testAccounts, ReadBalance) + AllocTotal(production.alloc - Listed(testAccounts), ReadBalance)
  {
    production, staging := Snapshot(map[], 0), Snapshot(map[], 0);
    ok, json := SerializeDefinitions(definitions, target);
    if ok {
      ok, production, staging := JoinChainGenesis(g, addresses, codes, json, testAccounts);
      if ok && DistinctHexAddresses(old(Views(definitions))) {
        GenesisFromDefinitions(old(Views(definitions)), target, FlareProcessed(old(Views(definitions)), target).value,
                               old(g.Contents()), addresses, codes);
      }
      if ok && DistinctAddresses(testAccounts) {
        StagingTotal(old(g.Contents()), addresses, codes, json, testAccounts, ReadBalance);
      }
    }
  }

  // --- Which balances come out non-negative -----------------------------------------------

  /** Every balance is known and non-negative. */
  predicate Solvent(rs: seq<Account>)
  {
    forall i :: 0 <= i < |rs| ==> rs[i].balance.Some? && rs[i].balance.value >= 0
  }

  /** The accounts that do not balance have non-negative balances of their own. */
  ghost predicate OthersSolvent(ps: seq<Account>)
  {
    forall i :: 0 <= i < |ps| && !ps[i].isBalancing ==> ps[i].balance.Some? && ps[i].balance.value >= 0
  }

  lemma SettledSolventIff(ps: seq<Account>, remaining: int)
    requires BalancingIndices(ps) != []
    ensures Solvent(Settle(ps, remaining)) <==> OthersSolvent(ps) && remaining >= 0
  {
    SettledShape(ps, Share(ps, remaining) + Dust(ps, remaining), Share(ps, remaining));
    SharesNonNegativeIff(ps, remaining);
    var s := Settle(ps, remaining);
    forall i | 0 <= i < |ps| && !ps[i].isBalancing ensures s[i] == ps[i] {}
  }

  /**
   Every processed balance is known and non-negative exactly when the accounts that do not balance
   have non-negative balances and all read entries together do not exceed the target.
   */
  lemma ProcessedSolventIff(defs: seq<Account>, target: int, rs: seq<Account>)
    requires FlareProcessed(defs, target) == Some(rs)
    ensures Prepare(ReadAll(defs)).Some?
    ensures var ps := Prepare(ReadAll(defs)).value.accounts;
            Solvent(rs) <==> OthersSolvent(ps) && Total(ps) <= target
  {
    PreparedSolventIff(Prepare(ReadAll(defs)), target, rs);
  }

  lemma PreparedSolventIff(p: Option<Prepared>, target: int, rs: seq<Account>)
    requires SettlePrepared(p, target) == Some(rs)
    ensures p.Some? && (Solvent(rs) <==> OthersSolvent(p.value.accounts) && Total(p.value.accounts) <= target)
  {
    SettledSolventIff(p.value.accounts, target - Total(p.value.accounts));
  }
}
