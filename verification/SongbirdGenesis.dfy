/**
 The Songbird genesis processing: the last definitions numbered 2 and 3 are remembered by
 reference and take up the remaining supply in two halves.
 */
module SongbirdGenesis {
  import opened Numerals
  import opened Sums
  import opened DigitGrouping
  import opened WeiFormat
  import opened Wrappers
  import opened GenesisAccounts

  /** All definitions with their entries read; `None` when one throws. */
  function ReadList(entries: seq<Option<Account>>): Option<seq<Account>>
  {
    if entries == [] then Some([])
    else
      match (ReadList(entries[..|entries| - 1]), entries[|entries| - 1])
      case (Some(front), Some(p)) => Some(front + [p])
      case _ => None
  }

  /** The place of the last account with the given id, or -1. */
  function LastWithId(ps: seq<Account>, id: int): (k: int)
    ensures -1 <= k < |ps|
    ensures k >= 0 ==> ps[k].id == id
    ensures forall j :: k < j < |ps| ==> ps[j].id != id
  {
    if ps == [] then -1
    else if ps[|ps| - 1].id == id then |ps| - 1
    else LastWithId(ps[..|ps| - 1], id)
  }

  /** Both balancing accounts written; `None` when one of them is missing and the script throws. */
  function SettleHalves(list: Option<seq<Account>>, target: int): Option<seq<Account>>
  {
    match list
    case None => None
    case Some(ps) =>
      var i2, i3 := LastWithId(ps, 2), LastWithId(ps, 3);
      if i2 < 0 || i3 < 0 then None
      else
        var remaining := target - Total(ps);
        var half := TruncDiv(remaining, 2);
        Some(ps[i2 := ps[i2].(balance := Some(half))][i3 := ps[i3].(balance := Some(remaining - half))])
  }

  function SongbirdProcessed(defs: seq<Account>, target: int): Option<seq<Account>>
  {
    SettleHalves(ReadList(ReadAll(defs)), target)
  }

  // --- The loop ---------------------------------------------------------------------------

  /** `b` is the very object at the last place with the given id, or null if there is none. */
  ghost predicate Remembers(b: GenesisAccount?, processed: seq<GenesisAccount>, ps: seq<Account>, id: int)
    requires |processed| == |ps|
  {
    var k := LastWithId(ps, id);
    if k < 0 then b == null else b == processed[k]
  }

  ghost predicate ListState(processed: seq<GenesisAccount>, b2: GenesisAccount?, b3: GenesisAccount?, total: int,
                            ps: seq<Account>)
    reads processed
  {
    Mirrors(processed, ps) && Distinct(processed) && total == Total(ps)
    && Remembers(b2, processed, ps, 2) && Remembers(b3, processed, ps, 3)
  }

  ghost predicate ListAt(processed: seq<GenesisAccount>, b2: GenesisAccount?, b3: GenesisAccount?, total: int,
                         entries: seq<Option<Account>>, i: nat)
    requires i <= |entries|
    reads processed
  {
    match ReadList(entries[..i])
    case None => false
    case Some(ps) => ListState(processed, b2, b3, total, ps)
  }

  lemma RemembersStep(b: GenesisAccount?, processed: seq<GenesisAccount>, ps: seq<Account>, id: int,
                      p: GenesisAccount, a: Account)
    requires |processed| == |ps| && Remembers(b, processed, ps, id)
    ensures Remembers(if a.id == id then p else b, processed + [p], ps + [a], id)
  {
  }

  lemma ReadListStep(entries: seq<Option<Account>>, i: nat, ps: seq<Account>)
    requires i < |entries| && ReadList(entries[..i]) == Some(ps) && entries[i].Some?
    ensures ReadList(entries[..i + 1]) == Some(ps + [entries[i].value])
  {
    assert entries[..i + 1][..i] == entries[..i];
  }

  lemma ListStateStep(processed: seq<GenesisAccount>, b2: GenesisAccount?, b3: GenesisAccount?, total: int,
                      ps: seq<Account>, p: GenesisAccount)
    requires ListState(processed, b2, b3, total, ps) && p !in processed
    ensures ListState(processed + [p], if p.id == 2 then p else b2, if p.id == 3 then p else b3,
                      total + Held(p.View()), ps + [p.View()])
  {
    MirrorsStep(processed, ps, p);
    PassStep(ps, p.View());
    RemembersStep(b2, processed, ps, 2, p, p.View());
    RemembersStep(b3, processed, ps, 3, p, p.View());
  }

  /** One round of the loop. */
  method ProcessNext(account: GenesisAccount, processed0: seq<GenesisAccount>,
                     b2_0: GenesisAccount?, b3_0: GenesisAccount?, total0: int,
                     ghost entries: seq<Option<Account>>, ghost i: nat)
      returns (ok: bool, processed: seq<GenesisAccount>, b2: GenesisAccount?, b3: GenesisAccount?, total: int)
    requires i < |entries| && ListAt(processed0, b2_0, b3_0, total0, entries, i)
    requires EntryIs(account, entries[i])
    ensures ok <==> entries[i].Some?
    ensures ok ==> ListAt(processed, b2, b3, total, entries, i + 1)
    ensures ok ==> |processed| == |processed0| + 1 && processed == processed0 + [processed[|processed0|]]
                   && fresh(processed[|processed0|])
  {
    processed, b2, b3 := processed0, b2_0, b3_0;
    var p;
    ok, p, total := ReadDefinition(account, total0);
    if ok {
      ghost var ps := ReadList(entries[..i]).value;
      ReadListStep(entries, i, ps);
      ListStateStep(processed0, b2_0, b3_0, total0, ps, p);
      if p.id == 2 {
        b2 := p;
      }
      if p.id == 3 {
        b3 := p;
      }
      processed := processed + [p];
    }
  }

  lemma {:induction false} ReadListFails(entries: seq<Option<Account>>, i: nat)
    requires i < |entries| && entries[i].None?
    ensures ReadList(entries).None?
  {
    if i < |entries| - 1 {
      ReadListFails(entries[..|entries| - 1], i);
    }
  }

  method ProcessPass(accounts: seq<GenesisAccount>)
      returns (ok: bool, processed: seq<GenesisAccount>, b2: GenesisAccount?, b3: GenesisAccount?, total: int,
               ghost list: Option<seq<Account>>)
    ensures list == ReadList(ReadAll(old(Views(accounts)))) && (ok <==> list.Some?)
    ensures ok ==> ListState(processed, b2, b3, total, list.value)
    ensures forall k :: 0 <= k < |processed| ==> fresh(processed[k])
  {
    processed, b2, b3, total := [], null, null, 0;
    ghost var entries := ReadAll(old(Views(accounts)));
    for i: nat := 0 to |accounts|
      invariant ListAt(processed, b2, b3, total, entries, i)
      invariant forall k :: 0 <= k < |processed| ==> fresh(processed[k])
    {
      var read;
      assert EntryIs(accounts[i], entries[i]) by {
        assert accounts[i].View() == old(Views(accounts))[i];
      }
      read, processed, b2, b3, total := ProcessNext(accounts[i], processed, b2, b3, total, entries, i);
      if !read {
        ReadListFails(entries, i);
        return false, [], null, null, 0, None;
      }
    }
    assert entries[..|accounts|] == entries;
    ok, list := true, ReadList(entries);
  }

  /** The two assignments through the remembered references. */
  method WriteHalves(processed: seq<GenesisAccount>, b2: GenesisAccount, b3: GenesisAccount, total: int, target: int,
                     ghost list: Option<seq<Account>>)
    requires list.Some? && ListState(processed, b2, b3, total, list.value)
    modifies b2, b3
    ensures SettleHalves(list, target).Some?
    ensures Mirrors(processed, SettleHalves(list, target).value)
  {
    ghost var ps := list.value;
    ghost var i2, i3 := LastWithId(ps, 2), LastWithId(ps, 3);
    var remaining := target - total;
    b2.balance := Some(TruncDiv(remaining, 2));
    b3.balance := Some(remaining - b2.balance.value);
    forall i | 0 <= i < |ps| ensures processed[i].View() == SettleHalves(list, target).value[i] {
      if i != i2 && i != i3 {
        assert processed[i] != b2 && processed[i] != b3;
      }
    }
  }

  method ProcessGenesisAccountDefinitions(accounts: seq<GenesisAccount>, targetTotalSupply: int)
      returns (ok: bool, processedAccounts: seq<GenesisAccount>)
    ensures ok <==> SongbirdProcessed(old(Views(accounts)), targetTotalSupply).Some?
    ensures ok ==> Mirrors(processedAccounts, SongbirdProcessed(old(Views(accounts)), targetTotalSupply).value)
    ensures forall k :: 0 <= k < |processedAccounts| ==> fresh(processedAccounts[k])
  {
    ghost var list := None;
    var b2, b3, total;
    ok, processedAccounts, b2, b3, total, list := ProcessPass(accounts);
    if !ok || b2 == null || b3 == null {
      return false, [];
    }
    WriteHalves(processedAccounts, b2, b3, total, targetTotalSupply, list);
  }

  // --- The other accounts -----------------------------------------------------------------

  lemma {:induction false} ReadListAt(entries: seq<Option<Account>>, i: nat)
    requires ReadList(entries).Some? && i < |entries|
    ensures |ReadList(entries).value| == |entries| && entries[i] == Some(ReadList(entries).value[i])
  {
    var k := |entries| - 1;
    if k > 0 {
      ReadListAt(entries[..k], if i < k then i else 0);
    }
  }

  lemma OtherIsRead(list: Option<seq<Account>>, target: int, rs: seq<Account>, i: nat)
    requires SettleHalves(list, target) == Some(rs) && i < |list.value| && list.value[i].id !in {2, 3}
    ensures |rs| == |list.value| && rs[i] == list.value[i]
  {
  }

  /** The processed balance of every account not numbered 2 or 3 is what its entries are worth. */
  lemma EntryBecomesBalance(defs: seq<Account>, target: int, rs: seq<Account>, i: nat, n: nat, fixedLength: nat)
    requires SongbirdProcessed(defs, target) == Some(rs) && i < |defs| && defs[i].id !in {2, 3}
    ensures |rs| == |defs|
    ensures defs[i].initialEntryWei == "" && defs[i].initialEntryNat == RegexGroup(ToBase(n, 10), ',') ==>
              rs[i].balance == Some(n * Pow(10, 18))
    ensures defs[i].initialEntryWei == FormatWei(n, fixedLength) ==> rs[i].balance == Some(n)
    ensures defs[i].initialEntryWei == "" && defs[i].initialEntryNat == "" ==> rs[i].balance == defs[i].balance
  {
    var entries := ReadAll(defs);
    ReadListAt(entries, i);
    assert entries[i] == WithEntries(defs[i]);
    EntriesWorth(defs[i], n, fixedLength);
    OtherIsRead(ReadList(entries), target, rs, i);
  }

  // --- The supply -------------------------------------------------------------------------

  lemma {:induction false} TotalUpdate(ps: seq<Account>, i: nat, a: Account)
    requires i < |ps|
    ensures Total(ps[i := a]) == Total(ps) - Held(ps[i]) + Held(a)
  {
    var n := |ps| - 1;
    if i == n {
      assert ps[i := a][..n] == ps[..n];
    } else {
      TotalUpdate(ps[..n], i, a);
      assert ps[i := a][..n] == ps[..n][i := a];
    }
  }

  /**
   The two balancing accounts share the remainder; account 3 takes the odd unit, on the remainder's
   side of the half. Nobody else changes.
   */
  lemma HalvesShareRemainder(ps: seq<Account>, target: int, s: seq<Account>)
    requires SettleHalves(Some(ps), target) == Some(s)
    ensures var i2, i3, remaining := LastWithId(ps, 2), LastWithId(ps, 3), target - Total(ps);
            && 0 <= i2 < |ps| == |s| && 0 <= i3 < |ps| && i2 != i3
            && (forall i :: 0 <= i < |ps| && i != i2 && i != i3 ==> s[i] == ps[i])
            && s[i2] == ps[i2].(balance := s[i2].balance) && s[i3] == ps[i3].(balance := s[i3].balance)
            && Held(s[i2]) + Held(s[i3]) == remaining
            && (remaining >= 0 ==> 0 <= Held(s[i3]) - Held(s[i2]) <= 1)
            && (remaining < 0 ==> 0 <= Held(s[i2]) - Held(s[i3]) <= 1)
  {
  }

  lemma TwoUpdates(ps: seq<Account>, s: seq<Account>, i: nat, j: nat)
    requires i < |ps| == |s| && j < |ps| && i != j
    requires forall k :: 0 <= k < |ps| && k != i && k != j ==> s[k] == ps[k]
    ensures Total(s) == Total(ps) - Held(ps[i]) - Held(ps[j]) + Held(s[i]) + Held(s[j])
  {
    TotalUpdate(ps, i, s[i]);
    TotalUpdate(ps[i := s[i]], j, s[j]);
    assert s == ps[i := s[i]][j := s[j]];
  }

  /** The supply is met exactly when the two balancing accounts' own entries add up to nothing. */
  lemma SongbirdSupply(ps: seq<Account>, target: int, s: seq<Account>)
    requires SettleHalves(Some(ps), target) == Some(s)
    ensures LastWithId(ps, 2) >= 0 && LastWithId(ps, 3) >= 0
    ensures var own := Held(ps[LastWithId(ps, 2)]) + Held(ps[LastWithId(ps, 3)]);
            Total(s) == target - own && (Total(s) == target <==> own == 0)
  {
    HalvesShareRemainder(ps, target, s);
    TwoUpdates(ps, s, LastWithId(ps, 2), LastWithId(ps, 3));
  }
}
