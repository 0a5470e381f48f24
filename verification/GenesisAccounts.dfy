/**
 Genesis account processing: definitions are copied, entry texts become balances, and the balancing
 accounts, reached through a second list holding the same objects, take up the remaining supply.
 */
module GenesisAccounts {
  import opened Numerals
  import opened DigitGrouping
  import opened Sums
  import opened WeiFormat
  import opened Wrappers

  /** The fields of a genesis account; an empty text or address is an absent one. */
  datatype Account = Account(
    id: int, address: string, balance: Option<int>,
    initialEntryNat: string, initialEntryWei: string, isBalancing: bool)

  class GenesisAccount {
    var id: int
    var address: string
    var balance: Option<int>
    var initialEntryNat: string
    var initialEntryWei: string
    var isBalancing: bool

    ghost function View(): Account
      reads this
    {
      Account(id, address, balance, initialEntryNat, initialEntryWei, isBalancing)
    }

    /** `{...account}` */
    constructor Copy(account: GenesisAccount)
      ensures View() == account.View()
    {
      id, address, balance := account.id, account.address, account.balance;
      initialEntryNat, initialEntryWei := account.initialEntryNat, account.initialEntryWei;
      isBalancing := account.isBalancing;
    }
  }

  ghost function Views(accounts: seq<GenesisAccount>): (vs: seq<Account>)
    reads accounts
    ensures |vs| == |accounts|
  {
    seq(|accounts|, i requires 0 <= i < |accounts| reads accounts => accounts[i].View())
  }

  ghost predicate Mirrors(accounts: seq<GenesisAccount>, vs: seq<Account>)
    reads accounts
  {
    |accounts| == |vs| && forall i :: 0 <= i < |vs| ==> accounts[i].View() == vs[i]
  }

  // --- Entries ----------------------------------------------------------------------------

  /** The account with its entry texts read; `None` when a text cannot be read and the script throws. */
  function WithEntries(a: Account): Option<Account>
  {
    if a.initialEntryNat != "" && ReadEntryNat(a.initialEntryNat).None? then None
    else if a.initialEntryWei != "" && ReadEntryWei(a.initialEntryWei).None? then None
    else if a.initialEntryWei != "" then Some(a.(balance := ReadEntryWei(a.initialEntryWei)))
    else if a.initialEntryNat != "" then Some(a.(balance := ReadEntryNat(a.initialEntryNat)))
    else Some(a)
  }

  /** Copies a definition and reads its entries; `total` grows by the balance, if there is one. */
  method ReadDefinition(account: GenesisAccount, total0: int) returns (ok: bool, processed: GenesisAccount, total: int)
    ensures fresh(processed)
    ensures ok <==> WithEntries(account.View()).Some?
    ensures ok ==> WithEntries(account.View()) == Some(processed.View())
    ensures ok ==> total == total0 + Held(processed.View())
  {
    processed := new GenesisAccount.Copy(account);
    total := total0;
    if account.initialEntryNat != "" {
      var entry := ReadEntryNat(processed.initialEntryNat);
      if entry.None? {
        return false, processed, total;
      }
      processed.balance := entry;
    }
    if account.initialEntryWei != "" {
      var entry := ReadEntryWei(processed.initialEntryWei);
      if entry.None? {
        return false, processed, total;
      }
      processed.balance := entry;
    }
    if processed.balance.Some? {
      total := total + processed.balance.value;
    }
    ok := true;
  }

  /**
   What the entry texts make of an account: a native entry of n is worth n * 10^18 wei, a wei entry
   its value, the wei entry wins, and without entries the balance stays.
   */
  lemma EntriesWorth(a: Account, n: nat, fixedLength: nat)
    requires WithEntries(a).Some?
    ensures a.initialEntryWei == "" && a.initialEntryNat == RegexGroup(ToBase(n, 10), ',') ==>
              WithEntries(a).value == a.(balance := Some(n * Pow(10, 18)))
    ensures a.initialEntryWei == FormatWei(n, fixedLength) ==>
              WithEntries(a).value == a.(balance := Some(n))
    ensures a.initialEntryWei == "" && a.initialEntryNat == "" ==> WithEntries(a).value == a
  {
    ParsePrinted(n, 10);
    GroupedPart(ToBase(n, 10), ',');
    NativeEntryWorth(n);
    FormatReadRoundTrip(n, fixedLength);
  }

  function Held(a: Account): int
  {
    if a.balance.Some? then a.balance.value else 0
  }

  function Total(ps: seq<Account>): int
  {
    if ps == [] then 0 else Total(ps[..|ps| - 1]) + Held(ps[|ps| - 1])
  }

  // --- The first pass of the Flare processing ---------------------------------------------

  function Placeholder(cnt: nat): string
  {
    PadStart(ToBase(cnt, 10), 42, '.')
  }

  datatype Prepared = Prepared(accounts: seq<Account>, placeholders: nat)

  /** The account with a placeholder in place of a missing address. */
  function WithAddress(p: Account, cnt: nat): Account
  {
    if p.address == "" then p.(address := Placeholder(cnt)) else p
  }

  /** Every read definition with a numbered placeholder for a missing address. */
  function Prepare(entries: seq<Option<Account>>): Option<Prepared>
  {
    if entries == [] then Some(Prepared([], 0))
    else
      match (Prepare(entries[..|entries| - 1]), entries[|entries| - 1])
      case (Some(front), Some(p)) =>
        Some(Prepared(front.accounts + [WithAddress(p, front.placeholders)],
                      if p.address == "" then front.placeholders + 1 else front.placeholders))
      case _ => None
  }

  function ReadAll(defs: seq<Account>): seq<Option<Account>>
  {
    seq(|defs|, i requires 0 <= i < |defs| => WithEntries(defs[i]))
  }

  /** Where the balancing accounts stand in the list. */
  function BalancingIndices(ps: seq<Account>): (idx: seq<nat>)
    ensures forall k :: 0 <= k < |idx| ==> idx[k] < |ps| && ps[idx[k]].isBalancing
    ensures forall j, k :: 0 <= j < k < |idx| ==> idx[j] < idx[k]
    ensures forall i :: 0 <= i < |ps| && ps[i].isBalancing ==> i in idx
  {
    if ps == [] then []
    else
      var front := BalancingIndices(ps[..|ps| - 1]);
      if ps[|ps| - 1].isBalancing then front + [|ps| - 1] else front
  }

  // --- Sharing out the remainder ----------------------------------------------------------

  /** Division truncating toward zero, as the integer library divides. */
  function TruncDiv(a: int, b: nat): int
    requires b > 0
  {
    if a >= 0 then a / b else -((-a) / b)
  }

  function IsFirstBalancing(ps: seq<Account>, i: nat): bool
    requires i < |ps|
  {
    ps[i].isBalancing && forall j :: 0 <= j < i ==> !ps[j].isBalancing
  }

  function Settled(ps: seq<Account>, first: int, share: int): seq<Account>
  {
    seq(|ps|, i requires 0 <= i < |ps| =>
      if !ps[i].isBalancing then ps[i]
      else ps[i].(balance := Some(if IsFirstBalancing(ps, i) then first else share)))
  }

  function Share(ps: seq<Account>, remaining: int): int
    requires BalancingIndices(ps) != []
  {
    TruncDiv(remaining, |BalancingIndices(ps)|)
  }

  /** What truncation leaves over; the first balancing account takes it. */
  function Dust(ps: seq<Account>, remaining: int): int
    requires BalancingIndices(ps) != []
  {
    remaining - Share(ps, remaining) * |BalancingIndices(ps)|
  }

  function Settle(ps: seq<Account>, remaining: int): seq<Account>
    requires BalancingIndices(ps) != []
  {
    Settled(ps, Share(ps, remaining) + Dust(ps, remaining), Share(ps, remaining))
  }

  function SettlePrepared(p: Option<Prepared>, target: int): Option<seq<Account>>
  {
    match p
    case None => None
    case Some(p) =>
      if BalancingIndices(p.accounts) == [] then None
      else Some(Settle(p.accounts, target - Total(p.accounts)))
  }

  /** The Flare result; `None` when an entry is unreadable or nobody balances (division by zero). */
  function FlareProcessed(defs: seq<Account>, target: int): Option<seq<Account>>
  {
    SettlePrepared(Prepare(ReadAll(defs)), target)
  }

  /** The second loop: it reaches the balancing accounts through their own list. */
  method AssignShares(balancingAccounts: seq<GenesisAccount>, share: int, dust: int)
    requires Distinct(balancingAccounts)
    modifies balancingAccounts
    ensures forall k :: 0 <= k < |balancingAccounts| ==>
              balancingAccounts[k].View()
              == old(balancingAccounts[k].View()).(balance := Some(if k == 0 then share + dust else share))
  {
    for i := 0 to |balancingAccounts|
      invariant forall k :: 0 <= k < i ==>
        balancingAccounts[k].View()
        == old(balancingAccounts[k].View()).(balance := Some(if k == 0 then share + dust else share))
      invariant forall k :: i <= k < |balancingAccounts| ==>
        balancingAccounts[k].View() == old(balancingAccounts[k].View())
    {
      var account := balancingAccounts[i];
      if i == 0 {
        account.balance := Some(share + dust);
      } else {
        account.balance := Some(share);
      }
    }
  }

  lemma PrepareStep(entries: seq<Option<Account>>, i: nat, ps: seq<Account>, cnt: nat)
    requires i < |entries| && Prepare(entries[..i]) == Some(Prepared(ps, cnt)) && entries[i].Some?
    ensures var p := entries[i].value;
            Prepare(entries[..i + 1])
            == Some(Prepared(ps + [WithAddress(p, cnt)], if p.address == "" then cnt + 1 else cnt))
  {
    assert entries[..i + 1][..i] == entries[..i];
  }

  lemma PassStep(ps: seq<Account>, p: Account)
    ensures BalancingIndices(ps + [p]) == BalancingIndices(ps) + (if p.isBalancing then [|ps|] else [])
    ensures Total(ps + [p]) == Total(ps) + Held(p)
  {
  }

  /** One definition: copied, its entries read, its address filled in. */
  method ProcessDefinition(account: GenesisAccount, total0: int, cnt0: nat)
      returns (ok: bool, processed: GenesisAccount, total: int, cnt: nat)
    ensures fresh(processed)
    ensures ok <==> WithEntries(account.View()).Some?
    ensures ok ==>
      var p := WithEntries(account.View()).value;
      && processed.View() == WithAddress(p, cnt0)
      && total == total0 + Held(p)
      && cnt == if p.address == "" then cnt0 + 1 else cnt0
  {
    cnt := cnt0;
    ok, processed, total := ReadDefinition(account, total0);
    if ok && processed.address == "" {
      processed.address := Placeholder(cnt);
      cnt := cnt + 1;
    }
  }

  /** The list `part` holds the very objects found in `whole` at the given places. */
  ghost predicate PicksOut(whole: seq<GenesisAccount>, part: seq<GenesisAccount>, places: seq<nat>)
  {
    |part| == |places| && forall k :: 0 <= k < |places| ==> places[k] < |whole| && part[k] == whole[places[k]]
  }

  /** The two lists after the definitions processed so far, whose values are `ps`. */
  ghost predicate PassState(processed: seq<GenesisAccount>, balancing: seq<GenesisAccount>, ps: seq<Account>)
    reads processed
  {
    Mirrors(processed, ps) && Distinct(processed) && PicksOut(processed, balancing, BalancingIndices(ps))
  }

  lemma PassStateStep(processed: seq<GenesisAccount>, balancing: seq<GenesisAccount>, ps: seq<Account>,
                      p: GenesisAccount)
    requires PassState(processed, balancing, ps) && p !in processed
    ensures PassState(processed + [p], balancing + (if p.isBalancing then [p] else []), ps + [p.View()])
  {
  }

  lemma MirrorsStep(processed: seq<GenesisAccount>, ps: seq<Account>, p: GenesisAccount)
    requires Mirrors(processed, ps) && Distinct(processed) && p !in processed
    ensures Mirrors(processed + [p], ps + [p.View()]) && Distinct(processed + [p])
  {
  }

  ghost predicate EntryIs(account: GenesisAccount, entry: Option<Account>)
    reads account
  {
    WithEntries(account.View()) == entry
  }

  /** The state of the first loop after `i` definitions. */
  ghost predicate PassAt(processed: seq<GenesisAccount>, balancing: seq<GenesisAccount>, total: int, cnt: nat,
                         entries: seq<Option<Account>>, i: nat)
    requires i <= |entries|
    reads processed
  {
    match Prepare(entries[..i])
    case None => false
    case Some(p) => PassState(processed, balancing, p.accounts) && total == Total(p.accounts) && cnt == p.placeholders
  }

  /** One round of the first loop. */
  method ProcessNext(account: GenesisAccount, processed0: seq<GenesisAccount>, balancing0: seq<GenesisAccount>,
                     total0: int, cnt0: nat, ghost entries: seq<Option<Account>>, ghost i: nat)
      returns (ok: bool, processed: seq<GenesisAccount>, balancing: seq<GenesisAccount>, total: int, cnt: nat)
    requires i < |entries| && PassAt(processed0, balancing0, total0, cnt0, entries, i)
    requires EntryIs(account, entries[i])
    ensures ok <==> entries[i].Some?
    ensures ok ==> PassAt(processed, balancing, total, cnt, entries, i + 1)
    ensures ok ==> |processed| == |processed0| + 1 && processed == processed0 + [processed[|processed0|]]
                   && fresh(processed[|processed0|])
  {
    processed, balancing := processed0, balancing0;
    var p;
    ok, p, total, cnt := ProcessDefinition(account, total0, cnt0);
    if ok {
      ghost var ps := Prepare(entries[..i]).value.accounts;
      PassStateStep(processed0, balancing0, ps, p);
      PassStep(ps, p.View());
      PrepareStep(entries, i, ps, cnt0);
      if p.isBalancing {
        balancing := balancing + [p];
      }
      processed := processed + [p];
      assert balancing == balancing0 + if p.isBalancing then [p] else [];
    }
  }

  method ProcessFlarePass(accounts: seq<GenesisAccount>)
      returns (ok: bool, processedAccounts: seq<GenesisAccount>, balancingAccounts: seq<GenesisAccount>, total: int,
               ghost prepared: Option<Prepared>)
    ensures prepared == Prepare(ReadAll(old(Views(accounts)))) && (ok <==> prepared.Some?)
    ensures ok ==>
      && PassState(processedAccounts, balancingAccounts, prepared.value.accounts)
      && total == Total(prepared.value.accounts)
    ensures forall k :: 0 <= k < |processedAccounts| ==> fresh(processedAccounts[k])
  {
    processedAccounts, balancingAccounts, total := [], [], 0;
    var cnt: nat := 0;
    ghost var entries := ReadAll(old(Views(accounts)));
    for i: nat := 0 to |accounts|
      invariant PassAt(processedAccounts, balancingAccounts, total, cnt, entries, i)
      invariant forall k :: 0 <= k < |processedAccounts| ==> fresh(processedAccounts[k])
    {
      var read;
      assert EntryIs(accounts[i], entries[i]) by {
        assert accounts[i].View() == old(Views(accounts))[i];
      }
      read, processedAccounts, balancingAccounts, total, cnt :=
        ProcessNext(accounts[i], processedAccounts, balancingAccounts, total, cnt, entries, i);
      if !read {
        PrepareFails(entries, i);
        return false, [], [], 0, None;
      }
    }
    assert entries[..|accounts|] == entries;
    ok, prepared := true, Prepare(entries);
  }

  lemma {:induction false} PrepareFails(entries: seq<Option<Account>>, i: nat)
    requires i < |entries| && entries[i].None?
    ensures Prepare(entries).None?
  {
    if i < |entries| - 1 {
      PrepareFails(entries[..|entries| - 1], i);
    }
  }

  /** The second half: shares are computed and written through the list of balancing accounts. */
  method ShareOut(processed: seq<GenesisAccount>, balancing: seq<GenesisAccount>, total: int, target: int,
                  ghost prepared: Option<Prepared>)
    requires prepared.Some? && PassState(processed, balancing, prepared.value.accounts)
    requires total == Total(prepared.value.accounts) && |balancing| > 0
    modifies balancing
    ensures SettlePrepared(prepared, target).Some?
    ensures Mirrors(processed, SettlePrepared(prepared, target).value)
  {
    ghost var ps := prepared.value.accounts;
    var n := |balancing|;
    var remaining := target - total;
    var share := TruncDiv(remaining, n);
    var shareSum := share * n;
    var dust := remaining - shareSum;
    assert SettlePrepared(prepared, target) == Some(Settled(ps, share + dust, share));
    WriteShares(processed, balancing, share, dust, ps);
  }

  method WriteShares(processed: seq<GenesisAccount>, balancing: seq<GenesisAccount>, share: int, dust: int,
                     ghost ps: seq<Account>)
    requires PassState(processed, balancing, ps)
    modifies balancing
    ensures Mirrors(processed, Settled(ps, share + dust, share))
  {
    ghost var idx := BalancingIndices(ps);
    PicksAreDistinct(processed, balancing, idx);
    label Before:
    AssignShares(balancing, share, dust);
    forall i | 0 <= i < |ps| ensures processed[i].View() == Settled(ps, share + dust, share)[i] {
      if ps[i].isBalancing {
        var k :| 0 <= k < |idx| && idx[k] == i;
        assert balancing[k] == processed[i];
        FirstIsFirst(ps, k);
      } else {
        assert processed[i] !in balancing;
        assert unchanged@Before(processed[i]);
      }
    }
  }

  /** The processed list is new; the definitions themselves are left as they were. */
  method ProcessGenesisAccountDefinitionsFlare(accounts: seq<GenesisAccount>, targetTotalSupply: int)
      returns (ok: bool, processedAccounts: seq<GenesisAccount>)
    ensures ok <==> FlareProcessed(old(Views(accounts)), targetTotalSupply).Some?
    ensures ok ==> Mirrors(processedAccounts, FlareProcessed(old(Views(accounts)), targetTotalSupply).value)
    ensures forall p :: p in processedAccounts ==> fresh(p)
  {
    ghost var prepared := None;
    var balancingAccounts, total;
    ok, processedAccounts, balancingAccounts, total, prepared := ProcessFlarePass(accounts);
    if !ok || |balancingAccounts| == 0 {
      return false, [];
    }
    forall k | 0 <= k < |balancingAccounts| ensures fresh(balancingAccounts[k]) {
      assert balancingAccounts[k] in processedAccounts;
    }
    ShareOut(processedAccounts, balancingAccounts, total, targetTotalSupply, prepared);
  }

  lemma PicksAreDistinct(whole: seq<GenesisAccount>, part: seq<GenesisAccount>, places: seq<nat>)
    requires Distinct(whole) && PicksOut(whole, part, places)
    requires forall j, k :: 0 <= j < k < |places| ==> places[j] < places[k]
    ensures Distinct(part)
    ensures forall i :: 0 <= i < |whole| && i !in places ==> whole[i] !in part
  {
  }

  lemma FirstIsFirst(ps: seq<Account>, k: nat)
    requires k < |BalancingIndices(ps)|
    ensures IsFirstBalancing(ps, BalancingIndices(ps)[k]) <==> k == 0
  {
    var idx := BalancingIndices(ps);
    if k == 0 {
      forall j | 0 <= j < idx[0] ensures !ps[j].isBalancing {
        assert j !in idx;
      }
    } else {
      assert idx[0] < idx[k];
    }
  }
}
