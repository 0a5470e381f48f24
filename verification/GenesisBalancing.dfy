/** What the Flare genesis processing guarantees about supply, shares and addresses. */
module GenesisBalancing {
  import opened Arithmetic
  import opened Numerals
  import opened DigitGrouping
  import opened WeiFormat
  import opened Wrappers
  import opened GenesisAccounts

  // --- Totals over balancing and other accounts -------------------------------------------

  function HeldBy(ps: seq<Account>, balancing: bool): int
  {
    if ps == [] then 0
    else
      var k := |ps| - 1;
      HeldBy(ps[..k], balancing) + if ps[k].isBalancing == balancing then Held(ps[k]) else 0
  }

  lemma {:induction false} TotalSplits(ps: seq<Account>)
    ensures Total(ps) == HeldBy(ps, true) + HeldBy(ps, false)
  {
    if ps != [] {
      TotalSplits(ps[..|ps| - 1]);
    }
  }

  lemma SettledFront(ps: seq<Account>, k: nat, first: int, share: int)
    requires k < |ps|
    ensures Settled(ps[..k + 1], first, share)
         == Settled(ps[..k], first, share) + [Settled(ps, first, share)[k]]
  {
  }

  function SharesTotal(n: nat, first: int, share: int): int
  {
    if n == 0 then 0 else first + (n - 1) * share
  }

  /** Settling replaces the balancing accounts' holdings by the shares and touches nothing else. */
  lemma {:induction false} SettledTotals(ps: seq<Account>, first: int, share: int)
    ensures HeldBy(Settled(ps, first, share), false) == HeldBy(ps, false)
    ensures HeldBy(Settled(ps, first, share), true) == SharesTotal(|BalancingIndices(ps)|, first, share)
  {
    if ps != [] {
      var k := |ps| - 1;
      var front := ps[..k];
      SettledTotals(front, first, share);
      assert ps[..k + 1] == ps;
      SettledFront(ps, k, first, share);
      var settled := Settled(ps, first, share);
      assert settled[..k] == Settled(front, first, share);
      if ps[k].isBalancing {
        FirstMeansNoneBefore(ps);
        OneMoreShare(|BalancingIndices(front)|, first, share);
      }
    }
  }

  lemma OneMoreShare(n: nat, first: int, share: int)
    ensures SharesTotal(n + 1, first, share) == SharesTotal(n, first, share) + if n == 0 then first else share
  {
  }

  lemma FirstMeansNoneBefore(ps: seq<Account>)
    requires ps != [] && ps[|ps| - 1].isBalancing
    ensures IsFirstBalancing(ps, |ps| - 1) <==> BalancingIndices(ps[..|ps| - 1]) == []
  {
    var k := |ps| - 1;
    var front := ps[..k];
    var idx := BalancingIndices(front);
    if idx != [] {
      assert front[idx[0]].isBalancing && ps[idx[0]] == front[idx[0]];
    } else {
      forall j | 0 <= j < k ensures !ps[j].isBalancing {
        assert j !in idx && front[j] == ps[j];
      }
    }
  }

  lemma SharesMeetRemaining(n: nat, remaining: int, share: int)
    requires n > 0
    ensures SharesTotal(n, share + (remaining - share * n), share) == remaining
  {
  }

  // --- The supply -------------------------------------------------------------------------

  /** What the balancing accounts' own entries held before they were overwritten. */
  function OwnEntries(defs: seq<Account>): int
    requires Prepare(ReadAll(defs)).Some?
  {
    HeldBy(Prepare(ReadAll(defs)).value.accounts, true)
  }

  lemma SettleTotal(ps: seq<Account>, target: int)
    requires BalancingIndices(ps) != []
    ensures Total(Settle(ps, target - Total(ps))) == target - HeldBy(ps, true)
  {
    var remaining := target - Total(ps);
    var share := Share(ps, remaining);
    TotalSplits(ps);
    SettledTotals(ps, share + Dust(ps, remaining), share);
    TotalSplits(Settle(ps, remaining));
    SharesMeetRemaining(|BalancingIndices(ps)|, remaining, share);
  }

  lemma PreparedSupply(p: Option<Prepared>, target: int)
    requires SettlePrepared(p, target).Some?
    ensures p.Some?
    ensures Total(SettlePrepared(p, target).value) == target - HeldBy(p.value.accounts, true)
  {
    SettleTotal(p.value.accounts, target);
  }

  /**
   The processed accounts hold the target supply exactly when the balancing accounts' own entries
   add up to nothing; otherwise those entries, counted and then overwritten, are missing.
   */
  lemma SupplyMeetsTarget(defs: seq<Account>, target: int)
    requires FlareProcessed(defs, target).Some?
    ensures Total(FlareProcessed(defs, target).value) == target - OwnEntries(defs)
    ensures Total(FlareProcessed(defs, target).value) == target <==> OwnEntries(defs) == 0
  {
    PreparedSupply(Prepare(ReadAll(defs)), target);
  }

  /** Processing succeeds exactly when every entry can be read and somebody balances. */
  lemma ProcessingSucceeds(defs: seq<Account>, target: int)
    ensures FlareProcessed(defs, target).Some? <==>
            (forall i :: 0 <= i < |defs| ==> WithEntries(defs[i]).Some?) &&
            (exists i :: 0 <= i < |defs| && defs[i].isBalancing)
  {
    var entries := ReadAll(defs);
    PrepareSucceeds(entries);
    if forall i :: 0 <= i < |entries| ==> entries[i].Some? {
      var ps := Prepare(entries).value.accounts;
      forall i | 0 <= i < |defs| ensures ps[i].isBalancing == defs[i].isBalancing {
        PreparedAt(entries, i);
      }
      if BalancingIndices(ps) != [] {
        assert ps[BalancingIndices(ps)[0]].isBalancing;
      } else {
        forall i | 0 <= i < |defs| ensures !defs[i].isBalancing {
          assert i !in BalancingIndices(ps);
        }
      }
    }
    assert forall i :: 0 <= i < |defs| ==> entries[i] == WithEntries(defs[i]);
  }

  lemma {:induction false} PrepareSucceeds(entries: seq<Option<Account>>)
    ensures Prepare(entries).Some? <==> forall i :: 0 <= i < |entries| ==> entries[i].Some?
    ensures Prepare(entries).Some? ==> |Prepare(entries).value.accounts| == |entries|
  {
    if entries != [] {
      var k := |entries| - 1;
      PrepareSucceeds(entries[..k]);
      if Prepare(entries).Some? {
        forall i | 0 <= i < |entries| ensures entries[i].Some? {
          if i < k { assert entries[..k][i].Some?; }
        }
      }
    }
  }

  /** Addresses missing among the first definitions. */
  function Missing(entries: seq<Option<Account>>): nat
  {
    if entries == [] then 0
    else
      var e := entries[|entries| - 1];
      Missing(entries[..|entries| - 1]) + if e.Some? && e.value.address == "" then 1 else 0
  }

  /** Every prepared account is its read definition, a missing address replaced by the next placeholder. */
  lemma {:induction false} PreparedAt(entries: seq<Option<Account>>, i: nat)
    requires Prepare(entries).Some? && i < |entries|
    ensures |Prepare(entries).value.accounts| == |entries|
    ensures entries[i].Some?
    ensures Prepare(entries).value.accounts[i] == WithAddress(entries[i].value, Missing(entries[..i]))
    ensures Prepare(entries).value.placeholders == Missing(entries)
  {
    var k := |entries| - 1;
    PrepareSucceeds(entries);
    PrepareSucceeds(entries[..k]);
    if k > 0 {
      PreparedAt(entries[..k], if i < k then i else 0);
    }
    if i < k {
      assert entries[..k][..i] == entries[..i];
    }
  }

  // --- The shares -------------------------------------------------------------------------

  lemma QuotientBounds(a: nat, b: nat)
    requires b > 0
    ensures 0 <= a / b && 0 <= a - a / b * b < b
  {
    FloorBounds(a, b);
  }

  lemma NegateProduct(q: int, b: int)
    ensures (-q) * b == -(q * b)
  {
  }

  lemma TruncBounds(a: int, b: nat)
    requires b > 0
    ensures a >= 0 ==> 0 <= TruncDiv(a, b) && 0 <= a - TruncDiv(a, b) * b < b
    ensures a < 0 ==> TruncDiv(a, b) <= 0 && -(b as int) < a - TruncDiv(a, b) * b <= 0
  {
    if a >= 0 {
      QuotientBounds(a, b);
    } else {
      QuotientBounds(-a, b);
      NegateProduct((-a) / b, b);
    }
  }

  /** Where the two amounts of a settlement go. */
  lemma SettledShape(ps: seq<Account>, first: int, share: int)
    ensures var s := Settled(ps, first, share);
            && |s| == |ps|
            && (forall i :: 0 <= i < |ps| && !ps[i].isBalancing ==> s[i] == ps[i])
            && (forall i :: 0 <= i < |ps| && ps[i].isBalancing ==>
                  s[i].balance == Some(if i == BalancingIndices(ps)[0] then first else share))
  {
  }

  /** The accounts of `ps`, the balancing ones with their balances in `rs`. */
  function WithHoldings(ps: seq<Account>, rs: seq<Account>): seq<Account>
    requires |rs| == |ps|
  {
    seq(|ps|, i requires 0 <= i < |ps| =>
      if ps[i].isBalancing then ps[i].(balance := rs[i].balance) else ps[i])
  }

  /** What the balancing accounts of `ps` hold in `rs`. */
  function Holdings(ps: seq<Account>, rs: seq<Account>): seq<int>
    requires |rs| == |ps|
  {
    var idx := BalancingIndices(ps);
    seq(|idx|, k requires 0 <= k < |idx| => Held(rs[idx[k]]))
  }

  /** One share for the first and another for each of the rest. */
  function FirstAndRest(n: nat, first: int, rest: int): seq<int>
  {
    seq(n, k => if k == 0 then first else rest)
  }

  /** All but the first are alike; the first differs by less than their number, on the remainder's side. */
  ghost predicate Even(held: seq<int>, remaining: int)
    requires held != []
  {
    var first, last := held[0], held[|held| - 1];
    && held == FirstAndRest(|held|, first, last)
    && (remaining >= 0 ==> 0 <= first - last < |held|)
    && (remaining <= 0 ==> 0 <= last - first < |held|)
  }

  lemma HoldingsOfSettled(ps: seq<Account>, rs: seq<Account>, first: int, share: int)
    requires rs == Settled(ps, first, share)
    ensures |rs| == |ps| && Holdings(ps, rs) == FirstAndRest(|BalancingIndices(ps)|, first, share)
  {
    SettledShape(ps, first, share);
  }

  lemma DustIsSmall(ps: seq<Account>, remaining: int)
    requires BalancingIndices(ps) != []
    ensures remaining >= 0 ==> 0 <= Dust(ps, remaining) < |BalancingIndices(ps)|
    ensures remaining <= 0 ==> 0 <= -Dust(ps, remaining) < |BalancingIndices(ps)|
  {
    TruncBounds(remaining, |BalancingIndices(ps)|);
  }

  lemma FirstAndRestIsEven(held: seq<int>, n: nat, share: int, dust: int, remaining: int)
    requires n > 0 && held == FirstAndRest(n, share + dust, share)
    requires (remaining >= 0 ==> 0 <= dust < n) && (remaining <= 0 ==> 0 <= -dust < n)
    ensures held != [] && Even(held, remaining)
  {
  }

  /** `rs` is `ps` with the remainder shared out evenly among the balancing accounts. */
  ghost predicate EvenlySettled(ps: seq<Account>, rs: seq<Account>, remaining: int)
  {
    && BalancingIndices(ps) != [] && |rs| == |ps|
    && rs == WithHoldings(ps, rs) && Even(Holdings(ps, rs), remaining)
  }

  lemma SettledEvenly(ps: seq<Account>, rs: seq<Account>, share: int, dust: int, remaining: int)
    requires BalancingIndices(ps) != [] && rs == Settled(ps, share + dust, share)
    requires remaining >= 0 ==> 0 <= dust < |BalancingIndices(ps)|
    requires remaining <= 0 ==> 0 <= -dust < |BalancingIndices(ps)|
    ensures EvenlySettled(ps, rs, remaining)
  {
    SettledChanges(ps, rs, share + dust, share);
    HoldingsOfSettled(ps, rs, share + dust, share);
    FirstAndRestIsEven(Holdings(ps, rs), |BalancingIndices(ps)|, share, dust, remaining);
  }

  lemma SettledChanges(ps: seq<Account>, rs: seq<Account>, first: int, share: int)
    requires rs == Settled(ps, first, share)
    ensures |rs| == |ps| && rs == WithHoldings(ps, rs)
  {
  }

  lemma SettleIsEven(ps: seq<Account>, rs: seq<Account>, remaining: int)
    requires BalancingIndices(ps) != [] && rs == Settle(ps, remaining)
    ensures EvenlySettled(ps, rs, remaining)
  {
    DustIsSmall(ps, remaining);
    SettledEvenly(ps, rs, Share(ps, remaining), Dust(ps, remaining), remaining);
  }

  lemma ProcessedParts(defs: seq<Account>, target: int)
    requires FlareProcessed(defs, target).Some?
    ensures Prepare(ReadAll(defs)).Some?
    ensures var ps := Prepare(ReadAll(defs)).value.accounts;
            BalancingIndices(ps) != [] && FlareProcessed(defs, target) == Some(Settle(ps, target - Total(ps)))
  {
  }

  /**
   Processing changes only the balances of the balancing accounts. All but the first end alike; the
   first differs from them by less than one unit per balancing account, on the remainder's side.
   */
  lemma SharesAreEven(defs: seq<Account>, target: int, rs: seq<Account>)
    requires FlareProcessed(defs, target) == Some(rs)
    ensures Prepare(ReadAll(defs)).Some?
    ensures var ps := Prepare(ReadAll(defs)).value.accounts; EvenlySettled(ps, rs, target - Total(ps))
  {
    PreparedIsEven(Prepare(ReadAll(defs)), target, rs);
  }

  lemma PreparedIsEven(p: Option<Prepared>, target: int, rs: seq<Account>)
    requires SettlePrepared(p, target) == Some(rs)
    ensures p.Some? && EvenlySettled(p.value.accounts, rs, target - Total(p.value.accounts))
  {
    SettleIsEven(p.value.accounts, rs, target - Total(p.value.accounts));
  }

  lemma SharesHaveOneSign(remaining: int, n: nat, share: int, first: int)
    requires n > 0 && share == TruncDiv(remaining, n) && first == share + (remaining - share * n)
    ensures remaining >= 0 ==> share >= 0 && first >= 0
    ensures remaining < 0 ==> first < 0
  {
    TruncBounds(remaining, n);
  }

  lemma SettledNonNegative(ps: seq<Account>, first: int, share: int)
    requires BalancingIndices(ps) != [] && (first >= 0 ==> share >= 0)
    ensures (forall i :: 0 <= i < |ps| && ps[i].isBalancing ==> Held(Settled(ps, first, share)[i]) >= 0)
            <==> first >= 0
  {
    SettledShape(ps, first, share);
    var i := BalancingIndices(ps)[0];
    assert ps[i].isBalancing && Held(Settled(ps, first, share)[i]) == first;
  }

  /** No balancing account ends below zero exactly when the other accounts leave something to share. */
  lemma SharesNonNegativeIff(ps: seq<Account>, remaining: int)
    requires BalancingIndices(ps) != []
    ensures (forall i :: 0 <= i < |ps| && ps[i].isBalancing ==> Held(Settle(ps, remaining)[i]) >= 0)
            <==> remaining >= 0
  {
    var share := Share(ps, remaining);
    var first := share + Dust(ps, remaining);
    SharesHaveOneSign(remaining, |BalancingIndices(ps)|, share, first);
    SettledNonNegative(ps, first, share);
  }

  // --- The other accounts -----------------------------------------------------------------

  lemma OtherStays(p: Option<Prepared>, target: int, rs: seq<Account>, i: nat)
    requires SettlePrepared(p, target) == Some(rs) && i < |p.value.accounts| && !p.value.accounts[i].isBalancing
    ensures |rs| == |p.value.accounts| && rs[i] == p.value.accounts[i]
  {
  }

  lemma PreparedKeepsEntry(entries: seq<Option<Account>>, i: nat)
    requires Prepare(entries).Some? && i < |entries|
    ensures |Prepare(entries).value.accounts| == |entries| && entries[i].Some?
    ensures Prepare(entries).value.accounts[i].isBalancing == entries[i].value.isBalancing
    ensures Prepare(entries).value.accounts[i].balance == entries[i].value.balance
  {
    PreparedAt(entries, i);
  }

  lemma ReadEntryStays(entries: seq<Option<Account>>, p: Option<Prepared>, target: int, rs: seq<Account>, i: nat)
    requires p == Prepare(entries) && SettlePrepared(p, target) == Some(rs) && i < |entries|
    ensures |rs| == |entries| && entries[i].Some?
    ensures !entries[i].value.isBalancing ==> rs[i].balance == entries[i].value.balance
  {
    PreparedKeepsEntry(entries, i);
    if entries[i].value.isBalancing {
      SettledLength(p, target, rs);
    } else {
      OtherStays(p, target, rs, i);
    }
  }

  lemma SettledLength(p: Option<Prepared>, target: int, rs: seq<Account>)
    requires SettlePrepared(p, target) == Some(rs)
    ensures |rs| == |p.value.accounts|
  {
  }

  lemma OtherIsRead(defs: seq<Account>, target: int, rs: seq<Account>, i: nat)
    requires FlareProcessed(defs, target) == Some(rs) && i < |defs| && !defs[i].isBalancing
    ensures |rs| == |defs| && WithEntries(defs[i]).Some? && rs[i].balance == WithEntries(defs[i]).value.balance
  {
    ReadEntryStays(ReadAll(defs), Prepare(ReadAll(defs)), target, rs, i);
    assert ReadAll(defs)[i] == WithEntries(defs[i]);
  }

  /** The processed balance of every account that does not balance is what its entries are worth. */
  lemma EntryBecomesBalance(defs: seq<Account>, target: int, rs: seq<Account>, i: nat, n: nat, fixedLength: nat)
    requires FlareProcessed(defs, target) == Some(rs) && i < |defs| && !defs[i].isBalancing
    ensures |rs| == |defs|
    ensures defs[i].initialEntryWei == "" && defs[i].initialEntryNat == RegexGroup(ToBase(n, 10), ',') ==>
              rs[i].balance == Some(n * Pow(10, 18))
    ensures defs[i].initialEntryWei == FormatWei(n, fixedLength) ==> rs[i].balance == Some(n)
    ensures defs[i].initialEntryWei == "" && defs[i].initialEntryNat == "" ==> rs[i].balance == defs[i].balance
  {
    OtherIsRead(defs, target, rs, i);
    EntriesWorth(defs[i], n, fixedLength);
  }

  /** Every account keeps its place, its number, its mark and a given address; a missing one is filled in. */
  lemma IdentityIsKept(defs: seq<Account>, target: int, rs: seq<Account>, i: nat)
    requires FlareProcessed(defs, target) == Some(rs) && i < |defs|
    ensures |rs| == |defs| && rs[i].id == defs[i].id && rs[i].isBalancing == defs[i].isBalancing
    ensures rs[i].address
         == if defs[i].address != "" then defs[i].address else Placeholder(Missing(ReadAll(defs)[..i]))
  {
    var entries := ReadAll(defs);
    ProcessedParts(defs, target);
    PreparedAt(entries, i);
    assert entries[i] == WithEntries(defs[i]);
  }

  // --- Addresses --------------------------------------------------------------------------

  lemma {:induction false} StripDots(n: nat)
    ensures Strip(Fill('.', n), {'.'}) == []
  {
    if n > 0 {
      StripDots(n - 1);
      assert Fill('.', n)[1..] == Fill('.', n - 1);
    }
  }

  /** The padded counter determines the counter, also beyond 42 digits. */
  lemma PlaceholderInjective(m: nat, n: nat)
    requires Placeholder(m) == Placeholder(n)
    ensures m == n
  {
    PlaceholderReads(m);
    PlaceholderReads(n);
    PrintingIsInjective(m, n, 10);
  }

  lemma NumeralChars(n: nat, i: nat)
    requires i < |ToBase(n, 10)|
    ensures ToBase(n, 10)[i] != '.' && ToBase(n, 10)[i] != 'x'
  {
  }

  lemma PlaceholderChars(n: nat)
    ensures Placeholder(n) != "" && forall i :: 0 <= i < |Placeholder(n)| ==> Placeholder(n)[i] != 'x'
  {
    var s := ToBase(n, 10);
    forall i | 0 <= i < |s| ensures s[i] != 'x' { NumeralChars(n, i); }
    ParsePrinted(n, 10);
  }

  /** A placeholder is as long as an address: the decimal counter, filled up with dots on the left. */
  lemma PlaceholderShape(n: nat)
    requires n < Pow(10, 42)
    ensures |Placeholder(n)| == 42
    ensures var digits := |ToBase(n, 10)|;
            && digits <= 42 && Placeholder(n)[42 - digits..] == ToBase(n, 10)
            && forall i :: 0 <= i < 42 - digits ==> Placeholder(n)[i] == '.'
  {
    PrintedLength(n, 10, 42);
  }

  lemma PlaceholderReads(n: nat)
    ensures Strip(Placeholder(n), {'.'}) == ToBase(n, 10)
  {
    var s := ToBase(n, 10);
    forall i | 0 <= i < |s| ensures s[i] !in {'.'} { NumeralChars(n, i); }
    StripKeeps(s, {'.'});
    if |s| < 42 {
      StripDots(42 - |s|);
      StripConcat(Fill('.', 42 - |s|), s, {'.'});
      assert [] + s == s;
    }
  }

  predicate HexAddress(a: string)
  {
    |a| >= 2 && a[0] == '0' && a[1] == 'x'
  }

  lemma {:induction false} MissingGrows(entries: seq<Option<Account>>, i: nat, j: nat)
    requires i < j <= |entries|
    ensures Missing(entries[..i]) <= Missing(entries[..j])
    ensures entries[i].Some? && entries[i].value.address == "" ==> Missing(entries[..i]) < Missing(entries[..j])
    decreases j
  {
    assert entries[..j][..j - 1] == entries[..j - 1];
    if i < j - 1 {
      MissingGrows(entries, i, j - 1);
    }
  }

  /** Given distinct hexadecimal addresses, all processed addresses are present and distinct. */
  lemma AddressesStayDistinct(entries: seq<Option<Account>>, i: nat, j: nat)
    requires Prepare(entries).Some? && i < j < |entries|
    requires forall k :: 0 <= k < |entries| && entries[k].Some? && entries[k].value.address != "" ==>
               HexAddress(entries[k].value.address)
    requires entries[i].Some? && entries[j].Some? && entries[i].value.address == entries[j].value.address ==>
               entries[i].value.address == ""
    ensures var ps := Prepare(entries).value.accounts;
            |ps| == |entries| && ps[i].address != "" && ps[j].address != "" && ps[i].address != ps[j].address
  {
    PreparedAt(entries, i);
    PreparedAt(entries, j);
    var m, n := Missing(entries[..i]), Missing(entries[..j]);
    PlaceholderChars(m);
    PlaceholderChars(n);
    MissingGrows(entries, i, j);
    var a, b := entries[i].value.address, entries[j].value.address;
    if a == "" && b == "" {
      if Placeholder(m) == Placeholder(n) {
        PlaceholderInjective(m, n);
      }
    } else {
      assert a != "" ==> a[1] == 'x';
      assert b != "" ==> b[1] == 'x';
    }
  }

  // --- The supply check of the printout ---------------------------------------------------

  /** Sums the processed balances; an account left without one makes the script throw. */
  method CalculateTotalSupplyFromAccounts(accounts: seq<GenesisAccount>) returns (r: Option<int>)
    ensures r.Some? <==> forall i :: 0 <= i < |accounts| ==> accounts[i].balance.Some?
    ensures r.Some? ==> r.value == Total(Views(accounts))
  {
    var totalSupply := 0;
    for i := 0 to |accounts|
      invariant forall k :: 0 <= k < i ==> accounts[k].balance.Some?
      invariant totalSupply == Total(Views(accounts)[..i])
    {
      var account := accounts[i];
      assert Views(accounts)[..i + 1][..i] == Views(accounts)[..i];
      if account.balance.None? {
        return None;
      }
      totalSupply := totalSupply + account.balance.value;
    }
    assert Views(accounts)[..|accounts|] == Views(accounts);
    r := Some(totalSupply);
  }
}
