/**
 The example price provider: it submits a hash for every price epoch and reveals the prices when
 the next epoch begins, against a clock that moves on between its actions. The checks of the mock
 contracts decide which of its transactions go through.
 */
module PriceProvider {
  import opened Arithmetic
  import opened Wrappers

  /** The epochs of the contracts, and the FTSO indices the provider is whitelisted for. */
  datatype Config = Config(firstEpochStart: int, submitPeriod: nat, revealPeriod: nat, whitelist: set<nat>)

  ghost predicate ValidConfig(c: Config)
  {
    c.submitPeriod > 0
  }

  datatype Data = Data(indices: seq<nat>, prices: seq<nat>, random: nat)

  const SYMBOLS: nat := 10
  const MINIMAL_RANDOM: nat := 0x1_0000_0000_0000_0000_0000_0000_0000_0000
  const PRICE_LIMIT: nat := 0x1_0000_0000_0000_0000_0000_0000_0000_0000

  /** What a round reveals: a price for every symbol, by `getPrice`, and a random by `getRandom`. */
  ghost predicate Generated(c: Config, d: Data)
  {
    && |d.indices| == |d.prices| == SYMBOLS
    && (forall i :: 0 <= i < SYMBOLS ==> d.indices[i] == i && i in c.whitelist && 10000 <= d.prices[i] < 10200)
    && MINIMAL_RANDOM <= d.random < MINIMAL_RANDOM + 1000
  }

  datatype Event =
    | Submit(epoch: int, hash: string, time: int)
    | Reveal(epoch: int, data: Data, time: int)

  /**
   How long the steps of one round take: until the submission is mined, until the time is read,
   how much too late the sleep returns, until the reveal is mined.
   */
  datatype Round = Round(submitDelay: nat, sampleDelay: nat, oversleep: nat, revealDelay: nat)

  datatype Run = Run(bootTime: int, bootDelay: nat, rounds: seq<Round>, data: seq<Data>)

  ghost predicate ValidRun(c: Config, r: Run)
  {
    |r.data| == |r.rounds| && forall k :: 0 <= k < |r.data| ==> Generated(c, r.data[k])
  }

  function EpochStart(c: Config, epoch: int): int
  {
    epoch * c.submitPeriod + c.firstEpochStart
  }

  function StartingEpoch(c: Config, bootTime: int): int
    requires c.submitPeriod > 0
  {
    (bootTime - c.firstEpochStart) / c.submitPeriod + 1
  }

  // --- When things happen in a run --------------------------------------------------------

  /** The time at the top of round k. */
  function ClockAt(c: Config, r: Run, k: nat): int
    requires c.submitPeriod > 0 && k <= |r.rounds|
    decreases k, 0
  {
    if k == 0 then EpochStart(c, StartingEpoch(c, r.bootTime)) + 1 + r.bootDelay
    else RevealTime(c, r, k - 1)
  }

  function SubmitTime(c: Config, r: Run, k: nat): int
    requires c.submitPeriod > 0 && k < |r.rounds|
    decreases k, 1
  {
    ClockAt(c, r, k) + r.rounds[k].submitDelay
  }

  /** When the sleep of round k is due to end: at once if the next epoch has already begun. */
  function WakeTarget(c: Config, r: Run, k: nat): int
    requires c.submitPeriod > 0 && k < |r.rounds|
    decreases k, 2
  {
    var now, next := SubmitTime(c, r, k) + r.rounds[k].sampleDelay, EpochStart(c, StartingEpoch(c, r.bootTime) + k + 1);
    if next > now then next else now
  }

  function RevealTime(c: Config, r: Run, k: nat): int
    requires c.submitPeriod > 0 && k < |r.rounds|
    decreases k, 3
  {
    WakeTarget(c, r, k) + r.rounds[k].oversleep + r.rounds[k].revealDelay
  }

  // --- The provider -----------------------------------------------------------------------

  /** `sleep(diff * 1000)`: a negative or zero duration returns at once. */
  function AfterSleep(clock: int, diff: int): int
  {
    if diff > 0 then clock + diff else clock
  }

  function SubmitOf(c: Config, r: Run, hash: Data -> string, k: nat): (e: Event)
    requires c.submitPeriod > 0 && k < |r.rounds| <= |r.data|
  {
    Submit(StartingEpoch(c, r.bootTime) + k, hash(r.data[k]), SubmitTime(c, r, k))
  }

  function RevealOf(c: Config, r: Run, k: nat): (e: Event)
    requires c.submitPeriod > 0 && k < |r.rounds| <= |r.data|
  {
    Reveal(StartingEpoch(c, r.bootTime) + k, r.data[k], RevealTime(c, r, k))
  }

  /** What the provider sends in its first k rounds: hash and prices of consecutive epochs. */
  function LogOf(c: Config, r: Run, hash: Data -> string, k: nat): seq<Event>
    requires c.submitPeriod > 0 && k <= |r.rounds| <= |r.data|
  {
    if k == 0 then []
    else LogOf(c, r, hash, k - 1) + [SubmitOf(c, r, hash, k - 1)] + [RevealOf(c, r, k - 1)]
  }

  /** Round k commits to its data and reveals the very same data for the same epoch. */
  lemma {:induction false} RoundInLog(c: Config, r: Run, hash: Data -> string, n: nat, k: nat)
    requires ValidConfig(c) && k < n <= |r.rounds| <= |r.data|
    ensures var log, e := LogOf(c, r, hash, n), StartingEpoch(c, r.bootTime) + k;
            && |log| == 2 * n
            && log[2 * k] == Submit(e, hash(r.data[k]), SubmitTime(c, r, k))
            && log[2 * k + 1] == Reveal(e, r.data[k], RevealTime(c, r, k))
  {
    LogLength(c, r, hash, n - 1);
    if k < n - 1 {
      RoundInLog(c, r, hash, n - 1, k);
    }
  }

  lemma {:induction false} LogLength(c: Config, r: Run, hash: Data -> string, n: nat)
    requires ValidConfig(c) && n <= |r.rounds| <= |r.data|
    ensures |LogOf(c, r, hash, n)| == 2 * n
  {
    if n > 0 {
      LogLength(c, r, hash, n - 1);
    }
  }

  /** The first |rounds| rounds of the endless loop; `clock` is the time of the outside world. */
  method RunProvider(c: Config, r: Run, hash: Data -> string) returns (log: seq<Event>)
    requires ValidConfig(c) && ValidRun(c, r)
    ensures log == LogOf(c, r, hash, |r.rounds|)
  {
    log := [];
    var clock := r.bootTime;
    var now := clock;
    var startingEpoch := (now - c.firstEpochStart) / c.submitPeriod + 1;
    var next := startingEpoch * c.submitPeriod + c.firstEpochStart;
    var diff := next - now + 1;
    StartIsAhead(c, r.bootTime);
    clock := AfterSleep(clock, diff) + r.bootDelay;
    var currentEpoch := startingEpoch;
    for k := 0 to |r.rounds|
      invariant currentEpoch == StartingEpoch(c, r.bootTime) + k
      invariant clock == ClockAt(c, r, k)
      invariant log == LogOf(c, r, hash, k)
    {
      clock, log := PlayRound(c, r, hash, k, currentEpoch, clock, log);
      currentEpoch := currentEpoch + 1;
    }
  }

  /** The body of the loop for round k. */
  method PlayRound(c: Config, r: Run, hash: Data -> string, k: nat, epoch: int, clock0: int, log0: seq<Event>)
      returns (clock: int, log: seq<Event>)
    requires ValidConfig(c) && ValidRun(c, r) && k < |r.rounds|
    requires epoch == StartingEpoch(c, r.bootTime) + k && clock0 == ClockAt(c, r, k)
    requires log0 == LogOf(c, r, hash, k)
    ensures clock == ClockAt(c, r, k + 1)
    ensures log == LogOf(c, r, hash, k + 1)
  {
    var currentEpoch, committed := epoch, r.data[k];
    clock := clock0 + r.rounds[k].submitDelay;
    log := log0 + [Submit(currentEpoch, hash(committed), clock)];
    currentEpoch := currentEpoch + 1;
    clock := clock + r.rounds[k].sampleDelay;
    var now := clock;
    var next := currentEpoch * c.submitPeriod + c.firstEpochStart;
    var diff := next - now;
    clock := AfterSleep(clock, diff);
    assert clock == WakeTarget(c, r, k);
    clock := clock + r.rounds[k].oversleep;
    clock := clock + r.rounds[k].revealDelay;
    log := log + [Reveal(currentEpoch - 1, committed, clock)];
  }

  /** The first epoch submitted to is the next one after the boot time. */
  lemma StartIsAhead(c: Config, bootTime: int)
    requires ValidConfig(c)
    ensures EpochStart(c, StartingEpoch(c, bootTime) - 1) <= bootTime < EpochStart(c, StartingEpoch(c, bootTime))
  {
  }

  /** Not earlier than one submit period before the first epoch. */
  ghost predicate BootedInTime(c: Config, bootTime: int)
  {
    c.firstEpochStart <= bootTime + c.submitPeriod
  }

  lemma StartNonNegativeIff(c: Config, bootTime: int)
    requires ValidConfig(c)
    ensures StartingEpoch(c, bootTime) >= 0 <==> BootedInTime(c, bootTime)
  {
    var start := StartingEpoch(c, bootTime);
    StartIsAhead(c, bootTime);
    NextStart(c, -1);
    if start >= 0 {
      Scale(c.submitPeriod, -1, start - 1);
    } else {
      Scale(c.submitPeriod, start, -1);
    }
  }

  // --- How late the provider is -----------------------------------------------------------

  /**
   How long after the start of its epoch round k begins: what the epoch before could not make up
   for by a shorter sleep, and what was lost between the planned wake-up and the mined reveal.
   */
  function Carry(c: Config, r: Run, k: nat): nat
    requires k <= |r.rounds|
  {
    if k == 0 then 1 + r.bootDelay
    else
      var d := r.rounds[k - 1];
      var over := Carry(c, r, k - 1) + d.submitDelay + d.sampleDelay - c.submitPeriod;
      (if over > 0 then over else 0) + d.oversleep + d.revealDelay
  }

  lemma NextStart(c: Config, epoch: int)
    ensures EpochStart(c, epoch + 1) == EpochStart(c, epoch) + c.submitPeriod
  {
  }

  lemma {:induction false} ClockIsCarry(c: Config, r: Run, k: nat)
    requires ValidConfig(c) && k <= |r.rounds|
    ensures ClockAt(c, r, k) == EpochStart(c, StartingEpoch(c, r.bootTime) + k) + Carry(c, r, k)
  {
    if k > 0 {
      var j, epoch := k - 1, StartingEpoch(c, r.bootTime) + k - 1;
      ClockIsCarry(c, r, j);
      NextStart(c, epoch);
      assert WakeTarget(c, r, j) - EpochStart(c, epoch + 1)
          == var over := Carry(c, r, j) + r.rounds[j].submitDelay + r.rounds[j].sampleDelay - c.submitPeriod;
             if over > 0 then over else 0;
      assert ClockAt(c, r, k) == RevealTime(c, r, j);
    }
  }

  ghost predicate InSubmitWindow(c: Config, epoch: int, time: int)
  {
    EpochStart(c, epoch) <= time < EpochStart(c, epoch + 1)
  }

  ghost predicate InRevealWindow(c: Config, epoch: int, time: int)
  {
    EpochStart(c, epoch + 1) <= time < EpochStart(c, epoch + 1) + c.revealPeriod
  }

  /** Round k submits inside its own epoch and reveals inside the reveal window of that epoch. */
  ghost predicate OnTime(c: Config, r: Run, k: nat)
    requires ValidConfig(c) && k < |r.rounds|
  {
    && InSubmitWindow(c, StartingEpoch(c, r.bootTime) + k, SubmitTime(c, r, k))
    && InRevealWindow(c, StartingEpoch(c, r.bootTime) + k, RevealTime(c, r, k))
  }

  /** The lateness of round k stays inside both windows. */
  ghost predicate InBounds(c: Config, r: Run, k: nat)
    requires k < |r.rounds|
  {
    Carry(c, r, k) + r.rounds[k].submitDelay < c.submitPeriod && Carry(c, r, k + 1) < c.revealPeriod
  }

  /** Whatever the delays, a round is on time exactly when the lateness stays inside both windows. */
  lemma OnTimeIff(c: Config, r: Run, k: nat)
    requires ValidConfig(c) && k < |r.rounds|
    ensures OnTime(c, r, k) <==> InBounds(c, r, k)
  {
    ClockIsCarry(c, r, k);
    ClockIsCarry(c, r, k + 1);
    NextStart(c, StartingEpoch(c, r.bootTime) + k);
  }

  /** The sleep of a round is planned to end at the next epoch's start unless the epoch is already over. */
  lemma WakesAtEpochIff(c: Config, r: Run, k: nat)
    requires ValidConfig(c) && k < |r.rounds|
    ensures WakeTarget(c, r, k) == EpochStart(c, StartingEpoch(c, r.bootTime) + k + 1) <==>
              Carry(c, r, k) + r.rounds[k].submitDelay + r.rounds[k].sampleDelay <= c.submitPeriod
  {
    ClockIsCarry(c, r, k);
    NextStart(c, StartingEpoch(c, r.bootTime) + k);
  }

  // --- Punctual runs ----------------------------------------------------------------------

  /** Everything that delays the provider between the planned wake-up before round k and its sleep. */
  function Lateness(r: Run, k: nat): nat
    requires k <= |r.rounds|
  {
    (if k == 0 then r.bootDelay else r.rounds[k - 1].oversleep + r.rounds[k - 1].revealDelay) +
    (if k < |r.rounds| then r.rounds[k].submitDelay + r.rounds[k].sampleDelay else 0)
  }

  function Tolerance(c: Config): int
  {
    if c.revealPeriod < c.submitPeriod - 1 then c.revealPeriod else c.submitPeriod - 1
  }

  ghost predicate Punctual(c: Config, r: Run)
  {
    forall k :: 0 <= k <= |r.rounds| ==> Lateness(r, k) < Tolerance(c)
  }

  /** Each round of a punctual run begins late only by what was lost since the last wake-up. */
  lemma {:induction false} PunctualCarry(c: Config, r: Run, k: nat)
    requires Punctual(c, r) && k <= |r.rounds|
    ensures Carry(c, r, k)
         == if k == 0 then 1 + r.bootDelay else r.rounds[k - 1].oversleep + r.rounds[k - 1].revealDelay
  {
    if k > 0 {
      PunctualCarry(c, r, k - 1);
      assert Lateness(r, k - 1) < Tolerance(c);
    }
  }

  /** In a punctual run every sleep is planned to end exactly at an epoch start: delays never add up. */
  lemma NoDrift(c: Config, r: Run, k: nat)
    requires ValidConfig(c) && Punctual(c, r) && k < |r.rounds|
    ensures WakeTarget(c, r, k) == EpochStart(c, StartingEpoch(c, r.bootTime) + k + 1)
  {
    PunctualCarry(c, r, k);
    WakesAtEpochIff(c, r, k);
    assert Lateness(r, k) < Tolerance(c);
  }

  /** In a punctual run every round is on time. */
  lemma PunctualIsOnTime(c: Config, r: Run, k: nat)
    requires ValidConfig(c) && Punctual(c, r) && k < |r.rounds|
    ensures OnTime(c, r, k)
  {
    PunctualCarry(c, r, k);
    PunctualCarry(c, r, k + 1);
    OnTimeIff(c, r, k);
    assert Lateness(r, k) < Tolerance(c);
    assert Lateness(r, k + 1) < Tolerance(c);
  }

  // --- The contracts ----------------------------------------------------------------------

  /** The hashes waiting for their reveal and the prices revealed, by epoch, of one provider. */
  datatype Store = Store(hashes: map<int, string>, revealed: map<int, seq<nat>>)

  const EMPTY: Store := Store(map[], map[])

  function CurrentEpoch(c: Config, time: int): int
    requires c.submitPeriod > 0
  {
    if time < c.firstEpochStart then 0 else (time - c.firstEpochStart) / c.submitPeriod
  }

  /** `submitHash`: the epoch named is the current one, no hash is waiting for it, the sender is whitelisted. */
  function SubmitHash(c: Config, s: Store, epoch: int, h: string, time: int): Option<Store>
    requires c.submitPeriod > 0
  {
    if epoch >= 0 && epoch == CurrentEpoch(c, time) && epoch !in s.hashes && c.whitelist != {}
    then Some(s.(hashes := s.hashes[epoch := h])) else None
  }

  /** What `revealPrices` itself requires of the data. */
  ghost predicate WellFormedReveal(c: Config, d: Data)
  {
    && |d.indices| == |d.prices|
    && d.random >= MINIMAL_RANDOM
    && (forall i :: 1 <= i < |d.indices| ==> d.indices[i - 1] < d.indices[i])
    && (forall i :: 0 <= i < |d.indices| ==> d.indices[i] in c.whitelist)
  }

  /** `revealPriceSubmitter`, called once per price: the price is below its limit and in its window. */
  ghost predicate PriceTaken(c: Config, epoch: int, price: nat, time: int)
  {
    price < PRICE_LIMIT && InRevealWindow(c, epoch, time)
  }

  ghost predicate PricesTaken(c: Config, epoch: int, prices: seq<nat>, time: int)
  {
    forall i :: 0 <= i < |prices| ==> PriceTaken(c, epoch, prices[i], time)
  }

  /**
   The data is well formed, matches the hash that is waiting, and every price is taken. The hash is
   deleted, so that nothing can be revealed twice.
   */
  ghost function RevealPrices(c: Config, hash: Data -> string, s: Store, epoch: int, data: Data, time: int)
      : Option<Store>
  {
    if WellFormedReveal(c, data) && epoch in s.hashes && s.hashes[epoch] == hash(data)
       && PricesTaken(c, epoch, data.prices, time)
    then Some(Store(s.hashes - {epoch}, s.revealed[epoch := data.prices])) else None
  }

  ghost function Transact(c: Config, hash: Data -> string, s: Store, e: Event): Option<Store>
    requires c.submitPeriod > 0
  {
    match e
    case Submit(epoch, h, time) => SubmitHash(c, s, epoch, h, time)
    case Reveal(epoch, data, time) => RevealPrices(c, hash, s, epoch, data, time)
  }

  /** What the contracts hold after the given transactions, or None once one of them has reverted. */
  ghost function Contract(c: Config, hash: Data -> string, log: seq<Event>): Option<Store>
    requires c.submitPeriod > 0
  {
    if log == [] then Some(EMPTY)
    else
      match Contract(c, hash, log[..|log| - 1])
      case None => None
      case Some(s) => Transact(c, hash, s, log[|log| - 1])
  }

  // --- Once per epoch, in any accepted history --------------------------------------------

  function Submits(log: seq<Event>, epoch: int): nat
  {
    if log == [] then 0
    else
      var e := log[|log| - 1];
      Submits(log[..|log| - 1], epoch) + if e.Submit? && e.epoch == epoch then 1 else 0
  }

  function Reveals(log: seq<Event>, epoch: int): nat
  {
    if log == [] then 0
    else
      var e := log[|log| - 1];
      Reveals(log[..|log| - 1], epoch) + if e.Reveal? && e.epoch == epoch then 1 else 0
  }

  lemma CountsOfRound(log: seq<Event>, s: Event, v: Event, epoch: int)
    requires s.Submit? && v.Reveal?
    ensures Submits(log + [s] + [v], epoch) == Submits(log, epoch) + if s.epoch == epoch then 1 else 0
    ensures Reveals(log + [s] + [v], epoch) == Reveals(log, epoch) + if v.epoch == epoch then 1 else 0
  {
    assert (log + [s])[..|log|] == log && (log + [s] + [v])[..|log| + 1] == log + [s];
  }

  ghost predicate InOrder(log: seq<Event>)
  {
    forall i, j :: 0 <= i < j < |log| ==> log[i].time <= log[j].time
  }

  /** The reveal carries a price or comes after its epoch. */
  ghost predicate Closing(c: Config, e: Event)
    requires c.submitPeriod > 0
  {
    e.Reveal? ==> e.data.prices != [] || CurrentEpoch(c, e.time) != e.epoch
  }

  ghost predicate RevealsClose(c: Config, log: seq<Event>)
    requires c.submitPeriod > 0
  {
    forall i :: 0 <= i < |log| ==> Closing(c, log[i])
  }

  lemma CurrentEpochIff(c: Config, epoch: int, time: int)
    requires ValidConfig(c)
    ensures epoch >= 0 && CurrentEpoch(c, time) == epoch ==> time < EpochStart(c, epoch + 1)
    ensures time >= c.firstEpochStart ==> (CurrentEpoch(c, time) == epoch <==> InSubmitWindow(c, epoch, time))
  {
    NextStart(c, epoch);
    var n := time - c.firstEpochStart;
    FloorBounds(n, c.submitPeriod);
    if InSubmitWindow(c, epoch, time) {
      FloorUnique(n, c.submitPeriod, epoch);
    }
    if n < 0 && epoch == 0 {
      assert EpochStart(c, 0 + 1) == c.submitPeriod + c.firstEpochStart;
    }
  }

  /** Hashes and reveals of an epoch alternate, and a hash waits exactly until its reveal. */
  ghost predicate Alternating(log: seq<Event>, s: Store, epoch: int)
  {
    && Reveals(log, epoch) <= Submits(log, epoch) <= Reveals(log, epoch) + 1
    && (epoch in s.hashes <==> Submits(log, epoch) == Reveals(log, epoch) + 1)
    && (epoch in s.revealed <==> Reveals(log, epoch) > 0)
  }

  lemma {:induction false} AcceptedAlternates(c: Config, hash: Data -> string, log: seq<Event>, epoch: int)
    requires ValidConfig(c) && Contract(c, hash, log).Some?
    ensures Alternating(log, Contract(c, hash, log).value, epoch)
  {
    if log != [] {
      AcceptedAlternates(c, hash, log[..|log| - 1], epoch);
    }
  }

  lemma CurrentEpochMonotone(c: Config, t: int, t': int)
    requires ValidConfig(c) && t <= t'
    ensures 0 <= CurrentEpoch(c, t) <= CurrentEpoch(c, t')
  {
    if t >= c.firstEpochStart {
      var n, n', p := t - c.firstEpochStart, t' - c.firstEpochStart, c.submitPeriod;
      FloorBounds(n, p);
      FloorAtLeast(n', p, n / p);
    }
  }

  /** An epoch waiting for its reveal has begun. */
  lemma {:induction false} WaitingHasBegun(c: Config, hash: Data -> string, log: seq<Event>, epoch: int, time: int)
    requires ValidConfig(c) && Contract(c, hash, log).Some? && epoch in Contract(c, hash, log).value.hashes
    requires forall i :: 0 <= i < |log| ==> log[i].time <= time
    ensures 0 <= epoch <= CurrentEpoch(c, time) && c.whitelist != {}
  {
    var n := |log| - 1;
    var e := log[n];
    if e.Submit? && e.epoch == epoch {
      CurrentEpochMonotone(c, e.time, time);
    } else {
      WaitingHasBegun(c, hash, log[..n], epoch, time);
    }
  }

  lemma WindowIsLater(c: Config, epoch: int, prices: seq<nat>, time: int)
    requires ValidConfig(c) && epoch >= 0 && prices != [] && PricesTaken(c, epoch, prices, time)
    ensures CurrentEpoch(c, time) != epoch
  {
    assert PriceTaken(c, epoch, prices[0], time);
    CurrentEpochIff(c, epoch, time);
  }

  lemma PastIsClosed(c: Config, s: Store, epoch: int, t: int)
    requires ValidConfig(c) && epoch < CurrentEpoch(c, t)
    ensures forall h, t' :: t' >= t ==> SubmitHash(c, s, epoch, h, t').None?
  {
    forall h, t' | t' >= t ensures SubmitHash(c, s, epoch, h, t').None? {
      CurrentEpochMonotone(c, t, t');
    }
  }

  /**
   The duplicate check forgets an epoch once it is revealed. The epoch takes no second hash at any
   later time exactly when the reveal carries a price or comes after the epoch.
   */
  lemma RevealClosesIff(c: Config, hash: Data -> string, log: seq<Event>, epoch: int, d: Data, t: int, s: Store)
    requires ValidConfig(c) && Contract(c, hash, log).Some? && forall i :: 0 <= i < |log| ==> log[i].time <= t
    requires Transact(c, hash, Contract(c, hash, log).value, Reveal(epoch, d, t)) == Some(s)
    ensures (forall h, t' :: t' >= t ==> SubmitHash(c, s, epoch, h, t').None?) <==> Closing(c, Reveal(epoch, d, t))
  {
    WaitingHasBegun(c, hash, log, epoch, t);
    if Closing(c, Reveal(epoch, d, t)) {
      if d.prices != [] {
        WindowIsLater(c, epoch, d.prices, t);
      }
      PastIsClosed(c, s, epoch, t);
    } else {
      assert SubmitHash(c, s, epoch, "", t).Some?;
    }
  }

  /** An epoch revealed by a closing reveal is past. */
  lemma {:induction false} RevealedIsPast(c: Config, hash: Data -> string, log: seq<Event>, epoch: int, time: int)
    requires ValidConfig(c) && Contract(c, hash, log).Some? && RevealsClose(c, log) && Reveals(log, epoch) > 0
    requires InOrder(log) && forall i :: 0 <= i < |log| ==> log[i].time <= time
    ensures epoch < CurrentEpoch(c, time)
  {
    var n := |log| - 1;
    var e := log[n];
    if e.Reveal? && e.epoch == epoch {
      WaitingHasBegun(c, hash, log[..n], epoch, e.time);
      assert Closing(c, log[n]);
      if e.data.prices != [] {
        WindowIsLater(c, epoch, e.data.prices, e.time);
      }
      CurrentEpochMonotone(c, e.time, time);
    } else {
      RevealedIsPast(c, hash, log[..n], epoch, time);
    }
  }

  /**
   In every history the contracts accept, whose reveals all carry a price or come after their
   epoch, an epoch takes at most one hash and at most one reveal.
   */
  lemma {:induction false} OncePerEpoch(c: Config, hash: Data -> string, log: seq<Event>, epoch: int)
    requires ValidConfig(c) && Contract(c, hash, log).Some? && InOrder(log) && RevealsClose(c, log)
    ensures Reveals(log, epoch) <= Submits(log, epoch) <= 1
  {
    AcceptedAlternates(c, hash, log, epoch);
    if log != [] {
      var n := |log| - 1;
      var front := log[..n];
      OncePerEpoch(c, hash, front, epoch);
      AcceptedAlternates(c, hash, front, epoch);
      if Reveals(front, epoch) > 0 {
        RevealedIsPast(c, hash, front, epoch, log[n].time);
      }
    }
  }

  lemma EmptyRound(c: Config, hash: Data -> string, d: Data, t: int)
    requires ValidConfig(c) && c.whitelist != {} && d == Data([], [], MINIMAL_RANDOM) && CurrentEpoch(c, t) == 0
    ensures Contract(c, hash, [Submit(0, hash(d), t), Reveal(0, d, t)]) == Some(Store(map[], map[0 := []]))
  {
    var s, v := Submit(0, hash(d), t), Reveal(0, d, t);
    assert Contract(c, hash, []) == Some(EMPTY);
    TwoMore(c, hash, [], s, v);
    assert [] + [s] + [v] == [s, v];
    assert EMPTY.hashes[0 := hash(d)] - {0} == map[];
  }

  /** For instance, a reveal without prices inside its epoch lets the epoch take a second hash. */
  lemma EmptyRevealReopens(c: Config, hash: Data -> string)
    requires ValidConfig(c) && c.whitelist != {}
    ensures var d, t := Data([], [], MINIMAL_RANDOM), c.firstEpochStart;
            var log := [Submit(0, hash(d), t), Reveal(0, d, t), Submit(0, hash(d), t)];
            Contract(c, hash, log).Some? && InOrder(log) && Submits(log, 0) == 2
  {
    var d, t := Data([], [], MINIMAL_RANDOM), c.firstEpochStart;
    var s, v := Submit(0, hash(d), t), Reveal(0, d, t);
    CurrentEpochIff(c, 0, t);
    NextStart(c, 0);
    EmptyRound(c, hash, d, t);
    CountsOfRound([], s, v, 0);
    assert [] + [s] + [v] == [s, v];
    NextEvent(c, hash, [s, v], s);
    assert [s, v] + [s] == [s, v, s];
  }

  lemma NextEvent(c: Config, hash: Data -> string, log: seq<Event>, s: Event)
    requires ValidConfig(c) && Contract(c, hash, log).Some? && s.Submit?
    ensures Contract(c, hash, log + [s]) == Transact(c, hash, Contract(c, hash, log).value, s)
    ensures Submits(log + [s], s.epoch) == Submits(log, s.epoch) + 1
  {
    assert (log + [s])[..|log|] == log;
  }

  // --- What the contracts make of a run ---------------------------------------------------

  /** Nothing is waiting, and the epochs of the first k rounds hold the prices of these rounds. */
  ghost predicate AllRevealed(s: Store, first: int, data: seq<Data>, k: nat)
    requires k <= |data|
  {
    && s.hashes == map[]
    && (forall epoch :: epoch in s.revealed <==> first <= epoch < first + k)
    && (forall j :: 0 <= j < k ==> first + j in s.revealed && s.revealed[first + j] == data[j].prices)
  }

  lemma TwoMore(c: Config, hash: Data -> string, log: seq<Event>, s: Event, v: Event)
    requires ValidConfig(c)
    ensures Contract(c, hash, log).None? ==> Contract(c, hash, log + [s] + [v]).None?
    ensures Contract(c, hash, log).Some? ==>
              var one := Transact(c, hash, Contract(c, hash, log).value, s);
              Contract(c, hash, log + [s] + [v]) == if one.None? then None else Transact(c, hash, one.value, v)
  {
    assert (log + [s])[..|log|] == log && (log + [s] + [v])[..|log| + 1] == log + [s];
  }

  /** A round is accepted when its hash and its prices are, and leaves nothing waiting. */
  lemma RoundTransacted(c: Config, hash: Data -> string, s: Store, epoch: int, d: Data, t1: int, t2: int)
    requires ValidConfig(c) && s.hashes == map[]
    ensures var one := Transact(c, hash, s, Submit(epoch, hash(d), t1));
            var two := if one.None? then None else Transact(c, hash, one.value, Reveal(epoch, d, t2));
            && (two.Some? <==> epoch >= 0 && CurrentEpoch(c, t1) == epoch && c.whitelist != {}
                               && Admissible(c, d) && (d.prices != [] ==> InRevealWindow(c, epoch, t2)))
            && (two.Some? ==> two.value == Store(map[], s.revealed[epoch := d.prices]))
  {
    assert s.hashes[epoch := hash(d)] - {epoch} == map[];
    AdmissibleIff(c, epoch, d, t2);
  }

  /**
   Data the contracts take at any time of the reveal window: as many prices as indices, the indices
   in increasing order and all whitelisted, the prices below 2^128 and the random not below it.
   */
  ghost predicate Admissible(c: Config, d: Data)
  {
    && |d.prices| == |d.indices|
    && (forall i, j :: 0 <= i < j < |d.indices| ==> d.indices[i] < d.indices[j])
    && (forall k :: k in d.indices ==> k in c.whitelist)
    && (forall price :: price in d.prices ==> price < 0x1_0000_0000_0000_0000_0000_0000_0000_0000)
    && d.random >= 0x1_0000_0000_0000_0000_0000_0000_0000_0000
  }

  lemma {:induction false} IncreasingStep(s: seq<nat>, i: nat, j: nat)
    requires (forall k :: 1 <= k < |s| ==> s[k - 1] < s[k]) && i < j < |s|
    ensures s[i] < s[j]
    decreases j
  {
    if i < j - 1 {
      IncreasingStep(s, i, j - 1);
    }
  }

  lemma WellFormedIff(c: Config, d: Data)
    ensures Admissible(c, d) <==>
              WellFormedReveal(c, d) && forall i :: 0 <= i < |d.prices| ==> d.prices[i] < PRICE_LIMIT
  {
    if WellFormedReveal(c, d) {
      forall i, j | 0 <= i < j < |d.indices| ensures d.indices[i] < d.indices[j] {
        IncreasingStep(d.indices, i, j);
      }
    }
    if Admissible(c, d) {
      forall i | 0 <= i < |d.indices| ensures d.indices[i] in c.whitelist {
        assert d.indices[i] in d.indices;
      }
      forall i | 0 <= i < |d.prices| ensures d.prices[i] < PRICE_LIMIT {
        assert d.prices[i] in d.prices;
      }
    }
  }

  lemma AdmissibleIff(c: Config, epoch: int, d: Data, time: int)
    ensures WellFormedReveal(c, d) && PricesTaken(c, epoch, d.prices, time)
            <==> Admissible(c, d) && (d.prices != [] ==> InRevealWindow(c, epoch, time))
  {
    WellFormedIff(c, d);
    if PricesTaken(c, epoch, d.prices, time) {
      forall i | 0 <= i < |d.prices| ensures d.prices[i] < PRICE_LIMIT && InRevealWindow(c, epoch, time) {
        assert PriceTaken(c, epoch, d.prices[i], time);
      }
      assert d.prices != [] ==> PriceTaken(c, epoch, d.prices[0], time);
    }
  }

  /** The submission of a round is accepted exactly inside its epoch. */
  lemma RoundIsCurrentIff(c: Config, r: Run, k: nat)
    requires ValidConfig(c) && k < |r.rounds| && StartingEpoch(c, r.bootTime) >= 0
    ensures CurrentEpoch(c, SubmitTime(c, r, k)) == StartingEpoch(c, r.bootTime) + k
            <==> InSubmitWindow(c, StartingEpoch(c, r.bootTime) + k, SubmitTime(c, r, k))
  {
    var epoch := StartingEpoch(c, r.bootTime) + k;
    ClockIsCarry(c, r, k);
    Scale(c.submitPeriod, 0, epoch);
    CurrentEpochIff(c, epoch, SubmitTime(c, r, k));
  }

  /** Round k comes in its windows, for whitelisted FTSOs, with data the contract takes. */
  ghost predicate RoundAccepted(c: Config, r: Run, k: nat)
    requires ValidConfig(c) && k < |r.rounds| <= |r.data|
  {
    var epoch := StartingEpoch(c, r.bootTime) + k;
    && BootedInTime(c, r.bootTime)
    && c.whitelist != {} && Admissible(c, r.data[k])
    && InSubmitWindow(c, epoch, SubmitTime(c, r, k))
    && (r.data[k].prices != [] ==> InRevealWindow(c, epoch, RevealTime(c, r, k)))
  }

  lemma AcceptedStep(c: Config, r: Run, hash: Data -> string, k: nat, s: Store)
    requires ValidConfig(c) && k < |r.rounds| <= |r.data|
    requires Contract(c, hash, LogOf(c, r, hash, k)) == Some(s)
    requires s.hashes == map[] && (k > 0 ==> BootedInTime(c, r.bootTime))
    ensures Contract(c, hash, LogOf(c, r, hash, k + 1))
         == if RoundAccepted(c, r, k)
            then Some(Store(map[], s.revealed[StartingEpoch(c, r.bootTime) + k := r.data[k].prices])) else None
  {
    var first := StartingEpoch(c, r.bootTime);
    TwoMore(c, hash, LogOf(c, r, hash, k), SubmitOf(c, r, hash, k), RevealOf(c, r, k));
    RoundTransacted(c, hash, s, first + k, r.data[k], SubmitTime(c, r, k), RevealTime(c, r, k));
    StartNonNegativeIff(c, r.bootTime);
    if first >= 0 {
      RoundIsCurrentIff(c, r, k);
    }
  }

  lemma RunStep(c: Config, r: Run, hash: Data -> string, k: nat)
    requires ValidConfig(c) && k < |r.rounds| <= |r.data|
    requires k > 0 ==> BootedInTime(c, r.bootTime)
    requires Contract(c, hash, LogOf(c, r, hash, k)).Some?
    requires AllRevealed(Contract(c, hash, LogOf(c, r, hash, k)).value, StartingEpoch(c, r.bootTime), r.data, k)
    ensures Contract(c, hash, LogOf(c, r, hash, k + 1)).Some? <==> RoundAccepted(c, r, k)
    ensures RoundAccepted(c, r, k) ==>
              var after := Contract(c, hash, LogOf(c, r, hash, k + 1)).value;
              AllRevealed(after, StartingEpoch(c, r.bootTime), r.data, k + 1)
  {
    var s := Contract(c, hash, LogOf(c, r, hash, k)).value;
    AcceptedStep(c, r, hash, k, s);
    MoreRevealed(s, StartingEpoch(c, r.bootTime), r.data, k);
  }

  /**
   The contracts accept a run exactly when they accept every round by itself. Then nothing is
   waiting and every epoch of the run shows the prices revealed.
   */
  lemma {:induction false} AcceptedIff(c: Config, r: Run, hash: Data -> string, k: nat)
    requires ValidConfig(c) && k <= |r.rounds| <= |r.data|
    ensures Contract(c, hash, LogOf(c, r, hash, k)).Some? <==> forall j :: 0 <= j < k ==> RoundAccepted(c, r, j)
    ensures Contract(c, hash, LogOf(c, r, hash, k)).Some? ==>
              AllRevealed(Contract(c, hash, LogOf(c, r, hash, k)).value, StartingEpoch(c, r.bootTime), r.data, k)
  {
    if k > 0 {
      var n := k - 1;
      AcceptedIff(c, r, hash, n);
      if Contract(c, hash, LogOf(c, r, hash, n)).Some? {
        assert n > 0 ==> RoundAccepted(c, r, 0);
        RunStep(c, r, hash, n);
      } else {
        TwoMore(c, hash, LogOf(c, r, hash, n), SubmitOf(c, r, hash, n), RevealOf(c, r, n));
      }
    }
  }

  lemma MoreRevealed(s: Store, first: int, data: seq<Data>, k: nat)
    requires k < |data| && AllRevealed(s, first, data, k)
    ensures AllRevealed(Store(map[], s.revealed[first + k := data[k].prices]), first, data, k + 1)
  {
  }

  /** What a run sends is in the order of time, so everything known of accepted histories applies to it. */
  lemma {:induction false} RunIsInOrder(c: Config, r: Run, hash: Data -> string, k: nat)
    requires ValidConfig(c) && k <= |r.rounds| <= |r.data|
    ensures InOrder(LogOf(c, r, hash, k))
    ensures forall i :: 0 <= i < |LogOf(c, r, hash, k)| ==> LogOf(c, r, hash, k)[i].time <= ClockAt(c, r, k)
  {
    if k > 0 {
      RunIsInOrder(c, r, hash, k - 1);
      assert ClockAt(c, r, k - 1) <= SubmitTime(c, r, k - 1) <= RevealTime(c, r, k - 1) == ClockAt(c, r, k);
    }
  }

  /** A run serves every epoch from its first on once, with one hash and one reveal. */
  lemma {:induction false} EveryEpochServed(c: Config, r: Run, hash: Data -> string, k: nat, epoch: int)
    requires ValidConfig(c) && k <= |r.rounds| <= |r.data|
    ensures var log, first := LogOf(c, r, hash, k), StartingEpoch(c, r.bootTime);
            Submits(log, epoch) == Reveals(log, epoch) == if first <= epoch < first + k then 1 else 0
  {
    if k > 0 {
      EveryEpochServed(c, r, hash, k - 1, epoch);
      CountsOfRound(LogOf(c, r, hash, k - 1), SubmitOf(c, r, hash, k - 1), RevealOf(c, r, k - 1), epoch);
    }
  }

  /** With the script's data, a round is accepted exactly when it is on time. */
  lemma RoundAcceptedIff(c: Config, r: Run, k: nat)
    requires ValidConfig(c) && ValidRun(c, r) && k < |r.rounds|
    ensures RoundAccepted(c, r, k) <==> BootedInTime(c, r.bootTime) && OnTime(c, r, k)
    ensures OnTime(c, r, k) <==> InBounds(c, r, k)
  {
    GeneratedIsAdmissible(c, r.data[k]);
    OnTimeIff(c, r, k);
  }

  lemma GeneratedIsAdmissible(c: Config, d: Data)
    requires Generated(c, d)
    ensures Admissible(c, d) && d.prices != [] && c.whitelist != {}
  {
    assert 0 in c.whitelist;
  }

  /** A punctual run booted in time is accepted to its end: no transaction reverts. */
  lemma PunctualRunsAreAccepted(c: Config, r: Run, hash: Data -> string)
    requires ValidConfig(c) && ValidRun(c, r) && Punctual(c, r) && BootedInTime(c, r.bootTime)
    ensures Contract(c, hash, LogOf(c, r, hash, |r.rounds|)).Some?
  {
    forall k | 0 <= k < |r.rounds| ensures RoundAccepted(c, r, k) {
      PunctualIsOnTime(c, r, k);
      RoundAcceptedIff(c, r, k);
    }
    AcceptedIff(c, r, hash, |r.rounds|);
  }

  /** For any delays at all: no transaction of a run reverts exactly while its lateness stays in bounds. */
  lemma ToleratedIff(c: Config, r: Run, hash: Data -> string)
    requires ValidConfig(c) && ValidRun(c, r)
    ensures Contract(c, hash, LogOf(c, r, hash, |r.rounds|)).Some? <==>
              (r.rounds != [] ==> BootedInTime(c, r.bootTime))
              && forall k :: 0 <= k < |r.rounds| ==> InBounds(c, r, k)
  {
    AcceptedIff(c, r, hash, |r.rounds|);
    if forall k :: 0 <= k < |r.rounds| ==> RoundAccepted(c, r, k) {
      forall k | 0 <= k < |r.rounds| ensures InBounds(c, r, k) {
        RoundAcceptedIff(c, r, k);
      }
      assert r.rounds != [] ==> RoundAccepted(c, r, 0);
    } else {
      var k :| 0 <= k < |r.rounds| && !RoundAccepted(c, r, k);
      RoundAcceptedIff(c, r, k);
    }
  }

  // --- Uniform delays ---------------------------------------------------------------------

  /** Every wake-up is late by the same d, nothing else takes time. */
  function Uniform(bootTime: int, d: nat, data: seq<Data>): Run
  {
    Run(bootTime, d, seq(|data|, i => Round(0, 0, d, 0)), data)
  }

  lemma UniformIsPunctual(c: Config, bootTime: int, d: nat, data: seq<Data>)
    requires ValidConfig(c) && d < Tolerance(c)
    ensures Punctual(c, Uniform(bootTime, d, data))
  {
  }

  /** A uniform delay is survived exactly when it is below min(revealPeriod, submitPeriod - 1). */
  lemma ToleranceIsExact(c: Config, bootTime: int, d: nat, data: seq<Data>, hash: Data -> string)
    requires ValidConfig(c) && data != [] && BootedInTime(c, bootTime)
    requires forall k :: 0 <= k < |data| ==> Generated(c, data[k])
    ensures Contract(c, hash, LogOf(c, Uniform(bootTime, d, data), hash, |data|)).Some? <==> d < Tolerance(c)
  {
    var r := Uniform(bootTime, d, data);
    if d < Tolerance(c) {
      UniformIsPunctual(c, bootTime, d, data);
      PunctualRunsAreAccepted(c, r, hash);
    } else {
      ToleratedIff(c, r, hash);
      assert Carry(c, r, 0) == 1 + d && Carry(c, r, 0 + 1) >= d;
      assert !InBounds(c, r, 0);
    }
  }
}
