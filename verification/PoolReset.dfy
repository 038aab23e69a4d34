/**
 The reset of the pool to a new chain state (core/tx_pool.go): when it leaves a pending list without gaps.
 */
module PoolReset {
  import opened Basics
  import opened TxMap
  import opened TxSortedMap
  import opened TxList
  import opened PoolState
  import opened PoolMoves
  import Eviction
  import QueueLimit

  /** A pending account's nonce is one past its last transaction; other nonces are as before. */
  ghost predicate Refreshed(pending: Lists, nonces: map<Address, nat>, nonces': map<Address, nat>, a: Address) {
    if a in pending then a in nonces' && nonces'[a] > 0 && IsLast(nonces'[a] - 1, pending[a].items)
    else (a in nonces' <==> a in nonces) && (a in nonces ==> nonces'[a] == nonces[a])
  }

  /** The loop of reset that sets each pending account's nonce to one past its last transaction. */
  method RefreshNonces(pending: Lists, nonces: map<Address, nat>) returns (nonces': map<Address, nat>)
    requires NoneEmpty(pending, {})
    ensures forall a {:trigger Refreshed(pending, nonces, nonces', a)} :: Refreshed(pending, nonces, nonces', a)
  {
    nonces' := nonces;
    var rest := pending.Keys;
    while rest != {}
      invariant rest <= pending.Keys
      invariant forall a {:trigger Refreshed(pending, nonces, nonces', a)} | a !in rest ::
                  Refreshed(pending, nonces, nonces', a)
      decreases |rest|
    {
      var a :| a in rest;
      assert pending[a].items.Keys != {};
      var last := QueueLimit.Highest(pending[a].items);
      ghost var before := nonces';
      nonces' := nonces'[a := last + 1];
      forall b | b !in rest - {a} ensures Refreshed(pending, nonces, nonces', b) {
        assert b != a ==> Refreshed(pending, nonces, before, b);
      }
      rest := rest - {a};
    }
  }

  // ---------- What demotion leaves of a list ----------

  /** The transaction with this nonce is kept by demotion; `short` says that Filter takes its short cut. */
  predicate Stays(m: Txs, short: bool, chain: ChainState, a: Address, n: nat) {
    && n in m && n >= chain.Nonce(a)
    && (short || forall k | k in m && chain.Nonce(a) <= k <= n ::
          !Unpayable(m[k], chain.Balance(a), chain.maxGas, chain.issuers))
  }

  /** No transaction that stays lies above a missing nonce. */
  ghost predicate NoHole(m: Txs, short: bool, chain: ChainState, a: Address) {
    forall n: nat, g: nat | Stays(m, short, chain, a, n) && chain.Nonce(a) <= g < n :: g in m
  }

  /** Filter takes its short cut on the account's pending list. */
  predicate Short(pending: Lists, a: Address, chain: ChainState) {
    ShortCut(PendingOf(pending, a), chain.Balance(a), chain.maxGas)
  }

  /** What Filter keeps of the list that demotion hands to it. */
  lemma KeptStays(s: State, a: Address, chain: ChainState, l': List, r: Filtered, n: nat)
    requires FiledAt(s.pending, a)
    requires IsFilter(Forwarded(s, a, chain.Nonce(a)), chain.Balance(a), chain.maxGas, chain.issuers, l', r)
    ensures n in r.kept <==> Stays(ItemsOf(s.pending, a), Short(s.pending, a, chain), chain, a, n)
    ensures n in r.kept ==> r.kept[n] == ItemsOf(s.pending, a)[n]
  {
    var l := Forwarded(s, a, chain.Nonce(a));
    if !ShortCut(l, chain.Balance(a), chain.maxGas) {
      ScanKeeps(l, chain.Balance(a), chain.maxGas, chain.issuers, r, n);
      SurvivorStays(l, ItemsOf(s.pending, a), chain, a, n);
    }
  }

  lemma SurvivorStays(l: List, m: Txs, chain: ChainState, a: Address, n: nat)
    requires l.strict && l.items == From(m, chain.Nonce(a))
    ensures Survives(l, n, chain.Balance(a), chain.maxGas, chain.issuers) <==> Stays(m, false, chain, a, n)
  {
    if Survives(l, n, chain.Balance(a), chain.maxGas, chain.issuers) {
      forall k | k in m && chain.Nonce(a) <= k <= n
        ensures !Unpayable(m[k], chain.Balance(a), chain.maxGas, chain.issuers)
      {
        assert k in l.items && l.items[k] == m[k];
      }
    }
  }

  /** The interval that demotion and the refresh make of what stays. */
  lemma StayingInterval(m: Txs, short: bool, chain: ChainState, a: Address, kept: Txs, last: nat)
    requires forall n: nat :: n in kept <==> Stays(m, short, chain, a, n)
    requires IsLast(last, kept)
    ensures Interval(kept, chain.Nonce(a), last + 1) <==> NoHole(m, short, chain, a)
  {
    if NoHole(m, short, chain, a) {
      forall n: nat | chain.Nonce(a) <= n < last + 1 ensures n in kept {
        assert Stays(m, short, chain, a, last);
        assert Stays(m, short, chain, a, n);
      }
    } else {
      var n: nat, g: nat :| Stays(m, short, chain, a, n) && chain.Nonce(a) <= g < n && g !in m;
      assert n in kept && n <= last;
      assert g !in kept;
    }
  }

  /** Whether an account ends as an interval, decided by its pending list and nonce before demotion. */
  ghost predicate WillSettle(pending: Lists, nonces: map<Address, nat>, chain: ChainState, a: Address) {
    Settles(ItemsOf(pending, a), Short(pending, a, chain), NonceOf(nonces, chain, a) == chain.Nonce(a), chain, a)
  }

  /** `untouched` says that the pending nonce is the chain nonce. */
  ghost predicate Settles(m: Txs, short: bool, untouched: bool, chain: ChainState, a: Address) {
    if Stays(m, short, chain, a, chain.Nonce(a)) then NoHole(m, short, chain, a) else untouched
  }

  /**
   After demotion and the refresh an account is an interval if and only if, before them, the transaction with the chain
   nonce stays and no other that stays lies above a missing nonce; or it does not stay, and no nonce has been handed
   out.
   */
  lemma DemotedGaplessIff(s: State, nonces: map<Address, nat>, s': State, nonces': map<Address, nat>, chain: ChainState,
                          a: Address)
    requires Inv(s) && AccountDemoted(s, s', a, chain) && NoneEmpty(s'.pending, {})
             && Refreshed(s'.pending, nonces, nonces', a)
    ensures Gapless(s'.pending, nonces', chain, a) <==> WillSettle(s.pending, nonces, chain, a)
  {
    var l', r :| Demotes(s, s', a, chain, l', r);
    KeptIsStaying(s, a, chain, l', r);
    SettledIff(ItemsOf(s.pending, a), Short(s.pending, a, chain), chain, a, r.kept, s'.pending, nonces, nonces');
  }

  lemma KeptIsStaying(s: State, a: Address, chain: ChainState, l': List, r: Filtered)
    requires Inv(s)
    requires IsFilter(Forwarded(s, a, chain.Nonce(a)), chain.Balance(a), chain.maxGas, chain.issuers, l', r)
    ensures forall n: nat :: n in r.kept <==> Stays(ItemsOf(s.pending, a), Short(s.pending, a, chain), chain, a, n)
  {
    assert FiledAt(s.pending, a);
    forall n: nat ensures n in r.kept <==> Stays(ItemsOf(s.pending, a), Short(s.pending, a, chain), chain, a, n) {
      KeptStays(s, a, chain, l', r, n);
    }
  }

  lemma SettledIff(m: Txs, short: bool, chain: ChainState, a: Address, kept: Txs, pending': Lists,
                   nonces: map<Address, nat>, nonces': map<Address, nat>)
    requires forall n: nat :: n in kept <==> Stays(m, short, chain, a, n)
    requires ItemsOf(pending', a) == (if chain.Nonce(a) in kept then kept else map[]) && NoneEmpty(pending', {})
    requires Refreshed(pending', nonces, nonces', a)
    ensures Gapless(pending', nonces', chain, a) <==>
              Settles(m, short, NonceOf(nonces, chain, a) == chain.Nonce(a), chain, a)
  {
    if chain.Nonce(a) in kept {
      StayingInterval(m, short, chain, a, kept, nonces'[a] - 1);
    } else {
      assert a !in pending';
      assert chain.Nonce(a) !in ItemsOf(pending', a);
    }
  }

  /**
   Demotion does not look for gaps: a payable pending list that starts at the chain nonce stays as it is, gaps included,
   and no pending nonce makes it an interval then.
   */
  lemma GapsSurviveDemotion(s: State, a: Address, chain: ChainState)
    requires a in s.pending && s.pending[a].strict && Settled(s.pending, a, chain) && s.pending[a].items != map[]
    requires ShortCut(s.pending[a], chain.Balance(a), chain.maxGas)
    ensures AccountDemoted(s, s, a, chain)
    ensures !Contiguous(ItemsOf(s.pending, a)) ==> forall nonces :: !Gapless(s.pending, nonces, chain, a)
  {
    var m := ItemsOf(s.pending, a);
    assert m.Keys != {};
    var n :| n in m.Keys;
    assert n in m;
    assert chain.Nonce(a) in m && From(m, chain.Nonce(a)) == m;
    assert ItemsOf(s.queue, a) + map[] + map[] == ItemsOf(s.queue, a);
    assert Demotes(s, s, a, chain, s.pending[a], Filtered(m, map[], map[]));
    forall nonces | Gapless(s.pending, nonces, chain, a) ensures Contiguous(m) {}
  }

  // ---------- What promotion adds to a list ----------

  /** What Forward and Filter leave of an account's queue. */
  function QueueKept(s: State, a: Address, chain: ChainState): Txs {
    var m, short := ItemsOf(s.queue, a), ShortCut(QueueOf(s.queue, a), chain.Balance(a), chain.maxGas);
    map n | n in m && n >= chain.Nonce(a)
      && (short || !Unpayable(m[n], chain.Balance(a), chain.maxGas, chain.issuers)) :: m[n]
  }

  /** The run of consecutive nonces from the lowest one on, if the lowest is not above `start`. */
  ghost function ReadyRun(kept: Txs, start: nat): Txs {
    map n | n in kept && InRun(kept, start, n) :: kept[n]
  }

  ghost predicate InRun(kept: Txs, start: nat, n: nat) {
    && (exists k :: k in kept && k <= start)
    && (forall k, i: nat | k in kept && k <= i <= n :: i in kept)
  }

  lemma QueueKeptIsKept(s: State, a: Address, chain: ChainState, l': List, r: Filtered)
    requires IsFilter(ForwardedQueue(s, a, chain.Nonce(a)), chain.Balance(a), chain.maxGas, chain.issuers, l', r)
    ensures r.kept == QueueKept(s, a, chain)
  {
  }

  /** The parts of a promotion that concern the pending list. */
  lemma PromotedParts(s: State, s': State, a: Address, chain: ChainState, start: nat, local: bool, limit: nat,
                      nonce: nat)
    returns (ready: Txs, cut: nat)
    requires Inv(s) && AccountPromoted(s, s', a, chain, start, local, limit, nonce)
    ensures IsReady(QueueKept(s, a, chain), start, cut) && ready == Below(QueueKept(s, a, chain), cut)
    ensures NonceAfter(start, nonce, ready) && ItemsOf(s'.pending, a) == ItemsOf(s.pending, a) + ready
    ensures Short(s'.pending, a, chain) <==>
              Short(s.pending, a, chain) && Affordable(ready, chain.Balance(a), chain.maxGas)
  {
    var l', r, c: nat, left :| Promotes(s, s', a, chain, start, local, limit, nonce, l', r, c, left);
    QueueKeptIsKept(s, a, chain, l', r);
    ready, cut := Below(r.kept, c), c;
  }

  lemma QueueKeptIsNew(s: State, a: Address, chain: ChainState)
    requires Inv(s)
    ensures forall n | n in QueueKept(s, a, chain) ::
              n >= chain.Nonce(a) && n !in ItemsOf(s.pending, a) && n in ItemsOf(s.queue, a)
  {
    assert Apart(s, a);
  }

  lemma RunIsReady(kept: Txs, start: nat, cut: nat)
    requires IsReady(kept, start, cut)
    ensures Below(kept, cut) == ReadyRun(kept, start)
  {
    if exists k :: k in kept && k <= start {
      var lowest: nat :| IsLowest(lowest, kept) && lowest < cut && Consecutive(kept, lowest, cut);
      forall n | n in kept ensures n < cut <==> InRun(kept, start, n) {
        if n < cut {
          forall k, i: nat | k in kept && k <= i <= n ensures i in kept { assert lowest <= i < cut; }
        } else {
          assert lowest in kept && lowest <= cut <= n && cut !in kept;
        }
      }
    } else {
      assert ReadyRun(kept, start) == map[];
    }
  }

  /** What promotion adds to an account's pending list, if the account is among those to be promoted. */
  ghost function Joining(s: State, nonces: map<Address, nat>, chain: ChainState, a: Address, dirty: bool): Txs {
    if dirty then ReadyRun(QueueKept(s, a, chain), NonceOf(nonces, chain, a)) else map[]
  }

  /**
   Whether an account ends as an interval, decided by its lists and nonce before promotion and demotion: with what
   promotion adds, no transaction that demotion keeps lies above a missing nonce; or the one with the chain nonce is not
   kept, nothing is added and no nonce has been handed out.
   */
  ghost predicate EndsAsInterval(s: State, nonces: map<Address, nat>, chain: ChainState, a: Address, dirty: bool) {
    var joining := Joining(s, nonces, chain, a, dirty);
    var short := Short(s.pending, a, chain) && Affordable(joining, chain.Balance(a), chain.maxGas);
    var untouched := joining == map[] && NonceOf(nonces, chain, a) == chain.Nonce(a);
    Settles(ItemsOf(s.pending, a) + joining, short, untouched, chain, a)
  }

  /** The account has been promoted, or, if it was not among those to be promoted, left alone. */
  ghost predicate PromotedIf(s: State, nonces: map<Address, nat>, s': State, nonces': map<Address, nat>,
                             chain: ChainState, a: Address, dirty: bool, local: bool, limit: nat)
  {
    if dirty then AccountPromoted(s, s', a, chain, NonceOf(nonces, chain, a), local, limit, NonceOf(nonces', chain, a))
    else Untouched(s, s', a) && NonceOf(nonces', chain, a) == NonceOf(nonces, chain, a)
  }

  /** What promotion makes of an account's pending list, its bounds and its nonce, told from the lists before. */
  lemma PromotionJoins(s: State, nonces: map<Address, nat>, s': State, nonces': map<Address, nat>, chain: ChainState,
                       a: Address, dirty: bool, local: bool, limit: nat)
    requires Inv(s) && PromotedIf(s, nonces, s', nonces', chain, a, dirty, local, limit)
    ensures var joining := Joining(s, nonces, chain, a, dirty);
            && ItemsOf(s'.pending, a) == ItemsOf(s.pending, a) + joining
            && (Short(s'.pending, a, chain) <==>
                  Short(s.pending, a, chain) && Affordable(joining, chain.Balance(a), chain.maxGas))
            && (NonceOf(nonces', chain, a) == chain.Nonce(a) <==>
                  joining == map[] && NonceOf(nonces, chain, a) == chain.Nonce(a))
  {
    if dirty {
      var start, nonce, kept := NonceOf(nonces, chain, a), NonceOf(nonces', chain, a), QueueKept(s, a, chain);
      var ready, cut := PromotedParts(s, s', a, chain, start, local, limit, nonce);
      RunIsReady(kept, start, cut);
      NewNonceIsHigher(kept, chain.Nonce(a), start, cut, nonce);
    } else {
      assert ItemsOf(s.pending, a) + map[] == ItemsOf(s.pending, a);
    }
  }

  lemma PromotedSettlesIff(s: State, nonces: map<Address, nat>, s': State, nonces': map<Address, nat>,
                           chain: ChainState, a: Address, dirty: bool, local: bool, limit: nat)
    requires Inv(s) && PromotedIf(s, nonces, s', nonces', chain, a, dirty, local, limit)
    ensures WillSettle(s'.pending, nonces', chain, a) <==> EndsAsInterval(s, nonces, chain, a, dirty)
  {
    PromotionJoins(s, nonces, s', nonces', chain, a, dirty, local, limit);
  }

  lemma NewNonceIsHigher(kept: Txs, chainNonce: nat, start: nat, cut: nat, nonce: nat)
    requires NonceAfter(start, nonce, Below(kept, cut)) && forall n | n in kept :: n >= chainNonce
    ensures nonce == chainNonce <==> Below(kept, cut) == map[] && start == chainNonce
  {
    if Below(kept, cut) != map[] {
      var last: nat :| IsLast(last, Below(kept, cut)) && nonce == last + 1;
    }
  }

  // ---------- The second promotion ----------

  /**
   A list that starts at the chain nonce and ends below the pending
   nonce, or no list and no queued transaction to begin one.
   */
  ghost predicate Begins(s: State, nonces: map<Address, nat>, chain: ChainState, a: Address) {
    var m, nonce := ItemsOf(s.pending, a), NonceOf(nonces, chain, a);
    if m != map[] then chain.Nonce(a) in m && (forall n | n in m :: n >= chain.Nonce(a)) && nonce > 0
      && IsLast(nonce - 1, m)
    else nonce > chain.Nonce(a) ==> chain.Nonce(a) !in ItemsOf(s.queue, a)
  }

  /** What is ready is itself an interval, from a nonce not above `start` up to the new pending nonce. */
  ghost predicate ReadyFrom(ready: Txs, lowest: nat, start: nat, nonce: nat) {
    if ready == map[] then nonce == start else lowest < nonce && lowest <= start && Interval(ready, lowest, nonce)
  }

  lemma ReadyIsInterval(kept: Txs, start: nat, cut: nat, nonce: nat) returns (lowest: nat)
    requires IsReady(kept, start, cut) && NonceAfter(start, nonce, Below(kept, cut))
    ensures ReadyFrom(Below(kept, cut), lowest, start, nonce)
  {
    var ready := Below(kept, cut);
    lowest := 0;
    if exists k :: k in kept && k <= start {
      lowest :| IsLowest(lowest, kept) && lowest < cut && Consecutive(kept, lowest, cut);
      assert lowest in ready && cut - 1 in ready;
      var last: nat :| IsLast(last, ready) && nonce == last + 1;
      assert last == cut - 1;
    } else {
      assert ready == map[];
    }
  }

  lemma RunMeets(m: Txs, ready: Txs, joined: Txs, chainNonce: nat, lowest: nat, start: nat, nonce: nat)
    requires ReadyFrom(ready, lowest, start, nonce) && m.Keys !! ready.Keys
    requires if m != map[] then start > 0 && IsLast(start - 1, m) && forall n | n in m :: n >= chainNonce
             else start > chainNonce ==> chainNonce !in ready
    requires joined == m + ready && Interval(joined, chainNonce, nonce)
    ensures Interval(m, chainNonce, start)
  {
    if ready != map[] {
      if m != map[] {
        assert start - 1 in joined && start - 1 !in ready;
        assert lowest == start;
      } else {
        assert lowest in joined && chainNonce in joined;
        assert lowest == chainNonce;
      }
      forall n: nat ensures n in m <==> chainNonce <= n < start {
        assert n in joined <==> chainNonce <= n < nonce;
      }
    } else {
      assert joined == m;
    }
  }

  /** From there, promotion neither makes nor breaks an interval. */
  lemma PromoteGaplessIff(s: State, nonces: map<Address, nat>, s': State, nonces': map<Address, nat>, chain: ChainState,
                          a: Address, dirty: bool, local: bool, limit: nat)
    requires Inv(s) && PromotedIf(s, nonces, s', nonces', chain, a, dirty, local, limit) && Begins(s, nonces, chain, a)
    ensures Gapless(s'.pending, nonces', chain, a) <==> Gapless(s.pending, nonces, chain, a)
  {
    if dirty {
      if Gapless(s.pending, nonces, chain, a) {
        PromotedGapless(s, nonces, s', nonces', a, chain, local, limit);
      } else if Gapless(s'.pending, nonces', chain, a) {
        PromotedWasGapless(s, nonces, s', nonces', chain, a, local, limit);
      }
    }
  }

  lemma PromotedWasGapless(s: State, nonces: map<Address, nat>, s': State, nonces': map<Address, nat>,
                           chain: ChainState, a: Address, local: bool, limit: nat)
    requires Inv(s) && Begins(s, nonces, chain, a) && Gapless(s'.pending, nonces', chain, a)
    requires AccountPromoted(s, s', a, chain, NonceOf(nonces, chain, a), local, limit, NonceOf(nonces', chain, a))
    ensures Gapless(s.pending, nonces, chain, a)
  {
    var start, nonce := NonceOf(nonces, chain, a), NonceOf(nonces', chain, a);
    var ready, lowest := PromotedRun(s, s', a, chain, start, local, limit, nonce);
    RunJoined(s, nonces, s', nonces', chain, a, ready, lowest);
  }

  lemma RunJoined(s: State, nonces: map<Address, nat>, s': State, nonces': map<Address, nat>, chain: ChainState,
                  a: Address, ready: Txs, lowest: nat)
    requires Begins(s, nonces, chain, a) && Gapless(s'.pending, nonces', chain, a)
    requires ReadyFrom(ready, lowest, NonceOf(nonces, chain, a), NonceOf(nonces', chain, a))
    requires ItemsOf(s'.pending, a) == ItemsOf(s.pending, a) + ready
    requires ItemsOf(s.pending, a).Keys !! ready.Keys && forall n | n in ready :: n in ItemsOf(s.queue, a)
    ensures Gapless(s.pending, nonces, chain, a)
  {
    RunMeets(ItemsOf(s.pending, a), ready, ItemsOf(s'.pending, a), chain.Nonce(a), lowest,
             NonceOf(nonces, chain, a), NonceOf(nonces', chain, a));
  }

  lemma PromotedRun(s: State, s': State, a: Address, chain: ChainState, start: nat, local: bool, limit: nat, nonce: nat)
    returns (ready: Txs, lowest: nat)
    requires Inv(s) && AccountPromoted(s, s', a, chain, start, local, limit, nonce)
    ensures ReadyFrom(ready, lowest, start, nonce) && ItemsOf(s'.pending, a) == ItemsOf(s.pending, a) + ready
    ensures ItemsOf(s.pending, a).Keys !! ready.Keys && forall n | n in ready :: n in ItemsOf(s.queue, a)
  {
    var cut;
    ready, cut := PromotedParts(s, s', a, chain, start, local, limit, nonce);
    QueueKeptIsNew(s, a, chain);
    lowest := ReadyIsInterval(QueueKept(s, a, chain), start, cut, nonce);
  }

  /** The lowest transaction is never one that only the others' failure invalidates. */
  lemma LowestNotInvalid(l: List, costLimit: nat, gasLimit: nat, issuers: map<Address, nat>, l': List, r: Filtered,
                         n: nat)
    requires IsFilter(l, costLimit, gasLimit, issuers, l', r) && forall k | k in l.items :: n <= k
    ensures n !in r.invalids
  {
    if !ShortCut(l, costLimit, gasLimit) && l.strict && r.removed != map[] {
      var filter := UnpayableFilter(costLimit, gasLimit, issuers);
      var lowest: nat :| IsLowest(lowest, r.removed) && r.kept == Below(Kept(l.items, filter), lowest + 1)
                         && r.invalids == From(Kept(l.items, filter), lowest + 1);
      assert lowest in l.items;
    }
  }

  /** If the transaction with the chain nonce was pending and demotion leaves no list, then it is not queued either. */
  lemma EmptiedLosesFirst(s: State, s': State, chain: ChainState, a: Address)
    requires Inv(s) && AccountDemoted(s, s', a, chain) && chain.Nonce(a) in ItemsOf(s.pending, a)
             && ItemsOf(s'.pending, a) == map[]
    ensures chain.Nonce(a) !in ItemsOf(s'.queue, a)
  {
    var l', r :| Demotes(s, s', a, chain, l', r);
    LowestNotInvalid(Forwarded(s, a, chain.Nonce(a)), chain.Balance(a), chain.maxGas, chain.issuers, l', r,
                     chain.Nonce(a));
    assert Apart(s, a);
    assert chain.Nonce(a) !in r.kept;
  }

  /**
   After demotion and the refresh, the second promotion finds every account that was anchored before as it needs it.
   */
  lemma DemotedBegins(s: State, nonces: map<Address, nat>, s': State, nonces': map<Address, nat>, chain: ChainState,
                      a: Address)
    requires Inv(s) && Anchored(s.pending, nonces, chain, a) && AccountDemoted(s, s', a, chain)
    requires NoneEmpty(s'.pending, {}) && Refreshed(s'.pending, nonces, nonces', a)
    ensures Begins(s', nonces', chain, a)
  {
    DemotedIsSettled(s, s', a, chain);
    var m := ItemsOf(s'.pending, a);
    if m == map[] {
      assert a !in s'.pending;
      if NonceOf(nonces, chain, a) > chain.Nonce(a) { EmptiedLosesFirst(s, s', chain, a); }
    } else {
      assert m.Keys != {};
      var n :| n in m.Keys;
      assert n in m;
    }
  }

  // ---------- The whole reset ----------

  ghost predicate GaplessAt(x: Stage, chain: ChainState, a: Address) { Gapless(x.s.pending, x.nonces, chain, a) }

  /** The limits of promoteExecutables have left the account's pending list and nonce alone. */
  ghost predicate NotEvicted(x: Stage, y: Stage, chain: ChainState, a: Address) {
    && PendingOf(y.s.pending, a) == PendingOf(x.s.pending, a) && ItemsOf(y.s.pending, a) == ItemsOf(x.s.pending, a)
    && NonceOf(y.nonces, chain, a) == NonceOf(x.nonces, chain, a)
  }

  ghost predicate Promotion(x: Stage, y: Stage, chain: ChainState, a: Address, dirty: bool, local: bool, limit: nat) {
    PromotedIf(x.s, x.nonces, y.s, y.nonces, chain, a, dirty, local, limit)
  }

  /** demoteUnexecutables and the loop that refreshes the nonces, for one account. */
  ghost predicate Demotion(x: Stage, y: Stage, chain: ChainState, a: Address) {
    AccountDemoted(x.s, y.s, a, chain) && NoneEmpty(y.s.pending, {}) && Refreshed(y.s.pending, x.nonces, y.nonces, a)
  }

  /**
   The whole reset, for an account that the limits leave alone: it ends as an interval if and only if its lists and
   nonce after reinjection say so.
   */
  lemma ResetGaplessIff(added: Stage, mid: Stage, limited: Stage, demoted: Stage, mid2: Stage, last: Stage,
                        chain: ChainState, a: Address, dirty: bool, queued: bool, local: bool, limit: nat)
    requires Inv(added.s) && Inv(limited.s) && Inv(demoted.s) && Anchored(limited.s.pending, limited.nonces, chain, a)
    requires Promotion(added, mid, chain, a, dirty, local, limit) && NotEvicted(mid, limited, chain, a)
    requires Demotion(limited, demoted, chain, a)
    requires Promotion(demoted, mid2, chain, a, queued, local, limit) && NotEvicted(mid2, last, chain, a)
    ensures GaplessAt(last, chain, a) <==> EndsAsInterval(added.s, added.nonces, chain, a, dirty)
  {
    PromotedSettlesIff(added.s, added.nonces, mid.s, mid.nonces, chain, a, dirty, local, limit);
    assert WillSettle(limited.s.pending, limited.nonces, chain, a) <==> WillSettle(mid.s.pending, mid.nonces, chain, a);
    DemotedGaplessIff(limited.s, limited.nonces, demoted.s, demoted.nonces, chain, a);
    DemotedBegins(limited.s, limited.nonces, demoted.s, demoted.nonces, chain, a);
    PromoteGaplessIff(demoted.s, demoted.nonces, mid2.s, mid2.nonces, chain, a, queued, local, limit);
  }

  // ---------- Eviction ----------

  /**
   Whether a pending list cut to its k lowest nonces is an interval: the k nonces from the chain nonce on are pending,
   and the pending nonce is the one after them, or falls back to it because that is pending too and goes.
   */
  ghost predicate CutsToInterval(m: Txs, nonce: nat, first: nat, k: nat) {
    && (forall n: nat | first <= n < first + k :: n in m)
    && (nonce == first + k || (nonce > first + k && first + k in m))
  }

  /** An account is an interval before an eviction and keeps all, or is cut to one. */
  ghost predicate StaysInterval(x: Stage, y: Stage, chain: ChainState, a: Address) {
    var m, k := ItemsOf(x.s.pending, a), |ItemsOf(y.s.pending, a)|;
    if k == |m| then GaplessAt(x, chain, a) else CutsToInterval(m, NonceOf(x.nonces, chain, a), chain.Nonce(a), k)
  }

  /** Whether the nonce after the cut is pending does not decide: the pending nonce may lie below a pending one. */
  lemma NonceDecides(t: Tx)
    ensures CutsToInterval(map[5 := t, 6 := t, 7 := t, 9 := t], 8, 5, 3)
    ensures !CutsToInterval(map[5 := t, 6 := t, 7 := t, 8 := t, 9 := t], 8, 5, 4)
  {
  }

  function Range(lo: nat, k: nat): set<nat>
    ensures |Range(lo, k)| == k && forall n: nat :: n in Range(lo, k) <==> lo <= n < lo + k
  {
    if k == 0 then {} else Range(lo, k - 1) + {lo + k - 1}
  }

  lemma SmallerSet(s: set<nat>, t: set<nat>)
    requires s <= t
    ensures |s| <= |t| && (|s| == |t| ==> s == t)
  {
    assert t == s + (t - s);
  }

  lemma CutIsInterval(x0: Eviction.Account, x: Eviction.Account, first: nat, k: nat)
    requires Eviction.Evicted(x0, x) && k == |x.txs| < |x0.txs| && forall n | n in x0.txs :: n >= first
    requires CutsToInterval(x0.txs, x0.nonce, first, k)
    ensures Interval(x.txs, first, x.nonce)
  {
    var kept := Range(first, k);
    forall n | n in kept ensures n in x.txs {
      if n !in x.txs {
        forall j | j in x.txs ensures j in Range(first, n - first) { assert j in x0.txs && j < n; }
        SmallerSet(x.txs.Keys, Range(first, n - first));
      }
    }
    SmallerSet(kept, x.txs.Keys);
  }

  lemma IntervalIsCut(x0: Eviction.Account, x: Eviction.Account, first: nat, k: nat)
    requires Eviction.Evicted(x0, x) && k == |x.txs|
    requires Interval(x.txs, first, x.nonce)
    ensures CutsToInterval(x0.txs, x0.nonce, first, k)
  {
    assert x.txs.Keys == Range(first, x.nonce - first);
  }

  lemma SameSize(x0: Eviction.Account, x: Eviction.Account)
    requires Eviction.Evicted(x0, x) && |x.txs| == |x0.txs|
    ensures x == x0
  {
    SmallerSet(x.txs.Keys, x0.txs.Keys);
    assert x.txs == x0.txs;
  }

  lemma EvictedIff(x0: Eviction.Account, x: Eviction.Account, first: nat)
    requires Eviction.Evicted(x0, x) && |x.txs| != |x0.txs| && forall n | n in x0.txs :: n >= first
    ensures Interval(x.txs, first, x.nonce) <==> CutsToInterval(x0.txs, x0.nonce, first, |x.txs|)
  {
    SmallerSet(x.txs.Keys, x0.txs.Keys);
    if Interval(x.txs, first, x.nonce) {
      IntervalIsCut(x0, x, first, |x.txs|);
    } else if CutsToInterval(x0.txs, x0.nonce, first, |x.txs|) {
      CutIsInterval(x0, x, first, |x.txs|);
    }
  }

  /** An account is an interval after an eviction if and only if it was one and lost nothing, or was cut to one. */
  lemma EvictedGaplessIff(x: Stage, y: Stage, chain: ChainState, locals: set<Address>, level: nat, a: Address)
    requires Eviction.AtLevel(AccountsOf(x.s.pending, x.nonces, chain), locals, level,
                              AccountsOf(y.s.pending, y.nonces, chain))
    requires SameBounds(x.s.pending, x.nonces, y.s.pending, y.nonces, chain)
    requires forall n | n in ItemsOf(x.s.pending, a) :: n >= chain.Nonce(a)
    ensures GaplessAt(y, chain, a) <==> StaysInterval(x, y, chain, a)
  {
    var before, after := AccountsOf(x.s.pending, x.nonces, chain), AccountsOf(y.s.pending, y.nonces, chain);
    assert a in x.s.pending <==> a in before;
    assert a in y.s.pending <==> a in after;
    if a in locals {
      LocalNotEvicted(x, y, chain, locals, level, a);
    } else if a in x.s.pending {
      Eviction.LevelMeans(before, locals, level, after, a);
      assert before[a].txs == ItemsOf(x.s.pending, a) && after[a].txs == ItemsOf(y.s.pending, a);
      if |after[a].txs| == |before[a].txs| {
        SameSize(before[a], after[a]);
      } else {
        EvictedIff(before[a], after[a], chain.Nonce(a));
      }
    }
  }

  /** Neither demotion nor promotion leaves a pending transaction below the chain nonce. */
  lemma NoneBelow(limited: Stage, demoted: Stage, mid: Stage, chain: ChainState, a: Address, queued: bool, local: bool,
                  limit: nat)
    requires Inv(limited.s) && Inv(demoted.s) && Demotion(limited, demoted, chain, a)
    requires Promotion(demoted, mid, chain, a, queued, local, limit)
    ensures forall n | n in ItemsOf(mid.s.pending, a) :: n >= chain.Nonce(a)
  {
    DemotedIsSettled(limited.s, demoted.s, a, chain);
    if queued {
      var ready, _ := PromotedParts(demoted.s, mid.s, a, chain, NonceOf(demoted.nonces, chain, a), local, limit,
                                    NonceOf(mid.nonces, chain, a));
      QueueKeptIsNew(demoted.s, a, chain);
    }
  }

  /** From demotion to the end of the reset, with whatever the last eviction takes. */
  lemma LastGaplessIff(limited: Stage, demoted: Stage, mid: Stage, last: Stage, chain: ChainState,
                       locals: set<Address>, level: nat, a: Address, queued: bool, limit: nat)
    requires Inv(limited.s) && Inv(demoted.s) && Anchored(limited.s.pending, limited.nonces, chain, a)
    requires Demotion(limited, demoted, chain, a)
    requires Promotion(demoted, mid, chain, a, queued, a in locals, limit)
    requires Eviction.AtLevel(AccountsOf(mid.s.pending, mid.nonces, chain), locals, level,
                              AccountsOf(last.s.pending, last.nonces, chain))
    requires SameBounds(mid.s.pending, mid.nonces, last.s.pending, last.nonces, chain)
    ensures GaplessAt(mid, chain, a) <==> WillSettle(limited.s.pending, limited.nonces, chain, a)
    ensures GaplessAt(last, chain, a) <==> StaysInterval(mid, last, chain, a)
  {
    DemotedGaplessIff(limited.s, limited.nonces, demoted.s, demoted.nonces, chain, a);
    DemotedBegins(limited.s, limited.nonces, demoted.s, demoted.nonces, chain, a);
    PromoteGaplessIff(demoted.s, demoted.nonces, mid.s, mid.nonces, chain, a, queued, a in locals, limit);
    NoneBelow(limited, demoted, mid, chain, a, queued, a in locals, limit);
    EvictedGaplessIff(mid, last, chain, locals, level, a);
  }

  /** Without a gap before, and with fresh nonces, there is none after demotion. */
  lemma ContiguousSettles(pending: Lists, chain: ChainState, a: Address)
    requires Contiguous(ItemsOf(pending, a))
    ensures WillSettle(pending, map[], chain, a)
  {
    var m, short := ItemsOf(pending, a), Short(pending, a, chain);
    if Stays(m, short, chain, a, chain.Nonce(a)) {
      forall n: nat, g: nat | Stays(m, short, chain, a, n) && chain.Nonce(a) <= g < n ensures g in m {
        assert chain.Nonce(a) in m && n in m;
      }
    }
  }

  /** What promoteExecutables does to one account. */
  lemma ExecutedAccount(x: Stage, accounts: seq<Address>, chain: ChainState, locals: set<Address>,
                        beats: map<Address, nat>, limits: Limits, mid: Stage, level: nat, y: Stage, a: Address)
    requires Distinct(accounts)
    requires Executes(x, accounts, chain, locals, beats, limits, mid, level, y)
    ensures Promotion(x, mid, chain, a, a in accounts, a in locals, limits.accountQueue)
    ensures a in locals || Eviction.Count(AccountsOf(mid.s.pending, mid.nonces, chain)) <= limits.globalSlots ==>
              NotEvicted(mid, y, chain, a)
  {
    if a in accounts {
      assert PromotedIn(x.s, x.nonces, mid.s, mid.nonces, a, chain, locals, limits.accountQueue);
    } else {
      assert UntouchedIn(x.s, x.nonces, mid.s, mid.nonces, a, chain);
    }
    if Eviction.Count(AccountsOf(mid.s.pending, mid.nonces, chain)) <= limits.globalSlots {
      NobodyEvicted(mid, y, chain, a);
    }
    if a in locals { LocalNotEvicted(mid, y, chain, locals, level, a); }
  }

  lemma LocalNotEvicted(x: Stage, y: Stage, chain: ChainState, locals: set<Address>, level: nat, a: Address)
    requires Eviction.AtLevel(AccountsOf(x.s.pending, x.nonces, chain), locals, level,
                              AccountsOf(y.s.pending, y.nonces, chain))
    requires SameBounds(x.s.pending, x.nonces, y.s.pending, y.nonces, chain) && a in locals
    ensures NotEvicted(x, y, chain, a)
  {
    var before, after := AccountsOf(x.s.pending, x.nonces, chain), AccountsOf(y.s.pending, y.nonces, chain);
    assert a in x.s.pending <==> a in before;
    assert a in y.s.pending <==> a in after;
    if a in x.s.pending { Eviction.LevelMeans(before, locals, level, after, a); }
  }

  lemma NobodyEvicted(x: Stage, y: Stage, chain: ChainState, a: Address)
    requires AccountsOf(y.s.pending, y.nonces, chain) == AccountsOf(x.s.pending, x.nonces, chain)
    requires SameBounds(x.s.pending, x.nonces, y.s.pending, y.nonces, chain)
    ensures NotEvicted(x, y, chain, a)
  {
    var before, after := AccountsOf(x.s.pending, x.nonces, chain), AccountsOf(y.s.pending, y.nonces, chain);
    assert a in x.s.pending <==> a in before;
    assert a in y.s.pending <==> a in after;
    if a in x.s.pending { assert before[a] == after[a]; }
  }

  /** The accounts of a set, in some order. */
  method InSomeOrder(accounts: set<Address>) returns (order: seq<Address>)
    ensures Distinct(order) && forall a :: a in order <==> a in accounts
  {
    order := [];
    var rest := accounts;
    while rest != {}
      invariant rest <= accounts && Distinct(order) && forall a :: a in order <==> a in accounts - rest
      decreases |rest|
    {
      var a :| a in rest;
      assert a !in order;
      order := order + [a];
      rest := rest - {a};
    }
  }
}
