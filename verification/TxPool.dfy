/**
 The transaction pool (core/tx_pool.go): resetting, and the pool as an object.
 */
module TxPool {
  import opened Basics
  import opened TxMap
  import opened TxSortedMap
  import opened TxList
  import opened PoolState
  import opened PoolMoves
  import opened PoolReset
  import opened PoolAdd
  import opened PricedAdd
  import Eviction
  import PricedPool

  // ---------- Reset ----------

  /** A transaction to be reinjected, and what others say about it. */
  datatype Offer = Offer(tx: Tx, ruling: Ruling)

  /** The calls of add in addTxsLocked: where each of them starts, the room it has made, and its result. */
  ghost predicate AddsRun(chain: ChainState, offers: seq<Offer>, slots: nat, priceBump: nat,
                          stages: seq<Stage>, rooms: seq<State>, results: seq<AddResult>) {
    && |stages| == |results| + 1 && |rooms| == |results| <= |offers|
    && forall i | 0 <= i < |results| :: AddsOffer(chain, offers[i], slots, priceBump, stages[i], rooms[i],
                                                  stages[i + 1], results[i])
  }

  ghost predicate AddsOffer(chain: ChainState, offer: Offer, slots: nat, priceBump: nat, x: Stage, room: State,
                            y: Stage, res: AddResult)
  {
    AddsTx(x.s, x.nonces, chain, offer.tx, |x.s.all| >= slots, offer.ruling, priceBump, room, y.s, y.nonces, res)
  }

  /** The accounts with a newly queued transaction. */
  ghost predicate IsDirty(offers: seq<Offer>, results: seq<AddResult>, a: Address)
    requires |results| <= |offers|
  {
    exists i :: 0 <= i < |results| && results[i] == Queued(false) && offers[i].tx.from == a
  }

  /** The loop of addTxsLocked, up to a special transaction that meets a queued one. */
  method AddEach(s: State, nonces: map<Address, nat>, chain: ChainState, offers: seq<Offer>, slots: nat, priceBump: nat)
    returns (s': State, nonces': map<Address, nat>, dirty: set<Address>, clash: bool,
             ghost stages: seq<Stage>, ghost rooms: seq<State>, ghost results: seq<AddResult>)
    requires Inv(s)
    ensures AddsRun(chain, offers, slots, priceBump, stages, rooms, results)
    ensures stages[0] == Stage(s, nonces) && stages[|results|] == Stage(s', nonces')
    ensures forall a :: a in dirty <==> IsDirty(offers, results, a)
    ensures if clash then results != [] && results[|results| - 1].Special? && !Inv(s')
            else |results| == |offers| && Inv(s')
    ensures KeepsIntervals(s.pending, nonces, s'.pending, nonces', chain)
  {
    s', nonces', dirty, clash := s, nonces, {}, false;
    stages, rooms, results := [Stage(s, nonces)], [], [];
    var i := 0;
    while i < |offers| && !clash
      invariant i == |results| <= |offers| && AddsRun(chain, offers, slots, priceBump, stages, rooms, results)
      invariant stages[0] == Stage(s, nonces) && stages[i] == Stage(s', nonces')
      invariant forall a :: a in dirty <==> IsDirty(offers, results, a)
      invariant if clash then results != [] && results[i - 1].Special? && !Inv(s') else Inv(s')
      invariant KeepsIntervals(s.pending, nonces, s'.pending, nonces', chain)
    {
      var t, before := offers[i].tx, Stage(s', nonces');
      ghost var room, results0 := s', results;
      var res;
      s', nonces', res, room := AddTx(s', nonces', chain, t, |s'.all| >= slots, offers[i].ruling, priceBump);
      KeepsTwice(s.pending, nonces, before.s.pending, before.nonces, s'.pending, nonces', chain);
      clash := res.Special? && t.from in before.s.queue && t.nonce in before.s.queue[t.from].items;
      AddsRunNext(chain, offers, slots, priceBump, stages, rooms, results, room, Stage(s', nonces'), res);
      stages, rooms, results := stages + [Stage(s', nonces')], rooms + [room], results + [res];
      DirtyNext(offers, results0, res);
      if res == Queued(false) { dirty := dirty + {t.from}; }
      i := i + 1;
    }
  }

  lemma AddsRunNext(chain: ChainState, offers: seq<Offer>, slots: nat, priceBump: nat, stages: seq<Stage>,
                    rooms: seq<State>, results: seq<AddResult>, room: State, y: Stage, res: AddResult)
    requires AddsRun(chain, offers, slots, priceBump, stages, rooms, results) && |results| < |offers|
    requires AddsOffer(chain, offers[|results|], slots, priceBump, stages[|results|], room, y, res)
    ensures AddsRun(chain, offers, slots, priceBump, stages + [y], rooms + [room], results + [res])
  {
    var stages', rooms', results' := stages + [y], rooms + [room], results + [res];
    forall i | 0 <= i < |results'|
      ensures AddsOffer(chain, offers[i], slots, priceBump, stages'[i], rooms'[i], stages'[i + 1], results'[i])
    {
      if i < |results| {
        assert AddsOffer(chain, offers[i], slots, priceBump, stages[i], rooms[i], stages[i + 1], results[i]);
      }
    }
  }

  lemma DirtyNext(offers: seq<Offer>, results: seq<AddResult>, res: AddResult)
    requires |results| < |offers|
    ensures forall a :: IsDirty(offers, results + [res], a)
                   <==> IsDirty(offers, results, a) || (res == Queued(false) && offers[|results|].tx.from == a)
  {
    var results' := results + [res];
    forall a ensures IsDirty(offers, results', a)
                <==> IsDirty(offers, results, a) || (res == Queued(false) && offers[|results|].tx.from == a)
    {
      if IsDirty(offers, results, a) {
        var i :| 0 <= i < |results| && results[i] == Queued(false) && offers[i].tx.from == a;
        assert results'[i] == Queued(false);
      }
      if res == Queued(false) && offers[|results|].tx.from == a { assert results'[|results|] == Queued(false); }
    }
  }

  /** What reset passes through. */
  datatype ResetRun = ResetRun(stages: seq<Stage>, rooms: seq<State>, results: seq<AddResult>, dirty: seq<Address>,
                               mid: Stage, level: nat,
                               limited: Stage, demoted: Stage, accounts: seq<Address>, mid2: Stage, level2: nat)

  /**
   What reset is given: the new chain state, what to reinject,
   the local accounts and the heartbeats for its two promotions.
   */
  datatype ResetInput = ResetInput(chain: ChainState, offers: seq<Offer>, locals: set<Address>,
                                   beats: map<Address, nat>, beats2: map<Address, nat>)

  /** With fresh nonces, the transactions are added one by one. */
  ghost predicate Reinjects(s: State, x: ResetInput, limits: Limits, priceBump: nat, r: ResetRun) {
    && AddsRun(x.chain, x.offers, limits.globalSlots + limits.globalQueue, priceBump, r.stages, r.rooms, r.results)
    && r.stages[0] == Stage(s, map[])
  }

  /** promoteExecutables as addTxsLocked calls it: only if there is anything to promote. */
  ghost predicate ExecutesAny(from: Stage, accounts: seq<Address>, x: ResetInput, beats: map<Address, nat>,
                              limits: Limits, mid: Stage, level: nat, to: Stage)
  {
    if accounts == [] then mid == from == to
    else Executes(from, accounts, x.chain, x.locals, beats, limits, mid, level, to)
  }

  /**
   The rest of reset: promote the accounts with new transactions, demote and refresh all, promote all with a queue.
   The limits are applied at the end even if no account has one.
   */
  ghost predicate Resettles(x: ResetInput, limits: Limits, r: ResetRun, added: Stage, last: Stage)
    requires |r.results| <= |x.offers|
  {
    && Distinct(r.dirty) && (forall a :: a in r.dirty <==> IsDirty(x.offers, r.results, a))
    && ExecutesAny(added, r.dirty, x, x.beats, limits, r.mid, r.level, r.limited)
    && (forall a {:trigger Demotion(r.limited, r.demoted, x.chain, a)} :: Demotion(r.limited, r.demoted, x.chain, a))
    && Distinct(r.accounts) && (forall a :: a in r.accounts <==> a in r.demoted.s.queue)
    && Executes(r.demoted, r.accounts, x.chain, x.locals, x.beats2, limits, r.mid2, r.level2, last)
  }

  method ExecuteAny(from: Stage, accounts: seq<Address>, x: ResetInput, beats: map<Address, nat>, limits: Limits,
                    ghost priceBump: nat)
    returns (to: Stage, ghost mid: Stage, ghost level: nat)
    requires Inv(from.s)
    ensures ExecutesAny(from, accounts, x, beats, limits, mid, level, to) && Safe(from, to, x.chain, x.locals)
  {
    if accounts == [] { return from, from, 0; }
    to, mid, level := Execute(from, accounts, x.chain, x.locals, beats, limits, priceBump);
  }

  /** demoteUnexecutables and the loop that refreshes the nonces. */
  method DemoteAndRefresh(from: Stage, chain: ChainState, ghost priceBump: nat) returns (to: Stage)
    requires Inv(from.s)
    ensures Inv(to.s) && Spares(from.s.all, to.s.all, chain, None)
    ensures forall a {:trigger Demotion(from, to, chain, a)} :: Demotion(from, to, chain, a)
  {
    var s := DemoteAll(from.s, chain, priceBump);
    var nonces := RefreshNonces(s.pending, from.nonces);
    to := Stage(s, nonces);
    forall a ensures Demotion(from, to, chain, a) {
      assert AccountDemoted(from.s, s, a, chain) && Refreshed(s.pending, from.nonces, nonces, a);
    }
  }

  method Resettle(x: ResetInput, limits: Limits, ghost priceBump: nat, added: Stage, dirty: set<Address>,
                  ghost r0: ResetRun)
    returns (last: Stage, ghost r: ResetRun)
    requires Inv(added.s) && |r0.results| <= |x.offers| && forall a :: a in dirty <==> IsDirty(x.offers, r0.results, a)
    ensures r.stages == r0.stages && r.rooms == r0.rooms && r.results == r0.results
    ensures Resettles(x, limits, r, added, last)
    ensures Safe(added, r.limited, x.chain, x.locals) && Safe(r.demoted, last, x.chain, x.locals)
    ensures Spares(r.limited.s.all, r.demoted.s.all, x.chain, None)
  {
    var addrs := InSomeOrder(dirty);
    var limited, mid, level := ExecuteAny(added, addrs, x, x.beats, limits, priceBump);
    var demoted := DemoteAndRefresh(limited, x.chain, priceBump);
    var accounts := InSomeOrder(demoted.s.queue.Keys);
    ghost var mid2, level2;
    last, mid2, level2 := Execute(demoted, accounts, x.chain, x.locals, x.beats2, limits, priceBump);
    r := r0.(dirty := addrs, mid := mid, level := level, limited := limited, demoted := demoted, accounts := accounts,
             mid2 := mid2, level2 := level2);
  }

  /** All of reset; a special transaction that meets a queued one ends the part of it that is described here. */
  ghost predicate Resets(s: State, x: ResetInput, limits: Limits, priceBump: nat, r: ResetRun, last: Stage, clash: bool)
  {
    && Reinjects(s, x, limits, priceBump, r)
    && if clash then last == Reinjected(r) && r.results != [] && r.results[|r.results| - 1].Special? && !Inv(last.s)
       else |r.results| == |x.offers| && Resettles(x, limits, r, Reinjected(r), last) && ResetIsSafe(s, x, r, last)
  }

  /** The pool after reinjection. */
  ghost function Reinjected(r: ResetRun): Stage
    requires r.stages != []
  {
    r.stages[|r.stages| - 1]
  }

  /**
   The invariant holds all along, intervals are kept where nonces are
   not started anew, and local accounts lose only dead transactions.
   */
  ghost predicate ResetIsSafe(s: State, x: ResetInput, r: ResetRun, last: Stage)
    requires r.stages != []
  {
    && KeepsIntervals(s.pending, map[], Reinjected(r).s.pending, Reinjected(r).nonces, x.chain)
    && Safe(Reinjected(r), r.limited, x.chain, x.locals) && Safe(r.demoted, last, x.chain, x.locals)
    && Spares(r.limited.s.all, r.demoted.s.all, x.chain, None)
  }

  method ResetTo(s: State, x: ResetInput, limits: Limits, priceBump: nat)
    returns (last: Stage, clash: bool, ghost r: ResetRun)
    requires Inv(s)
    ensures Resets(s, x, limits, priceBump, r, last, clash) && (Inv(last.s) <==> !clash)
  {
    var added, nonces, dirty;
    ghost var stages, rooms, results;
    added, nonces, dirty, clash, stages, rooms, results :=
      AddEach(s, map[], x.chain, x.offers, limits.globalSlots + limits.globalQueue, priceBump);
    last := Stage(added, nonces);
    r := ResetRun(stages, rooms, results, [], last, 0, last, last, [], last, 0);
    ghost var r0 := r;
    assert Reinjects(s, x, limits, priceBump, r0) && Reinjected(r0) == last;
    if !clash {
      last, r := Resettle(x, limits, priceBump, last, dirty, r0);
      ResetWhole(s, x, limits, priceBump, r0, r, last);
    }
  }

  lemma ResetWhole(s: State, x: ResetInput, limits: Limits, priceBump: nat, r0: ResetRun, r: ResetRun, last: Stage)
    requires Reinjects(s, x, limits, priceBump, r0) && |r0.results| == |x.offers|
    requires r.stages == r0.stages && r.rooms == r0.rooms && r.results == r0.results
    requires Resettles(x, limits, r, Reinjected(r0), last) && ResetIsSafe(s, x, r, last)
    ensures Resets(s, x, limits, priceBump, r, last, false)
  {
    assert Reinjects(s, x, limits, priceBump, r) && Reinjected(r) == Reinjected(r0);
  }

  /**
   When an account ends as an interval: if the last eviction takes nothing from it, exactly if its list and nonce before
   demotion say so, and otherwise exactly if it is cut to one. If the limits leave it alone altogether, its lists and
   nonce after reinjection decide; they leave local accounts alone.
   */
  lemma ResetIntervalIff(s: State, x: ResetInput, limits: Limits, priceBump: nat, r: ResetRun, last: Stage, a: Address)
    requires Resets(s, x, limits, priceBump, r, last, false)
    ensures GaplessAt(last, x.chain, a) <==>
            if |ItemsOf(last.s.pending, a)| == |ItemsOf(r.mid2.s.pending, a)|
            then WillSettle(r.limited.s.pending, r.limited.nonces, x.chain, a)
            else CutsToInterval(ItemsOf(r.mid2.s.pending, a), NonceOf(r.mid2.nonces, x.chain, a), x.chain.Nonce(a),
                                |ItemsOf(last.s.pending, a)|)
    ensures WillSettle(r.limited.s.pending, r.limited.nonces, x.chain, a) ==> GaplessAt(last, x.chain, a)
    ensures NotEvicted(r.mid, r.limited, x.chain, a) ==>
              (WillSettle(r.limited.s.pending, r.limited.nonces, x.chain, a) <==>
               EndsAsInterval(Reinjected(r).s, Reinjected(r).nonces, x.chain, a, IsDirty(x.offers, r.results, a)))
    ensures a in x.locals ==> NotEvicted(r.mid, r.limited, x.chain, a) && NotEvicted(r.mid2, last, x.chain, a)
  {
    assert Demotion(r.limited, r.demoted, x.chain, a);
    ExecutedAny(Reinjected(r), r.dirty, x, x.beats, limits, r.mid, r.level, r.limited, a);
    ExecutedAccount(r.demoted, r.accounts, x.chain, x.locals, x.beats2, limits, r.mid2, r.level2, last, a);
    ResetAnchors(s, x, r, last, a);
    DemotedGaplessIff(r.limited.s, r.limited.nonces, r.demoted.s, r.demoted.nonces, x.chain, a);
    if NotEvicted(r.mid, r.limited, x.chain, a) {
      PromotedSettlesIff(Reinjected(r).s, Reinjected(r).nonces, r.mid.s, r.mid.nonces, x.chain, a, a in r.dirty,
                         a in x.locals, limits.accountQueue);
    }
    LastGaplessIff(r.limited, r.demoted, r.mid2, last, x.chain, x.locals, r.level2, a, a in r.accounts,
                   limits.accountQueue);
  }

  lemma ResetAnchors(s: State, x: ResetInput, r: ResetRun, last: Stage, a: Address)
    requires r.stages != [] && ResetIsSafe(s, x, r, last)
    ensures Anchored(r.limited.s.pending, r.limited.nonces, x.chain, a)
    ensures GaplessAt(r.demoted, x.chain, a) ==> GaplessAt(last, x.chain, a)
  {
    var y := Reinjected(r);
    assert KeepsInterval(s.pending, map[], y.s.pending, y.nonces, x.chain, a);
    assert KeepsInterval(y.s.pending, y.nonces, r.limited.s.pending, r.limited.nonces, x.chain, a);
    assert KeepsInterval(r.demoted.s.pending, r.demoted.nonces, last.s.pending, last.nonces, x.chain, a);
  }

  lemma ExecutedAny(from: Stage, accounts: seq<Address>, x: ResetInput, beats: map<Address, nat>, limits: Limits,
                    mid: Stage, level: nat, to: Stage, a: Address)
    requires Distinct(accounts) && ExecutesAny(from, accounts, x, beats, limits, mid, level, to)
    ensures Promotion(from, mid, x.chain, a, a in accounts, a in x.locals, limits.accountQueue)
    ensures a in x.locals || Eviction.Count(AccountsOf(mid.s.pending, mid.nonces, x.chain)) <= limits.globalSlots ==>
              NotEvicted(mid, to, x.chain, a)
  {
    if accounts != [] { ExecutedAccount(from, accounts, x.chain, x.locals, beats, limits, mid, level, to, a); }
  }

  lemma SomeoneIn(accounts: seq<Address>)
    ensures accounts != [] ==> exists a :: a in accounts
  {
    if accounts != [] { assert accounts[0] in accounts; }
  }

  lemma NothingReinjected(s: State, x: ResetInput, limits: Limits, priceBump: nat, r: ResetRun, last: Stage)
    requires Reinjects(s, x, limits, priceBump, r) && x.offers == [] && Resettles(x, limits, r, Reinjected(r), last)
    ensures r.limited == Stage(s, map[])
  {
    assert forall b :: !IsDirty(x.offers, r.results, b);
    SomeoneIn(r.dirty);
  }

  /** A reset that brings nothing back leaves intervals, if there were no gaps before. */
  lemma QuietReset(s: State, x: ResetInput, limits: Limits, priceBump: nat, r: ResetRun, last: Stage, a: Address)
    requires Resets(s, x, limits, priceBump, r, last, false) && x.offers == [] && Contiguous(ItemsOf(s.pending, a))
    ensures GaplessAt(last, x.chain, a)
  {
    NothingReinjected(s, x, limits, priceBump, r, last);
    ContiguousSettles(s.pending, x.chain, a);
    ResetIntervalIff(s, x, limits, priceBump, r, last, a);
  }

  // ---------- A reset that leaves a gap ----------

  function PlainTx(hash: nat, a: Address, nonce: nat): Tx { Tx(hash, a, nonce, 1, 1, 0, None) }

  function ChainAt(a: Address, nonce: nat): ChainState { ChainState(map[a := nonce], map[a := 100], 100, map[]) }

  /** Nonces 5 and 6 are pending, and 3 may be queued. */
  ghost predicate FiveAndSix(s: State, a: Address, queued: bool) {
    && s.pending == map[a := List(true, map[5 := PlainTx(5, a, 5), 6 := PlainTx(6, a, 6)], 1, 1)]
    && s.queue == (if queued then map[a := List(false, map[3 := PlainTx(3, a, 3)], 1, 1)] else map[])
    && s.all == map[5 := PlainTx(5, a, 5), 6 := PlainTx(6, a, 6)] + if queued then map[3 := PlainTx(3, a, 3)] else map[]
  }

  lemma FiveAndSixOk(s: State, a: Address)
    requires FiveAndSix(s, a, false)
    ensures Inv(s) && Gapless(s.pending, map[a := 7], ChainAt(a, 5), a)
  {
    forall b ensures FiledAt(s.pending, b) && FiledAt(s.queue, b) && Apart(s, b) {}
    forall t ensures InAll(s.all, t) <==> Member(s, {}, t) {}
    assert ItemsOf(s.pending, a).Keys == {5, 6};
  }

  /** With nonce 3 back in the queue and nonce 4 missing, promotion and demotion leave 3, 5 and 6. */
  lemma FourIsMissing(s: State, a: Address)
    requires FiveAndSix(s, a, true)
    ensures !EndsAsInterval(s, map[], ChainAt(a, 3), a, true)
  {
    var chain := ChainAt(a, 3);
    var kept := QueueKept(s, a, chain);
    assert kept.Keys == {3} && kept[3] == PlainTx(3, a, 3);
    var joining := ReadyRun(kept, 3);
    assert InRun(kept, 3, 3) by { assert 3 in kept; }
    assert joining.Keys == {3};
    var m := ItemsOf(s.pending, a) + joining;
    assert m.Keys == {3, 5, 6};
    assert Short(s.pending, a, chain) && Affordable(joining, 100, 100);
    assert Stays(m, true, chain, a, 3) && Stays(m, true, chain, a, 5) && 4 !in m;
  }

  /**
   A reset can leave a gap for good: the chain nonce falls from 5 to 3 while 5 and 6 are pending; the transaction with
   nonce 3 comes back, the one with nonce 4 is refused. A local account, which is never evicted, ends with 3, 5 and 6
   pending.
   */
  lemma ReinjectionLeavesGap(s: State, a: Address, limits: Limits, x: ResetInput, r: ResetRun, last: Stage)
    requires FiveAndSix(s, a, false) && limits.globalSlots + limits.globalQueue > 3 && x.chain == ChainAt(a, 3)
    requires x.offers == [Offer(PlainTx(3, a, 3), Ruling(true, false, false, [])),
                          Offer(PlainTx(4, a, 4), Ruling(false, false, false, []))]
    requires Resets(s, x, limits, 10, r, last, false) && a in x.locals
    ensures Inv(s) && Gapless(s.pending, map[a := 7], ChainAt(a, 5), a) && !GaplessAt(last, x.chain, a)
  {
    FiveAndSixOk(s, a);
    var y := ThreeComesBack(s, a, limits, x, r);
    FourIsMissing(y, a);
    ResetIntervalIff(s, x, limits, 10, r, last, a);
  }

  lemma ThreeComesBack(s: State, a: Address, limits: Limits, x: ResetInput, r: ResetRun) returns (y: State)
    requires FiveAndSix(s, a, false) && limits.globalSlots + limits.globalQueue > 3 && x.chain == ChainAt(a, 3)
    requires x.offers == [Offer(PlainTx(3, a, 3), Ruling(true, false, false, [])),
                          Offer(PlainTx(4, a, 4), Ruling(false, false, false, []))]
    requires Reinjects(s, x, limits, 10, r) && |r.results| == 2
    ensures FiveAndSix(y, a, true) && Reinjected(r) == Stage(y, map[]) && IsDirty(x.offers, r.results, a)
  {
    var slots := limits.globalSlots + limits.globalQueue;
    y := r.stages[1].s;
    ThreeIsQueued(s, a, x.chain, slots, r.rooms[0], r.stages[1], r.results[0]);
    FourIsRefused(r.stages[1], a, x.chain, slots, r.rooms[1], r.stages[2], r.results[1]);
    assert x.offers[0].tx.from == a;
  }

  lemma ThreeIsQueued(s: State, a: Address, chain: ChainState, slots: nat, room: State, y: Stage, res: AddResult)
    requires FiveAndSix(s, a, false) && slots > 3 && chain == ChainAt(a, 3)
    requires AddsOffer(chain, Offer(PlainTx(3, a, 3), Ruling(true, false, false, [])), slots, 10, Stage(s, map[]), room,
                       y, res)
    ensures res == Queued(false) && y.nonces == map[] && FiveAndSix(y.s, a, true)
  {
    assert |s.all| == 2 by { assert s.all.Keys == {5, 6}; }
    QueuesThree(s, a, chain);
    PlainIsInserted(Stage(s, map[]), chain, PlainTx(3, a, 3), slots, 10, room, y, res);
  }

  /** In a pool with room, a valid transaction of no signer is inserted. */
  lemma PlainIsInserted(x: Stage, chain: ChainState, t: Tx, slots: nat, priceBump: nat, room: State, y: Stage,
                        res: AddResult)
    requires AddsOffer(chain, Offer(t, Ruling(true, false, false, [])), slots, priceBump, x, room, y, res)
    requires |x.s.all| < slots && t.hash !in x.s.all
    ensures res == InsertVerdict(x.s, t, priceBump) && y == Stage(Inserted(x.s, t, res), x.nonces)
  {
  }

  lemma FourIsRefused(x: Stage, a: Address, chain: ChainState, slots: nat, room: State, y: Stage, res: AddResult)
    requires AddsOffer(chain, Offer(PlainTx(4, a, 4), Ruling(false, false, false, [])), slots, 10, x, room, y, res)
    ensures y == x
  {
  }

  lemma QueuesThree(s: State, a: Address, chain: ChainState)
    requires FiveAndSix(s, a, false) && chain == ChainAt(a, 3)
    ensures var t := PlainTx(3, a, 3);
            InsertVerdict(s, t, 10) == Queued(false) && FiveAndSix(Inserted(s, t, Queued(false)), a, true)
  {
    var t := PlainTx(3, a, 3);
    assert Added(QueueOf(s.queue, a), t) == List(false, map[3 := t], 1, 1);
    assert Reindexed(s.all, map[], t) == s.all + map[3 := t];
  }

  class Pool {
    const priceBump: nat
    const limits: Limits
    var pending: Lists
    var queue: Lists
    var all: map<nat, Tx>
    var nonces: map<Address, nat>
    var locals: set<Address>

    constructor (priceBump: nat, limits: Limits)
      ensures Valid() && St() == State(map[], map[], map[]) && nonces == map[] && locals == {}
      ensures this.priceBump == priceBump && this.limits == limits
    {
      this.priceBump, this.limits := priceBump, limits;
      pending, queue, all, nonces, locals := map[], map[], map[], map[], {};
    }

    /** How many transactions the pool has room for. */
    function Slots(): nat { limits.globalSlots + limits.globalQueue }

    ghost function St(): State
      reads this
    {
      State(pending, queue, all)
    }

    ghost function At(): Stage
      reads this
    {
      Stage(St(), nonces)
    }

    ghost predicate Valid()
      reads this
    {
      Inv(St())
    }

    method RemoveTx(hash: nat, chain: ChainState)
      requires Valid()
      modifies this
      ensures Valid() && locals == old(locals)
      ensures RemovesHash(old(St()), old(nonces), chain, hash, St(), nonces)
      ensures KeepsIntervals(old(pending), old(nonces), pending, nonces, chain)
    {
      var s;
      s, nonces := RemoveOne(State(pending, queue, all), nonces, chain, hash, priceBump);
      pending, queue, all := s.pending, s.queue, s.all;
    }

    method PromoteSpecialTx(t: Tx, ghost chain: ChainState) returns (res: AddResult)
      requires Valid() && t.hash !in all
      modifies this
      ensures SpecialAdded(old(St()), old(nonces), t, St(), nonces, res) && locals == old(locals)
      ensures t.nonce == NonceOf(old(nonces), chain, t.from) ==>
                KeepsIntervals(old(pending), old(nonces), pending, nonces, chain)
    {
      var s;
      s, nonces, res := AddSpecial(State(pending, queue, all), nonces, t, chain);
      pending, queue, all := s.pending, s.queue, s.all;
    }

    /** TxPool.add; what validateTx and IsSigner say is given, and `b` describes the price heap. */
    method Add(t: Tx, local: bool, chain: ChainState, valid: bool, signer: bool, priced: Heap, ghost b: PricedPool.Book)
      returns (res: AddResult, ghost x: Trace, ghost b': PricedPool.Book, ghost es: seq<PricedPool.Event>)
      requires Valid() && PricedPool.Matches(b, priced, all) && PricedPool.Covered(b)
      modifies this, priced
      ensures x.ruling.valid == valid && x.ruling.signer == signer
      ensures Adds(old(At()), chain, t, Slots(), old(locals), priceBump, b, x, At(), res)
      ensures PricedPool.Matches(b', priced, all) && HeapFollows(b, es, b', t, res)
      ensures locals == old(locals) + if local && res.Queued? then {t.from} else {}
    {
      var from := Stage(State(pending, queue, all), nonces);
      assert from == At();
      var to;
      to, res, x, b', es := AddPriced(priced, from, chain, t, valid, signer, Slots(), locals, priceBump, b);
      Become(to, locals + if local && res.Queued? then {t.from} else {});
    }

    /**
     demoteUnexecutables: exactly what demotion makes of each account's
     lists; every pending list then starts at its account's nonce.
     */
    method DemoteUnexecutables(chain: ChainState)
      requires Valid()
      modifies this
      ensures Valid() && locals == old(locals) && nonces == old(nonces)
      ensures forall a {:trigger AccountDemoted(old(St()), St(), a, chain)} :: AccountDemoted(old(St()), St(), a, chain)
      ensures forall a :: Settled(pending, a, chain)
      ensures Spares(old(all), all, chain, None) && NoneEmpty(pending, {})
    {
      ghost var s0 := St();
      var s := DemoteAll(State(pending, queue, all), chain, priceBump);
      forall a ensures Settled(s.pending, a, chain) {
        assert AccountDemoted(s0, s, a, chain);
        DemotedIsSettled(s0, s, a, chain);
      }
      pending, queue, all := s.pending, s.queue, s.all;
      assert St() == s;
    }

    /** promoteExecutables; `beats` are the accounts' heartbeats. */
    method PromoteExecutables(accounts: seq<Address>, chain: ChainState, beats: map<Address, nat>)
      returns (ghost mid: Stage, ghost level: nat)
      requires Valid()
      modifies this
      ensures Executes(old(At()), accounts, chain, locals, beats, limits, mid, level, At())
      ensures Safe(old(At()), At(), chain, locals) && locals == old(locals)
    {
      var from := Stage(State(pending, queue, all), nonces);
      assert from == At();
      var to;
      to, mid, level := Execute(from, accounts, chain, locals, beats, limits, priceBump);
      Become(to, locals);
    }

    /**
     reset, up to the transactions that the new head makes it reinject: see Resets, and ResetIntervalIff for when it
     leaves intervals.
     */
    method Reset(x: ResetInput) returns (clash: bool, ghost r: ResetRun)
      requires Valid() && x.locals == locals
      modifies this
      ensures Resets(old(St()), x, limits, priceBump, r, At(), clash) && (Valid() <==> !clash) && locals == old(locals)
    {
      var s := State(pending, queue, all);
      assert s == St();
      var last;
      last, clash, r := ResetTo(s, x, limits, priceBump);
      Become(last, locals);
    }

    method Become(to: Stage, locals: set<Address>)
      modifies this
      ensures At() == to && this.locals == locals
    {
      pending, queue, all, nonces := to.s.pending, to.s.queue, to.s.all, to.nonces;
      this.locals := locals;
    }
  }
}
