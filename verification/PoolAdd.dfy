/**
 Adding to and removing from the transaction pool (core/tx_pool.go): promoteSpecialTx, removeTx and add.
 */
module PoolAdd {
  import opened Basics
  import opened TxMap
  import opened TxSortedMap
  import opened TxList
  import opened PoolState
  import opened PoolMoves

  // ---------- Special transactions ----------

  /** promoteSpecialTx refuses a special transaction where another special one is pending. */
  predicate RejectsSpecial(s: State, t: Tx) {
    var m := ItemsOf(s.pending, t.from);
    t.nonce in m && m[t.nonce].IsSpecial()
  }

  /** promoteSpecialTx: straight into the pending list, without looking at the queue. */
  function SpecialPromoted(s: State, t: Tx): State {
    var list := PendingOf(s.pending, t.from);
    if RejectsSpecial(s, t) then s
    else State(s.pending[t.from := Added(list, t)], s.queue, Reindexed(s.all, list.items, t))
  }

  /**
   Promoting a special transaction keeps the pool invariant if and only if it is refused, or the sender has no
   queued transaction with the same nonce.
   */
  lemma SpecialKeepsIff(s: State, t: Tx)
    requires Inv(s) && t.hash !in s.all
    ensures Inv(SpecialPromoted(s, t)) <==> RejectsSpecial(s, t) || t.nonce !in ItemsOf(s.queue, t.from)
  {
    var s' := SpecialPromoted(s, t);
    if !RejectsSpecial(s, t) {
      StoreChanges(s.pending, t.from, Added(PendingOf(s.pending, t.from), t));
      assert Apart(s, t.from);
      if t.nonce in ItemsOf(s.pending, t.from) {
        RependKeeps(s, t, s');
      } else if t.nonce !in ItemsOf(s.queue, t.from) {
        assert Free(s, t);
        InsertKeeps(s, {}, t);
        PlaceKeeps(s.(all := s.all[t.hash := t]), {} + {t}, t, s');
        assert {} + {t} - {t} == {};
      } else {
        assert t.nonce in ItemsOf(s'.pending, t.from) && !Apart(s', t.from);
      }
    }
  }

  /** A queued transaction and a special one with the same sender and nonce: both end up in the pool. */
  lemma SpecialClash()
    ensures var queued, special := Tx(1, 7, 5, 1, 1, 0, None), Tx(2, 7, 5, 1, 1, 0, Some(BLOCK_SIGNERS));
            var s := State(map[], map[7 := Added(EMPTY_QUEUE, queued)], map[1 := queued]);
            Inv(s) && InList(SpecialPromoted(s, special).pending, special)
              && InList(SpecialPromoted(s, special).queue, queued)
            && !Inv(SpecialPromoted(s, special))
  {
    var queued, special := Tx(1, 7, 5, 1, 1, 0, None), Tx(2, 7, 5, 1, 1, 0, Some(BLOCK_SIGNERS));
    var s := State(map[], map[7 := Added(EMPTY_QUEUE, queued)], map[1 := queued]);
    assert ItemsOf(s.queue, 7) == map[5 := queued];
    forall a ensures FiledAt(s.pending, a) && FiledAt(s.queue, a) && Apart(s, a) {}
    forall t ensures InAll(s.all, t) <==> Member(s, {}, t) {}
    SpecialKeepsIff(s, special);
  }

  /** removeTx as it is written: it looks for the nonce in the pending list, whoever has it there. */
  ghost predicate RemovesByNonce(s: State, t: Tx, s': State) {
    && s'.all == s.all - {t.hash}
    && if t.nonce in ItemsOf(s.pending, t.from)
       then && Changed(s.pending, s'.pending, t.from, Below(ItemsOf(s.pending, t.from), t.nonce))
            && Changed(s.queue, s'.queue, t.from, ItemsOf(s.queue, t.from)
                       + From(ItemsOf(s.pending, t.from), t.nonce + 1))
       else s'.pending == s.pending && Changed(s.queue, s'.queue, t.from, ItemsOf(s.queue, t.from) - {t.nonce})
  }

  /** As long as the invariant holds, that is the transaction itself. */
  lemma NonceFindsTx(s: State, t: Tx, s': State)
    requires Inv(s) && InAll(s.all, t)
    ensures RemovesByNonce(s, t, s') <==> Removes(s, t, s')
  {
    assert Member(s, {}, t) && Apart(s, t.from) && FiledAt(s.pending, t.from);
  }

  /**
   What a clash leads to. Removing the queued transaction takes the special one off the pending list instead: it is then
   indexed and listed nowhere, and the queued one is listed and not indexed. And no price lets a promotion of the queued
   one replace the special one, so that promotion deletes it.
   */
  lemma ClashLosesTrack(s: State, queued: Tx, special: Tx, s': State)
    requires Inv(s) && InList(s.queue, queued) && special.hash !in s.all && special.IsSpecial()
             && SamePlace(queued, special)
    requires RemovesByNonce(SpecialPromoted(s, special), queued, s')
    ensures !RejectsSpecial(s, special)
    ensures InAll(s'.all, special) && !InList(s'.pending, special) && !InList(s'.queue, special)
    ensures InList(s'.queue, queued) && !InAll(s'.all, queued)
    ensures forall bump: nat :: !Accepts(PendingOf(SpecialPromoted(s, special).pending, queued.from), queued, bump)
  {
    assert Apart(s, queued.from) && Member(s, {}, queued);
    assert InAll(s.all, queued);
    var s1 := SpecialPromoted(s, special);
    assert ItemsOf(s1.pending, queued.from)[queued.nonce] == special;
    assert ItemsOf(s'.queue, queued.from) ==
      ItemsOf(s.queue, queued.from) + From(ItemsOf(s1.pending, queued.from), queued.nonce + 1);
  }

  // ---------- Removing several transactions ----------

  /** What removeTx makes of the pending nonces. */
  function NoncesWithout(s: State, nonces: map<Address, nat>, chain: ChainState, t: Tx): map<Address, nat> {
    if InList(s.pending, t) && NonceOf(nonces, chain, t.from) > t.nonce then nonces[t.from := t.nonce] else nonces
  }

  lemma RemoveKeepsIntervals(s: State, nonces: map<Address, nat>, chain: ChainState, t: Tx, s': State)
    requires Removes(s, t, s')
    ensures KeepsIntervals(s.pending, nonces, s'.pending, NoncesWithout(s, nonces, chain, t), chain)
  {
    var nonces' := NoncesWithout(s, nonces, chain, t);
    forall a ensures KeepsInterval(s.pending, nonces, s'.pending, nonces', chain, a) {
      assert InList(s.pending, t) && a == t.from ==> ItemsOf(s'.pending, a) == Below(ItemsOf(s.pending, a), t.nonce);
      assert InList(s.pending, t) && a != t.from ==> ItemsOf(s'.pending, a) == ItemsOf(s.pending, a);
    }
  }

  /** removeTx, with the pending nonce taken back to a removed pending transaction. */
  method RemoveOne(s: State, nonces: map<Address, nat>, chain: ChainState, hash: nat, ghost priceBump: nat)
    returns (s': State, nonces': map<Address, nat>)
    requires Inv(s)
    ensures Inv(s') && RemovesHash(s, nonces, chain, hash, s', nonces')
    ensures s'.all == s.all - {hash}
    ensures KeepsIntervals(s.pending, nonces, s'.pending, nonces', chain)
  {
    s', nonces' := s, nonces;
    if hash in s.all {
      var t := s.all[hash];
      var wasPending;
      s', wasPending := Remove(s, hash, priceBump);
      assert t.hash == hash;
      if wasPending && NonceOf(nonces, chain, t.from) > t.nonce { nonces' := nonces[t.from := t.nonce]; }
      RemoveKeepsIntervals(s, nonces, chain, t, s');
    }
  }

  function SetOf(hashes: seq<nat>): set<nat> { set h | h in hashes }

  lemma SetOfNext(hashes: seq<nat>, i: nat)
    requires i < |hashes|
    ensures SetOf(hashes[..i + 1]) == SetOf(hashes[..i]) + {hashes[i]}
  {
    assert hashes[..i + 1] == hashes[..i] + [hashes[i]];
  }

  /** removeTx; an unknown hash changes nothing. */
  ghost predicate RemovesHash(s: State, nonces: map<Address, nat>, chain: ChainState, hash: nat, s': State,
                              nonces': map<Address, nat>)
  {
    if hash in s.all then Removes(s, s.all[hash], s') && nonces' == NoncesWithout(s, nonces, chain, s.all[hash])
    else s' == s && nonces' == nonces
  }

  /** removeTx for one hash after the other. */
  ghost predicate RemovesEach(s: State, nonces: map<Address, nat>, chain: ChainState, hashes: seq<nat>,
                              s': State, nonces': map<Address, nat>)
    decreases |hashes|
  {
    if hashes == [] then s' == s && nonces' == nonces
    else
      var last := hashes[|hashes| - 1];
      exists mid, midNonces {:trigger RemovesHash(mid, midNonces, chain, last, s', nonces')} ::
        && RemovesEach(s, nonces, chain, hashes[..|hashes| - 1], mid, midNonces)
        && RemovesHash(mid, midNonces, chain, last, s', nonces')
  }

  lemma RemovesNext(s: State, nonces: map<Address, nat>, chain: ChainState, hashes: seq<nat>, i: nat,
                    mid: State, midNonces: map<Address, nat>, s': State, nonces': map<Address, nat>)
    requires i < |hashes| && RemovesEach(s, nonces, chain, hashes[..i], mid, midNonces)
    requires RemovesHash(mid, midNonces, chain, hashes[i], s', nonces')
    ensures RemovesEach(s, nonces, chain, hashes[..i + 1], s', nonces')
  {
    assert hashes[..i + 1][..i] == hashes[..i] && hashes[..i + 1][i] == hashes[i];
  }

  method RemoveEach(s: State, nonces: map<Address, nat>, chain: ChainState, hashes: seq<nat>, ghost priceBump: nat)
    returns (s': State, nonces': map<Address, nat>)
    requires Inv(s)
    ensures Inv(s') && s'.all == s.all - SetOf(hashes) && RemovesEach(s, nonces, chain, hashes, s', nonces')
    ensures KeepsIntervals(s.pending, nonces, s'.pending, nonces', chain)
  {
    s', nonces' := s, nonces;
    for i := 0 to |hashes|
      invariant Inv(s') && s'.all == s.all - SetOf(hashes[..i])
      invariant RemovesEach(s, nonces, chain, hashes[..i], s', nonces')
      invariant KeepsIntervals(s.pending, nonces, s'.pending, nonces', chain)
    {
      ghost var mid, midNonces := s', nonces';
      s', nonces' := RemoveOne(s', nonces', chain, hashes[i], priceBump);
      RemovesNext(s, nonces, chain, hashes, i, mid, midNonces, s', nonces');
      KeepsTwice(s.pending, nonces, mid.pending, midNonces, s'.pending, nonces', chain);
      SetOfNext(hashes, i);
    }
    assert hashes[..|hashes|] == hashes;
  }

  // ---------- Adding ----------

  datatype AddResult =
    | Known
    | Invalid
    | Underpriced
    | ReplaceUnderpriced
    | DuplicateSpecial
    | Special
    | Replaced
    | Queued(replaced: bool)
  {
    /** The transaction was accepted. */
    predicate Ok() { Special? || Replaced? || Queued? }
  }

  /** Everything indexed was indexed before, except possibly `t`; lost are only `drop` and what had the place of `t`. */
  ghost predicate OnlyAdds(all: map<nat, Tx>, all': map<nat, Tx>, t: Tx, drop: set<nat>) {
    && (forall h | h in all' && h != t.hash :: h in all && all[h] == all'[h])
    && (forall h | h in all && h !in all' :: h in drop || SamePlace(all[h], t))
  }

  lemma PlaceIsIndexed(s: State, t: Tx)
    requires Inv(s)
    ensures t.nonce in ItemsOf(s.pending, t.from) ==> Occupies(s.all, ItemsOf(s.pending, t.from)[t.nonce], t)
    ensures t.nonce in ItemsOf(s.queue, t.from) ==> Occupies(s.all, ItemsOf(s.queue, t.from)[t.nonce], t)
  {
    assert FiledAt(s.pending, t.from) && FiledAt(s.queue, t.from);
    if t.nonce in ItemsOf(s.pending, t.from) { assert Member(s, {}, ItemsOf(s.pending, t.from)[t.nonce]); }
    if t.nonce in ItemsOf(s.queue, t.from) { assert Member(s, {}, ItemsOf(s.queue, t.from)[t.nonce]); }
  }

  ghost predicate Occupies(all: map<nat, Tx>, u: Tx, t: Tx) { InAll(all, u) && SamePlace(u, t) }

  /**
   A replacement takes the place of a pending transaction, anything else goes into the queue; a refusal changes nothing.
   */
  function Inserted(s: State, t: Tx, res: AddResult): State {
    match res
    case Replaced =>
      var list := PendingOf(s.pending, t.from);
      State(s.pending[t.from := Added(list, t)], s.queue, Reindexed(s.all, list.items, t))
    case Queued(_) =>
      var list := QueueOf(s.queue, t.from);
      State(s.pending, s.queue[t.from := Added(list, t)], Reindexed(s.all, list.items, t))
    case _ => s
  }

  /** The list that decides about a transaction: the pending one if that has its nonce, the queue otherwise. */
  function ListFor(s: State, t: Tx): List {
    if t.nonce in ItemsOf(s.pending, t.from) then PendingOf(s.pending, t.from) else QueueOf(s.queue, t.from)
  }

  /** What becomes of a transaction that there is room for. */
  function InsertVerdict(s: State, t: Tx, priceBump: nat): AddResult {
    if !Accepts(ListFor(s, t), t, priceBump) then ReplaceUnderpriced
    else if t.nonce in ItemsOf(s.pending, t.from) then Replaced
    else Queued(t.nonce in ItemsOf(s.queue, t.from))
  }

  /**
   The same in prices: a free nonce is queued; an ordinary transaction is replaced exactly if it is outbid, where it is,
   and a special one never.
   */
  ghost predicate DecidedByPrice(s: State, t: Tx, priceBump: nat, res: AddResult) {
    var pending := t.nonce in ItemsOf(s.pending, t.from);
    var m := if pending then ItemsOf(s.pending, t.from) else ItemsOf(s.queue, t.from);
    if t.nonce !in m then res == Queued(false)
    else if m[t.nonce].IsSpecial() || !Outbids(m[t.nonce].price, t.price, priceBump) then res == ReplaceUnderpriced
    else res == if pending then Replaced else Queued(true)
  }

  lemma VerdictByPrice(s: State, t: Tx, priceBump: nat)
    ensures DecidedByPrice(s, t, priceBump, InsertVerdict(s, t, priceBump))
  {
    PriceDecides(ListFor(s, t), t, priceBump);
  }

  /** The index gains the transaction and loses at most the one at its place. */
  lemma ReindexedOnlyAdds(s: State, m: Txs, t: Tx)
    requires Inv(s) && t.hash !in s.all && (m == ItemsOf(s.pending, t.from) || m == ItemsOf(s.queue, t.from))
    ensures OnlyAdds(s.all, Reindexed(s.all, m, t), t, {}) && InAll(Reindexed(s.all, m, t), t)
  {
    PlaceIsIndexed(s, t);
  }

  lemma ReplacedKeeps(s: State, t: Tx)
    requires Inv(s) && t.hash !in s.all && t.nonce in ItemsOf(s.pending, t.from)
    ensures Inv(Inserted(s, t, Replaced))
  {
    StoreChanges(s.pending, t.from, Added(PendingOf(s.pending, t.from), t));
    RependKeeps(s, t, Inserted(s, t, Replaced));
  }

  /** The end of TxPool.add: replace a pending transaction, or queue. */
  method Insert(s: State, t: Tx, priceBump: nat) returns (s': State, res: AddResult)
    requires Inv(s) && t.hash !in s.all
    ensures Inv(s') && OnlyAdds(s.all, s'.all, t, {}) && res.Ok() == InAll(s'.all, t)
    ensures res == InsertVerdict(s, t, priceBump) && s' == Inserted(s, t, res)
    ensures DecidedByPrice(s, t, priceBump, res)
  {
    VerdictByPrice(s, t, priceBump);
    var list := PendingOf(s.pending, t.from);
    s', res := s, ReplaceUnderpriced;
    if t.nonce in list.items {
      if Accepts(list, t, priceBump) {
        ReplacedKeeps(s, t);
        ReindexedOnlyAdds(s, list.items, t);
        s' := State(s.pending[t.from := Added(list, t)], s.queue, Reindexed(s.all, list.items, t));
        res := Replaced;
      }
    } else {
      var ok;
      ReindexedOnlyAdds(s, ItemsOf(s.queue, t.from), t);
      s', ok := Enqueue(s, t, priceBump, {});
      if ok { res := Queued(t.nonce in ItemsOf(s.queue, t.from)); }
    }
  }

  lemma InsertKeepsIntervals(s: State, nonces: map<Address, nat>, chain: ChainState, t: Tx, s': State, res: AddResult)
    requires s' == Inserted(s, t, res) && (res.Replaced? ==> t.nonce in ItemsOf(s.pending, t.from))
    ensures KeepsIntervals(s.pending, nonces, s'.pending, nonces, chain)
  {
    forall a ensures KeepsInterval(s.pending, nonces, s'.pending, nonces, chain, a) {
      assert ItemsOf(s'.pending, a).Keys == ItemsOf(s.pending, a).Keys;
    }
  }

  /** A special transaction with the pending nonce continues an interval, and is no duplicate then. */
  lemma SpecialKeepsIntervals(s: State, nonces: map<Address, nat>, chain: ChainState, t: Tx)
    requires t.nonce == NonceOf(nonces, chain, t.from)
    ensures Gapless(s.pending, nonces, chain, t.from) ==> !RejectsSpecial(s, t)
    ensures !RejectsSpecial(s, t) ==>
              KeepsIntervals(s.pending, nonces, SpecialPromoted(s, t).pending, nonces[t.from := t.nonce + 1], chain)
  {
    if !RejectsSpecial(s, t) {
      var pending', nonces' := SpecialPromoted(s, t).pending, nonces[t.from := t.nonce + 1];
      forall a ensures KeepsInterval(s.pending, nonces, pending', nonces', chain, a) {
        assert ItemsOf(pending', t.from) == ItemsOf(s.pending, t.from)[t.nonce := t];
      }
    }
  }

  /** A full pool drops what the priced list discards. */
  ghost predicate MakesRoom(s: State, nonces: map<Address, nat>, chain: ChainState, full: bool, drop: seq<nat>,
                            room: State, roomNonces: map<Address, nat>) {
    if full then RemovesEach(s, nonces, chain, drop, room, roomNonces) else room == s && roomNonces == nonces
  }

  /** Make room in a full pool, then insert. */
  method InsertInto(s: State, nonces: map<Address, nat>, chain: ChainState, t: Tx, full: bool, drop: seq<nat>,
                    priceBump: nat)
    returns (s': State, nonces': map<Address, nat>, res: AddResult, ghost room: State)
    requires Inv(s) && t.hash !in s.all
    ensures Inv(s') && OnlyAdds(s.all, s'.all, t, SetOf(drop)) && res.Ok() == InAll(s'.all, t)
    ensures MakesRoom(s, nonces, chain, full, drop, room, nonces')
    ensures res == InsertVerdict(room, t, priceBump) && s' == Inserted(room, t, res)
    ensures KeepsIntervals(s.pending, nonces, s'.pending, nonces', chain)
  {
    var s1 := s;
    nonces' := nonces;
    if full {
      s1, nonces' := RemoveEach(s, nonces, chain, drop, priceBump);
    }
    room := s1;
    s', res := Insert(s1, t, priceBump);
    InsertKeepsIntervals(s1, nonces', chain, t, s', res);
    KeepsTwice(s.pending, nonces, s1.pending, nonces', s'.pending, nonces', chain);
  }

  /** promoteSpecialTx on the pool's lists and nonces. */
  ghost predicate SpecialAdded(s: State, nonces: map<Address, nat>, t: Tx, s': State, nonces': map<Address, nat>,
                               res: AddResult)
  {
    && s' == SpecialPromoted(s, t) && OnlyAdds(s.all, s'.all, t, {})
    && res == (if RejectsSpecial(s, t) then DuplicateSpecial else Special)
    && (Inv(s') <==> res == DuplicateSpecial || t.nonce !in ItemsOf(s.queue, t.from))
    && nonces' == if res == DuplicateSpecial then nonces else nonces[t.from := t.nonce + 1]
  }

  method AddSpecial(s: State, nonces: map<Address, nat>, t: Tx, ghost chain: ChainState)
    returns (s': State, nonces': map<Address, nat>, res: AddResult)
    requires Inv(s) && t.hash !in s.all
    ensures SpecialAdded(s, nonces, t, s', nonces', res) && (res.Ok() <==> InAll(s'.all, t))
    ensures t.nonce == NonceOf(nonces, chain, t.from) ==> KeepsIntervals(s.pending, nonces, s'.pending, nonces', chain)
  {
    s', nonces', res := s, nonces, DuplicateSpecial;
    SpecialKeepsIff(s, t);
    PlaceIsIndexed(s, t);
    if !RejectsSpecial(s, t) { s', nonces', res := SpecialPromoted(s, t), nonces[t.from := t.nonce + 1], Special; }
    if t.nonce == NonceOf(nonces, chain, t.from) && !RejectsSpecial(s, t) {
      SpecialKeepsIntervals(s, nonces, chain, t);
    }
  }

  /**
   What others say about a transaction: validateTx, IsSigner, and the priced list, which also names what to discard.
   */
  datatype Ruling = Ruling(valid: bool, signer: bool, underpriced: bool, drop: seq<nat>)

  /** A signer's special transaction with the pending nonce goes straight to the pending list. */
  predicate TakenAsSpecial(nonces: map<Address, nat>, chain: ChainState, t: Tx, signer: bool) {
    t.IsSpecial() && signer && NonceOf(nonces, chain, t.from) == t.nonce
  }

  /** When TxPool.add accepts a transaction, and as what; `room` is the pool after it has made room. */
  function Verdict(s: State, nonces: map<Address, nat>, chain: ChainState, t: Tx, full: bool, ruling: Ruling,
                   priceBump: nat, room: State): AddResult {
    if t.hash in s.all then Known
    else if !ruling.valid then Invalid
    else if TakenAsSpecial(nonces, chain, t, ruling.signer) then
      if RejectsSpecial(s, t) then DuplicateSpecial else Special
    else if full && ruling.underpriced then Underpriced
    else InsertVerdict(room, t, priceBump)
  }

  /**
   What TxPool.add makes of lists, index and nonces: the result is the verdict, a transaction that is neither refused
   before nor special is inserted where there is room, and anything else changes nothing.
   */
  ghost predicate AddsTx(s: State, nonces: map<Address, nat>, chain: ChainState, t: Tx, full: bool, ruling: Ruling,
                         priceBump: nat, room: State, s': State, nonces': map<Address, nat>, res: AddResult)
  {
    && res == Verdict(s, nonces, chain, t, full, ruling, priceBump, room)
    && match res
       case Special => s' == SpecialPromoted(s, t) && nonces' == nonces[t.from := t.nonce + 1]
       case ReplaceUnderpriced => MakesRoom(s, nonces, chain, full, ruling.drop, room, nonces') && s' == room
       case Replaced => MakesRoom(s, nonces, chain, full, ruling.drop, room, nonces') && s' == Inserted(room, t, res)
       case Queued(_) => MakesRoom(s, nonces, chain, full, ruling.drop, room, nonces') && s' == Inserted(room, t, res)
       case _ => s' == s && nonces' == nonces
  }

  /**
   What follows for the pool: nothing enters but `t`, and it does exactly on success; lost are only the discarded ones
   and what had its place. The invariant is kept, unless a special transaction meets a queued one.
   */
  ghost predicate AddIsSafe(s: State, nonces: map<Address, nat>, chain: ChainState, t: Tx, drop: seq<nat>,
                            s': State, nonces': map<Address, nat>, res: AddResult) {
    && OnlyAdds(s.all, s'.all, t, SetOf(drop))
    && (t.hash !in s.all ==> (res.Ok() <==> InAll(s'.all, t)))
    && (Inv(s') <==> !(res.Special? && t.nonce in ItemsOf(s.queue, t.from)))
    && KeepsIntervals(s.pending, nonces, s'.pending, nonces', chain)
  }

  method AddTx(s: State, nonces: map<Address, nat>, chain: ChainState, t: Tx, full: bool, ruling: Ruling,
               priceBump: nat)
    returns (s': State, nonces': map<Address, nat>, res: AddResult, ghost room: State)
    requires Inv(s)
    ensures AddsTx(s, nonces, chain, t, full, ruling, priceBump, room, s', nonces', res)
    ensures AddIsSafe(s, nonces, chain, t, ruling.drop, s', nonces', res)
  {
    s', nonces', room := s, nonces, s;
    if t.hash in s.all { return s, nonces, Known, s; }
    if !ruling.valid { return s, nonces, Invalid, s; }
    if t.IsSpecial() && ruling.signer && NonceOf(nonces, chain, t.from) == t.nonce {
      s', nonces', res := AddSpecial(s, nonces, t, chain);
      return;
    }
    if full && ruling.underpriced { return s, nonces, Underpriced, s; }
    s', nonces', res, room := InsertInto(s, nonces, chain, t, full, ruling.drop, priceBump);
  }
}
