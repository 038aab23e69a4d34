/**
 Adding to the transaction pool with the price heap beside it (core/tx_pool.go, add and removeTx): what a full pool
 discards, what that makes of its size, and which events the heap sees.
 */
module PricedAdd {
  import opened Basics
  import opened TxMap
  import opened PoolState
  import opened PoolMoves
  import opened PoolAdd
  import P = PricedPool
  import PricedList

  type Heap = PricedList.PricedList

  // ---------- Removing ----------

  /** The pending transactions that removal of one of them moves back to the queue. */
  function Followers(s: State, t: Tx): Txs {
    if t.nonce in ItemsOf(s.pending, t.from) then From(ItemsOf(s.pending, t.from), t.nonce + 1) else map[]
  }

  lemma FollowersStay(s: State, t: Tx, u: Tx)
    requires Inv(s) && InAll(s.all, t) && u in Followers(s, t).Values
    ensures InAll(s.all - {t.hash}, u)
  {
    var m := ItemsOf(s.pending, t.from);
    var n: nat :| n in m && n > t.nonce && m[n] == u;
    assert FiledAt(s.pending, t.from) && InList(s.pending, u);
    assert InAll(s.all, u) && u != t;
  }

  /** What the heap sees of removeTx: the deletion, and an entry for everything that goes back to the queue. */
  ghost predicate Removal(s: State, hash: nat, es: seq<P.Event>) {
    if hash in s.all
    then exists order: seq<Tx> :: IsListing(order, Followers(s, s.all[hash])) && es == [P.Forget(hash)] + P.Puts(order)
    else es == []
  }

  ghost predicate IsListing(order: seq<Tx>, m: Txs) { |order| == |m| && forall t :: t in order <==> t in m.Values }

  method RemovePriced(p: Heap, s: State, nonces: map<Address, nat>, chain: ChainState, hash: nat, ghost b: P.Book,
                      ghost priceBump: nat)
    returns (s': State, nonces': map<Address, nat>, ghost b': P.Book, ghost es: seq<P.Event>)
    requires Inv(s) && P.Matches(b, p, s.all)
    modifies p
    ensures Inv(s') && RemovesHash(s, nonces, chain, hash, s', nonces') && s'.all == s.all - {hash}
    ensures KeepsIntervals(s.pending, nonces, s'.pending, nonces', chain)
    ensures P.Matches(b', p, s'.all) && P.Leads(b, es, b') && Removal(s, hash, es)
    ensures b'.unpriced <= b.unpriced && (hash in s.all ==> hash !in b'.unpriced)
  {
    s', nonces' := RemoveOne(s, nonces, chain, hash, priceBump);
    b', es := b, [];
    P.LeadsNowhere(b);
    if hash in s.all {
      var t := s.all[hash];
      assert InAll(s.all, t);
      var all, b1 := P.Forgetting(p, s.all, hash, b);
      var order := PricedList.PoolValues(Followers(s, t));
      forall u | u in order ensures InAll(all, u) { FollowersStay(s, t, u); }
      b' := P.EnterAgain(p, all, order, b1);
      P.LeadsOn(b, [P.Forget(hash)], b1, P.Puts(order), b');
      es := [P.Forget(hash)] + P.Puts(order);
      assert IsListing(order, Followers(s, t));
    }
  }

  function HashSeq(drop: seq<Tx>): seq<nat> { seq(|drop|, i requires 0 <= i < |drop| => drop[i].hash) }

  lemma HashSeqMeans(drop: seq<Tx>)
    ensures SetOf(HashSeq(drop)) == P.Hashes(drop)
  {
    forall h ensures h in SetOf(HashSeq(drop)) <==> h in P.Hashes(drop) {
      if h in P.Hashes(drop) {
        var i :| 0 <= i < |drop| && drop[i].hash == h;
        assert HashSeq(drop)[i] == h;
      }
    }
  }

  /** The first `i` of the transactions have been removed. */
  ghost predicate RemovedTo(s: State, nonces: map<Address, nat>, chain: ChainState, hashes: seq<nat>, i: nat, s': State,
                            nonces': map<Address, nat>)
    requires i <= |hashes|
  {
    && Inv(s') && s'.all == s.all - SetOf(hashes[..i]) && RemovesEach(s, nonces, chain, hashes[..i], s', nonces')
    && KeepsIntervals(s.pending, nonces, s'.pending, nonces', chain)
  }

  lemma RemovedToNext(s: State, nonces: map<Address, nat>, chain: ChainState, hashes: seq<nat>, i: nat, mid: State,
                      midNonces: map<Address, nat>, s': State, nonces': map<Address, nat>)
    requires i < |hashes| && RemovedTo(s, nonces, chain, hashes, i, mid, midNonces) && Inv(s')
    requires RemovesHash(mid, midNonces, chain, hashes[i], s', nonces') && s'.all == mid.all - {hashes[i]}
    requires KeepsIntervals(mid.pending, midNonces, s'.pending, nonces', chain)
    ensures RemovedTo(s, nonces, chain, hashes, i + 1, s', nonces')
  {
    RemovesNext(s, nonces, chain, hashes, i, mid, midNonces, s', nonces');
    KeepsTwice(s.pending, nonces, mid.pending, midNonces, s'.pending, nonces', chain);
    SetOfNext(hashes, i);
  }

  /** removeTx for what the heap has named; a name that comes twice is unknown the second time. */
  method RemoveEachPriced(p: Heap, s: State, nonces: map<Address, nat>, chain: ChainState, hashes: seq<nat>,
                          ghost b: P.Book, ghost priceBump: nat)
    returns (s': State, nonces': map<Address, nat>, ghost b': P.Book, ghost es: seq<P.Event>)
    requires Inv(s) && P.Matches(b, p, s.all) && forall h | h in hashes :: h in s.all
    modifies p
    ensures RemovedTo(s, nonces, chain, hashes, |hashes|, s', nonces')
    ensures P.Matches(b', p, s'.all) && P.Leads(b, es, b') && b'.unpriced <= b.unpriced - SetOf(hashes)
  {
    s', nonces', b', es := s, nonces, b, [];
    P.LeadsNowhere(b);
    for i := 0 to |hashes|
      invariant RemovedTo(s, nonces, chain, hashes, i, s', nonces')
      invariant P.Matches(b', p, s'.all) && P.Leads(b, es, b') && b'.unpriced <= b.unpriced - SetOf(hashes[..i])
    {
      ghost var mid, midNonces, b1, es1 := s', nonces', b', es;
      s', nonces', b', es := RemovePriced(p, s', nonces', chain, hashes[i], b1, priceBump);
      RemovedToNext(s, nonces, chain, hashes, i, mid, midNonces, s', nonces');
      P.LeadsOn(b, es1, b1, es, b');
      es := es1 + es;
      SetOfNext(hashes, i);
    }
    assert hashes[..|hashes|] == hashes;
  }

  // ---------- Making room ----------

  /** The cheapest remote transactions with an entry, as many as asked for or all there are. */
  ghost predicate Discards(b: P.Book, drop: seq<Tx>, count: nat, locals: set<Address>) {
    && |drop| <= count && P.Spared(b.all, b.unpriced, drop, count, locals)
    && forall t | t in drop :: t.hash in b.all && t.from !in locals
  }

  /** The named transactions are gone; that frees a place for each name, exactly if no name comes twice. */
  ghost predicate Roomier(s: State, nonces: map<Address, nat>, chain: ChainState, drop: seq<Tx>, s': State,
                          nonces': map<Address, nat>)
  {
    && Inv(s') && s'.all == s.all - P.Hashes(drop) && RemovesEach(s, nonces, chain, HashSeq(drop), s', nonces')
    && KeepsIntervals(s.pending, nonces, s'.pending, nonces', chain)
    && |s'.all| >= |s.all| - |drop| && (|s'.all| == |s.all| - |drop| <==> P.Distinct(drop))
  }

  lemma RoomMade(s: State, nonces: map<Address, nat>, chain: ChainState, drop: seq<Tx>, s': State,
                 nonces': map<Address, nat>)
    requires RemovedTo(s, nonces, chain, HashSeq(drop), |drop|, s', nonces') && forall t | t in drop :: t.hash in s.all
    ensures Roomier(s, nonces, chain, drop, s', nonces')
  {
    HashSeqMeans(drop);
    assert HashSeq(drop)[..|drop|] == HashSeq(drop);
    P.FreesEachIff(s.all, drop);
  }

  /** Discard and the removals after it. */
  method MakeRoom(p: Heap, s: State, nonces: map<Address, nat>, chain: ChainState, count: nat, locals: set<Address>,
                  ghost b: P.Book, ghost priceBump: nat)
    returns (s': State, nonces': map<Address, nat>, drop: seq<Tx>, ghost b': P.Book, ghost es: seq<P.Event>)
    requires Inv(s) && P.Matches(b, p, s.all) && P.Covered(b)
    modifies p
    ensures Roomier(s, nonces, chain, drop, s', nonces') && Discards(b, drop, count, locals)
    ensures P.Matches(b', p, s'.all) && P.Leads(b, es, b') && b'.unpriced <= b.unpriced
  {
    ghost var gone, b1;
    drop, gone, b1 := P.Discarding(p, s.all, count, locals, b);
    HashSeqMeans(drop);
    assert forall h | h in HashSeq(drop) :: h in SetOf(HashSeq(drop));
    s', nonces', b', es := RemoveEachPriced(p, s, nonces, chain, HashSeq(drop), b1, priceBump);
    P.LeadsOn(b, [P.Sweep(drop, gone)], b1, es, b');
    es := [P.Sweep(drop, gone)] + es;
    RoomMade(s, nonces, chain, drop, s', nonces');
  }

  // ---------- Entering ----------

  lemma ReindexedSize(all: map<nat, Tx>, m: Txs, t: Tx)
    requires t.hash !in all && Indexed(all, m, t)
    ensures |Reindexed(all, m, t)| == |all| + if t.nonce in m then 0 else 1
  {
    var rest := if t.nonce in m then all - {m[t.nonce].hash} else all;
    if t.nonce in m { P.WithoutCount(all, {m[t.nonce].hash}); }
    assert Reindexed(all, m, t).Keys == rest.Keys + {t.hash};
  }

  /** What the heap sees if the transaction takes a place in the list. */
  function Entry(m: Txs, t: Tx): seq<P.Event> {
    (if t.nonce in m then [P.Forget(m[t.nonce].hash)] else []) + [P.Put(t)]
  }

  method Enter(p: Heap, all: map<nat, Tx>, m: Txs, t: Tx, ghost b: P.Book) returns (ghost b': P.Book)
    requires P.Matches(b, p, all) && t.hash !in all && Indexed(all, m, t)
    modifies p
    ensures P.Matches(b', p, Reindexed(all, m, t)) && P.Leads(b, Entry(m, t), b') && b'.unpriced <= b.unpriced
  {
    var all', b1 := all, b;
    ghost var es := [];
    P.LeadsNowhere(b);
    if t.nonce in m {
      all', b1 := P.Forgetting(p, all, m[t.nonce].hash, b);
      es := [P.Forget(m[t.nonce].hash)];
    }
    all', b' := P.Entering(p, all', t, b1);
    P.LeadsOn(b, es, b1, [P.Put(t)], b');
  }

  /** One more transaction, unless it is refused or replaces another. */
  function Gain(s: State, t: Tx, res: AddResult): nat {
    if res == Queued(false) || (res.Special? && t.nonce !in ItemsOf(s.pending, t.from)) then 1 else 0
  }

  ghost predicate InsertedIn(s: State, t: Tx, priceBump: nat, s': State, res: AddResult) {
    && Inv(s') && OnlyAdds(s.all, s'.all, t, {}) && res.Ok() == InAll(s'.all, t)
    && res == InsertVerdict(s, t, priceBump) && s' == Inserted(s, t, res)
    && |s'.all| == |s.all| + Gain(s, t, res)
  }

  ghost predicate Indexed(all: map<nat, Tx>, m: Txs, t: Tx) { t.nonce in m ==> InAll(all, m[t.nonce]) }

  lemma PlaceIn(s: State, t: Tx)
    requires Inv(s)
    ensures Indexed(s.all, ListFor(s, t).items, t) && Indexed(s.all, PendingOf(s.pending, t.from).items, t)
  {
    PlaceIsIndexed(s, t);
  }

  lemma InsertGains(s: State, t: Tx, priceBump: nat, s': State, res: AddResult)
    requires Indexed(s.all, ListFor(s, t).items, t) && t.hash !in s.all
    requires res == InsertVerdict(s, t, priceBump) && s' == Inserted(s, t, res)
    ensures |s'.all| == |s.all| + Gain(s, t, res)
    ensures res.Ok() ==> s'.all == Reindexed(s.all, ListFor(s, t).items, t)
  {
    ReindexedSize(s.all, ListFor(s, t).items, t);
  }

  lemma SpecialGains(s: State, t: Tx)
    requires Indexed(s.all, PendingOf(s.pending, t.from).items, t) && t.hash !in s.all && !RejectsSpecial(s, t)
    ensures SpecialPromoted(s, t).all == Reindexed(s.all, PendingOf(s.pending, t.from).items, t)
    ensures |SpecialPromoted(s, t).all| == |s.all| + Gain(s, t, Special)
  {
    ReindexedSize(s.all, PendingOf(s.pending, t.from).items, t);
  }

  /** The end of add, with the heap. */
  method InsertPriced(p: Heap, s: State, t: Tx, priceBump: nat, ghost b: P.Book)
    returns (s': State, res: AddResult, ghost b': P.Book, ghost es: seq<P.Event>)
    requires Inv(s) && t.hash !in s.all && P.Matches(b, p, s.all)
    modifies p
    ensures InsertedIn(s, t, priceBump, s', res)
    ensures P.Matches(b', p, s'.all) && P.Leads(b, es, b') && b'.unpriced <= b.unpriced
    ensures es == if res.Ok() then Entry(ListFor(s, t).items, t) else []
  {
    s', res := Insert(s, t, priceBump);
    PlaceIn(s, t);
    InsertGains(s, t, priceBump, s', res);
    b', es := b, [];
    P.LeadsNowhere(b);
    if res.Ok() {
      var m := ListFor(s, t).items;
      b' := Enter(p, s.all, m, t, b);
      es := Entry(m, t);
    }
  }

  /** promoteSpecialTx tells the heap of the transaction that goes, but not of the one that comes. */
  function SpecialEntry(m: Txs, t: Tx): seq<P.Event> {
    (if t.nonce in m then [P.Forget(m[t.nonce].hash)] else []) + [P.Special(t)]
  }

  method EnterSpecial(p: Heap, all: map<nat, Tx>, m: Txs, t: Tx, ghost b: P.Book) returns (ghost b': P.Book)
    requires P.Matches(b, p, all) && t.hash !in all && Indexed(all, m, t)
    modifies p
    ensures P.Matches(b', p, Reindexed(all, m, t)) && P.Leads(b, SpecialEntry(m, t), b')
    ensures b'.unpriced <= b.unpriced + {t.hash}
  {
    ghost var b1, es := b, [];
    P.LeadsNowhere(b);
    if t.nonce in m {
      var all';
      all', b1 := P.Forgetting(p, all, m[t.nonce].hash, b);
      es := [P.Forget(m[t.nonce].hash)];
    }
    b' := b1.(all := b1.all[t.hash := t], unpriced := b1.unpriced + {t.hash});
    P.LeadsOnce(b1, P.Special(t), b');
    P.LeadsOn(b, es, b1, [P.Special(t)], b');
  }

  method SpecialPriced(p: Heap, s: State, nonces: map<Address, nat>, t: Tx, ghost chain: ChainState, ghost b: P.Book)
    returns (s': State, nonces': map<Address, nat>, res: AddResult, ghost b': P.Book, ghost es: seq<P.Event>)
    requires Inv(s) && t.hash !in s.all && P.Matches(b, p, s.all)
    modifies p
    ensures SpecialAdded(s, nonces, t, s', nonces', res) && (res.Ok() <==> InAll(s'.all, t))
    ensures t.nonce == NonceOf(nonces, chain, t.from) ==> KeepsIntervals(s.pending, nonces, s'.pending, nonces', chain)
    ensures |s'.all| == |s.all| + Gain(s, t, res)
    ensures P.Matches(b', p, s'.all) && P.Leads(b, es, b')
    ensures b'.unpriced <= b.unpriced + if res.Special? then {t.hash} else {}
    ensures es == if res.Special? then SpecialEntry(PendingOf(s.pending, t.from).items, t) else []
  {
    s', nonces', res := AddSpecial(s, nonces, t, chain);
    b', es := b, [];
    P.LeadsNowhere(b);
    if res.Special? {
      var m := PendingOf(s.pending, t.from).items;
      PlaceIn(s, t);
      SpecialGains(s, t);
      b' := EnterSpecial(p, s.all, m, t, b);
      es := SpecialEntry(m, t);
    }
  }

  // ---------- Adding ----------

  /** The transaction is new and valid and does not go straight to the pending list. */
  predicate Considered(s: State, nonces: map<Address, nat>, chain: ChainState, t: Tx, ruling: Ruling) {
    t.hash !in s.all && ruling.valid && !TakenAsSpecial(nonces, chain, t, ruling.signer)
  }

  /** What the heap says in a full pool: whether the transaction is too cheap, and if not, what goes for it. */
  ghost predicate Priced(b: P.Book, t: Tx, slots: nat, locals: set<Address>, ruling: Ruling, drop: seq<Tx>) {
    && (ruling.underpriced <==> P.TooCheap(b, t, locals)) && ruling.drop == HashSeq(drop)
    && (!ruling.underpriced ==> |b.all| >= slots && Discards(b, drop, |b.all| - slots + 1, locals))
  }

  /**
   The size of the pool before and after. Room is made for exactly one transaction if the heap names as many as asked
   for, and none twice; otherwise there is less.
   */
  ghost predicate Sized(s: State, t: Tx, slots: nat, full: bool, drop: seq<Tx>, room: State, s': State, res: AddResult)
  {
    && |s'.all| == |room.all| + Gain(room, t, res)
    && if full then slots - 1 <= |room.all|
                    && (|room.all| == slots - 1 <==> |drop| == |s.all| - slots + 1 && P.Distinct(drop))
       else room == s
  }

  /** What add returns beside the result: what the others said, what went, and the pool with room made. */
  datatype Trace = Trace(ruling: Ruling, drop: seq<Tx>, room: State)

  /** The heap is asked if the transaction is considered and the pool is full, and room is made unless it refuses. */
  ghost predicate AddedPriced(s: State, nonces: map<Address, nat>, chain: ChainState, t: Tx, slots: nat,
                              locals: set<Address>, b: P.Book, x: Trace, s': State, res: AddResult)
  {
    var asked := Considered(s, nonces, chain, t, x.ruling) && |s.all| >= slots;
    && (asked ==> Priced(b, t, slots, locals, x.ruling, x.drop))
    && Sized(s, t, slots, asked && !x.ruling.underpriced, x.drop, x.room, s', res)
  }

  /** Room is made if the pool is full, and the transaction inserted there. */
  ghost predicate AddedInto(s: State, nonces: map<Address, nat>, chain: ChainState, t: Tx, slots: nat,
                            locals: set<Address>, priceBump: nat, b: P.Book, drop: seq<Tx>, room: State, s': State,
                            nonces': map<Address, nat>, res: AddResult)
  {
    var full := |s.all| >= slots;
    && Inv(s') && OnlyAdds(s.all, s'.all, t, SetOf(HashSeq(drop))) && res.Ok() == InAll(s'.all, t)
    && MakesRoom(s, nonces, chain, full, HashSeq(drop), room, nonces')
    && res == InsertVerdict(room, t, priceBump) && s' == Inserted(room, t, res)
    && KeepsIntervals(s.pending, nonces, s'.pending, nonces', chain)
    && Sized(s, t, slots, full, drop, room, s', res)
    && (full ==> Discards(b, drop, |s.all| - slots + 1, locals))
  }

  lemma ConsideredAdded(s: State, nonces: map<Address, nat>, chain: ChainState, t: Tx, slots: nat,
                        locals: set<Address>, priceBump: nat, b: P.Book, b1: P.Book, x: Trace, s': State,
                        nonces': map<Address, nat>, res: AddResult)
    requires Considered(s, nonces, chain, t, x.ruling) && x.ruling.drop == HashSeq(x.drop) && !x.ruling.underpriced
    requires b.all == b1.all == s.all && b.unpriced == b1.unpriced && (|s.all| >= slots ==> !P.TooCheap(b, t, locals))
    requires AddedInto(s, nonces, chain, t, slots, locals, priceBump, b1, x.drop, x.room, s', nonces', res)
    ensures AddsTx(s, nonces, chain, t, |s.all| >= slots, x.ruling, priceBump, x.room, s', nonces', res)
    ensures AddIsSafe(s, nonces, chain, t, x.ruling.drop, s', nonces', res)
    ensures AddedPriced(s, nonces, chain, t, slots, locals, b, x, s', res)
  {
  }

  ghost predicate RoomFor(s: State, nonces: map<Address, nat>, chain: ChainState, slots: nat, locals: set<Address>,
                          b: P.Book, drop: seq<Tx>, room: State, nonces': map<Address, nat>)
  {
    if |s.all| >= slots
    then Roomier(s, nonces, chain, drop, room, nonces') && Discards(b, drop, |s.all| - slots + 1, locals)
    else drop == [] && room == s && nonces' == nonces
  }

  lemma OnlyAddsThere(all: map<nat, Tx>, drop: seq<Tx>, all': map<nat, Tx>, t: Tx)
    requires OnlyAdds(all - P.Hashes(drop), all', t, {})
    ensures OnlyAdds(all, all', t, SetOf(HashSeq(drop)))
  {
    HashSeqMeans(drop);
  }

  lemma SizedThere(s: State, nonces: map<Address, nat>, chain: ChainState, t: Tx, slots: nat, locals: set<Address>,
                   b: P.Book, drop: seq<Tx>, room: State, s': State, nonces': map<Address, nat>, res: AddResult)
    requires RoomFor(s, nonces, chain, slots, locals, b, drop, room, nonces')
    requires |s'.all| == |room.all| + Gain(room, t, res)
    ensures Sized(s, t, slots, |s.all| >= slots, drop, room, s', res)
  {
  }

  lemma KeptThere(s: State, nonces: map<Address, nat>, chain: ChainState, t: Tx, room: State, s': State,
                  nonces': map<Address, nat>, res: AddResult)
    requires KeepsIntervals(s.pending, nonces, room.pending, nonces', chain) && s' == Inserted(room, t, res)
    requires res.Replaced? ==> t.nonce in ItemsOf(room.pending, t.from)
    ensures KeepsIntervals(s.pending, nonces, s'.pending, nonces', chain)
  {
    InsertKeepsIntervals(room, nonces', chain, t, s', res);
    KeepsTwice(s.pending, nonces, room.pending, nonces', s'.pending, nonces', chain);
  }

  lemma InsertedThere(s: State, nonces: map<Address, nat>, chain: ChainState, t: Tx, slots: nat, locals: set<Address>,
                      priceBump: nat, b: P.Book, drop: seq<Tx>, room: State, s': State, nonces': map<Address, nat>,
                      res: AddResult)
    requires RoomFor(s, nonces, chain, slots, locals, b, drop, room, nonces')
    requires t.hash !in s.all && InsertedIn(room, t, priceBump, s', res)
    ensures AddedInto(s, nonces, chain, t, slots, locals, priceBump, b, drop, room, s', nonces', res)
  {
    assert KeepsIntervals(s.pending, nonces, room.pending, nonces', chain);
    KeptThere(s, nonces, chain, t, room, s', nonces', res);
    assert P.Hashes([]) == {};
    OnlyAddsThere(s.all, drop, s'.all, t);
    SizedThere(s, nonces, chain, t, slots, locals, b, drop, room, s', nonces', res);
  }

  /** add for a considered transaction, in a pool with or without room. */
  method AddInto(p: Heap, s: State, nonces: map<Address, nat>, chain: ChainState, t: Tx, slots: nat,
                 locals: set<Address>, priceBump: nat, ghost b: P.Book)
    returns (s': State, nonces': map<Address, nat>, res: AddResult, drop: seq<Tx>, ghost room: State, ghost b': P.Book,
             ghost es: seq<P.Event>)
    requires Inv(s) && t.hash !in s.all && P.Matches(b, p, s.all) && P.Covered(b)
    modifies p
    ensures AddedInto(s, nonces, chain, t, slots, locals, priceBump, b, drop, room, s', nonces', res)
    ensures P.Matches(b', p, s'.all) && P.Leads(b, es, b') && b'.unpriced <= b.unpriced
  {
    var s1 := s;
    nonces', drop := nonces, [];
    ghost var b1, es1 := b, [];
    P.LeadsNowhere(b);
    if |s.all| >= slots {
      s1, nonces', drop, b1, es1 := MakeRoom(p, s, nonces, chain, |s.all| - slots + 1, locals, b, priceBump);
    }
    assert RoomFor(s, nonces, chain, slots, locals, b, drop, s1, nonces');
    room := s1;
    s', res, b', es := InsertPriced(p, s1, t, priceBump, b1);
    P.LeadsOn(b, es1, b1, es, b');
    es := es1 + es;
    InsertedThere(s, nonces, chain, t, slots, locals, priceBump, b, drop, room, s', nonces', res);
  }

  /** The part of add that asks the heap. */
  method AddConsidered(p: Heap, s: State, nonces: map<Address, nat>, chain: ChainState, t: Tx, slots: nat,
                       locals: set<Address>, priceBump: nat, ghost b: P.Book, ghost given: Ruling)
    returns (s': State, nonces': map<Address, nat>, res: AddResult, ghost x: Trace, ghost b': P.Book,
             ghost es: seq<P.Event>)
    requires Inv(s) && P.Matches(b, p, s.all) && P.Covered(b) && Considered(s, nonces, chain, t, given)
    modifies p
    ensures x.ruling == given.(underpriced := x.ruling.underpriced, drop := x.ruling.drop)
    ensures AddsTx(s, nonces, chain, t, |s.all| >= slots, x.ruling, priceBump, x.room, s', nonces', res)
    ensures AddIsSafe(s, nonces, chain, t, x.ruling.drop, s', nonces', res)
    ensures AddedPriced(s, nonces, chain, t, slots, locals, b, x, s', res)
    ensures P.Matches(b', p, s'.all) && P.Leads(b, es, b') && b'.unpriced <= b.unpriced
  {
    ghost var b1, es1 := b, [];
    P.LeadsNowhere(b);
    if |s.all| >= slots {
      var cheap;
      ghost var gone;
      cheap, gone, b1 := P.Comparing(p, s.all, t, locals, b);
      es1 := [P.Sweep([], gone)];
      if cheap {
        x := Trace(given.(underpriced := true, drop := []), [], s);
        return s, nonces, Underpriced, x, b1, es1;
      }
      P.LeadsCovers(b, es1, b1);
    }
    var dropped;
    ghost var room;
    s', nonces', res, dropped, room, b', es := AddInto(p, s, nonces, chain, t, slots, locals, priceBump, b1);
    x := Trace(given.(underpriced := false, drop := HashSeq(dropped)), dropped, room);
    ConsideredAdded(s, nonces, chain, t, slots, locals, priceBump, b, b1, x, s', nonces', res);
    P.LeadsOn(b, es1, b1, es, b');
    es := es1 + es;
  }

  /** All of add: what it does, what is safe, what the heap says and how large the pool is then. */
  ghost predicate Adds(from: Stage, chain: ChainState, t: Tx, slots: nat, locals: set<Address>, priceBump: nat,
                       b: P.Book, x: Trace, to: Stage, res: AddResult)
  {
    && AddsTx(from.s, from.nonces, chain, t, |from.s.all| >= slots, x.ruling, priceBump, x.room, to.s, to.nonces, res)
    && AddIsSafe(from.s, from.nonces, chain, t, x.ruling.drop, to.s, to.nonces, res)
    && AddedPriced(from.s, from.nonces, chain, t, slots, locals, b, x, to.s, res)
    && Answers(from, chain, t, x.ruling.valid, x.ruling.signer, slots, locals, priceBump, b, x.room, res)
  }

  /** What add answers, case by case, in hashes, nonces and prices. */
  ghost predicate Answers(from: Stage, chain: ChainState, t: Tx, valid: bool, signer: bool, slots: nat,
                          locals: set<Address>, priceBump: nat, b: P.Book, room: State, res: AddResult)
  {
    var m := ItemsOf(from.s.pending, t.from);
    if t.hash in from.s.all then res == Known
    else if !valid then res == Invalid
    else if t.IsSpecial() && signer && t.nonce == NonceOf(from.nonces, chain, t.from) then
      res == if t.nonce in m && m[t.nonce].IsSpecial() then DuplicateSpecial else Special
    else if |from.s.all| >= slots && P.TooCheap(b, t, locals) then res == Underpriced
    else DecidedByPrice(room, t, priceBump, res)
  }

  /** The heap goes through the events and covers the pool as before, but for a special transaction. */
  ghost predicate HeapFollows(b: P.Book, es: seq<P.Event>, b': P.Book, t: Tx, res: AddResult) {
    && P.Leads(b, es, b') && P.Covered(b')
    && b'.unpriced <= b.unpriced + if res.Special? then {t.hash} else {}
  }

  lemma SpecialAdds(from: Stage, chain: ChainState, t: Tx, signer: bool, slots: nat, locals: set<Address>,
                    priceBump: nat, b: P.Book, to: Stage, res: AddResult)
    requires t.hash !in from.s.all && TakenAsSpecial(from.nonces, chain, t, signer)
    requires SpecialAdded(from.s, from.nonces, t, to.s, to.nonces, res) && (res.Ok() <==> InAll(to.s.all, t))
    requires KeepsIntervals(from.s.pending, from.nonces, to.s.pending, to.nonces, chain)
    requires |to.s.all| == |from.s.all| + Gain(from.s, t, res)
    ensures Adds(from, chain, t, slots, locals, priceBump, b, Trace(Ruling(true, signer, false, []), [], from.s), to,
                 res)
  {
  }

  lemma RefusedAdds(from: Stage, chain: ChainState, t: Tx, valid: bool, signer: bool, slots: nat, locals: set<Address>,
                    priceBump: nat, b: P.Book, res: AddResult)
    requires Inv(from.s) && if t.hash in from.s.all then res == Known else !valid && res == Invalid
    ensures Adds(from, chain, t, slots, locals, priceBump, b, Trace(Ruling(valid, signer, false, []), [], from.s), from,
                 res)
  {
  }

  /** add, with validateTx and IsSigner as given and the heap as it is. */
  method AddPriced(p: Heap, from: Stage, chain: ChainState, t: Tx, valid: bool, signer: bool, slots: nat,
                   locals: set<Address>, priceBump: nat, ghost b: P.Book)
    returns (to: Stage, res: AddResult, ghost x: Trace, ghost b': P.Book, ghost es: seq<P.Event>)
    requires Inv(from.s) && P.Matches(b, p, from.s.all) && P.Covered(b)
    modifies p
    ensures x.ruling.valid == valid && x.ruling.signer == signer
    ensures Adds(from, chain, t, slots, locals, priceBump, b, x, to, res)
    ensures P.Matches(b', p, to.s.all) && HeapFollows(b, es, b', t, res)
  {
    var s', nonces';
    to, b', es := from, b, [];
    x := Trace(Ruling(valid, signer, false, []), [], from.s);
    P.LeadsNowhere(b);
    if t.hash in from.s.all || !valid {
      res := if t.hash in from.s.all then Known else Invalid;
      RefusedAdds(from, chain, t, valid, signer, slots, locals, priceBump, b, res);
    } else if t.IsSpecial() && signer && NonceOf(from.nonces, chain, t.from) == t.nonce {
      s', nonces', res, b', es := SpecialPriced(p, from.s, from.nonces, t, chain, b);
      to := Stage(s', nonces');
      SpecialAdds(from, chain, t, signer, slots, locals, priceBump, b, to, res);
    } else {
      s', nonces', res, x, b', es := AddConsidered(p, from.s, from.nonces, chain, t, slots, locals, priceBump, b,
                                                   Ruling(valid, signer, false, []));
      to := Stage(s', nonces');
      VerdictByPrice(x.room, t, priceBump);
    }
    P.LeadsCovers(b, es, b');
  }
}
