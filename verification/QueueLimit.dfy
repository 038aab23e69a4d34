/**
 The limit that TxPool.promoteExecutables puts on the whole queue (core/tx_pool.go): when too many transactions are
 queued, the remote accounts with the latest heartbeat lose theirs first, the highest nonces before the lower ones.
 */
module QueueLimit {
  import opened Basics
  import opened TxMap
  import opened TxList
  import opened PoolState
  import Eviction

  function AsAccounts(queue: Lists): Eviction.Accounts { map a | a in queue :: Eviction.Account(queue[a].items, 0) }

  /** The number of queued transactions. */
  function Queued(queue: Lists): nat { Eviction.Count(AsAccounts(queue)) }

  lemma QueuedTake(queue: Lists, a: Address)
    ensures Queued(queue) == |ItemsOf(queue, a)| + Queued(queue - {a})
  {
    if a in queue {
      Eviction.CountTake(AsAccounts(queue), a);
      assert AsAccounts(queue) - {a} == AsAccounts(queue - {a});
    } else {
      assert queue - {a} == queue;
    }
  }

  lemma QueuedChanges(queue: Lists, queue': Lists, a: Address, m: Txs)
    requires Changed(queue, queue', a, m)
    ensures Queued(queue') == Queued(queue) - |ItemsOf(queue, a)| + |m|
  {
    QueuedTake(queue, a);
    QueuedTake(queue', a);
    assert ItemsOf(queue', a) == m;
  }

  /** The index loses nothing but transactions of remote accounts. */
  ghost predicate Loses(all: map<nat, Tx>, all': map<nat, Tx>, locals: set<Address>) {
    && (forall h | h in all' :: h in all && all'[h] == all[h])
    && (forall h {:trigger h in all'} | h in all && h !in all' :: all[h].from !in locals)
  }

  /** What is left is what has the lowest nonces. */
  ghost predicate IsBelow(m: Txs, left: Txs) { exists cut: nat :: left == Below(m, cut) }

  lemma AllIsBelow(m: Txs)
    ensures IsBelow(m, m) && IsBelow(m, map[])
  {
    assert map[] == Below(m, 0);
    if m.Keys != {} {
      Eviction.HighestExists(m);
      var n: nat :| Eviction.IsHighest(n, m);
      assert m == Below(m, n + 1);
    } else {
      assert m == Below(m, 0);
    }
  }

  lemma BelowWithout(m: Txs, left: Txs, n: nat)
    requires IsBelow(m, left) && Eviction.IsHighest(n, left)
    ensures IsBelow(m, left - {n}) && |left - {n}| == |left| - 1
  {
    assert left - {n} == Below(m, n);
    assert left.Keys == (left - {n}).Keys + {n};
  }

  // ---------- One account ----------

  /** removeTx on a queued transaction. */
  method RemoveAt(s: State, a: Address, n: nat, ghost locals: set<Address>) returns (s': State)
    requires Inv(s) && n in ItemsOf(s.queue, a) && a !in locals
    ensures Inv(s') && s'.pending == s.pending && Changed(s.queue, s'.queue, a, ItemsOf(s.queue, a) - {n})
    ensures Loses(s.all, s'.all, locals)
  {
    var t := s.queue[a].items[n];
    assert FiledAt(s.queue, a) && Apart(s, a);
    assert Member(s, {}, t);
    assert InAll(s.all, t);
    var wasPending;
    s', wasPending := Remove(s, t.hash, 0);
  }

  /** One account's queue has been cut to `left`. */
  ghost predicate Cut(s: State, s': State, a: Address, left: Txs, locals: set<Address>) {
    && Inv(s') && s'.pending == s.pending && Changed(s.queue, s'.queue, a, left) && ItemsOf(s'.queue, a) == left
    && Loses(s.all, s'.all, locals)
  }

  lemma NothingCut(s: State, a: Address, locals: set<Address>)
    requires Inv(s)
    ensures Cut(s, s, a, ItemsOf(s.queue, a), locals)
  {
  }

  lemma CutTwice(s: State, s1: State, s2: State, a: Address, left1: Txs, left2: Txs, locals: set<Address>)
    requires Cut(s, s1, a, left1, locals) && Inv(s2) && s2.pending == s1.pending
             && Changed(s1.queue, s2.queue, a, left2)
    requires Loses(s1.all, s2.all, locals)
    ensures Cut(s, s2, a, left2, locals)
  {
  }

  /** Drop all of an account's queue, lowest nonce first. */
  method DropAll(s: State, a: Address, ghost locals: set<Address>) returns (s': State)
    requires Inv(s) && a !in locals
    ensures Cut(s, s', a, map[], locals)
  {
    s' := s;
    NothingCut(s, a, locals);
    while ItemsOf(s'.queue, a).Keys != {}
      invariant Cut(s, s', a, ItemsOf(s'.queue, a), locals)
      decreases |ItemsOf(s'.queue, a)|
    {
      var n := Lowest(ItemsOf(s'.queue, a));
      ghost var before := s';
      s' := RemoveAt(s', a, n, locals);
      CutTwice(s, before, s', a, ItemsOf(before.queue, a), ItemsOf(before.queue, a) - {n}, locals);
      Shorter(ItemsOf(before.queue, a), n);
    }
  }

  method Highest(m: Txs) returns (n: nat)
    requires m.Keys != {}
    ensures Eviction.IsHighest(n, m)
  {
    n :| n in m.Keys;
    var rest := m.Keys - {n};
    while rest != {}
      invariant n in m && rest <= m.Keys && forall k | k in m && k !in rest :: k <= n
    {
      var k :| k in rest;
      if k > n { n := k; }
      rest := rest - {k};
    }
  }

  /** Drop the `k` highest nonces of an account's queue. */
  method DropHighest(s: State, a: Address, k: nat, ghost locals: set<Address>) returns (s': State, ghost left: Txs)
    requires Inv(s) && a !in locals && k <= |ItemsOf(s.queue, a)|
    ensures Cut(s, s', a, left, locals) && IsBelow(ItemsOf(s.queue, a), left) && |left| == |ItemsOf(s.queue, a)| - k
  {
    s', left := s, ItemsOf(s.queue, a);
    NothingCut(s, a, locals);
    AllIsBelow(left);
    for i := 0 to k
      invariant Cut(s, s', a, left, locals) && IsBelow(ItemsOf(s.queue, a), left) && |left| == |ItemsOf(s.queue, a)| - i
    {
      var n := Highest(ItemsOf(s'.queue, a));
      ghost var before := s';
      s' := RemoveAt(s', a, n, locals);
      CutTwice(s, before, s', a, left, left - {n}, locals);
      BelowWithout(ItemsOf(s.queue, a), left, n);
      left := left - {n};
    }
  }

  /** The body of the loop that drops queued transactions: all of an account's, or as many as are still to go. */
  method DropFrom(s: State, a: Address, drop: nat, ghost locals: set<Address>)
    returns (s': State, drop': nat, ghost left: Txs)
    requires Inv(s) && a !in locals
    ensures Cut(s, s', a, left, locals) && IsBelow(ItemsOf(s.queue, a), left)
    ensures drop' <= drop && Queued(s'.queue) == Queued(s.queue) - (drop - drop') && (drop' > 0 ==> left == map[])
  {
    var size := |ItemsOf(s.queue, a)|;
    if size <= drop {
      s' := DropAll(s, a, locals);
      drop', left := drop - size, map[];
      AllIsBelow(ItemsOf(s.queue, a));
    } else {
      s', left := DropHighest(s, a, drop, locals);
      drop' := 0;
    }
    QueuedChanges(s.queue, s'.queue, a, left);
  }

  // ---------- All accounts ----------

  function Beat(beats: map<Address, nat>, a: Address): nat { if a in beats then beats[a] else 0 }

  /** The remote accounts with a queue, by heartbeat: each once, no earlier beat after a later one. */
  ghost predicate ByBeat(order: seq<Address>, accounts: set<Address>, beats: map<Address, nat>) {
    && Distinct(order) && (forall a :: a in order <==> a in accounts)
    && (forall i, j | 0 <= i < j < |order| :: Beat(beats, order[i]) <= Beat(beats, order[j]))
  }

  method Earliest(accounts: set<Address>, beats: map<Address, nat>) returns (a: Address)
    requires accounts != {}
    ensures a in accounts && forall b | b in accounts :: Beat(beats, a) <= Beat(beats, b)
  {
    a :| a in accounts;
    var rest := accounts - {a};
    while rest != {}
      invariant a in accounts && rest <= accounts && forall b | b in accounts && b !in rest ::
                  Beat(beats, a) <= Beat(beats, b)
    {
      var b :| b in rest;
      if Beat(beats, b) < Beat(beats, a) { a := b; }
      rest := rest - {b};
    }
  }

  method SortByBeat(accounts: set<Address>, beats: map<Address, nat>) returns (order: seq<Address>)
    ensures ByBeat(order, accounts, beats)
  {
    order := [];
    var rest := accounts;
    while rest != {}
      invariant rest <= accounts && ByBeat(order, accounts - rest, beats)
      invariant forall i, b | 0 <= i < |order| && b in rest :: Beat(beats, order[i]) <= Beat(beats, b)
      decreases |rest|
    {
      var a := Earliest(rest, beats);
      order := order + [a];
      rest := rest - {a};
    }
  }

  ghost predicate SameQueue(queue: Lists, queue': Lists, a: Address) { ItemsOf(queue', a) == ItemsOf(queue, a) }

  ghost predicate LowestStay(queue: Lists, queue': Lists, a: Address) { IsBelow(ItemsOf(queue, a), ItemsOf(queue', a)) }

  /**
   The accounts from the `i`-th on have been dealt with: all but the `i`-th are empty, and that one too if more must go.
   */
  ghost predicate Down(queue: Lists, queue': Lists, order: seq<Address>, i: nat, drop: nat)
    requires i <= |order|
  {
    && (forall a {:trigger LowestStay(queue, queue', a)} :: LowestStay(queue, queue', a))
    && (forall a {:trigger SameQueue(queue, queue', a)} | a !in order[i..] :: SameQueue(queue, queue', a))
    && (forall j | i < j < |order| :: ItemsOf(queue', order[j]) == map[])
    && (i < |order| && drop > 0 ==> ItemsOf(queue', order[i]) == map[])
  }

  lemma DownStep(queue: Lists, queue1: Lists, queue2: Lists, order: seq<Address>, i: nat, left: Txs, drop1: nat,
                 drop2: nat)
    requires i < |order| && Distinct(order) && Down(queue, queue1, order, i + 1, drop1) && drop1 > 0
    requires Changed(queue1, queue2, order[i], left) && IsBelow(ItemsOf(queue1, order[i]), left)
             && (drop2 > 0 ==> left == map[])
    ensures Down(queue, queue2, order, i, drop2)
  {
    assert order[i..] == [order[i]] + order[i + 1..];
    assert order[i] !in order[i + 1..];
    assert SameQueue(queue, queue1, order[i]);
    forall a ensures LowestStay(queue, queue2, a) {
      if a != order[i] {
        assert LowestStay(queue, queue1, a);
        assert ItemsOf(queue2, a) == ItemsOf(queue1, a);
      } else {
        assert ItemsOf(queue2, a) == left;
      }
    }
    forall a | a !in order[i..] ensures SameQueue(queue, queue2, a) {
      assert SameQueue(queue, queue1, a);
      assert ItemsOf(queue2, a) == ItemsOf(queue1, a);
    }
    forall j | i < j < |order| ensures ItemsOf(queue2, order[j]) == map[] {
      assert ItemsOf(queue2, order[j]) == ItemsOf(queue1, order[j]);
    }
    assert ItemsOf(queue2, order[i]) == left;
  }

  /** Of two remote accounts, the one with the earlier beat keeps everything unless the other has lost everything. */
  ghost predicate Fairly(queue: Lists, queue': Lists, locals: set<Address>, beats: map<Address, nat>) {
    forall a, b {:trigger Beat(beats, a), Beat(beats, b)} | a !in locals && b !in locals
      && Beat(beats, a) < Beat(beats, b) ::
      SameQueue(queue, queue', a) || ItemsOf(queue', b) == map[]
  }

  lemma DownIsFair(queue: Lists, queue': Lists, order: seq<Address>, i: nat, drop: nat, locals: set<Address>,
                   beats: map<Address, nat>)
    requires i <= |order| && Down(queue, queue', order, i, drop) && ByBeat(order, queue.Keys - locals, beats)
    ensures Fairly(queue, queue', locals, beats)
  {
    forall a, b | a !in locals && b !in locals && Beat(beats, a) < Beat(beats, b)
      ensures SameQueue(queue, queue', a) || ItemsOf(queue', b) == map[]
    {
      if a in order[i..] {
        if b in order {
          var ia :| i <= ia < |order| && order[ia] == a;
          var ib :| 0 <= ib < |order| && order[ib] == b;
          assert ia < ib;
        } else {
          assert b !in order[i..];
          assert SameQueue(queue, queue', b);
        }
      } else {
        assert SameQueue(queue, queue', a);
      }
    }
  }

  /** What the limit makes of the queue. */
  ghost predicate Limited(queue: Lists, queue': Lists, locals: set<Address>, beats: map<Address, nat>, globalQueue: nat)
  {
    && (Queued(queue) <= globalQueue ==> queue' == queue)
    && (Queued(queue) > globalQueue ==> Queued(queue') >= globalQueue)
    && (Queued(queue') <= globalQueue || forall a | a !in locals :: ItemsOf(queue', a) == map[])
    && (forall a {:trigger LowestStay(queue, queue', a)} :: LowestStay(queue, queue', a))
    && (forall a {:trigger SameQueue(queue, queue', a)} | a in locals :: SameQueue(queue, queue', a))
    && Fairly(queue, queue', locals, beats)
  }

  lemma LimitedAtEnd(queue: Lists, queue': Lists, order: seq<Address>, i: nat, drop: nat, locals: set<Address>,
                     beats: map<Address, nat>, globalQueue: nat)
    requires i <= |order| && Down(queue, queue', order, i, drop) && ByBeat(order, queue.Keys - locals, beats)
    requires Queued(queue) > globalQueue && Queued(queue') == globalQueue + drop && (drop == 0 || i == 0)
    ensures Limited(queue, queue', locals, beats, globalQueue)
  {
    DownIsFair(queue, queue', order, i, drop, locals, beats);
    forall a | a !in locals && drop > 0 ensures ItemsOf(queue', a) == map[] {
      if a in order {
        var j :| 0 <= j < |order| && order[j] == a;
      } else {
        assert a !in order[i..];
        assert SameQueue(queue, queue', a);
      }
    }
    forall a | a in locals ensures SameQueue(queue, queue', a) { assert a !in order[i..]; }
  }

  lemma NothingDown(queue: Lists, order: seq<Address>, drop: nat)
    ensures Down(queue, queue, order, |order|, drop)
  {
    forall a ensures LowestStay(queue, queue, a) { AllIsBelow(ItemsOf(queue, a)); }
  }

  lemma NotLimited(queue: Lists, locals: set<Address>, beats: map<Address, nat>, globalQueue: nat)
    requires Queued(queue) <= globalQueue
    ensures Limited(queue, queue, locals, beats, globalQueue)
  {
    forall a ensures LowestStay(queue, queue, a) { AllIsBelow(ItemsOf(queue, a)); }
    forall a, b | a !in locals && b !in locals && Beat(beats, a) < Beat(beats, b) ensures SameQueue(queue, queue, a) {}
  }

  /**
   The last part of promoteExecutables. Afterwards the queue fits, or only local accounts are left in it; never more
   is dropped than needed, and never anything of a local account.
   */
  method LimitQueue(s: State, locals: set<Address>, beats: map<Address, nat>, globalQueue: nat) returns (s': State)
    requires Inv(s)
    ensures Inv(s') && s'.pending == s.pending && Loses(s.all, s'.all, locals)
    ensures Limited(s.queue, s'.queue, locals, beats, globalQueue)
  {
    s' := s;
    var queued := Eviction.CountPending(AsAccounts(s.queue));
    if queued <= globalQueue {
      NotLimited(s.queue, locals, beats, globalQueue);
      return;
    }
    var order := SortByBeat(s.queue.Keys - locals, beats);
    var drop: nat, i: nat := queued - globalQueue, |order|;
    NothingDown(s.queue, order, drop);
    while drop > 0 && i > 0
      invariant i <= |order| && Inv(s') && s'.pending == s.pending && Loses(s.all, s'.all, locals)
      invariant Queued(s'.queue) == globalQueue + drop && Down(s.queue, s'.queue, order, i, drop)
      decreases i
    {
      ghost var before, drop0 := s', drop;
      ghost var left;
      i := i - 1;
      assert order[i] in order;
      s', drop, left := DropFrom(s', order[i], drop, locals);
      DownStep(s.queue, before.queue, s'.queue, order, i, left, drop0, drop);
    }
    LimitedAtEnd(s.queue, s'.queue, order, i, drop, locals, beats, globalQueue);
  }

  // ---------- Who should lose first ----------

  function Places(queue: Lists): set<(Address, nat)> { Eviction.Pairs(AsAccounts(queue)) }

  function LocalPlaces(queue: Lists, locals: set<Address>): set<(Address, nat)>
  {
    set p | p in Places(queue) && p.0 in locals
  }

  /** The number of queued transactions of local accounts. */
  function LocalQueued(queue: Lists, locals: set<Address>): nat { |LocalPlaces(queue, locals)| }

  lemma PlaceMeans(queue: Lists, a: Address, n: nat)
    ensures (a, n) in Places(queue) <==> n in ItemsOf(queue, a)
  {
  }

  lemma SubsetSmaller(x: set<(Address, nat)>, y: set<(Address, nat)>)
    requires x <= y
    ensures |x| <= |y| && (|x| == |y| ==> x == y)
  {
    assert y == x + (y - x);
    assert |y| == |x| + |y - x|;
  }

  /** A remote transaction is left exactly if more are queued than the local ones. */
  lemma RemoteLeft(queue: Lists, locals: set<Address>)
    ensures LocalQueued(queue, locals) <= Queued(queue)
    ensures LocalQueued(queue, locals) < Queued(queue) <==> exists a :: a !in locals && ItemsOf(queue, a) != map[]
  {
    var x, y := LocalPlaces(queue, locals), Places(queue);
    SubsetSmaller(x, y);
    if a :| a !in locals && ItemsOf(queue, a) != map[] {
      assert ItemsOf(queue, a).Keys != {};
      var n :| n in ItemsOf(queue, a).Keys;
      PlaceMeans(queue, a, n);
      assert (a, n) in y && (a, n) !in x;
    } else {
      forall p | p in y ensures p in x {
        PlaceMeans(queue, p.0, p.1);
        assert ItemsOf(queue, p.0) != map[];
      }
      assert x == y;
    }
  }

  lemma SamePlaces(queue: Lists, queue': Lists, locals: set<Address>)
    requires forall a {:trigger SameQueue(queue, queue', a)} | a in locals :: SameQueue(queue, queue', a)
    ensures LocalQueued(queue', locals) == LocalQueued(queue, locals)
  {
    forall p ensures p in LocalPlaces(queue', locals) <==> p in LocalPlaces(queue, locals) {
      PlaceMeans(queue, p.0, p.1);
      PlaceMeans(queue', p.0, p.1);
      if p.0 in locals { assert SameQueue(queue, queue', p.0); }
    }
    assert LocalPlaces(queue', locals) == LocalPlaces(queue, locals);
  }

  lemma SomeoneLost(queue: Lists, queue': Lists)
    ensures Queued(queue') == Queued(queue) || exists a :: !SameQueue(queue, queue', a)
  {
    if forall b :: SameQueue(queue, queue', b) {
      forall p ensures p in Places(queue') <==> p in Places(queue) {
        PlaceMeans(queue, p.0, p.1);
        PlaceMeans(queue', p.0, p.1);
        assert SameQueue(queue, queue', p.0);
      }
      assert Places(queue') == Places(queue);
    }
  }

  /**
   What the comment in the source promises: of two remote accounts, the one
   with the later beat keeps everything unless the other has lost everything.
   */
  ghost predicate OldestFirst(queue: Lists, queue': Lists, locals: set<Address>, beats: map<Address, nat>) {
    forall a, b {:trigger Beat(beats, a), Beat(beats, b)} | a !in locals && b !in locals
      && Beat(beats, b) < Beat(beats, a) ::
      SameQueue(queue, queue', a) || ItemsOf(queue', b) == map[]
  }

  /** All remote accounts with queued transactions have the same heartbeat. */
  ghost predicate OneBeat(queue: Lists, locals: set<Address>, beats: map<Address, nat>) {
    forall a, b {:trigger Beat(beats, a), Beat(beats, b)} |
      a !in locals && b !in locals && ItemsOf(queue, a) != map[] && ItemsOf(queue, b) != map[] ::
        Beat(beats, a) == Beat(beats, b)
  }

  lemma EmptyStays(queue: Lists, queue': Lists, a: Address)
    requires LowestStay(queue, queue', a) && ItemsOf(queue, a) == map[]
    ensures ItemsOf(queue', a) == map[]
  {
  }

  lemma OldestFirstIf(queue: Lists, queue': Lists, locals: set<Address>, beats: map<Address, nat>, globalQueue: nat)
    requires Limited(queue, queue', locals, beats, globalQueue)
    requires Queued(queue) <= globalQueue || LocalQueued(queue, locals) >= globalQueue || OneBeat(queue, locals, beats)
    ensures OldestFirst(queue, queue', locals, beats)
  {
    SamePlaces(queue, queue', locals);
    RemoteLeft(queue', locals);
    forall a, b | a !in locals && b !in locals && Beat(beats, b) < Beat(beats, a)
      ensures SameQueue(queue, queue', a) || ItemsOf(queue', b) == map[]
    {
      assert LowestStay(queue, queue', a) && LowestStay(queue, queue', b);
      if ItemsOf(queue, a) == map[] { EmptyStays(queue, queue', a); }
      if ItemsOf(queue, b) == map[] { EmptyStays(queue, queue', b); }
    }
  }

  /** Somebody lost and somebody later or earlier kept: with two beats in play, the order is the wrong way round. */
  lemma WrongWayRound(queue: Lists, queue': Lists, locals: set<Address>, beats: map<Address, nat>, x: Address,
                      y: Address, z: Address)
    requires Fairly(queue, queue', locals, beats) && x !in locals && y !in locals && z !in locals
    requires !SameQueue(queue, queue', x) && ItemsOf(queue', y) != map[]
    requires ItemsOf(queue, z) != map[] && Beat(beats, z) != Beat(beats, x)
    ensures !OldestFirst(queue, queue', locals, beats)
  {
    if Beat(beats, y) < Beat(beats, x) {
      assert !(SameQueue(queue, queue', x) || ItemsOf(queue', y) == map[]);
    } else if Beat(beats, z) < Beat(beats, x) {
      assert SameQueue(queue, queue', z) || ItemsOf(queue', y) == map[];
      assert !(SameQueue(queue, queue', x) || ItemsOf(queue', z) == map[]);
    } else {
      assert SameQueue(queue, queue', x) || ItemsOf(queue', z) == map[];
      assert Beat(beats, x) < Beat(beats, y) ==> SameQueue(queue, queue', x) || ItemsOf(queue', y) == map[];
      assert !(SameQueue(queue, queue', z) || ItemsOf(queue', y) == map[]);
    }
  }

  /**
   The source says that it drops the oldest ones. It does if and only if nothing has to be dropped, or everything of the
   remote accounts, or all of them have the same heartbeat.
   */
  lemma OldestFirstIff(queue: Lists, queue': Lists, locals: set<Address>, beats: map<Address, nat>, globalQueue: nat)
    requires Limited(queue, queue', locals, beats, globalQueue)
    ensures OldestFirst(queue, queue', locals, beats) <==>
            Queued(queue) <= globalQueue || LocalQueued(queue, locals) >= globalQueue || OneBeat(queue, locals, beats)
  {
    if Queued(queue) <= globalQueue || LocalQueued(queue, locals) >= globalQueue || OneBeat(queue, locals, beats) {
      OldestFirstIf(queue, queue', locals, beats, globalQueue);
    } else {
      SamePlaces(queue, queue', locals);
      RemoteLeft(queue', locals);
      var y :| y !in locals && ItemsOf(queue', y) != map[];
      SomeoneLost(queue, queue');
      var x: Address :| !SameQueue(queue, queue', x);
      assert x !in locals;
      var a: Address, b: Address :|
        && a !in locals && b !in locals && ItemsOf(queue, a) != map[] && ItemsOf(queue, b) != map[]
        && Beat(beats, a) != Beat(beats, b);
      WrongWayRound(queue, queue', locals, beats, x, y, if Beat(beats, a) != Beat(beats, x) then a else b);
    }
  }

  /** Two remote accounts with one queued transaction each, and room for one: the newer heartbeat loses. */
  lemma NewestLoses(older: Tx, newer: Tx, queue': Lists)
    requires older.nonce == newer.nonce == 0
    requires Limited(TwoQueues(older, newer), queue', {}, map[7 := 1, 8 := 2], 1)
    ensures !OldestFirst(TwoQueues(older, newer), queue', {}, map[7 := 1, 8 := 2])
  {
    var queue, beats := TwoQueues(older, newer), map[7 := 1, 8 := 2];
    assert Places(queue) == {(7, 0), (8, 0)};
    assert LocalPlaces(queue, {}) == {};
    assert 0 in ItemsOf(queue, 7) && 0 in ItemsOf(queue, 8);
    assert Beat(beats, 7) != Beat(beats, 8);
    OldestFirstIff(queue, queue', {}, beats, 1);
  }

  function TwoQueues(older: Tx, newer: Tx): Lists {
    map[7 := List(false, map[0 := older], 0, 0), 8 := List(false, map[0 := newer], 0, 0)]
  }
}
