/**
 The nonce-indexed transaction map (core/tx_list.go, txSortedMap): a hash map, a heap of its nonces and
 a cache of its contents in nonce order. Every operation is specified on the plain map.
 */
module TxSortedMap {
  import opened Basics
  import opened Ordering
  import opened TxMap

  /** `removed` has been taken off the front of `m0`, in nonce order, and `m` is left. */
  ghost predicate Popped(m0: Txs, m: Txs, removed: seq<Tx>) {
    && Keyed(m0) && Increasing(removed)
    && (forall k | k in m :: k in m0 && m[k] == m0[k])
    && (forall i | 0 <= i < |removed| :: removed[i].nonce in m0 && m0[removed[i].nonce] == removed[i])
    && (forall i, k | 0 <= i < |removed| && k in m :: removed[i].nonce < k)
    && (forall k | k in m0 && k !in m :: m0[k] in removed)
  }

  lemma PopNext(m0: Txs, m: Txs, removed: seq<Tx>, k: nat)
    requires Popped(m0, m, removed) && k in m && forall j | j in m :: k <= j
    ensures Popped(m0, m - {k}, removed + [m[k]])
  {
    var removed' := removed + [m[k]];
    forall j | j in m0 && j !in m - {k} ensures m0[j] in removed' {
      if j == k { assert removed'[|removed|] == m[k]; } else { assert m0[j] in removed; }
    }
  }

  /** Once everything left is at or above `n` and everything removed is below, the map is split at `n`. */
  lemma PoppedUpTo(m0: Txs, m: Txs, removed: seq<Tx>, n: nat)
    requires Popped(m0, m, removed)
    requires forall k | k in m :: k >= n
    requires forall i | 0 <= i < |removed| :: removed[i].nonce < n
    ensures m == From(m0, n) && Lists(removed, Below(m0, n))
  {
    assert forall k | k in m0 && k !in m :: m0[k] in removed;
  }

  function Nonce(n: nat): int { n }
  function TxNonce(tx: Tx): int { tx.nonce }

  /** The heap holds exactly the map's nonces. */
  ghost predicate Indexed(items: Txs, index: seq<nat>) {
    Keyed(items) && multiset(index) == multiset(items.Keys) && MinFirst(Nonce, index)
  }

  /** The heap's head is the lowest nonce. */
  lemma HeadIsLowest(items: Txs, index: seq<nat>)
    requires Indexed(items, index)
    ensures index == [] <==> items == map[]
    ensures index != [] ==> index[0] in items && forall k | k in items :: index[0] <= k
  {
    assert forall k :: k in index <==> k in items by {
      forall k ensures k in index <==> k in items { assert multiset(index)[k] == multiset(items.Keys)[k]; }
    }
    if index == [] { assert items.Keys == {}; }
    forall k | k in items && index != [] ensures index[0] <= k {
      var i :| 0 <= i < |index| && index[i] == k;
      assert Nonce(index[0]) <= Nonce(index[i]);
    }
  }

  /** A nonce leaves the map and the heap. */
  lemma IndexedWithout(items: Txs, index: seq<nat>, n: nat, rest: seq<nat>)
    requires Indexed(items, index) && n in items && multiset(index) == multiset{n} + multiset(rest)
             && MinFirst(Nonce, rest)
    ensures Indexed(items - {n}, rest)
  {
    assert (items - {n}).Keys == items.Keys - {n};
    assert multiset(items.Keys - {n}) == multiset(items.Keys) - multiset{n};
  }

  lemma InHeap(items: Txs, index: seq<nat>, n: nat)
    requires Indexed(items, index)
    ensures n in index <==> n in items
  {
    assert multiset(index)[n] == multiset(items.Keys)[n];
  }

  class SortedMap {
    var items: Txs
    var index: seq<nat>
    var cache: Option<seq<Tx>>

    /** The heap holds exactly the map's nonces, and a cache is exactly the contents in nonce order. */
    ghost predicate Valid()
      reads this
    {
      && Indexed(items, index)
      && (cache.Some? ==> Lists(cache.value, items))
    }

    constructor ()
      ensures Valid() && items == map[]
    {
      items, index, cache := map[], [], None;
    }

    function Get(nonce: nat): Option<Tx>
      reads this
    {
      if nonce in items then Some(items[nonce]) else None
    }

    method Put(tx: Tx)
      requires Valid()
      modifies this
      ensures Valid() && items == old(items)[tx.nonce := tx]
    {
      if tx.nonce !in items {
        index := HeapPush(Nonce, index, tx.nonce);
      }
      items, cache := items[tx.nonce := tx], None;
    }

    /** heap.Pop followed by delete. */
    method PopLowest() returns (tx: Tx)
      requires Indexed(items, index) && index != []
      modifies this`items, this`index
      ensures Indexed(items, index) && |index| == |old(index)| - 1
      ensures old(index)[0] in old(items) && tx == old(items)[old(index)[0]] && items == old(items) - {old(index)[0]}
    {
      HeadIsLowest(items, index);
      var nonce, rest := HeapPop(Nonce, index);
      tx := items[nonce];
      IndexedWithout(items, index, nonce, rest);
      items, index := items - {nonce}, rest;
    }

    /** Forward: everything below the threshold goes, in nonce order; a cache just loses its front. */
    method Forward(threshold: nat) returns (removed: seq<Tx>)
      requires Valid()
      modifies this
      ensures Valid() && items == From(old(items), threshold) && Lists(removed, Below(old(items), threshold))
    {
      ghost var m0 := items;
      removed := [];
      while |index| > 0 && index[0] < threshold
        modifies this`items, this`index
        invariant Indexed(items, index) && Popped(m0, items, removed)
        invariant forall i | 0 <= i < |removed| :: removed[i].nonce < threshold
        decreases |index|
      {
        HeadIsLowest(items, index);
        PopNext(m0, items, removed, index[0]);
        var tx := PopLowest();
        removed := removed + [tx];
      }
      HeadIsLowest(items, index);
      PoppedUpTo(m0, items, removed, threshold);
      if cache.Some? {
        DropBelow(cache.value, removed, m0, threshold);
        cache := Some(cache.value[|removed|..]);
      }
    }

    /** The loop of Ready. */
    method PopRun() returns (ready: seq<Tx>)
      requires Indexed(items, index) && index != []
      modifies this`items, this`index
      ensures Indexed(items, index)
      ensures ready != [] && IsRun(old(items), ready) && items == From(old(items), ready[0].nonce + |ready|)
    {
      ghost var m0, lowest := items, index[0];
      ready := [];
      var next := index[0];
      HeadIsLowest(items, index);
      while |index| > 0 && index[0] == next
        modifies this`items, this`index
        invariant Indexed(items, index) && Running(m0, items, ready, lowest) && next == lowest + |ready|
        invariant ready == [] ==> |index| > 0 && index[0] == next
        decreases |index|
      {
        HeadIsLowest(items, index);
        RunNext(m0, items, ready, lowest);
        var tx := PopLowest();
        ready := ready + [tx];
        next := next + 1;
      }
      HeadIsLowest(items, index);
      RunDone(m0, items, ready, lowest);
    }

    /** Ready: the maximal run of consecutive nonces from the lowest one, unless that is above `start`. */
    method Ready(start: nat) returns (ready: seq<Tx>)
      requires Valid()
      modifies this
      ensures Valid() && TakesReady(old(items), start, ready, items)
    {
      HeadIsLowest(items, index);
      if |index| == 0 || index[0] > start { return []; }
      ready := PopRun();
      cache := None;
    }

    /** Remove. */
    method Remove(nonce: nat) returns (found: bool)
      requires Valid()
      modifies this
      ensures Valid() && found == (nonce in old(items)) && items == old(items) - {nonce}
    {
      if nonce !in items {
        assert items - {nonce} == items;
        return false;
      }
      InHeap(items, index, nonce);
      var i := IndexOf(index, nonce);
      var rest := HeapRemove(Nonce, index, i);
      IndexedWithout(items, index, nonce, rest);
      items, index, cache := items - {nonce}, rest, None;
      found := true;
    }

    /** Filter: what the filter hits goes, in no particular order; heap and cache are rebuilt only if needed. */
    method Filter(filter: Tx -> bool) returns (removed: seq<Tx>)
      requires Valid()
      modifies this
      ensures Valid() && items == Kept(old(items), filter) && Contains(removed, Hit(old(items), filter))
    {
      var kept;
      kept, removed := SelectHits(items, filter);
      NothingHit(items, filter, removed);
      items := kept;
      if |removed| > 0 {
        var keys := KeysOf(items);
        index := HeapInit(Nonce, keys);
        cache := None;
      }
    }

    /** Cap: if there are more than `threshold`, the highest nonces go, highest first; a cache just loses its back. */
    method Cap(threshold: nat) returns (drops: seq<Tx>)
      requires Valid()
      modifies this
      ensures Valid() && CapsTo(old(items), threshold, drops, items)
    {
      if |items| <= threshold { return []; }
      ghost var m0 := items;
      var sorted := Sort(Nonce, index);
      SortedKeys(m0, sorted);
      items, drops := DropHighest(items, sorted, threshold);
      index := HeapInit(Nonce, sorted[..threshold]);
      if cache.Some? {
        var shorter := CutCache(cache.value, m0, items, drops);
        cache := Some(shorter);
      }
    }

    /** Flatten: the contents in nonce order, sorted at most once. */
    method Flatten() returns (txs: seq<Tx>)
      requires Valid()
      modifies this`cache
      ensures Valid() && Lists(txs, items) && cache == Some(txs)
    {
      if cache == None {
        var all := Values(items);
        var sorted := Sort(TxNonce, all);
        SortedLists(items, all, sorted);
        cache := Some(sorted);
      }
      txs := cache.value;
    }
  }

  method IndexOf(s: seq<nat>, x: nat) returns (i: nat)
    requires x in s
    ensures i < |s| && s[i] == x
  {
    ghost var at :| 0 <= at < |s| && s[at] == x;
    i := 0;
    while s[i] != x
      invariant i <= at
      decreases at - i
    {
      i := i + 1;
    }
  }

  /** `run` is the longest stretch of consecutive nonces at the front of `m`. */
  ghost predicate IsRun(m: Txs, run: seq<Tx>)
    requires run != []
  {
    && Lists(run, Below(m, run[0].nonce + |run|))
    && (forall i | 0 <= i < |run| :: run[i].nonce == run[0].nonce + i)
    && run[0].nonce + |run| !in m
  }

  /** What Ready takes out of a map, and what it leaves. */
  ghost predicate TakesReady(m: Txs, start: nat, ready: seq<Tx>, left: Txs) {
    if forall k | k in m :: k > start then ready == [] && left == m
    else ready != [] && IsRun(m, ready) && left == From(m, ready[0].nonce + |ready|)
  }

  /** A stretch of consecutive nonces from `lowest` has been taken off the front. */
  ghost predicate Running(m0: Txs, m: Txs, run: seq<Tx>, lowest: nat) {
    && Popped(m0, m, run)
    && (forall i | 0 <= i < |run| :: run[i].nonce == lowest + i)
    && (forall k | k in m :: k >= lowest + |run|)
  }

  lemma RunNext(m0: Txs, m: Txs, run: seq<Tx>, lowest: nat)
    requires Running(m0, m, run, lowest) && lowest + |run| in m
    ensures Running(m0, m - {lowest + |run|}, run + [m[lowest + |run|]], lowest)
  {
    PopNext(m0, m, run, lowest + |run|);
  }

  lemma RunDone(m0: Txs, m: Txs, run: seq<Tx>, lowest: nat)
    requires Running(m0, m, run, lowest) && run != [] && lowest + |run| !in m
    ensures IsRun(m0, run) && m == From(m0, run[0].nonce + |run|)
  {
    PoppedUpTo(m0, m, run, lowest + |run|);
    assert run[0].nonce == lowest;
    assert forall k | k in m0 && k >= lowest + |run| :: k in m;
  }

  /** The values of a map, in the arbitrary order in which Go iterates. */
  method Values(m: Txs) returns (all: seq<Tx>)
    requires Keyed(m)
    ensures |all| == |m| && Contains(all, m)
  {
    all := [];
    var todo := m.Keys;
    ghost var done: Txs := map[];
    while todo != {}
      invariant todo <= m.Keys && done == (map k | k in m && k !in todo :: m[k])
      invariant Contains(all, done) && |all| + |todo| == |m|
      decreases |todo|
    {
      var k :| k in todo;
      ContainsOneMore(all, done, m[k]);
      all := all + [m[k]];
      todo := todo - {k};
      done := done[k := m[k]];
    }
    assert done == m;
  }

  /** `all` holds the transactions of `m`, each once, in some order. */
  ghost predicate Contains(all: seq<Tx>, m: Txs) {
    && (forall i | 0 <= i < |all| :: all[i].nonce in m && m[all[i].nonce] == all[i])
    && (forall i, j | 0 <= i < j < |all| :: all[i].nonce != all[j].nonce)
    && (forall k | k in m :: m[k] in all)
  }

  lemma ContainsOneMore(all: seq<Tx>, m: Txs, tx: Tx)
    requires Contains(all, m) && tx.nonce !in m
    ensures Contains(all + [tx], m[tx.nonce := tx])
  {
    var all', m' := all + [tx], m[tx.nonce := tx];
    forall k | k in m' ensures m'[k] in all' {
      if k in m { assert m[k] in all; } else { assert all'[|all|] == tx; }
    }
  }

  lemma SortedLists(m: Txs, all: seq<Tx>, sorted: seq<Tx>)
    requires Keyed(m) && Contains(all, m) && multiset(sorted) == multiset(all) && SortedBy(TxNonce, sorted)
    ensures Lists(sorted, m)
  {
    assert forall t :: t in sorted <==> t in all by {
      forall t ensures t in sorted <==> t in all { assert t in multiset(sorted) <==> t in multiset(all); }
    }
    forall i | 0 <= i < |sorted| ensures sorted[i].nonce in m && m[sorted[i].nonce] == sorted[i] {
      assert sorted[i] in all;
    }
    forall i, j | 0 <= i < j < |sorted| ensures sorted[i].nonce < sorted[j].nonce {
      assert TxNonce(sorted[i]) <= TxNonce(sorted[j]);
      if sorted[i].nonce == sorted[j].nonce {
        assert sorted[i] == sorted[j];
        Twice(sorted, i, j);
        Once(all, sorted[i]);
      }
    }
  }

  lemma Twice<T>(s: seq<T>, i: nat, j: nat)
    requires i < j < |s| && s[i] == s[j]
    ensures multiset(s)[s[i]] >= 2
  {
    assert s == s[..i] + [s[i]] + s[i + 1..j] + [s[j]] + s[j + 1..];
  }

  lemma Once(all: seq<Tx>, t: Tx)
    requires t in all && forall i, j | 0 <= i < j < |all| :: all[i].nonce != all[j].nonce
    ensures multiset(all)[t] == 1
  {
    var i :| 0 <= i < |all| && all[i] == t;
    assert all == all[..i] + [t] + all[i + 1..];
    assert t !in all[..i] && t !in all[i + 1..];
  }

  // ---------- Filter ----------

  function Kept(m: Txs, filter: Tx -> bool): Txs { map k | k in m && !filter(m[k]) :: m[k] }
  function Hit(m: Txs, filter: Tx -> bool): Txs { map k | k in m && filter(m[k]) :: m[k] }

  /** The loop of Filter. */
  method SelectHits(m: Txs, filter: Tx -> bool) returns (kept: Txs, removed: seq<Tx>)
    requires Keyed(m)
    ensures kept == Kept(m, filter) && Contains(removed, Hit(m, filter))
  {
    kept, removed := m, [];
    var todo := m.Keys;
    ghost var done: Txs := map[];
    while todo != {}
      invariant Selecting(m, filter, todo, kept, done) && Contains(removed, done)
      decreases |todo|
    {
      var k :| k in todo;
      SelectNext(m, filter, todo, kept, done, k);
      if filter(m[k]) {
        ContainsOneMore(removed, done, m[k]);
        removed := removed + [m[k]];
        kept := kept - {k};
        done := done[k := m[k]];
      }
      todo := todo - {k};
    }
    SelectedAll(m, filter, kept, done);
  }

  /** Where the loop of Filter stands: `done` has been taken out of `m`, `kept` is left. */
  ghost predicate Selecting(m: Txs, filter: Tx -> bool, todo: set<nat>, kept: Txs, done: Txs) {
    && Keyed(m) && todo <= m.Keys
    && done == (map k | k in m && k !in todo && filter(m[k]) :: m[k])
    && kept == (map k | k in m && (k in todo || !filter(m[k])) :: m[k])
  }

  lemma SelectNext(m: Txs, filter: Tx -> bool, todo: set<nat>, kept: Txs, done: Txs, k: nat)
    requires Selecting(m, filter, todo, kept, done) && k in todo
    ensures if filter(m[k]) then Selecting(m, filter, todo - {k}, kept - {k}, done[k := m[k]])
            else Selecting(m, filter, todo - {k}, kept, done)
    ensures k in m && k !in done && m[k].nonce == k
  {
  }

  lemma SelectedAll(m: Txs, filter: Tx -> bool, kept: Txs, done: Txs)
    requires Selecting(m, filter, {}, kept, done)
    ensures kept == Kept(m, filter) && done == Hit(m, filter)
  {
  }

  lemma NothingHit(m: Txs, filter: Tx -> bool, removed: seq<Tx>)
    requires Contains(removed, Hit(m, filter))
    ensures removed == [] ==> Kept(m, filter) == m
  {
    if removed == [] {
      ContainsNothing(Hit(m, filter));
      assert forall k | k in m :: filter(m[k]) <==> k in Hit(m, filter);
    }
  }

  lemma ContainsNothing(m: Txs)
    requires Contains([], m)
    ensures m == map[]
  {
    assert m.Keys == {};
  }

  method KeysOf(m: Txs) returns (keys: seq<nat>)
    ensures multiset(keys) == multiset(m.Keys)
  {
    keys := [];
    var todo := m.Keys;
    while todo != {}
      invariant todo <= m.Keys && multiset(keys) == multiset(m.Keys - todo)
      decreases |todo|
    {
      var k :| k in todo;
      assert m.Keys - (todo - {k}) == (m.Keys - todo) + {k};
      keys := keys + [k];
      todo := todo - {k};
    }
    assert m.Keys - {} == m.Keys;
  }

  // ---------- Cap ----------

  function Reversed<T>(s: seq<T>): seq<T> {
    if s == [] then [] else Reversed(s[1..]) + [s[0]]
  }

  lemma {:induction false} ReversedAppend<T>(s: seq<T>, x: T)
    ensures Reversed(s + [x]) == [x] + Reversed(s)
  {
    if s == [] {
      assert s + [x] == [x];
    } else {
      assert (s + [x])[1..] == s[1..] + [x];
      ReversedAppend(s[1..], x);
    }
  }

  lemma {:induction false} ReversedLength<T>(s: seq<T>)
    ensures |Reversed(s)| == |s|
  {
    if s != [] { ReversedLength(s[1..]); }
  }

  /** `m0` has been cut at some nonce: `m` is the lower part, and `drops` is the upper part from the top down. */
  ghost predicate Capped(m0: Txs, m: Txs, drops: seq<Tx>) {
    exists n: nat :: m == Below(m0, n) && Lists(Reversed(drops), From(m0, n))
  }

  /** What Cap takes out of a map, and what it leaves. */
  ghost predicate CapsTo(m: Txs, threshold: nat, drops: seq<Tx>, left: Txs) {
    if |m| <= threshold then drops == [] && left == m else |left| == threshold && Capped(m, left, drops)
  }

  /** `ks` are the nonces of `m` in strictly increasing order. */
  ghost predicate KeyList(ks: seq<nat>, m: Txs) {
    && (forall i, j | 0 <= i < j < |ks| :: ks[i] < ks[j])
    && (forall k :: k in ks <==> k in m)
  }

  lemma SortedKeys(m: Txs, ks: seq<nat>)
    requires multiset(ks) == multiset(m.Keys) && SortedBy(Nonce, ks)
    ensures KeyList(ks, m) && |ks| == |m|
  {
    forall k ensures k in ks <==> k in m { assert multiset(ks)[k] == multiset(m.Keys)[k]; }
    forall i, j | 0 <= i < j < |ks| ensures ks[i] < ks[j] {
      assert Nonce(ks[i]) <= Nonce(ks[j]);
      if ks[i] == ks[j] { Twice(ks, i, j); }
    }
    assert |multiset(ks)| == |ks| && |multiset(m.Keys)| == |m.Keys|;
  }

  /** The nonce at which cutting leaves `size` transactions. */
  function CutAt(ks: seq<nat>, size: nat): nat
    requires size <= |ks|
  {
    if size < |ks| then ks[size] else if ks == [] then 0 else ks[|ks| - 1] + 1
  }

  ghost predicate CappedTo(m0: Txs, m: Txs, drops: seq<Tx>, ks: seq<nat>, size: nat)
    requires size <= |ks|
  {
    && Keyed(m0) && KeyList(ks, m0)
    && m == Below(m0, CutAt(ks, size)) && Lists(Reversed(drops), From(m0, CutAt(ks, size)))
  }

  /** The loop of Cap. */
  method DropHighest(m: Txs, ks: seq<nat>, threshold: nat) returns (r: Txs, drops: seq<Tx>)
    requires Keyed(m) && KeyList(ks, m) && threshold <= |ks| == |m|
    ensures Keyed(r) && Capped(m, r, drops) && |r| == threshold && multiset(ks[..threshold]) == multiset(r.Keys)
  {
    r, drops := m, [];
    var size := |m|;
    CapNone(m, ks);
    while size > threshold
      invariant threshold <= size <= |ks|
      invariant CappedTo(m, r, drops, ks, size)
    {
      CapOne(m, r, drops, ks, size);
      size := size - 1;
      var k := ks[size];
      r, drops := r - {k}, drops + [r[k]];
    }
    CapDone(m, r, drops, ks, size);
  }

  lemma CapNone(m: Txs, ks: seq<nat>)
    requires Keyed(m) && KeyList(ks, m)
    ensures CappedTo(m, m, [], ks, |ks|)
  {
    forall k | k in m ensures k < CutAt(ks, |ks|) { var i :| 0 <= i < |ks| && ks[i] == k; }
    assert Below(m, CutAt(ks, |ks|)) == m && From(m, CutAt(ks, |ks|)) == map[];
  }

  lemma CapOne(m0: Txs, m: Txs, drops: seq<Tx>, ks: seq<nat>, size: nat)
    requires 0 < size <= |ks| && CappedTo(m0, m, drops, ks, size)
    ensures ks[size - 1] in m
    ensures CappedTo(m0, m - {ks[size - 1]}, drops + [m[ks[size - 1]]], ks, size - 1)
  {
    var k := ks[size - 1];
    assert k in ks && k < CutAt(ks, size);
    ReversedAppend(drops, m[k]);
    NoneBetween(m0, ks, size);
    assert Below(m0, k) == m - {k};
    ListsCons(m0, k, CutAt(ks, size), Reversed(drops));
  }

  lemma NoneBetween(m: Txs, ks: seq<nat>, size: nat)
    requires 0 < size <= |ks| && KeyList(ks, m)
    ensures forall k | k in m :: k <= ks[size - 1] || k >= CutAt(ks, size)
  {
    forall k | k in m ensures k <= ks[size - 1] || k >= CutAt(ks, size) {
      var i :| 0 <= i < |ks| && ks[i] == k;
    }
  }

  lemma ListsCons(m: Txs, k: nat, n: nat, s: seq<Tx>)
    requires Keyed(m) && k in m && k < n && Lists(s, From(m, n))
    requires forall j | j in m :: j <= k || j >= n
    ensures Lists([m[k]] + s, From(m, k))
  {
    var s' := [m[k]] + s;
    forall j | j in From(m, k) ensures From(m, k)[j] in s' {
      if j == k { assert s'[0] == m[k]; } else { assert From(m, n)[j] in s; }
    }
  }

  lemma CapDone(m0: Txs, m: Txs, drops: seq<Tx>, ks: seq<nat>, size: nat)
    requires size <= |ks| && CappedTo(m0, m, drops, ks, size)
    ensures Capped(m0, m, drops) && multiset(ks[..size]) == multiset(m.Keys) && |m| == size
  {
    assert forall k :: k in ks[..size] <==> k in m by {
      forall k ensures k in ks[..size] <==> k in m {
        if k in m { var i :| 0 <= i < |ks| && ks[i] == k; assert ks[..size][i] == k; }
      }
    }
    DistinctMultiset(ks[..size], m.Keys);
  }

  lemma {:induction false} DistinctMultiset(ks: seq<nat>, s: set<nat>)
    requires forall i, j | 0 <= i < j < |ks| :: ks[i] < ks[j]
    requires forall k :: k in ks <==> k in s
    ensures multiset(ks) == multiset(s) && |s| == |ks|
    decreases |ks|
  {
    if ks == [] {
      assert s == {};
    } else {
      var n := |ks| - 1;
      assert ks == ks[..n] + [ks[n]];
      assert forall k :: k in ks[..n] <==> k in s - {ks[n]};
      DistinctMultiset(ks[..n], s - {ks[n]});
      assert s == (s - {ks[n]}) + {ks[n]};
    }
  }

  method CutCache(s: seq<Tx>, ghost m0: Txs, ghost m: Txs, drops: seq<Tx>) returns (r: seq<Tx>)
    requires Keyed(m0) && Lists(s, m0) && Capped(m0, m, drops)
    ensures Lists(r, m)
  {
    CapCache(s, m0, m, drops);
    r := s[..|s| - |drops|];
  }

  lemma CapCache(s: seq<Tx>, m0: Txs, m: Txs, drops: seq<Tx>)
    requires Keyed(m0) && Lists(s, m0) && Capped(m0, m, drops)
    ensures |drops| <= |s| && Lists(s[..|s| - |drops|], m)
  {
    var n: nat :| m == Below(m0, n) && Lists(Reversed(drops), From(m0, n));
    var p := SplitPoint(s, n);
    ListsSplit(s, m0, p, n);
    ListsUnique(s[p..], Reversed(drops), From(m0, n));
    ReversedLength(drops);
  }
}
