/**
 How transactions move between the lists of the pool (core/tx_pool.go): demotion, promotion and eviction, account by
 account and over all accounts, and the pending lists as intervals of nonces.
 */
module PoolMoves {
  import opened Basics
  import opened TxMap
  import opened TxSortedMap
  import opened TxList
  import opened PoolState
  import Eviction
  import QueueLimit

  /** What the pool reads from the chain state: account nonces and balances, the block gas limit, TRC21 issuers. */
  datatype ChainState = ChainState(nonces: map<Address, nat>, balances: map<Address, nat>, maxGas: nat,
                                   issuers: map<Address, nat>) {
    function Nonce(a: Address): nat { if a in nonces then nonces[a] else 0 }
    function Balance(a: Address): nat { if a in balances then balances[a] else 0 }
  }

  // ---------- Dropping from one list ----------

  /** What is in `m` and not in `kept`. */
  function Rest(m: Txs, kept: Txs): Txs { map n | n in m && n !in kept :: m[n] }

  lemma RestSplits(m: Txs, kept: Txs)
    requires Submap(kept, m)
    ensures Splits(m, kept, Rest(m, kept), map[])
  {
  }

  function Forget(all: map<nat, Tx>, gone: Txs): map<nat, Tx> { all - Hashes(PoolState.Values(gone)) }

  /** An account's queued list is cut down; what it loses is deleted from the index. */
  method DropQueued(s: State, a: Address, list: List) returns (s': State)
    requires Inv(s) && Submap(list.items, ItemsOf(s.queue, a))
    ensures Inv(s') && s'.pending == s.pending && Changed(s.queue, s'.queue, a, list.items)
    ensures s'.all == Forget(s.all, Rest(ItemsOf(s.queue, a), list.items)) && QueueOf(s'.queue, a) == list
  {
    var gone := Rest(ItemsOf(s.queue, a), list.items);
    RestSplits(ItemsOf(s.queue, a), list.items);
    StoreChanges(s.queue, a, list);
    DetachQueued(s, a, s.queue[a := list], list.items, gone, map[]);
    s' := State(s.pending, s.queue[a := list], Forget(s.all, gone));
    NoValues();
  }

  /** The same for a pending list. */
  method DropPending(s: State, a: Address, list: List) returns (s': State)
    requires Inv(s) && Submap(list.items, ItemsOf(s.pending, a))
    ensures Inv(s') && s'.queue == s.queue && Changed(s.pending, s'.pending, a, list.items)
    ensures s'.all == Forget(s.all, Rest(ItemsOf(s.pending, a), list.items)) && ItemsOf(s'.pending, a) == list.items
  {
    var gone := Rest(ItemsOf(s.pending, a), list.items);
    RestSplits(ItemsOf(s.pending, a), list.items);
    StoreChanges(s.pending, a, list);
    DetachPending(s, a, s.pending[a := list], list.items, gone, map[]);
    s' := State(s.pending[a := list], s.queue, Forget(s.all, gone));
    NoValues();
  }

  lemma NoValues()
    ensures PoolState.Values(map[]) == {}
  {
  }

  /** An account's pending list is cut down: `gone` is deleted from the index, `moved` goes to the queue. */
  method ShrinkPending(s: State, a: Address, list: List, gone: Txs, moved: Txs, ghost priceBump: nat)
    returns (s': State)
    requires Inv(s) && Splits(ItemsOf(s.pending, a), list.items, gone, moved)
    ensures Inv(s') && Changed(s.pending, s'.pending, a, list.items) && PendingOf(s'.pending, a) == list
    ensures Changed(s.queue, s'.queue, a, ItemsOf(s.queue, a) + moved) && s'.all == Forget(s.all, gone)
  {
    StoreChanges(s.pending, a, list);
    DetachPending(s, a, s.pending[a := list], list.items, gone, moved);
    s' := EnqueueAll(State(s.pending[a := list], s.queue, Forget(s.all, gone)), a, moved, priceBump);
  }

  // ---------- Filter on a value ----------

  /** txList.Filter. */
  method FilterList(l: List, costLimit: nat, gasLimit: nat, issuers: map<Address, nat>) returns (l': List, r: Filtered)
    ensures IsFilter(l, costLimit, gasLimit, issuers, l', r) && l'.items == r.kept
  {
    if ShortCut(l, costLimit, gasLimit) {
      l', r := l, Filtered(l.items, map[], map[]);
    } else {
      var filter := UnpayableFilter(costLimit, gasLimit, issuers);
      var removed, kept := Hit(l.items, filter), Kept(l.items, filter);
      if l.strict && removed.Keys != {} {
        var lowest := Lowest(removed);
        assert IsLowest(lowest, removed);
        r := Filtered(Below(kept, lowest + 1), removed, From(kept, lowest + 1));
      } else {
        r := Filtered(kept, removed, map[]);
      }
      l' := l.(items := r.kept, costcap := costLimit, gascap := gasLimit);
    }
  }

  lemma FilterSplits(l: List, costLimit: nat, gasLimit: nat, issuers: map<Address, nat>, l': List, r: Filtered)
    requires IsFilter(l, costLimit, gasLimit, issuers, l', r)
    ensures Splits(l.items, r.kept, r.removed, r.invalids)
    ensures !l.strict ==> r.invalids == map[]
  {
    if !ShortCut(l, costLimit, gasLimit) {
      ScanPartitions(l.strict, l.items, UnpayableFilter(costLimit, gasLimit, issuers), r);
      PartsAreSubmaps(l.items, r.kept, r.removed, r.invalids);
    }
  }

  lemma PartsAreSubmaps(m: Txs, kept: Txs, removed: Txs, invalids: Txs)
    requires kept.Keys !! removed.Keys !! invalids.Keys && kept + removed + invalids == m
    ensures Splits(m, kept, removed, invalids)
  {
  }

  // ---------- Demoting one account ----------

  /** The list that Filter sees when an account is demoted: strict, without the transactions below the chain nonce. */
  function Forwarded(s: State, a: Address, nonce: nat): List {
    PendingOf(s.pending, a).(strict := true, items := From(ItemsOf(s.pending, a), nonce))
  }

  /** After demotion only what Filter kept is pending, and only if it starts at the account's chain nonce. */
  ghost predicate Demoted(s: State, a: Address, chain: ChainState, l': List, r: Filtered, s': State) {
    var nonce := chain.Nonce(a);
    && IsFilter(Forwarded(s, a, nonce), chain.Balance(a), chain.maxGas, chain.issuers, l', r)
    && s'.all == Forget(Forget(s.all, Below(ItemsOf(s.pending, a), nonce)), r.removed)
    && Changed(s.pending, s'.pending, a, if nonce in r.kept then r.kept else map[])
    && Changed(s.queue, s'.queue, a, ItemsOf(s.queue, a) + r.invalids + if nonce in r.kept then map[] else r.kept)
  }

  lemma BelowFromSplits(m: Txs, n: nat)
    ensures Splits(m, From(m, n), Below(m, n), map[]) && Splits(m, map[], map[], m)
  {
  }

  lemma ChangedTrans(lists: Lists, lists1: Lists, lists2: Lists, a: Address, m1: Txs, m2: Txs)
    requires Changed(lists, lists1, a, m1) && Changed(lists1, lists2, a, m2)
    ensures Changed(lists, lists2, a, m2) && ItemsOf(lists1, a) == m1
  {
  }

  /** The start of the body of the loop of demoteUnexecutables: drop processed transactions, then unpayable ones. */
  method DemoteUnpayable(s: State, a: Address, chain: ChainState, ghost priceBump: nat)
    returns (s': State, l': List, r: Filtered)
    requires Inv(s)
    ensures Inv(s') && l'.items == r.kept && PendingOf(s'.pending, a) == l'
    ensures IsFilter(Forwarded(s, a, chain.Nonce(a)), chain.Balance(a), chain.maxGas, chain.issuers, l', r)
    ensures s'.all == Forget(Forget(s.all, Below(ItemsOf(s.pending, a), chain.Nonce(a))), r.removed)
    ensures Changed(s.pending, s'.pending, a, r.kept) && Changed(s.queue, s'.queue, a, ItemsOf(s.queue, a) + r.invalids)
  {
    var list1 := Forwarded(s, a, chain.Nonce(a));
    RestOfFrom(ItemsOf(s.pending, a), chain.Nonce(a));
    var s1 := DropPending(s, a, list1);
    l', r := FilterList(list1, chain.Balance(a), chain.maxGas, chain.issuers);
    FilterSplits(list1, chain.Balance(a), chain.maxGas, chain.issuers, l', r);
    s' := ShrinkPending(s1, a, l', r.removed, r.invalids, priceBump);
    ChangedTrans(s.pending, s1.pending, s'.pending, a, list1.items, r.kept);
  }

  /** Then, if what is left does not start at the account's nonce, postpone all of it. */
  method DemoteLists(s: State, a: Address, chain: ChainState, ghost priceBump: nat)
    returns (s': State, ghost l': List, ghost r: Filtered)
    requires Inv(s)
    ensures Inv(s') && Demoted(s, a, chain, l', r, s')
  {
    var s1, list, f := DemoteUnpayable(s, a, chain, priceBump);
    l', r, s' := list, f, s1;
    if |list.items| > 0 && chain.Nonce(a) !in list.items {
      BelowFromSplits(list.items, 0);
      s' := ShrinkPending(s1, a, list.(items := map[]), map[], list.items, priceBump);
      ChangedTrans(s.pending, s1.pending, s'.pending, a, f.kept, map[]);
      ChangedTrans(s.queue, s1.queue, s'.queue, a, ItemsOf(s.queue, a) + f.invalids,
                   ItemsOf(s.queue, a) + f.invalids + f.kept);
      ForgetNothing(s1.all);
    } else {
      NothingToAdd(ItemsOf(s.queue, a) + f.invalids, f.kept);
    }
  }

  /** The body of the loop of demoteUnexecutables. */
  method DemoteAccount(s: State, a: Address, chain: ChainState, ghost priceBump: nat)
    returns (s': State, ghost l': List, ghost r: Filtered)
    requires Inv(s)
    ensures Inv(s') && Demoted(s, a, chain, l', r, s') && (a in s'.pending ==> s'.pending[a].items != map[])
  {
    var s1;
    s1, l', r := DemoteLists(s, a, chain, priceBump);
    TidyKeeps(s1, a);
    TidyChanges(s.pending, s1.pending, a, if chain.Nonce(a) in r.kept then r.kept else map[]);
    s' := s1.(pending := Tidied(s1.pending, a));
  }

  lemma TidyChanges(lists: Lists, lists1: Lists, a: Address, m: Txs)
    requires Changed(lists, lists1, a, m)
    ensures Changed(lists, Tidied(lists1, a), a, m)
  {
  }

  /** Delete the entry of an account whose list became empty. */
  function Tidied(lists: Lists, a: Address): (lists': Lists)
    ensures forall b {:trigger ItemsOf(lists', b)} :: ItemsOf(lists', b) == ItemsOf(lists, b)
    ensures a in lists' ==> lists'[a].items != map[]
  {
    if a in lists && |lists[a].items| == 0 then
      assert lists[a].items.Keys == {};
      lists - {a}
    else lists
  }

  lemma SameItemsKeeps(s: State, s': State)
    requires Inv(s) && s'.all == s.all
    requires forall b {:trigger ItemsOf(s'.pending, b)} :: ItemsOf(s'.pending, b) == ItemsOf(s.pending, b)
    requires forall b {:trigger ItemsOf(s'.queue, b)} :: ItemsOf(s'.queue, b) == ItemsOf(s.queue, b)
    ensures Inv(s')
  {
    forall b ensures FiledAt(s'.pending, b) && FiledAt(s'.queue, b) && Apart(s', b) {
      assert FiledAt(s.pending, b) && FiledAt(s.queue, b) && Apart(s, b);
    }
    forall t ensures InAll(s'.all, t) <==> Member(s', {}, t) { assert InAll(s.all, t) <==> Member(s, {}, t); }
  }

  lemma TidyKeeps(s: State, a: Address)
    requires Inv(s)
    ensures Inv(s.(pending := Tidied(s.pending, a))) && Inv(s.(queue := Tidied(s.queue, a)))
  {
    SameItemsKeeps(s, s.(pending := Tidied(s.pending, a)));
    SameItemsKeeps(s, s.(queue := Tidied(s.queue, a)));
  }

  lemma ForgetNothing(all: map<nat, Tx>)
    ensures Forget(all, map[]) == all
  {
    NoValues();
  }

  lemma NothingToAdd(m: Txs, kept: Txs)
    ensures m + map[] == m && (|kept| == 0 ==> kept == map[] && m + kept == m)
  {
  }

  // ---------- Promoting one account ----------

  /** SortedMap.Ready returns the run of consecutive nonces from the lowest on, if the lowest is not above `start`. */
  ghost predicate IsReady(m: Txs, start: nat, cut: nat) {
    if forall k | k in m :: k > start then cut == 0
    else exists lowest: nat :: IsLowest(lowest, m) && lowest < cut && Consecutive(m, lowest, cut)
  }

  ghost predicate Consecutive(m: Txs, lowest: nat, cut: nat) {
    (forall k | lowest <= k < cut :: k in m) && cut !in m
  }

  method ReadyCut(m: Txs, start: nat) returns (cut: nat)
    ensures IsReady(m, start, cut)
  {
    if m.Keys == {} { return 0; }
    var lowest := Lowest(m);
    if lowest > start { return 0; }
    cut := lowest;
    while cut in m
      invariant lowest <= cut && forall k | lowest <= k < cut :: k in m
      decreases From(m, cut).Keys
    {
      FromShrinks(m, cut);
      cut := cut + 1;
    }
    assert IsLowest(lowest, m) && Consecutive(m, lowest, cut);
  }

  lemma FromShrinks(m: Txs, n: nat)
    requires n in m
    ensures From(m, n + 1).Keys < From(m, n).Keys
  {
    assert n in From(m, n).Keys && n !in From(m, n + 1).Keys;
  }

  /** SortedMap.Cap keeps the lowest nonces. */
  method CapCut(m: Txs, limit: nat) returns (cut: nat)
    ensures |Below(m, cut)| == Eviction.Min(|m|, limit)
  {
    cut := 0;
    var size := 0;
    assert |Below(m, 0)| == 0 by { assert Below(m, 0).Keys == {}; }
    while size < limit && size < |m|
      invariant size == |Below(m, cut)| <= limit && size <= |m|
      decreases |m| - size
    {
      SomethingAbove(m, cut);
      var n := Lowest(From(m, cut));
      NextBelow(m, cut, n);
      cut, size := n + 1, size + 1;
    }
  }

  lemma SomethingAbove(m: Txs, cut: nat)
    ensures From(m, cut).Keys == {} ==> Below(m, cut) == m
  {
    assert forall k | k in m :: k in From(m, cut) || k in Below(m, cut);
  }

  lemma NextBelow(m: Txs, cut: nat, n: nat)
    requires n in From(m, cut) && forall k | k in From(m, cut) :: n <= k
    ensures |Below(m, n + 1)| == |Below(m, cut)| + 1 <= |m|
  {
    forall k | k in m && k < n ensures k < cut { assert k !in From(m, cut); }
    assert Below(m, n + 1).Keys == Below(m, cut).Keys + {n};
    SubsetSize(Below(m, n + 1).Keys, m.Keys);
  }

  lemma {:induction false} SubsetSize(x: set<nat>, y: set<nat>)
    requires x <= y
    ensures |x| <= |y|
  {
    assert |y| == |x| + |y - x| by { assert y == x + (y - x); }
  }

  lemma RunStartsLowest(m: Txs, run: seq<Tx>, lowest: nat)
    requires Keyed(m) && run != [] && IsRun(m, run) && IsLowest(lowest, m)
    ensures run[0].nonce == lowest && forall k | lowest <= k < lowest + |run| :: k in m
  {
    var below := Below(m, run[0].nonce + |run|);
    assert run[0].nonce in below;
    assert lowest in below && below[lowest] in run;
    var i :| 0 <= i < |run| && run[i] == below[lowest];
    forall k | lowest <= k < lowest + |run| ensures k in m { assert run[k - lowest].nonce == k; }
  }

  /** The cut is where SortedMap.Ready cuts. */
  lemma ReadyAgrees(m: Txs, start: nat, ready: seq<Tx>, left: Txs, cut: nat)
    requires Keyed(m) && TakesReady(m, start, ready, left) && IsReady(m, start, cut)
    ensures left == From(m, cut) && TxMap.Lists(ready, Below(m, cut))
  {
    if forall k | k in m :: k > start {
      assert From(m, 0) == m && Below(m, 0) == map[];
    } else {
      var lowest: nat :| IsLowest(lowest, m) && lowest < cut && Consecutive(m, lowest, cut);
      RunStartsLowest(m, ready, lowest);
      assert cut == ready[0].nonce + |ready|;
    }
  }

  lemma SameSizeBelow(m: Txs, i: nat, j: nat)
    requires i <= j && |Below(m, i)| == |Below(m, j)|
    ensures Below(m, i) == Below(m, j)
  {
    var low, high := Below(m, i).Keys, Below(m, j).Keys;
    assert low <= high;
    assert |high| == |low| + |high - low| by { assert high == low + (high - low); }
    assert high - low == {};
  }

  /** What IsCapped says of a remote account is what SortedMap.Cap does. */
  lemma CapAgrees(m: Txs, limit: nat, drops: seq<Tx>, left: Txs, left': Txs)
    requires CapsTo(m, limit, drops, left) && IsCapped(m, false, limit, left')
    ensures left' == left
    ensures |m| > limit ==> TxMap.Lists(Reversed(drops), Rest(m, left'))
  {
    var j: nat :| left' == Below(m, j);
    if |m| <= limit {
      AllBelow(m, j);
    } else {
      var i: nat :| left == Below(m, i) && TxMap.Lists(Reversed(drops), From(m, i));
      if i <= j { SameSizeBelow(m, i, j); } else { SameSizeBelow(m, j, i); }
      RestOfFrom(m, i);
    }
  }

  lemma AllBelow(m: Txs, j: nat)
    requires |Below(m, j)| == |m|
    ensures Below(m, j) == m
  {
    var low, high := Below(m, j).Keys, m.Keys;
    assert |high| == |low| + |high - low| by { assert high == low + (high - low); }
    assert high - low == {};
  }

  lemma ReadySplits(m: Txs, cut: nat)
    ensures Splits(m, From(m, cut), map[], Below(m, cut)) && Submap(Below(m, cut), m)
  {
  }

  /** Take the ready run out of an account's queue and promote it. */
  method PromoteReady(s: State, a: Address, list: List, cut: nat, ghost priceBump: nat) returns (s': State, nonce: nat)
    requires Inv(s) && QueueOf(s.queue, a) == list
    ensures Inv(s') && s'.all == s.all && Changed(s.queue, s'.queue, a, From(list.items, cut))
    ensures ItemsOf(s'.queue, a) == From(list.items, cut)
    ensures Changed(s.pending, s'.pending, a, ItemsOf(s.pending, a) + Below(list.items, cut))
    ensures Raised(PendingOf(s.pending, a), Below(list.items, cut), PendingOf(s'.pending, a))
    ensures Below(list.items, cut) != map[] ==>
              exists last: nat :: IsLast(last, Below(list.items, cut)) && nonce == last + 1
  {
    ReadySplits(list.items, cut);
    WithItemsChanges(s.queue, a, list, From(list.items, cut));
    var queue := s.queue[a := list.(items := From(list.items, cut))];
    DetachQueued(s, a, queue, From(list.items, cut), map[], Below(list.items, cut));
    ForgetNothing(s.all);
    s', nonce := PromoteAll(State(s.pending, queue, s.all), a, Below(list.items, cut), priceBump);
  }

  /**
   The list that Filter sees when an account is promoted: not strict, without the transactions below the chain nonce.
   */
  function ForwardedQueue(s: State, a: Address, nonce: nat): List {
    QueueOf(s.queue, a).(strict := false, items := From(ItemsOf(s.queue, a), nonce))
  }

  lemma RestOfFrom(m: Txs, n: nat)
    ensures Rest(m, From(m, n)) == Below(m, n) && Submap(From(m, n), m) && Rest(m, Below(m, n)) == From(m, n)
            && Submap(Below(m, n), m)
  {
  }

  lemma RestOfSplit(m: Txs, kept: Txs, gone: Txs)
    requires Splits(m, kept, gone, map[])
    ensures Rest(m, kept) == gone
  {
  }

  /** The start of the body of the loop of promoteExecutables: drop processed transactions, then unpayable ones. */
  method DropUnpayable(s: State, a: Address, chain: ChainState) returns (s': State, l': List, r: Filtered)
    requires Inv(s)
    ensures Inv(s') && l'.items == r.kept && QueueOf(s'.queue, a) == l' && s'.pending == s.pending
    ensures IsFilter(ForwardedQueue(s, a, chain.Nonce(a)), chain.Balance(a), chain.maxGas, chain.issuers, l', r)
    ensures s'.all == Forget(Forget(s.all, Below(ItemsOf(s.queue, a), chain.Nonce(a))), r.removed)
    ensures Changed(s.queue, s'.queue, a, r.kept)
  {
    var list1 := ForwardedQueue(s, a, chain.Nonce(a));
    RestOfFrom(ItemsOf(s.queue, a), chain.Nonce(a));
    var s1 := DropQueued(s, a, list1);
    l', r := FilterList(list1, chain.Balance(a), chain.maxGas, chain.issuers);
    FilterSplits(list1, chain.Balance(a), chain.maxGas, chain.issuers, l', r);
    RestOfSplit(list1.items, r.kept, r.removed);
    s' := DropQueued(s1, a, l');
    ChangedTrans(s.queue, s1.queue, s'.queue, a, list1.items, r.kept);
  }

  /** What Cap leaves: everything of a local account, at most `limit` lowest nonces of a remote one. */
  ghost predicate IsCapped(m: Txs, local: bool, limit: nat, left: Txs) {
    if local then left == m else |left| == Eviction.Min(|m|, limit) && exists n: nat :: left == Below(m, n)
  }

  method CapQueued(s: State, a: Address, list: List, local: bool, limit: nat) returns (s': State, ghost left: Txs)
    requires Inv(s) && ItemsOf(s.queue, a) == list.items
    ensures Inv(s') && s'.pending == s.pending && Changed(s.queue, s'.queue, a, left)
            && IsCapped(list.items, local, limit, left)
    ensures s'.all == Forget(s.all, Rest(list.items, left))
  {
    if local {
      s', left := s, list.items;
      ForgetNothing(s.all);
      assert Rest(list.items, left) == map[];
    } else {
      var cut := CapCut(list.items, limit);
      left := Below(list.items, cut);
      RestOfFrom(list.items, cut);
      s' := DropQueued(s, a, list.(items := Below(list.items, cut)));
    }
  }

  /** The effect on one account of the loop body of promoteExecutables. */
  ghost predicate Promoted(s: State, a: Address, chain: ChainState, start: nat, local: bool, limit: nat,
                           l': List, r: Filtered, cut: nat, left: Txs, s': State) {
    && IsFilter(ForwardedQueue(s, a, chain.Nonce(a)), chain.Balance(a), chain.maxGas, chain.issuers, l', r)
    && IsReady(r.kept, start, cut)
    && IsCapped(From(r.kept, cut), local, limit, left)
    && Changed(s.pending, s'.pending, a, ItemsOf(s.pending, a) + Below(r.kept, cut))
    && Raised(PendingOf(s.pending, a), Below(r.kept, cut), PendingOf(s'.pending, a))
    && Changed(s.queue, s'.queue, a, left)
    && s'.all == Forget(Forget(Forget(s.all, Below(ItemsOf(s.queue, a), chain.Nonce(a))), r.removed),
                        Rest(From(r.kept, cut), left))
  }

  /** All of that for one account, in order. */
  method PromoteLists(s: State, a: Address, chain: ChainState, start: nat, local: bool, limit: nat,
                      ghost priceBump: nat)
    returns (s': State, promoted: bool, nonce: nat, ghost l': List, ghost r: Filtered, ghost cut: nat, ghost left: Txs)
    requires Inv(s)
    ensures Inv(s') && Promoted(s, a, chain, start, local, limit, l', r, cut, left, s')
    ensures promoted == (Below(r.kept, cut) != map[])
    ensures promoted ==> exists last: nat :: IsLast(last, Below(r.kept, cut)) && nonce == last + 1
  {
    var s1, list, f := DropUnpayable(s, a, chain);
    var c := ReadyCut(list.items, start);
    var s2;
    s2, nonce := PromoteReady(s1, a, list, c, priceBump);
    promoted := |Below(list.items, c)| > 0;
    s', left := CapQueued(s2, a, list.(items := From(list.items, c)), local, limit);
    l', r, cut := list, f, c;
    ChangedTrans(s.queue, s1.queue, s2.queue, a, f.kept, From(f.kept, c));
    ChangedTrans(s.queue, s2.queue, s'.queue, a, From(f.kept, c), left);
  }

  /** The body of the loop of promoteExecutables; `nonce` is the new pending nonce if something was promoted. */
  method PromoteAccount(s: State, a: Address, chain: ChainState, start: nat, local: bool, limit: nat,
                        ghost priceBump: nat)
    returns (s': State, promoted: bool, nonce: nat, ghost l': List, ghost r: Filtered, ghost cut: nat, ghost left: Txs)
    requires Inv(s)
    ensures Inv(s') && Promoted(s, a, chain, start, local, limit, l', r, cut, left, s')
    ensures promoted == (Below(r.kept, cut) != map[])
    ensures promoted ==> exists last: nat :: IsLast(last, Below(r.kept, cut)) && nonce == last + 1
  {
    var s1;
    s1, promoted, nonce, l', r, cut, left := PromoteLists(s, a, chain, start, local, limit, priceBump);
    TidyKeeps(s1, a);
    TidyChanges(s.queue, s1.queue, a, left);
    s' := s1.(queue := Tidied(s1.queue, a));
  }

  // ---------- All accounts ----------

  /** Nothing enters the index. */
  ghost predicate Sheds(all: map<nat, Tx>, all': map<nat, Tx>) {
    forall h | h in all' :: h in all && all[h] == all'[h]
  }

  /** Processed already, or more than its payer or a block can bear. */
  predicate Dead(t: Tx, chain: ChainState) {
    t.nonce < chain.Nonce(t.from) || Unpayable(t, chain.Balance(t.from), chain.maxGas, chain.issuers)
  }

  predicate Among(accounts: Option<set<Address>>, a: Address) { accounts.None? || a in accounts.value }

  /** No live transaction of the given accounts, or of any account, is lost. */
  ghost predicate Spares(all: map<nat, Tx>, all': map<nat, Tx>, chain: ChainState, accounts: Option<set<Address>>) {
    forall h {:trigger h in all'} {:trigger all[h]} | h in all && Among(accounts, all[h].from) ::
      h in all' || Dead(all[h], chain)
  }

  lemma SparesTwice(all: map<nat, Tx>, all1: map<nat, Tx>, all2: map<nat, Tx>, chain: ChainState,
                    accounts: Option<set<Address>>)
    requires Spares(all, all1, chain, accounts) && Spares(all1, all2, chain, accounts) && Sheds(all, all1)
    ensures Spares(all, all2, chain, accounts)
  {
  }

  /** A listed transaction is the one its hash leads to. */
  lemma ListedIsIndexed(s: State, a: Address, m: Txs, h: nat)
    requires Inv(s) && (Submap(m, ItemsOf(s.pending, a)) || Submap(m, ItemsOf(s.queue, a)))
             && h in Hashes(PoolState.Values(m))
    ensures exists n :: n in m && m[n].hash == h && m[n].nonce == n && m[n].from == a && h in s.all && s.all[h] == m[n]
  {
    var t :| t in PoolState.Values(m) && t.hash == h;
    var n :| n in m && m[n] == t;
    assert FiledAt(s.pending, a) && FiledAt(s.queue, a);
    assert Member(s, {}, t);
    assert InAll(s.all, t);
  }

  /** What Forward and Filter take out of a list of an account is dead. */
  lemma LostIsDead(s: State, a: Address, chain: ChainState, m: Txs, l: List, l': List, r: Filtered, h: nat)
    requires Inv(s) && (m == ItemsOf(s.pending, a) || m == ItemsOf(s.queue, a)) && l.items == From(m, chain.Nonce(a))
    requires IsFilter(l, chain.Balance(a), chain.maxGas, chain.issuers, l', r)
    requires h in Hashes(PoolState.Values(Below(m, chain.Nonce(a)))) || h in Hashes(PoolState.Values(r.removed))
    ensures h in s.all && Dead(s.all[h], chain)
  {
    if h in Hashes(PoolState.Values(Below(m, chain.Nonce(a)))) {
      ListedIsIndexed(s, a, Below(m, chain.Nonce(a)), h);
    } else {
      FilterSplits(l, chain.Balance(a), chain.maxGas, chain.issuers, l', r);
      ListedIsIndexed(s, a, r.removed, h);
      var n :| n in r.removed && r.removed[n].hash == h && r.removed[n].nonce == n && r.removed[n].from == a
        && s.all[h] == r.removed[n];
      assert n in Hit(l.items, UnpayableFilter(chain.Balance(a), chain.maxGas, chain.issuers));
    }
  }

  lemma DemotedSpares(s: State, a: Address, chain: ChainState, l': List, r: Filtered, s': State)
    requires Inv(s) && Demoted(s, a, chain, l', r, s')
    ensures Spares(s.all, s'.all, chain, None)
  {
    forall h | h in s.all && h !in s'.all ensures Dead(s.all[h], chain) {
      LostIsDead(s, a, chain, ItemsOf(s.pending, a), Forwarded(s, a, chain.Nonce(a)), l', r, h);
    }
  }

  /** An account's pending transactions start exactly at its chain nonce. */
  ghost predicate Settled(pending: Lists, a: Address, chain: ChainState) {
    forall n | n in ItemsOf(pending, a) :: n >= chain.Nonce(a) && chain.Nonce(a) in ItemsOf(pending, a)
  }

  lemma DemotedSheds(s: State, a: Address, chain: ChainState, l': List, r: Filtered, s': State)
    requires Demoted(s, a, chain, l', r, s')
    ensures Sheds(s.all, s'.all)
  {
  }

  /** Demotion leaves no gaps where there were none. */
  lemma DemotedContiguous(s: State, a: Address, chain: ChainState, l': List, r: Filtered, s': State)
    requires Demotes(s, s', a, chain, l', r) && Contiguous(ItemsOf(s.pending, a)) && Keyed(ItemsOf(s.pending, a))
    ensures Contiguous(ItemsOf(s'.pending, a))
  {
    var l := Forwarded(s, a, chain.Nonce(a));
    SplitsContiguous(ItemsOf(s.pending, a), chain.Nonce(a));
    if !ShortCut(l, chain.Balance(a), chain.maxGas) {
      ScanKeepsContiguous(l.items, UnpayableFilter(chain.Balance(a), chain.maxGas, chain.issuers), r);
    }
  }

  /** What demotion makes of one account's two lists. */
  ghost predicate AccountDemoted(s: State, s': State, a: Address, chain: ChainState) {
    exists l', r :: Demotes(s, s', a, chain, l', r)
  }

  ghost predicate Demotes(s: State, s': State, a: Address, chain: ChainState, l': List, r: Filtered) {
    var nonce := chain.Nonce(a);
    && IsFilter(Forwarded(s, a, nonce), chain.Balance(a), chain.maxGas, chain.issuers, l', r)
    && ItemsOf(s'.pending, a) == (if nonce in r.kept then r.kept else map[])
    && ItemsOf(s'.queue, a) == ItemsOf(s.queue, a) + r.invalids + if nonce in r.kept then map[] else r.kept
  }

  /** The account's lists are as they were. */
  ghost predicate Untouched(s: State, s': State, a: Address) {
    && PendingOf(s'.pending, a) == PendingOf(s.pending, a) && ItemsOf(s'.pending, a) == ItemsOf(s.pending, a)
    && QueueOf(s'.queue, a) == QueueOf(s.queue, a) && ItemsOf(s'.queue, a) == ItemsOf(s.queue, a)
  }

  lemma OthersUntouched(s: State, s': State, a: Address, m: Txs, n: Txs, b: Address)
    requires Changed(s.pending, s'.pending, a, m) && Changed(s.queue, s'.queue, a, n) && b != a
    ensures Untouched(s, s', b)
  {
    assert b in s'.pending <==> b in s'.pending - {a};
    assert b in s.pending <==> b in s.pending - {a};
    assert b in s'.queue <==> b in s'.queue - {a};
    assert b in s.queue <==> b in s.queue - {a};
  }

  lemma NoPendingDemoted(s: State, a: Address, chain: ChainState)
    requires a !in s.pending
    ensures AccountDemoted(s, s, a, chain)
  {
    var l, r := Forwarded(s, a, chain.Nonce(a)), Filtered(map[], map[], map[]);
    assert l.items == map[];
    assert ItemsOf(s.queue, a) + map[] + map[] == ItemsOf(s.queue, a);
    assert Demotes(s, s, a, chain, l, r);
  }

  /** One more account demoted, when its own lists had not been touched before. */
  lemma OneMoreDemoted(s: State, before: State, s': State, a: Address, chain: ChainState, l': List, r: Filtered)
    requires Untouched(s, before, a) && Demoted(before, a, chain, l', r, s')
    ensures AccountDemoted(s, s', a, chain)
  {
    assert Demotes(s, s', a, chain, l', r);
  }

  lemma StillDemoted(s: State, before: State, s': State, b: Address, chain: ChainState)
    requires AccountDemoted(s, before, b, chain) && Untouched(before, s', b)
    ensures AccountDemoted(s, s', b, chain)
  {
    var l', r :| Demotes(s, before, b, chain, l', r);
    assert Demotes(s, s', b, chain, l', r);
  }

  ghost predicate AllDemoted(s: State, s': State, chain: ChainState, rest: set<Address>) {
    && (forall a {:trigger AccountDemoted(s, s', a, chain)} | a !in rest :: AccountDemoted(s, s', a, chain))
    && (forall a {:trigger Untouched(s, s', a)} | a in rest :: Untouched(s, s', a))
  }

  lemma DemoteStep(s: State, before: State, s': State, a: Address, chain: ChainState, l': List, r: Filtered,
                   rest: set<Address>)
    requires AllDemoted(s, before, chain, rest) && a in rest && Demoted(before, a, chain, l', r, s')
    ensures AllDemoted(s, s', chain, rest - {a})
  {
    forall b | b !in rest - {a} ensures AccountDemoted(s, s', b, chain) {
      if b == a {
        assert Untouched(s, before, a);
        OneMoreDemoted(s, before, s', a, chain, l', r);
      } else {
        assert AccountDemoted(s, before, b, chain);
        DemoteTouchesOne(before, s', a, chain, l', r, b);
        StillDemoted(s, before, s', b, chain);
      }
    }
    forall b | b in rest - {a} ensures Untouched(s, s', b) {
      assert Untouched(s, before, b);
      DemoteTouchesOne(before, s', a, chain, l', r, b);
    }
  }

  lemma DemoteTouchesOne(before: State, s': State, a: Address, chain: ChainState, l': List, r: Filtered, b: Address)
    requires Demoted(before, a, chain, l', r, s') && b != a
    ensures Untouched(before, s', b)
  {
    var nonce := chain.Nonce(a);
    OthersUntouched(before, s', a, if nonce in r.kept then r.kept else map[],
                    ItemsOf(before.queue, a) + r.invalids + if nonce in r.kept then map[] else r.kept, b);
  }

  lemma DemotedIsSettled(s: State, s': State, a: Address, chain: ChainState)
    requires AccountDemoted(s, s', a, chain)
    ensures Settled(s'.pending, a, chain)
  {
    var l', r :| Demotes(s, s', a, chain, l', r);
    FilterSplits(Forwarded(s, a, chain.Nonce(a)), chain.Balance(a), chain.maxGas, chain.issuers, l', r);
  }

  /** No account outside `rest` has an empty list. */
  ghost predicate NoneEmpty(lists: Lists, rest: set<Address>)
  {
    forall a | a in lists && a !in rest :: lists[a].items != map[]
  }

  lemma StillNoneEmpty(lists: Lists, lists': Lists, a: Address, m: Txs, rest: set<Address>)
    requires NoneEmpty(lists, rest) && Changed(lists, lists', a, m) && (a in lists' ==> lists'[a].items != map[])
    ensures NoneEmpty(lists', rest - {a})
  {
    forall b | b in lists' && b !in rest - {a} ensures lists'[b].items != map[] {
      assert b != a ==> b in lists' - {a} && lists'[b] == (lists' - {a})[b];
      assert b != a ==> b in lists - {a} && lists[b] == (lists - {a})[b];
    }
  }

  /** The loop of demoteUnexecutables, over the accounts in any order. */
  method DemoteAll(s: State, chain: ChainState, ghost priceBump: nat) returns (s': State)
    requires Inv(s)
    ensures Inv(s') && Spares(s.all, s'.all, chain, None) && NoneEmpty(s'.pending, {})
    ensures forall a {:trigger AccountDemoted(s, s', a, chain)} :: AccountDemoted(s, s', a, chain)
  {
    s' := s;
    var rest := s.pending.Keys;
    forall a | a !in rest ensures AccountDemoted(s, s', a, chain) { NoPendingDemoted(s, a, chain); }
    while rest != {}
      invariant Inv(s') && Sheds(s.all, s'.all) && Spares(s.all, s'.all, chain, None) && AllDemoted(s, s', chain, rest)
      invariant NoneEmpty(s'.pending, rest)
      decreases |rest|
    {
      var a :| a in rest;
      ghost var before := s';
      ghost var l', r;
      s', l', r := DemoteAccount(s', a, chain, priceBump);
      DemotedSheds(before, a, chain, l', r, s');
      DemotedSpares(before, a, chain, l', r, s');
      SparesTwice(s.all, before.all, s'.all, chain, None);
      DemoteStep(s, before, s', a, chain, l', r, rest);
      StillNoneEmpty(before.pending, s'.pending, a, if chain.Nonce(a) in r.kept then r.kept else map[], rest);
      rest := rest - {a};
    }
  }

  /** An account's queued transactions are not processed yet, and a remote account's are within its limit. */
  ghost predicate Bounded(queue: Lists, a: Address, chain: ChainState, local: bool, limit: nat) {
    && (forall n | n in ItemsOf(queue, a) :: n >= chain.Nonce(a))
    && (local || |ItemsOf(queue, a)| <= limit)
  }

  lemma PromotedBounds(s: State, a: Address, chain: ChainState, start: nat, local: bool, limit: nat,
                       l': List, r: Filtered, cut: nat, left: Txs, s': State)
    requires Promoted(s, a, chain, start, local, limit, l', r, cut, left, s')
    ensures Bounded(s'.queue, a, chain, local, limit) && Sheds(s.all, s'.all)
    ensures forall b | b != a :: ItemsOf(s'.queue, b) == ItemsOf(s.queue, b)
  {
    FilterSplits(ForwardedQueue(s, a, chain.Nonce(a)), chain.Balance(a), chain.maxGas, chain.issuers, l', r);
    CappedBounds(r.kept, cut, local, limit, left, chain.Nonce(a));
    assert ItemsOf(s'.queue, a) == left;
    ForgetSheds(s.all, Below(ItemsOf(s.queue, a), chain.Nonce(a)), r.removed, Rest(From(r.kept, cut), left));
  }

  lemma CappedBounds(kept: Txs, cut: nat, local: bool, limit: nat, left: Txs, chainNonce: nat)
    requires IsCapped(From(kept, cut), local, limit, left) && forall n | n in kept :: n >= chainNonce
    ensures (forall n | n in left :: n >= chainNonce) && (local || |left| <= limit)
  {
  }

  lemma ForgetSheds(all: map<nat, Tx>, a: Txs, b: Txs, c: Txs)
    ensures Sheds(all, Forget(Forget(Forget(all, a), b), c))
  {
  }

  /** A local account loses only dead transactions to promotion, and no other local account loses anything. */
  lemma PromotedSpares(s: State, a: Address, chain: ChainState, start: nat, locals: set<Address>, limit: nat,
                       l': List, r: Filtered, cut: nat, left: Txs, s': State)
    requires Inv(s) && Promoted(s, a, chain, start, a in locals, limit, l', r, cut, left, s')
    ensures Spares(s.all, s'.all, chain, Some(locals))
  {
    var rest := Rest(From(r.kept, cut), left);
    forall h | h in s.all && h !in s'.all && s.all[h].from in locals ensures Dead(s.all[h], chain) {
      if h in Hashes(PoolState.Values(rest)) {
        CappedIsRemote(s, a, chain, locals, limit, l', r, cut, left, h);
      } else {
        LostIsDead(s, a, chain, ItemsOf(s.queue, a), ForwardedQueue(s, a, chain.Nonce(a)), l', r, h);
      }
    }
  }

  lemma CappedIsRemote(s: State, a: Address, chain: ChainState, locals: set<Address>, limit: nat, l': List, r: Filtered,
                       cut: nat, left: Txs, h: nat)
    requires Inv(s) && IsFilter(ForwardedQueue(s, a, chain.Nonce(a)), chain.Balance(a), chain.maxGas, chain.issuers, l',
                                r)
    requires IsCapped(From(r.kept, cut), a in locals, limit, left)
             && h in Hashes(PoolState.Values(Rest(From(r.kept, cut), left)))
    ensures h in s.all && s.all[h].from !in locals
  {
    FilterSplits(ForwardedQueue(s, a, chain.Nonce(a)), chain.Balance(a), chain.maxGas, chain.issuers, l', r);
    ListedIsIndexed(s, a, Rest(From(r.kept, cut), left), h);
  }

  function NonceOf(nonces: map<Address, nat>, chain: ChainState, a: Address): nat {
    if a in nonces then nonces[a] else chain.Nonce(a)
  }

  /** What promotion makes of one account's two lists and its pending nonce. */
  ghost predicate AccountPromoted(s: State, s': State, a: Address, chain: ChainState, start: nat, local: bool,
                                  limit: nat, nonce: nat)
  {
    exists l', r, cut: nat, left :: Promotes(s, s', a, chain, start, local, limit, nonce, l', r, cut, left)
  }

  ghost predicate Promotes(s: State, s': State, a: Address, chain: ChainState, start: nat, local: bool, limit: nat,
                           nonce: nat, l': List, r: Filtered, cut: nat, left: Txs)
  {
    && IsFilter(ForwardedQueue(s, a, chain.Nonce(a)), chain.Balance(a), chain.maxGas, chain.issuers, l', r)
    && IsReady(r.kept, start, cut) && IsCapped(From(r.kept, cut), local, limit, left)
    && ItemsOf(s'.pending, a) == ItemsOf(s.pending, a) + Below(r.kept, cut) && ItemsOf(s'.queue, a) == left
    && Raised(PendingOf(s.pending, a), Below(r.kept, cut), PendingOf(s'.pending, a))
    && NonceAfter(start, nonce, Below(r.kept, cut))
  }

  /** The pending nonce moves to one past the last promoted transaction. */
  ghost predicate NonceAfter(start: nat, nonce: nat, ready: Txs) {
    if ready == map[] then nonce == start else exists last: nat :: IsLast(last, ready) && nonce == last + 1
  }

  method PromoteNext(s: State, nonces: map<Address, nat>, a: Address, chain: ChainState, locals: set<Address>,
                     limit: nat, ghost priceBump: nat) returns (s': State, nonces': map<Address, nat>)
    requires Inv(s)
    ensures Inv(s') && Sheds(s.all, s'.all) && Bounded(s'.queue, a, chain, a in locals, limit)
    ensures Spares(s.all, s'.all, chain, Some(locals))
    ensures forall b | b != a :: Untouched(s, s', b) && NonceOf(nonces', chain, b) == NonceOf(nonces, chain, b)
    ensures AccountPromoted(s, s', a, chain, NonceOf(nonces, chain, a), a in locals, limit, NonceOf(nonces', chain, a))
  {
    var start := NonceOf(nonces, chain, a);
    ghost var l', r, cut, left;
    var promoted, nonce;
    s', promoted, nonce, l', r, cut, left := PromoteAccount(s, a, chain, start, a in locals, limit, priceBump);
    PromotedBounds(s, a, chain, start, a in locals, limit, l', r, cut, left, s');
    PromotedSpares(s, a, chain, start, locals, limit, l', r, cut, left, s');
    nonces' := if promoted then nonces[a := nonce] else nonces;
    PromotedAccount(s, a, chain, start, a in locals, limit, l', r, cut, left, s', NonceOf(nonces', chain, a));
  }

  lemma PromotedAccount(s: State, a: Address, chain: ChainState, start: nat, local: bool, limit: nat,
                        l': List, r: Filtered, cut: nat, left: Txs, s': State, nonce: nat)
    requires Promoted(s, a, chain, start, local, limit, l', r, cut, left, s')
             && NonceAfter(start, nonce, Below(r.kept, cut))
    ensures AccountPromoted(s, s', a, chain, start, local, limit, nonce)
    ensures forall b | b != a :: Untouched(s, s', b)
  {
    assert Promotes(s, s', a, chain, start, local, limit, nonce, l', r, cut, left);
    forall b | b != a ensures Untouched(s, s', b) {
      OthersUntouched(s, s', a, ItemsOf(s.pending, a) + Below(r.kept, cut), left, b);
    }
  }

  ghost predicate AllBounded(queue: Lists, accounts: seq<Address>, chain: ChainState, locals: set<Address>, limit: nat)
  {
    forall a {:trigger Bounded(queue, a, chain, a in locals, limit)} | a in accounts ::
      Bounded(queue, a, chain, a in locals, limit)
  }

  lemma OneMoreBounded(queue: Lists, queue': Lists, accounts: seq<Address>, i: nat, chain: ChainState,
                       locals: set<Address>, limit: nat)
    requires i < |accounts| && AllBounded(queue, accounts[..i], chain, locals, limit)
    requires Bounded(queue', accounts[i], chain, accounts[i] in locals, limit)
    requires forall b {:trigger ItemsOf(queue', b)} | b != accounts[i] :: ItemsOf(queue', b) == ItemsOf(queue, b)
    ensures AllBounded(queue', accounts[..i + 1], chain, locals, limit)
  {
    forall a | a in accounts[..i + 1] ensures Bounded(queue', a, chain, a in locals, limit) {
      if a != accounts[i] {
        assert a in accounts[..i];
        assert Bounded(queue, a, chain, a in locals, limit);
      }
    }
  }

  ghost predicate PromotedIn(s: State, nonces: map<Address, nat>, s': State, nonces': map<Address, nat>, a: Address,
                             chain: ChainState, locals: set<Address>, limit: nat)
  {
    AccountPromoted(s, s', a, chain, NonceOf(nonces, chain, a), a in locals, limit, NonceOf(nonces', chain, a))
  }

  ghost predicate UntouchedIn(s: State, nonces: map<Address, nat>, s': State, nonces': map<Address, nat>, a: Address,
                              chain: ChainState)
  {
    Untouched(s, s', a) && NonceOf(nonces', chain, a) == NonceOf(nonces, chain, a)
  }

  /** The given accounts are promoted, all others untouched. */
  ghost predicate AllPromoted(s: State, nonces: map<Address, nat>, s': State, nonces': map<Address, nat>,
                              accounts: seq<Address>, chain: ChainState, locals: set<Address>, limit: nat)
  {
    && (forall a {:trigger PromotedIn(s, nonces, s', nonces', a, chain, locals, limit)} | a in accounts ::
          PromotedIn(s, nonces, s', nonces', a, chain, locals, limit))
    && (forall a {:trigger UntouchedIn(s, nonces, s', nonces', a, chain)} | a !in accounts ::
          UntouchedIn(s, nonces, s', nonces', a, chain))
  }

  lemma StillPromoted(s: State, nonces: map<Address, nat>, s1: State, nonces1: map<Address, nat>, s2: State,
                      nonces2: map<Address, nat>, b: Address, chain: ChainState, locals: set<Address>, limit: nat)
    requires PromotedIn(s, nonces, s1, nonces1, b, chain, locals, limit)
             && UntouchedIn(s1, nonces1, s2, nonces2, b, chain)
    ensures PromotedIn(s, nonces, s2, nonces2, b, chain, locals, limit)
  {
    var start, local, nonce := NonceOf(nonces, chain, b), b in locals, NonceOf(nonces1, chain, b);
    var l', r, cut: nat, left :| Promotes(s, s1, b, chain, start, local, limit, nonce, l', r, cut, left);
    assert Promotes(s, s2, b, chain, start, local, limit, nonce, l', r, cut, left);
  }

  lemma NowPromoted(s: State, nonces: map<Address, nat>, s1: State, nonces1: map<Address, nat>, s2: State,
                    nonces2: map<Address, nat>, a: Address, chain: ChainState, locals: set<Address>, limit: nat)
    requires UntouchedIn(s, nonces, s1, nonces1, a, chain)
             && PromotedIn(s1, nonces1, s2, nonces2, a, chain, locals, limit)
    ensures PromotedIn(s, nonces, s2, nonces2, a, chain, locals, limit)
  {
    var start, local, nonce := NonceOf(nonces, chain, a), a in locals, NonceOf(nonces2, chain, a);
    var l', r, cut: nat, left :| Promotes(s1, s2, a, chain, start, local, limit, nonce, l', r, cut, left);
    assert Promotes(s, s2, a, chain, start, local, limit, nonce, l', r, cut, left);
  }

  lemma PromoteStep(s: State, nonces: map<Address, nat>, s1: State, nonces1: map<Address, nat>, s2: State,
                    nonces2: map<Address, nat>, accounts: seq<Address>, i: nat, chain: ChainState, locals: set<Address>,
                    limit: nat)
    requires i < |accounts| && Distinct(accounts)
             && AllPromoted(s, nonces, s1, nonces1, accounts[..i], chain, locals, limit)
    requires PromotedIn(s1, nonces1, s2, nonces2, accounts[i], chain, locals, limit)
    requires forall b {:trigger UntouchedIn(s1, nonces1, s2, nonces2, b, chain)} | b != accounts[i] ::
               UntouchedIn(s1, nonces1, s2, nonces2, b, chain)
    ensures AllPromoted(s, nonces, s2, nonces2, accounts[..i + 1], chain, locals, limit)
  {
    assert accounts[..i + 1] == accounts[..i] + [accounts[i]] && accounts[i] !in accounts[..i];
    forall a | a in accounts[..i + 1] ensures PromotedIn(s, nonces, s2, nonces2, a, chain, locals, limit) {
      if a == accounts[i] {
        assert UntouchedIn(s, nonces, s1, nonces1, a, chain);
        NowPromoted(s, nonces, s1, nonces1, s2, nonces2, a, chain, locals, limit);
      } else {
        assert PromotedIn(s, nonces, s1, nonces1, a, chain, locals, limit)
          && UntouchedIn(s1, nonces1, s2, nonces2, a, chain);
        StillPromoted(s, nonces, s1, nonces1, s2, nonces2, a, chain, locals, limit);
      }
    }
    forall a | a !in accounts[..i + 1] ensures UntouchedIn(s, nonces, s2, nonces2, a, chain) {
      assert UntouchedIn(s, nonces, s1, nonces1, a, chain) && UntouchedIn(s1, nonces1, s2, nonces2, a, chain);
    }
  }

  /** The loop of promoteExecutables over the given accounts. */
  method PromoteEach(s: State, nonces: map<Address, nat>, accounts: seq<Address>, chain: ChainState,
                     locals: set<Address>, limit: nat, ghost priceBump: nat)
    returns (s': State, nonces': map<Address, nat>)
    requires Inv(s)
    ensures Inv(s') && AllBounded(s'.queue, accounts, chain, locals, limit)
            && Spares(s.all, s'.all, chain, Some(locals))
    ensures Sheds(s.all, s'.all)
    ensures Distinct(accounts) ==> AllPromoted(s, nonces, s', nonces', accounts, chain, locals, limit)
    ensures KeepsIntervals(s.pending, nonces, s'.pending, nonces', chain)
  {
    s', nonces' := s, nonces;
    for i := 0 to |accounts|
      invariant Inv(s') && Sheds(s.all, s'.all) && AllBounded(s'.queue, accounts[..i], chain, locals, limit)
      invariant Spares(s.all, s'.all, chain, Some(locals))
      invariant Distinct(accounts) ==> AllPromoted(s, nonces, s', nonces', accounts[..i], chain, locals, limit)
      invariant KeepsIntervals(s.pending, nonces, s'.pending, nonces', chain)
    {
      ghost var before, noncesBefore := s', nonces';
      s', nonces' := PromoteNext(s', nonces', accounts[i], chain, locals, limit, priceBump);
      PromoteStepAll(s, nonces, before, noncesBefore, s', nonces', accounts, i, chain, locals, limit);
      PromoteKeepsIntervals(before, noncesBefore, s', nonces', accounts[i], chain, accounts[i] in locals, limit);
      KeepsTwice(s.pending, nonces, before.pending, noncesBefore, s'.pending, nonces', chain);
    }
    assert accounts[..|accounts|] == accounts;
  }

  lemma PromoteStepAll(s: State, nonces: map<Address, nat>, s1: State, nonces1: map<Address, nat>, s2: State,
                       nonces2: map<Address, nat>, accounts: seq<Address>, i: nat, chain: ChainState,
                       locals: set<Address>, limit: nat)
    requires i < |accounts| && AllBounded(s1.queue, accounts[..i], chain, locals, limit)
    requires Sheds(s.all, s1.all) && Spares(s.all, s1.all, chain, Some(locals))
             && Spares(s1.all, s2.all, chain, Some(locals))
    requires Distinct(accounts) ==> AllPromoted(s, nonces, s1, nonces1, accounts[..i], chain, locals, limit)
    requires Bounded(s2.queue, accounts[i], chain, accounts[i] in locals, limit)
    requires AccountPromoted(s1, s2, accounts[i], chain, NonceOf(nonces1, chain, accounts[i]), accounts[i] in locals,
                             limit,
                             NonceOf(nonces2, chain, accounts[i]))
    requires forall b | b != accounts[i] ::
               Untouched(s1, s2, b) && NonceOf(nonces2, chain, b) == NonceOf(nonces1, chain, b)
    ensures AllBounded(s2.queue, accounts[..i + 1], chain, locals, limit) && Spares(s.all, s2.all, chain, Some(locals))
    ensures Distinct(accounts) ==> AllPromoted(s, nonces, s2, nonces2, accounts[..i + 1], chain, locals, limit)
  {
    SparesTwice(s.all, s1.all, s2.all, chain, Some(locals));
    forall b | b != accounts[i] ensures ItemsOf(s2.queue, b) == ItemsOf(s1.queue, b) { assert Untouched(s1, s2, b); }
    OneMoreBounded(s1.queue, s2.queue, accounts, i, chain, locals, limit);
    if Distinct(accounts) {
      forall b | b != accounts[i] ensures UntouchedIn(s1, nonces1, s2, nonces2, b, chain) {
        assert Untouched(s1, s2, b);
      }
      PromoteStep(s, nonces, s1, nonces1, s2, nonces2, accounts, i, chain, locals, limit);
    }
  }

  // ---------- Eviction ----------

  function AccountsOf(pending: Lists, nonces: map<Address, nat>, chain: ChainState): Eviction.Accounts {
    map a | a in pending :: Eviction.Account(pending[a].items, NonceOf(nonces, chain, a))
  }

  function WithAccounts(pending: Lists, accounts: Eviction.Accounts): Lists {
    map a | a in pending && a in accounts :: pending[a].(items := accounts[a].txs)
  }

  function WithNonces(nonces: map<Address, nat>, accounts: Eviction.Accounts): map<Address, nat> {
    nonces + map a | a in accounts :: accounts[a].nonce
  }

  lemma AccountsBack(pending: Lists, nonces: map<Address, nat>, chain: ChainState, accounts: Eviction.Accounts)
    requires accounts.Keys == pending.Keys
    ensures AccountsOf(WithAccounts(pending, accounts), WithNonces(nonces, accounts), chain) == accounts
  {
  }

  lemma EvictedTaken(s: State, accounts0: Eviction.Accounts, locals: set<Address>, level: nat,
                     accounts: Eviction.Accounts)
    requires Inv(s) && accounts0.Keys == s.pending.Keys && forall a | a in s.pending ::
               accounts0[a].txs == s.pending[a].items
    requires Eviction.AtLevel(accounts0, locals, level, accounts)
    ensures Taken(s, s.(pending := WithAccounts(s.pending, accounts)), Eviction.Gone(accounts0, accounts))
  {
    var pending' := WithAccounts(s.pending, accounts);
    forall a, n | n in ItemsOf(pending', a)
      ensures n in ItemsOf(s.pending, a) && ItemsOf(s.pending, a)[n] == ItemsOf(pending', a)[n]
    {
      Eviction.LevelMeans(accounts0, locals, level, accounts, a);
    }
    forall t ensures t in Eviction.Gone(accounts0, accounts) <==> InList(s.pending, t) && !InList(pending', t) {
      EvictedGone(s.pending, accounts0, accounts, t);
    }
  }

  lemma EvictedGone(pending: Lists, accounts0: Eviction.Accounts, accounts: Eviction.Accounts, t: Tx)
    requires Filed(pending) && accounts0.Keys == pending.Keys == accounts.Keys
    requires forall a | a in pending :: accounts0[a].txs == pending[a].items
    requires Shrunk(pending, WithAccounts(pending, accounts))
    ensures t in Eviction.Gone(accounts0, accounts) <==>
              InList(pending, t) && !InList(WithAccounts(pending, accounts), t)
  {
    var pending' := WithAccounts(pending, accounts);
    assert FiledAt(pending, t.from);
    if t in Eviction.Gone(accounts0, accounts) {
      var a, n :| a in accounts0 && n in accounts0[a].txs && !(a in accounts && n in accounts[a].txs)
        && t == accounts0[a].txs[n];
      assert FiledAt(pending, a) && ItemsOf(pending, a)[n] == t;
    } else if InList(pending, t) {
      assert accounts0[t.from].txs[t.nonce] == t;
      assert t.nonce in accounts[t.from].txs;
      assert ItemsOf(pending', t.from)[t.nonce] == ItemsOf(pending, t.from)[t.nonce];
    }
  }

  lemma EvictionSpares(s: State, accounts0: Eviction.Accounts, locals: set<Address>, level: nat,
                       accounts: Eviction.Accounts, chain: ChainState)
    requires Inv(s) && accounts0.Keys == s.pending.Keys && forall a | a in s.pending ::
               accounts0[a].txs == s.pending[a].items
    requires Eviction.AtLevel(accounts0, locals, level, accounts)
    ensures Spares(s.all, s.all - Hashes(Eviction.Gone(accounts0, accounts)), chain, Some(locals))
  {
    forall t | t in Eviction.Gone(accounts0, accounts) ensures t.from !in locals && InAll(s.all, t) {
      var a, n :| a in accounts0 && n in accounts0[a].txs && !(a in accounts && n in accounts[a].txs)
        && t == accounts0[a].txs[n];
      Eviction.LevelMeans(accounts0, locals, level, accounts, a);
      assert FiledAt(s.pending, a) && ItemsOf(s.pending, a)[n] == t;
      assert Member(s, {}, t);
    }
  }

  /**
   The pending part of the limits of promoteExecutables: the pool invariant is kept, and the pending lists end
   at an eviction level.
   */
  method EvictPending(s: State, nonces: map<Address, nat>, chain: ChainState, locals: set<Address>, globalSlots: nat,
                      accountSlots: nat)
    returns (s': State, nonces': map<Address, nat>, ghost level: nat)
    requires Inv(s)
    ensures Inv(s') && s'.queue == s.queue && Sheds(s.all, s'.all) && accountSlots <= level
    ensures Spares(s.all, s'.all, chain, Some(locals))
    ensures Eviction.AtLevel(AccountsOf(s.pending, nonces, chain), locals, level,
                             AccountsOf(s'.pending, nonces', chain))
    ensures Eviction.Count(AccountsOf(s'.pending, nonces', chain)) <= globalSlots || level == accountSlots
    ensures AccountsOf(s'.pending, nonces', chain) == AccountsOf(s.pending, nonces, chain)
            || Eviction.Overfull(AccountsOf(s.pending, nonces, chain), locals, level + 1, globalSlots)
    ensures Eviction.Count(AccountsOf(s.pending, nonces, chain)) <= globalSlots ==>
              AccountsOf(s'.pending, nonces', chain) == AccountsOf(s.pending, nonces, chain)
    ensures SameBounds(s.pending, nonces, s'.pending, nonces', chain)
    ensures KeepsIntervals(s.pending, nonces, s'.pending, nonces', chain)
  {
    var accounts0 := AccountsOf(s.pending, nonces, chain);
    var accounts, dropped;
    accounts, dropped, level := Eviction.Evict(accounts0, locals, globalSlots, accountSlots);
    EvictedTaken(s, accounts0, locals, level, accounts);
    s' := State(WithAccounts(s.pending, accounts), s.queue, s.all - Hashes(dropped));
    TakeKeeps(s, {}, s.(pending := s'.pending), dropped);
    ForgetKeeps(s.(pending := s'.pending), {} + dropped, dropped);
    nonces' := WithNonces(nonces, accounts);
    AccountsBack(s.pending, nonces, chain, accounts);
    EvictionSpares(s, accounts0, locals, level, accounts, chain);
    EvictKeepsIntervals(s.pending, nonces, chain, locals, level, accounts);
    EvictKeepsBounds(s.pending, nonces, chain, accounts);
  }

  /** The lists' cached bounds are as before, and so is the nonce of an account without a list. */
  ghost predicate SameBounds(pending: Lists, nonces: map<Address, nat>, pending': Lists, nonces': map<Address, nat>,
                             chain: ChainState)
  {
    && (forall a {:trigger PendingOf(pending', a)} ::
          PendingOf(pending', a) == PendingOf(pending, a).(items := ItemsOf(pending', a)))
    && (forall a {:trigger NonceOf(nonces', chain, a)} | a !in pending ::
          NonceOf(nonces', chain, a) == NonceOf(nonces, chain, a))
  }

  lemma EvictKeepsBounds(pending: Lists, nonces: map<Address, nat>, chain: ChainState, accounts: Eviction.Accounts)
    requires accounts.Keys == pending.Keys
    ensures SameBounds(pending, nonces, WithAccounts(pending, accounts), WithNonces(nonces, accounts), chain)
  {
  }

  // ---------- promoteExecutables as a whole ----------

  /** The pool's lists and pending nonces. */
  datatype Stage = Stage(s: State, nonces: map<Address, nat>)

  /** The pool's configuration. */
  datatype Limits = Limits(accountSlots: nat, globalSlots: nat, accountQueue: nat, globalQueue: nat)

  /**
   What promoteExecutables does: the given accounts are promoted, which leads to `mid`; then the pending lists are
   evicted to a level, and the queue is cut to its limit.
   */
  ghost predicate Executes(from: Stage, accounts: seq<Address>, chain: ChainState, locals: set<Address>,
                           beats: map<Address, nat>, limits: Limits, mid: Stage, level: nat, to: Stage)
  {
    && (Distinct(accounts) ==> AllPromoted(from.s, from.nonces, mid.s, mid.nonces, accounts, chain, locals,
                                           limits.accountQueue))
    && AllBounded(to.s.queue, accounts, chain, locals, limits.accountQueue)
    && QueueLimit.Limited(mid.s.queue, to.s.queue, locals, beats, limits.globalQueue)
    && EvictsTo(mid.s.pending, mid.nonces, chain, locals, limits, level, to.s.pending, to.nonces)
    && SameBounds(mid.s.pending, mid.nonces, to.s.pending, to.nonces, chain)
  }

  /**
   Remote lists are cut to a level, no lower than needed; then
   everything fits, or they are down to their guaranteed slots.
   */
  ghost predicate EvictsTo(pending: Lists, nonces: map<Address, nat>, chain: ChainState, locals: set<Address>,
                           limits: Limits, level: nat, pending': Lists, nonces': map<Address, nat>)
  {
    var before, after := AccountsOf(pending, nonces, chain), AccountsOf(pending', nonces', chain);
    && Eviction.AtLevel(before, locals, level, after) && limits.accountSlots <= level
    && (after == before || Eviction.Overfull(before, locals, level + 1, limits.globalSlots))
    && (Eviction.Count(before) <= limits.globalSlots ==> after == before)
    && (|| Eviction.Count(after) <= limits.globalSlots
        || forall a | a in pending' && a !in locals :: |pending'[a].items| <= limits.accountSlots)
  }

  /** What is safe from one stage to the next: invariant, intervals, and what the local accounts still need. */
  ghost predicate Safe(from: Stage, to: Stage, chain: ChainState, locals: set<Address>) {
    && Inv(from.s) && Inv(to.s) && KeepsIntervals(from.s.pending, from.nonces, to.s.pending, to.nonces, chain)
    && Spares(from.s.all, to.s.all, chain, Some(locals))
  }

  method Execute(from: Stage, accounts: seq<Address>, chain: ChainState, locals: set<Address>, beats: map<Address, nat>,
                 limits: Limits, ghost priceBump: nat)
    returns (to: Stage, ghost mid: Stage, ghost level: nat)
    requires Inv(from.s)
    ensures Executes(from, accounts, chain, locals, beats, limits, mid, level, to) && Safe(from, to, chain, locals)
  {
    var s1, nonces1 := PromoteEach(from.s, from.nonces, accounts, chain, locals, limits.accountQueue, priceBump);
    mid := Stage(s1, nonces1);
    var s2, nonces2;
    s2, nonces2, level := EvictPending(s1, nonces1, chain, locals, limits.globalSlots, limits.accountSlots);
    SparesTwice(from.s.all, s1.all, s2.all, chain, Some(locals));
    KeepsTwice(from.s.pending, from.nonces, s1.pending, nonces1, s2.pending, nonces2, chain);
    LevelBounds(s1.pending, nonces1, s2.pending, nonces2, chain, locals, level);
    var s3 := QueueLimit.LimitQueue(s2, locals, beats, limits.globalQueue);
    LimitKeeps(from.s.all, s2, s3, accounts, chain, locals, beats, limits.accountQueue, limits.globalQueue);
    to := Stage(s3, nonces2);
  }

  // ---------- Pending lists without gaps ----------

  /** The account's pending transactions are exactly those from its chain nonce up to its pending nonce. */
  ghost predicate Gapless(pending: Lists, nonces: map<Address, nat>, chain: ChainState, a: Address) {
    Interval(ItemsOf(pending, a), chain.Nonce(a), NonceOf(nonces, chain, a))
  }

  ghost predicate Interval(m: Txs, lo: nat, hi: nat) { lo <= hi && forall n: nat :: n in m <==> lo <= n < hi }

  /** If the pending nonce is past the chain nonce, then the transaction with the chain nonce is pending. */
  ghost predicate Anchored(pending: Lists, nonces: map<Address, nat>, chain: ChainState, a: Address) {
    NonceOf(nonces, chain, a) > chain.Nonce(a) ==> chain.Nonce(a) in ItemsOf(pending, a)
  }

  ghost predicate KeepsInterval(pending: Lists, nonces: map<Address, nat>, pending': Lists, nonces': map<Address, nat>,
                                chain: ChainState, a: Address) {
    && (Gapless(pending, nonces, chain, a) ==> Gapless(pending', nonces', chain, a))
    && (Anchored(pending, nonces, chain, a) ==> Anchored(pending', nonces', chain, a))
  }

  /** Under a fixed chain state, every account that was an interval still is. */
  ghost predicate KeepsIntervals(pending: Lists, nonces: map<Address, nat>, pending': Lists, nonces': map<Address, nat>,
                                 chain: ChainState)
  {
    forall a {:trigger KeepsInterval(pending, nonces, pending', nonces', chain, a)} ::
      KeepsInterval(pending, nonces, pending', nonces', chain, a)
  }

  lemma KeepsTwice(pending: Lists, nonces: map<Address, nat>, pending1: Lists, nonces1: map<Address, nat>,
                   pending2: Lists, nonces2: map<Address, nat>, chain: ChainState)
    requires KeepsIntervals(pending, nonces, pending1, nonces1, chain)
             && KeepsIntervals(pending1, nonces1, pending2, nonces2, chain)
    ensures KeepsIntervals(pending, nonces, pending2, nonces2, chain)
  {
    forall a ensures KeepsInterval(pending, nonces, pending2, nonces2, chain, a) {
      assert KeepsInterval(pending, nonces, pending1, nonces1, chain, a)
        && KeepsInterval(pending1, nonces1, pending2, nonces2, chain, a);
    }
  }

  /** What is ready in the queue continues the pending list. */
  lemma ReadyContinues(m: Txs, kept: Txs, chainNonce: nat, start: nat, cut: nat, nonce: nat)
    requires Interval(m, chainNonce, start) && IsReady(kept, start, cut) && NonceAfter(start, nonce, Below(kept, cut))
    requires forall n | n in kept :: n >= chainNonce && n !in m
    ensures Interval(m + Below(kept, cut), chainNonce, nonce)
  {
    var ready := Below(kept, cut);
    if exists k :: k in kept && k <= start {
      var lowest: nat :| IsLowest(lowest, kept) && lowest < cut && Consecutive(kept, lowest, cut);
      assert lowest == start;
      assert cut - 1 in ready;
      var last: nat :| IsLast(last, ready) && nonce == last + 1;
      assert last == cut - 1;
    } else {
      assert ready == map[];
    }
  }

  /** What Filter keeps of a queue is not pending, and not below the chain nonce. */
  lemma KeptIsNew(s: State, a: Address, chain: ChainState, l': List, r: Filtered)
    requires Inv(s) && IsFilter(ForwardedQueue(s, a, chain.Nonce(a)), chain.Balance(a), chain.maxGas, chain.issuers, l',
                                r)
    ensures forall n | n in r.kept :: n >= chain.Nonce(a) && n !in ItemsOf(s.pending, a) && n in ItemsOf(s.queue, a)
  {
    FilterSplits(ForwardedQueue(s, a, chain.Nonce(a)), chain.Balance(a), chain.maxGas, chain.issuers, l', r);
    assert Apart(s, a);
  }

  lemma PromoteKeepsIntervals(s: State, nonces: map<Address, nat>, s': State, nonces': map<Address, nat>, a: Address,
                              chain: ChainState, local: bool, limit: nat)
    requires Inv(s)
    requires AccountPromoted(s, s', a, chain, NonceOf(nonces, chain, a), local, limit, NonceOf(nonces', chain, a))
    requires forall b | b != a :: Untouched(s, s', b) && NonceOf(nonces', chain, b) == NonceOf(nonces, chain, b)
    ensures KeepsIntervals(s.pending, nonces, s'.pending, nonces', chain)
  {
    forall b ensures KeepsInterval(s.pending, nonces, s'.pending, nonces', chain, b) {
      if b == a {
        if Gapless(s.pending, nonces, chain, a) { PromotedGapless(s, nonces, s', nonces', a, chain, local, limit); }
        if Anchored(s.pending, nonces, chain, a) { PromotedAnchored(s, nonces, s', nonces', a, chain, local, limit); }
      } else {
        assert Untouched(s, s', b);
      }
    }
  }

  lemma PromotedAnchored(s: State, nonces: map<Address, nat>, s': State, nonces': map<Address, nat>, a: Address,
                         chain: ChainState, local: bool, limit: nat)
    requires Inv(s) && Anchored(s.pending, nonces, chain, a)
    requires AccountPromoted(s, s', a, chain, NonceOf(nonces, chain, a), local, limit, NonceOf(nonces', chain, a))
    ensures Anchored(s'.pending, nonces', chain, a)
  {
    var start, nonce := NonceOf(nonces, chain, a), NonceOf(nonces', chain, a);
    var l', r, cut: nat, left :| Promotes(s, s', a, chain, start, local, limit, nonce, l', r, cut, left);
    KeptIsNew(s, a, chain, l', r);
    ReadyAnchors(r.kept, chain.Nonce(a), start, cut);
  }

  lemma ReadyAnchors(kept: Txs, chainNonce: nat, start: nat, cut: nat)
    requires IsReady(kept, start, cut) && forall n | n in kept :: n >= chainNonce
    ensures Below(kept, cut) != map[] && start <= chainNonce ==> chainNonce in Below(kept, cut)
  {
    if exists k :: k in kept && k <= start {
      var lowest: nat :| IsLowest(lowest, kept) && lowest < cut && Consecutive(kept, lowest, cut);
    } else {
      assert Below(kept, cut) == map[];
    }
  }

  lemma PromotedGapless(s: State, nonces: map<Address, nat>, s': State, nonces': map<Address, nat>, a: Address,
                        chain: ChainState, local: bool, limit: nat)
    requires Inv(s) && Gapless(s.pending, nonces, chain, a)
    requires AccountPromoted(s, s', a, chain, NonceOf(nonces, chain, a), local, limit, NonceOf(nonces', chain, a))
    ensures Gapless(s'.pending, nonces', chain, a)
  {
    var start, nonce := NonceOf(nonces, chain, a), NonceOf(nonces', chain, a);
    var l', r, cut: nat, left :| Promotes(s, s', a, chain, start, local, limit, nonce, l', r, cut, left);
    KeptIsNew(s, a, chain, l', r);
    ReadyContinues(ItemsOf(s.pending, a), r.kept, chain.Nonce(a), start, cut, nonce);
  }

  /** An eviction takes a gap-free list back to a shorter one. */
  lemma EvictedGapless(x0: Eviction.Account, x: Eviction.Account, chainNonce: nat)
    requires Eviction.Evicted(x0, x) && Interval(x0.txs, chainNonce, x0.nonce)
    ensures Interval(x.txs, chainNonce, x.nonce)
  {
  }

  lemma EvictKeepsIntervals(pending: Lists, nonces: map<Address, nat>, chain: ChainState, locals: set<Address>,
                            level: nat, accounts: Eviction.Accounts)
    requires Eviction.AtLevel(AccountsOf(pending, nonces, chain), locals, level, accounts)
    ensures KeepsIntervals(pending, nonces, WithAccounts(pending, accounts), WithNonces(nonces, accounts), chain)
  {
    var pending', nonces' := WithAccounts(pending, accounts), WithNonces(nonces, accounts);
    forall a ensures KeepsInterval(pending, nonces, pending', nonces', chain, a) {
      EvictedAccount(pending, nonces, chain, locals, level, accounts, a);
    }
  }

  lemma EvictedAccount(pending: Lists, nonces: map<Address, nat>, chain: ChainState, locals: set<Address>, level: nat,
                       accounts: Eviction.Accounts, a: Address)
    requires Eviction.AtLevel(AccountsOf(pending, nonces, chain), locals, level, accounts)
    ensures KeepsInterval(pending, nonces, WithAccounts(pending, accounts), WithNonces(nonces, accounts), chain, a)
  {
    if a in pending {
      var accounts0 := AccountsOf(pending, nonces, chain);
      Eviction.LevelMeans(accounts0, locals, level, accounts, a);
      if a !in locals && Gapless(pending, nonces, chain, a) {
        EvictedGapless(accounts0[a], accounts[a], chain.Nonce(a));
      }
      assert ItemsOf(WithAccounts(pending, accounts), a) == accounts[a].txs;
    }
  }

  /** Cutting the queue keeps the bounds on each account's part of it, and the local transactions. */
  lemma LimitKeeps(all0: map<nat, Tx>, s: State, s': State, accounts: seq<Address>, chain: ChainState,
                   locals: set<Address>, beats: map<Address, nat>, limit: nat, globalQueue: nat)
    requires AllBounded(s.queue, accounts, chain, locals, limit) && Spares(all0, s.all, chain, Some(locals))
             && Sheds(all0, s.all)
    requires QueueLimit.Limited(s.queue, s'.queue, locals, beats, globalQueue)
             && QueueLimit.Loses(s.all, s'.all, locals)
    ensures AllBounded(s'.queue, accounts, chain, locals, limit) && Spares(all0, s'.all, chain, Some(locals))
  {
    assert Spares(s.all, s'.all, chain, Some(locals));
    SparesTwice(all0, s.all, s'.all, chain, Some(locals));
    forall a | a in accounts ensures Bounded(s'.queue, a, chain, a in locals, limit) {
      assert Bounded(s.queue, a, chain, a in locals, limit) && QueueLimit.LowestStay(s.queue, s'.queue, a);
      SubsetSize(ItemsOf(s'.queue, a).Keys, ItemsOf(s.queue, a).Keys);
    }
  }

  lemma LevelBounds(pending: Lists, nonces: map<Address, nat>, pending': Lists, nonces': map<Address, nat>,
                    chain: ChainState, locals: set<Address>, level: nat)
    requires Eviction.AtLevel(AccountsOf(pending, nonces, chain), locals, level, AccountsOf(pending', nonces', chain))
    ensures forall a | a in pending' && a !in locals :: |pending'[a].items| <= level
  {
    forall a | a in pending' && a !in locals ensures |pending'[a].items| <= level {
      assert a in AccountsOf(pending', nonces', chain);
      Eviction.LevelMeans(AccountsOf(pending, nonces, chain), locals, level, AccountsOf(pending', nonces', chain), a);
    }
  }
}
