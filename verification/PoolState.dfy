/**
 The transaction pool (core/tx_pool.go): every pooled transaction sits in exactly one of the pending and
 queued lists, under its sender and nonce, and `all` indexes exactly those transactions by hash.
 */
module PoolState {
  import opened Basics
  import opened TxMap
  import opened TxList

  type Lists = map<Address, List>

  datatype State = State(pending: Lists, queue: Lists, all: map<nat, Tx>)

  /** The transactions listed for an account; accounts without a list have none. */
  function ItemsOf(lists: Lists, a: Address): Txs { if a in lists then lists[a].items else map[] }

  predicate InList(lists: Lists, t: Tx) {
    t.nonce in ItemsOf(lists, t.from) && ItemsOf(lists, t.from)[t.nonce] == t
  }

  predicate InAll(all: map<nat, Tx>, t: Tx) { t.hash in all && all[t.hash] == t }

  // ---------- The invariant ----------

  ghost predicate FiledAt(lists: Lists, a: Address) {
    forall n | n in ItemsOf(lists, a) :: ItemsOf(lists, a)[n].from == a && ItemsOf(lists, a)[n].nonce == n
  }

  /** Every transaction is filed under its sender and nonce. */
  ghost predicate Filed(lists: Lists) {
    forall a {:trigger FiledAt(lists, a)} :: FiledAt(lists, a)
  }

  /** A transaction the pool knows: listed, or taken out of its list by an operation that has not finished. */
  ghost predicate Member(s: State, loose: set<Tx>, t: Tx) {
    InList(s.pending, t) || InList(s.queue, t) || t in loose
  }

  /** `all` indexes exactly the members, by hash. */
  ghost predicate Indexed(s: State, loose: set<Tx>) {
    && (forall h {:trigger s.all[h]} | h in s.all :: s.all[h].hash == h)
    && (forall t {:trigger InAll(s.all, t)} :: InAll(s.all, t) <==> Member(s, loose, t))
  }

  ghost predicate Apart(s: State, a: Address) {
    forall n | n in ItemsOf(s.pending, a) :: n !in ItemsOf(s.queue, a)
  }

  ghost predicate Free(s: State, t: Tx) {
    t.nonce !in ItemsOf(s.pending, t.from) && t.nonce !in ItemsOf(s.queue, t.from)
  }

  ghost predicate SamePlace(t: Tx, u: Tx) { t.from == u.from && t.nonce == u.nonce }

  /** No two members share a sender and nonce. */
  ghost predicate Exclusive(s: State, loose: set<Tx>) {
    && (forall a {:trigger Apart(s, a)} :: Apart(s, a))
    && (forall t {:trigger Free(s, t)} | t in loose :: Free(s, t))
    && (forall t, u {:trigger SamePlace(t, u)} | t in loose && u in loose && SamePlace(t, u) :: t == u)
  }

  ghost predicate Holds(s: State, loose: set<Tx>) {
    Filed(s.pending) && Filed(s.queue) && Indexed(s, loose) && Exclusive(s, loose)
  }

  /** The pool invariant between operations. */
  ghost predicate Inv(s: State) { Holds(s, {}) }

  // ---------- Elementary changes ----------

  /** The lists of account `a` now hold `m`; other accounts are as before. */
  ghost predicate Changed(lists: Lists, lists': Lists, a: Address, m: Txs) {
    && (forall b {:trigger ItemsOf(lists', b)} :: ItemsOf(lists', b) == if b == a then m else ItemsOf(lists, b))
    && lists' - {a} == lists - {a}
  }

  /** Every account keeps a part of what it had. */
  ghost predicate Shrunk(lists: Lists, lists': Lists) {
    forall a, n {:trigger ItemsOf(lists', a)[n]} | n in ItemsOf(lists', a) ::
      n in ItemsOf(lists, a) && ItemsOf(lists, a)[n] == ItemsOf(lists', a)[n]
  }

  /** `taken` is exactly what the lists lost. */
  ghost predicate Taken(s: State, s': State, taken: set<Tx>) {
    && Shrunk(s.pending, s'.pending) && Shrunk(s.queue, s'.queue) && s'.all == s.all
    && forall t :: t in taken <==>
         (InList(s.pending, t) && !InList(s'.pending, t)) || (InList(s.queue, t) && !InList(s'.queue, t))
  }

  lemma ShrunkFiled(lists: Lists, lists': Lists)
    requires Filed(lists) && Shrunk(lists, lists')
    ensures Filed(lists')
    ensures forall t | InList(lists', t) :: InList(lists, t)
  {
    forall a ensures FiledAt(lists', a) { assert FiledAt(lists, a); }
  }

  lemma TakeKeeps(s: State, loose: set<Tx>, s': State, taken: set<Tx>)
    requires Holds(s, loose) && Taken(s, s', taken)
    ensures Holds(s', loose + taken)
  {
    ShrunkFiled(s.pending, s'.pending);
    ShrunkFiled(s.queue, s'.queue);
    forall a ensures Apart(s', a) { assert Apart(s, a); }
    forall t | t in loose + taken ensures Free(s', t) {
      if t in loose { assert Free(s, t); } else { assert Apart(s, t.from); }
    }
    forall t, u | t in loose + taken && u in loose + taken && SamePlace(t, u) ensures t == u {
      if t in loose { assert Free(s, t); }
      if u in loose { assert Free(s, u); }
      assert Apart(s, t.from);
    }
    forall t ensures InAll(s'.all, t) <==> Member(s', loose + taken, t) {
      assert InAll(s.all, t) <==> Member(s, loose, t);
    }
  }

  function Hashes(txs: set<Tx>): set<nat> { set t | t in txs :: t.hash }

  lemma ForgetKeeps(s: State, loose: set<Tx>, gone: set<Tx>)
    requires Holds(s, loose) && gone <= loose
    ensures Holds(s.(all := s.all - Hashes(gone)), loose - gone)
  {
    var s' := s.(all := s.all - Hashes(gone));
    forall a ensures Apart(s', a) { assert Apart(s, a); }
    forall t | t in loose - gone ensures Free(s', t) { assert Free(s, t); }
    forall t | t in gone ensures InAll(s.all, t) { assert Member(s, loose, t); }
    forall t ensures InAll(s'.all, t) <==> Member(s', loose - gone, t) {
      assert InAll(s.all, t) <==> Member(s, loose, t);
      if t in gone { assert t.hash in Hashes(gone); assert Free(s, t); }
    }
  }

  lemma ChangedFiled(lists: Lists, lists': Lists, t: Tx)
    requires Filed(lists) && Changed(lists, lists', t.from, ItemsOf(lists, t.from)[t.nonce := t])
    requires t.nonce !in ItemsOf(lists, t.from)
    ensures Filed(lists')
    ensures forall u :: InList(lists', u) <==> InList(lists, u) || u == t
  {
    forall a ensures FiledAt(lists', a) { assert FiledAt(lists, a); }
  }

  /** A loose transaction goes into one of the lists. */
  lemma PlaceKeeps(s: State, loose: set<Tx>, t: Tx, s': State)
    requires Holds(s, loose) && t in loose && s'.all == s.all
    requires
      || (s'.queue == s.queue && Changed(s.pending, s'.pending, t.from, ItemsOf(s.pending, t.from)[t.nonce := t]))
      || (s'.pending == s.pending && Changed(s.queue, s'.queue, t.from, ItemsOf(s.queue, t.from)[t.nonce := t]))
    ensures Holds(s', loose - {t})
  {
    assert Free(s, t);
    if s'.queue == s.queue && Changed(s.pending, s'.pending, t.from, ItemsOf(s.pending, t.from)[t.nonce := t]) {
      ChangedFiled(s.pending, s'.pending, t);
    } else {
      ChangedFiled(s.queue, s'.queue, t);
    }
    PlaceApart(s, loose, t, s');
    forall u ensures InAll(s'.all, u) <==> Member(s', loose - {t}, u) {
      assert InAll(s.all, u) <==> Member(s, loose, u);
    }
  }

  lemma PlaceApart(s: State, loose: set<Tx>, t: Tx, s': State)
    requires Exclusive(s, loose) && t in loose
    requires
      || (s'.queue == s.queue && Changed(s.pending, s'.pending, t.from, ItemsOf(s.pending, t.from)[t.nonce := t]))
      || (s'.pending == s.pending && Changed(s.queue, s'.queue, t.from, ItemsOf(s.queue, t.from)[t.nonce := t]))
    ensures Exclusive(s', loose - {t})
  {
    assert Free(s, t);
    forall a ensures Apart(s', a) { assert Apart(s, a); }
    forall u | u in loose - {t} ensures Free(s', u) { assert Free(s, u); assert !SamePlace(t, u); }
  }

  /** A new transaction with a free place enters the pool, still without a list. */
  lemma InsertKeeps(s: State, loose: set<Tx>, t: Tx)
    requires Holds(s, loose) && t.hash !in s.all && Free(s, t) && forall u | u in loose :: !SamePlace(t, u)
    ensures Holds(s.(all := s.all[t.hash := t]), loose + {t})
  {
    var s' := s.(all := s.all[t.hash := t]);
    forall a ensures Apart(s', a) { assert Apart(s, a); }
    forall u | u in loose + {t} ensures Free(s', u) { assert Free(s, u); }
    forall u ensures InAll(s'.all, u) <==> Member(s', loose + {t}, u) {
      assert InAll(s.all, u) <==> Member(s, loose, u);
    }
  }

  // ---------- Lists ----------

  function QueueOf(lists: Lists, a: Address): List { if a in lists then lists[a] else EMPTY_QUEUE }

  function PendingOf(lists: Lists, a: Address): List { if a in lists then lists[a] else EMPTY_PENDING }

  /** Store a list, or delete the account's entry when it became empty. */
  function Store(lists: Lists, a: Address, l: List): (lists': Lists)
    ensures ItemsOf(lists', a) == l.items
  {
    if |l.items| == 0 then
      assert l.items.Keys == {};
      lists - {a}
    else lists[a := l]
  }

  lemma PutChanges(lists: Lists, a: Address, l: List)
    ensures Changed(lists, lists[a := l], a, l.items)
  {
    assert lists[a := l] - {a} == lists - {a};
  }

  lemma DeleteChanges(lists: Lists, a: Address)
    ensures Changed(lists, lists - {a}, a, map[])
  {
    assert lists - {a} - {a} == lists - {a};
  }

  lemma StoreChanges(lists: Lists, a: Address, l: List)
    ensures Changed(lists, Store(lists, a, l), a, l.items) && Changed(lists, lists[a := l], a, l.items)
  {
    PutChanges(lists, a, l);
    DeleteChanges(lists, a);
    if |l.items| == 0 { assert l.items == map[]; }
  }

  /** What `all` becomes when `t` enters and a transaction at its place in `m` leaves. */
  function Reindexed(all: map<nat, Tx>, m: Txs, t: Tx): map<nat, Tx> {
    (if t.nonce in m then all - {m[t.nonce].hash} else all)[t.hash := t]
  }

  lemma TakeOne(lists: Lists, a: Address, n: nat) returns (lists': Lists)
    requires Filed(lists) && n in ItemsOf(lists, a)
    ensures Changed(lists, lists', a, ItemsOf(lists, a) - {n}) && Shrunk(lists, lists')
    ensures forall t :: InList(lists, t) && !InList(lists', t) <==> t == ItemsOf(lists, a)[n]
  {
    lists' := lists[a := lists[a].(items := lists[a].items - {n})];
    assert FiledAt(lists, a);
  }

  /** `u` has been taken out of its list; the new transaction `t` gets its place, and `u` is forgotten. */
  lemma SwapKeeps(s: State, loose: set<Tx>, u: Tx, s1: State, t: Tx, s': State)
    requires Holds(s, loose) && Taken(s, s1, {u}) && SamePlace(t, u)
    requires t.hash !in s.all && forall v | v in loose :: !SamePlace(t, v)
    requires s'.all == (s.all - {u.hash})[t.hash := t]
    requires
      || (s'.queue == s1.queue && Changed(s1.pending, s'.pending, t.from, ItemsOf(s1.pending, t.from)[t.nonce := t]))
      || (s'.pending == s1.pending && Changed(s1.queue, s'.queue, t.from, ItemsOf(s1.queue, t.from)[t.nonce := t]))
    ensures Holds(s', loose)
  {
    TakeKeeps(s, loose, s1, {u});
    assert Free(s1, u);
    ForgetKeeps(s1, loose + {u}, {u});
    assert Hashes({u}) == {u.hash};
    var s2 := s1.(all := s1.all - {u.hash});
    assert loose + {u} - {u} == loose by { assert u in loose ==> !SamePlace(t, u); }
    assert Free(s2, t);
    InsertKeeps(s2, loose, t);
    PlaceKeeps(s2.(all := s2.all[t.hash := t]), loose + {t}, t, s');
    assert loose + {t} - {t} == loose by { assert t in loose ==> !SamePlace(t, t); }
  }

  /** A new transaction takes the place of a queued one. */
  lemma RequeueKeeps(s: State, loose: set<Tx>, t: Tx, s': State)
    requires Holds(s, loose) && t.hash !in s.all && forall u | u in loose :: !SamePlace(t, u)
    requires t.nonce in ItemsOf(s.queue, t.from)
    requires s'.pending == s.pending && Changed(s.queue, s'.queue, t.from, ItemsOf(s.queue, t.from)[t.nonce := t])
    requires s'.all == Reindexed(s.all, ItemsOf(s.queue, t.from), t)
    ensures Holds(s', loose)
  {
    var u := ItemsOf(s.queue, t.from)[t.nonce];
    assert FiledAt(s.queue, t.from);
    var queue1 := TakeOne(s.queue, t.from, t.nonce);
    SwapKeeps(s, loose, u, s.(queue := queue1), t, s');
  }

  /** A new transaction takes the place of a pending one. */
  lemma RependKeeps(s: State, t: Tx, s': State)
    requires Inv(s) && t.hash !in s.all && t.nonce in ItemsOf(s.pending, t.from)
    requires s'.queue == s.queue && Changed(s.pending, s'.pending, t.from, ItemsOf(s.pending, t.from)[t.nonce := t])
    requires s'.all == Reindexed(s.all, ItemsOf(s.pending, t.from), t)
    ensures Inv(s')
  {
    var u := ItemsOf(s.pending, t.from)[t.nonce];
    assert FiledAt(s.pending, t.from);
    var pending1 := TakeOne(s.pending, t.from, t.nonce);
    SwapKeeps(s, {}, u, s.(pending := pending1), t, s');
  }

  /** What may be queued: its place is not pending, and it is loose, or new and not at the place of a loose one. */
  ghost predicate Enterable(s: State, loose: set<Tx>, t: Tx) {
    && t.nonce !in ItemsOf(s.pending, t.from)
    && (t in loose || (t.hash !in s.all && forall u | u in loose :: !SamePlace(t, u)))
  }

  lemma EnqueueKeeps(s: State, loose: set<Tx>, t: Tx, s': State)
    requires Holds(s, loose) && Enterable(s, loose, t)
    requires s'.pending == s.pending && Changed(s.queue, s'.queue, t.from, ItemsOf(s.queue, t.from)[t.nonce := t])
    requires s'.all == Reindexed(s.all, ItemsOf(s.queue, t.from), t)
    ensures Holds(s', loose - {t})
    ensures t in loose ==> s'.all == s.all && t.nonce !in ItemsOf(s.queue, t.from)
  {
    if t in loose {
      assert Free(s, t) && Member(s, loose, t);
      assert InAll(s.all, t);
      PlaceKeeps(s, loose, t, s');
    } else {
      assert loose - {t} == loose;
      if t.nonce in ItemsOf(s.queue, t.from) {
        RequeueKeeps(s, loose, t, s');
      } else {
        InsertKeeps(s, loose, t);
        PlaceKeeps(s.(all := s.all[t.hash := t]), loose + {t}, t, s');
        assert loose + {t} - {t} == loose;
      }
    }
  }

  // ---------- Taking transactions out ----------

  function Values(m: Txs): set<Tx> { set n | n in m :: m[n] }

  predicate Submap(m: Txs, m0: Txs) { forall n | n in m :: n in m0 && m0[n] == m[n] }

  /** An account's list loses `gone` and `moved` and keeps `kept`. */
  ghost predicate Splits(m: Txs, kept: Txs, gone: Txs, moved: Txs) {
    && Submap(kept, m) && Submap(gone, m) && Submap(moved, m)
    && kept.Keys !! gone.Keys !! moved.Keys && m.Keys == kept.Keys + gone.Keys + moved.Keys
  }

  lemma SplitTaken(lists: Lists, lists': Lists, a: Address, kept: Txs, gone: Txs, moved: Txs)
    requires Filed(lists) && Changed(lists, lists', a, kept) && Splits(ItemsOf(lists, a), kept, gone, moved)
    ensures Shrunk(lists, lists')
    ensures forall t :: t in Values(gone) + Values(moved) <==> InList(lists, t) && !InList(lists', t)
  {
    assert FiledAt(lists, a);
    forall t ensures t in Values(gone) + Values(moved) <==> InList(lists, t) && !InList(lists', t) {
      if t in Values(gone) + Values(moved) {
        var n :| (n in gone && gone[n] == t) || (n in moved && moved[n] == t);
        assert ItemsOf(lists, a)[n] == t;
      }
    }
  }

  lemma SplitApart(m: Txs, kept: Txs, gone: Txs, moved: Txs)
    requires Splits(m, kept, gone, moved) && Keyed(m)
    ensures Values(gone) !! Values(moved)
  {
    forall t | t in Values(gone) ensures t.nonce in gone { var i :| i in gone && gone[i] == t; }
    forall t | t in Values(moved) ensures t.nonce in moved { var i :| i in moved && moved[i] == t; }
  }

  /** Transactions leave a list of one account: `gone` are forgotten, `moved` are still to be placed. */
  lemma DetachKeeps(s: State, s1: State, a: Address, kept: Txs, gone: Txs, moved: Txs)
    requires Inv(s) && s1.all == s.all
    requires
      || (s1.queue == s.queue && Changed(s.pending, s1.pending, a, kept)
          && Splits(ItemsOf(s.pending, a), kept, gone, moved))
      || (s1.pending == s.pending && Changed(s.queue, s1.queue, a, kept)
          && Splits(ItemsOf(s.queue, a), kept, gone, moved))
    ensures Holds(s1.(all := s.all - Hashes(Values(gone))), Values(moved))
  {
    var inPending := s1.queue == s.queue && Changed(s.pending, s1.pending, a, kept)
      && Splits(ItemsOf(s.pending, a), kept, gone, moved);
    var lists, lists' := if inPending then s.pending else s.queue, if inPending then s1.pending else s1.queue;
    SplitTaken(lists, lists', a, kept, gone, moved);
    assert FiledAt(lists, a);
    SplitApart(ItemsOf(lists, a), kept, gone, moved);
    TakeKeeps(s, {}, s1, Values(gone) + Values(moved));
    assert {} + (Values(gone) + Values(moved)) == Values(gone) + Values(moved);
    ForgetKeeps(s1, Values(gone) + Values(moved), Values(gone));
    assert Values(gone) + Values(moved) - Values(gone) == Values(moved);
  }

  // ---------- Moving transactions between the lists ----------

  /** enqueueTx. */
  method Enqueue(s: State, t: Tx, priceBump: nat, ghost loose: set<Tx>) returns (s': State, ok: bool)
    requires Holds(s, loose) && Enterable(s, loose, t)
    ensures ok == Accepts(QueueOf(s.queue, t.from), t, priceBump)
    ensures !ok ==> s' == s
    ensures ok ==> s'.queue == s.queue[t.from := Added(QueueOf(s.queue, t.from), t)]
    ensures ok ==> Changed(s.queue, s'.queue, t.from, ItemsOf(s.queue, t.from)[t.nonce := t])
    ensures ok ==> s'.all == Reindexed(s.all, ItemsOf(s.queue, t.from), t)
    ensures t in loose ==> ok && s'.all == s.all && t.nonce !in ItemsOf(s.queue, t.from)
    ensures s'.pending == s.pending && Holds(s', loose - {t})
  {
    var list := QueueOf(s.queue, t.from);
    ok := Accepts(list, t, priceBump);
    if ok {
      StoreChanges(s.queue, t.from, Added(list, t));
      s' := State(s.pending, s.queue[t.from := Added(list, t)], Reindexed(s.all, list.items, t));
      EnqueueKeeps(s, loose, t, s');
    } else {
      s' := s;
      assert t in loose ==> Free(s, t);
    }
  }

  /** Add a batch with free nonces to a list, lowest nonce first; Add refuses none of them. */
  method AddAll(list: List, m: Txs, ghost priceBump: nat) returns (list': List, last: nat)
    requires Keyed(m) && m.Keys !! list.items.Keys && m.Keys != {}
    ensures list'.items == list.items + m && list'.strict == list.strict && Raised(list, m, list')
    ensures IsLast(last, m)
  {
    last := Lowest(m);
    var rest := m - {last};
    list' := Added(list, m[last]);
    AddingStarts(list, m, last);
    while rest.Keys != {}
      invariant Adding(list, m, rest, last, list')
      decreases |rest|
    {
      var n := Lowest(rest);
      AddingNext(list, m, rest, last, list', n, priceBump);
      Shorter(rest, n);
      assert Accepts(list', rest[n], priceBump);
      list', last := Added(list', rest[n]), n;
      rest := rest - {n};
    }
    SplitDone(m, rest, last);
  }

  /** Where AddAll stands: all but `rest`, which are the ones above `last`, have been added. */
  ghost predicate Adding(list: List, m: Txs, rest: Txs, last: nat, list': List) {
    && Submap(rest, m) && list'.items == list.items + (m - rest.Keys) && list'.strict == list.strict
    && last in m && SplitAt(m, rest, last) && Raised(list, m - rest.Keys, list')
  }

  lemma AddingStarts(list: List, m: Txs, last: nat)
    requires Keyed(m) && last in m && forall k | k in m :: last <= k
    ensures Adding(list, m, m - {last}, last, Added(list, m[last]))
  {
    AddedFirst(list.items, m, last);
    AddedRaises(list, map[], list, last, m[last]);
    assert m - (m - {last}).Keys == map[][last := m[last]];
  }

  lemma AddingNext(list: List, m: Txs, rest: Txs, last: nat, list': List, n: nat, priceBump: nat)
    requires Keyed(m) && m.Keys !! list.items.Keys && Adding(list, m, rest, last, list')
    requires n in rest && forall k | k in rest :: n <= k
    ensures Adding(list, m, rest - {n}, n, Added(list', rest[n])) && Accepts(list', rest[n], priceBump)
  {
    SplitStep(m, rest, last, n);
    AddedStep(list.items, m, rest, n);
    AddedRaises(list, m - rest.Keys, list', n, rest[n]);
    assert m - (rest - {n}).Keys == (m - rest.Keys)[n := rest[n]];
  }

  ghost predicate IsLast(n: nat, m: Txs) { n in m && forall k | k in m :: k <= n }

  /** The transactions still to be added are those above `last`. */
  ghost predicate SplitAt(m: Txs, rest: Txs, last: nat) {
    forall k {:trigger k in m} {:trigger k in rest} :: k in rest <==> k in m && k > last
  }

  lemma SplitStep(m: Txs, rest: Txs, last: nat, n: nat)
    requires SplitAt(m, rest, last) && n in rest && forall k | k in rest :: n <= k
    ensures SplitAt(m, rest - {n}, n) && n in m
  {
    forall k ensures k in rest - {n} <==> k in m && k > n { assert k in m && k > last ==> k in rest; }
  }

  lemma SplitDone(m: Txs, rest: Txs, last: nat)
    requires SplitAt(m, rest, last) && rest.Keys == {} && last in m
    ensures IsLast(last, m) && m - rest.Keys == m
  {
    forall k | k in m ensures k <= last { assert k !in rest; }
  }

  lemma AddedFirst(m0: Txs, m: Txs, n: nat)
    requires n in m && Keyed(m) && forall k | k in m :: n <= k
    ensures m0[n := m[n]] == m0 + (m - (m - {n}).Keys) && m[n].nonce == n
    ensures SplitAt(m, m - {n}, n)
  {
  }

  lemma AddedStep(m0: Txs, m: Txs, rest: Txs, n: nat)
    requires Submap(rest, m) && n in rest && Keyed(m)
    ensures (m0 + (m - rest.Keys))[n := rest[n]] == m0 + (m - (rest - {n}).Keys) && rest[n].nonce == n
    ensures n !in m0 ==> n !in m0 + (m - rest.Keys)
  {
  }

  lemma Shorter(rest: Txs, n: nat)
    requires n in rest
    ensures |rest - {n}| < |rest|
  {
    assert rest.Keys == (rest - {n}).Keys + {n};
  }

  lemma ListedAll(lists: Lists, lists': Lists, a: Address, m: Txs)
    requires Filed(lists) && OfAccount(m, a) && m.Keys !! ItemsOf(lists, a).Keys
    requires Changed(lists, lists', a, ItemsOf(lists, a) + m)
    ensures Filed(lists')
    ensures forall t :: InList(lists', t) <==> InList(lists, t) || t in Values(m)
  {
    forall b ensures FiledAt(lists', b) { assert FiledAt(lists, b); }
    forall t ensures InList(lists', t) <==> InList(lists, t) || t in Values(m) {
      if t.from == a && t.nonce in m && m[t.nonce] == t { assert t in Values(m); }
    }
  }

  /** A batch of one account that was taken out of its list finds its places free. */
  lemma BatchFree(s: State, a: Address, m: Txs)
    requires Holds(s, Values(m)) && OfAccount(m, a)
    ensures m.Keys !! ItemsOf(s.pending, a).Keys && m.Keys !! ItemsOf(s.queue, a).Keys
  {
    forall n | n in m ensures n !in ItemsOf(s.pending, a) && n !in ItemsOf(s.queue, a) {
      assert m[n] in Values(m);
      assert Free(s, m[n]);
    }
  }

  lemma PlaceAllKeeps(s: State, a: Address, m: Txs, s': State)
    requires Holds(s, Values(m)) && OfAccount(m, a) && s'.all == s.all
    requires
      || (s'.queue == s.queue && Changed(s.pending, s'.pending, a, ItemsOf(s.pending, a) + m))
      || (s'.pending == s.pending && Changed(s.queue, s'.queue, a, ItemsOf(s.queue, a) + m))
    ensures Inv(s')
  {
    BatchFree(s, a, m);
    if s'.queue == s.queue && Changed(s.pending, s'.pending, a, ItemsOf(s.pending, a) + m) {
      ListedAll(s.pending, s'.pending, a, m);
    } else {
      ListedAll(s.queue, s'.queue, a, m);
    }
    forall b ensures Apart(s', b) { assert Apart(s, b); }
    forall t ensures InAll(s'.all, t) <==> Member(s', {}, t) { assert InAll(s.all, t) <==> Member(s, Values(m), t); }
  }

  /** Queue transactions of one account that were taken out of their list: enqueueTx for each of them. */
  method EnqueueAll(s: State, a: Address, m: Txs, ghost priceBump: nat) returns (s': State)
    requires Holds(s, Values(m)) && OfAccount(m, a)
    ensures Inv(s') && s'.all == s.all && s'.pending == s.pending
            && Changed(s.queue, s'.queue, a, ItemsOf(s.queue, a) + m)
  {
    if m.Keys == {} {
      s' := s;
      PlaceAllKeeps(s, a, m, s);
      return;
    }
    BatchFree(s, a, m);
    var list, _ := AddAll(QueueOf(s.queue, a), m, priceBump);
    StoreChanges(s.queue, a, list);
    s' := s.(queue := s.queue[a := list]);
    PlaceAllKeeps(s, a, m, s');
  }

  /** Promote a batch of one account: promoteTx for each of them. `nonce` is the account's new pending nonce. */
  method PromoteAll(s: State, a: Address, m: Txs, ghost priceBump: nat) returns (s': State, nonce: nat)
    requires Holds(s, Values(m)) && OfAccount(m, a)
    ensures Inv(s') && s'.queue == s.queue && s'.all == s.all
    ensures Changed(s.pending, s'.pending, a, ItemsOf(s.pending, a) + m)
    ensures Raised(PendingOf(s.pending, a), m, PendingOf(s'.pending, a))
    ensures m != map[] ==> exists last: nat :: IsLast(last, m) && nonce == last + 1
  {
    if m.Keys == {} {
      s', nonce := s, 0;
      PlaceAllKeeps(s, a, m, s);
      return;
    }
    BatchFree(s, a, m);
    var list, last := AddAll(PendingOf(s.pending, a), m, priceBump);
    nonce := last + 1;
    StoreChanges(s.pending, a, list);
    s' := s.(pending := s.pending[a := list]);
    PlaceAllKeeps(s, a, m, s');
  }

  /** All transactions of `m` are of account `a`, under their nonces. */
  ghost predicate OfAccount(m: Txs, a: Address) {
    forall n | n in m :: m[n].from == a && m[n].nonce == n
  }

  method Lowest(m: Txs) returns (n: nat)
    requires m.Keys != {}
    ensures n in m && forall k | k in m :: n <= k
  {
    n :| n in m.Keys;
    var rest := m.Keys - {n};
    while rest != {}
      invariant n in m && rest <= m.Keys && forall k | k in m && k !in rest :: n <= k
    {
      var k :| k in rest;
      if k < n { n := k; }
      rest := rest - {k};
    }
  }

  // ---------- Removing one transaction ----------

  /** What removeTx does to the lists and the index. */
  ghost predicate Removes(s: State, t: Tx, s': State) {
    && s'.all == s.all - {t.hash}
    && if InList(s.pending, t)
       then Changed(s.pending, s'.pending, t.from, Below(ItemsOf(s.pending, t.from), t.nonce))
            && Changed(s.queue, s'.queue, t.from, ItemsOf(s.queue, t.from)
                       + From(ItemsOf(s.pending, t.from), t.nonce + 1))
       else s'.pending == s.pending && Changed(s.queue, s'.queue, t.from, ItemsOf(s.queue, t.from) - {t.nonce})
  }

  lemma RemovedSplits(m: Txs, n: nat)
    requires n in m
    ensures Splits(m, Below(m, n), map[n := m[n]], From(m, n + 1)) && Splits(m, m - {n}, map[n := m[n]], map[])
    ensures Values(map[n := m[n]]) == {m[n]} && Hashes({m[n]}) == {m[n].hash}
  {
  }

  lemma WithItemsChanges(lists: Lists, a: Address, l: List, m: Txs)
    ensures Changed(lists, Store(lists, a, l.(items := m)), a, m) && Changed(lists, lists[a := l.(items := m)], a, m)
  {
    StoreChanges(lists, a, l.(items := m));
  }

  lemma DetachPending(s: State, a: Address, pending: Lists, kept: Txs, gone: Txs, moved: Txs)
    requires Inv(s) && Changed(s.pending, pending, a, kept) && Splits(ItemsOf(s.pending, a), kept, gone, moved)
    ensures Holds(State(pending, s.queue, s.all - Hashes(Values(gone))), Values(moved)) && OfAccount(moved, a)
  {
    DetachKeeps(s, s.(pending := pending), a, kept, gone, moved);
    assert FiledAt(s.pending, a);
  }

  lemma DetachQueued(s: State, a: Address, queue: Lists, kept: Txs, gone: Txs, moved: Txs)
    requires Inv(s) && Changed(s.queue, queue, a, kept) && Splits(ItemsOf(s.queue, a), kept, gone, moved)
    ensures Holds(State(s.pending, queue, s.all - Hashes(Values(gone))), Values(moved)) && OfAccount(moved, a)
  {
    DetachKeeps(s, s.(queue := queue), a, kept, gone, moved);
    assert FiledAt(s.queue, a);
  }

  lemma TakeOutPending(s: State, t: Tx, m: Txs, pending: Lists)
    requires Inv(s) && InList(s.pending, t) && m == ItemsOf(s.pending, t.from)
    requires Changed(s.pending, pending, t.from, Below(m, t.nonce))
    ensures Holds(State(pending, s.queue, s.all - {t.hash}), Values(From(m, t.nonce + 1)))
            && OfAccount(From(m, t.nonce + 1), t.from)
  {
    RemovedSplits(m, t.nonce);
    DetachPending(s, t.from, pending, Below(m, t.nonce), map[t.nonce := m[t.nonce]], From(m, t.nonce + 1));
  }

  lemma TakeOutQueued(s: State, t: Tx, m: Txs, queue: Lists)
    requires Inv(s) && InList(s.queue, t) && m == ItemsOf(s.queue, t.from)
    requires Changed(s.queue, queue, t.from, m - {t.nonce})
    ensures Inv(State(s.pending, queue, s.all - {t.hash}))
  {
    RemovedSplits(m, t.nonce);
    DetachQueued(s, t.from, queue, m - {t.nonce}, map[t.nonce := m[t.nonce]], map[]);
    assert Values(map[]) == {};
  }

  /**
   The part of removeTx for a pending transaction. Pending lists are strict, so Remove also takes out what follows.
   */
  method RemovePending(s: State, t: Tx, ghost priceBump: nat) returns (s': State)
    requires Inv(s) && InList(s.pending, t)
    ensures Inv(s') && Removes(s, t, s')
  {
    var list := s.pending[t.from];
    var m := list.items;
    var pending := Store(s.pending, t.from, list.(items := Below(m, t.nonce)));
    WithItemsChanges(s.pending, t.from, list, Below(m, t.nonce));
    TakeOutPending(s, t, m, pending);
    s' := EnqueueAll(State(pending, s.queue, s.all - {t.hash}), t.from, From(m, t.nonce + 1), priceBump);
  }

  /** The part of removeTx for a queued transaction. */
  method RemoveQueued(s: State, t: Tx) returns (s': State)
    requires Inv(s) && InList(s.queue, t) && !InList(s.pending, t)
    ensures Inv(s') && Removes(s, t, s')
  {
    var list := s.queue[t.from];
    var queue := Store(s.queue, t.from, list.(items := list.items - {t.nonce}));
    WithItemsChanges(s.queue, t.from, list, list.items - {t.nonce});
    TakeOutQueued(s, t, list.items, queue);
    s' := State(s.pending, queue, s.all - {t.hash});
  }

  /** removeTx: later pending transactions of the account go back to the queue. */
  method Remove(s: State, hash: nat, ghost priceBump: nat) returns (s': State, wasPending: bool)
    requires Inv(s) && hash in s.all
    ensures Inv(s') && Removes(s, s.all[hash], s') && wasPending == InList(s.pending, s.all[hash])
  {
    var t := s.all[hash];
    assert InAll(s.all, t) && Apart(s, t.from) && FiledAt(s.pending, t.from);
    wasPending := t.from in s.pending && t.nonce in s.pending[t.from].items;
    if wasPending {
      s' := RemovePending(s, t, priceBump);
    } else {
      s' := RemoveQueued(s, t);
    }
  }
}
