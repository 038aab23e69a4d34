/**
 The transaction pool and its price heap together (core/tx_pool.go, core/tx_list.go): which pooled transactions
 the heap knows of, and what is freed when the pool asks the heap for the cheapest ones.
 */
module PricedPool {
  import opened Basics
  import opened TxMap
  import opened PricedList

  /** The pool by hash, the heap with its count of stale entries, and the pooled hashes that may have no entry. */
  datatype Book = Book(all: Pool, items: seq<Tx>, stales: int, unpriced: set<nat>)

  /**
   What the pool does to the two. Put enters a transaction into both, as enqueueTx does also for one that the pool has
   already, when it moves it back to the queue; Special is promoteSpecialTx, which leaves the heap alone; Forget deletes
   from the pool and tells the heap; Sweep is Cap or Discard, whose drops are in the pool until they are forgotten in
   turn.
   */
  datatype Event = Put(tx: Tx) | Special(tx: Tx) | Forget(hash: nat) | Sweep(drop: seq<Tx>, gone: seq<Tx>)

  function Hashes(s: seq<Tx>): set<nat> { set t | t in s :: t.hash }

  ghost predicate Rebuilt(all: Pool, items: seq<Tx>) {
    |items| == |all| && forall t :: t in items <==> t in all.Values
  }

  ghost predicate Forgets(b: Book, h: nat, b': Book) {
    && b'.all == b.all - {h}
    && if b.stales + 1 <= |b.items| / 4
       then b'.items == b.items && b'.stales == b.stales + 1 && b'.unpriced == b.unpriced - {h}
       else Rebuilt(b'.all, b'.items) && b'.stales == 0 && b'.unpriced == {}
  }

  ghost predicate Step(b: Book, e: Event, b': Book) {
    match e
    case Put(t) =>
      && (t.hash in b.all ==> b.all[t.hash] == t) && b'.all == b.all[t.hash := t] && b'.stales == b.stales
      && multiset(b'.items) == multiset(b.items) + multiset{t} && b'.unpriced == b.unpriced - {t.hash}
    case Special(t) =>
      && t.hash !in b.all && b'.all == b.all[t.hash := t] && b'.stales == b.stales
      && b'.items == b.items && b'.unpriced == b.unpriced + {t.hash}
    case Forget(h) => Forgets(b, h, b')
    case Sweep(drop, gone) =>
      && b'.all == b.all && b'.stales == b.stales - |gone| && b'.unpriced == b.unpriced + Hashes(drop)
      && multiset(b.items) == multiset(b'.items + drop + gone) && forall t | t in gone :: !Live(b.all, t)
  }

  /** The pool is filed by hash, and what it holds is in the heap unless it is known not to be. */
  ghost predicate Covers(all: Pool, items: seq<Tx>, unpriced: set<nat>) {
    && (forall h | h in all :: all[h].hash == h)
    && forall h | h in all && h !in unpriced :: all[h] in items
  }

  ghost predicate Covered(b: Book) { Covers(b.all, b.items, b.unpriced) }

  lemma Swept(items0: seq<Tx>, items: seq<Tx>, drop: seq<Tx>, gone: seq<Tx>, t: Tx)
    requires multiset(items0) == multiset(items + drop + gone)
    ensures t in items0 <==> t in items || t in drop || t in gone
  {
    assert t in multiset(items0) <==> t in multiset(items + drop + gone);
  }

  lemma SweepCovers(all: Pool, items0: seq<Tx>, unpriced: set<nat>, items: seq<Tx>, drop: seq<Tx>, gone: seq<Tx>)
    requires Covers(all, items0, unpriced)
    requires multiset(items0) == multiset(items + drop + gone) && forall t | t in gone :: !Live(all, t)
    ensures Covers(all, items, unpriced + Hashes(drop))
  {
    forall h | h in all && h !in unpriced + Hashes(drop) ensures all[h] in items {
      Swept(items0, items, drop, gone, all[h]);
    }
  }

  lemma ForgetCovers(all: Pool, items0: seq<Tx>, unpriced: set<nat>, h: nat, items: seq<Tx>, unpriced': set<nat>)
    requires Covers(all, items0, unpriced)
    requires Rebuilt(all - {h}, items) || (items == items0 && unpriced' == unpriced - {h})
    ensures Covers(all - {h}, items, unpriced')
  {
    forall k | k in all - {h} && k !in unpriced' ensures (all - {h})[k] in items {
      assert (all - {h})[k] in (all - {h}).Values;
    }
  }

  lemma StepCovers(b: Book, e: Event, b': Book)
    requires Covered(b) && Step(b, e, b')
    ensures Covered(b')
  {
    match e
    case Put(t) =>
      forall h | h in b'.all && h !in b'.unpriced ensures b'.all[h] in b'.items {
        assert b'.all[h] in multiset(b'.items) by { assert h != t.hash ==> b.all[h] in multiset(b.items); }
      }
    case Special(t) =>
    case Forget(h) => ForgetCovers(b.all, b.items, b.unpriced, h, b'.items, b'.unpriced);
    case Sweep(drop, gone) => SweepCovers(b.all, b.items, b.unpriced, b'.items, drop, gone);
  }

  /** A sequence of steps. */
  ghost predicate Path(bs: seq<Book>, es: seq<Event>) {
    |bs| == |es| + 1 && forall i | 0 <= i < |es| :: Step(bs[i], es[i], bs[i + 1])
  }

  ghost predicate Run(bs: seq<Book>, es: seq<Event>) { Path(bs, es) && bs[0] == Book(map[], [], 0, {}) }

  /** The event leaves h in the pool without an entry in the heap. */
  ghost predicate Leaves(e: Event, h: nat) {
    (e.Special? && e.tx.hash == h) || (e.Sweep? && h in Hashes(e.drop))
  }

  /** The event neither enters h into the heap, nor deletes it, nor has the heap rebuilt. */
  ghost predicate Lasts(b: Book, e: Event, h: nat) {
    && (e.Put? ==> e.tx.hash != h)
    && (e.Forget? ==> e.hash != h && b.stales + 1 <= |b.items| / 4)
  }

  /** Whether h may be missing from the heap at the end of a run. */
  ghost predicate Skipped(bs: seq<Book>, es: seq<Event>, h: nat)
    requires |bs| == |es| + 1
  {
    exists i | 0 <= i < |es| :: Leaves(es[i], h) && forall j | i < j < |es| :: Lasts(bs[j], es[j], h)
  }

  lemma UnpricedStep(b: Book, e: Event, b': Book, h: nat)
    requires Step(b, e, b') && h in b'.unpriced
    ensures Leaves(e, h) || (h in b.unpriced && Lasts(b, e, h))
  {
  }

  lemma SkippedNext(bs: seq<Book>, es: seq<Event>, n: nat, h: nat)
    requires |bs| == |es| + 1 && |es| == n + 1
    requires Leaves(es[n], h) || (Skipped(bs[..n + 1], es[..n], h) && Lasts(bs[n], es[n], h))
    ensures Skipped(bs, es, h)
  {
    var bs0, es0 := bs[..n + 1], es[..n];
    if !Leaves(es[n], h) {
      var i :| 0 <= i < n && Leaves(es0[i], h) && forall j | i < j < n :: Lasts(bs0[j], es0[j], h);
      assert Leaves(es[i], h);
      forall j | i < j < |es| ensures Lasts(bs[j], es[j], h) {
        if j < n { assert Lasts(bs0[j], es0[j], h); }
      }
    }
  }

  lemma {:induction false} RunCovers(bs: seq<Book>, es: seq<Event>)
    requires Run(bs, es)
    ensures Covered(bs[|es|])
    ensures forall h | h in bs[|es|].unpriced :: Skipped(bs, es, h)
  {
    if es != [] {
      var n := |es| - 1;
      RunCovers(bs[..n + 1], es[..n]);
      StepCovers(bs[n], es[n], bs[n + 1]);
      forall h | h in bs[n + 1].unpriced ensures Skipped(bs, es, h) {
        UnpricedStep(bs[n], es[n], bs[n + 1], h);
        SkippedNext(bs, es, n, h);
      }
    }
  }

  /**
   In every run, a pooled transaction is in the heap unless promoteSpecialTx added it, or a sweep took it out, and since
   then it has neither been entered again nor deleted, nor has the heap been rebuilt.
   */
  lemma PooledIsPriced(bs: seq<Book>, es: seq<Event>, h: nat)
    requires Run(bs, es) && h in bs[|es|].all && !Skipped(bs, es, h)
    ensures bs[|es|].all[h] in bs[|es|].items
  {
    RunCovers(bs, es);
  }

  ghost predicate Distinct(s: seq<Tx>) { forall i, j | 0 <= i < j < |s| :: s[i].hash != s[j].hash }

  lemma HashesNext(s: seq<Tx>, i: nat)
    requires i < |s|
    ensures Hashes(s[..i + 1]) == Hashes(s[..i]) + {s[i].hash}
  {
    assert s[..i + 1] == s[..i] + [s[i]];
  }

  lemma DistinctNext(s: seq<Tx>, n: nat)
    requires |s| == n + 1
    ensures Distinct(s) <==> Distinct(s[..n]) && s[n].hash !in Hashes(s[..n])
  {
    if s[n].hash in Hashes(s[..n]) {
      var i :| 0 <= i < n && s[..n][i].hash == s[n].hash;
      assert s[i].hash == s[n].hash;
    } else {
      forall i | 0 <= i < n ensures s[i].hash != s[n].hash { assert s[..n][i] in s[..n]; }
      if Distinct(s[..n]) {
        forall i, j | 0 <= i < j < n ensures s[i].hash != s[j].hash { assert s[..n][i].hash != s[..n][j].hash; }
      }
    }
  }

  lemma {:induction false} HashCount(s: seq<Tx>)
    ensures |Hashes(s)| <= |s|
    ensures |Hashes(s)| == |s| <==> Distinct(s)
  {
    if s == [] {
      assert Hashes(s) == {};
    } else {
      var n := |s| - 1;
      HashCount(s[..n]);
      HashesNext(s, n);
      DistinctNext(s, n);
      assert s[..n + 1] == s;
      OneMore(Hashes(s[..n]), s[n].hash);
    }
  }

  lemma OneMore(hs: set<nat>, h: nat)
    ensures |hs + {h}| == |hs| + if h in hs then 0 else 1
  {
    if h in hs { assert hs + {h} == hs; }
  }

  lemma WithoutCount(all: Pool, gone: set<nat>)
    requires gone <= all.Keys
    ensures |all - gone| == |all| - |gone|
  {
    assert (all - gone).Keys == all.Keys - gone;
  }

  // ---------- What a discard frees ----------

  /** Taking the drops out frees one place each exactly if none is named twice. */
  lemma FreesEachIff(all: Pool, drop: seq<Tx>)
    requires forall t | t in drop :: Live(all, t)
    ensures |all - Hashes(drop)| >= |all| - |drop|
    ensures |all - Hashes(drop)| == |all| - |drop| <==> Distinct(drop)
  {
    HashCount(drop);
    WithoutCount(all, Hashes(drop));
  }

  /** What is left in the pool after a Discard: no cheaper than what went, and only local if too little went. */
  ghost predicate Spared(all: Pool, unpriced: set<nat>, drop: seq<Tx>, count: nat, local: set<Address>) {
    forall h | h in all && h !in Hashes(drop) && h !in unpriced && all[h].from !in local ::
      |drop| >= count && forall d | d in drop :: d.price <= all[h].price
  }

  lemma DiscardSpares(all: Pool, items0: seq<Tx>, unpriced: set<nat>, items: seq<Tx>, drop: seq<Tx>, gone: seq<Tx>,
                      count: nat, local: set<Address>)
    requires Covers(all, items0, unpriced)
    requires multiset(items0) == multiset(items + drop + gone) && forall t | t in gone :: !Live(all, t)
    requires |drop| < count ==> forall t | t in items && Live(all, t) :: t.from in local
    requires forall d, t | d in drop && t in items && Live(all, t) && t.from !in local :: d.price <= t.price
    ensures Spared(all, unpriced, drop, count, local)
  {
    forall h | h in all && h !in Hashes(drop) && h !in unpriced && all[h].from !in local
      ensures |drop| >= count && forall d | d in drop :: d.price <= all[h].price
    {
      Swept(items0, items, drop, gone, all[h]);
    }
  }

  // ---------- Several events ----------

  /** The events lead from one book to the other. */
  ghost predicate Leads(b: Book, es: seq<Event>, b': Book) {
    exists bs {:trigger Path(bs, es)} :: Path(bs, es) && bs[0] == b && bs[|es|] == b'
  }

  lemma PathOn(bs: seq<Book>, es: seq<Event>, more: seq<Book>, next: seq<Event>)
    requires Path(bs, es) && Path(more, next) && bs[|es|] == more[0]
    ensures Path(bs + more[1..], es + next) && (bs + more[1..])[|es + next|] == more[|next|]
  {
    var bs', es' := bs + more[1..], es + next;
    forall i | 0 <= i < |es'| ensures Step(bs'[i], es'[i], bs'[i + 1]) {
      if i < |es| {
        assert Step(bs[i], es[i], bs[i + 1]);
      } else {
        var j := i - |es|;
        assert Step(more[j], next[j], more[j + 1]);
      }
    }
  }

  lemma LeadsOn(b: Book, es: seq<Event>, mid: Book, next: seq<Event>, b': Book)
    requires Leads(b, es, mid) && Leads(mid, next, b')
    ensures Leads(b, es + next, b')
  {
    var bs :| Path(bs, es) && bs[0] == b && bs[|es|] == mid;
    var more :| Path(more, next) && more[0] == mid && more[|next|] == b';
    PathOn(bs, es, more, next);
  }

  lemma LeadsNowhere(b: Book)
    ensures Leads(b, [], b)
  {
    assert Path([b], []);
  }

  lemma LeadsOnce(b: Book, e: Event, b': Book)
    requires Step(b, e, b')
    ensures Leads(b, [e], b')
  {
    assert Path([b, b'], [e]);
  }

  lemma {:induction false} PathCovers(bs: seq<Book>, es: seq<Event>, i: nat)
    requires Path(bs, es) && Covered(bs[0]) && i < |bs|
    ensures Covered(bs[i])
  {
    if i > 0 {
      PathCovers(bs, es, i - 1);
      assert Step(bs[i - 1], es[i - 1], bs[i]);
      StepCovers(bs[i - 1], es[i - 1], bs[i]);
    }
  }

  lemma LeadsCovers(b: Book, es: seq<Event>, b': Book)
    requires Covered(b) && Leads(b, es, b')
    ensures Covered(b')
  {
    var bs :| Path(bs, es) && bs[0] == b && bs[|es|] == b';
    PathCovers(bs, es, |es|);
  }

  /** What follows a run makes it a longer run. */
  lemma RunGoesOn(bs: seq<Book>, es: seq<Event>, next: seq<Event>, b': Book) returns (bs': seq<Book>)
    requires Run(bs, es) && Leads(bs[|es|], next, b')
    ensures Run(bs', es + next) && bs'[|es + next|] == b'
  {
    var more :| Path(more, next) && more[0] == bs[|es|] && more[|next|] == b';
    PathOn(bs, es, more, next);
    bs' := bs + more[1..];
  }

  // ---------- The heap as an object ----------

  /** The book describes the heap and the pool. */
  ghost predicate Matches(b: Book, p: PricedList, all: Pool)
    reads p
  {
    p.Valid() && b.all == all && b.items == p.items && b.stales == p.stales
  }

  /** Deletes one transaction from the pool and tells the heap. */
  method Forgetting(p: PricedList, all: Pool, h: nat, ghost b: Book) returns (all': Pool, ghost b': Book)
    requires Matches(b, p, all)
    modifies p
    ensures Matches(b', p, all') && all' == all - {h} && Leads(b, [Forget(h)], b') && b'.unpriced <= b.unpriced - {h}
  {
    all' := all - {h};
    p.Removed(all');
    b' := Book(all', p.items, p.stales, if b.stales + 1 <= |b.items| / 4 then b.unpriced - {h} else {});
    LeadsOnce(b, Forget(h), b');
  }

  /** Enters one transaction into pool and heap. */
  method Entering(p: PricedList, all: Pool, t: Tx, ghost b: Book) returns (all': Pool, ghost b': Book)
    requires Matches(b, p, all) && (t.hash in all ==> all[t.hash] == t)
    modifies p
    ensures Matches(b', p, all') && all' == all[t.hash := t] && Leads(b, [Put(t)], b')
    ensures b'.unpriced <= b.unpriced
  {
    all' := all[t.hash := t];
    p.Put(t);
    b' := Book(all', p.items, p.stales, b.unpriced - {t.hash});
    LeadsOnce(b, Put(t), b');
  }

  function Puts(txs: seq<Tx>): seq<Event> { seq(|txs|, i requires 0 <= i < |txs| => Put(txs[i])) }

  /** enqueueTx for transactions that the pool has already. */
  method EnterAgain(p: PricedList, all: Pool, txs: seq<Tx>, ghost b: Book) returns (ghost b': Book)
    requires Matches(b, p, all) && forall t | t in txs :: t.hash in all && all[t.hash] == t
    modifies p
    ensures Matches(b', p, all) && Leads(b, Puts(txs), b') && b'.unpriced <= b.unpriced
  {
    b' := b;
    LeadsNowhere(b);
    assert Puts(txs[..0]) == [];
    for i := 0 to |txs|
      invariant Matches(b', p, all) && Leads(b, Puts(txs[..i]), b') && b'.unpriced <= b.unpriced
    {
      ghost var mid := b';
      var all';
      all', b' := Entering(p, all, txs[i], b');
      assert all' == all;
      LeadsOn(b, Puts(txs[..i]), mid, [Put(txs[i])], b');
      assert Puts(txs[..i + 1]) == Puts(txs[..i]) + [Put(txs[i])];
    }
    assert txs[..|txs|] == txs;
  }

  /** The heap names up to count of the cheapest remote transactions, for the pool to delete. */
  method Discarding(p: PricedList, all: Pool, count: nat, local: set<Address>, ghost b: Book)
    returns (drop: seq<Tx>, ghost gone: seq<Tx>, ghost b': Book)
    requires Matches(b, p, all) && Covered(b)
    modifies p
    ensures Matches(b', p, all) && Leads(b, [Sweep(drop, gone)], b') && b'.unpriced == b.unpriced + Hashes(drop)
    ensures |drop| <= count && Spared(all, b.unpriced, drop, count, local)
    ensures forall t | t in drop :: Live(all, t) && t.from !in local
  {
    drop, gone := p.Discard(all, count, local);
    DiscardSpares(all, b.items, b.unpriced, p.items, drop, gone, count, local);
    b' := Book(all, p.items, p.stales, b.unpriced + Hashes(drop));
    LeadsOnce(b, Sweep(drop, gone), b');
  }

  /** As the heap has it: a remote transaction that is not above the cheapest entry of a pooled one. */
  ghost predicate TooCheap(b: Book, t: Tx, local: set<Address>) {
    && t.from !in local && (exists u :: u in b.items && Live(b.all, u))
    && forall u | u in b.items && Live(b.all, u) :: u.price >= t.price
  }

  method Comparing(p: PricedList, all: Pool, t: Tx, local: set<Address>, ghost b: Book)
    returns (r: bool, ghost gone: seq<Tx>, ghost b': Book)
    requires Matches(b, p, all)
    modifies p
    ensures Matches(b', p, all) && Leads(b, [Sweep([], gone)], b') && b'.unpriced == b.unpriced
    ensures r <==> TooCheap(b, t, local)
  {
    r, gone := p.Underpriced(all, t, local);
    b' := Book(all, p.items, p.stales, b.unpriced);
    assert Hashes([]) == {};
    LeadsOnce(b, Sweep([], gone), b');
  }

  // ---------- A name that comes twice ----------

  lemma RunGrows(bs: seq<Book>, es: seq<Event>, e: Event, b: Book)
    requires Run(bs, es) && Step(bs[|es|], e, b)
    ensures Run(bs + [b], es + [e])
  {
  }

  function Entered(b: Book, t: Tx): Book {
    b.(all := b.all[t.hash := t], items := b.items + [t], unpriced := b.unpriced - {t.hash})
  }

  /** Puts a transaction at the end of the heap's entries. */
  lemma PutLast(bs: seq<Book>, es: seq<Event>, t: Tx) returns (bs': seq<Book>, es': seq<Event>)
    requires Run(bs, es) && t.hash !in bs[|es|].all
    ensures Run(bs', es') && |es'| == |es| + 1
    ensures bs'[|es'|] == Entered(bs[|es|], t)
  {
    var b' := Entered(bs[|es|], t);
    RunGrows(bs, es, Put(t), b');
    bs', es' := bs + [b'], es + [Put(t)];
  }

  lemma FourPuts(t: Tx, u: Tx, v: Tx, w: Tx) returns (bs: seq<Book>, es: seq<Event>)
    requires Distinct([t, u, v, w])
    ensures Run(bs, es) && |es| == 4
    ensures bs[4] == Book(map[t.hash := t, u.hash := u, v.hash := v, w.hash := w], [t, u, v, w], 0, {})
  {
    var s := [t, u, v, w];
    assert s[0].hash != s[1].hash && s[0].hash != s[2].hash && s[0].hash != s[3].hash;
    assert s[1].hash != s[2].hash && s[1].hash != s[3].hash && s[2].hash != s[3].hash;
    bs, es := [Book(map[], [], 0, {})], [];
    bs, es := PutLast(bs, es, t);
    bs, es := PutLast(bs, es, u);
    bs, es := PutLast(bs, es, v);
    bs, es := PutLast(bs, es, w);
  }

  lemma EnteredTwice(t: Tx, u: Tx, v: Tx, w: Tx) returns (bs: seq<Book>, es: seq<Event>)
    requires Distinct([t, u, v, w])
    ensures Run(bs, es) && t.hash in bs[|es|].all
    ensures bs[|es|].items == [t, u, v, w] + [t] && bs[|es|].stales == 1 && bs[|es|].unpriced == {}
  {
    bs, es := FourPuts(t, u, v, w);
    var b := Book(bs[4].all - {t.hash}, bs[4].items, 1, {});
    RunGrows(bs, es, Forget(t.hash), b);
    bs, es := PutLast(bs + [b], es + [Forget(t.hash)], t);
  }

  /** The cheapest transaction, deleted and added again, is the two cheapest entries: a Discard of two frees one. */
  lemma NamedTwice(t: Tx, u: Tx, v: Tx, w: Tx) returns (bs: seq<Book>, es: seq<Event>, b': Book)
    requires Distinct([t, u, v, w]) && t.price < u.price && t.price < v.price && t.price < w.price
    ensures Run(bs, es) && Step(bs[|es|], Sweep([t, t], []), b') && forall x | x in b'.items :: t.price < x.price
    ensures |b'.all - Hashes([t, t])| == |b'.all| - 1
  {
    bs, es := EnteredTwice(t, u, v, w);
    assert bs[|es|].items == [t] + [u, v, w] + [t];
    b' := BothSwept(bs[|es|], t, [u, v, w]);
  }

  lemma BothSwept(b: Book, t: Tx, rest: seq<Tx>) returns (b': Book)
    requires b.items == [t] + rest + [t] && t.hash in b.all
    ensures Step(b, Sweep([t, t], []), b') && b'.all == b.all && b'.items == rest
    ensures |b.all - Hashes([t, t])| == |b.all| - 1
  {
    b' := b.(items := rest, unpriced := b.unpriced + Hashes([t, t]));
    assert rest + [t, t] + [] == rest + [t] + [t];
    assert Hashes([t, t]) == {t.hash};
    WithoutCount(b.all, {t.hash});
  }
}
