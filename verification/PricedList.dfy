/**
 The price-ordered heap over all pooled transactions (core/tx_list.go, txPricedList). Removed transactions
 stay in the heap as stale entries until they come up or until the heap is rebuilt.
 */
module PricedList {
  import opened Basics
  import opened Ordering
  import opened TxMap

  type Pool = map<nat, Tx>

  /** An entry is live if its transaction is still in the pool. */
  predicate Live(all: Pool, tx: Tx) { tx.hash in all }

  function Price(tx: Tx): int { tx.price }

  function StaleCount(all: Pool, s: seq<Tx>): nat {
    if s == [] then 0 else (if Live(all, s[0]) then 0 else 1) + StaleCount(all, s[1..])
  }

  lemma {:induction false} StaleCountAppend(all: Pool, s: seq<Tx>, t: seq<Tx>)
    ensures StaleCount(all, s + t) == StaleCount(all, s) + StaleCount(all, t)
  {
    if s == [] {
      assert s + t == t;
    } else {
      assert (s + t)[1..] == s[1..] + t;
      StaleCountAppend(all, s[1..], t);
    }
  }

  lemma TakeOut(t: seq<Tx>, i: nat)
    requires i < |t|
    ensures multiset(t[..i] + t[i + 1..]) == multiset(t) - multiset{t[i]}
  {
    assert t == t[..i] + [t[i]] + t[i + 1..];
  }

  /** The number of stale entries does not depend on the arrangement. */
  lemma {:induction false} StaleCountPermuted(all: Pool, s: seq<Tx>, t: seq<Tx>)
    requires multiset(s) == multiset(t)
    ensures StaleCount(all, s) == StaleCount(all, t)
    decreases |s|
  {
    if s == [] {
      assert |multiset(t)| == 0;
    } else {
      var i := PlaceOf(t, s[0], s);
      SameRest(s, t, i);
      StaleCountTakeOut(all, t, i);
      StaleCountPermuted(all, s[1..], t[..i] + t[i + 1..]);
    }
  }

  lemma PlaceOf(t: seq<Tx>, x: Tx, s: seq<Tx>) returns (i: nat)
    requires multiset(s) == multiset(t) && s != [] && s[0] == x
    ensures i < |t| && t[i] == x
  {
    assert x in multiset(s);
    i :| i < |t| && t[i] == x;
  }

  lemma SameRest(s: seq<Tx>, t: seq<Tx>, i: nat)
    requires multiset(s) == multiset(t) && s != [] && i < |t| && t[i] == s[0]
    ensures multiset(s[1..]) == multiset(t[..i] + t[i + 1..])
  {
    TakeOut(s, 0);
    TakeOut(t, i);
    assert s[..0] + s[1..] == s[1..];
  }

  lemma StaleCountTakeOut(all: Pool, t: seq<Tx>, i: nat)
    requires i < |t|
    ensures StaleCount(all, t) == StaleCount(all, t[..i] + t[i + 1..]) + (if Live(all, t[i]) then 0 else 1)
  {
    assert t == t[..i] + t[i..] && t[i..][1..] == t[i + 1..];
    StaleCountAppend(all, t[..i], t[i..]);
    StaleCountAppend(all, t[..i], t[i + 1..]);
  }

  lemma {:induction false} AllStale(all: Pool, s: seq<Tx>)
    requires forall t | t in s :: !Live(all, t)
    ensures StaleCount(all, s) == |s|
  {
    if s != [] { AllStale(all, s[1..]); }
  }

  lemma {:induction false} NoneStale(all: Pool, s: seq<Tx>)
    requires forall t | t in s :: Live(all, t)
    ensures StaleCount(all, s) == 0
  {
    if s != [] { NoneStale(all, s[1..]); }
  }

  /** Taking live and stale entries out changes the stale count by the number of stale ones. */
  lemma Conservation(all: Pool, items0: seq<Tx>, items: seq<Tx>, drop: seq<Tx>, gone: seq<Tx>)
    requires multiset(items0) == multiset(items + drop + gone)
    requires (forall t | t in drop :: Live(all, t)) && (forall t | t in gone :: !Live(all, t))
    ensures StaleCount(all, items0) == StaleCount(all, items) + |gone|
  {
    StaleCountPermuted(all, items0, items + drop + gone);
    StaleCountAppend(all, items + drop, gone);
    StaleCountAppend(all, items, drop);
    AllStale(all, gone);
    NoneStale(all, drop);
  }

  /** The sweep of Cap and Discard: what has been popped is cheaper than what is left, and nothing is lost. */
  ghost predicate Sweeping(all: Pool, local: set<Address>, items0: seq<Tx>, items: seq<Tx>, drop: seq<Tx>,
                           save: seq<Tx>, gone: seq<Tx>)
  {
    && multiset(items0) == multiset(items) + multiset(drop) + multiset(save) + multiset(gone)
    && MinFirst(Price, items)
    && (forall t | t in drop :: Live(all, t) && t.from !in local)
    && (forall t | t in save :: Live(all, t) && t.from in local)
    && (forall t | t in gone :: !Live(all, t))
    && (forall d, t | d in drop && t in items :: d.price <= t.price)
  }

  /** Everything left in a heap is at least as expensive as what has just been popped. */
  lemma PoppedIsCheapest(h: seq<Tx>, r: seq<Tx>)
    requires h != [] && MinFirst(Price, h) && multiset(h) == multiset{h[0]} + multiset(r)
    ensures forall t | t in r :: h[0].price <= t.price && t in h
  {
    forall t | t in r ensures h[0].price <= t.price && t in h {
      assert t in multiset(h);
      var i :| 0 <= i < |h| && h[i] == t;
      assert Price(h[0]) <= Price(h[i]);
    }
  }

  class PricedList {
    var items: seq<Tx>
    var stales: int

    ghost predicate Valid()
      reads this
    {
      MinFirst(Price, items)
    }

    constructor ()
      ensures Valid() && items == [] && stales == 0
    {
      items, stales := [], 0;
    }

    method Put(tx: Tx)
      requires Valid()
      modifies this`items
      ensures Valid() && multiset(items) == multiset(old(items)) + multiset{tx}
    {
      items := HeapPush(Price, items, tx);
    }

    /** One step of a sweep: pop the cheapest entry and put it where it belongs. */
    method PopOne(all: Pool, local: set<Address>, ghost items0: seq<Tx>, drop: seq<Tx>, save: seq<Tx>,
                  ghost gone: seq<Tx>)
      returns (drop': seq<Tx>, save': seq<Tx>, ghost gone': seq<Tx>)
      requires items != [] && Sweeping(all, local, items0, items, drop, save, gone)
      modifies this
      ensures Sweeping(all, local, items0, items, drop', save', gone') && |items| == |old(items)| - 1
      ensures stales == old(stales) - (|gone'| - |gone|)
      ensures |drop| <= |drop'| <= |drop| + 1
      ensures forall t | t in drop' :: t in drop || t == old(items)[0]
    {
      drop', save', gone' := drop, save, gone;
      ghost var h := items;
      var tx, rest := HeapPop(Price, items);
      PoppedIsCheapest(h, rest);
      items := rest;
      if tx.hash !in all {
        stales := stales - 1;
        gone' := gone + [tx];
      } else if tx.from in local {
        save' := save + [tx];
      } else {
        drop' := drop + [tx];
      }
    }

    /** The pushes at the end of Cap and Discard. */
    method PushAll(save: seq<Tx>)
      requires Valid()
      modifies this`items
      ensures Valid() && multiset(items) == multiset(old(items)) + multiset(save)
    {
      ghost var items0 := items;
      for i := 0 to |save|
        modifies this`items
        invariant Valid() && multiset(items) == multiset(items0) + multiset(save[..i])
      {
        assert save[..i + 1] == save[..i] + [save[i]];
        Put(save[i]);
      }
      assert save[..|save|] == save;
    }

    /**
     Cap returns exactly the live entries of remote accounts below the threshold and takes them out, together
     with stale entries `gone` that came up; all other entries stay.
     */
    method Cap(all: Pool, threshold: nat, local: set<Address>) returns (drop: seq<Tx>, ghost gone: seq<Tx>)
      requires Valid()
      modifies this
      ensures Valid() && multiset(old(items)) == multiset(items + drop + gone)
      ensures forall t | t in drop :: Live(all, t) && t.from !in local && t.price < threshold
      ensures forall t | t in items && Live(all, t) && t.from !in local :: t.price >= threshold
      ensures forall t | t in gone :: !Live(all, t)
      ensures stales == old(stales) - |gone|
      ensures stales - StaleCount(all, items) == old(stales) - StaleCount(all, old(items))
    {
      ghost var items0 := items;
      var save, stop;
      drop, save, stop, gone := SweepBelow(all, threshold, local);
      ghost var left := items;
      PushAll(save + stop);
      Regrouped(items0, left, items, drop, save, stop, gone);
      Conservation(all, items0, items, drop, gone);
    }

    /** The loop of Cap: sweep until a live entry reaches the threshold; that one is in `stop`. */
    method SweepBelow(all: Pool, threshold: nat, local: set<Address>)
      returns (drop: seq<Tx>, save: seq<Tx>, stop: seq<Tx>, ghost gone: seq<Tx>)
      requires Valid()
      modifies this
      ensures Valid() && stales == old(stales) - |gone|
      ensures multiset(old(items)) == multiset(items) + multiset(drop) + multiset(save) + multiset(stop)
              + multiset(gone)
      ensures forall t | t in drop :: Live(all, t) && t.from !in local && t.price < threshold
      ensures forall t | t in save :: t.from in local
      ensures forall t | t in gone :: !Live(all, t)
      ensures forall t | t in items || t in stop :: t.price >= threshold
    {
      stop := [];
      drop, save, gone := SweepLoop(all, threshold, local);
      if items != [] { stop := PopStop(threshold); }
    }

    method SweepLoop(all: Pool, threshold: nat, local: set<Address>)
      returns (drop: seq<Tx>, save: seq<Tx>, ghost gone: seq<Tx>)
      requires Valid()
      modifies this
      ensures Sweeping(all, local, old(items), items, drop, save, gone) && stales == old(stales) - |gone|
      ensures forall t | t in drop :: t.price < threshold
      ensures items != [] ==> items[0].price >= threshold
    {
      drop, save, gone := [], [], [];
      while items != [] && !(items[0].hash in all && items[0].price >= threshold)
        modifies this
        invariant Sweeping(all, local, old(items), items, drop, save, gone) && stales == old(stales) - |gone|
        invariant forall t | t in drop :: t.price < threshold
        decreases |items|
      {
        drop, save, gone := PopOne(all, local, old(items), drop, save, gone);
      }
    }

    method PopStop(threshold: nat) returns (stop: seq<Tx>)
      requires Valid() && items != [] && items[0].price >= threshold
      modifies this`items
      ensures Valid() && multiset(old(items)) == multiset(items) + multiset(stop)
      ensures forall t | t in items || t in stop :: t.price >= threshold
    {
      ghost var h := items;
      var tx, rest := HeapPop(Price, items);
      PoppedIsCheapest(h, rest);
      stop, items := [tx], rest;
    }

    /**
     Discard returns as many of the cheapest live entries of remote accounts as asked for, or all of them.
     */
    method Discard(all: Pool, count: nat, local: set<Address>) returns (drop: seq<Tx>, ghost gone: seq<Tx>)
      requires Valid()
      modifies this
      ensures Valid() && multiset(old(items)) == multiset(items + drop + gone)
      ensures forall t | t in drop :: Live(all, t) && t.from !in local
      ensures |drop| <= count
      ensures |drop| < count ==> forall t | t in items && Live(all, t) :: t.from in local
      ensures forall d, t | d in drop && t in items && Live(all, t) && t.from !in local :: d.price <= t.price
      ensures forall t | t in gone :: !Live(all, t)
      ensures stales == old(stales) - |gone|
      ensures stales - StaleCount(all, items) == old(stales) - StaleCount(all, old(items))
    {
      ghost var items0, stales0 := items, stales;
      drop, gone := [], [];
      var save: seq<Tx> := [];
      while items != [] && |drop| < count
        modifies this
        invariant Sweeping(all, local, items0, items, drop, save, gone)
        invariant stales == stales0 - |gone| && |drop| <= count
        decreases |items|
      {
        drop, save, gone := PopOne(all, local, items0, drop, save, gone);
      }
      ghost var left := items;
      PushAll(save);
      Regrouped(items0, left, items, drop, save, [], gone);
      Conservation(all, items0, items, drop, gone);
    }

    /** Underpriced compares with the cheapest live entry, after dropping stale ones from the front. */
    method Underpriced(all: Pool, tx: Tx, local: set<Address>) returns (r: bool, ghost gone: seq<Tx>)
      requires Valid()
      modifies this
      ensures Valid() && multiset(old(items)) == multiset(items + [] + gone)
      ensures forall t | t in gone :: !Live(all, t)
      ensures r <==> tx.from !in local && (exists t :: t in old(items) && Live(all, t))
                     && forall t | t in old(items) && Live(all, t) :: t.price >= tx.price
      ensures stales == old(stales) - |gone|
      ensures stales - StaleCount(all, items) == old(stales) - StaleCount(all, old(items))
    {
      gone := [];
      if tx.from in local {
        assert items + [] + gone == items;
        return false, gone;
      }
      ghost var items0 := items;
      gone := DropStaleFront(all);
      Conservation(all, items0, items, [], gone);
      LiveStay(all, items0, items, gone);
      if |items| == 0 { return false, gone; }
      r := items[0].price >= tx.price;
      CheapestIsHead(items);
    }

    /** The loop of Underpriced. */
    method DropStaleFront(all: Pool) returns (ghost gone: seq<Tx>)
      requires Valid()
      modifies this
      ensures Valid() && multiset(old(items)) == multiset(items + [] + gone) && stales == old(stales) - |gone|
      ensures forall t | t in gone :: !Live(all, t)
      ensures items != [] ==> Live(all, items[0])
    {
      ghost var items0, stales0 := items, stales;
      gone := [];
      while items != [] && items[0].hash !in all
        modifies this
        invariant Valid() && stales == stales0 - |gone|
        invariant multiset(items0) == multiset(items) + multiset(gone) && forall t | t in gone :: !Live(all, t)
        decreases |items|
      {
        var _, rest := HeapPop(Price, items);
        gone := gone + [items[0]];
        items, stales := rest, stales - 1;
      }
      assert items + [] + gone == items + gone;
    }

    /** Removed counts a stale entry, and rebuilds the heap from the pool when a quarter of it is stale. */
    method Removed(all: Pool)
      requires Valid()
      modifies this
      ensures Valid()
      ensures old(stales) + 1 <= |old(items)| / 4 ==> items == old(items) && stales == old(stales) + 1
      ensures old(stales) + 1 > |old(items)| / 4 ==>
                && stales == 0 && |items| == |all|
                && (forall t :: t in items <==> t in all.Values)
    {
      stales := stales + 1;
      if stales <= |items| / 4 { return; }
      var reheap := PoolValues(all);
      items := HeapInit(Price, reheap);
      stales := 0;
      assert forall t :: t in items <==> t in reheap by {
        forall t ensures t in items <==> t in reheap { assert t in multiset(items) <==> t in multiset(reheap); }
      }
    }
  }

  method PoolValues(all: Pool) returns (r: seq<Tx>)
    ensures |r| == |all| && forall t :: t in r <==> t in all.Values
  {
    r := [];
    var todo := all.Keys;
    while todo != {}
      invariant todo <= all.Keys && |r| + |todo| == |all|
      invariant forall t :: t in r <==> exists h :: h in all && h !in todo && all[h] == t
      decreases |todo|
    {
      var h :| h in todo;
      ghost var r0, todo0 := r, todo;
      r := r + [all[h]];
      todo := todo - {h};
      forall t ensures t in r <==> exists k :: k in all && k !in todo && all[k] == t {
        if t in r && t !in r0 { assert h in all && h !in todo && all[h] == t; }
        if k :| k in all && k !in todo && all[k] == t {
          if k in todo0 { assert k == h; }
        }
      }
    }
  }

  lemma Regrouped(items0: seq<Tx>, left: seq<Tx>, items: seq<Tx>, drop: seq<Tx>, save: seq<Tx>, stop: seq<Tx>,
                  gone: seq<Tx>)
    requires multiset(items0) == multiset(left) + multiset(drop) + multiset(save) + multiset(stop) + multiset(gone)
    requires multiset(items) == multiset(left) + multiset(save + stop)
    ensures multiset(items0) == multiset(items + drop + gone)
    ensures forall t :: t in items <==> t in left || t in save || t in stop
  {
    assert multiset(save + stop) == multiset(save) + multiset(stop);
    assert multiset(items + drop + gone) == multiset(items) + multiset(drop) + multiset(gone);
    forall t ensures t in items <==> t in left || t in save || t in stop {
      assert t in multiset(items) <==> t in multiset(left) || t in multiset(save) || t in multiset(stop);
    }
  }

  lemma LiveStay(all: Pool, items0: seq<Tx>, items: seq<Tx>, gone: seq<Tx>)
    requires multiset(items0) == multiset(items + [] + gone) && forall t | t in gone :: !Live(all, t)
    ensures forall t | Live(all, t) :: t in items0 <==> t in items
  {
    assert items + [] + gone == items + gone;
    forall t | Live(all, t) ensures t in items0 <==> t in items {
      assert t in multiset(items0) <==> t in multiset(items) || t in multiset(gone);
    }
  }

  lemma CheapestIsHead(items: seq<Tx>)
    requires items != [] && MinFirst(Price, items)
    ensures forall t | t in items :: items[0].price <= t.price
  {
    forall t | t in items ensures items[0].price <= t.price {
      var i :| 0 <= i < |items| && items[i] == t;
      assert Price(items[0]) <= Price(items[i]);
    }
  }
}
