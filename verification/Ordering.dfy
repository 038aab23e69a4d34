/**
 The library orderings the pool relies on, by contract: container/heap keeps a minimum in front, and
 sort.Sort sorts. Nothing else about their arrangement is used.
 */
module Ordering {

  /** A heap shows a minimum at index 0. */
  ghost predicate MinFirst<T>(key: T -> int, h: seq<T>) {
    forall i | 0 <= i < |h| :: key(h[0]) <= key(h[i])
  }

  /** heap.Init: any arrangement with a minimum in front. */
  method HeapInit<T>(key: T -> int, h: seq<T>) returns (r: seq<T>)
    ensures multiset(r) == multiset(h) && |r| == |h| && MinFirst(key, r)
  {
    if h == [] { return h; }
    var min := 0;
    for i := 1 to |h|
      invariant min < |h| && forall j | 0 <= j < i :: key(h[min]) <= key(h[j])
    {
      if key(h[i]) < key(h[min]) { min := i; }
    }
    r := h[0 := h[min]][min := h[0]];
    SwapKeeps(h, 0, min);
  }

  lemma SwapKeeps<T>(h: seq<T>, i: nat, j: nat)
    requires i <= j < |h|
    ensures multiset(h[i := h[j]][j := h[i]]) == multiset(h)
  {
    var one := h[i := h[j]];
    assert multiset(one) == multiset(h) - multiset{h[i]} + multiset{h[j]};
    assert multiset(one[j := h[i]]) == multiset(one) - multiset{one[j]} + multiset{h[i]};
  }

  method HeapPush<T>(key: T -> int, h: seq<T>, x: T) returns (r: seq<T>)
    ensures multiset(r) == multiset(h) + multiset{x} && |r| == |h| + 1 && MinFirst(key, r)
  {
    r := HeapInit(key, h + [x]);
  }

  method HeapPop<T>(key: T -> int, h: seq<T>) returns (x: T, r: seq<T>)
    requires h != []
    ensures x == h[0] && multiset(h) == multiset{x} + multiset(r) && |r| == |h| - 1 && MinFirst(key, r)
  {
    x := h[0];
    assert h == [h[0]] + h[1..];
    r := HeapInit(key, h[1..]);
  }

  /** heap.Remove. */
  method HeapRemove<T>(key: T -> int, h: seq<T>, i: nat) returns (r: seq<T>)
    requires i < |h|
    ensures multiset(h) == multiset{h[i]} + multiset(r) && |r| == |h| - 1 && MinFirst(key, r)
  {
    assert h == h[..i] + [h[i]] + h[i + 1..];
    r := HeapInit(key, h[..i] + h[i + 1..]);
  }

  ghost predicate SortedBy<T>(key: T -> int, s: seq<T>) {
    forall i, j | 0 <= i < j < |s| :: key(s[i]) <= key(s[j])
  }

  method Insert<T>(key: T -> int, s: seq<T>, x: T) returns (r: seq<T>)
    requires SortedBy(key, s)
    ensures multiset(r) == multiset(s) + multiset{x} && |r| == |s| + 1 && SortedBy(key, r)
  {
    var p := 0;
    while p < |s| && key(s[p]) <= key(x)
      invariant p <= |s| && forall j | 0 <= j < p :: key(s[j]) <= key(x)
    {
      p := p + 1;
    }
    r := s[..p] + [x] + s[p..];
    assert s == s[..p] + s[p..];
    InsertedSorted(key, s, x, p);
  }

  lemma InsertedSorted<T>(key: T -> int, s: seq<T>, x: T, p: nat)
    requires SortedBy(key, s) && p <= |s|
    requires forall j | 0 <= j < p :: key(s[j]) <= key(x)
    requires p < |s| ==> key(x) < key(s[p])
    ensures SortedBy(key, s[..p] + [x] + s[p..])
  {
    var r := s[..p] + [x] + s[p..];
    forall i, j | 0 <= i < j < |r| ensures key(r[i]) <= key(r[j]) {
      assert r[i] == if i < p then s[i] else if i == p then x else s[i - 1];
      assert r[j] == if j < p then s[j] else if j == p then x else s[j - 1];
    }
  }

  /** sort.Sort. */
  method Sort<T>(key: T -> int, s: seq<T>) returns (r: seq<T>)
    ensures multiset(r) == multiset(s) && |r| == |s| && SortedBy(key, r)
  {
    r := [];
    for i := 0 to |s|
      invariant |r| == i && multiset(r) == multiset(s[..i]) && SortedBy(key, r)
    {
      assert s[..i + 1] == s[..i] + [s[i]];
      r := Insert(key, r, s[i]);
    }
    assert s[..|s|] == s;
  }
}
