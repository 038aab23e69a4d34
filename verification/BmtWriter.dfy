/**
 Hasher.Write (bmt/bmt.go): incoming bytes are cut into segment pairs; a pair is pushed to the tree
 when more data follows it, and the last pair stays open. Whatever the pieces in which the data
 arrives, the pushed pairs and the open one are the data cut into pairs.
 */
module BmtWriter {
  import opened BmtReference
  import opened BmtLevels
  import opened BmtTree

  /** Appending to a partly filled last chunk. */
  lemma {:induction false} ChunksFill(d: Bytes, e: Bytes, w: nat)
    requires w > 0
    requires var cs := Chunks(d, w); |cs[|cs| - 1]| + |e| <= w
    ensures var cs := Chunks(d, w); Chunks(d + e, w) == cs[..|cs| - 1] + [cs[|cs| - 1] + e]
    decreases |d|
  {
    if |d| > w {
      var rest := Chunks(d[w..], w);
      ChunksFill(d[w..], e, w);
      assert (d + e)[w..] == d[w..] + e && (d + e)[..w] == d[..w];
      assert Chunks(d, w)[|Chunks(d, w)| - 1] == rest[|rest| - 1];
    }
  }

  /** Appending a further chunk after a full one. */
  lemma {:induction false} ChunksAppend(d: Bytes, e: Bytes, w: nat)
    requires w > 0 && 0 < |e| <= w
    requires var cs := Chunks(d, w); |cs[|cs| - 1]| == w
    ensures Chunks(d + e, w) == Chunks(d, w) + [e]
    decreases |d|
  {
    if |d| > w {
      ChunksAppend(d[w..], e, w);
      assert (d + e)[w..] == d[w..] + e && (d + e)[..w] == d[..w];
    } else {
      assert (d + e)[w..] == e && (d + e)[..w] == d;
    }
  }

  lemma {:induction false} ChunksLength(d: Bytes, w: nat)
    requires w > 0
    ensures var cs := Chunks(d, w);
            && |d| == (|cs| - 1) * w + |cs[|cs| - 1]|
            && |cs[|cs| - 1]| <= w
            && (|cs| > 1 ==> |cs[|cs| - 1]| > 0)
    decreases |d|
  {
    if |d| > w {
      var rest := Chunks(d[w..], w);
      ChunksLength(d[w..], w);
      assert |Chunks(d, w)| - 1 == |rest| - 1 + 1;
      assert (|rest| - 1 + 1) * w == (|rest| - 1) * w + w;
    }
  }

  /** `pushed` and the open pair `s` are the data `d` cut into pairs. */
  predicate Cut(pushed: seq<Bytes>, s: Bytes, d: Bytes, w: nat)
    requires w > 0
  {
    pushed + [s] == Chunks(d, w)
  }

  lemma FillPair(pushed: seq<Bytes>, s: Bytes, d: Bytes, e: Bytes, w: nat)
    requires w > 0 && Cut(pushed, s, d, w) && |s| + |e| <= w
    ensures Cut(pushed, s + e, d + e, w)
  {
    assert (pushed + [s])[|pushed|] == s && (pushed + [s])[..|pushed|] == pushed;
    ChunksFill(d, e, w);
  }

  lemma NextPair(pushed: seq<Bytes>, s: Bytes, d: Bytes, e: Bytes, w: nat)
    requires w > 0 && Cut(pushed, s, d, w) && |s| == w && 0 < |e| <= w
    ensures Cut(pushed + [s], e, d + e, w)
  {
    assert (pushed + [s])[|pushed|] == s;
    ChunksAppend(d, e, w);
  }

  lemma PushPair(pushed: seq<Bytes>, s: Bytes, d: Bytes, b: Bytes, rest: nat, sz: nat, w: nat)
    requires w > 0 && 0 < sz <= w && rest + sz <= |b| && |s| == w
    requires Cut(pushed, s, d + b[..rest], w)
    ensures Cut(pushed + [s], b[rest..rest + sz], d + b[..rest + sz], w)
  {
    NextPair(pushed, s, d + b[..rest], b[rest..rest + sz], w);
    assert d + b[..rest] + b[rest..rest + sz] == d + b[..rest + sz];
  }

  lemma CutLength(pushed: seq<Bytes>, s: Bytes, d: Bytes, w: nat)
    requires w > 0 && Cut(pushed, s, d, w)
    ensures |d| == |pushed| * w + |s| && |s| <= w && (pushed != [] ==> |s| > 0)
  {
    assert (pushed + [s])[|pushed|] == s;
    ChunksLength(d, w);
  }

  /** The arithmetic at the start of Write: what is asked for fits behind the open pair. */
  lemma Room(size: nat, count: nat, cur: nat, len: nat, l: nat, pushed: seq<Bytes>, s: Bytes, d: Bytes)
    requires size > 0 && Cut(pushed, s, d, 2 * size) && cur == |pushed| && len == |s|
    requires |d| + l <= count * size
    ensures count * size - cur * 2 * size >= len + l && len <= 2 * size
  {
    CutLength(pushed, s, d, 2 * size);
    assert cur * (2 * size) == cur * 2 * size;
  }

  /** The loop of Write: full pairs are pushed as long as more data follows. */
  method PushRest(ghost d: Bytes, b: Bytes, size: nat, count: nat, pushed: seq<Bytes>, s0: Bytes,
                  need0: int, rest0: nat, size0: nat, cur: nat)
    returns (out: seq<Bytes>, s: Bytes, i: nat)
    requires size > 0 && cur == |pushed| && |d| + |b| <= count * size
    requires 0 <= need0 && rest0 + need0 == |b|
    requires need0 > 0 ==> size0 == 2 * size && |s0| == 2 * size
    requires Cut(pushed, s0, d + b[..rest0], 2 * size)
    ensures Cut(out, s, d + b, 2 * size) && i == |out| && pushed <= out
  {
    var need, rest, sz: int := need0, rest0, size0;
    out, s, i := pushed, s0, cur;
    while need > 0 && i < (count + 1) / 2 - 1
      invariant 0 <= rest <= |b| && i == |out| && pushed <= out
      invariant if need >= 0 then rest + need == |b| else rest == |b|
      invariant need > 0 ==> sz == 2 * size && |s| == 2 * size
      invariant Cut(out, s, d + b[..rest], 2 * size)
      decreases |b| - rest
    {
      ghost var before := out;
      out := out + [s];  // self.writeSegment(i, s, self.depth)
      need := need - sz;
      if need < 0 { sz := sz + need; }
      PushPair(before, s, d, b, rest, sz, 2 * size);
      s := b[rest..rest + sz];
      rest := rest + sz;
      i := i + 1;
    }
    if need > 0 {
      EnoughPairs(d + b[..rest], need, out, s, size, count);
      assert false;
    }
    assert b[..rest] == b;
  }

  class Hasher {
    const size: nat   // segment size
    const count: nat  // maximal number of segments
    var cur: nat
    var segment: Bytes
    var pushed: seq<Bytes>  // the arguments of writeSegment, in order
    ghost var data: Bytes   // everything written so far

    constructor (size: nat, count: nat)
      requires size > 0 && count > 0
      ensures Valid() && data == [] && this.size == size && this.count == count
    {
      this.size, this.count := size, count;
      cur, segment, pushed, data := 0, [], [], [];
    }

    ghost predicate Valid()
      reads this
    {
      && size > 0 && count > 0
      && |data| <= count * size
      && Cut(pushed, segment, data, 2 * size)
      && cur == |pushed|
    }

    /** Write, for data within the capacity that the hasher is documented for. */
    method Write(b: Bytes) returns (n: nat)
      requires Valid() && |data| + |b| <= count * size
      modifies this
      ensures Valid() && data == old(data) + b && n == |b|
      ensures Cut(pushed, segment, old(data) + b, 2 * size) && cur == |pushed|
      ensures old(pushed) <= pushed
    {
      n := |b|;
      if n == 0 {
        assert data + b == data;
        return;
      }
      ghost var d0, w := data, 2 * size;
      assert |d0 + b| <= count * size;
      var s := segment;
      var need: int := count * size - cur * 2 * size;
      Room(size, count, cur, |s|, |b|, pushed, s, d0);
      var sz: int := size;
      if need > sz { sz := sz * 2; }
      if |b| < need { need := |b|; }
      var rest: int := sz - |s|;
      if need < rest { rest := need; }
      FillPair(pushed, s, d0, b[..rest], w);
      s := s + b[..rest];
      var out, s', i := PushRest(d0, b, size, count, pushed, s, need - rest, rest, sz, cur);
      segment, cur, pushed, data := s', i, out, d0 + b;
    }

    /** Any way of splitting the data leaves the same pushed pairs, cursor and open segment. */
    method WriteAll(pieces: seq<Bytes>)
      requires Valid() && |data| + |Concat(pieces)| <= count * size
      modifies this
      ensures Valid() && data == old(data) + Concat(pieces)
      ensures Cut(pushed, segment, old(data) + Concat(pieces), 2 * size) && cur == |pushed|
    {
      var i := 0;
      while i < |pieces|
        invariant i <= |pieces| && Valid()
        invariant data + Concat(pieces[i..]) == old(data) + Concat(pieces)
      {
        assert pieces[i..][0] == pieces[i] && pieces[i..][1..] == pieces[i + 1..];
        var _ := Write(pieces[i]);
        i := i + 1;
      }
      assert data == data + Concat(pieces[i..]);
    }

    /** The leaf that Sum and writeSegment use for the open pair exists in the tree NewTree builds. */
    lemma CursorInTree(depth: nat)
      requires Valid() && count <= 2 * Pow2(depth)
      ensures cur < Pow2(depth) && InTree(depth, NodeId(0, cur))
    {
      CutLength(pushed, segment, data, 2 * size);
      if cur > 0 {
        assert cur * (2 * size) < count * size;
        CancelSize(2 * cur, count, size);
        LeafForEveryPair(count, depth, cur);
      }
    }
  }

  function Concat(pieces: seq<Bytes>): Bytes {
    if pieces == [] then [] else pieces[0] + Concat(pieces[1..])
  }

  lemma CancelSize(a: nat, b: nat, size: nat)
    requires a * size < b * size
    ensures a < b
  {
    assert a >= b ==> (a - b) * size >= 0;
  }

  /** While data is left, the pair being filled is not the last one the hasher has room for. */
  lemma EnoughPairs(d: Bytes, need: int, pushed: seq<Bytes>, s: Bytes, size: nat, count: nat)
    requires size > 0 && need > 0 && |s| == 2 * size
    requires Cut(pushed, s, d, 2 * size) && |d| + need <= count * size
    ensures |pushed| < (count + 1) / 2 - 1
  {
    CutLength(pushed, s, d, 2 * size);
    var i := |pushed|;
    assert (i + 1) * (2 * size) == i * (2 * size) + 2 * size;
    assert (2 * (i + 1)) * size == (i + 1) * (2 * size);
    CancelSize(2 * (i + 1), count, size);
  }
}
