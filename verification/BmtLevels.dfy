/**
 The bottom-up view of the tree (bmt/bmt.go): leaves are segment pairs, every level pairs up the
 one below, and an unpaired last node is passed up unhashed. The main result is that the single
 node left at the top is the reference hash.
 */
module BmtLevels {
  import opened BmtReference

  /** `d` cut into pieces of `w` bytes; only the last piece may be shorter. Never empty. */
  function Chunks(d: Bytes, w: nat): (cs: seq<Bytes>)
    requires w > 0
    ensures |cs| > 0
    ensures |d| <= w ==> cs == [d]
    decreases |d|
  {
    if |d| <= w then [d] else [d[..w]] + Chunks(d[w..], w)
  }

  /** Chunk `j` of `cs2` joins chunks `2j` and `2j + 1` of `cs`; an odd last chunk stays alone. */
  predicate JoinedAt(cs: seq<Bytes>, cs2: seq<Bytes>, w: nat, j: nat)
    requires j < |cs2| == (|cs| + 1) / 2
  {
    if 2 * j + 1 < |cs| then
      cs2[j] == cs[2 * j] + cs[2 * j + 1] && |cs[2 * j]| == w && 0 < |cs[2 * j + 1]| <= w
    else
      cs2[j] == cs[2 * j] && |cs2[j]| <= w
  }

  predicate Joined(cs: seq<Bytes>, cs2: seq<Bytes>, w: nat) {
    |cs2| == (|cs| + 1) / 2 && forall j | 0 <= j < |cs2| :: JoinedAt(cs, cs2, w, j)
  }

  /** Cutting twice as wide joins neighbouring chunks. */
  lemma {:induction false} ChunksDouble(d: Bytes, w: nat)
    requires w > 0
    ensures Joined(Chunks(d, w), Chunks(d, 2 * w), w)
    decreases |d|
  {
    if |d| > 2 * w {
      var rest := d[2 * w..];
      UnfoldTwice(d, w);
      ChunksDouble(rest, w);
      PrependJoined(d[..w], d[w..2 * w], Chunks(rest, w), Chunks(rest, 2 * w), w);
    } else if |d| > w {
      assert Chunks(d, w) == [d[..w], d[w..]];
      assert d == d[..w] + d[w..];
    }
  }

  lemma Unfold(d: Bytes, w: nat)
    requires w > 0 && |d| > w
    ensures Chunks(d, w) == [d[..w]] + Chunks(d[w..], w)
  {
  }

  lemma TwoInFront(a: Bytes, b: Bytes, cs: seq<Bytes>)
    ensures [a] + ([b] + cs) == [a, b] + cs
  {
  }

  lemma TwoSlices(d: Bytes, w: nat)
    requires |d| > 2 * w
    ensures d[w..][..w] == d[w..2 * w] && d[w..][w..] == d[2 * w..] && d[..2 * w] == d[..w] + d[w..2 * w]
  {
  }

  lemma UnfoldTwice(d: Bytes, w: nat)
    requires w > 0 && |d| > 2 * w
    ensures Chunks(d, w) == [d[..w], d[w..2 * w]] + Chunks(d[2 * w..], w)
    ensures Chunks(d, 2 * w) == [d[..w] + d[w..2 * w]] + Chunks(d[2 * w..], 2 * w)
  {
    TwoSlices(d, w);
    Unfold(d, w);
    Unfold(d[w..], w);
    TwoInFront(d[..w], d[w..2 * w], Chunks(d[2 * w..], w));
    Unfold(d, 2 * w);
  }

  lemma PrependJoined(a: Bytes, b: Bytes, cs: seq<Bytes>, cs2: seq<Bytes>, w: nat)
    requires |a| == w && |b| == w > 0
    requires Joined(cs, cs2, w)
    ensures Joined([a, b] + cs, [a + b] + cs2, w)
  {
    var ds, ds2 := [a, b] + cs, [a + b] + cs2;
    forall j | 0 <= j < |ds2|
      ensures JoinedAt(ds, ds2, w, j)
    {
      if j > 0 {
        assert JoinedAt(cs, cs2, w, j - 1);
        assert ds[2 * j] == cs[2 * (j - 1)] && ds2[j] == cs2[j - 1];
      }
    }
  }

  /** The value a segment pair contributes: hashed, unless it is a lone segment to the right of others. */
  function LeafValue(H: BaseHash, hs: nat, c: Bytes, j: nat): Bytes {
    if |c| > hs || j == 0 then H(c) else c
  }

  function LeafValues(H: BaseHash, hs: nat, cs: seq<Bytes>): (vs: seq<Bytes>)
    ensures |vs| == |cs|
  {
    seq(|cs|, j requires 0 <= j < |cs| => LeafValue(H, hs, cs[j], j))
  }

  /** One level up: neighbours are hashed together, an unpaired last value moves up as it is. */
  function PairUp(H: BaseHash, vs: seq<Bytes>): (up: seq<Bytes>)
    ensures |up| == (|vs| + 1) / 2
  {
    if |vs| <= 1 then vs else [H(vs[0] + vs[1])] + PairUp(H, vs[2..])
  }

  lemma {:induction false} PairUpAt(H: BaseHash, vs: seq<Bytes>, j: nat)
    requires j < (|vs| + 1) / 2
    ensures PairUp(H, vs)[j] == if 2 * j + 1 < |vs| then H(vs[2 * j] + vs[2 * j + 1]) else vs[2 * j]
  {
    if j > 0 { PairUpAt(H, vs[2..], j - 1); }
  }

  function Level(H: BaseHash, vs: seq<Bytes>, k: nat): (l: seq<Bytes>)
    ensures |vs| > 0 ==> |l| > 0
  {
    if k == 0 then vs else PairUp(H, Level(H, vs, k - 1))
  }

  /** Width of the data under a node `k` levels above the leaves. */
  function Width(hs: nat, k: nat): (w: nat)
    requires hs > 0
    ensures IsSpan(hs, w)
  {
    if k == 0 then 2 * hs else
      assert 2 * Width(hs, k - 1) / 2 == Width(hs, k - 1);
      2 * Width(hs, k - 1)
  }

  lemma WidthDoubles(hs: nat, k: nat)
    requires hs > 0 && k > 0
    ensures Width(hs, k) == 2 * Width(hs, k - 1) && Width(hs, k - 1) > 0
  {
  }

  /** What the reference says about one piece: its hash, or the piece itself when it is a lone right segment. */
  function RefValue(H: BaseHash, hs: nat, c: Bytes, j: nat, s: nat): Bytes
    requires IsSpan(hs, s)
  {
    if |c| > hs || j == 0 then RefHash(H, hs, c, s) else c
  }

  /** Every node of a level over pieces of width `w` carries the reference value of its piece. */
  predicate Carries(H: BaseHash, hs: nat, vs: seq<Bytes>, cs: seq<Bytes>, w: nat)
    requires IsSpan(hs, w)
  {
    |vs| == |cs| && forall j | 0 <= j < |cs| :: |cs[j]| <= w && vs[j] == RefValue(H, hs, cs[j], j, w)
  }

  /** Every node of every level carries the reference value of the data below it. */
  lemma {:induction false} LevelIsReference(H: BaseHash, hs: nat, d: Bytes, k: nat)
    requires hs > 0
    ensures Carries(H, hs, Level(H, LeafValues(H, hs, Chunks(d, 2 * hs)), k), Chunks(d, Width(hs, k)), Width(hs, k))
  {
    if k == 0 {
      forall j | 0 <= j < |Chunks(d, 2 * hs)|
        ensures |Chunks(d, 2 * hs)[j]| <= 2 * hs
      {
        ChunkLength(d, 2 * hs, j);
      }
    } else {
      LevelIsReference(H, hs, d, k - 1);
      WidthDoubles(hs, k);
      ChunksDouble(d, Width(hs, k - 1));
      LevelStep(H, hs, Level(H, LeafValues(H, hs, Chunks(d, 2 * hs)), k - 1),
                Chunks(d, Width(hs, k - 1)), Chunks(d, Width(hs, k)), Width(hs, k - 1));
    }
  }

  lemma LevelStep(H: BaseHash, hs: nat, vs: seq<Bytes>, cs: seq<Bytes>, cs2: seq<Bytes>, w: nat)
    requires IsSpan(hs, w) && IsSpan(hs, 2 * w)
    requires Joined(cs, cs2, w) && Carries(H, hs, vs, cs, w)
    ensures Carries(H, hs, PairUp(H, vs), cs2, 2 * w)
  {
    var up := PairUp(H, vs);
    forall j | 0 <= j < |cs2|
      ensures |cs2[j]| <= 2 * w && up[j] == RefValue(H, hs, cs2[j], j, 2 * w)
    {
      assert JoinedAt(cs, cs2, w, j);
      PairUpAt(H, vs, j);
      if 2 * j + 1 < |cs| {
        PairIsReference(H, hs, cs[2 * j], cs[2 * j + 1], j, w);
      } else {
        SpanIrrelevant(H, hs, cs2[j], w, 2 * w);
      }
    }
  }

  lemma {:induction false} ChunkLength(d: Bytes, w: nat, j: nat)
    requires w > 0 && j < |Chunks(d, w)|
    ensures |Chunks(d, w)[j]| <= w
    decreases |d|
  {
    if |d| > w && j > 0 {
      ChunkLength(d[w..], w, j - 1);
    }
  }

  /** Hashing a full left piece with the piece to its right is one step of the reference recursion. */
  lemma PairIsReference(H: BaseHash, hs: nat, a: Bytes, b: Bytes, j: nat, w: nat)
    requires IsSpan(hs, w) && |a| == w && 0 < |b| <= w
    ensures IsSpan(hs, 2 * w)
    ensures H(RefValue(H, hs, a, 2 * j, w) + RefValue(H, hs, b, 2 * j + 1, w))
         == RefValue(H, hs, a + b, j, 2 * w)
  {
    assert 2 * w / 2 == w;
    var c := a + b;
    var t := Halve(hs, 2 * w, |c|);
    assert t == w by {
      if t > w { SpanGap(hs, w, t); }
      if t < w { SpanGap(hs, t, w); }
    }
    assert c[..t] == a && c[t..] == b;
  }

  /** Levels shrink to one node. */
  function Height(n: nat): nat
    decreases n
  {
    if n <= 1 then 0 else 1 + Height((n + 1) / 2)
  }

  lemma {:induction false} HeightReachesTop(H: BaseHash, vs: seq<Bytes>, k: nat)
    requires |Level(H, vs, k)| > 0
    ensures |Level(H, vs, k + Height(|Level(H, vs, k)|))| == 1
    decreases |Level(H, vs, k)|
  {
    if |Level(H, vs, k)| > 1 {
      assert |Level(H, vs, k + 1)| == (|Level(H, vs, k)| + 1) / 2;
      HeightReachesTop(H, vs, k + 1);
    }
  }

  /** The bottom-up root of a chunk. */
  function TreeHash(H: BaseHash, hs: nat, d: Bytes): Bytes
    requires hs > 0
  {
    var vs := LeafValues(H, hs, Chunks(d, 2 * hs));
    HeightReachesTop(H, vs, 0);
    Level(H, vs, Height(|vs|))[0]
  }

  /**
   For every chunk within capacity and every segment count, pairing nodes bottom-up and passing an
   unpaired last node up unhashed gives the reference hash.
   */
  lemma TreeHashIsReference(H: BaseHash, rh: RefHasher, d: Bytes)
    requires rh.Valid() && |d| <= rh.cap
    ensures TreeHash(H, rh.hs, d) == rh.Hash(H, d)
  {
    var vs := LeafValues(H, rh.hs, Chunks(d, 2 * rh.hs));
    var k := Height(|vs|);
    HeightReachesTop(H, vs, 0);
    LevelIsReference(H, rh.hs, d, k);
    var w := Width(rh.hs, k);
    assert |Chunks(d, w)| == 1;
    SingleChunk(d, w);
    SpanIrrelevant(H, rh.hs, d, w, rh.span);
  }

  lemma SingleChunk(d: Bytes, w: nat)
    requires w > 0 && |Chunks(d, w)| == 1
    ensures |d| <= w && Chunks(d, w)[0] == d
  {
  }
}
