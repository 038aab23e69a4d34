/**
 The hasher as a whole (bmt/bmt.go): a fresh tree, the data written in any pieces, and every
 interleaving of the goroutines give the hash that a fresh reference hasher gives.
 */
module BmtHasher {
  import opened BmtReference
  import opened BmtLevels
  import opened BmtTree
  import opened BmtRun
  import opened BmtTheorem
  import opened BmtWriter

  const FRESH := Node([], [], 0, false, false)

  /** The nodes of the topmost levels, down to the height `h`, and the first `i` of the level below. */
  ghost predicate Built(depth: nat, h: nat, i: nat, nodes: Nodes) {
    && (forall n :: n in nodes <==> InTree(depth, n) && (n.height >= h || (n.height == h - 1 && n.index < i)))
    && (forall n | n in nodes :: nodes[n] == FRESH.(root := n == NodeId(depth, 0)))
  }

  /** One level of NewTree, with twice as many nodes as the level above. */
  method NewLevel(depth: nat, h: nat, count: nat, above: Nodes) returns (nodes: Nodes)
    requires h < depth && count == Pow2(depth - h) && Built(depth, h + 1, 0, above)
    ensures Built(depth, h, 0, nodes)
  {
    nodes := above;
    for i := 0 to count
      invariant Built(depth, h + 1, i, nodes)
    {
      nodes := nodes[NodeId(h, i) := FRESH];
    }
  }

  /** NewTree: from the root, level by level, down to a leaf for every segment pair. */
  method NewTree(segmentCount: nat) returns (depth: nat, nodes: Nodes)
    requires segmentCount > 0
    ensures CleanTree(depth, nodes) && segmentCount <= 2 * Pow2(depth)
    ensures forall n | n in nodes :: nodes[n].state == 0
  {
    depth := Depth(segmentCount);
    nodes := map[NodeId(depth, 0) := FRESH.(root := true)];
    var count := 2;
    for d := 0 to depth
      invariant count == 2 * Pow2(d) && Built(depth, depth - d, 0, nodes)
    {
      nodes := NewLevel(depth, depth - d - 1, count, nodes);
      count := 2 * count;
    }
  }

  /** What Sum may rely on, whatever the interleaving: see EveryRunComputesReference and EveryRunLeavesTreeReusable. */
  ghost predicate Computes(c: Chunk, nodes: Nodes, run: seq<State>, hash: Bytes)
    requires c.Valid() && run != []
  {
    var end := run[|run| - 1];
    && (end.results == [] || end.results == [hash])
    && |run| <= Rank(c, Init(c, nodes)) + 1
    && (end.results == [] ==> exists m :: Enabled(c, end, m))
    && (end.results != [] ==> CleanTree(c.depth, Released(c.depth, end.nodes, c.Last())))
  }

  lemma FreshRun(H: BaseHash, rh: RefHasher, depth: nat, d: Bytes, nodes: Nodes, run: seq<State>)
    requires rh.Valid() && |d| <= rh.cap && |Chunks(d, 2 * rh.hs)| <= Pow2(depth)
    requires CleanTree(depth, nodes) && (forall n | n in nodes :: nodes[n].state == 0)
    requires IsRun(ChunkOf(H, rh.hs, depth, d), nodes, run)
    ensures ChunkOf(H, rh.hs, depth, d).Valid() && Computes(ChunkOf(H, rh.hs, depth, d), nodes, run, rh.Hash(H, d))
  {
    var c := ChunkOf(H, rh.hs, depth, d);
    ChunkOfValid(H, rh.hs, depth, d);
    EveryRunComputesReference(H, rh, depth, d, nodes, run);
    if run[|run| - 1].results != [] { EveryRunLeavesTreeReusable(c, nodes, run); }
  }

  /**
   From the segment count and the pieces of the data alone: NewTree, Write and NewRefHasher give a tree, segment
   pairs and a reference hasher for which every run of the goroutines computes the reference hash of the data,
   and leaves the tree as clean as it was.
   */
  method HashChunk(H: BaseHash, hs: nat, segmentCount: nat, pieces: seq<Bytes>)
    returns (depth: nat, nodes: Nodes, segs: seq<Bytes>, rh: RefHasher)
    requires hs > 0 && segmentCount > 0 && |Concat(pieces)| <= segmentCount * hs
    ensures CleanTree(depth, nodes) && rh.hs == hs && rh.cap == hs * segmentCount && rh.Valid()
    ensures Chunk(H, hs, depth, segs).Valid()
    ensures forall run | IsRun(Chunk(H, hs, depth, segs), nodes, run) ::
              Computes(Chunk(H, hs, depth, segs), nodes, run, rh.Hash(H, Concat(pieces)))
  {
    depth, nodes := NewTree(segmentCount);
    rh := NewRefHasher(hs, segmentCount);
    var hasher := new Hasher(hs, segmentCount);
    hasher.WriteAll(pieces);
    segs := hasher.pushed + [hasher.segment];
    hasher.CursorInTree(depth);
    ghost var data := Concat(pieces);
    assert [] + data == data;
    AnyRun(H, rh, depth, data, nodes, segs);
  }

  lemma AnyRun(H: BaseHash, rh: RefHasher, depth: nat, d: Bytes, nodes: Nodes, segs: seq<Bytes>)
    requires rh.Valid() && |d| <= rh.cap && segs == Chunks(d, 2 * rh.hs) && |segs| <= Pow2(depth)
    requires CleanTree(depth, nodes) && (forall n | n in nodes :: nodes[n].state == 0)
    ensures var c := Chunk(H, rh.hs, depth, segs);
            c.Valid() && forall run | IsRun(c, nodes, run) :: Computes(c, nodes, run, rh.Hash(H, d))
  {
    ChunkOfValid(H, rh.hs, depth, d);
    forall run | IsRun(ChunkOf(H, rh.hs, depth, d), nodes, run)
      ensures Computes(ChunkOf(H, rh.hs, depth, d), nodes, run, rh.Hash(H, d))
    {
      FreshRun(H, rh, depth, d, nodes, run);
    }
  }
}
