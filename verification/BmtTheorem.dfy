/**
 Safety and progress over whole runs of the concurrent hasher: every interleaving ends, produces
 exactly one result, the result is the reference hash, and the tree is left ready for the next chunk.
 */
module BmtTheorem {
  import opened BmtReference
  import opened BmtLevels
  import opened BmtTree
  import opened BmtRun
  import opened BmtInvariant
  import opened BmtSteps

  // ---------- The caller's steps ----------

  lemma InitInv(c: Chunk, nodes0: Nodes)
    requires c.Valid() && CleanTree(c.depth, nodes0)
    ensures Inv(c, nodes0, Init(c, nodes0))
  {
    var s := Init(c, nodes0);
    forall n | n in nodes0
      ensures Toggles(c, s.gs, n) == 0 && !SomeCrossed(c, s.gs, n)
    {
    }
  }

  lemma DepthPositive(c: Chunk)
    requires c.Valid() && c.Last() > 0
    ensures c.depth > 0 && Top(c) > 0
  {
    TopIsFirstInitial(|c.segs|, 0);
  }

  lemma WriteKeepsInv(c: Chunk, nodes0: Nodes, s: State)
    requires Inv(c, nodes0, s) && CallerEnabled(c, s) && s.caller.Writing? && s.caller.next < c.Last()
    ensures Inv(c, nodes0, CallerStep(c, s))
  {
    var t := s.caller.next;
    var g := Spawn(c, t, c.depth);
    DepthPositive(c);
    assert s.gs[t].NotStarted?;
    ExclusiveKept(c, s.gs, t, g);
    CountersKept(c, nodes0, s.nodes, s.nodes, s.gs, t, g);
    FieldsKept(c, s.nodes, s.nodes, s.gs, t, g);
    NobodySent(c, s.gs, t);
  }

  lemma BeginSumKeepsInv(c: Chunk, nodes0: Nodes, s: State)
    requires Inv(c, nodes0, s) && CallerEnabled(c, s) && s.caller.Writing? && s.caller.next >= c.Last()
    ensures Inv(c, nodes0, CallerStep(c, s))
  {
    if c.Last() > 0 { DepthPositive(c); }
    assert Anc(1, c.Last()) == Anc(0, c.Last()) / 2;
  }

  /** finalise clears right fields on the last path before anything is deposited there. */
  lemma FinaliseKeepsFields(c: Chunk, nodes0: Nodes, s: State)
    requires Inv(c, nodes0, s) && s.caller.Finalising? && s.caller.n in s.nodes
    ensures FieldsOk(c, FinaliseStep(s).nodes, s.gs)
  {
    var s', n, last := FinaliseStep(s), s.caller.n, c.Last();
    assert s.gs[last].NotStarted?;
    forall u: nat, m: NodeId | u < |s.gs| && m in s'.nodes && HasDeposited(s.gs[u], m)
      ensures Carried(c, m.height, u) == Side(s'.nodes[m], FromLeft(m.height, u))
    {
      assert GoOk(c, s.gs[u], u);
      if m.height > 0 {
        AncMonotone(m.height - 1, u, last);
      }
    }
  }

  lemma FinaliseKeepsFlags(c: Chunk, s: State)
    requires |c.segs| > 0 && CallerOk(c, s.caller) && FlagsOk(c, s.nodes, s.caller)
    requires s.caller.Finalising? && s.caller.n in s.nodes
    ensures FlagsOk(c, FinaliseStep(s).nodes, FinaliseStep(s).caller)
    ensures CallerOk(c, FinaliseStep(s).caller)
  {
    TopIsFirstInitial(|c.segs|, s.caller.n.height);
  }

  lemma FinaliseKeepsInv(c: Chunk, nodes0: Nodes, s: State)
    requires Inv(c, nodes0, s) && s.caller.Finalising? && s.caller.n in s.nodes
    ensures Inv(c, nodes0, FinaliseStep(s))
  {
    FinaliseKeepsFields(c, nodes0, s);
    FinaliseKeepsFlags(c, s);
  }

  lemma LaunchKeepsInv(c: Chunk, nodes0: Nodes, s: State)
    requires Inv(c, nodes0, s) && CallerEnabled(c, s) && s.caller.Launching?
    ensures Inv(c, nodes0, CallerStep(c, s))
  {
    var t := c.Last();
    var g := Spawn(c, t, s.caller.d);
    assert s.gs[t].NotStarted?;
    if t > 0 { DepthPositive(c); }
    assert GoOk(c, g, t);
    ExclusiveKept(c, s.gs, t, g);
    CountersKept(c, nodes0, s.nodes, s.nodes, s.gs, t, g);
    FieldsKept(c, s.nodes, s.nodes, s.gs, t, g);
    NobodySent(c, s.gs, t);
  }

  lemma StepKeepsInv(c: Chunk, nodes0: Nodes, s: State, m: Mover)
    requires Inv(c, nodes0, s) && Enabled(c, s, m)
    ensures Inv(c, nodes0, Step(c, s, m))
  {
    match m
    case GoroutineMoves(t) => GoKeepsInv(c, nodes0, s, t);
    case CallerMoves =>
      match s.caller
      case Writing(next) =>
        if next < c.Last() { WriteKeepsInv(c, nodes0, s); } else { BeginSumKeepsInv(c, nodes0, s); }
      case Finalising(_, _, _) => FinaliseKeepsInv(c, nodes0, s);
      case Launching(_) => LaunchKeepsInv(c, nodes0, s);
  }

  // ---------- Quiescence ----------

  /** Nothing is left to do: the caller waits for the result and every goroutine has ended. */
  predicate Quiescent(s: State) {
    s.caller.Waiting? && forall t: nat | t < |s.gs| :: s.gs[t].Returned? || s.gs[t].Sent?
  }

  /** No node a goroutine or the caller refers to is missing, so some step is possible until quiescence. */
  lemma Progress(c: Chunk, nodes0: Nodes, s: State)
    requires CleanTree(c.depth, nodes0) && Inv(c, nodes0, s)
    ensures Quiescent(s) || exists m :: Enabled(c, s, m)
  {
    TopInTree(|c.segs|, c.depth);
    if !s.caller.Waiting? {
      if s.caller.Finalising? {
        AncInTree(c.depth, s.caller.n.height, c.Last());
        assert InTree(c.depth, s.caller.n);
      }
      assert Enabled(c, s, CallerMoves);
    } else if !Quiescent(s) {
      var t: nat :| t < |s.gs| && !s.gs[t].Returned? && !s.gs[t].Sent?;
      assert GoOk(c, s.gs[t], t) && Launched(c, s.caller, t);
      var h := if s.gs[t].AtNode? then s.gs[t].n.height else 0;
      AncInTree(c.depth, h, t);
      assert InTree(c.depth, NodeId(h, Anc(h, t)));
      assert Enabled(c, s, GoroutineMoves(t));
    }
  }

  /** Of the two goroutines that bring a node its children's values, the one that did not return there went on. */
  lemma OneGoesOn(c: Chunk, gs: seq<Goroutine>, t: nat, u: nat, k: nat, j: nat)
    requires t < |gs| && u < |gs| == |c.segs| && AtMostOneReturns(gs) && 0 < k <= Top(c)
    requires gs[t] == Returned(NodeId(k, j)) && Anc(k - 1, t) == 2 * j
    requires GoOk(c, gs[u], u) && (gs[u].Returned? || gs[u].Sent?) && Reached(c, gs[u]) >= k - 1
             && Anc(k - 1, u) == 2 * j + 1
    ensures Reached(c, gs[u]) >= k && Anc(k, u) == j
  {
  }

  /** At the end some goroutine has produced every node's value. */
  lemma {:induction false} EveryNodeProduced(c: Chunk, nodes0: Nodes, s: State, k: nat, j: nat) returns (t: nat)
    requires Inv(c, nodes0, s) && Quiescent(s)
    requires k <= Top(c) && j <= Anc(k, c.Last())
    ensures t < |s.gs| && Reached(c, s.gs[t]) >= k && Anc(k, t) == j
  {
    if k == 0 {
      t := j;
      assert GoOk(c, s.gs[t], t);
    } else {
      t := EveryNodeProduced(c, nodes0, s, k - 1, 2 * j);
      assert GoOk(c, s.gs[t], t);
      if Reached(c, s.gs[t]) == k - 1 {
        assert s.gs[t] == Returned(NodeId(k, j));
        var u := EveryNodeProduced(c, nodes0, s, k - 1, 2 * j + 1);
        assert GoOk(c, s.gs[u], u);
        OneGoesOn(c, s.gs, t, u, k, j);
        t := u;
      }
    }
  }

  /** When nothing is left to do, exactly one result has been sent, and it is the value at the top. */
  lemma OneResult(c: Chunk, nodes0: Nodes, s: State)
    requires Inv(c, nodes0, s) && Quiescent(s)
    ensures s.results == [Val(c, Top(c), 0)]
  {
    var t := EveryNodeProduced(c, nodes0, s, Top(c), 0);
    assert GoOk(c, s.gs[t], t);
    assert s.gs[t].Sent?;
  }

  /** The goroutine that sends the result is the last: when Sum receives it, nothing is left to do. */
  lemma ResultMeansQuiescent(c: Chunk, nodes0: Nodes, s: State)
    requires Inv(c, nodes0, s) && s.results != []
    ensures Quiescent(s)
  {
    var t: nat :| t < |s.gs| && s.gs[t].Sent?;
    TopAbove(c, t);
    forall t': nat | t' < |s.gs| && t' != t ensures s.gs[t'].Returned? {
      TopAbove(c, t');
      assert Anc(Top(c), t) == Anc(Top(c), t');
    }
    assert !s.gs[c.Last()].NotStarted? && Launched(c, s.caller, c.Last());
  }

  /** When nothing is left to do, every node has been toggled twice or not at all. */
  lemma CountersAtRest(c: Chunk, nodes0: Nodes, s: State, n: NodeId)
    requires Inv(c, nodes0, s) && Quiescent(s) && n in s.nodes
    ensures s.nodes[n].state == After(nodes0[n].state, if Balanced(c, n) then 2 else 0)
    ensures s.nodes[n].state % 2 == 0
  {
    assert Resting(nodes0[n]);
    if Balanced(c, n) {
      var t := EveryNodeProduced(c, nodes0, s, n.height, n.index);
      assert Crosses(c, s.gs[t], t, n);
      assert SomeCrossed(c, s.gs, n);
      assert After(nodes0[n].state, 2) == Inc32(Inc32(nodes0[n].state)) by {
        assert After(nodes0[n].state, 1) == Inc32(After(nodes0[n].state, 0));
      }
    }
  }

  // ---------- Releasing the tree ----------

  /** The tree after releaseTree: no marks are left on the path from leaf `cur` to the root. */
  function Released(depth: nat, nodes: Nodes, cur: nat): (r: Nodes)
    ensures r.Keys == nodes.Keys
  {
    map n | n in nodes ::
      if n.index == Anc(n.height, cur) then nodes[n].(unbalanced := false, root := nodes[n].root && n.height == depth)
      else nodes[n]
  }

  /** releaseTree walks up from the leaf of the last pair. */
  method ReleaseTree(depth: nat, nodes: Nodes, cur: nat) returns (r: Nodes)
    requires (forall n :: n in nodes <==> InTree(depth, n)) && cur < Pow2(depth)
    ensures r == Released(depth, nodes, cur)
  {
    r := nodes;
    var k := 0;
    ghost var full := Released(depth, nodes, cur);
    while k <= depth
      invariant k <= depth + 1 && r.Keys == nodes.Keys
      invariant forall n | n in nodes :: r[n] == if n.height < k then full[n] else nodes[n]
    {
      AncInTree(depth, k, cur);
      var n := NodeId(k, Anc(k, cur));
      assert InTree(depth, n);
      r := r[n := r[n].(unbalanced := false, root := r[n].root && k == depth)];
      k := k + 1;
    }
  }

  /** The tree can be used again if and only if no counter was about to wrap around. */
  lemma ReusableIff(c: Chunk, nodes0: Nodes, s: State)
    requires CleanTree(c.depth, nodes0) && Inv(c, nodes0, s) && Quiescent(s)
    ensures CleanTree(c.depth, Released(c.depth, s.nodes, c.Last()))
       <==> forall n | n in nodes0 && Balanced(c, n) :: nodes0[n].state != 0x7fff_fffe
  {
    var r := Released(c.depth, s.nodes, c.Last());
    forall n | n in r
      ensures !r[n].unbalanced && r[n].root == (n == NodeId(c.depth, 0))
      ensures Resting(r[n]) <==> !(Balanced(c, n) && nodes0[n].state == 0x7fff_fffe)
    {
      ReleasedNode(c, nodes0, s, n);
    }
    assert CleanTree(c.depth, r) <==> forall n | n in r :: Resting(r[n]);
  }

  lemma ReleasedNode(c: Chunk, nodes0: Nodes, s: State, n: NodeId)
    requires CleanTree(c.depth, nodes0) && Inv(c, nodes0, s) && Quiescent(s) && n in s.nodes
    ensures var r := Released(c.depth, s.nodes, c.Last());
            && !r[n].unbalanced && r[n].root == (n == NodeId(c.depth, 0))
            && (Resting(r[n]) <==> !(Balanced(c, n) && nodes0[n].state == 0x7fff_fffe))
  {
    CountersAtRest(c, nodes0, s, n);
    assert Resting(nodes0[n]) && InTree(c.depth, n);
    TopAbove(c, c.Last());
    AfterTwo(nodes0[n].state);
  }

  lemma AfterTwo(state: int)
    requires 0 <= state <= 0x7fff_ffff && state % 2 == 0
    ensures After(state, 2) == if state == 0x7fff_fffe then -0x8000_0000 else state + 2
  {
    assert After(state, 1) == Inc32(After(state, 0));
  }

  // ---------- Termination ----------

  function GoRank(top: nat, g: Goroutine): int {
    match g
    case NotStarted => 3 * top + 5
    case Hashing(_) => 3 * top + 4
    case AtNode(n, _, _, _, _, pc) =>
      3 * (top - n.height) + (match pc case Arriving => 3 case Deposited => 2 case Combining => 1)
    case Returned(_) => 0
    case Sent => 0
  }

  function GoRanks(top: nat, gs: seq<Goroutine>): int {
    if gs == [] then 0 else GoRank(top, gs[0]) + GoRanks(top, gs[1..])
  }

  lemma {:induction false} GoRanksUpdate(top: nat, gs: seq<Goroutine>, t: nat, g: Goroutine)
    requires t < |gs|
    ensures GoRanks(top, gs[t := g]) == GoRanks(top, gs) - GoRank(top, gs[t]) + GoRank(top, g)
  {
    if t == 0 {
      assert gs[t := g][1..] == gs[1..];
    } else {
      assert gs[t := g][1..] == gs[1..][t - 1 := g];
      GoRanksUpdate(top, gs[1..], t - 1, g);
    }
  }

  lemma {:induction false} GoRanksPositive(top: nat, gs: seq<Goroutine>)
    requires forall t: nat | t < |gs| :: GoRank(top, gs[t]) >= 0
    ensures GoRanks(top, gs) >= 0
  {
    if gs != [] {
      forall t: nat | t < |gs[1..]| ensures GoRank(top, gs[1..][t]) >= 0 { assert gs[1..][t] == gs[t + 1]; }
      GoRanksPositive(top, gs[1..]);
    }
  }

  function CallerRank(c: Chunk, caller: Caller): int {
    match caller
    case Writing(next) => c.Last() - next + Top(c) + 4
    case Finalising(n, _, _) => Top(c) - n.height + 2
    case Launching(_) => 1
    case Waiting => 0
  }

  /** How many steps are at most still to come. */
  function Rank(c: Chunk, s: State): int { CallerRank(c, s.caller) + GoRanks(Top(c), s.gs) }

  lemma RankNonNegative(c: Chunk, nodes0: Nodes, s: State)
    requires Inv(c, nodes0, s)
    ensures Rank(c, s) >= 0
  {
    forall t: nat | t < |s.gs| ensures GoRank(Top(c), s.gs[t]) >= 0 { assert GoOk(c, s.gs[t], t); }
    GoRanksPositive(Top(c), s.gs);
  }

  lemma GoRankDecreases(c: Chunk, s: State, t: nat)
    requires 0 < |c.segs| && GoEnabled(c, s, t) && GoOk(c, s.gs[t], t)
    ensures var s' := GoStep(c, s, t);
            && |s'.gs| == |s.gs| && s'.gs == s.gs[t := s'.gs[t]] && s'.caller == s.caller
            && GoRank(Top(c), s'.gs[t]) < GoRank(Top(c), s.gs[t])
  {
  }

  lemma CallerRankDecreases(c: Chunk, s: State)
    requires 0 < |c.segs| && CallerEnabled(c, s) && CallerOk(c, s.caller)
    requires s.caller.Writing? && s.caller.next < c.Last() ==> s.gs[s.caller.next].NotStarted?
    requires s.caller.Launching? ==> s.gs[c.Last()].NotStarted?
    ensures Rank(c, CallerStep(c, s)) < Rank(c, s)
  {
    var s' := CallerStep(c, s);
    if s.caller.Writing? && s.caller.next < c.Last() {
      GoRanksUpdate(Top(c), s.gs, s.caller.next, s'.gs[s.caller.next]);
    } else if s.caller.Launching? {
      GoRanksUpdate(Top(c), s.gs, c.Last(), s'.gs[c.Last()]);
    }
  }

  lemma RankDecreases(c: Chunk, nodes0: Nodes, s: State, m: Mover)
    requires Inv(c, nodes0, s) && Enabled(c, s, m)
    ensures Rank(c, Step(c, s, m)) < Rank(c, s)
  {
    match m
    case GoroutineMoves(t) =>
      assert GoOk(c, s.gs[t], t);
      GoRankDecreases(c, s, t);
      GoRanksUpdate(Top(c), s.gs, t, GoStep(c, s, t).gs[t]);
    case CallerMoves =>
      CallerRankDecreases(c, s);
  }

  // ---------- Whole runs ----------

  ghost predicate CanStep(c: Chunk, s: State, s': State) {
    exists m :: Enabled(c, s, m) && s' == Step(c, s, m)
  }

  /** A run: any interleaving of enabled steps from a clean tree. */
  ghost predicate IsRun(c: Chunk, nodes0: Nodes, run: seq<State>) {
    |run| > 0 && run[0] == Init(c, nodes0) && forall i | 0 <= i < |run| - 1 :: CanStep(c, run[i], run[i + 1])
  }

  lemma {:induction false} RunKeepsInv(c: Chunk, nodes0: Nodes, run: seq<State>, i: nat)
    requires c.Valid() && CleanTree(c.depth, nodes0) && IsRun(c, nodes0, run) && i < |run|
    ensures Inv(c, nodes0, run[i])
    ensures Rank(c, run[i]) + i <= Rank(c, run[0])
  {
    if i == 0 {
      InitInv(c, nodes0);
    } else {
      RunKeepsInv(c, nodes0, run, i - 1);
      assert CanStep(c, run[i - 1], run[i - 1 + 1]);
      var m :| Enabled(c, run[i - 1], m) && run[i] == Step(c, run[i - 1], m);
      StepKeepsInv(c, nodes0, run[i - 1], m);
      RankDecreases(c, nodes0, run[i - 1], m);
    }
  }

  /** The chunk that Write and Sum hand to the tree for data `d`. */
  function ChunkOf(H: BaseHash, hs: nat, depth: nat, d: Bytes): Chunk
    requires hs > 0
  {
    Chunk(H, hs, depth, Chunks(d, 2 * hs))
  }

  lemma {:induction false} FullChunks(d: Bytes, w: nat, j: nat)
    requires w > 0 && j + 1 < |Chunks(d, w)|
    ensures |Chunks(d, w)[j]| == w
    decreases |d|
  {
    if j > 0 { FullChunks(d[w..], w, j - 1); }
  }

  lemma ChunkOfValid(H: BaseHash, hs: nat, depth: nat, d: Bytes)
    requires hs > 0 && |Chunks(d, 2 * hs)| <= Pow2(depth)
    ensures ChunkOf(H, hs, depth, d).Valid()
  {
    forall j | 0 <= j < |Chunks(d, 2 * hs)| - 1 ensures |Chunks(d, 2 * hs)[j]| > hs { FullChunks(d, 2 * hs, j); }
  }

  lemma TopIsReference(H: BaseHash, rh: RefHasher, depth: nat, d: Bytes)
    requires rh.Valid() && |d| <= rh.cap
    ensures var c := ChunkOf(H, rh.hs, depth, d); Val(c, Top(c), 0) == rh.Hash(H, d)
  {
    var c := ChunkOf(H, rh.hs, depth, d);
    ValIsLevel(c, Top(c), 0);
    TreeHashIsReference(H, rh, d);
  }

  /**
   Whatever the order in which goroutines and caller move: a run never produces anything but the
   reference hash and never produces it twice, it has bounded length, it can always go on until it
   is quiescent, and then the result has been produced exactly once.
   */
  lemma EveryRunComputesReference(H: BaseHash, rh: RefHasher, depth: nat, d: Bytes, nodes0: Nodes, run: seq<State>)
    requires rh.Valid() && |d| <= rh.cap && |Chunks(d, 2 * rh.hs)| <= Pow2(depth)
    requires CleanTree(depth, nodes0)
    requires IsRun(ChunkOf(H, rh.hs, depth, d), nodes0, run)
    ensures var c := ChunkOf(H, rh.hs, depth, d);
            var end := run[|run| - 1];
            && (end.results == [] || end.results == [rh.Hash(H, d)])
            && |run| <= Rank(c, Init(c, nodes0)) + 1
            && (Quiescent(end) || exists m :: Enabled(c, end, m))
            && (Quiescent(end) ==> end.results == [rh.Hash(H, d)])
  {
    var c := ChunkOf(H, rh.hs, depth, d);
    var end := run[|run| - 1];
    ChunkOfValid(H, rh.hs, depth, d);
    TopIsReference(H, rh, depth, d);
    RunKeepsInv(c, nodes0, run, |run| - 1);
    RankNonNegative(c, nodes0, end);
    Progress(c, nodes0, end);
    if Quiescent(end) { OneResult(c, nodes0, end); }
  }

  /**
   Once the result is there and releaseTree has run, all toggles are even and all marks cleared, and
   the tree is clean again exactly when no node's counter was at its last usable value.
   */
  lemma EveryRunLeavesTreeReusable(c: Chunk, nodes0: Nodes, run: seq<State>)
    requires c.Valid() && CleanTree(c.depth, nodes0) && IsRun(c, nodes0, run)
    requires run[|run| - 1].results != []
    ensures CleanTree(c.depth, Released(c.depth, run[|run| - 1].nodes, c.Last()))
       <==> forall n | n in nodes0 && Balanced(c, n) :: nodes0[n].state != 0x7fff_fffe
    ensures var r := Released(c.depth, run[|run| - 1].nodes, c.Last());
            r.Keys == nodes0.Keys && forall n | n in r ::
              r[n].state % 2 == 0 && !r[n].unbalanced && r[n].root == (n == NodeId(c.depth, 0))
  {
    var end := run[|run| - 1];
    RunKeepsInv(c, nodes0, run, |run| - 1);
    ResultMeansQuiescent(c, nodes0, end);
    ReusableIff(c, nodes0, end);
    var r := Released(c.depth, end.nodes, c.Last());
    forall n | n in r
      ensures r[n].state % 2 == 0 && !r[n].unbalanced && r[n].root == (n == NodeId(c.depth, 0))
    {
      CountersAtRest(c, nodes0, end, n);
      ReleasedNode(c, nodes0, end, n);
    }
  }
}
