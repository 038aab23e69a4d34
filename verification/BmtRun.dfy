/**
 The concurrent hasher (bmt/bmt.go) as a state machine: one goroutine per segment pair climbs the
 tree in atomic node steps (deposit, toggle, combine) while the caller launches goroutines and runs
 finalise, in any interleaving.
 */
module BmtRun {
  import opened BmtReference
  import opened BmtLevels
  import opened BmtTree

  /** What is fixed during one chunk: the base hash, its size, the tree's depth and the segment pairs. */
  datatype Chunk = Chunk(H: BaseHash, hs: nat, depth: nat, segs: seq<Bytes>) {
    /** All pairs but the last are longer than one segment, and each has a leaf. */
    ghost predicate Valid() {
      0 < |segs| <= Pow2(depth) && forall j | 0 <= j < |segs| - 1 :: |segs[j]| > hs
    }

    function Last(): int { |segs| - 1 }

    /** Sum and writeSegment: is a pair hashed before it enters the tree, at its leaf's parent? */
    predicate EntersAtParent(t: nat)
      requires t < |segs|
    {
      |segs[t]| > hs && depth > 0
    }

    /** Sum: finalise starts at the last pair's leaf, or at the leaf's parent. */
    predicate StartsAtLeaf()
      requires |segs| > 0
    {
      !(EntersAtParent(Last()) && Last() > 0)
    }
  }

  datatype Pc = Arriving | Deposited | Combining

  /** A goroutine of writeSegment; AtNode is an iteration of the loop in run. */
  datatype Goroutine =
    | NotStarted
    | Hashing(d: nat)
    | AtNode(n: NodeId, fromLeft: bool, i: nat, v: Bytes, d: nat, pc: Pc)
    | Returned(n: NodeId)
    | Sent

  /** The caller: Write launches all pairs but the last, Sum runs finalise and launches the last one. */
  datatype Caller =
    | Writing(next: nat)
    | Finalising(n: NodeId, fromLeft: bool, d: nat)
    | Launching(d: nat)
    | Waiting

  datatype State = State(nodes: Nodes, caller: Caller, gs: seq<Goroutine>, results: seq<Bytes>)

  function Init(c: Chunk, nodes: Nodes): State {
    State(nodes, Writing(0), seq(|c.segs|, _ => NotStarted), [])
  }

  /** writeSegment: a long pair is hashed first, a short one is run from its leaf. */
  function Spawn(c: Chunk, t: nat, d: nat): Goroutine
    requires t < |c.segs|
  {
    if c.EntersAtParent(t) then Hashing(d) else AtNode(NodeId(0, t), true, 2 * t, c.segs[t], d, Arriving)
  }

  predicate CallerEnabled(c: Chunk, s: State) {
    match s.caller
    case Writing(next) => next < |c.segs| && |s.gs| == |c.segs|
    case Finalising(n, _, _) => n in s.nodes
    case Launching(_) => 0 < |s.gs| == |c.segs|
    case Waiting => false
  }

  /** One node of finalise's walk up the last leaf's path. */
  function FinaliseStep(s: State): State
    requires s.caller.Finalising? && s.caller.n in s.nodes
  {
    var n := s.caller.n;
    var node := s.nodes[n].(unbalanced := s.caller.fromLeft, right := [], root := s.nodes[n].root || n.Initial());
    s.(nodes := s.nodes[n := node],
       caller := if n.Initial() then Launching(s.caller.d) else Finalising(n.Parent(), n.IsLeft(), s.caller.d + 1))
  }

  function CallerStep(c: Chunk, s: State): State
    requires CallerEnabled(c, s)
  {
    match s.caller
    case Writing(next) =>
      if next < c.Last() then
        s.(caller := Writing(next + 1), gs := s.gs[next := Spawn(c, next, c.depth)])
      else if c.StartsAtLeaf() then
        s.(caller := Finalising(NodeId(0, next), true, 0))
      else
        s.(caller := Finalising(NodeId(0, next).Parent(), next % 2 == 0, 0))
    case Finalising(_, _, _) => FinaliseStep(s)
    case Launching(d) =>
      s.(caller := Waiting, gs := s.gs[c.Last() := Spawn(c, c.Last(), d)])
  }

  predicate GoEnabled(c: Chunk, s: State, t: nat) {
    t < |s.gs| == |c.segs| &&
    match s.gs[t]
    case Hashing(_) => NodeId(0, t) in s.nodes
    case AtNode(n, _, _, _, _, _) => n in s.nodes
    case _ => false
  }

  /** writeSegment's goroutine for a long pair: hash it, then hand it in or run from the leaf's parent. */
  function HashStep(c: Chunk, s: State, t: nat): State
    requires GoEnabled(c, s, t) && s.gs[t].Hashing?
  {
    var v := c.H(c.segs[t]);
    if s.nodes[NodeId(0, t)].root then
      s.(gs := s.gs[t := Sent], results := s.results + [v])
    else
      s.(gs := s.gs[t := AtNode(NodeId(0, t).Parent(), t % 2 == 0, t, v, s.gs[t].d, Arriving)])
  }

  predicate At(c: Chunk, s: State, t: nat, pc: Pc) {
    GoEnabled(c, s, t) && s.gs[t].AtNode? && s.gs[t].pc == pc
  }

  function DepositStep(c: Chunk, s: State, t: nat): State
    requires At(c, s, t, Arriving)
  {
    var g := s.gs[t];
    var node := s.nodes[g.n];
    s.(nodes := s.nodes[g.n := if g.fromLeft then node.(left := g.v) else node.(right := g.v)],
       gs := s.gs[t := g.(pc := Deposited)])
  }

  function ToggleStep(c: Chunk, s: State, t: nat): State
    requires At(c, s, t, Deposited)
  {
    var g := s.gs[t];
    var node := s.nodes[g.n];
    if node.unbalanced then
      s.(gs := s.gs[t := g.(pc := Combining)])
    else
      var (state, wait) := Toggle(node.state);
      s.(nodes := s.nodes[g.n := node.(state := state)],
         gs := s.gs[t := if wait then Returned(g.n) else g.(pc := Combining)])
  }

  function Combined(c: Chunk, g: Goroutine, node: Node): Bytes
    requires g.AtNode?
  {
    if !node.unbalanced || !g.fromLeft || (g.i == 0 && g.d == 0)
    then c.H(node.left + node.right) else node.left + node.right
  }

  function CombineStep(c: Chunk, s: State, t: nat): State
    requires At(c, s, t, Combining)
  {
    var g := s.gs[t];
    var v := Combined(c, g, s.nodes[g.n]);
    if s.nodes[g.n].root then
      s.(gs := s.gs[t := Sent], results := s.results + [v])
    else
      s.(gs := s.gs[t := AtNode(g.n.Parent(), g.n.IsLeft(), g.i + 1, v, g.d, Arriving)])
  }

  function GoStep(c: Chunk, s: State, t: nat): State
    requires GoEnabled(c, s, t)
  {
    if s.gs[t].Hashing? then HashStep(c, s, t)
    else match s.gs[t].pc
      case Arriving => DepositStep(c, s, t)
      case Deposited => ToggleStep(c, s, t)
      case Combining => CombineStep(c, s, t)
  }

  /** Who moves next. */
  datatype Mover = CallerMoves | GoroutineMoves(t: nat)

  predicate Enabled(c: Chunk, s: State, m: Mover) {
    match m case CallerMoves => CallerEnabled(c, s) case GoroutineMoves(t) => GoEnabled(c, s, t)
  }

  function Step(c: Chunk, s: State, m: Mover): State
    requires Enabled(c, s, m)
  {
    match m case CallerMoves => CallerStep(c, s) case GoroutineMoves(t) => GoStep(c, s, t)
  }

  // ---------- What the run must compute ----------

  /** The value of node `j` on level `k`: a right child without data below it leaves the left value unhashed. */
  function Val(c: Chunk, k: nat, j: nat): Bytes
    requires |c.segs| > 0
  {
    if k == 0 then
      if j < |c.segs| then LeafValue(c.H, c.hs, c.segs[j], j) else []
    else if 2 * j + 1 <= Anc(k - 1, c.Last()) then
      c.H(Val(c, k - 1, 2 * j) + Val(c, k - 1, 2 * j + 1))
    else
      Val(c, k - 1, 2 * j)
  }

  /** The height of the smallest tree over the segment pairs. */
  function Top(c: Chunk): nat { Height(|c.segs|) }

  ghost predicate CleanTree(depth: nat, nodes: Nodes) {
    && (forall n :: n in nodes <==> InTree(depth, n))
    && forall n | n in nodes :: Resting(nodes[n]) && nodes[n].root == (n == NodeId(depth, 0))
  }

  /** A node between chunks; its counter must still be usable (see TogglePairsUpIff). */
  predicate Resting(node: Node) {
    0 <= node.state <= 0x7fff_ffff && node.state % 2 == 0 && !node.unbalanced
  }

  /** Both children of `n` have data below them. */
  predicate Balanced(c: Chunk, n: NodeId)
    requires |c.segs| > 0
  {
    0 < n.height <= Top(c) && 2 * n.index + 1 <= Anc(n.height - 1, c.Last())
  }

  lemma {:induction false} LevelSize(H: BaseHash, vs: seq<Bytes>, k: nat)
    requires |vs| > 0
    ensures |Level(H, vs, k)| == Anc(k, |vs| - 1) + 1
  {
    if k > 0 { LevelSize(H, vs, k - 1); }
  }

  /** The smallest tree's root is the first leftmost node above the last leaf. */
  lemma {:induction false} TopIsFirstInitial(n: nat, k: nat)
    requires n > 0
    ensures Anc(k, n - 1) == 0 <==> k >= Height(n)
    decreases n
  {
    if n > 1 {
      if k > 0 {
        AncShift(k - 1, n - 1);
        assert (n + 1) / 2 - 1 == (n - 1) / 2;
        TopIsFirstInitial((n + 1) / 2, k - 1);
      }
    } else {
      AncOfZero(k);
    }
  }

  lemma {:induction false} AncOfZero(k: nat)
    ensures Anc(k, 0) == 0
  {
    if k > 0 { AncOfZero(k - 1); }
  }

  lemma {:induction false} TopInTree(n: nat, depth: nat)
    requires 0 < n <= Pow2(depth)
    ensures Height(n) <= depth
  {
    AncInTree(depth, depth, n - 1);
    TopIsFirstInitial(n, depth);
  }

  /** One level up, from the values below. */
  lemma ValStep(c: Chunk, k: nat, j: nat, below: seq<Bytes>)
    requires |c.segs| > 0 && j <= Anc(k + 1, c.Last()) && |below| == Anc(k, c.Last()) + 1
    requires forall i: nat | 2 * j <= i <= 2 * j + 1 && i < |below| :: Val(c, k, i) == below[i]
    ensures j < |PairUp(c.H, below)| && Val(c, k + 1, j) == PairUp(c.H, below)[j]
  {
    PairUpAt(c.H, below, j);
  }

  /** The node values are the levels of the bottom-up tree. */
  lemma {:induction false} ValIsLevel(c: Chunk, k: nat, j: nat)
    requires |c.segs| > 0 && j <= Anc(k, c.Last())
    ensures |Level(c.H, LeafValues(c.H, c.hs, c.segs), k)| == Anc(k, c.Last()) + 1
    ensures Val(c, k, j) == Level(c.H, LeafValues(c.H, c.hs, c.segs), k)[j]
  {
    var vs := LeafValues(c.H, c.hs, c.segs);
    LevelSize(c.H, vs, k);
    if k > 0 {
      var below := Level(c.H, vs, k - 1);
      LevelSize(c.H, vs, k - 1);
      forall i: nat | 2 * j <= i <= 2 * j + 1 && i < |below| ensures Val(c, k - 1, i) == below[i] {
        ValIsLevel(c, k - 1, i);
      }
      ValStep(c, k - 1, j, below);
    }
  }
}
