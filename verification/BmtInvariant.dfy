/**
 The invariant of every interleaving: each node's value is produced once, by one goroutine, after
 every other goroutine below that node has returned.
 */
module BmtInvariant {
  import opened BmtReference
  import opened BmtTree
  import opened BmtRun

  /** The side of node `(h, Anc(h, t))` that goroutine `t` arrives on; a leaf is entered on the left. */
  predicate FromLeft(h: nat, t: nat) {
    h == 0 || Anc(h - 1, t) % 2 == 0
  }

  /** What goroutine `t` carries to a node of height `h`. */
  function Carried(c: Chunk, h: nat, t: nat): Bytes
    requires t < |c.segs|
  {
    if h == 0 then c.segs[t] else Val(c, h - 1, Anc(h - 1, t))
  }

  /** The highest level whose value a goroutine has produced; -1 for none. */
  function Reached(c: Chunk, g: Goroutine): int {
    match g
    case NotStarted => -1
    case Hashing(_) => -1
    case AtNode(n, _, _, _, _, _) => n.height - 1
    case Returned(n) => n.height - 1
    case Sent => Top(c)
  }

  predicate Position(c: Chunk, t: nat, n: NodeId)
    requires |c.segs| > 0
  {
    n.height <= Top(c) && n.index == Anc(n.height, t) && (n.height == 0 ==> t == c.Last() && c.StartsAtLeaf())
  }

  predicate GoOk(c: Chunk, g: Goroutine, t: nat)
    requires t < |c.segs|
  {
    match g
    case NotStarted => true
    case Hashing(d) => c.EntersAtParent(t) && (t < c.Last() ==> d > 0)
    case AtNode(n, fromLeft, i, v, d, pc) =>
      && Position(c, t, n)
      && fromLeft == FromLeft(n.height, t)
      && (pc == Arriving ==> v == Carried(c, n.height, t))
      && (if t < c.Last() then d > 0 else if t > 0 then i > 0 else i == 0 && d == 0)
    case Returned(n) => Position(c, t, n) && Balanced(c, n)
    case Sent => true
  }

  /** Which goroutines the caller has launched. */
  predicate Launched(c: Chunk, caller: Caller, t: nat) {
    match caller
    case Writing(next) => t < next
    case Finalising(_, _, _) => t < c.Last()
    case Launching(_) => t < c.Last()
    case Waiting => true
  }

  ghost predicate GoroutinesOk(c: Chunk, caller: Caller, gs: seq<Goroutine>)
    requires 0 < |gs| == |c.segs|
  {
    forall t: nat | t < |gs| :: GoOk(c, gs[t], t) && (gs[t].NotStarted? <==> !Launched(c, caller, t))
  }

  /** The node where finalise starts. */
  function Start(c: Chunk): nat
    requires |c.segs| > 0
  {
    if c.StartsAtLeaf() then 0 else 1
  }

  predicate CallerOk(c: Chunk, caller: Caller)
    requires |c.segs| > 0
  {
    match caller
    case Writing(next) => next <= c.Last()
    case Finalising(n, fromLeft, d) =>
      && Start(c) <= n.height <= Top(c) && n.index == Anc(n.height, c.Last())
      && fromLeft == FromLeft(n.height, c.Last()) && d == n.height - Start(c)
    case Launching(d) => d == Top(c) - Start(c)
    case Waiting => true
  }

  /** A node's value is out only when everyone else below has returned, further down or at the node. */
  ghost predicate Exclusive(c: Chunk, gs: seq<Goroutine>) {
    forall t: nat, t': nat, k: nat {:trigger Anc(k, t), Anc(k, t')} ::
      t < |gs| && t' < |gs| && t != t' && k <= Reached(c, gs[t]) && Anc(k, t) == Anc(k, t') ==>
        gs[t'].Returned? && gs[t'].n.height <= k
  }

  predicate AtMostOneReturns(gs: seq<Goroutine>) {
    forall t: nat, t': nat | t < |gs| && t' < |gs| && gs[t].Returned? && gs[t] == gs[t'] :: t == t'
  }

  function Side(node: Node, left: bool): Bytes {
    if left then node.left else node.right
  }

  /** Has goroutine `t` written its value into the node it is at? */
  predicate HasDeposited(g: Goroutine, n: NodeId) {
    g == Returned(n) || (g.AtNode? && g.n == n && g.pc != Arriving)
  }

  /** The values a goroutine has deposited are still where it put them. */
  ghost predicate FieldsOk(c: Chunk, nodes: Nodes, gs: seq<Goroutine>)
    requires |gs| == |c.segs|
  {
    forall t: nat, n: NodeId {:trigger HasDeposited(gs[t], n)} | t < |gs| && n in nodes && HasDeposited(gs[t], n) ::
      Carried(c, n.height, t) == Side(nodes[n], FromLeft(n.height, t))
  }

  predicate SomeReturned(gs: seq<Goroutine>, n: NodeId) {
    exists t: nat | t < |gs| :: gs[t] == Returned(n)
  }

  predicate Crosses(c: Chunk, g: Goroutine, t: nat, n: NodeId) {
    (g.AtNode? && g.n == n && g.pc == Combining) || (Reached(c, g) >= n.height && Anc(n.height, t) == n.index)
  }

  predicate SomeCrossed(c: Chunk, gs: seq<Goroutine>, n: NodeId) {
    exists t: nat | t < |gs| :: Crosses(c, gs[t], t, n)
  }

  /** How often node `n` has been toggled during this chunk. */
  function Toggles(c: Chunk, gs: seq<Goroutine>, n: NodeId): nat
    requires |c.segs| > 0
  {
    if !Balanced(c, n) then 0
    else (if SomeReturned(gs, n) then 1 else 0) + (if SomeCrossed(c, gs, n) then 1 else 0)
  }

  function After(state: int, toggles: nat): int {
    if toggles == 0 then state else Inc32(After(state, toggles - 1))
  }

  ghost predicate CountersOk(c: Chunk, nodes0: Nodes, nodes: Nodes, gs: seq<Goroutine>)
    requires |c.segs| > 0 && nodes0.Keys == nodes.Keys
  {
    forall n: NodeId | n in nodes ::
      && nodes[n].state == After(nodes0[n].state, Toggles(c, gs, n))
      && (Balanced(c, n) && SomeCrossed(c, gs, n) ==> SomeReturned(gs, n))
  }

  /** Has finalise passed height `k` of the last leaf's path? */
  predicate Finalised(c: Chunk, caller: Caller, k: nat)
    requires |c.segs| > 0
  {
    Start(c) <= k <= Top(c) &&
    match caller
    case Writing(_) => false
    case Finalising(n, _, _) => k < n.height
    case Launching(_) => true
    case Waiting => true
  }

  ghost predicate FlagsOk(c: Chunk, nodes: Nodes, caller: Caller)
    requires |c.segs| > 0
  {
    forall n: NodeId | n in nodes ::
      && nodes[n].unbalanced ==
           (n.index == Anc(n.height, c.Last()) && Finalised(c, caller, n.height) && FromLeft(n.height, c.Last()))
      && (nodes[n].unbalanced ==> nodes[n].right == [])
      && nodes[n].root ==
           (n == NodeId(c.depth, 0) || (n == NodeId(Top(c), 0) && Finalised(c, caller, Top(c))))
  }

  ghost predicate ResultsOk(c: Chunk, gs: seq<Goroutine>, results: seq<Bytes>)
    requires |c.segs| > 0
  {
    results == if exists t: nat | t < |gs| :: gs[t].Sent? then [Val(c, Top(c), 0)] else []
  }

  ghost predicate Inv(c: Chunk, nodes0: Nodes, s: State) {
    && c.Valid() && (forall n | n in nodes0 :: Resting(nodes0[n]))
    && |s.gs| == |c.segs| && s.nodes.Keys == nodes0.Keys
    && CallerOk(c, s.caller)
    && GoroutinesOk(c, s.caller, s.gs)
    && Exclusive(c, s.gs)
    && AtMostOneReturns(s.gs)
    && FieldsOk(c, s.nodes, s.gs)
    && CountersOk(c, nodes0, s.nodes, s.gs)
    && FlagsOk(c, s.nodes, s.caller)
    && ResultsOk(c, s.gs, s.results)
  }
}
