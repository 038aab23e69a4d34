/**
 The prebuilt tree of toggling nodes (bmt/bmt.go): node positions, the atomic toggle with its
 32-bit counter, and the tree's depth.
 */
module BmtTree {
  import opened BmtReference

  /** Node `index` of the level `height` steps above the leaves (the source counts levels from the root). */
  datatype NodeId = NodeId(height: nat, index: nat) {
    function Parent(): NodeId { NodeId(height + 1, index / 2) }
    predicate IsLeft() { index % 2 == 0 }
    predicate Initial() { index == 0 }
  }

  datatype Node = Node(left: Bytes, right: Bytes, state: int, unbalanced: bool, root: bool)

  type Nodes = map<NodeId, Node>

  /** The ancestor of leaf `t` on level `k`. */
  function Anc(k: nat, t: nat): nat {
    if k == 0 then t else Anc(k - 1, t) / 2
  }

  lemma {:induction false} AncMonotone(k: nat, t: nat, t': nat)
    requires t <= t'
    ensures Anc(k, t) <= Anc(k, t')
  {
    if k > 0 { AncMonotone(k - 1, t, t'); }
  }

  /** Leaves under the same node stay under the same node further up. */
  lemma {:induction false} AncMerge(k: nat, k': nat, t: nat, t': nat)
    requires k <= k' && Anc(k, t) == Anc(k, t')
    ensures Anc(k', t) == Anc(k', t')
  {
    if k < k' { AncMerge(k, k' - 1, t, t'); }
  }

  lemma {:induction false} AncShift(k: nat, t: nat)
    ensures Anc(k + 1, t) == Anc(k, t / 2)
  {
    if k > 0 { AncShift(k - 1, t); }
  }

  function Pow2(n: nat): (p: nat)
    ensures p > 0
  {
    if n == 0 then 1 else 2 * Pow2(n - 1)
  }

  lemma {:induction false} AncInTree(depth: nat, k: nat, t: nat)
    requires k <= depth && t < Pow2(depth)
    ensures Anc(k, t) < Pow2(depth - k)
  {
    if k > 0 { AncInTree(depth, k - 1, t); }
  }

  /** The positions NewTree creates: 2^depth leaves, halved on every level up to the single root. */
  predicate InTree(depth: nat, n: NodeId) {
    n.height <= depth && n.index < Pow2(depth - n.height)
  }

  /** depth(n): one level for every halving of (n-1)/2. */
  method Depth(n: nat) returns (d: nat)
    requires n > 0
    ensures n <= 2 * Pow2(d)
    ensures d > 0 ==> n > Pow2(d)
  {
    var l := (n - 1) / 2;
    d := 0;
    while l > 0
      invariant Pow2(d) * l <= (n - 1) / 2 < Pow2(d) * (l + 1)
      invariant d > 0 ==> Pow2(d - 1) <= (n - 1) / 2
      decreases l
    {
      HalveBound(Pow2(d), l, (n - 1) / 2);
      l := l / 2;
      d := d + 1;
    }
  }

  lemma HalveBound(p: nat, l: nat, m: nat)
    requires p * l <= m < p * (l + 1) && l > 0
    ensures 2 * p * (l / 2) <= m < 2 * p * (l / 2 + 1) && p <= m
  {
    var q := l / 2;
    assert l == 2 * q || l == 2 * q + 1;
    assert p * (2 * q) == 2 * p * q;
    assert p * (2 * q + 1) == 2 * p * q + p;
    assert p * (2 * q + 2) == 2 * p * (q + 1);
    assert p * l >= p;
  }

  /** Every segment pair of a chunk with `count` segments has its own leaf. */
  lemma LeafForEveryPair(count: nat, d: nat, i: nat)
    requires count <= 2 * Pow2(d) && 2 * i < count
    ensures i < Pow2(d)
  {
  }

  /** int32 addition of one. */
  function Inc32(x: int): int {
    if x == 0x7fff_ffff then -0x8000_0000 else x + 1
  }

  /** Go's remainder, which has the sign of the dividend. */
  function GoRem2(x: int): int {
    if x >= 0 then x % 2 else -((-x) % 2)
  }

  /** Node.toggle on the counter: the new counter, and whether the caller must wait. */
  function Toggle(state: int): (int, bool) {
    (Inc32(state), GoRem2(Inc32(state)) == 1)
  }

  predicate IsInt32(x: int) { -0x8000_0000 <= x <= 0x7fff_ffff }

  /** Two toggles from a resting counter make the first caller wait and let the second one pass. */
  predicate PairsUp(state: int) {
    var (s1, wait1) := Toggle(state);
    var (s2, wait2) := Toggle(s1);
    wait1 && !wait2 && s2 % 2 == 0
  }

  /**
   The counter is never reset, so the toggle works exactly as long as it has not wrapped around:
   a resting (even) counter pairs callers up if and only if it is not negative.
   */
  lemma TogglePairsUpIff(state: int)
    requires IsInt32(state) && state % 2 == 0
    ensures PairsUp(state) <==> state >= 0
  {
  }

  /** The last usable counter value leaves a counter whose first caller is not made to wait. */
  lemma ToggleWrapsAround()
    ensures PairsUp(0x7fff_fffe)
    ensures var s := Toggle(Toggle(0x7fff_fffe).0).0;
            s % 2 == 0 && !PairsUp(s) && !Toggle(s).1
  {
  }
}
