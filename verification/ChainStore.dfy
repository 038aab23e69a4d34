/**
 The block store behind header chain, block chain and transaction pool (core/database_util.go),
 with block paths and the three walks to a common ancestor.
 */
module ChainStore {
  import opened Basics

  type Hash = nat

  /** The zero hash, which stands for "no hash". */
  const NO_HASH: Hash := 0

  type TxHash = nat

  /** A header, or a block when the transactions matter. */
  datatype Block = Block(hash: Hash, parent: Hash, number: nat, difficulty: nat, txs: seq<TxHash>)

  type Blocks = map<Hash, Block>

  /** GetHeader and GetBlock: the database key holds both the hash and the number. */
  function Get(db: Blocks, hash: Hash, number: int): Option<Block> {
    if hash in db && db[hash].number == number then Some(db[hash]) else None
  }

  /** A stored block is filed under its own hash, and above number zero its parent is one number below. */
  predicate Linked(db: Blocks, h: Hash)
    requires h in db
  {
    && db[h].hash == h != NO_HASH
    && (db[h].number > 0 ==> db[h].parent in db && db[db[h].parent].number == db[h].number - 1)
  }

  ghost predicate ParentClosed(db: Blocks) {
    forall h {:trigger Linked(db, h)} | h in db :: Linked(db, h)
  }

  ghost predicate Stored(db: Blocks, b: Block) {
    ParentClosed(db) && b.hash in db && db[b.hash] == b
  }

  function Parent(db: Blocks, b: Block): (p: Block)
    requires Stored(db, b) && b.number > 0
    ensures Stored(db, p) && p.number == b.number - 1 && p.hash == b.parent
    ensures Get(db, b.parent, b.number - 1) == Some(p)
  {
    assert Linked(db, b.hash) && Linked(db, b.parent);
    db[b.parent]
  }

  /** The block with number `i` on the path from `b` down to its root. */
  function Ancestor(db: Blocks, b: Block, i: nat): (a: Block)
    requires Stored(db, b) && i <= b.number
    ensures Stored(db, a) && a.number == i
    decreases b.number
  {
    if i == b.number then b else Ancestor(db, Parent(db, b), i)
  }

  lemma {:induction false} AncestorOfAncestor(db: Blocks, b: Block, i: nat, j: nat)
    requires Stored(db, b) && j <= i <= b.number
    ensures Ancestor(db, Ancestor(db, b, i), j) == Ancestor(db, b, j)
    decreases b.number
  {
    if i < b.number { AncestorOfAncestor(db, Parent(db, b), i, j); }
  }

  /** Two paths that meet stay together below. */
  lemma PathsMerge(db: Blocks, a: Block, b: Block, i: nat, j: nat)
    requires Stored(db, a) && Stored(db, b) && j <= i <= a.number && i <= b.number
    requires Ancestor(db, a, i) == Ancestor(db, b, i)
    ensures Ancestor(db, a, j) == Ancestor(db, b, j)
  {
    AncestorOfAncestor(db, a, i, j);
    AncestorOfAncestor(db, b, i, j);
  }

  /** Storing further blocks does not change existing paths. */
  lemma {:induction false} AncestorFrame(db: Blocks, db': Blocks, b: Block, i: nat)
    requires Stored(db, b) && ParentClosed(db') && i <= b.number
    requires forall h | h in db :: h in db' && db'[h] == db[h]
    ensures Stored(db', b) && Ancestor(db', b, i) == Ancestor(db, b, i)
    decreases b.number
  {
    if i < b.number {
      assert Parent(db', b) == Parent(db, b);
      AncestorFrame(db, db', Parent(db, b), i);
    }
  }

  /** The blocks from `b` down to, but excluding, number `i`. */
  function PathDown(db: Blocks, b: Block, i: nat): (p: seq<Block>)
    requires Stored(db, b) && i <= b.number
    ensures |p| == b.number - i
    decreases b.number
  {
    if i == b.number then [] else [b] + PathDown(db, Parent(db, b), i)
  }

  lemma {:induction false} PathDownAt(db: Blocks, b: Block, i: nat, k: nat)
    requires Stored(db, b) && i <= b.number && k < b.number - i
    ensures PathDown(db, b, i)[k] == Ancestor(db, b, b.number - k)
    decreases b.number
  {
    if k > 0 { PathDownAt(db, Parent(db, b), i, k - 1); }
  }

  lemma {:induction false} PathDownExtend(db: Blocks, b: Block, i: nat)
    requires Stored(db, b) && i < b.number
    ensures PathDown(db, b, i) == PathDown(db, b, i + 1) + [Ancestor(db, b, i + 1)]
    decreases b.number
  {
    if i + 1 < b.number { PathDownExtend(db, Parent(db, b), i); }
  }

  function TxsOf(path: seq<Block>): seq<TxHash> {
    if path == [] then [] else path[0].txs + TxsOf(path[1..])
  }

  lemma {:induction false} TxsOfAppend(path: seq<Block>, b: Block)
    ensures TxsOf(path + [b]) == TxsOf(path) + b.txs
  {
    if path == [] {
      assert path + [b] == [b] && TxsOf([]) == [];
    } else {
      assert (path + [b])[1..] == path[1..] + [b];
      TxsOfAppend(path[1..], b);
    }
  }

  // ---------- The highest common ancestor ----------

  /** `n` is the number of the highest block that `a` and `b` share. */
  ghost predicate MeetAt(db: Blocks, a: Block, b: Block, n: nat)
    requires Stored(db, a) && Stored(db, b)
  {
    && n <= a.number && n <= b.number && Ancestor(db, a, n) == Ancestor(db, b, n)
    && forall i | n < i && i <= a.number && i <= b.number :: Ancestor(db, a, i) != Ancestor(db, b, i)
  }

  ghost predicate Disjoint(db: Blocks, a: Block, b: Block)
    requires Stored(db, a) && Stored(db, b)
  {
    Ancestor(db, a, 0) != Ancestor(db, b, 0)
  }

  /** Blocks share exactly the path below the point where they meet; there is one such point. */
  lemma SharedPath(db: Blocks, a: Block, b: Block, n: nat, i: nat)
    requires Stored(db, a) && Stored(db, b) && MeetAt(db, a, b, n)
    requires i <= a.number && i <= b.number
    ensures Ancestor(db, a, i) == Ancestor(db, b, i) <==> i <= n
    ensures !Disjoint(db, a, b)
  {
    PathsMerge(db, a, b, n, 0);
    if i <= n { PathsMerge(db, a, b, n, i); }
  }

  lemma MeetIsUnique(db: Blocks, a: Block, b: Block, n: nat, n': nat)
    requires Stored(db, a) && Stored(db, b) && MeetAt(db, a, b, n) && MeetAt(db, a, b, n')
    ensures n == n'
  {
    SharedPath(db, a, b, n, n');
    SharedPath(db, a, b, n', n);
  }

  /** FindCommonAncestor: nil exactly when the two headers have different roots. */
  method FindCommonAncestor(db: Blocks, a0: Block, b0: Block) returns (r: Option<Block>)
    requires Stored(db, a0) && Stored(db, b0)
    ensures r == None <==> Disjoint(db, a0, b0)
    ensures r.Some? ==> MeetAt(db, a0, b0, r.value.number) && r.value == Ancestor(db, a0, r.value.number)
  {
    var a, b := a0, b0;
    while a.number > b.number
      invariant Stored(db, a) && a.number <= a0.number && a == Ancestor(db, a0, a.number)
      invariant a.number >= b.number || a == a0
      decreases a.number
    {
      StepDown(db, a0, a);
      var p := Get(db, a.parent, a.number - 1);
      if p == None { return None; }
      a := p.value;
    }
    while a.number < b.number
      invariant Stored(db, b) && b.number <= b0.number && b == Ancestor(db, b0, b.number)
      invariant b.number >= a.number
      decreases b.number
    {
      StepDown(db, b0, b);
      var p := Get(db, b.parent, b.number - 1);
      if p == None { return None; }
      b := p.value;
    }
    while a.hash != b.hash
      invariant Walking(db, a0, b0, a, b)
      decreases a.number
    {
      if a.number > 0 { StepBoth(db, a0, b0, a, b); }
      var p := Get(db, a.parent, a.number - 1);
      if p == None { return None; }
      var q := Get(db, b.parent, b.number - 1);
      if q == None { return None; }
      a, b := p.value, q.value;
    }
    Met(db, a0, b0, a, b);
    r := Some(a);
  }

  lemma Met(db: Blocks, a0: Block, b0: Block, a: Block, b: Block)
    requires Stored(db, a0) && Stored(db, b0) && Walking(db, a0, b0, a, b) && a.hash == b.hash
    ensures MeetAt(db, a0, b0, a.number) && !Disjoint(db, a0, b0)
  {
    SharedPath(db, a0, b0, a.number, 0);
  }

  lemma StepDown(db: Blocks, a0: Block, a: Block)
    requires Stored(db, a0) && Stored(db, a) && 0 < a.number <= a0.number && a == Ancestor(db, a0, a.number)
    ensures Parent(db, a) == Ancestor(db, a0, a.number - 1)
  {
    AncestorOfAncestor(db, a0, a.number, a.number - 1);
  }

  /** Both walkers are on their paths at the same number, and have not met above it. */
  ghost predicate Walking(db: Blocks, a0: Block, b0: Block, a: Block, b: Block)
    requires Stored(db, a0) && Stored(db, b0)
  {
    && a.number == b.number <= a0.number && b.number <= b0.number
    && Stored(db, a) && a == Ancestor(db, a0, a.number)
    && Stored(db, b) && b == Ancestor(db, b0, b.number)
    && forall i | a.number < i && i <= a0.number && i <= b0.number :: Ancestor(db, a0, i) != Ancestor(db, b0, i)
  }

  lemma StepBoth(db: Blocks, a0: Block, b0: Block, a: Block, b: Block)
    requires Stored(db, a0) && Stored(db, b0) && Walking(db, a0, b0, a, b) && a.hash != b.hash && a.number > 0
    ensures Walking(db, a0, b0, Parent(db, a), Parent(db, b))
  {
    StepDown(db, a0, a);
    StepDown(db, b0, b);
  }

  /** Nothing shared above the lower of the two heads can be a shared number of both paths. */
  lemma StartWalking(db: Blocks, a0: Block, b0: Block, a: Block, b: Block)
    requires Stored(db, a0) && Stored(db, b0) && a.number == b.number
    requires Stored(db, a) && a.number <= a0.number && a == Ancestor(db, a0, a.number)
    requires Stored(db, b) && b.number <= b0.number && b == Ancestor(db, b0, b.number)
    requires a == a0 || b == b0
    ensures Walking(db, a0, b0, a, b)
  {
  }

  /** The part of TxPool.reset that finds the transactions to reinject; None when a chain is unrooted. */
  method ReinjectWalk(db: Blocks, oldHead: Block, newHead: Block) returns (r: Option<(seq<TxHash>, seq<TxHash>)>)
    requires Stored(db, oldHead) && Stored(db, newHead)
    ensures r == None <==> Disjoint(db, oldHead, newHead)
    ensures r.Some? ==>
              exists n: nat ::
                && MeetAt(db, oldHead, newHead, n)
                && r.value == (TxsOf(PathDown(db, oldHead, n)), TxsOf(PathDown(db, newHead, n)))
  {
    var rem, add := oldHead, newHead;
    var discarded, included := [], [];
    while rem.number > add.number
      invariant OnPath(db, oldHead, rem, discarded)
      invariant rem == oldHead || rem.number >= add.number
      decreases rem.number
    {
      StepCollect(db, oldHead, rem, discarded);
      discarded := discarded + rem.txs;
      var p := Get(db, rem.parent, rem.number - 1);
      if p == None { return None; }
      rem := p.value;
    }
    while add.number > rem.number
      invariant OnPath(db, newHead, add, included)
      invariant add == newHead || add.number >= rem.number
      decreases add.number
    {
      StepCollect(db, newHead, add, included);
      included := included + add.txs;
      var p := Get(db, add.parent, add.number - 1);
      if p == None { return None; }
      add := p.value;
    }
    StartWalking(db, oldHead, newHead, rem, add);
    while rem.hash != add.hash
      invariant Walking(db, oldHead, newHead, rem, add)
      invariant OnPath(db, oldHead, rem, discarded) && OnPath(db, newHead, add, included)
      decreases rem.number
    {
      if rem.number > 0 {
        StepBoth(db, oldHead, newHead, rem, add);
        StepCollect(db, oldHead, rem, discarded);
        StepCollect(db, newHead, add, included);
      }
      discarded := discarded + rem.txs;
      var p := Get(db, rem.parent, rem.number - 1);
      if p == None { return None; }
      rem := p.value;
      included := included + add.txs;
      var q := Get(db, add.parent, add.number - 1);
      if q == None { return None; }
      add := q.value;
    }
    Met(db, oldHead, newHead, rem, add);
    r := Some((discarded, included));
  }

  /** A walker that has come down from `a0` to `a` and has collected the transactions on its way. */
  ghost predicate OnPath(db: Blocks, a0: Block, a: Block, txs: seq<TxHash>)
    requires Stored(db, a0)
  {
    && Stored(db, a) && a.number <= a0.number && a == Ancestor(db, a0, a.number)
    && txs == TxsOf(PathDown(db, a0, a.number))
  }

  lemma StepCollect(db: Blocks, a0: Block, a: Block, txs: seq<TxHash>)
    requires Stored(db, a0) && OnPath(db, a0, a, txs) && a.number > 0
    ensures OnPath(db, a0, Parent(db, a), txs + a.txs)
  {
    StepDown(db, a0, a);
    PathDownExtend(db, a0, a.number - 1);
    TxsOfAppend(PathDown(db, a0, a.number), a);
  }

  // ---------- The walk of BlockChain.reorg ----------

  /** A walker that has come down from `a0` to `a` and has collected the blocks on its way. */
  ghost predicate Descended(db: Blocks, a0: Block, a: Block, path: seq<Block>)
    requires Stored(db, a0)
  {
    Stored(db, a) && a.number <= a0.number && a == Ancestor(db, a0, a.number) && path == PathDown(db, a0, a.number)
  }

  lemma Descend(db: Blocks, a0: Block, a: Block, path: seq<Block>)
    requires Stored(db, a0) && Descended(db, a0, a, path) && a.number > 0
    ensures Descended(db, a0, Parent(db, a), path + [a])
  {
    StepDown(db, a0, a);
    PathDownExtend(db, a0, a.number - 1);
  }

  /**
   The first half of reorg. The new block is not in the database yet, which holds all its ancestors.
   None stands for the errors "Invalid old chain" and "Invalid new chain".
   */
  method ReorgWalk(db: Blocks, oldHead: Block, newHead: Block)
    returns (r: Option<(seq<Block>, seq<Block>, Block)>)
    requires Stored(db, oldHead) && (newHead.hash in db ==> db[newHead.hash] == newHead)
    requires Stored(db[newHead.hash := newHead], newHead)
    requires newHead.number > 0
    ensures var all := db[newHead.hash := newHead];
            && Stored(all, oldHead)
            && (r == None <==> Disjoint(all, oldHead, newHead))
            && (r.Some? ==>
                  var (oldChain, newChain, common) := r.value;
                  && MeetAt(all, oldHead, newHead, common.number)
                  && common == Ancestor(all, newHead, common.number)
                  && oldChain == PathDown(all, oldHead, common.number)
                  && newChain == PathDown(all, newHead, common.number))
  {
    ghost var all := db[newHead.hash := newHead];
    assert Linked(db, oldHead.hash);
    var a, b := oldHead, newHead;
    var oldChain: seq<Block>, newChain: seq<Block> := [], [];
    if a.number > b.number {
      while a.number != b.number
        invariant Descended(all, oldHead, a, oldChain) && a.number >= b.number
        decreases a.number
      {
        Descend(all, oldHead, a, oldChain);
        oldChain := oldChain + [a];
        var p := Get(db, a.parent, a.number - 1);
        SameParent(db, newHead, a);
        if p == None { return None; }
        a := p.value;
      }
    } else {
      while b.number != a.number
        invariant Descended(all, newHead, b, newChain) && b.number >= a.number
        decreases b.number
      {
        Descend(all, newHead, b, newChain);
        newChain := newChain + [b];
        var p := Get(db, b.parent, b.number - 1);
        SameParent(db, newHead, b);
        if p == None { return None; }
        b := p.value;
      }
    }
    StartWalking(all, oldHead, newHead, a, b);
    while a.hash != b.hash
      invariant Walking(all, oldHead, newHead, a, b)
      invariant Descended(all, oldHead, a, oldChain) && Descended(all, newHead, b, newChain)
      decreases a.number
    {
      if a.number > 0 {
        StepBoth(all, oldHead, newHead, a, b);
        Descend(all, oldHead, a, oldChain);
        Descend(all, newHead, b, newChain);
        SameParent(db, newHead, a);
        SameParent(db, newHead, b);
      }
      oldChain := oldChain + [a];
      newChain := newChain + [b];
      var p, q := Get(db, a.parent, a.number - 1), Get(db, b.parent, b.number - 1);
      if p == None { return None; }
      if q == None { return None; }
      a, b := p.value, q.value;
    }
    Met(all, oldHead, newHead, a, b);
    r := Some((oldChain, newChain, a));
  }

  /** Parents on either path are found in the database even though the new block is not. */
  lemma SameParent(db: Blocks, x: Block, a: Block)
    requires ParentClosed(db) && Stored(db[x.hash := x], a) && a.number > 0
    requires x.hash in db ==> db[x.hash] == x
    ensures Get(db, a.parent, a.number - 1) == Some(Parent(db[x.hash := x], a))
  {
    if a.hash in db { assert Linked(db, a.hash); }
  }

  // ---------- Blocks in the order they are written ----------

  /**
   The hashes that are known after the blocks have been written in this order: the first is the genesis block, and a
   later one counts only if its parent is known when it comes.
   */
  function Connected(ys: seq<Block>): set<Hash> {
    if ys == [] then {}
    else
      var n := |ys| - 1;
      Connected(ys[..n]) + if n == 0 || ys[n].parent in Connected(ys[..n]) then {ys[n].hash} else {}
  }

  /** The block is the genesis block, or its parent is known when it comes. */
  predicate Accepted(ys: seq<Block>, i: nat)
    requires i < |ys|
  {
    i == 0 || ys[i].parent in Connected(ys[..i])
  }

  lemma AcceptedBefore(ys: seq<Block>, n: nat, i: nat)
    requires i < n <= |ys|
    ensures Accepted(ys[..n], i) <==> Accepted(ys, i)
  {
    assert ys[..n][..i] == ys[..i];
  }

  lemma {:induction false} ConnectedIff(ys: seq<Block>, h: Hash)
    ensures h in Connected(ys) <==> exists i :: 0 <= i < |ys| && Accepted(ys, i) && ys[i].hash == h
    decreases |ys|
  {
    if ys != [] {
      var n := |ys| - 1;
      ConnectedIff(ys[..n], h);
      if i :| 0 <= i < n && Accepted(ys[..n], i) && ys[..n][i].hash == h { AcceptedBefore(ys, n, i); }
      if i :| 0 <= i < |ys| && Accepted(ys, i) && ys[i].hash == h {
        if i < n { AcceptedBefore(ys, n, i); }
      }
      assert Accepted(ys, n) <==> n == 0 || ys[n].parent in Connected(ys[..n]);
    }
  }

  /**
   A block with a known parent is stored, whatever the fork choice; with an unknown one nothing is; and what was stored
   stays as it was.
   */
  ghost predicate StoresBlock(blocks: Blocks, x: Block, blocks': Blocks) {
    && (forall h | h in blocks :: h in blocks' && blocks'[h] == blocks[h])
    && (x.parent in blocks ==> x.hash in blocks' && blocks'[x.hash] == x)
    && (forall h | h in blocks' :: h in blocks || (h == x.hash && x.parent in blocks))
  }

  /** A run stores exactly the blocks whose parents are known when they come, each under its hash. */
  ghost predicate StoresAccepted(blocks: Blocks, ys: seq<Block>) {
    && blocks.Keys == Connected(ys)
    && forall i | 0 <= i < |ys| && Accepted(ys, i) :: ys[i].hash in blocks && blocks[ys[i].hash] == ys[i]
  }

  lemma StoresNext(blocks: Blocks, blocks': Blocks, ys: seq<Block>, n: nat)
    requires |ys| == n + 1 && n > 0 && StoresAccepted(blocks, ys[..n]) && StoresBlock(blocks, ys[n], blocks')
    ensures StoresAccepted(blocks', ys)
  {
    forall i | 0 <= i < |ys| && Accepted(ys, i) ensures ys[i].hash in blocks' && blocks'[ys[i].hash] == ys[i] {
      if i < n {
        AcceptedBefore(ys, n, i);
        assert Accepted(ys[..n], i) && ys[..n][i] == ys[i];
      }
    }
  }

  lemma FirstStored(g: Block)
    ensures StoresAccepted(map[g.hash := g], [g] + [])
  {
    assert [g] + [] == [g] && [g][..0] == [];
  }

  lemma AllInTds(blocks: Blocks, tds: map<Hash, nat>, ys: seq<Block>, n: nat)
    requires n <= |ys| && StoresAccepted(blocks, ys[..n]) && tds.Keys == blocks.Keys
    ensures forall i | 0 <= i < n && Accepted(ys, i) :: ys[i].hash in tds
  {
    forall i | 0 <= i < n && Accepted(ys, i) ensures ys[i].hash in tds {
      AcceptedBefore(ys, n, i);
      assert ys[..n][i] == ys[i];
    }
  }

  // ---------- Fork choice ----------

  /** What the fork choice looks at in a written block: whether it counts, its weight, its number, and the coin. */
  datatype Bid = Bid(ok: bool, weight: nat, number: nat, coin: bool)

  /** The k-th bid is the one that later ones do not replace, while it would replace the earlier ones. */
  ghost predicate Leads(bids: seq<Bid>, wins: (Bid, Bid) -> bool, k: nat) {
    && k < |bids| && bids[k].ok
    && (forall j | 0 <= j < k && bids[j].ok :: wins(bids[k], bids[j]))
    && (forall j | k < j < |bids| && bids[j].ok :: !wins(bids[j], bids[k]))
  }

  /** Whoever wins against one bid wins against all that this one has beaten or that have not beaten it. */
  ghost predicate Ordering(wins: (Bid, Bid) -> bool) {
    forall a, b, c {:trigger wins(c, b), wins(b, a)} {:trigger wins(c, b), wins(a, b)} ::
      wins(c, b) && (wins(b, a) || !wins(a, b)) ==> wins(c, a)
  }

  /** One more bid: it takes over if it counts and wins against the leader. */
  lemma LeadsNext(bids: seq<Bid>, bid: Bid, wins: (Bid, Bid) -> bool, k: nat)
    requires Ordering(wins) && Leads(bids, wins, k)
    ensures Leads(bids + [bid], wins, if bid.ok && wins(bid, bids[k]) then |bids| else k)
  {
  }

  /** What the fork choice sees of the blocks in the order they are written. */
  ghost function Bids(ys: seq<Block>, tds: map<Hash, nat>, coins: seq<bool>): seq<Bid>
    requires |coins| == |ys|
  {
    seq(|ys|, i requires 0 <= i < |ys| => BidOf(ys, tds, coins, i))
  }

  ghost function BidOf(ys: seq<Block>, tds: map<Hash, nat>, coins: seq<bool>, i: nat): Bid
    requires |coins| == |ys| && i < |ys|
  {
    var counts := Accepted(ys, i) && ys[i].hash in tds;
    Bid(counts, if counts then tds[ys[i].hash] else 0, ys[i].number, coins[i])
  }

  /** The difficulties of earlier blocks do not change, so neither do their bids. */
  lemma BidsNext(ys: seq<Block>, tds: map<Hash, nat>, tds': map<Hash, nat>, coins: seq<bool>, n: nat)
    requires |ys| == |coins| == n + 1 && forall h | h in tds :: h in tds' && tds'[h] == tds[h]
    requires forall i | 0 <= i < n && Accepted(ys, i) :: ys[i].hash in tds
    ensures Bids(ys, tds', coins) == Bids(ys[..n], tds, coins[..n]) + [BidOf(ys, tds', coins, n)]
  {
    forall i | 0 <= i < n ensures BidOf(ys, tds', coins, i) == BidOf(ys[..n], tds, coins[..n], i) {
      AcceptedBefore(ys, n, i);
    }
  }
}
