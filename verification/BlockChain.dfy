/**
 Canonical block chain maintenance (core/blockchain.go): fork choice, reorganisation, the
 number-to-hash index and the transaction lookup index.
 */
module BlockChain {
  import opened Basics
  import opened ChainStore
  import HeaderChain

  /** TxLookupEntry. */
  datatype Entry = Entry(blockHash: Hash, number: nat, index: nat)

  type Lookup = map<TxHash, Entry>

  datatype Db = Db(genesis: Hash, blocks: Blocks, tds: map<Hash, nat>, canonical: map<nat, Hash>, lookup: Lookup,
                   head: Block)

  // ---------- The lookup index as a scan ----------

  /** The entries of the first `n` transactions of a block, a later one overwriting an earlier one. */
  function EntriesUpTo(b: Block, n: nat): Lookup
    requires n <= |b.txs|
  {
    if n == 0 then map[] else EntriesUpTo(b, n - 1)[b.txs[n - 1] := Entry(b.hash, b.number, n - 1)]
  }

  function Entries(b: Block): Lookup { EntriesUpTo(b, |b.txs|) }

  lemma {:induction false} EntriesUpToMeaning(b: Block, n: nat, t: TxHash)
    requires n <= |b.txs|
    ensures t in EntriesUpTo(b, n) <==> t in b.txs[..n]
    ensures t in EntriesUpTo(b, n) ==>
              var e := EntriesUpTo(b, n)[t];
              e.blockHash == b.hash && e.number == b.number && e.index < n && b.txs[e.index] == t
  {
    if n > 0 {
      EntriesUpToMeaning(b, n - 1, t);
      assert b.txs[..n] == b.txs[..n - 1] + [b.txs[n - 1]];
    }
  }

  /** The entries of the blocks above number `n` on the path to `b`. */
  function ScanAbove(db: Blocks, b: Block, n: nat): Lookup
    requires Stored(db, b) && n <= b.number
    decreases b.number
  {
    if n == b.number then map[] else ScanAbove(db, Parent(db, b), n) + Entries(b)
  }

  /** The entries of the whole path to `b`, from the genesis block up. */
  function Scan(db: Blocks, b: Block): Lookup
    requires Stored(db, b)
    decreases b.number
  {
    if b.number == 0 then Entries(b) else Scan(db, Parent(db, b)) + Entries(b)
  }

  lemma {:induction false} ScanSplit(db: Blocks, b: Block, n: nat)
    requires Stored(db, b) && n <= b.number
    ensures Scan(db, b) == Scan(db, Ancestor(db, b, n)) + ScanAbove(db, b, n)
    decreases b.number
  {
    if n < b.number { ScanSplit(db, Parent(db, b), n); }
  }

  /** Transaction `t` is in the block with number `i` on the path to `b`. */
  predicate HasTx(db: Blocks, b: Block, i: nat, t: TxHash)
    requires Stored(db, b)
  {
    i <= b.number && t in Ancestor(db, b, i).txs
  }

  /** A scan finds exactly the transactions of the path, each at a place where it really is. */
  lemma {:induction false} ScanMeaning(db: Blocks, b: Block, t: TxHash)
    requires Stored(db, b)
    ensures t in Scan(db, b) <==> exists i: nat :: HasTx(db, b, i, t)
    ensures t in Scan(db, b) ==>
              var e := Scan(db, b)[t];
              && e.number <= b.number && e.blockHash == Ancestor(db, b, e.number).hash
              && e.index < |Ancestor(db, b, e.number).txs| && Ancestor(db, b, e.number).txs[e.index] == t
    decreases b.number
  {
    EntriesUpToMeaning(b, |b.txs|, t);
    assert b.txs[..|b.txs|] == b.txs;
    assert HasTx(db, b, b.number, t) <==> t in b.txs;
    if b.number > 0 {
      var p := Parent(db, b);
      ScanMeaning(db, p, t);
      assert forall i: nat | i < b.number :: HasTx(db, b, i, t) <==> HasTx(db, p, i, t);
    } else {
      assert forall i: nat | HasTx(db, b, i, t) :: i == b.number;
    }
  }

  lemma {:induction false} ScanFrame(db: Blocks, db': Blocks, b: Block)
    requires Stored(db, b) && ParentClosed(db')
    requires forall h | h in db :: h in db' && db'[h] == db[h]
    ensures Stored(db', b) && Scan(db', b) == Scan(db, b)
    decreases b.number
  {
    if b.number > 0 {
      assert Parent(db', b) == Parent(db, b);
      ScanFrame(db, db', Parent(db, b));
    }
  }

  /** No transaction occurs in two blocks of the path to `b`. */
  ghost predicate UniqueTxs(db: Blocks, b: Block)
    requires Stored(db, b)
    decreases b.number
  {
    b.number > 0 ==> Scan(db, Parent(db, b)).Keys !! Entries(b).Keys && UniqueTxs(db, Parent(db, b))
  }

  lemma {:induction false} SegmentsDisjoint(db: Blocks, b: Block, n: nat)
    requires Stored(db, b) && UniqueTxs(db, b) && n <= b.number
    ensures Scan(db, Ancestor(db, b, n)).Keys !! ScanAbove(db, b, n).Keys
    decreases b.number
  {
    if n < b.number {
      SegmentsDisjoint(db, Parent(db, b), n);
      ScanSplit(db, Parent(db, b), n);
    }
  }

  lemma {:induction false} ScanAboveKeys(db: Blocks, b: Block, n: nat, t: TxHash)
    requires Stored(db, b) && n <= b.number
    ensures t in ScanAbove(db, b, n) <==> t in TxsOf(PathDown(db, b, n))
    decreases b.number
  {
    if n < b.number {
      ScanAboveKeys(db, Parent(db, b), n, t);
      EntriesUpToMeaning(b, |b.txs|, t);
      assert b.txs[..|b.txs|] == b.txs;
    }
  }

  /** Old entries, overwritten by the new segment's and without what only the old segment had. */
  function Reindexed(lookup: Lookup, added: Lookup, oldTxs: seq<TxHash>, newTxs: seq<TxHash>): Lookup {
    map t | t in (lookup + added) && !(t in oldTxs && t !in newTxs) :: (lookup + added)[t]
  }

  /** Repairing the lookup index along the two segments gives the scan of the new chain. */
  lemma ReindexedIsScan(db: Blocks, a: Block, b: Block, n: nat)
    requires Stored(db, a) && Stored(db, b) && UniqueTxs(db, a) && UniqueTxs(db, b)
    requires n <= a.number && n <= b.number && Ancestor(db, a, n) == Ancestor(db, b, n)
    ensures Reindexed(Scan(db, a), ScanAbove(db, b, n), TxsOf(PathDown(db, a, n)), TxsOf(PathDown(db, b, n)))
         == Scan(db, b)
  {
    ScanSplit(db, a, n);
    ScanSplit(db, b, n);
    SegmentsDisjoint(db, a, n);
    SegmentsDisjoint(db, b, n);
    var r := Reindexed(Scan(db, a), ScanAbove(db, b, n), TxsOf(PathDown(db, a, n)), TxsOf(PathDown(db, b, n)));
    forall t: TxHash
      ensures t in r <==> t in Scan(db, b)
    {
      ScanAboveKeys(db, a, n, t);
      ScanAboveKeys(db, b, n, t);
    }
    forall t | t in r
      ensures r[t] == Scan(db, b)[t]
    {
      ScanAboveKeys(db, a, n, t);
      ScanAboveKeys(db, b, n, t);
    }
  }

  // ---------- The specification ----------

  /** The fork choice: more total difficulty, or the same and a higher number. */
  predicate Better(td: nat, number: nat, td': nat, number': nat) {
    td > td' || (td == td' && number > number')
  }

  ghost predicate BranchesUnique(blocks: Blocks)
    requires ParentClosed(blocks)
  {
    forall h {:trigger Linked(blocks, h)} | h in blocks :: Linked(blocks, h) && UniqueTxs(blocks, blocks[h])
  }

  /** Up to the head, the index is the head's path. Nothing is said about higher numbers. */
  ghost predicate CanonicalUpTo(blocks: Blocks, canonical: map<nat, Hash>, head: Block)
    requires Stored(blocks, head)
  {
    forall i: nat | i <= head.number :: i in canonical && canonical[i] == Ancestor(blocks, head, i).hash
  }

  /** What holds of the stored blocks, whatever the head. */
  ghost predicate StoreInv(genesis: Hash, blocks: Blocks, tds: map<Hash, nat>) {
    && ParentClosed(blocks)
    && HeaderChain.OneRoot(blocks, genesis)
    && HeaderChain.TdsOk(blocks, tds)
    && BranchesUnique(blocks)
  }

  /** What holds of the head and its indices. */
  ghost predicate HeadInv(blocks: Blocks, tds: map<Hash, nat>, canonical: map<nat, Hash>, lookup: Lookup, head: Block)
    requires tds.Keys == blocks.Keys
  {
    && Stored(blocks, head)
    && CanonicalUpTo(blocks, canonical, head)
    && lookup == Scan(blocks, head)
    && Best(blocks, tds, head)
  }

  ghost predicate Inv(db: Db) {
    && StoreInv(db.genesis, db.blocks, db.tds)
    && HeadInv(db.blocks, db.tds, db.canonical, db.lookup, db.head)
  }

  /** What block verification guarantees: see HeaderChain.Acceptable; and no transaction repeats on the branch. */
  ghost predicate Acceptable(blocks: Blocks, x: Block) {
    && ParentClosed(blocks) && HeaderChain.Acceptable(blocks, x)
    && (x.parent in blocks ==> Stored(blocks[x.hash := x], x) && UniqueTxs(blocks[x.hash := x], x))
  }

  function AsHeaders(db: Db): HeaderChain.Db {
    HeaderChain.Db(db.genesis, db.blocks, db.tds, db.canonical, db.head)
  }

  /** The effect WriteBlockWithState is to have. */
  ghost function Written(db: Db, x: Block): (r: Db)
    requires Inv(db) && Acceptable(db.blocks, x)
  {
    if x.parent !in db.blocks then db
    else
      var blocks' := db.blocks[x.hash := x];
      var td := x.difficulty + db.tds[x.parent];
      var db' := db.(blocks := blocks', tds := db.tds[x.hash := td]);
      if Better(td, x.number, db.tds[db.head.hash], db.head.number) then
        db'.(head := x,
             canonical := db.canonical + HeaderChain.CanonicalOf(blocks', x),
             lookup := Scan(blocks', x))
      else
        db'
  }

  lemma BranchesExtend(blocks: Blocks, x: Block)
    requires Acceptable(blocks, x) && x.parent in blocks && BranchesUnique(blocks)
    ensures BranchesUnique(blocks[x.hash := x])
  {
    var blocks' := blocks[x.hash := x];
    forall h | h in blocks'
      ensures Linked(blocks', h) && UniqueTxs(blocks', blocks'[h])
    {
      assert Linked(blocks', h);
      if h in blocks {
        assert Linked(blocks, h);
        UniqueFrame(blocks, blocks', blocks[h]);
      }
    }
  }

  lemma {:induction false} UniqueFrame(db: Blocks, db': Blocks, b: Block)
    requires Stored(db, b) && ParentClosed(db') && UniqueTxs(db, b)
    requires forall h | h in db :: h in db' && db'[h] == db[h]
    ensures Stored(db', b) && UniqueTxs(db', b)
    decreases b.number
  {
    if b.number > 0 {
      assert Parent(db', b) == Parent(db, b);
      ScanFrame(db, db', Parent(db, b));
      UniqueFrame(db, db', Parent(db, b));
    }
  }

  lemma CanonicalUpToFrame(blocks: Blocks, blocks': Blocks, canonical: map<nat, Hash>, head: Block)
    requires Stored(blocks, head) && ParentClosed(blocks') && CanonicalUpTo(blocks, canonical, head)
    requires forall h | h in blocks :: h in blocks' && blocks'[h] == blocks[h]
    ensures Stored(blocks', head) && CanonicalUpTo(blocks', canonical, head)
  {
    forall i: nat | i <= head.number
      ensures Stored(blocks', head) && Ancestor(blocks', head, i) == Ancestor(blocks, head, i)
    {
      AncestorFrame(blocks, blocks', head, i);
    }
  }

  /** What storing a block keeps, whatever the fork choice. */
  lemma StoredKeeps(db: Db, x: Block)
    requires Inv(db) && Acceptable(db.blocks, x) && x.parent in db.blocks
    ensures var blocks', tds' := db.blocks[x.hash := x], db.tds[x.hash := x.difficulty + db.tds[x.parent]];
            && StoreInv(db.genesis, blocks', tds')
            && Stored(blocks', x) && Stored(blocks', db.head)
            && (forall h | h in db.blocks :: blocks'[h] == db.blocks[h] && tds'[h] == db.tds[h])
  {
    HeaderChain.StoreExtends(AsHeaders(db), x);
    BranchesExtend(db.blocks, x);
    assert Linked(db.blocks[x.hash := x], db.head.hash);
  }

  lemma SideKeeps(db: Db, x: Block)
    requires Inv(db) && Acceptable(db.blocks, x) && x.parent in db.blocks
    ensures var blocks' := db.blocks[x.hash := x];
            && Stored(blocks', db.head) && CanonicalUpTo(blocks', db.canonical, db.head)
            && Scan(blocks', db.head) == db.lookup
  {
    StoredKeeps(db, x);
    CanonicalUpToFrame(db.blocks, db.blocks[x.hash := x], db.canonical, db.head);
    ScanFrame(db.blocks, db.blocks[x.hash := x], db.head);
  }

  /** Head `b` is best among all stored blocks. */
  ghost predicate Best(blocks: Blocks, tds: map<Hash, nat>, b: Block)
    requires tds.Keys == blocks.Keys && b.hash in blocks
  {
    forall h | h in blocks :: !Better(tds[h], blocks[h].number, tds[b.hash], b.number)
  }

  lemma BestKept(blocks: Blocks, tds: map<Hash, nat>, head: Block, x: Block, td: nat)
    requires tds.Keys == blocks.Keys && head.hash in blocks && blocks[head.hash] == head && Best(blocks, tds, head)
    requires x.hash in blocks ==> blocks[x.hash] == x && tds[x.hash] == td
    ensures Best(blocks[x.hash := x], tds[x.hash := td],
                 if Better(td, x.number, tds[head.hash], head.number) then x else head)
  {
  }

  lemma WonKeepsHead(db: Db, x: Block)
    requires Inv(db) && Acceptable(db.blocks, x) && x.parent in db.blocks
    requires Better(x.difficulty + db.tds[x.parent], x.number, db.tds[db.head.hash], db.head.number)
    ensures var r := Written(db, x);
            r.tds.Keys == r.blocks.Keys && HeadInv(r.blocks, r.tds, r.canonical, r.lookup, r.head)
  {
    StoredKeeps(db, x);
    CanonicalWon(db.blocks[x.hash := x], db.canonical, x);
    BestKept(db.blocks, db.tds, db.head, x, x.difficulty + db.tds[x.parent]);
  }

  lemma CanonicalWon(blocks: Blocks, canonical: map<nat, Hash>, x: Block)
    requires Stored(blocks, x)
    ensures CanonicalUpTo(blocks, canonical + HeaderChain.CanonicalOf(blocks, x), x)
  {
  }

  lemma LostKeepsHead(db: Db, x: Block)
    requires Inv(db) && Acceptable(db.blocks, x) && x.parent in db.blocks
    requires !Better(x.difficulty + db.tds[x.parent], x.number, db.tds[db.head.hash], db.head.number)
    ensures var r := Written(db, x);
            r.tds.Keys == r.blocks.Keys && HeadInv(r.blocks, r.tds, r.canonical, r.lookup, r.head)
  {
    SideKeeps(db, x);
    StoredKeeps(db, x);
    BestKept(db.blocks, db.tds, db.head, x, x.difficulty + db.tds[x.parent]);
  }

  lemma WrittenStore(db: Db, x: Block)
    requires Inv(db) && Acceptable(db.blocks, x)
    ensures var r := Written(db, x); StoreInv(r.genesis, r.blocks, r.tds)
  {
    if x.parent in db.blocks { StoredKeeps(db, x); }
  }

  lemma WrittenHead(db: Db, x: Block)
    requires Inv(db) && Acceptable(db.blocks, x)
    ensures var r := Written(db, x);
            r.tds.Keys == r.blocks.Keys && HeadInv(r.blocks, r.tds, r.canonical, r.lookup, r.head)
  {
    if x.parent in db.blocks {
      if Better(x.difficulty + db.tds[x.parent], x.number, db.tds[db.head.hash], db.head.number) {
        WonKeepsHead(db, x);
      } else {
        LostKeepsHead(db, x);
      }
    }
  }

  /**
   After every WriteBlockWithState the head is best by total difficulty, then number, among all blocks
   written so far; the index up to the head is the head's path; the lookup index is the scan of that path.
   */
  lemma WrittenKeepsInv(db: Db, x: Block)
    requires Inv(db) && Acceptable(db.blocks, x)
    ensures Inv(Written(db, x))
  {
    WrittenStore(db, x);
    WrittenHead(db, x);
  }

  /** The index is defined on exactly the numbers up to the head. */
  ghost predicate Exact(db: Db) {
    forall i: nat :: i in db.canonical <==> i <= db.head.number
  }

  /** The index is defined on exactly the numbers up to `top`, and each entry names a stored block of that number. */
  ghost predicate IndexedTo(db: Db, top: nat) {
    && db.head.number <= top
    && (forall i: nat :: i in db.canonical <==> i <= top)
    && (forall i | i in db.canonical :: db.canonical[i] in db.blocks && db.blocks[db.canonical[i]].number == i)
  }

  function Max(a: nat, b: nat): nat { if a < b then b else a }

  lemma WonIndexedTo(blocks: Blocks, canonical: map<nat, Hash>, x: Block, top: nat)
    requires Stored(blocks, x) && forall i: nat :: i in canonical <==> i <= top
    requires forall i | i in canonical :: canonical[i] in blocks && blocks[canonical[i]].number == i
    ensures var c := canonical + HeaderChain.CanonicalOf(blocks, x);
            && (forall i: nat :: i in c <==> i <= Max(top, x.number))
            && (forall i | i in c :: c[i] in blocks && blocks[c[i]].number == i)
  {
  }

  /** The block chain never erases an entry: one step raises the top to the new head's number, if that is higher. */
  lemma WrittenIndexedTo(db: Db, x: Block, top: nat)
    requires Inv(db) && Acceptable(db.blocks, x) && IndexedTo(db, top)
    ensures var r := Written(db, x); IndexedTo(r, Max(top, r.head.number))
  {
    if x.parent in db.blocks {
      StoredKeeps(db, x);
      WonIndexedTo(db.blocks[x.hash := x], db.canonical, x, top);
    }
  }

  // ---------- Runs ----------

  ghost function Genesis(g: Block): (db: Db)
    requires g.number == 0 && g.hash != NO_HASH
    ensures Inv(db) && Exact(db)
  {
    var db := Db(g.hash, map[g.hash := g], map[g.hash := g.difficulty], map[0 := g.hash], Entries(g), g);
    assert Linked(db.blocks, g.hash);
    db
  }

  ghost predicate AllAcceptable(db: Db, xs: seq<Block>)
    requires Inv(db)
    decreases |xs|
  {
    if xs == [] then true
    else if !Acceptable(db.blocks, xs[0]) then false
    else WrittenKeepsInv(db, xs[0]); AllAcceptable(Written(db, xs[0]), xs[1..])
  }

  ghost function Run(db: Db, xs: seq<Block>): (r: Db)
    requires Inv(db) && AllAcceptable(db, xs)
    ensures Inv(r)
    decreases |xs|
  {
    if xs == [] then db else WrittenKeepsInv(db, xs[0]); Run(Written(db, xs[0]), xs[1..])
  }

  /**
   Over every run from genesis: the lookup index knows exactly the transactions of the canonical chain and
   points to where they are, and the index by number leads from the head to the genesis block.
   */
  lemma RunFromGenesis(g: Block, xs: seq<Block>, t: TxHash)
    requires g.number == 0 && g.hash != NO_HASH && AllAcceptable(Genesis(g), xs)
    ensures var db := Run(Genesis(g), xs);
            && Stored(db.blocks, db.head) && db.tds.Keys == db.blocks.Keys && Best(db.blocks, db.tds, db.head)
            && (forall i: nat | i <= db.head.number ::
                  i in db.canonical && db.canonical[i] == Ancestor(db.blocks, db.head, i).hash)
            && (t in db.lookup <==> exists i: nat :: HasTx(db.blocks, db.head, i, t))
            && (t in db.lookup ==>
                  var e := db.lookup[t];
                  && e.number <= db.head.number && db.canonical[e.number] == e.blockHash
                  && e.index < |db.blocks[e.blockHash].txs| && db.blocks[e.blockHash].txs[e.index] == t)
  {
    var db := Run(Genesis(g), xs);
    ScanMeaning(db.blocks, db.head, t);
  }

  // ---------- What a run stores, and which block it ends at ----------

  /** Whatever the fork choice, the block is stored if its parent is. */
  lemma WrittenStores(db: Db, x: Block)
    requires Inv(db) && Acceptable(db.blocks, x)
    ensures StoresBlock(db.blocks, x, Written(db, x).blocks)
  {
  }

  lemma {:induction false} RunLast(db: Db, xs: seq<Block>, n: nat)
    requires Inv(db) && AllAcceptable(db, xs) && |xs| == n + 1
    ensures AllAcceptable(db, xs[..n]) && Acceptable(Run(db, xs[..n]).blocks, xs[n])
    ensures Run(db, xs) == Written(Run(db, xs[..n]), xs[n])
    decreases n
  {
    WrittenKeepsInv(db, xs[0]);
    if n > 0 {
      RunLast(Written(db, xs[0]), xs[1..], n - 1);
      assert xs[1..][..n - 1] == xs[..n][1..] && xs[1..][n - 1] == xs[n] && xs[..n][0] == xs[0];
    } else {
      assert xs[1..] == [] && xs[..0] == [];
    }
  }

  lemma {:induction false} RunStores(g: Block, xs: seq<Block>)
    requires g.number == 0 && g.hash != NO_HASH && AllAcceptable(Genesis(g), xs)
    ensures StoresAccepted(Run(Genesis(g), xs).blocks, [g] + xs)
    decreases |xs|
  {
    if xs == [] {
      FirstStored(g);
    } else {
      var n := |xs| - 1;
      RunLast(Genesis(g), xs, n);
      RunStores(g, xs[..n]);
      OneMoreStored(g, xs, n, Run(Genesis(g), xs[..n]));
    }
  }

  lemma OneMoreStored(g: Block, xs: seq<Block>, n: nat, db: Db)
    requires |xs| == n + 1 && Inv(db) && Acceptable(db.blocks, xs[n]) && StoresAccepted(db.blocks, [g] + xs[..n])
    ensures StoresAccepted(Written(db, xs[n]).blocks, [g] + xs)
  {
    var ys := [g] + xs;
    assert ys[..n + 1] == [g] + xs[..n] && ys[n + 1] == xs[n];
    WrittenStores(db, xs[n]);
    StoresNext(db.blocks, Written(db, xs[n]).blocks, ys, n + 1);
  }

  /** More difficulty down to the genesis block, or as much and a higher number. */
  ghost predicate Heavier(blocks: Blocks, a: Block, b: Block)
    requires Stored(blocks, a) && Stored(blocks, b)
  {
    var da, db := HeaderChain.PathDifficulty(blocks, a), HeaderChain.PathDifficulty(blocks, b);
    da > db || (da == db && a.number > b.number)
  }

  function Outweighs(): (Bid, Bid) -> bool {
    (a: Bid, b: Bid) => a.weight > b.weight || (a.weight == b.weight && a.number > b.number)
  }

  function Coins(n: nat): seq<bool> { seq(n, i => false) }

  /** What a write does to the difficulties and the head. */
  ghost predicate HeadMoves(known: bool, tds: map<Hash, nat>, head: Block, x: Block, tds': map<Hash, nat>, head': Block)
    requires head.hash in tds
  {
    && (forall h | h in tds :: h in tds' && tds'[h] == tds[h])
    && (known ==> x.hash in tds')
    && head' == if known && (tds'[x.hash] > tds[head.hash]
                             || (tds'[x.hash] == tds[head.hash] && x.number > head.number))
                then x else head
  }

  lemma WrittenMoves(db: Db, x: Block)
    requires Inv(db) && Acceptable(db.blocks, x)
    ensures HeadMoves(x.parent in db.blocks, db.tds, db.head, x, Written(db, x).tds, Written(db, x).head)
  {
    if x.parent in db.blocks { StoredKeeps(db, x); }
  }

  lemma LeaderMoves(tds: map<Hash, nat>, tds': map<Hash, nat>, ys: seq<Block>, n: nat, k: nat, head': Block)
    returns (k': nat)
    requires |ys| == n + 1 && k < n && ys[k].hash in tds && Leads(Bids(ys[..n], tds, Coins(n)), Outweighs(), k)
    requires forall i | 0 <= i < n && Accepted(ys, i) :: ys[i].hash in tds
    requires HeadMoves(Accepted(ys, n), tds, ys[k], ys[n], tds', head')
    ensures k' < |ys| && Leads(Bids(ys, tds', Coins(n + 1)), Outweighs(), k') && ys[k'] == head'
  {
    var bids, bid := Bids(ys[..n], tds, Coins(n)), BidOf(ys, tds', Coins(n + 1), n);
    assert Coins(n + 1)[..n] == Coins(n);
    BidsNext(ys, tds, tds', Coins(n + 1), n);
    LeadsNext(bids, bid, Outweighs(), k);
    k' := if bid.ok && Outweighs()(bid, bids[k]) then n else k;
  }

  lemma {:induction false} RunLeads(g: Block, xs: seq<Block>) returns (k: nat)
    requires g.number == 0 && g.hash != NO_HASH && AllAcceptable(Genesis(g), xs)
    ensures var ys, db := [g] + xs, Run(Genesis(g), xs);
            k < |ys| && Leads(Bids(ys, db.tds, Coins(|ys|)), Outweighs(), k) && ys[k] == db.head
    decreases |xs|
  {
    if xs == [] {
      k := 0;
    } else {
      var n := |xs| - 1;
      RunLast(Genesis(g), xs, n);
      k := RunLeads(g, xs[..n]);
      RunStores(g, xs[..n]);
      var before, after := Run(Genesis(g), xs[..n]), Run(Genesis(g), xs);
      WrittenMoves(before, xs[n]);
      assert ([g] + xs)[k] == ([g] + xs[..n])[k] == before.head;
      k := OneMoreLeads(g, xs, n, before.blocks, before.tds, after.tds, k, after.head);
    }
  }

  lemma OneMoreLeads(g: Block, xs: seq<Block>, n: nat, blocks: Blocks, tds: map<Hash, nat>, tds': map<Hash, nat>,
                     k: nat, head': Block)
    returns (k': nat)
    requires |xs| == n + 1 && k <= n && tds.Keys == blocks.Keys && ([g] + xs)[k].hash in tds
    requires StoresAccepted(blocks, [g] + xs[..n])
    requires Leads(Bids([g] + xs[..n], tds, Coins(n + 1)), Outweighs(), k)
    requires HeadMoves(xs[n].parent in blocks, tds, ([g] + xs)[k], xs[n], tds', head')
    ensures var ys := [g] + xs;
            k' < |ys| && Leads(Bids(ys, tds', Coins(|ys|)), Outweighs(), k') && ys[k'] == head'
  {
    var ys := [g] + xs;
    assert ys[..n + 1] == [g] + xs[..n] && ys[n + 1] == xs[n];
    AllInTds(blocks, tds, ys, n + 1);
    assert Accepted(ys, n + 1) <==> xs[n].parent in blocks;
    k' := LeaderMoves(tds, tds', ys, n + 1, k, head');
  }

  lemma {:induction false} TdIsPath(blocks: Blocks, tds: map<Hash, nat>, b: Block)
    requires Stored(blocks, b) && HeaderChain.TdsOk(blocks, tds)
    ensures tds[b.hash] == HeaderChain.PathDifficulty(blocks, b)
    decreases b.number
  {
    assert Linked(blocks, b.hash);
    if b.number > 0 { TdIsPath(blocks, tds, Parent(blocks, b)); }
  }

  /** A block is refused exactly if its parent is unknown, and becomes the head exactly if it is heavier. */
  ghost predicate Chooses(blocks: Blocks, head: Block, x: Block, blocks': Blocks, head': Block,
                          status: HeaderChain.Status)
  {
    && StoresBlock(blocks, x, blocks')
    && if x.parent !in blocks then status == HeaderChain.NonStat && head' == head
       else && Stored(blocks', x) && Stored(blocks', head)
            && if Heavier(blocks', x, head) then status == HeaderChain.CanonStat && head' == x
               else status == HeaderChain.SideStat && head' == head
  }

  ghost function StatusOf(db: Db, x: Block): HeaderChain.Status
    requires Inv(db)
  {
    if x.parent !in db.blocks then HeaderChain.NonStat
    else if Better(x.difficulty + db.tds[x.parent], x.number, db.tds[db.head.hash], db.head.number)
    then HeaderChain.CanonStat else HeaderChain.SideStat
  }

  lemma HeavierIsBetter(blocks: Blocks, tds: map<Hash, nat>, a: Block, b: Block)
    requires Stored(blocks, a) && Stored(blocks, b) && HeaderChain.TdsOk(blocks, tds)
    ensures Heavier(blocks, a, b) <==> Better(tds[a.hash], a.number, tds[b.hash], b.number)
  {
    TdIsPath(blocks, tds, a);
    TdIsPath(blocks, tds, b);
  }

  lemma ByDifficulty(blocks: Blocks, head: Block, x: Block, blocks': Blocks, tds': map<Hash, nat>, head': Block,
                     status: HeaderChain.Status)
    requires StoresBlock(blocks, x, blocks') && x.parent in blocks && HeadStored(blocks', tds', x, head)
    requires var wins := Better(tds'[x.hash], x.number, tds'[head.hash], head.number);
             && head' == (if wins then x else head)
             && status == if wins then HeaderChain.CanonStat else HeaderChain.SideStat
    ensures Chooses(blocks, head, x, blocks', head', status)
  {
    HeavierIsBetter(blocks', tds', x, head);
  }

  ghost predicate HeadStored(blocks: Blocks, tds: map<Hash, nat>, x: Block, head: Block) {
    Stored(blocks, x) && Stored(blocks, head) && HeaderChain.TdsOk(blocks, tds)
  }

  lemma WrittenChooses(db: Db, x: Block)
    requires Inv(db) && Acceptable(db.blocks, x)
    ensures Chooses(db.blocks, db.head, x, Written(db, x).blocks, Written(db, x).head, StatusOf(db, x))
  {
    WrittenStores(db, x);
    if x.parent in db.blocks {
      StoredKeeps(db, x);
      var r := Written(db, x);
      assert r.tds[x.hash] == x.difficulty + db.tds[x.parent] && r.tds[db.head.hash] == db.tds[db.head.hash];
      ByDifficulty(db.blocks, db.head, x, r.blocks, r.tds, r.head, StatusOf(db, x));
    }
  }

  /**
   Over every run from genesis, in terms of the blocks in the order they are written: exactly those whose parents are
   known when they come are stored, and the head is the first among them that no other is heavier than.
   */
  lemma HeadIsFirstBest(g: Block, xs: seq<Block>) returns (k: nat)
    requires g.number == 0 && g.hash != NO_HASH && AllAcceptable(Genesis(g), xs)
    ensures var ys, db := [g] + xs, Run(Genesis(g), xs);
            && db.blocks.Keys == Connected(ys)
            && (forall i | 0 <= i < |ys| && Accepted(ys, i) :: Stored(db.blocks, ys[i]))
            && k < |ys| && Accepted(ys, k) && db.head == ys[k]
            && (forall i | 0 <= i < k && Accepted(ys, i) :: Heavier(db.blocks, db.head, ys[i]))
            && (forall i | k < i < |ys| && Accepted(ys, i) :: !Heavier(db.blocks, ys[i], db.head))
  {
    var ys, db := [g] + xs, Run(Genesis(g), xs);
    RunStores(g, xs);
    k := RunLeads(g, xs);
    var bids := Bids(ys, db.tds, Coins(|ys|));
    TdIsPath(db.blocks, db.tds, db.head);
    forall i | 0 <= i < |ys| && Accepted(ys, i)
      ensures Stored(db.blocks, ys[i])
      ensures i < k ==> Heavier(db.blocks, db.head, ys[i])
      ensures i > k ==> !Heavier(db.blocks, ys[i], db.head)
    {
      TdIsPath(db.blocks, db.tds, ys[i]);
      assert bids[i] == BidOf(ys, db.tds, Coins(|ys|), i) && bids[k] == BidOf(ys, db.tds, Coins(|ys|), k);
      assert i < k ==> Outweighs()(bids[k], bids[i]);
      assert i > k ==> !Outweighs()(bids[i], bids[k]);
    }
  }

  /** The highest number that any head of the run has had. */
  ghost function Peak(db: Db, xs: seq<Block>): nat
    requires Inv(db) && AllAcceptable(db, xs)
    decreases |xs|
  {
    if xs == [] then db.head.number
    else WrittenKeepsInv(db, xs[0]); Max(db.head.number, Peak(Written(db, xs[0]), xs[1..]))
  }

  lemma {:induction false} RunIndexedTo(db: Db, xs: seq<Block>, top: nat)
    requires Inv(db) && AllAcceptable(db, xs) && IndexedTo(db, top)
    ensures IndexedTo(Run(db, xs), Max(top, Peak(db, xs)))
    decreases |xs|
  {
    if xs != [] {
      WrittenKeepsInv(db, xs[0]);
      WrittenIndexedTo(db, xs[0], top);
      RunIndexedTo(Written(db, xs[0]), xs[1..], Max(top, Written(db, xs[0]).head.number));
      HeadBelowPeak(Written(db, xs[0]), xs[1..]);
    }
  }

  lemma HeadBelowPeak(db: Db, xs: seq<Block>)
    requires Inv(db) && AllAcceptable(db, xs)
    ensures db.head.number <= Peak(db, xs)
  {
    if xs != [] { WrittenKeepsInv(db, xs[0]); }
  }

  /**
   Over every run from genesis, the index by number is defined on exactly the numbers up to the highest that any
   head has had. So it is exact if and only if the head is as high as ever.
   */
  lemma ExactIff(g: Block, xs: seq<Block>)
    requires g.number == 0 && g.hash != NO_HASH && AllAcceptable(Genesis(g), xs)
    ensures IndexedTo(Run(Genesis(g), xs), Peak(Genesis(g), xs))
    ensures Exact(Run(Genesis(g), xs)) <==> Run(Genesis(g), xs).head.number == Peak(Genesis(g), xs)
  {
    RunIndexedTo(Genesis(g), xs, 0);
    var r, peak := Run(Genesis(g), xs), Peak(Genesis(g), xs);
    assert peak in r.canonical;
  }

  /** Two light blocks, then a heavy one beside the first, and a child of the heavy one. */
  const ROOT := Block(1, NO_HASH, 0, 1, [])
  const LIGHT1 := Block(2, 1, 1, 1, [])
  const LIGHT2 := Block(3, 2, 2, 1, [])
  const HEAVY1 := Block(4, 1, 1, 5, [])
  const HEAVY2 := Block(5, 4, 2, 1, [])

  lemma AcceptEmpty(db: Db, x: Block)
    requires Inv(db) && HeaderChain.Acceptable(db.blocks, x) && x.txs == []
    ensures Acceptable(db.blocks, x)
  {
    if x.parent in db.blocks {
      HeaderChain.ClosedExtends(db.blocks, x);
      var blocks' := db.blocks[x.hash := x];
      var p := Parent(blocks', x);
      assert Linked(db.blocks, p.hash);
      UniqueFrame(db.blocks, blocks', p);
    }
  }

  /** One empty block that wins. */
  lemma EmptyWins(db: Db, x: Block, top: nat) returns (r: Db)
    requires Inv(db) && IndexedTo(db, top) && x.txs == [] && x.parent in db.blocks
             && HeaderChain.Acceptable(db.blocks, x)
    requires Better(x.difficulty + db.tds[x.parent], x.number, db.tds[db.head.hash], db.head.number)
    ensures Acceptable(db.blocks, x) && r == Written(db, x) && Inv(r) && IndexedTo(r, Max(top, x.number)) && r.head == x
    ensures r.blocks == db.blocks[x.hash := x] && r.tds == db.tds[x.hash := x.difficulty + db.tds[x.parent]]
    ensures forall i | i in db.canonical && i > x.number :: i in r.canonical && r.canonical[i] == db.canonical[i]
    ensures x.number in r.canonical && r.canonical[x.number] == x.hash
  {
    AcceptEmpty(db, x);
    r := Written(db, x);
    WrittenKeepsInv(db, x);
    WrittenIndexedTo(db, x, top);
  }

  lemma RunOne(db: Db, x: Block)
    requires Inv(db) && Acceptable(db.blocks, x) && Inv(Written(db, x))
    ensures AllAcceptable(db, [x]) && Run(db, [x]) == Written(db, x)
  {
    assert [x][1..] == [];
  }

  lemma RunTwo(db: Db, x: Block, y: Block)
    requires Inv(db) && Acceptable(db.blocks, x) && Inv(Written(db, x))
    requires Acceptable(Written(db, x).blocks, y) && Inv(Written(Written(db, x), y))
    ensures AllAcceptable(db, [x, y]) && Run(db, [x, y]) == Written(Written(db, x), y)
  {
    RunOne(Written(db, x), y);
    assert [x, y][1..] == [y];
  }

  /** The run of the two light blocks from the genesis block. */
  lemma LightBranch(g: Block, x: Block, y: Block) returns (db: Db)
    requires g == ROOT && x == LIGHT1 && y == LIGHT2
    ensures AllAcceptable(Genesis(g), [x, y]) && db == Run(Genesis(g), [x, y])
    ensures IndexedTo(db, 2) && db.head == y && db.canonical[2] == y.hash
    ensures db.blocks == map[1 := g, 2 := x, 3 := y] && db.tds == map[1 := 1, 2 := 2, 3 := 3]
  {
    var db1 := EmptyWins(Genesis(g), x, 0);
    db := EmptyWins(db1, y, 1);
    RunTwo(Genesis(g), x, y);
  }

  /** The heavy block wins over the higher branch; number 2 still names the abandoned one. */
  lemma HeavyStale(db: Db, x: Block) returns (r: Db)
    requires Inv(db) && IndexedTo(db, 2) && db.head == LIGHT2 && db.canonical[2] == LIGHT2.hash && x == HEAVY1
    requires db.blocks == map[1 := ROOT, 2 := LIGHT1, 3 := LIGHT2] && db.tds == map[1 := 1, 2 := 2, 3 := 3]
    ensures AllAcceptable(db, [x]) && r == Run(db, [x]) && r.head == x
    ensures IndexedTo(r, 2) && r.canonical[2] == LIGHT2.hash
    ensures r.blocks == db.blocks[4 := x] && r.tds == db.tds[4 := 6]
  {
    r := EmptyWins(db, x, 2);
    RunOne(db, x);
  }

  lemma HeavyChild(db: Db, x: Block) returns (r: Db)
    requires Inv(db) && IndexedTo(db, 2) && db.head == HEAVY1 && x == HEAVY2
    requires 4 in db.blocks && 5 !in db.blocks && db.blocks[4] == HEAVY1 && db.tds[4] == 6
    ensures AllAcceptable(db, [x]) && r == Run(db, [x]) && r.head == x && IndexedTo(r, 2)
  {
    r := EmptyWins(db, x, 2);
    RunOne(db, x);
  }

  /**
   A stale entry really occurs: from the state that LightBranch reaches, the heavy block leaves number 2 naming the
   abandoned branch; a child of the heavy block replaces the entry.
   */
  lemma StaleEntryExample(db: Db, x: Block, y: Block) returns (stale: Db, clean: Db)
    requires Inv(db) && IndexedTo(db, 2) && db.head == LIGHT2 && db.canonical[2] == LIGHT2.hash
    requires db.blocks == map[1 := ROOT, 2 := LIGHT1, 3 := LIGHT2] && db.tds == map[1 := 1, 2 := 2, 3 := 3]
    requires x == HEAVY1 && y == HEAVY2
    ensures Exact(db) && AllAcceptable(db, [x]) && stale == Run(db, [x])
    ensures !Exact(stale) && stale.head == x && IndexedTo(stale, 2) && stale.canonical[2] == LIGHT2.hash
    ensures AllAcceptable(stale, [y]) && clean == Run(stale, [y]) && Exact(clean)
  {
    stale := HeavyStale(db, x);
    clean := HeavyChild(stale, y);
    assert 2 in stale.canonical;
  }

  // ---------- The object ----------

  /** WriteTxLookupEntries. */
  method WriteTxLookupEntries(lookup: Lookup, b: Block) returns (r: Lookup)
    ensures r == lookup + Entries(b)
  {
    r := lookup;
    for i := 0 to |b.txs|
      invariant r == lookup + EntriesUpTo(b, i)
    {
      r := r[b.txs[i] := Entry(b.hash, b.number, i)];
    }
  }

  /** The transactions of `a` that are not in `b`, in order. */
  function Minus(a: seq<TxHash>, b: seq<TxHash>): seq<TxHash> {
    if a == [] then [] else Minus(a[..|a| - 1], b) + if a[|a| - 1] in b then [] else [a[|a| - 1]]
  }

  /** types.TxDifference. */
  method TxDifference(a: seq<TxHash>, b: seq<TxHash>) returns (keep: seq<TxHash>)
    ensures keep == Minus(a, b)
    ensures forall t :: t in keep <==> t in a && t !in b
  {
    keep := [];
    for i := 0 to |a|
      invariant keep == Minus(a[..i], b)
      invariant forall t :: t in keep <==> t in a[..i] && t !in b
    {
      assert a[..i + 1][..i] == a[..i];
      assert a[..i + 1] == a[..i] + [a[i]];
      if a[i] !in b { keep := keep + [a[i]]; }
    }
    assert a[..|a|] == a;
  }

  class Chain {
    const genesis: Hash
    var blocks: Blocks
    var tds: map<Hash, nat>
    var canonical: map<nat, Hash>
    var lookup: Lookup
    var head: Block

    ghost function Abs(): Db
      reads this
    {
      Db(genesis, blocks, tds, canonical, lookup, head)
    }

    constructor (g: Block)
      requires g.number == 0 && g.hash != NO_HASH
      ensures Inv(Abs()) && Exact(Abs()) && head == g
    {
      genesis := g.hash;
      blocks, tds, canonical := map[g.hash := g], map[g.hash := g.difficulty], map[0 := g.hash];
      lookup, head := Entries(g), g;
      new;
      assert Linked(blocks, g.hash);
    }

    /** insert: the block becomes the head; entries above it are left alone. */
    method Insert(b: Block)
      modifies this`canonical, this`head
      ensures canonical == old(canonical)[b.number := b.hash] && head == b
    {
      canonical := canonical[b.number := b.hash];
      head := b;
    }

    /** The loop of reorg that inserts the new segment, lowest block first. */
    method InsertSegment(newChain: seq<Block>, ghost all: Blocks, ghost x: Block, ghost n: nat)
      requires Stored(all, x) && n < x.number && newChain == PathDown(all, x, n)
      modifies this`canonical, this`lookup, this`head
      ensures head == x
      ensures lookup == old(lookup) + ScanAbove(all, x, n)
      ensures canonical == old(canonical) + Numbers(all, x, n, x.number)
    {
      var i := |newChain| - 1;
      ghost var m := n;  // the number reached so far
      ghost var lookup0, canonical0 := lookup, canonical;
      while i >= 0
        modifies this`canonical, this`lookup, this`head
        invariant -1 <= i < |newChain| && m == x.number - i - 1
        invariant m > n ==> head == Ancestor(all, x, m)
        invariant Inserted(lookup0, canonical0, all, x, n, m, lookup, canonical)
      {
        PathDownAt(all, x, n, i);
        ghost var next := m + 1;
        SegmentStep(all, x, n, m, next, lookup0, canonical0, lookup, canonical);
        Insert(newChain[i]);
        lookup := WriteTxLookupEntries(lookup, newChain[i]);
        i, m := i - 1, next;
      }
    }

    /** The deletions at the end of reorg. */
    method DeleteEntries(diff: seq<TxHash>)
      modifies this`lookup
      ensures lookup == map t | t in old(lookup) && t !in diff :: old(lookup)[t]
    {
      ghost var lookup0 := lookup;
      for i := 0 to |diff|
        modifies this`lookup
        invariant lookup == map t | t in lookup0 && t !in diff[..i] :: lookup0[t]
      {
        assert diff[..i + 1] == diff[..i] + [diff[i]];
        lookup := lookup - {diff[i]};
      }
      assert diff[..|diff|] == diff;
    }

    /** The second half of reorg: insert the new segment, then drop what only the old one had. */
    method Rewrite(oldChain: seq<Block>, newChain: seq<Block>, ghost all: Blocks, ghost x: Block, ghost n: nat)
      requires Stored(all, x) && n < x.number && newChain == PathDown(all, x, n)
      modifies this`canonical, this`lookup, this`head
      ensures head == x
      ensures lookup == Reindexed(old(lookup), ScanAbove(all, x, n), TxsOf(oldChain), TxsOf(newChain))
      ensures canonical == old(canonical) + Numbers(all, x, n, x.number)
    {
      InsertSegment(newChain, all, x, n);
      var diff := TxDifference(TxsOf(oldChain), TxsOf(newChain));
      DeleteEntries(diff);
    }

    /** reorg: switch from the current head to `x`, which is not in the database yet. */
    method Reorg(x: Block)
      requires Inv(Abs()) && Acceptable(blocks, x) && x.parent in blocks
      requires Better(x.difficulty + tds[x.parent], x.number, tds[head.hash], head.number)
      modifies this`canonical, this`lookup, this`head
      ensures head == x
      ensures var all := blocks[x.hash := x];
              && lookup == Scan(all, x)
              && canonical == old(canonical) + HeaderChain.CanonicalOf(all, x)
    {
      ghost var db0, all := Abs(), blocks[x.hash := x];
      StoredKeeps(db0, x);
      NeverDisjoint(all, genesis, head, x);
      var walk := ReorgWalk(blocks, head, x);
      assert walk != None;  // neither "Invalid old chain" nor "Invalid new chain" can be returned
      var (oldChain, newChain, common) := walk.value;
      NoImpossibleReorg(db0, x, common.number);
      Rewrite(oldChain, newChain, all, x, common.number);
      ReorgRepairs(db0, x, common.number);
    }

    /** The reorganisation in WriteBlockWithState: after it, only the winner's own entries are missing. */
    method ReorgUnlessChild(x: Block)
      requires Inv(Abs()) && Acceptable(blocks, x) && x.parent in blocks
      requires Better(x.difficulty + tds[x.parent], x.number, tds[head.hash], head.number)
      modifies this`canonical, this`lookup, this`head
      ensures var all := blocks[x.hash := x];
              && Stored(all, x)
              && lookup + Entries(x) == Scan(all, x)
              && canonical[x.number := x.hash] == old(canonical) + HeaderChain.CanonicalOf(all, x)
    {
      ghost var db0, all := Abs(), blocks[x.hash := x];
      StoredKeeps(db0, x);
      if x.parent != head.hash {
        Reorg(x);
        WritesAgain(all, db0.canonical, x);
      } else {
        SideKeeps(db0, x);
        assert Linked(blocks, head.hash);
        Extends(all, canonical, head, x);
      }
    }

    /**
     WriteBlockWithState, as far as chain indices are concerned; block and lookup entries are written in one batch.
     */
    method WriteBlockWithState(x: Block) returns (status: HeaderChain.Status)
      requires Inv(Abs()) && Acceptable(blocks, x)
      modifies this
      ensures Abs() == Written(old(Abs()), x) && Inv(Abs()) && status == StatusOf(old(Abs()), x)
      ensures Chooses(old(blocks), old(head), x, blocks, head, status)
    {
      ghost var db := Abs();
      status := WriteBlock(x);
      WrittenChooses(db, x);
    }

    method WriteBlock(x: Block) returns (status: HeaderChain.Status)
      requires Inv(Abs()) && Acceptable(blocks, x)
      modifies this
      ensures Abs() == Written(old(Abs()), x) && Inv(Abs()) && status == StatusOf(old(Abs()), x)
    {
      WrittenKeepsInv(Abs(), x);
      var ptd := HeaderChain.DbTd(blocks, tds, x.parent, x.number - 1);
      if ptd == None { return HeaderChain.NonStat; }
      var localTd := tds[head.hash];
      var externTd := x.difficulty + ptd.value;
      var reorg := externTd > localTd;
      if !reorg && externTd == localTd { reorg := x.number > head.number; }
      var batch := lookup;
      if reorg {
        ReorgUnlessChild(x);
        batch := WriteTxLookupEntries(lookup, x);
        status := HeaderChain.CanonStat;
      } else {
        status := HeaderChain.SideStat;
      }
      WriteBatch(x, externTd, batch, reorg);
    }

    /**
     The end of WriteBlockWithState: difficulty and block are
     written with the lookup entries; a winner becomes the head.
     */
    method WriteBatch(x: Block, externTd: nat, batch: Lookup, reorg: bool)
      modifies this
      ensures Abs() == Db(genesis, old(blocks)[x.hash := x], old(tds)[x.hash := externTd],
                          if reorg then old(canonical)[x.number := x.hash] else old(canonical), batch,
                          if reorg then x else old(head))
    {
      tds := tds[x.hash := externTd];
      blocks := blocks[x.hash := x];
      lookup := batch;
      if reorg { Insert(x); }
    }
  }

  /** With one genesis block, two branches always meet. */
  lemma NeverDisjoint(all: Blocks, genesis: Hash, a: Block, b: Block)
    requires Stored(all, a) && Stored(all, b) && HeaderChain.OneRoot(all, genesis)
    ensures !Disjoint(all, a, b)
  {
    assert Ancestor(all, a, 0).hash in all && Ancestor(all, b, 0).hash in all;
  }

  /**
   A winning block that does not extend the head leaves both segments non-empty: the "impossible reorg" cannot happen.
   */
  lemma NoImpossibleReorg(db: Db, x: Block, n: nat)
    requires Inv(db) && Acceptable(db.blocks, x) && x.parent in db.blocks
    requires Better(x.difficulty + db.tds[x.parent], x.number, db.tds[db.head.hash], db.head.number)
    requires Stored(db.blocks[x.hash := x], db.head) && MeetAt(db.blocks[x.hash := x], db.head, x, n)
    ensures n < x.number
    ensures x.parent != db.head.hash ==> n < db.head.number
  {
    var all := db.blocks[x.hash := x];
    if n == x.number {
      AncestorFrame(db.blocks, all, db.head, n);
      assert Linked(db.blocks, x.hash);
    }
    if n == db.head.number && x.parent != db.head.hash {
      var p := Parent(all, x);
      assert Ancestor(all, x, n) == db.head && Ancestor(all, p, n) == db.head;
      AncestorFrame(db.blocks, all, p, n);
      TdGrows(db.blocks, db.tds, p, n);
    }
  }

  lemma {:induction false} TdGrows(blocks: Blocks, tds: map<Hash, nat>, b: Block, n: nat)
    requires Stored(blocks, b) && HeaderChain.TdsOk(blocks, tds) && n <= b.number
    ensures tds[Ancestor(blocks, b, n).hash] <= tds[b.hash]
    decreases b.number
  {
    if n < b.number {
      assert Linked(blocks, b.hash);
      TdGrows(blocks, tds, Parent(blocks, b), n);
    }
  }

  lemma ReorgRepairsIndex(all: Blocks, canonical: map<nat, Hash>, head: Block, x: Block, n: nat)
    requires Stored(all, head) && Stored(all, x) && MeetAt(all, head, x, n) && CanonicalUpTo(all, canonical, head)
    ensures canonical + Numbers(all, x, n, x.number) == canonical + HeaderChain.CanonicalOf(all, x)
  {
    forall i: nat | i <= n ensures Ancestor(all, head, i) == Ancestor(all, x, i) {
      PathsMerge(all, head, x, n, i);
    }
  }

  /** What reorg leaves behind is the new chain's scan and path. */
  lemma ReorgRepairs(db: Db, x: Block, n: nat)
    requires Inv(db) && Acceptable(db.blocks, x) && x.parent in db.blocks
    requires Stored(db.blocks[x.hash := x], db.head) && MeetAt(db.blocks[x.hash := x], db.head, x, n)
    ensures var all := db.blocks[x.hash := x];
            && Reindexed(db.lookup, ScanAbove(all, x, n), TxsOf(PathDown(all, db.head, n)), TxsOf(PathDown(all, x, n)))
               == Scan(all, x)
            && db.canonical + Numbers(all, x, n, x.number) == db.canonical + HeaderChain.CanonicalOf(all, x)
  {
    var all := db.blocks[x.hash := x];
    StoredKeeps(db, x);
    SideKeeps(db, x);
    assert Linked(all, db.head.hash);
    ReindexedIsScan(all, db.head, x, n);
    ReorgRepairsIndex(all, db.canonical, db.head, x, n);
  }

  /** Writing the winning block's own entries once more changes nothing after a reorg. */
  lemma WritesAgain(all: Blocks, canonical: map<nat, Hash>, x: Block)
    requires Stored(all, x)
    ensures Scan(all, x) + Entries(x) == Scan(all, x)
    ensures (canonical + HeaderChain.CanonicalOf(all, x))[x.number := x.hash] ==
              canonical + HeaderChain.CanonicalOf(all, x)
  {
  }

  /** Writing a child of the head completes its scan and its path. */
  lemma Extends(all: Blocks, canonical: map<nat, Hash>, head: Block, x: Block)
    requires Stored(all, x) && Stored(all, head) && x.number > 0 && Parent(all, x) == head
    requires CanonicalUpTo(all, canonical, head)
    ensures Scan(all, head) + Entries(x) == Scan(all, x)
    ensures canonical[x.number := x.hash] == canonical + HeaderChain.CanonicalOf(all, x)
  {
  }

  /** The index entries of the path to `x` for the numbers above `n`, up to `m`. */
  function Numbers(all: Blocks, x: Block, n: nat, m: nat): map<nat, Hash>
    requires Stored(all, x) && m <= x.number
  {
    map i: nat | n < i <= m :: Ancestor(all, x, i).hash
  }

  lemma Overlay<K, V>(a: map<K, V>, b: map<K, V>, c: map<K, V>)
    ensures a + b + c == a + (b + c)
  {
  }

  lemma OverlayOne<K, V>(a: map<K, V>, b: map<K, V>, k: K, v: V)
    ensures (a + b)[k := v] == a + b[k := v]
  {
  }

  /** The segment of the path to `x` between `n` and `m` has been inserted. */
  ghost predicate Inserted(lookup0: Lookup, canonical0: map<nat, Hash>, all: Blocks, x: Block, n: nat, m: nat,
                           lookup: Lookup, canonical: map<nat, Hash>)
    requires Stored(all, x) && n <= m <= x.number
  {
    && lookup == lookup0 + ScanAbove(all, Ancestor(all, x, m), n)
    && canonical == canonical0 + Numbers(all, x, n, m)
  }

  /** Inserting the next block extends both overlays by that block. */
  lemma SegmentStep(all: Blocks, x: Block, n: nat, m: nat, next: nat, lookup0: Lookup, canonical0: map<nat, Hash>,
                    lookup: Lookup, canonical: map<nat, Hash>)
    requires Stored(all, x) && n <= m < x.number && next == m + 1
             && Inserted(lookup0, canonical0, all, x, n, m, lookup, canonical)
    ensures var b := Ancestor(all, x, next);
            Inserted(lookup0, canonical0, all, x, n, next, lookup + Entries(b), canonical[b.number := b.hash])
  {
    var b := Ancestor(all, x, next);
    StepDown(all, x, b);
    Overlay(lookup0, ScanAbove(all, Ancestor(all, x, m), n), Entries(b));
    OverlayOne(canonical0, Numbers(all, x, n, m), b.number, b.hash);
    NumbersNext(all, x, n, m, next, b);
  }

  lemma NumbersNext(all: Blocks, x: Block, n: nat, m: nat, next: nat, b: Block)
    requires Stored(all, x) && n <= m < x.number && next == m + 1 && b == Ancestor(all, x, next)
    ensures Numbers(all, x, n, next) == Numbers(all, x, n, m)[b.number := b.hash]
  {
  }
}
