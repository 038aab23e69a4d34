/**
 The canonical header chain (core/headerchain.go): headers, total difficulties, the number-to-hash
 index that WriteHeader repairs step by step, and the caches in front of the database.
 */
module HeaderChain {
  import opened Basics
  import opened ChainStore

  /** What the database and the current-header fields hold. */
  datatype Db = Db(genesis: Hash, headers: Blocks, tds: map<Hash, nat>, canonical: map<nat, Hash>, head: Block)

  /** The number-to-hash index of the path from `head` to its root. */
  function CanonicalOf(headers: Blocks, head: Block): map<nat, Hash>
    requires Stored(headers, head)
  {
    map i: nat | i <= head.number :: Ancestor(headers, head, i).hash
  }

  /** All blocks descend from one genesis block. */
  ghost predicate OneRoot(headers: Blocks, genesis: Hash) {
    forall h | h in headers && headers[h].number == 0 :: h == genesis
  }

  ghost predicate Inv(db: Db) {
    && Stored(db.headers, db.head)
    && OneRoot(db.headers, db.genesis)
    && TdsOk(db.headers, db.tds)
    && db.canonical == CanonicalOf(db.headers, db.head)
    && (forall h | h in db.headers :: db.tds[h] <= db.tds[db.head.hash])
  }

  /** A total difficulty is the parent's plus the header's own. */
  predicate TdOk(headers: Blocks, tds: map<Hash, nat>, h: Hash)
    requires h in headers && Linked(headers, h) && tds.Keys == headers.Keys
  {
    var b := headers[h];
    tds[h] == b.difficulty + (if b.number == 0 then 0 else tds[b.parent])
  }

  ghost predicate TdsOk(headers: Blocks, tds: map<Hash, nat>)
    requires ParentClosed(headers)
  {
    tds.Keys == headers.Keys &&
    forall h {:trigger Linked(headers, h)} | h in headers :: Linked(headers, h) && TdOk(headers, tds, h)
  }

  /**
   What callers of WriteHeader have checked: the hash identifies the header, and if the parent is known
   the number is the next one. An unknown parent is the error WriteHeader itself reports.
   */
  ghost predicate Acceptable(headers: Blocks, x: Block) {
    && x.hash != NO_HASH
    && (x.hash in headers ==> headers[x.hash] == x)
    && (x.parent in headers ==> x.number == headers[x.parent].number + 1)
  }

  ghost function Genesis(g: Block): (db: Db)
    requires g.number == 0 && g.hash != NO_HASH
    ensures Inv(db)
  {
    var db := Db(g.hash, map[g.hash := g], map[g.hash := g.difficulty], map[0 := g.hash], g);
    assert Linked(db.headers, g.hash);
    assert ParentClosed(db.headers);
    assert CanonicalOf(db.headers, g) == map[0 := g.hash];
    db
  }

  datatype Status = NonStat | CanonStat | SideStat

  /** The fork choice of WriteHeader; `coin` is the random bit that decides ties. */
  predicate Wins(externTd: nat, localTd: nat, coin: bool) {
    externTd > localTd || (externTd == localTd && coin)
  }

  /** The header and its total difficulty are stored in any case. */
  function WithHeader(db: Db, x: Block): Db
    requires x.parent in db.tds
  {
    db.(headers := db.headers[x.hash := x], tds := db.tds[x.hash := x.difficulty + db.tds[x.parent]])
  }

  /**
   The effect WriteHeader is to have: the heavier chain becomes the canonical one, from its root up.
   The head stays a header of maximal total difficulty.
   */
  ghost function Written(db: Db, x: Block, coin: bool): (r: Db)
    requires Inv(db) && Acceptable(db.headers, x)
    ensures Inv(r)
  {
    if x.parent !in db.headers then db
    else
      var db' := WithHeader(db, x);
      StoreExtends(db, x);
      if Wins(db'.tds[x.hash], db.tds[db.head.hash], coin) then
        db'.(head := x, canonical := CanonicalOf(db'.headers, x))
      else
        CanonicalFrame(db.headers, db'.headers, db.head);
        db'
  }

  /** Storing an acceptable header keeps paths and total difficulties, also when the header was known. */
  lemma StoreExtends(db: Db, x: Block)
    requires ParentClosed(db.headers) && TdsOk(db.headers, db.tds)
    requires Acceptable(db.headers, x) && x.parent in db.headers
    ensures var db' := WithHeader(db, x);
            && Stored(db'.headers, x) && (OneRoot(db.headers, db.genesis) ==> OneRoot(db'.headers, db.genesis))
            && (forall h | h in db.headers ::
                  h in db'.headers && db'.headers[h] == db.headers[h] && db'.tds[h] == db.tds[h])
            && TdsOk(db'.headers, db'.tds)
  {
    ClosedExtends(db.headers, x);
    TdsExtend(db.headers, db.tds, x);
  }

  lemma ClosedExtends(headers: Blocks, x: Block)
    requires ParentClosed(headers) && Acceptable(headers, x) && x.parent in headers
    ensures Stored(headers[x.hash := x], x)
  {
    var headers' := headers[x.hash := x];
    assert Linked(headers, x.parent);
    forall h | h in headers' ensures Linked(headers', h) {
      if h in headers { assert Linked(headers, h); }
    }
  }

  lemma TdsExtend(headers: Blocks, tds: map<Hash, nat>, x: Block)
    requires ParentClosed(headers) && TdsOk(headers, tds) && Acceptable(headers, x) && x.parent in headers
    requires ParentClosed(headers[x.hash := x])
    ensures var tds' := tds[x.hash := x.difficulty + tds[x.parent]];
            TdsOk(headers[x.hash := x], tds') && forall h | h in tds :: tds'[h] == tds[h]
  {
    var headers' := headers[x.hash := x];
    var tds' := tds[x.hash := x.difficulty + tds[x.parent]];
    if x.hash in headers {
      assert Linked(headers, x.hash) && TdOk(headers, tds, x.hash);
      assert tds' == tds && headers' == headers;
    } else {
      forall h | h in headers' ensures Linked(headers', h) && TdOk(headers', tds', h) {
        assert Linked(headers', h);
        if h in headers { assert Linked(headers, h); }
      }
    }
  }

  lemma CanonicalFrame(headers: Blocks, headers': Blocks, b: Block)
    requires Stored(headers, b) && ParentClosed(headers')
    requires forall h | h in headers :: h in headers' && headers'[h] == headers[h]
    ensures Stored(headers', b) && CanonicalOf(headers', b) == CanonicalOf(headers, b)
  {
    forall i: nat | i <= b.number
      ensures Stored(headers', b) && Ancestor(headers', b, i) == Ancestor(headers, b, i)
    {
      AncestorFrame(headers, headers', b, i);
    }
  }

  // ---------- Runs ----------

  datatype Input = Input(header: Block, coin: bool)

  /** Each written header is acceptable at the time it is written. */
  ghost predicate AllAcceptable(db: Db, inputs: seq<Input>)
    requires Inv(db)
    decreases |inputs|
  {
    inputs == [] ||
    (Acceptable(db.headers, inputs[0].header) &&
     AllAcceptable(Written(db, inputs[0].header, inputs[0].coin), inputs[1..]))
  }

  ghost function Run(db: Db, inputs: seq<Input>): (r: Db)
    requires Inv(db) && AllAcceptable(db, inputs)
    ensures Inv(r)
    decreases |inputs|
  {
    if inputs == [] then db
    else Run(Written(db, inputs[0].header, inputs[0].coin), inputs[1..])
  }

  /** The sum of difficulties from `b` down to its root. */
  function PathDifficulty(headers: Blocks, b: Block): nat
    requires Stored(headers, b)
    decreases b.number
  {
    b.difficulty + (if b.number == 0 then 0 else PathDifficulty(headers, Parent(headers, b)))
  }

  lemma {:induction false} TdIsPathDifficulty(db: Db, b: Block)
    requires Inv(db) && Stored(db.headers, b)
    ensures db.tds[b.hash] == PathDifficulty(db.headers, b)
    decreases b.number
  {
    assert Linked(db.headers, b.hash);
    if b.number > 0 { TdIsPathDifficulty(db, Parent(db.headers, b)); }
  }

  /**
   Over every run of WriteHeader from genesis, with every outcome of the coin: the canonical index is
   defined on exactly 0..head and is the path of the current header, and no stored header has a path
   of larger total difficulty than the current one.
   */
  lemma RunFromGenesis(g: Block, inputs: seq<Input>, b: Block)
    requires g.number == 0 && g.hash != NO_HASH && AllAcceptable(Genesis(g), inputs)
    requires Stored(Run(Genesis(g), inputs).headers, b)
    ensures var db := Run(Genesis(g), inputs);
            && Stored(db.headers, db.head)
            && (forall i: nat :: i in db.canonical <==> i <= db.head.number)
            && (forall i: nat | i <= db.head.number :: db.canonical[i] == Ancestor(db.headers, db.head, i).hash)
            && db.canonical[0] == g.hash
            && db.tds[b.hash] == PathDifficulty(db.headers, b)
            && PathDifficulty(db.headers, b) <= PathDifficulty(db.headers, db.head)
  {
    var db := Run(Genesis(g), inputs);
    TdIsPathDifficulty(db, b);
    TdIsPathDifficulty(db, db.head);
    NothingLost(Genesis(g), inputs, g.hash);
    GenesisKept(Genesis(g), inputs);
    assert Ancestor(db.headers, db.head, 0).hash in db.headers;
  }

  // ---------- What a run stores, and which header it ends at ----------

  function HeadersOf(inputs: seq<Input>): seq<Block> {
    seq(|inputs|, i requires 0 <= i < |inputs| => inputs[i].header)
  }

  function CoinsOf(inputs: seq<Input>): seq<bool> {
    seq(|inputs|, i requires 0 <= i < |inputs| => inputs[i].coin)
  }

  /** Whatever the coin and the fork choice, the header is stored if its parent is. */
  lemma WrittenStores(db: Db, x: Block, coin: bool)
    requires Inv(db) && Acceptable(db.headers, x)
    ensures StoresBlock(db.headers, x, Written(db, x, coin).headers)
  {
  }

  lemma {:induction false} RunLast(db: Db, inputs: seq<Input>, n: nat)
    requires Inv(db) && AllAcceptable(db, inputs) && |inputs| == n + 1
    ensures AllAcceptable(db, inputs[..n]) && Acceptable(Run(db, inputs[..n]).headers, inputs[n].header)
    ensures Run(db, inputs) == Written(Run(db, inputs[..n]), inputs[n].header, inputs[n].coin)
    decreases n
  {
    if n > 0 {
      RunLast(Written(db, inputs[0].header, inputs[0].coin), inputs[1..], n - 1);
      assert inputs[1..][..n - 1] == inputs[..n][1..] && inputs[1..][n - 1] == inputs[n] && inputs[..n][0] == inputs[0];
    } else {
      assert inputs[1..] == [] && inputs[..0] == [];
    }
  }

  lemma {:induction false} RunStores(g: Block, inputs: seq<Input>)
    requires g.number == 0 && g.hash != NO_HASH && AllAcceptable(Genesis(g), inputs)
    ensures StoresAccepted(Run(Genesis(g), inputs).headers, [g] + HeadersOf(inputs))
    decreases |inputs|
  {
    if inputs == [] {
      FirstStored(g);
    } else {
      var n := |inputs| - 1;
      RunLast(Genesis(g), inputs, n);
      RunStores(g, inputs[..n]);
      OneMoreStored(g, inputs, n, Run(Genesis(g), inputs[..n]));
    }
  }

  lemma OneMoreStored(g: Block, inputs: seq<Input>, n: nat, db: Db)
    requires |inputs| == n + 1 && Inv(db) && Acceptable(db.headers, inputs[n].header)
    requires StoresAccepted(db.headers, [g] + HeadersOf(inputs[..n]))
    ensures StoresAccepted(Written(db, inputs[n].header, inputs[n].coin).headers, [g] + HeadersOf(inputs))
  {
    var ys := [g] + HeadersOf(inputs);
    assert ys[..n + 1] == [g] + HeadersOf(inputs[..n]) && ys[n + 1] == inputs[n].header;
    WrittenStores(db, inputs[n].header, inputs[n].coin);
    StoresNext(db.headers, Written(db, inputs[n].header, inputs[n].coin).headers, ys, n + 1);
  }

  /** A header replaces another if it is heavier, or as heavy and its own coin says so. */
  function Outweighs(): (Bid, Bid) -> bool {
    (a: Bid, b: Bid) => a.weight > b.weight || (a.weight == b.weight && a.coin)
  }

  /** What a write does to the difficulties and the head. */
  ghost predicate HeadMoves(known: bool, coin: bool, tds: map<Hash, nat>, head: Block, x: Block, tds': map<Hash, nat>,
                            head': Block)
    requires head.hash in tds
  {
    && (forall h | h in tds :: h in tds' && tds'[h] == tds[h])
    && (known ==> x.hash in tds')
    && head' == if known && (tds'[x.hash] > tds[head.hash] || (tds'[x.hash] == tds[head.hash] && coin)) then x else head
  }

  lemma WrittenMoves(db: Db, x: Block, coin: bool)
    requires Inv(db) && Acceptable(db.headers, x)
    ensures var r := Written(db, x, coin);
            HeadMoves(x.parent in db.headers, coin, db.tds, db.head, x, r.tds, r.head)
  {
    if x.parent in db.headers { StoreExtends(db, x); }
  }

  lemma LeaderMoves(tds: map<Hash, nat>, tds': map<Hash, nat>, ys: seq<Block>, coins: seq<bool>, n: nat, k: nat,
                    head': Block)
    returns (k': nat)
    requires |ys| == |coins| == n + 1 && k < n && ys[k].hash in tds
    requires Leads(Bids(ys[..n], tds, coins[..n]), Outweighs(), k)
    requires forall i | 0 <= i < n && Accepted(ys, i) :: ys[i].hash in tds
    requires HeadMoves(Accepted(ys, n), coins[n], tds, ys[k], ys[n], tds', head')
    ensures k' < |ys| && Leads(Bids(ys, tds', coins), Outweighs(), k') && ys[k'] == head'
  {
    var bids, bid := Bids(ys[..n], tds, coins[..n]), BidOf(ys, tds', coins, n);
    BidsNext(ys, tds, tds', coins, n);
    LeadsNext(bids, bid, Outweighs(), k);
    k' := if bid.ok && Outweighs()(bid, bids[k]) then n else k;
  }

  /** The coin of the genesis header plays no part. */
  function AllCoins(inputs: seq<Input>): seq<bool> { [false] + CoinsOf(inputs) }

  lemma {:induction false} RunLeads(g: Block, inputs: seq<Input>) returns (k: nat)
    requires g.number == 0 && g.hash != NO_HASH && AllAcceptable(Genesis(g), inputs)
    ensures var ys, db := [g] + HeadersOf(inputs), Run(Genesis(g), inputs);
            k < |ys| && Leads(Bids(ys, db.tds, AllCoins(inputs)), Outweighs(), k) && ys[k] == db.head
    decreases |inputs|
  {
    if inputs == [] {
      k := 0;
    } else {
      var n := |inputs| - 1;
      RunLast(Genesis(g), inputs, n);
      k := RunLeads(g, inputs[..n]);
      RunStores(g, inputs[..n]);
      var before, after := Run(Genesis(g), inputs[..n]), Run(Genesis(g), inputs);
      WrittenMoves(before, inputs[n].header, inputs[n].coin);
      PrefixOf(g, inputs, n);
      assert ([g] + HeadersOf(inputs))[..n + 1][k] == before.head;
      k := OneMoreLeads(g, inputs, n, before.headers, before.tds, after.tds, k, after.head);
    }
  }

  lemma OneMoreLeads(g: Block, inputs: seq<Input>, n: nat, headers: Blocks, tds: map<Hash, nat>, tds': map<Hash, nat>,
                     k: nat, head': Block)
    returns (k': nat)
    requires |inputs| == n + 1 && k <= n && tds.Keys == headers.Keys && ([g] + HeadersOf(inputs))[k].hash in tds
    requires StoresAccepted(headers, [g] + HeadersOf(inputs[..n]))
    requires Leads(Bids([g] + HeadersOf(inputs[..n]), tds, AllCoins(inputs[..n])), Outweighs(), k)
    requires HeadMoves(inputs[n].header.parent in headers, inputs[n].coin, tds, ([g] + HeadersOf(inputs))[k],
                       inputs[n].header, tds', head')
    ensures var ys := [g] + HeadersOf(inputs);
            k' < |ys| && Leads(Bids(ys, tds', AllCoins(inputs)), Outweighs(), k') && ys[k'] == head'
  {
    var ys, coins := [g] + HeadersOf(inputs), AllCoins(inputs);
    PrefixOf(g, inputs, n);
    AllInTds(headers, tds, ys, n + 1);
    assert Accepted(ys, n + 1) <==> inputs[n].header.parent in headers;
    k' := LeaderMoves(tds, tds', ys, coins, n + 1, k, head');
  }

  lemma PrefixOf(g: Block, inputs: seq<Input>, n: nat)
    requires |inputs| == n + 1
    ensures ([g] + HeadersOf(inputs))[..n + 1] == [g] + HeadersOf(inputs[..n])
    ensures ([g] + HeadersOf(inputs))[n + 1] == inputs[n].header
    ensures AllCoins(inputs)[..n + 1] == AllCoins(inputs[..n]) && AllCoins(inputs)[n + 1] == inputs[n].coin
  {
  }

  lemma LeaderMeans(ys: seq<Block>, tds: map<Hash, nat>, coins: seq<bool>, k: nat)
    requires |ys| == |coins| && k < |ys| && Leads(Bids(ys, tds, coins), Outweighs(), k)
    requires forall i | 0 <= i < |ys| && Accepted(ys, i) :: ys[i].hash in tds
    ensures Accepted(ys, k)
    ensures forall i | 0 <= i < k && Accepted(ys, i) ::
              tds[ys[i].hash] < tds[ys[k].hash] || (tds[ys[i].hash] == tds[ys[k].hash] && coins[k])
    ensures forall i | k < i < |ys| && Accepted(ys, i) ::
              tds[ys[i].hash] < tds[ys[k].hash] || (tds[ys[i].hash] == tds[ys[k].hash] && !coins[i])
  {
    var bids := Bids(ys, tds, coins);
    assert bids[k] == BidOf(ys, tds, coins, k);
    forall i | 0 <= i < |ys| && Accepted(ys, i)
      ensures i < k ==> Outweighs()(bids[k], bids[i])
      ensures i > k ==> !Outweighs()(bids[i], bids[k])
      ensures bids[i] == Bid(true, tds[ys[i].hash], ys[i].number, coins[i])
    {
      assert bids[i] == BidOf(ys, tds, coins, i);
    }
  }

  /** The k-th header is stored, and heavier than every other that is, but for the coins. */
  ghost predicate Chosen(headers: Blocks, ys: seq<Block>, coins: seq<bool>, k: nat)
    requires |ys| == |coins|
  {
    && headers.Keys == Connected(ys)
    && (forall i | 0 <= i < |ys| && Accepted(ys, i) :: Stored(headers, ys[i]))
    && k < |ys| && Accepted(ys, k)
    && (forall i | 0 <= i < k && Accepted(ys, i) ::
          var d, d' := PathDifficulty(headers, ys[i]), PathDifficulty(headers, ys[k]);
          d < d' || (d == d' && coins[k]))
    && (forall i | k < i < |ys| && Accepted(ys, i) ::
          var d, d' := PathDifficulty(headers, ys[i]), PathDifficulty(headers, ys[k]);
          d < d' || (d == d' && !coins[i]))
  }

  lemma LeaderIsChosen(headers: Blocks, tds: map<Hash, nat>, ys: seq<Block>, coins: seq<bool>, k: nat)
    requires |ys| == |coins| && k < |ys| && Leads(Bids(ys, tds, coins), Outweighs(), k)
    requires ParentClosed(headers) && StoresAccepted(headers, ys)
    requires forall i | 0 <= i < |ys| && Accepted(ys, i) ::
               ys[i].hash in tds && tds[ys[i].hash] == PathDifficulty(headers, ys[i])
    ensures Chosen(headers, ys, coins, k)
  {
    LeaderMeans(ys, tds, coins, k);
  }

  /**
   Over every run from genesis, in terms of the headers in the order they are written: exactly those whose parents are
   known when they come are stored, and the head is the one that is as heavy as all, heavier than the earlier ones
   unless its own coin decided, and heavier than the later ones unless theirs decided against them.
   */
  lemma HeadIsChosen(g: Block, inputs: seq<Input>) returns (k: nat)
    requires g.number == 0 && g.hash != NO_HASH && AllAcceptable(Genesis(g), inputs)
    ensures Chosen(Run(Genesis(g), inputs).headers, [g] + HeadersOf(inputs), AllCoins(inputs), k)
    ensures ([g] + HeadersOf(inputs))[k] == Run(Genesis(g), inputs).head
  {
    var ys, db := [g] + HeadersOf(inputs), Run(Genesis(g), inputs);
    RunStores(g, inputs);
    k := RunLeads(g, inputs);
    forall i | 0 <= i < |ys| && Accepted(ys, i)
      ensures ys[i].hash in db.tds && db.tds[ys[i].hash] == PathDifficulty(db.headers, ys[i])
    {
      TdIsPathDifficulty(db, ys[i]);
    }
    LeaderIsChosen(db.headers, db.tds, ys, AllCoins(inputs), k);
  }

  lemma {:induction false} GenesisKept(db: Db, inputs: seq<Input>)
    requires Inv(db) && AllAcceptable(db, inputs)
    ensures Run(db, inputs).genesis == db.genesis
    decreases |inputs|
  {
    if inputs != [] { GenesisKept(Written(db, inputs[0].header, inputs[0].coin), inputs[1..]); }
  }

  /** Stored headers are never removed or changed. */
  lemma {:induction false} NothingLost(db: Db, inputs: seq<Input>, h: Hash)
    requires Inv(db) && AllAcceptable(db, inputs) && h in db.headers
    ensures h in Run(db, inputs).headers && Run(db, inputs).headers[h] == db.headers[h]
    decreases |inputs|
  {
    if inputs != [] { NothingLost(Written(db, inputs[0].header, inputs[0].coin), inputs[1..], h); }
  }

  // ---------- The caches ----------

  /** GetTd of the database: the key holds hash and number. */
  function DbTd(headers: Blocks, tds: map<Hash, nat>, hash: Hash, number: int): Option<nat>
    requires tds.Keys == headers.Keys
  {
    if hash in headers && headers[hash].number == number then Some(tds[hash]) else None
  }

  /** HeaderChain.GetTd: the cache is keyed by the hash alone. */
  function CachedTd(headers: Blocks, tds: map<Hash, nat>, cache: map<Hash, nat>, hash: Hash, number: int): Option<nat>
    requires tds.Keys == headers.Keys
  {
    if hash in cache then Some(cache[hash]) else DbTd(headers, tds, hash, number)
  }

  /** The cache holds some of the stored entries; which ones is up to its eviction. */
  ghost predicate CacheOf<T>(cache: map<Hash, T>, stored: map<Hash, T>) {
    forall h | h in cache :: h in stored && stored[h] == cache[h]
  }

  /**
   The cache answers like the database exactly when the hash is not cached or the number is right.
   With a wrong number a cached header is found although the database would report it missing.
   */
  lemma CacheTransparentIff(headers: Blocks, tds: map<Hash, nat>, cache: map<Hash, nat>, hash: Hash, number: int)
    requires tds.Keys == headers.Keys && CacheOf(cache, tds)
    ensures CachedTd(headers, tds, cache, hash, number) == DbTd(headers, tds, hash, number)
       <==> (hash !in cache || headers[hash].number == number)
  {
  }

  /** lru.Cache.Add: the entry is in, any others may have been evicted. */
  method CacheAdd<T>(cache: map<Hash, T>, h: Hash, v: T, ghost stored: map<Hash, T>) returns (r: map<Hash, T>)
    requires CacheOf(cache, stored) && h in stored && stored[h] == v
    ensures CacheOf(r, stored) && h in r
  {
    var kept: set<Hash> := *;
    r := (map x | x in cache && x in kept :: cache[x])[h := v];
  }

  // ---------- The object ----------

  class Chain {
    const genesis: Hash
    var headers: Blocks
    var tds: map<Hash, nat>
    var canonical: map<nat, Hash>
    var head: Block
    var headerCache: Blocks
    var tdCache: map<Hash, nat>

    constructor (g: Block)
      requires g.number == 0 && g.hash != NO_HASH
      ensures Valid() && Abs() == Genesis(g) && headerCache == map[] && tdCache == map[]
    {
      ghost var db := Genesis(g);
      genesis := g.hash;
      headers, tds, canonical, head := map[g.hash := g], map[g.hash := g.difficulty], map[0 := g.hash], g;
      headerCache, tdCache := map[], map[];
    }

    ghost function Abs(): Db
      reads this
    {
      Db(genesis, headers, tds, canonical, head)
    }

    ghost predicate Valid()
      reads this
    {
      Inv(Abs()) && CacheOf(headerCache, headers) && CacheOf(tdCache, tds)
    }

    /** GetCanonicalHash: the zero hash stands for a missing entry. */
    function GetCanonicalHash(i: nat): Hash
      reads this
    {
      if i in canonical then canonical[i] else NO_HASH
    }

    method GetTd(hash: Hash, number: int) returns (td: Option<nat>)
      requires tds.Keys == headers.Keys && CacheOf(tdCache, tds)
      modifies this`tdCache
      ensures CacheOf(tdCache, tds)
      ensures td == CachedTd(headers, tds, old(tdCache), hash, number) && (td.Some? ==> hash in tdCache)
    {
      if hash in tdCache { return Some(tdCache[hash]); }
      td := DbTd(headers, tds, hash, number);
      if td == None { return; }
      tdCache := CacheAdd(tdCache, hash, td.value, tds);
    }

    /** GetHeader: like GetTd, a cached header is found with any number. */
    method GetHeader(hash: Hash, number: int) returns (x: Option<Block>)
      requires CacheOf(headerCache, headers)
      modifies this`headerCache
      ensures CacheOf(headerCache, headers)
      ensures x == if hash in headers && (headers[hash].number == number || hash in old(headerCache))
              then Some(headers[hash]) else None
      ensures x.Some? ==> hash in headerCache
    {
      if hash in headerCache { return Some(headerCache[hash]); }
      x := Get(headers, hash, number);
      if x == None { return; }
      headerCache := CacheAdd(headerCache, hash, x.value, headers);
    }

    /**
     WriteHeader. The two repair loops touch only the entries above the new head and those down to the
     first shared one; the result is nevertheless the whole path of the new head.
     */
    method WriteHeader(x: Block, coin: bool) returns (status: Status)
      requires Valid() && Acceptable(headers, x)
      modifies this
      ensures Valid() && Abs() == Written(old(Abs()), x, coin)
      ensures status == if x.parent !in old(headers) then NonStat
                        else if Wins(tds[x.hash], old(tds[head.hash]), coin) then CanonStat else SideStat
    {
      ghost var db0 := Abs();
      var ptd := GetTd(x.parent, x.number - 1);
      if ptd == None { return NonStat; }
      var localTd := GetTd(head.hash, head.number);
      var externTd := x.difficulty + ptd.value;
      StoreHeader(x, externTd);
      if Wins(externTd, localTd.value, coin) {
        Promote(x);
        status := CanonStat;
      } else {
        status := SideStat;
      }
      headerCache := CacheAdd(headerCache, x.hash, x, headers);
      assert Abs() == Written(db0, x, coin);
    }

    /** The part of WriteHeader that happens whatever the fork choice: store difficulty and header. */
    method StoreHeader(x: Block, externTd: nat)
      requires Valid() && Acceptable(headers, x) && x.parent in headers && externTd == x.difficulty + tds[x.parent]
      modifies this`headers, this`tds, this`tdCache
      ensures Abs() == WithHeader(old(Abs()), x)
      ensures CacheOf(headerCache, headers) && CacheOf(tdCache, tds)
      ensures Stored(headers, x) && Stored(headers, head) && OneRoot(headers, genesis)
      ensures canonical == CanonicalOf(headers, head)
    {
      StoreExtends(Abs(), x);
      CanonicalFrame(headers, headers[x.hash := x], head);
      tds := tds[x.hash := externTd];
      headers := headers[x.hash := x];
      tdCache := CacheAdd(tdCache, x.hash, externTd, tds);
    }

    /** The canonical part of WriteHeader: delete above, overwrite down to the shared part, then extend. */
    method Promote(x: Block)
      requires Stored(headers, x) && Stored(headers, head) && OneRoot(headers, genesis) && x.number > 0
      requires CacheOf(headerCache, headers) && canonical == CanonicalOf(headers, head)
      modifies this`canonical, this`headerCache, this`head
      ensures CacheOf(headerCache, headers) && canonical == CanonicalOf(headers, x) && head == x
    {
      DeleteAbove(x.number);
      Overwrite(x);
      canonical := canonical[x.number := x.hash];
      PathComplete(headers, x, canonical);
      head := x;
    }

    /** The first repair loop of WriteHeader: delete the canonical numbers above the new head. */
    method DeleteAbove(n: nat)
      requires Stored(headers, head) && canonical == CanonicalOf(headers, head)
      modifies this`canonical
      ensures canonical == Below(CanonicalOf(headers, head), n)
    {
      ghost var full := canonical;
      assert forall j: nat | j in full :: full[j] != NO_HASH by { CanonicalNonZero(headers, head); }
      var i := n + 1;
      while GetCanonicalHash(i) != NO_HASH
        modifies this`canonical
        invariant i > n && canonical == map j: nat | j in full && (j <= n || i <= j) :: full[j]
        invariant i > n + 1 ==> i - 1 in full
        decreases head.number + 1 + n + 1 - i
      {
        canonical := canonical - {i};
        i := i + 1;
      }
    }

    /** The second repair loop of WriteHeader: overwrite entries from the parent down to the first shared one. */
    method Overwrite(x: Block)
      requires Stored(headers, x) && Stored(headers, head) && OneRoot(headers, genesis) && x.number > 0
      requires CacheOf(headerCache, headers)
      requires canonical == Below(CanonicalOf(headers, head), x.number)
      modifies this`canonical, this`headerCache
      ensures CacheOf(headerCache, headers)
      ensures forall j: nat | j < x.number :: j in canonical && canonical[j] == Ancestor(headers, x, j).hash
      ensures forall j: nat | j in canonical :: j <= x.number
    {
      var headNumber: nat := x.number - 1;
      ghost var hs, hd := headers, head;
      var headHeader := GetParent(x);
      while GetCanonicalHash(headNumber) != headHeader.hash
        modifies this`canonical, this`headerCache
        invariant CacheOf(headerCache, hs)
        invariant headNumber < x.number && headHeader == Ancestor(hs, x, headNumber)
        invariant Overwriting(hs, hd, x, canonical, headNumber)
        decreases headNumber
      {
        headHeader, headNumber := OverwriteNext(x, headHeader, headNumber);
      }
      assert Linked(hs, headHeader.hash);
      Shared(hs, hd, x, canonical, headNumber);
    }

    /** The body of the loop that overwrites stale entries. */
    method OverwriteNext(x: Block, headHeader: Block, headNumber: nat) returns (headHeader': Block, headNumber': nat)
      requires Stored(headers, x) && Stored(headers, head) && OneRoot(headers, genesis) && CacheOf(headerCache, headers)
      requires headNumber < x.number && headHeader == Ancestor(headers, x, headNumber)
               && GetCanonicalHash(headNumber) != headHeader.hash
      requires Overwriting(headers, head, x, canonical, headNumber)
      modifies this`canonical, this`headerCache
      ensures CacheOf(headerCache, headers) && headNumber == headNumber' + 1
              && headHeader' == Ancestor(headers, x, headNumber')
      ensures Overwriting(headers, head, x, canonical, headNumber')
    {
      ghost var next := OverwriteOne(headers, genesis, head, x, canonical, headNumber);
      canonical := canonical[headNumber := headHeader.hash];
      headHeader' := GetParent(headHeader);
      headNumber' := headNumber - 1;
    }

    /** GetHeader with a header's parent hash and the number below its own. */
    method GetParent(b: Block) returns (p: Block)
      requires Stored(headers, b) && b.number > 0 && CacheOf(headerCache, headers)
      modifies this`headerCache
      ensures CacheOf(headerCache, headers) && p == Parent(headers, b)
    {
      ghost var expected := Parent(headers, b);
      var header := GetHeader(b.parent, b.number - 1);
      p := header.value;
    }
  }

  /**
   A lookup that depends on what was asked before: on a new chain, the genesis header's difficulty is found with any
   number once it has been asked for with the right one; the database has it for the right one only.
   */
  method WrongNumberLookup(g: Block, number: nat) returns (first: Option<nat>, right: Option<nat>, second: Option<nat>)
    requires g.number == 0 && g.hash != NO_HASH && number > 0
    ensures first == None && right == second == Some(g.difficulty)
  {
    var chain := new Chain(g);
    first := chain.GetTd(g.hash, number);
    right := chain.GetTd(g.hash, 0);
    second := chain.GetTd(g.hash, number);
  }

  function Below(canonical: map<nat, Hash>, n: nat): map<nat, Hash> {
    map j: nat | j in canonical && j <= n :: canonical[j]
  }

  lemma CanonicalNonZero(headers: Blocks, head: Block)
    requires Stored(headers, head)
    ensures forall j: nat | j <= head.number :: CanonicalOf(headers, head)[j] != NO_HASH
  {
    forall j: nat | j <= head.number ensures Ancestor(headers, head, j).hash != NO_HASH {
      assert Linked(headers, Ancestor(headers, head, j).hash);
    }
  }

  /** Entries above `n` already follow `x`, the others still follow the old head, as far as it reached. */
  ghost predicate Overwriting(headers: Blocks, head: Block, x: Block, canonical: map<nat, Hash>, n: nat)
    requires Stored(headers, head) && Stored(headers, x)
  {
    && (forall j: nat | n < j < x.number :: j in canonical && canonical[j] == Ancestor(headers, x, j).hash)
    && (forall j: nat | j <= n :: j in canonical <==> j <= head.number)
    && (forall j: nat | j <= n && j <= head.number :: canonical[j] == Ancestor(headers, head, j).hash)
    && (forall j: nat | j in canonical :: j <= x.number)
  }

  /** An entry that is not shared is overwritten, and it is not the genesis entry. */
  lemma OverwriteOne(headers: Blocks, genesis: Hash, head: Block, x: Block, canonical: map<nat, Hash>, n: nat)
    returns (next: nat)
    requires Stored(headers, head) && Stored(headers, x) && OneRoot(headers, genesis) && n < x.number
    requires Overwriting(headers, head, x, canonical, n)
    requires n !in canonical || canonical[n] != Ancestor(headers, x, n).hash
    ensures n == next + 1
    ensures Overwriting(headers, head, x, canonical[n := Ancestor(headers, x, n).hash], next)
    ensures Parent(headers, Ancestor(headers, x, n)) == Ancestor(headers, x, next)
  {
    assert Ancestor(headers, head, 0).hash == genesis == Ancestor(headers, x, 0).hash;
    assert n > 0;
    next := n - 1;
    StepDown(headers, x, Ancestor(headers, x, n));
    KeepOverwriting(headers, head, x, canonical, n);
  }

  lemma KeepOverwriting(headers: Blocks, head: Block, x: Block, canonical: map<nat, Hash>, n: nat)
    requires Stored(headers, head) && Stored(headers, x) && 0 < n < x.number
    requires Overwriting(headers, head, x, canonical, n)
    ensures Overwriting(headers, head, x, canonical[n := Ancestor(headers, x, n).hash], n - 1)
  {
  }

  /** When the entry at `n` is shared, everything below is shared too. */
  lemma Shared(headers: Blocks, head: Block, x: Block, canonical: map<nat, Hash>, n: nat)
    requires Stored(headers, head) && Stored(headers, x) && n < x.number
    requires Overwriting(headers, head, x, canonical, n)
    requires n in canonical && canonical[n] == Ancestor(headers, x, n).hash
    ensures forall j: nat | j < x.number :: j in canonical && canonical[j] == Ancestor(headers, x, j).hash
  {
    var a, a' := Ancestor(headers, head, n), Ancestor(headers, x, n);
    assert a == headers[a.hash] == headers[a'.hash] == a';
    forall j: nat | j <= n ensures Ancestor(headers, head, j) == Ancestor(headers, x, j) {
      PathsMerge(headers, head, x, n, j);
    }
  }

  lemma PathComplete(headers: Blocks, x: Block, canonical: map<nat, Hash>)
    requires Stored(headers, x)
    requires forall j: nat | j < x.number :: j in canonical && canonical[j] == Ancestor(headers, x, j).hash
    requires x.number in canonical && canonical[x.number] == x.hash
    requires forall j: nat | j in canonical :: j <= x.number
    ensures canonical == CanonicalOf(headers, x)
  {
  }
}
