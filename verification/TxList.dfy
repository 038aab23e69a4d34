/**
 The per-account transaction list (core/tx_list.go, txList): a nonce map with cached bounds on cost and
 gas, strict (gap-free) for pending transactions and gapped for queued ones.
 */
module TxList {
  import opened Basics
  import opened TxMap
  import opened TxSortedMap

  /** A list as a value. */
  datatype List = List(strict: bool, items: Txs, costcap: nat, gascap: nat)

  const EMPTY_QUEUE := List(false, map[], 0, 0)
  const EMPTY_PENDING := List(true, map[], 0, 0)

  /** No nonce is missing between two stored ones. */
  ghost predicate Contiguous(m: Txs) {
    forall a, b, c | a in m && b in m && a < c < b :: c in m
  }

  /** The cached bounds cover every transaction: on what it costs, and on its gas. */
  ghost predicate CostCapOk(l: List) { forall n | n in l.items :: l.items[n].Cost() <= l.costcap }
  ghost predicate GasCapOk(l: List) { forall n | n in l.items :: l.items[n].gas <= l.gascap }

  function Max(a: nat, b: nat): nat { if a < b then b else a }

  // ---------- Add ----------

  /** Add accepts a transaction with a new nonce, or one that outbids a replaceable old one by the price bump. */
  predicate Accepts(l: List, tx: Tx, priceBump: nat) {
    tx.nonce in l.items ==>
      var prev := l.items[tx.nonce];
      !prev.IsSpecial() && prev.price < tx.price && prev.price * (100 + priceBump) / 100 <= tx.price
  }

  /**
   A price `q` outbids an old one `p`: it is higher, and by the price bump in per cent, rounded down to whole units.
   */
  predicate Outbids(p: nat, q: nat, priceBump: nat) {
    q > p && 100 * q + 99 >= p * (100 + priceBump)
  }

  /** What Add accepts, in prices alone. */
  ghost predicate AcceptedByPrice(l: List, tx: Tx, priceBump: nat) {
    || tx.nonce !in l.items
    || (!l.items[tx.nonce].IsSpecial() && Outbids(l.items[tx.nonce].price, tx.price, priceBump))
  }

  lemma PriceDecides(l: List, tx: Tx, priceBump: nat)
    ensures Accepts(l, tx, priceBump) <==> AcceptedByPrice(l, tx, priceBump)
  {
    if tx.nonce in l.items { RoundedDown(l.items[tx.nonce].price * (100 + priceBump), tx.price); }
  }

  lemma RoundedDown(a: nat, q: nat)
    ensures a / 100 <= q <==> a <= 100 * q + 99
  {
  }

  function Added(l: List, tx: Tx): List {
    l.(items := l.items[tx.nonce := tx], costcap := Max(l.costcap, tx.Cost()), gascap := Max(l.gascap, tx.gas))
  }

  lemma AddedKeepsCaps(l: List, tx: Tx)
    requires Keyed(l.items)
    ensures Keyed(Added(l, tx).items)
    ensures CostCapOk(l) ==> CostCapOk(Added(l, tx))
    ensures GasCapOk(l) ==> GasCapOk(Added(l, tx))
  {
  }

  // ---------- Filter ----------

  /** The filter of txList.Filter: over the block gas limit, or over what the payer can afford. */
  predicate Unpayable(tx: Tx, costLimit: nat, gasLimit: nat, issuers: map<Address, nat>) {
    tx.Cost() > Payer(tx, costLimit, issuers) || tx.gas > gasLimit
  }

  /** The balance that pays for a transaction: the recipient's if it is a TRC21 issuer. */
  function Payer(tx: Tx, costLimit: nat, issuers: map<Address, nat>): nat {
    if tx.to.Some? && tx.to.value in issuers then issuers[tx.to.value] else costLimit
  }

  function UnpayableFilter(costLimit: nat, gasLimit: nat, issuers: map<Address, nat>): Tx -> bool {
    (tx: Tx) => Unpayable(tx, costLimit, gasLimit, issuers)
  }

  /** What Filter leaves and returns: the list, the unpayable transactions, and in strict mode those they invalidate. */
  datatype Filtered = Filtered(kept: Txs, removed: Txs, invalids: Txs)

  ghost predicate IsLowest(n: nat, m: Txs) { n in m && forall k | k in m :: n <= k }

  /** The full scan that Filter performs unless its short cut applies. */
  ghost predicate IsScan(strict: bool, m: Txs, filter: Tx -> bool, r: Filtered) {
    && r.removed == Hit(m, filter)
    && (if strict && r.removed != map[]
        then exists lowest: nat :: IsLowest(lowest, r.removed) && r.kept == Below(Kept(m, filter), lowest + 1)
                                   && r.invalids == From(Kept(m, filter), lowest + 1)
        else r.kept == Kept(m, filter) && r.invalids == map[])
  }

  /** In strict mode everything from the first unpayable transaction on goes. */
  lemma StrictScan(m: Txs, filter: Tx -> bool, r: Filtered)
    requires Keyed(m) && IsScan(true, m, filter, r) && r.removed != map[]
    ensures exists lowest: nat :: IsLowest(lowest, r.removed) && r.kept == Below(m, lowest)
  {
    var lowest: nat :| IsLowest(lowest, r.removed) && r.kept == Below(Kept(m, filter), lowest + 1)
                       && r.invalids == From(Kept(m, filter), lowest + 1);
    forall k | k in m && k < lowest ensures !filter(m[k]) { assert k !in Hit(m, filter); }
    assert r.kept == Below(m, lowest);
  }

  /** Removed, invalidated and kept transactions partition the old list. */
  lemma ScanPartitions(strict: bool, m: Txs, filter: Tx -> bool, r: Filtered)
    requires IsScan(strict, m, filter, r)
    ensures r.kept.Keys !! r.removed.Keys !! r.invalids.Keys
    ensures r.kept + r.removed + r.invalids == m
  {
    assert forall k :: k in m <==> k in Kept(m, filter) || k in Hit(m, filter);
  }

  lemma SplitsContiguous(m: Txs, n: nat)
    requires Contiguous(m)
    ensures Contiguous(Below(m, n)) && Contiguous(From(m, n))
  {
  }

  /** A strict list stays gap-free under Filter. */
  lemma ScanKeepsContiguous(m: Txs, filter: Tx -> bool, r: Filtered)
    requires Keyed(m) && Contiguous(m) && IsScan(true, m, filter, r)
    ensures Contiguous(r.kept)
  {
    if r.removed != map[] {
      StrictScan(m, filter, r);
      var lowest: nat :| IsLowest(lowest, r.removed) && r.kept == Below(m, lowest);
      SplitsContiguous(m, lowest);
    } else {
      assert forall k | k in m :: filter(m[k]) <==> k in Hit(m, filter);
      assert r.kept == m;
    }
  }

  predicate ShortCut(l: List, costLimit: nat, gasLimit: nat) {
    l.costcap <= costLimit && l.gascap <= gasLimit
  }

  /** The effect of txList.Filter. */
  ghost predicate IsFilter(l: List, costLimit: nat, gasLimit: nat, issuers: map<Address, nat>, l': List, r: Filtered) {
    && l' == l.(items := r.kept, costcap := l'.costcap, gascap := l'.gascap)
    && if ShortCut(l, costLimit, gasLimit) then r == Filtered(l.items, map[], map[]) && l' == l
       else
         && IsScan(l.strict, l.items, UnpayableFilter(costLimit, gasLimit, issuers), r)
         && l'.costcap == costLimit && l'.gascap == gasLimit
  }

  // ---------- When the cached bounds mislead ----------

  predicate ToIssuer(tx: Tx, issuers: map<Address, nat>) { tx.to.Some? && tx.to.value in issuers }

  /** Every transaction to an issuer costs no more than the issuer has. */
  ghost predicate IssuersCanPay(m: Txs, issuers: map<Address, nat>) {
    forall n | n in m && ToIssuer(m[n], issuers) :: m[n].Cost() <= issuers[m[n].to.value]
  }

  /** The account could not pay for the transaction, but the issuer it goes to can. */
  predicate OnCredit(tx: Tx, costLimit: nat, issuers: map<Address, nat>) {
    ToIssuer(tx, issuers) && costLimit < tx.Cost() <= issuers[tx.to.value]
  }

  /** Payable, and in strict mode not above an unpayable transaction. */
  ghost predicate Survives(l: List, n: nat, costLimit: nat, gasLimit: nat, issuers: map<Address, nat>) {
    && n in l.items && !Unpayable(l.items[n], costLimit, gasLimit, issuers)
    && (l.strict ==> forall k | k in l.items && k < n :: !Unpayable(l.items[k], costLimit, gasLimit, issuers))
  }

  /** What a scan keeps, seen from the list before it. */
  lemma ScanKeeps(l: List, costLimit: nat, gasLimit: nat, issuers: map<Address, nat>, r: Filtered, n: nat)
    requires Keyed(l.items) && IsScan(l.strict, l.items, UnpayableFilter(costLimit, gasLimit, issuers), r)
    ensures n in r.kept <==> Survives(l, n, costLimit, gasLimit, issuers)
    ensures n in r.kept ==> r.kept[n] == l.items[n]
  {
    var filter := UnpayableFilter(costLimit, gasLimit, issuers);
    assert forall k | k in l.items :: filter(l.items[k]) <==> k in Hit(l.items, filter);
    if l.strict && r.removed != map[] { StrictScan(l.items, filter, r); }
  }

  /**
   Filter leaves a right bound on the cost if and only if it took the short cut on a right bound, or the scan kept
   nothing on an issuer's credit. The bound on the gas stays right in any case.
   */
  lemma FilterKeepsCapsIff(l: List, costLimit: nat, gasLimit: nat, issuers: map<Address, nat>, l': List, r: Filtered)
    requires Keyed(l.items) && IsFilter(l, costLimit, gasLimit, issuers, l', r)
    ensures GasCapOk(l) ==> GasCapOk(l')
    ensures CostCapOk(l') <==>
            if ShortCut(l, costLimit, gasLimit) then CostCapOk(l)
            else forall n | n in l.items && OnCredit(l.items[n], costLimit, issuers) ::
              !Survives(l, n, costLimit, gasLimit, issuers)
  {
    if !ShortCut(l, costLimit, gasLimit) {
      forall n: nat
        ensures n in r.kept <==> Survives(l, n, costLimit, gasLimit, issuers)
        ensures n in r.kept ==> r.kept[n] == l.items[n]
      {
        ScanKeeps(l, costLimit, gasLimit, issuers, r, n);
      }
      if n :| n in l.items && OnCredit(l.items[n], costLimit, issuers) && Survives(l, n, costLimit, gasLimit, issuers) {
        assert l'.items[n].Cost() > l'.costcap;
      }
    }
  }

  /**
   With a right bound on the gas, and any bound on the cost, the short cut returns what a full scan would if and
   only if no transaction to an issuer costs more than the issuer has, and no transaction above the cached bound
   that the account pays for costs more than the account's limit.
   */
  lemma ShortCutIsScanIff(l: List, costLimit: nat, gasLimit: nat, issuers: map<Address, nat>)
    requires GasCapOk(l) && ShortCut(l, costLimit, gasLimit)
    ensures IsScan(l.strict, l.items, UnpayableFilter(costLimit, gasLimit, issuers), Filtered(l.items, map[], map[]))
       <==> && IssuersCanPay(l.items, issuers)
            && forall n | n in l.items && l.items[n].Cost() > l.costcap ::
                 ToIssuer(l.items[n], issuers) || l.items[n].Cost() <= costLimit
  {
    var filter := UnpayableFilter(costLimit, gasLimit, issuers);
    if n :| n in l.items && filter(l.items[n]) {
      assert n in Hit(l.items, filter);
      assert !ToIssuer(l.items[n], issuers) ==> l.items[n].Cost() > l.costcap;
    } else {
      assert Hit(l.items, filter) == map[] && Kept(l.items, filter) == l.items;
      forall n | n in l.items ensures !Unpayable(l.items[n], costLimit, gasLimit, issuers) {
        assert !filter(l.items[n]);
      }
    }
  }

  /** One transaction to an issuer without funds: the short cut keeps what the scan would drop. */
  lemma ShortCutMissesIssuer()
    ensures var tx := Tx(1, 2, 0, 1, 1, 0, Some(3));
            var l := Added(EMPTY_QUEUE, tx);
            && CostCapOk(l) && GasCapOk(l) && ShortCut(l, 10, 10)
            && !IsScan(false, l.items, UnpayableFilter(10, 10, map[3 := 0]), Filtered(l.items, map[], map[]))
  {
    var tx := Tx(1, 2, 0, 1, 1, 0, Some(3));
    var l := Added(EMPTY_QUEUE, tx);
    assert l.items[0] == tx && !IssuersCanPay(l.items, map[3 := 0]);
    ShortCutIsScanIff(l, 10, 10, map[3 := 0]);
  }

  /**
   A transaction that costs 100, kept once on an issuer's credit by an account with 50: the bound is lowered to 50.
   When the recipient is no issuer any more and the account has 60, the short cut keeps it and a scan would not.
   */
  lemma CreditMisleadsShortCut()
    ensures var tx := Tx(1, 2, 0, 10, 10, 0, Some(3));
            var l, l' := Added(EMPTY_QUEUE, tx), List(false, map[0 := tx], 50, 10);
            && CostCapOk(l) && IsFilter(l, 50, 10, map[3 := 1000], l', Filtered(l.items, map[], map[]))
               && !CostCapOk(l')
            && ShortCut(l', 60, 10) && IssuersCanPay(l'.items, map[])
            && !IsScan(false, l'.items, UnpayableFilter(60, 10, map[]), Filtered(l'.items, map[], map[]))
  {
    var tx := Tx(1, 2, 0, 10, 10, 0, Some(3));
    var l, l' := Added(EMPTY_QUEUE, tx), List(false, map[0 := tx], 50, 10);
    var filter := UnpayableFilter(50, 10, map[3 := 1000]);
    assert l.items == map[0 := tx] && !filter(tx);
    assert Hit(l.items, filter) == map[] && Kept(l.items, filter) == l.items;
    assert l'.items[0].Cost() == 100 && !ToIssuer(l'.items[0], map[]);
    ShortCutIsScanIff(l', 60, 10, map[]);
  }

  /** The account itself can pay for every transaction, and a block can hold it. */
  predicate Affordable(m: Txs, costLimit: nat, gasLimit: nat) {
    forall n | n in m :: m[n].Cost() <= costLimit && m[n].gas <= gasLimit
  }

  /** The bounds of `l'` are those of `l`, raised as far as adding the transactions of `m` raises them. */
  ghost predicate Raised(l: List, m: Txs, l': List) {
    forall costLimit: nat, gasLimit: nat {:trigger ShortCut(l', costLimit, gasLimit)} ::
      ShortCut(l', costLimit, gasLimit) <==> ShortCut(l, costLimit, gasLimit) && Affordable(m, costLimit, gasLimit)
  }

  lemma AddedRaises(l: List, m: Txs, l': List, n: nat, tx: Tx)
    requires Raised(l, m, l') && n !in m
    ensures Raised(l, m[n := tx], Added(l', tx))
  {
    forall costLimit: nat, gasLimit: nat
      ensures ShortCut(Added(l', tx), costLimit, gasLimit)
              <==> ShortCut(l, costLimit, gasLimit) && Affordable(m[n := tx], costLimit, gasLimit)
    {
      assert ShortCut(l', costLimit, gasLimit) <==>
        ShortCut(l, costLimit, gasLimit) && Affordable(m, costLimit, gasLimit);
      assert Affordable(m[n := tx], costLimit, gasLimit)
        <==> Affordable(m, costLimit, gasLimit) && tx.Cost() <= costLimit && tx.gas <= gasLimit by {
        if Affordable(m[n := tx], costLimit, gasLimit) {
          assert m[n := tx][n] == tx;
          forall k | k in m ensures m[k].Cost() <= costLimit && m[k].gas <= gasLimit { assert m[n := tx][k] == m[k]; }
        }
      }
    }
  }

  // ---------- Remove ----------

  /** Remove: in strict mode everything above the removed nonce is invalidated. */
  function Removed(l: List, nonce: nat): List {
    if nonce !in l.items then l
    else if l.strict then l.(items := Below(l.items, nonce))
    else l.(items := l.items - {nonce})
  }

  function Invalidated(l: List, nonce: nat): Txs {
    if nonce in l.items && l.strict then From(l.items, nonce + 1) else map[]
  }

  /** Which nonces stay: not the removed one, nor, in a strict list that had it, those above. */
  lemma RemovedMeans(l: List, nonce: nat, k: nat)
    ensures k in Removed(l, nonce).items <==>
              k in l.items && (k < nonce || (k > nonce && !(l.strict && nonce in l.items)))
    ensures k in Removed(l, nonce).items ==> Removed(l, nonce).items[k] == l.items[k]
    ensures k in Invalidated(l, nonce) <==> k in l.items && k > nonce && l.strict && nonce in l.items
    ensures Removed(l, nonce) == l.(items := Removed(l, nonce).items)
  {
  }

  lemma RemovedKeepsContiguous(l: List, nonce: nat)
    requires l.strict && Contiguous(l.items)
    ensures Contiguous(Removed(l, nonce).items)
    ensures nonce in l.items ==>
              Removed(l, nonce).items + map[nonce := l.items[nonce]] + Invalidated(l, nonce) == l.items
  {
    SplitsContiguous(l.items, nonce);
  }

  // ---------- Any sequence of operations on a list ----------

  /**
   Forward and Ready take a lower part of a list away, Cap an upper part. Placing is what promoteSpecialTx does to a
   list: it puts a transaction there without asking Add.
   */
  datatype Op =
    | Adding(tx: Tx, priceBump: nat)
    | Placing(tx: Tx)
    | Filtering(costLimit: nat, gasLimit: nat, issuers: map<Address, nat>)
    | Removing(nonce: nat)
    | TakingBelow(n: nat)
    | TakingFrom(n: nat)

  ghost predicate Does(l: List, op: Op, l': List) {
    match op
    case Adding(tx, priceBump) => l' == if Accepts(l, tx, priceBump) then Added(l, tx) else l
    case Placing(tx) => l' == Added(l, tx)
    case Filtering(costLimit, gasLimit, issuers) => exists r :: IsFilter(l, costLimit, gasLimit, issuers, l', r)
    case Removing(nonce) => l' == Removed(l, nonce)
    case TakingBelow(n) => l' == l.(items := From(l.items, n))
    case TakingFrom(n) => l' == l.(items := Below(l.items, n))
  }

  /** The life of a list: it starts empty, and each operation leads to the next value. */
  ghost predicate Life(lists: seq<List>, ops: seq<Op>) {
    && |lists| == |ops| + 1 && (lists[0] == EMPTY_QUEUE || lists[0] == EMPTY_PENDING)
    && forall i | 0 <= i < |ops| :: Does(lists[i], ops[i], lists[i + 1])
  }

  /** The operation is a scan that found the transaction payable only on an issuer's credit. */
  ghost predicate Credits(l: List, op: Op, n: nat, tx: Tx) {
    && op.Filtering? && !ShortCut(l, op.costLimit, op.gasLimit)
    && n in l.items && l.items[n] == tx && OnCredit(tx, op.costLimit, op.issuers)
  }

  /** A transaction over the bound was over it before, or has just been kept on credit. */
  lemma OverCapStep(l: List, op: Op, l': List, n: nat)
    requires Keyed(l.items) && Does(l, op, l') && n in l'.items && l'.items[n].Cost() > l'.costcap
    ensures (n in l.items && l.items[n] == l'.items[n] && l.items[n].Cost() > l.costcap)
            || Credits(l, op, n, l'.items[n])
  {
    if op.Filtering? && !ShortCut(l, op.costLimit, op.gasLimit) {
      var r :| IsFilter(l, op.costLimit, op.gasLimit, op.issuers, l', r);
      ScanKeeps(l, op.costLimit, op.gasLimit, op.issuers, r, n);
    }
  }

  lemma DoesKeeps(l: List, op: Op, l': List)
    requires Keyed(l.items) && GasCapOk(l) && Does(l, op, l')
    ensures Keyed(l'.items) && GasCapOk(l')
  {
    if op.Filtering? {
      var r :| IsFilter(l, op.costLimit, op.gasLimit, op.issuers, l', r);
      FilterKeepsCapsIff(l, op.costLimit, op.gasLimit, op.issuers, l', r);
      if !ShortCut(l, op.costLimit, op.gasLimit) {
        forall n: nat ensures n in r.kept ==> n in l.items && r.kept[n] == l.items[n] {
          ScanKeeps(l, op.costLimit, op.gasLimit, op.issuers, r, n);
        }
      }
    }
  }

  /** The bound on the gas is right throughout the life of a list. */
  lemma {:induction false} GasCapAlwaysOk(lists: seq<List>, ops: seq<Op>, i: nat)
    requires Life(lists, ops) && i < |lists|
    ensures Keyed(lists[i].items) && GasCapOk(lists[i])
    decreases i
  {
    if i > 0 {
      GasCapAlwaysOk(lists, ops, i - 1);
      assert Does(lists[i - 1], ops[i - 1], lists[i]);
      DoesKeeps(lists[i - 1], ops[i - 1], lists[i]);
    }
  }

  /** Some scan before the `i`-th list found this transaction on credit. */
  ghost predicate WasCredited(lists: seq<List>, ops: seq<Op>, i: nat, n: nat, tx: Tx)
    requires |ops| < |lists| && i <= |ops|
  {
    exists j | 0 <= j < i :: Credits(lists[j], ops[j], n, tx)
  }

  /** A transaction costs more than the cached bound only if a scan found it on an issuer's credit earlier. */
  lemma {:induction false} OverCapWasCredited(lists: seq<List>, ops: seq<Op>, i: nat, n: nat)
    requires Life(lists, ops) && i < |lists| && n in lists[i].items && lists[i].items[n].Cost() > lists[i].costcap
    ensures WasCredited(lists, ops, i, n, lists[i].items[n])
    decreases i
  {
    if i > 0 {
      GasCapAlwaysOk(lists, ops, i - 1);
      assert Does(lists[i - 1], ops[i - 1], lists[i]);
      OverCapStep(lists[i - 1], ops[i - 1], lists[i], n);
      if !Credits(lists[i - 1], ops[i - 1], n, lists[i].items[n]) { OverCapWasCredited(lists, ops, i - 1, n); }
    }
  }

  /**
   At any point of the life of a list, the short cut returns what a full scan would if and only if no issuer is
   asked for more than it has, and no transaction that a scan once found on credit and that the account now has to
   pay for itself costs more than the account's limit.
   */
  lemma ShortCutOverLifeIff(lists: seq<List>, ops: seq<Op>, i: nat, costLimit: nat, gasLimit: nat,
                            issuers: map<Address, nat>)
    requires Life(lists, ops) && i < |lists| && ShortCut(lists[i], costLimit, gasLimit)
    ensures IsScan(lists[i].strict, lists[i].items, UnpayableFilter(costLimit, gasLimit, issuers),
                   Filtered(lists[i].items, map[], map[]))
       <==> && IssuersCanPay(lists[i].items, issuers)
            && forall n | n in lists[i].items && WasCredited(lists, ops, i, n, lists[i].items[n]) ::
                 ToIssuer(lists[i].items[n], issuers) || lists[i].items[n].Cost() <= costLimit
  {
    var l := lists[i];
    GasCapAlwaysOk(lists, ops, i);
    ShortCutIsScanIff(l, costLimit, gasLimit, issuers);
    forall n | n in l.items && l.items[n].Cost() > l.costcap ensures WasCredited(lists, ops, i, n, l.items[n]) {
      OverCapWasCredited(lists, ops, i, n);
    }
  }

  /** The operation replaces the transaction with this nonce through Add. */
  predicate Replaces(l: List, op: Op, n: nat) {
    op.Adding? && op.tx.nonce == n && n in l.items && Accepts(l, op.tx, op.priceBump)
  }

  /** Nothing else but promoteSpecialTx puts another transaction where one stays. */
  lemma StaysUnlessReplaced(l: List, op: Op, l': List, n: nat)
    requires Keyed(l.items) && Does(l, op, l') && n in l.items && n in l'.items
    requires !(op.Placing? && op.tx.nonce == n) && !Replaces(l, op, n)
    ensures l'.items[n] == l.items[n]
  {
    if op.Filtering? && !ShortCut(l, op.costLimit, op.gasLimit) {
      var r :| IsFilter(l, op.costLimit, op.gasLimit, op.issuers, l', r);
      ScanKeeps(l, op.costLimit, op.gasLimit, op.issuers, r, n);
    }
  }

  function Replacements(lists: seq<List>, ops: seq<Op>, i: nat, j: nat, n: nat): nat
    requires i <= j <= |ops| < |lists|
    decreases j
  {
    if i == j then 0
    else Replacements(lists, ops, i, j - 1, n) + if Replaces(lists[j - 1], ops[j - 1], n) then 1 else 0
  }

  /** Each price outbids the one before it by its own price bump. */
  ghost predicate Bidding(prices: seq<nat>, bumps: seq<nat>) {
    |prices| == |bumps| + 1 && forall k | 0 <= k < |bumps| :: Outbids(prices[k], prices[k + 1], bumps[k])
  }

  lemma BiddingNext(prices: seq<nat>, bumps: seq<nat>, price: nat, bump: nat)
    requires Bidding(prices, bumps) && Outbids(prices[|bumps|], price, bump)
    ensures Bidding(prices + [price], bumps + [bump])
  {
  }

  /**
   As long as a nonce stays occupied, and promoteSpecialTx does not put something there, its price rises through a chain
   of bids, one for each replacement, each of which outbids the one before.
   */
  lemma {:induction false} PricesAreBids(lists: seq<List>, ops: seq<Op>, i: nat, j: nat, n: nat)
    returns (prices: seq<nat>, bumps: seq<nat>)
    requires Life(lists, ops) && i <= j < |lists| && forall k | i <= k <= j :: n in lists[k].items
    requires forall k | i <= k < j :: !(ops[k].Placing? && ops[k].tx.nonce == n)
    ensures Bidding(prices, bumps) && |bumps| == Replacements(lists, ops, i, j, n)
    ensures prices[0] == lists[i].items[n].price && prices[|bumps|] == lists[j].items[n].price
    ensures lists[j].items[n].price >= lists[i].items[n].price + |bumps|
    decreases j
  {
    if i == j {
      prices, bumps := [lists[i].items[n].price], [];
    } else {
      var m := j - 1;
      prices, bumps := PricesAreBids(lists, ops, i, m, n);
      assert Does(lists[m], ops[m], lists[m + 1]);
      assert n in lists[m].items && n in lists[m + 1].items && !(ops[m].Placing? && ops[m].tx.nonce == n);
      if Replaces(lists[m], ops[m], n) {
        PriceDecides(lists[m], ops[m].tx, ops[m].priceBump);
        BiddingNext(prices, bumps, ops[m].tx.price, ops[m].priceBump);
        prices, bumps := prices + [ops[m].tx.price], bumps + [ops[m].priceBump];
      } else {
        GasCapAlwaysOk(lists, ops, m);
        StaysUnlessReplaced(lists[m], ops[m], lists[m + 1], n);
      }
    }
  }

  // ---------- The object ----------

  class AccountList {
    const strict: bool
    const txs: SortedMap
    var costcap: nat
    var gascap: nat

    constructor (strict: bool)
      ensures Valid() && fresh(txs) && Abs() == List(strict, map[], 0, 0)
    {
      this.strict := strict;
      txs := new SortedMap();
      costcap, gascap := 0, 0;
    }

    ghost predicate Valid()
      reads this, txs
    {
      txs.Valid()
    }

    ghost function Abs(): List
      reads this, txs
    {
      List(strict, txs.items, costcap, gascap)
    }

    method Add(tx: Tx, priceBump: nat) returns (inserted: bool, replaced: Option<Tx>)
      requires Valid()
      modifies this, txs
      ensures Valid() && inserted == Accepts(old(Abs()), tx, priceBump)
      ensures inserted <==> AcceptedByPrice(old(Abs()), tx, priceBump)
      ensures Abs() == if inserted then Added(old(Abs()), tx) else old(Abs())
      ensures inserted ==> replaced == old(txs.Get(tx.nonce))
    {
      PriceDecides(Abs(), tx, priceBump);
      var prev := txs.Get(tx.nonce);
      if prev.Some? && prev.value.IsSpecial() { return false, None; }
      if prev.Some? {
        var threshold := prev.value.price * (100 + priceBump) / 100;
        if prev.value.price >= tx.price || threshold > tx.price { return false, None; }
      }
      txs.Put(tx);
      if costcap < tx.Cost() { costcap := tx.Cost(); }
      if gascap < tx.gas { gascap := tx.gas; }
      return true, prev;
    }

    /** Drop everything above a nonce: what strict mode does after a removal. */
    method FilterAbove(n: nat) returns (invalids: seq<Tx>)
      requires Valid()
      modifies txs
      ensures Valid() && txs.items == Below(old(txs.items), n + 1) && Contains(invalids, From(old(txs.items), n + 1))
    {
      var above := (tx: Tx) => tx.nonce > n;
      SplitByNonce(txs.items, n, above);
      invalids := txs.Filter(above);
    }

    method Filter(costLimit: nat, gasLimit: nat, issuers: map<Address, nat>)
      returns (removed: seq<Tx>, invalids: seq<Tx>, ghost r: Filtered)
      requires Valid()
      modifies this, txs
      ensures Valid() && IsFilter(old(Abs()), costLimit, gasLimit, issuers, Abs(), r)
      ensures Contains(removed, r.removed) && Contains(invalids, r.invalids)
    {
      if costcap <= costLimit && gascap <= gasLimit {
        r := Filtered(txs.items, map[], map[]);
        return [], [], r;
      }
      costcap, gascap := costLimit, gasLimit;
      removed, invalids, r := Scan(UnpayableFilter(costLimit, gasLimit, issuers));
    }

    /** The part of Filter behind the short cut. */
    method Scan(filter: Tx -> bool) returns (removed: seq<Tx>, invalids: seq<Tx>, ghost r: Filtered)
      requires Valid()
      modifies txs
      ensures Valid() && IsScan(strict, old(txs.items), filter, r) && txs.items == r.kept
      ensures Contains(removed, r.removed) && Contains(invalids, r.invalids)
    {
      ghost var hits := Hit(txs.items, filter);
      removed := txs.Filter(filter);
      invalids := [];
      if strict && |removed| > 0 {
        var lowest := LowestNonce(removed);
        LowestOfHits(removed, hits, lowest);
        ghost var kept := txs.items;
        invalids := FilterAbove(lowest);
        r := Filtered(txs.items, hits, From(kept, lowest + 1));
      } else {
        if |removed| == 0 { ContainsNothing(hits); }
        r := Filtered(txs.items, hits, map[]);
      }
    }

    method Remove(tx: Tx) returns (found: bool, invalids: seq<Tx>)
      requires Valid()
      modifies this, txs
      ensures Valid() && found == (tx.nonce in old(txs.items))
      ensures Abs() == Removed(old(Abs()), tx.nonce) && Contains(invalids, Invalidated(old(Abs()), tx.nonce))
    {
      invalids := [];
      WithoutOne(txs.items, tx.nonce);
      found := txs.Remove(tx.nonce);
      if found && strict {
        invalids := FilterAbove(tx.nonce);
      }
    }
  }

  lemma WithoutOne(m: Txs, n: nat)
    ensures Below(m - {n}, n + 1) == Below(m, n) && From(m - {n}, n + 1) == From(m, n + 1)
    ensures n !in m ==> m - {n} == m
  {
  }

  lemma SplitByNonce(m: Txs, n: nat, above: Tx -> bool)
    requires Keyed(m) && forall t: Tx :: above(t) <==> t.nonce > n
    ensures Kept(m, above) == Below(m, n + 1) && Hit(m, above) == From(m, n + 1)
  {
  }

  /** The loop of Filter that finds the lowest removed nonce. */
  method LowestNonce(removed: seq<Tx>) returns (lowest: nat)
    requires removed != []
    ensures (exists i :: 0 <= i < |removed| && removed[i].nonce == lowest)
    ensures forall i | 0 <= i < |removed| :: lowest <= removed[i].nonce
  {
    lowest := removed[0].nonce;
    for i := 1 to |removed|
      invariant exists j :: 0 <= j < |removed| && removed[j].nonce == lowest
      invariant forall j | 0 <= j < i :: lowest <= removed[j].nonce
    {
      if lowest > removed[i].nonce { lowest := removed[i].nonce; }
    }
  }

  lemma LowestOfHits(removed: seq<Tx>, m: Txs, lowest: nat)
    requires Contains(removed, m) && Keyed(m)
    requires exists i :: 0 <= i < |removed| && removed[i].nonce == lowest
    requires forall i | 0 <= i < |removed| :: lowest <= removed[i].nonce
    ensures IsLowest(lowest, m)
  {
    forall k | k in m ensures lowest <= k { assert m[k] in removed; }
  }
}
