/**
 The equalising evictor of TxPool.promoteExecutables (core/tx_pool.go): when there are too many pending
 transactions, the largest remote accounts are lowered together until the pool fits.
 */
module Eviction {
  import opened Basics
  import opened TxMap

  /** The pending transactions of an account and its nonce in the pool's pending state. */
  datatype Account = Account(txs: Txs, nonce: nat)

  type Accounts = map<Address, Account>

  function Min(a: nat, b: nat): nat { if a < b then a else b }

  // ---------- One account ----------

  ghost predicate IsHighest(n: nat, m: Txs) { n in m && forall k | k in m :: k <= n }

  lemma {:induction false} HighestExists(m: Txs)
    requires m != map[]
    ensures exists n: nat :: IsHighest(n, m)
    decreases |m|
  {
    assert m.Keys != {};
    var a :| a in m.Keys;
    if (m - {a}).Keys != {} {
      HighestExists(m - {a});
      var b: nat :| IsHighest(b, m - {a});
      forall k | k in m ensures k <= a || k <= b { assert k == a || k in m - {a}; }
      assert IsHighest(if a < b then b else a, m);
    } else {
      assert forall k | k in m :: k == a || k in (m - {a}).Keys;
      assert IsHighest(a, m);
    }
  }

  ghost function HighestOf(m: Txs): (n: nat)
    requires m != map[]
    ensures IsHighest(n, m)
  {
    HighestExists(m);
    var n: nat :| IsHighest(n, m);
    n
  }

  /** list.Cap(list.Len() - 1), with the pending nonce taken back to the dropped transaction. */
  function Without(x: Account, n: nat): Account {
    Account(x.txs - {n}, if x.nonce > n then n else x.nonce)
  }

  /** An account cut down to at most `k` transactions, one at a time from the top. */
  ghost function CutTo(x: Account, k: nat): Account
    decreases |x.txs|
  {
    if |x.txs| <= k then x else
      assert |Without(x, HighestOf(x.txs)).txs| < |x.txs| by { SizeWithout(x, HighestOf(x.txs)); }
      CutTo(Without(x, HighestOf(x.txs)), k)
  }

  lemma SizeWithout(x: Account, n: nat)
    requires n in x.txs
    ensures |Without(x, n).txs| == |x.txs| - 1
  {
    assert x.txs.Keys == Without(x, n).txs.Keys + {n};
  }

  lemma {:induction false} CutSize(x: Account, k: nat)
    ensures |CutTo(x, k).txs| == Min(|x.txs|, k)
    decreases |x.txs|
  {
    if |x.txs| > k {
      SizeWithout(x, HighestOf(x.txs));
      CutSize(Without(x, HighestOf(x.txs)), k);
    }
  }

  /** Cutting one deeper is cutting and dropping the highest of what is left. */
  lemma {:induction false} CutDeeper(x: Account, k: nat)
    requires |x.txs| > k
    ensures var y := CutTo(x, k + 1); |y.txs| == k + 1 && CutTo(x, k) == Without(y, HighestOf(y.txs))
    decreases |x.txs|
  {
    SizeWithout(x, HighestOf(x.txs));
    if |x.txs| > k + 1 {
      CutDeeper(Without(x, HighestOf(x.txs)), k);
    }
  }

  /** The lowest nonces stay, and the pending nonce falls back to the lowest dropped one if it was higher. */
  ghost predicate Evicted(x0: Account, x: Account) {
    && (forall k | k in x.txs :: k in x0.txs && x.txs[k] == x0.txs[k])
    && (forall j, k | j in x.txs && k in x0.txs && k !in x.txs :: j < k)
    && x.nonce <= x0.nonce
    && (forall k | k in x0.txs && k !in x.txs :: x.nonce <= k)
    && (x.nonce == x0.nonce || (x.nonce in x0.txs && x.nonce !in x.txs))
  }

  lemma {:induction false} CutEvicts(x: Account, k: nat)
    ensures Evicted(x, CutTo(x, k))
    decreases |x.txs|
  {
    if |x.txs| > k {
      SizeWithout(x, HighestOf(x.txs));
      CutEvicts(Without(x, HighestOf(x.txs)), k);
    }
  }

  // ---------- All accounts ----------

  /** What remote accounts in `done` look like after part of a round: one below `level`. */
  ghost function CutIn(accounts0: Accounts, locals: set<Address>, level: nat, done: set<Address>, a: Address): Account
    requires a in accounts0
  {
    if a in locals then accounts0[a]
    else CutTo(accounts0[a], if a in done && level > 0 then level - 1 else level)
  }

  ghost predicate MidwayAt(accounts0: Accounts, locals: set<Address>, level: nat, done: set<Address>,
                           accounts: Accounts, a: Address)
    requires a in accounts0
  {
    a in accounts && accounts[a] == CutIn(accounts0, locals, level, done, a)
  }

  /** Remote accounts in `done` cut to one below `level`, other remote accounts to `level`, local ones left alone. */
  ghost predicate Midway(accounts0: Accounts, locals: set<Address>, level: nat, done: set<Address>, accounts: Accounts)
  {
    && accounts.Keys == accounts0.Keys
    && forall a {:trigger MidwayAt(accounts0, locals, level, done, accounts, a)} | a in accounts0 ::
         MidwayAt(accounts0, locals, level, done, accounts, a)
  }

  /** All remote accounts cut to `level`. */
  ghost predicate AtLevel(accounts0: Accounts, locals: set<Address>, level: nat, accounts: Accounts) {
    Midway(accounts0, locals, level, {}, accounts)
  }

  function Pairs(accounts: Accounts): set<(Address, nat)> {
    set a, n | a in accounts && n in accounts[a].txs :: (a, n)
  }

  /** The number of pending transactions. */
  function Count(accounts: Accounts): nat { |Pairs(accounts)| }

  /** The transactions that are in `accounts0` and no longer in `accounts`. */
  ghost function Gone(accounts0: Accounts, accounts: Accounts): set<Tx> {
    set a, n | a in accounts0 && n in accounts0[a].txs && !(a in accounts && n in accounts[a].txs) ::
      accounts0[a].txs[n]
  }

  lemma PairsWithout(accounts: Accounts, a: Address, n: nat)
    requires a in accounts && n in accounts[a].txs
    ensures Count(accounts[a := Without(accounts[a], n)]) == Count(accounts) - 1
  {
    assert (a, n) in Pairs(accounts);
    assert Pairs(accounts[a := Without(accounts[a], n)]) == Pairs(accounts) - {(a, n)};
  }

  lemma {:induction false} CountTake(accounts: Accounts, a: Address)
    requires a in accounts
    ensures Count(accounts) == |accounts[a].txs| + Count(accounts - {a})
    decreases |accounts[a].txs|
  {
    if accounts[a].txs.Keys == {} {
      assert Pairs(accounts) == Pairs(accounts - {a});
    } else {
      var n :| n in accounts[a].txs.Keys;
      SizeWithout(accounts[a], n);
      PairsWithout(accounts, a, n);
      CountTake(accounts[a := Without(accounts[a], n)], a);
      assert accounts[a := Without(accounts[a], n)] - {a} == accounts - {a};
    }
  }

  /** The loop that adds up the lengths of the pending lists, in any order. */
  method CountPending(accounts: Accounts) returns (pending: nat)
    ensures pending == Count(accounts)
  {
    pending := 0;
    var rest := accounts;
    while rest.Keys != {}
      invariant pending + Count(rest) == Count(accounts)
      decreases |rest|
    {
      var a :| a in rest.Keys;
      CountTake(rest, a);
      pending := pending + |rest[a].txs|;
      rest := rest - {a};
    }
    assert Pairs(rest) == {};
  }

  /** Cutting the remote accounts to `level` leaves too many transactions. */
  ghost predicate Overfull(accounts0: Accounts, locals: set<Address>, level: nat, globalSlots: nat) {
    exists accounts {:trigger TooManyAt(accounts0, locals, level, globalSlots, accounts)} ::
      TooManyAt(accounts0, locals, level, globalSlots, accounts)
  }

  ghost predicate TooManyAt(accounts0: Accounts, locals: set<Address>, level: nat, globalSlots: nat, accounts: Accounts)
  {
    AtLevel(accounts0, locals, level, accounts) && Count(accounts) > globalSlots
  }

  /** Going down from `level` to `level'` was needed: stopping one level earlier would leave too many. */
  ghost predicate Tight(accounts0: Accounts, locals: set<Address>, level: nat, level': nat, globalSlots: nat) {
    level' < level ==> Overfull(accounts0, locals, level' + 1, globalSlots)
  }

  lemma TightStep(accounts0: Accounts, locals: set<Address>, level: nat, next: nat, globalSlots: nat,
                  accounts: Accounts)
    requires AtLevel(accounts0, locals, next + 1, accounts) && Count(accounts) > globalSlots
    ensures Tight(accounts0, locals, level, next, globalSlots)
  {
    assert TooManyAt(accounts0, locals, next + 1, globalSlots, accounts);
  }

  // ---------- A round ----------

  /** Where a run stands: some of a round at `level` done, exactly what is gone recorded, the count right. */
  ghost predicate During(accounts0: Accounts, locals: set<Address>, level: nat, done: set<Address>,
                         accounts: Accounts, pending: nat, dropped: set<Tx>) {
    && Midway(accounts0, locals, level, done, accounts)
    && pending == Count(accounts)
    && dropped == Gone(accounts0, accounts)
  }

  lemma GoneOneMore(accounts0: Accounts, accounts: Accounts, a: Address, n: nat)
    requires a in accounts0 && a in accounts && n in accounts[a].txs && n in accounts0[a].txs
    ensures Gone(accounts0, accounts[a := Without(accounts[a], n)]) == Gone(accounts0, accounts) + {accounts0[a].txs[n]}
  {
    var after := accounts[a := Without(accounts[a], n)];
    forall t | t in Gone(accounts0, after) ensures t in Gone(accounts0, accounts) + {accounts0[a].txs[n]} {
      var b, k :| b in accounts0 && k in accounts0[b].txs && !(b in after && k in after[b].txs)
        && t == accounts0[b].txs[k];
    }
  }

  lemma MidwayOneMore(accounts0: Accounts, locals: set<Address>, level: nat, done: set<Address>, accounts: Accounts,
                      a: Address)
    requires Midway(accounts0, locals, level, done, accounts)
    requires a in accounts0 && a !in locals && a !in done && 0 < level <= |accounts0[a].txs|
    ensures var x := accounts[a];
            && |x.txs| == level && HighestOf(x.txs) in accounts0[a].txs
            && accounts0[a].txs[HighestOf(x.txs)] == x.txs[HighestOf(x.txs)]
            && Midway(accounts0, locals, level, done + {a}, accounts[a := Without(x, HighestOf(x.txs))])
  {
    assert MidwayAt(accounts0, locals, level, done, accounts, a);
    CutDeeper(accounts0[a], level - 1);
    CutEvicts(accounts0[a], level);
    var accounts' := accounts[a := Without(accounts[a], HighestOf(accounts[a].txs))];
    forall b | b in accounts0 ensures MidwayAt(accounts0, locals, level, done + {a}, accounts', b) {
      assert MidwayAt(accounts0, locals, level, done, accounts, b);
    }
  }

  lemma SameHighest(m: Txs, n: nat)
    requires IsHighest(n, m)
    ensures m != map[] && n == HighestOf(m)
  {
  }

  /** One offender capped one shorter. */
  method DropOne(accounts: Accounts, a: Address, pending: nat, dropped: set<Tx>,
                 ghost accounts0: Accounts, ghost locals: set<Address>, ghost level: nat, ghost done: set<Address>)
    returns (accounts': Accounts, pending': nat, dropped': set<Tx>)
    requires During(accounts0, locals, level, done, accounts, pending, dropped)
    requires a in accounts0 && a !in locals && a !in done && 0 < level <= |accounts0[a].txs|
    ensures During(accounts0, locals, level, done + {a}, accounts', pending', dropped')
  {
    MidwayOneMore(accounts0, locals, level, done, accounts, a);
    var x := accounts[a];
    HighestExists(x.txs);
    var n :| n in x.txs.Keys && forall k | k in x.txs.Keys :: k <= n;
    SameHighest(x.txs, n);
    PairsWithout(accounts, a, n);
    GoneOneMore(accounts0, accounts, a, n);
    accounts' := accounts[a := Without(x, n)];
    dropped', pending' := dropped + {x.txs[n]}, pending - 1;
  }

  ghost predicate IsPrefixSet(done: set<Address>, s: seq<Address>, i: nat) {
    i <= |s| && done == set j | 0 <= j < i :: s[j]
  }

  lemma PrefixGrows(done: set<Address>, s: seq<Address>, i: nat)
    requires i < |s| && Distinct(s) && IsPrefixSet(done, s, i)
    ensures s[i] in s && s[i] !in done && IsPrefixSet(done + {s[i]}, s, i + 1)
  {
  }

  /** The offenders had at least `level` transactions each, all other remote accounts at most `floor`. */
  ghost predicate Separates(accounts0: Accounts, locals: set<Address>, offenders: seq<Address>, level: nat, floor: nat)
  {
    && Distinct(offenders) && offenders != [] && floor <= level
    && (forall a {:trigger RemoteWith(accounts0, locals, level, a)} | a in offenders ::
          RemoteWith(accounts0, locals, level, a))
    && (forall a {:trigger AtMost(accounts0, floor, a)} | a in accounts0 && a !in locals && a !in offenders ::
          AtMost(accounts0, floor, a))
  }

  ghost predicate RemoteWith(accounts0: Accounts, locals: set<Address>, level: nat, a: Address) {
    a in accounts0 && a !in locals && |accounts0[a].txs| >= level
  }

  ghost predicate AtMost(accounts0: Accounts, floor: nat, a: Address) { a in accounts0 ==> |accounts0[a].txs| <= floor }

  lemma RoundDoneAt(accounts0: Accounts, locals: set<Address>, level: nat, next: nat, floor: nat, done: set<Address>,
                    accounts: Accounts, a: Address)
    requires a in accounts0 && MidwayAt(accounts0, locals, level, done, accounts, a) && floor < level == next + 1
    requires a in locals || a in done || AtMost(accounts0, floor, a)
    ensures MidwayAt(accounts0, locals, next, {}, accounts, a)
  {
  }

  lemma RoundDone(accounts0: Accounts, locals: set<Address>, offenders: seq<Address>, level: nat, next: nat, floor: nat,
                  done: set<Address>, accounts: Accounts)
    requires Separates(accounts0, locals, offenders, level, floor) && floor < level == next + 1
    requires IsPrefixSet(done, offenders, |offenders|) && Midway(accounts0, locals, level, done, accounts)
    ensures AtLevel(accounts0, locals, next, accounts)
  {
    forall a | a in accounts0 ensures MidwayAt(accounts0, locals, next, {}, accounts, a) {
      assert MidwayAt(accounts0, locals, level, done, accounts, a);
      if a !in locals && a !in offenders { assert AtMost(accounts0, floor, a); }
      RoundDoneAt(accounts0, locals, level, next, floor, done, accounts, a);
    }
  }

  lemma SeparatesLower(accounts0: Accounts, locals: set<Address>, offenders: seq<Address>, level: nat, next: nat,
                       floor: nat)
    requires Separates(accounts0, locals, offenders, level, floor) && floor <= next <= level
    ensures Separates(accounts0, locals, offenders, next, floor)
  {
    forall a | a in offenders ensures RemoteWith(accounts0, locals, next, a) {
      assert RemoteWith(accounts0, locals, level, a);
    }
  }

  /** The length of the last offender's list, which the loops compare with their floor. */
  function SizeOfLast(accounts: Accounts, offenders: seq<Address>): nat {
    if offenders != [] && offenders[|offenders| - 1] in accounts then |accounts[offenders[|offenders| - 1]].txs| else 0
  }

  lemma LastSize(accounts0: Accounts, locals: set<Address>, offenders: seq<Address>, level: nat, floor: nat,
                 accounts: Accounts)
    requires Separates(accounts0, locals, offenders, level, floor) && AtLevel(accounts0, locals, level, accounts)
    ensures SizeOfLast(accounts, offenders) == level
  {
    var last := offenders[|offenders| - 1];
    assert last in offenders;
    assert RemoteWith(accounts0, locals, level, last);
    assert MidwayAt(accounts0, locals, level, {}, accounts, last);
    CutSize(accounts0[last], level);
  }

  /** Every offender capped one shorter. */
  method Round(accounts: Accounts, offenders: seq<Address>, pending: nat, dropped: set<Tx>, ghost accounts0: Accounts,
               ghost locals: set<Address>, ghost level: nat, ghost next: nat, ghost floor: nat)
    returns (accounts': Accounts, pending': nat, dropped': set<Tx>)
    requires During(accounts0, locals, level, {}, accounts, pending, dropped)
    requires Separates(accounts0, locals, offenders, level, floor) && floor < level == next + 1
    ensures During(accounts0, locals, next, {}, accounts', pending', dropped')
    ensures Separates(accounts0, locals, offenders, next, floor) && SizeOfLast(accounts', offenders) == next
  {
    accounts', pending', dropped' := accounts, pending, dropped;
    ghost var done: set<Address> := {};
    for i := 0 to |offenders|
      invariant During(accounts0, locals, level, done, accounts', pending', dropped')
      invariant IsPrefixSet(done, offenders, i)
    {
      PrefixGrows(done, offenders, i);
      assert RemoteWith(accounts0, locals, level, offenders[i]);
      accounts', pending', dropped' := DropOne(accounts', offenders[i], pending', dropped', accounts0, locals, level,
                                               done);
      done := done + {offenders[i]};
    }
    RoundDone(accounts0, locals, offenders, level, next, floor, done, accounts');
    SeparatesLower(accounts0, locals, offenders, level, next, floor);
    LastSize(accounts0, locals, offenders, next, floor, accounts');
  }

  /** The loops that lower a group of offenders together, while the pool is too full and they are above `floor`. */
  method LowerTo(accounts: Accounts, offenders: seq<Address>, pending: nat, dropped: set<Tx>, globalSlots: nat,
                 floor: nat, ghost accounts0: Accounts, ghost locals: set<Address>, ghost level: nat)
    returns (accounts': Accounts, pending': nat, dropped': set<Tx>, ghost level': nat)
    requires During(accounts0, locals, level, {}, accounts, pending, dropped)
    requires Separates(accounts0, locals, offenders, level, floor)
    ensures During(accounts0, locals, level', {}, accounts', pending', dropped') && floor <= level' <= level
    ensures Separates(accounts0, locals, offenders, level', floor)
    ensures pending' <= globalSlots || level' == floor
    ensures Tight(accounts0, locals, level, level', globalSlots)
  {
    accounts', pending', dropped', level' := accounts, pending, dropped, level;
    LastSize(accounts0, locals, offenders, level, floor, accounts);
    while pending' > globalSlots && SizeOfLast(accounts', offenders) > floor
      invariant During(accounts0, locals, level', {}, accounts', pending', dropped') && floor <= level' <= level
      invariant Separates(accounts0, locals, offenders, level', floor)
      invariant SizeOfLast(accounts', offenders) == level'
      invariant Tight(accounts0, locals, level, level', globalSlots)
      decreases level'
    {
      ghost var next: nat := level' - 1;
      TightStep(accounts0, locals, level, next, globalSlots, accounts');
      accounts', pending', dropped' := Round(accounts', offenders, pending', dropped', accounts0, locals, level', next,
                                             floor);
      level' := next;
    }
  }

  // ---------- The evictor ----------

  ghost predicate RemoteAtMost(accounts0: Accounts, locals: set<Address>, n: nat) {
    forall a | a in accounts0 && a !in locals :: |accounts0[a].txs| <= n
  }

  lemma {:induction false} SizeBound(accounts0: Accounts, locals: set<Address>) returns (n: nat)
    ensures RemoteAtMost(accounts0, locals, n)
    decreases |accounts0|
  {
    n := 0;
    if accounts0.Keys != {} {
      var a :| a in accounts0.Keys;
      var m := SizeBound(accounts0 - {a}, locals);
      n := if m < |accounts0[a].txs| then |accounts0[a].txs| else m;
      forall b | b in accounts0 && b !in locals ensures |accounts0[b].txs| <= n {
        assert b == a || b in accounts0 - {a};
      }
    }
  }

  /** A level that no remote account exceeds changes nothing. */
  lemma Untouched(accounts0: Accounts, locals: set<Address>, top: nat, level: nat, globalSlots: nat)
    requires RemoteAtMost(accounts0, locals, level)
    ensures During(accounts0, locals, level, {}, accounts0, Count(accounts0), {})
    ensures Count(accounts0) > globalSlots || top <= level ==> Tight(accounts0, locals, top, level, globalSlots)
  {
    forall a | a in accounts0
      ensures MidwayAt(accounts0, locals, level, {}, accounts0, a)
              && MidwayAt(accounts0, locals, level + 1, {}, accounts0, a)
    {
    }
    assert TooManyAt(accounts0, locals, level + 1, globalSlots, accounts0) <==> Count(accounts0) > globalSlots;
    assert Gone(accounts0, accounts0) == {};
  }

  /** Offenders and remaining spammers together are the remote accounts above their guaranteed slots. */
  ghost predicate Sorted(accounts0: Accounts, locals: set<Address>, offenders: seq<Address>, spammers: set<Address>,
                         accountSlots: nat)
  {
    && Distinct(offenders)
    && (forall a | a in offenders ::
          a in accounts0 && a !in locals && a !in spammers && |accounts0[a].txs| > accountSlots)
    && (forall a | a in spammers :: a in accounts0 && a !in locals && |accounts0[a].txs| > accountSlots)
    && (forall a | a in accounts0 && a !in locals && a !in offenders && a !in spammers ::
          |accounts0[a].txs| <= accountSlots)
  }

  /** Offenders are at the level, remaining spammers not above it. */
  ghost predicate Split(accounts0: Accounts, offenders: seq<Address>, spammers: set<Address>, level: nat) {
    && (forall a | a in offenders :: a in accounts0 && |accounts0[a].txs| >= level)
    && (forall a | a in spammers :: a in accounts0 && |accounts0[a].txs| <= level)
  }

  lemma SpammerSizes(accounts0: Accounts, locals: set<Address>, offenders: seq<Address>, spammers: set<Address>,
                     accountSlots: nat, level: nat, accounts: Accounts)
    requires Sorted(accounts0, locals, offenders, spammers, accountSlots)
             && Split(accounts0, offenders, spammers, level)
    requires AtLevel(accounts0, locals, level, accounts)
    ensures forall a | a in spammers :: a in accounts && a in accounts0 && accounts[a] == accounts0[a]
  {
    forall a | a in spammers ensures a in accounts && accounts[a] == accounts0[a] {
      assert MidwayAt(accounts0, locals, level, {}, accounts, a);
    }
  }

  lemma PopKeepsSorted(accounts0: Accounts, locals: set<Address>, offenders: seq<Address>, spammers: set<Address>,
                       accountSlots: nat, level: nat, next: Address)
    requires Sorted(accounts0, locals, offenders, spammers, accountSlots)
             && Split(accounts0, offenders, spammers, level)
    requires next in spammers && forall b | b in spammers :: |accounts0[b].txs| <= |accounts0[next].txs|
    ensures Sorted(accounts0, locals, offenders + [next], spammers - {next}, accountSlots)
    ensures accountSlots < |accounts0[next].txs| <= level
    ensures Split(accounts0, offenders + [next], spammers - {next}, |accounts0[next].txs|)
    ensures offenders != [] ==> Separates(accounts0, locals, offenders, level, |accounts0[next].txs|)
    ensures offenders == [] ==> RemoteAtMost(accounts0, locals, |accounts0[next].txs|)
  {
    assert next !in offenders;
  }

  lemma AllPopped(accounts0: Accounts, locals: set<Address>, offenders: seq<Address>, accountSlots: nat, level: nat)
    requires Sorted(accounts0, locals, offenders, {}, accountSlots) && Split(accounts0, offenders, {}, level)
             && accountSlots <= level
    ensures offenders != [] ==> Separates(accounts0, locals, offenders, level, accountSlots)
    ensures offenders == [] ==> RemoteAtMost(accounts0, locals, accountSlots)
  {
  }

  method NextOffender(accounts: Accounts, spammers: set<Address>) returns (next: Address)
    requires spammers != {} && forall b | b in spammers :: b in accounts
    ensures next in spammers && forall b | b in spammers :: |accounts[b].txs| <= |accounts[next].txs|
  {
    next :| next in spammers;
    var rest := spammers - {next};
    while rest != {}
      invariant next in spammers && rest <= spammers
      invariant forall b | b in spammers - rest :: |accounts[b].txs| <= |accounts[next].txs|
    {
      var b :| b in rest;
      if |accounts[b].txs| > |accounts[next].txs| { next := b; }
      rest := rest - {b};
    }
  }

  /**
   The evictor ends at a level between the guaranteed slots and the largest remote list: every remote account
   keeps exactly its lowest nonces up to the level, local accounts keep everything, and what is missing is
   recorded as dropped. The pool then fits, or every remote account is down to its guaranteed slots; and
   stopping one level higher would have left too many.
   */
  method Evict(accounts0: Accounts, locals: set<Address>, globalSlots: nat, accountSlots: nat)
    returns (accounts: Accounts, dropped: set<Tx>, ghost level: nat)
    ensures AtLevel(accounts0, locals, level, accounts) && accountSlots <= level
    ensures dropped == Gone(accounts0, accounts)
    ensures Count(accounts) <= globalSlots || level == accountSlots
    ensures accounts == accounts0 || Overfull(accounts0, locals, level + 1, globalSlots)
    ensures Count(accounts0) <= globalSlots ==> accounts == accounts0
  {
    ghost var bound := SizeBound(accounts0, locals);
    ghost var top := bound + accountSlots;
    accounts, dropped, level := accounts0, {}, top;
    var pending: nat := CountPending(accounts);
    Untouched(accounts0, locals, top, top, globalSlots);
    if pending > globalSlots {
      accounts, dropped, level := Equalise(accounts0, locals, globalSlots, accountSlots, pending, top);
      NothingCut(accounts0, locals, top, level, accounts);
    }
  }

  /** Where the evictor stands between two offenders. */
  ghost predicate Evicting(accounts0: Accounts, locals: set<Address>, globalSlots: nat, accountSlots: nat, top: nat,
                           level: nat, offenders: seq<Address>, spammers: set<Address>, accounts: Accounts,
                           pending: nat, dropped: set<Tx>)
  {
    && During(accounts0, locals, level, {}, accounts, pending, dropped) && accountSlots <= level <= top
    && Tight(accounts0, locals, top, level, globalSlots)
    && Sorted(accounts0, locals, offenders, spammers, accountSlots)
    && (pending > globalSlots ==> Split(accounts0, offenders, spammers, level))
    && (offenders == [] ==> accounts == accounts0)
  }

  /** The next largest account joins the offenders, after those before it have been lowered to its size. */
  method AddOffender(accounts: Accounts, offenders: seq<Address>, spammers: set<Address>, pending: nat,
                     dropped: set<Tx>, globalSlots: nat, ghost accounts0: Accounts, ghost locals: set<Address>,
                     ghost accountSlots: nat, ghost top: nat, ghost level: nat)
    returns (accounts': Accounts, pending': nat, dropped': set<Tx>, next: Address, ghost level': nat)
    requires Evicting(accounts0, locals, globalSlots, accountSlots, top, level, offenders, spammers, accounts, pending,
                      dropped)
    requires pending > globalSlots && spammers != {}
    ensures next in spammers
    ensures Evicting(accounts0, locals, globalSlots, accountSlots, top, level', offenders + [next], spammers - {next},
                     accounts', pending', dropped')
  {
    SpammerSizes(accounts0, locals, offenders, spammers, accountSlots, level, accounts);
    next := NextOffender(accounts, spammers);
    PopKeepsSorted(accounts0, locals, offenders, spammers, accountSlots, level, next);
    var threshold := |accounts[next].txs|;
    if offenders != [] {
      accounts', pending', dropped', level' :=
        LowerTo(accounts, offenders, pending, dropped, globalSlots, threshold, accounts0, locals, level);
      TightChain(accounts0, locals, top, level, level', globalSlots);
    } else {
      accounts', pending', dropped', level' := accounts, pending, dropped, threshold;
      Untouched(accounts0, locals, top, level', globalSlots);
      assert dropped == {};
    }
  }

  /** What the evictor does to a pool that is too full. */
  method Equalise(accounts0: Accounts, locals: set<Address>, globalSlots: nat, accountSlots: nat, pending0: nat,
                  ghost top: nat)
    returns (accounts: Accounts, dropped: set<Tx>, ghost level: nat)
    requires pending0 == Count(accounts0) > globalSlots && RemoteAtMost(accounts0, locals, top) && accountSlots <= top
    ensures AtLevel(accounts0, locals, level, accounts) && accountSlots <= level <= top
    ensures dropped == Gone(accounts0, accounts)
    ensures Count(accounts) <= globalSlots || level == accountSlots
    ensures Tight(accounts0, locals, top, level, globalSlots)
  {
    accounts, dropped, level := accounts0, {}, top;
    var pending: nat := pending0;
    Untouched(accounts0, locals, top, top, globalSlots);
    var spammers := set a | a in accounts && a !in locals && |accounts[a].txs| > accountSlots;
    var offenders := [];
    while pending > globalSlots && spammers != {}
      invariant Evicting(accounts0, locals, globalSlots, accountSlots, top, level, offenders, spammers, accounts,
                         pending, dropped)
      decreases |spammers|
    {
      var next;
      accounts, pending, dropped, next, level :=
        AddOffender(accounts, offenders, spammers, pending, dropped, globalSlots, accounts0, locals, accountSlots, top,
                    level);
      offenders, spammers := offenders + [next], spammers - {next};
    }
    if pending > globalSlots {
      accounts, dropped, level := LowerAll(accounts, offenders, pending, dropped, globalSlots, accountSlots, accounts0,
                                           locals, top, level);
    }
  }

  /** When all spammers are offenders and the pool is still too full, they are lowered to their guaranteed slots. */
  method LowerAll(accounts: Accounts, offenders: seq<Address>, pending: nat, dropped: set<Tx>, globalSlots: nat,
                  accountSlots: nat, ghost accounts0: Accounts, ghost locals: set<Address>, ghost top: nat,
                  ghost level: nat)
    returns (accounts': Accounts, dropped': set<Tx>, ghost level': nat)
    requires Evicting(accounts0, locals, globalSlots, accountSlots, top, level, offenders, {}, accounts, pending,
                      dropped)
    requires pending > globalSlots
    ensures AtLevel(accounts0, locals, level', accounts') && accountSlots <= level' <= top
    ensures dropped' == Gone(accounts0, accounts')
    ensures Count(accounts') <= globalSlots || level' == accountSlots
    ensures Tight(accounts0, locals, top, level', globalSlots)
  {
    AllPopped(accounts0, locals, offenders, accountSlots, level);
    if offenders != [] {
      var pending';
      accounts', pending', dropped', level' :=
        LowerTo(accounts, offenders, pending, dropped, globalSlots, accountSlots, accounts0, locals, level);
      TightChain(accounts0, locals, top, level, level', globalSlots);
    } else {
      accounts', dropped', level' := accounts, dropped, accountSlots;
      Untouched(accounts0, locals, top, level', globalSlots);
    }
  }

  lemma NothingCut(accounts0: Accounts, locals: set<Address>, top: nat, level: nat, accounts: Accounts)
    requires RemoteAtMost(accounts0, locals, top) && AtLevel(accounts0, locals, level, accounts)
    ensures top <= level ==> accounts == accounts0
  {
    forall a | a in accounts0 ensures top <= level ==> accounts[a] == accounts0[a] {
      assert MidwayAt(accounts0, locals, level, {}, accounts, a);
    }
  }

  /**
   What a level means for each account: local ones are untouched; a remote one keeps its lowest nonces, as many
   as the level allows, and its pending nonce does not point past the first transaction it lost.
   */
  lemma LevelMeans(accounts0: Accounts, locals: set<Address>, level: nat, accounts: Accounts, a: Address)
    requires AtLevel(accounts0, locals, level, accounts) && a in accounts0
    ensures a in accounts && (a in locals ==> accounts[a] == accounts0[a])
    ensures a !in locals ==> |accounts[a].txs| == Min(|accounts0[a].txs|, level) && Evicted(accounts0[a], accounts[a])
  {
    assert MidwayAt(accounts0, locals, level, {}, accounts, a);
    CutSize(accounts0[a], level);
    CutEvicts(accounts0[a], level);
  }

  lemma TightChain(accounts0: Accounts, locals: set<Address>, top: nat, from: nat, level: nat, globalSlots: nat)
    requires Tight(accounts0, locals, top, from, globalSlots) && Tight(accounts0, locals, from, level, globalSlots)
    requires level <= from <= top
    ensures Tight(accounts0, locals, top, level, globalSlots)
  {
  }
}
