/**
 Transactions and plain nonce-to-transaction maps: the simple picture that the account lists of the
 transaction pool (core/tx_list.go) keep in several redundant forms.
 */
module TxMap {
  import opened Basics

  const BLOCK_SIGNERS: Address := 0x89
  const RANDOMIZE_SMC: Address := 0x90

  datatype Tx = Tx(hash: nat, from: Address, nonce: nat, price: nat, gas: nat, value: nat, to: Option<Address>) {
    /** Transaction.Cost. */
    function Cost(): nat { price * gas + value }

    /** Transaction.IsSpecialTransaction. */
    predicate IsSpecial() { to == Some(RANDOMIZE_SMC) || to == Some(BLOCK_SIGNERS) }
  }

  type Txs = map<nat, Tx>

  /** Transactions are filed under their nonces. */
  predicate Keyed(m: Txs) {
    forall n | n in m :: m[n].nonce == n
  }

  /** The transactions of `m` with nonce below, or from, a threshold. */
  function Below(m: Txs, n: nat): Txs { map k | k in m && k < n :: m[k] }
  function From(m: Txs, n: nat): Txs { map k | k in m && k >= n :: m[k] }

  predicate Increasing(s: seq<Tx>) {
    forall i, j | 0 <= i < j < |s| :: s[i].nonce < s[j].nonce
  }

  /** `s` lists the transactions of `m` in nonce order. */
  ghost predicate Lists(s: seq<Tx>, m: Txs) {
    && Increasing(s)
    && (forall i | 0 <= i < |s| :: s[i].nonce in m && m[s[i].nonce] == s[i])
    && (forall n | n in m :: m[n] in s)
  }

  lemma ListsTail(s: seq<Tx>, m: Txs)
    requires Keyed(m) && Lists(s, m) && s != []
    ensures Keyed(m - {s[0].nonce}) && Lists(s[1..], m - {s[0].nonce})
    ensures forall n | n in m :: s[0].nonce <= n
  {
    var m', t := m - {s[0].nonce}, s[1..];
    assert forall i | 0 <= i < |t| :: t[i] == s[i + 1];
    forall n | n in m ensures s[0].nonce <= n && (n in m' ==> m'[n] in t) {
      var i :| 0 <= i < |s| && s[i] == m[n];
      if i > 0 { assert t[i - 1] == m[n]; }
    }
  }

  lemma ListsNothing(m: Txs)
    requires Lists([], m)
    ensures m == map[]
  {
    assert forall n | n in m :: m[n] in [];
  }

  lemma ListsSomething(s: seq<Tx>, m: Txs)
    requires Lists(s, m)
    ensures s != [] ==> m != map[]
  {
    if s != [] { assert s[0].nonce in m; }
  }

  lemma SameHead(s: seq<Tx>, s': seq<Tx>, m: Txs)
    requires Keyed(m) && Lists(s, m) && Lists(s', m) && s != []
    ensures s' != [] && s'[0] == s[0]
  {
    assert m[s[0].nonce] in s';
    ListsTail(s, m);
    ListsTail(s', m);
  }

  /** There is only one way to list a map. */
  lemma {:induction false} ListsUnique(s: seq<Tx>, s': seq<Tx>, m: Txs)
    requires Keyed(m) && Lists(s, m) && Lists(s', m)
    ensures s == s'
    decreases |s|
  {
    if s == [] {
      ListsSomething(s', m);
      ListsNothing(m);
    } else {
      SameHead(s, s', m);
      ListsTail(s, m);
      ListsTail(s', m);
      ListsUnique(s[1..], s'[1..], m - {s[0].nonce});
      SameHeadAndTail(s, s');
    }
  }

  lemma SameHeadAndTail(s: seq<Tx>, s': seq<Tx>)
    requires s != [] && s' != [] && s[0] == s'[0] && s[1..] == s'[1..]
    ensures s == s'
  {
    assert s == [s[0]] + s[1..] && s' == [s'[0]] + s'[1..];
  }

  lemma {:induction false} ListsSize(s: seq<Tx>, m: Txs)
    requires Keyed(m) && Lists(s, m)
    ensures |s| == |m|
    decreases |s|
  {
    if s == [] {
      ListsNothing(m);
    } else {
      ListsTail(s, m);
      ListsSize(s[1..], m - {s[0].nonce});
      assert m.Keys == (m - {s[0].nonce}).Keys + {s[0].nonce};
    }
  }

  /** The part of a list below a nonce is a prefix, and lists the part of the map below it. */
  lemma ListsFront(s: seq<Tx>, m: Txs, p: nat, n: nat)
    requires Lists(s, m) && p <= |s|
    requires forall i | 0 <= i < p :: s[i].nonce < n
    requires forall i | p <= i < |s| :: s[i].nonce >= n
    requires Keyed(m)
    ensures Lists(s[..p], Below(m, n))
  {
    forall k | k in Below(m, n) ensures Below(m, n)[k] in s[..p] {
      var i :| 0 <= i < |s| && s[i] == m[k];
      assert s[..p][i] == m[k];
    }
  }

  lemma ListsBack(s: seq<Tx>, m: Txs, p: nat, n: nat)
    requires Lists(s, m) && p <= |s|
    requires forall i | 0 <= i < p :: s[i].nonce < n
    requires forall i | p <= i < |s| :: s[i].nonce >= n
    requires Keyed(m)
    ensures Lists(s[p..], From(m, n))
  {
    var t := s[p..];
    assert forall i | 0 <= i < |t| :: t[i] == s[p + i];
    forall k | k in From(m, n) ensures From(m, n)[k] in t {
      var i :| 0 <= i < |s| && s[i] == m[k];
      assert t[i - p] == m[k];
    }
  }

  lemma ListsSplit(s: seq<Tx>, m: Txs, p: nat, n: nat)
    requires Keyed(m) && Lists(s, m) && p <= |s|
    requires forall i | 0 <= i < p :: s[i].nonce < n
    requires forall i | p <= i < |s| :: s[i].nonce >= n
    ensures Lists(s[..p], Below(m, n)) && Lists(s[p..], From(m, n))
  {
    ListsFront(s, m, p, n);
    ListsBack(s, m, p, n);
  }

  /** A listing splits somewhere at every nonce. */
  lemma {:induction false} SplitPoint(s: seq<Tx>, n: nat) returns (p: nat)
    requires Increasing(s)
    ensures p <= |s|
    ensures forall i | 0 <= i < p :: s[i].nonce < n
    ensures forall i | p <= i < |s| :: s[i].nonce >= n
  {
    p := 0;
    while p < |s| && s[p].nonce < n
      invariant p <= |s| && forall i | 0 <= i < p :: s[i].nonce < n
    {
      p := p + 1;
    }
  }

  /** If the front of a list is known to list what lies below a nonce, dropping it lists the rest. */
  lemma DropBelow(s: seq<Tx>, removed: seq<Tx>, m: Txs, n: nat)
    requires Keyed(m) && Lists(s, m) && Lists(removed, Below(m, n))
    ensures |removed| <= |s| && s[..|removed|] == removed && Lists(s[|removed|..], From(m, n))
  {
    var p := SplitPoint(s, n);
    ListsSplit(s, m, p, n);
    ListsUnique(s[..p], removed, Below(m, n));
  }
}
