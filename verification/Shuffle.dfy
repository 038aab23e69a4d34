/**
 The order of the second validators (contracts/utils.go, GenM2FromRandomize): a shuffle that leaves one single cycle,
 so that no masternode is assigned to itself.
 */
module Shuffle {

  function Next(c: seq<nat>, t: nat): nat
    requires t < |c|
  {
    if t + 1 < |c| then c[t + 1] else c[0]
  }

  /** Following `p` from the first element of `c` runs through `c` and back. */
  ghost predicate IsCycle(p: seq<nat>, c: seq<nat>) {
    && c != [] && (forall t | 0 <= t < |c| :: c[t] < |p|)
    && forall t | 0 <= t < |c| :: p[c[t]] == Next(c, t)
  }

  function Upto(n: nat): seq<nat> { if n == 0 then [] else Upto(n - 1) + [n - 1] }

  lemma {:induction false} UptoAt(n: nat)
    ensures |Upto(n)| == n && forall i | 0 <= i < n :: Upto(n)[i] == i
  {
    if n > 0 { UptoAt(n - 1); }
  }

  ghost function Bag(cycles: seq<seq<nat>>): multiset<nat> {
    if cycles == [] then multiset{} else Bag(cycles[..|cycles| - 1]) + multiset(cycles[|cycles| - 1])
  }

  /** `cycles` are the cycles of `p`, each starting at its own index, and together hold every position once. */
  ghost predicate Cycles(p: seq<nat>, cycles: seq<seq<nat>>) {
    && (forall k | 0 <= k < |cycles| :: IsCycle(p, cycles[k]) && cycles[k][0] == k)
    && Bag(cycles) == multiset(Upto(|p|))
  }

  // ---------- Merging two cycles ----------

  /** The cycle of `i` spliced into the cycle of `r`. */
  function Spliced(cr: seq<nat>, ci: seq<nat>): seq<nat>
    requires cr != [] && ci != []
  {
    ci[0 := cr[0]] + cr[0 := ci[0]]
  }

  function Swapped(p: seq<nat>, r: nat, i: nat): seq<nat>
    requires r < |p| && i < |p|
  {
    p[r := p[i]][i := p[r]]
  }

  ghost predicate NoRepeats(c: seq<nat>) { forall t, u | 0 <= t < u < |c| :: c[t] != c[u] }

  ghost predicate Apart(c: seq<nat>, d: seq<nat>) { forall t, u | 0 <= t < |c| && 0 <= u < |d| :: c[t] != d[u] }

  /** One place of the spliced cycle, and what follows there. */
  lemma SplicedAt(cr: seq<nat>, ci: seq<nat>, t: nat)
    requires cr != [] && ci != [] && t < |ci| + |cr|
    ensures var c := Spliced(cr, ci);
            && |c| == |ci| + |cr|
            && c[t] == (if t < |ci| then ci[0 := cr[0]][t] else cr[0 := ci[0]][t - |ci|])
            && Next(c, t) == if t < |ci| then Next(ci, t) else Next(cr, t - |ci|)
  {
    var c := Spliced(cr, ci);
    assert c[|ci|] == cr[0 := ci[0]][0];
    if |ci| < t + 1 < |c| { assert c[t + 1] == cr[0 := ci[0]][t + 1 - |ci|]; }
  }

  lemma SwappedAt(p: seq<nat>, r: nat, i: nat, x: nat)
    requires r < |p| && i < |p| && x < |p|
    ensures Swapped(p, r, i)[x] == if x == i then p[r] else if x == r then p[i] else p[x]
  {
  }

  lemma SpliceStep(p: seq<nat>, cr: seq<nat>, ci: seq<nat>, t: nat)
    requires IsCycle(p, cr) && IsCycle(p, ci) && NoRepeats(cr) && NoRepeats(ci) && Apart(cr, ci) && t < |ci| + |cr|
    ensures var q, c := Swapped(p, cr[0], ci[0]), Spliced(cr, ci);
            |c| == |ci| + |cr| && c[t] < |q| && q[c[t]] == Next(c, t)
  {
    SplicedAt(cr, ci, t);
    if t < |ci| {
      SwappedAt(p, cr[0], ci[0], if t == 0 then cr[0] else ci[t]);
      assert cr[0] != ci[t] && (t > 0 ==> ci[0] != ci[t]);
    } else {
      var u := t - |ci|;
      SwappedAt(p, cr[0], ci[0], if u == 0 then ci[0] else cr[u]);
      assert cr[u] != ci[0] && (u > 0 ==> cr[0] != cr[u]);
    }
  }

  lemma SpliceIsCycle(p: seq<nat>, cr: seq<nat>, ci: seq<nat>)
    requires IsCycle(p, cr) && IsCycle(p, ci) && NoRepeats(cr) && NoRepeats(ci) && Apart(cr, ci)
    ensures IsCycle(Swapped(p, cr[0], ci[0]), Spliced(cr, ci))
  {
    var q, c := Swapped(p, cr[0], ci[0]), Spliced(cr, ci);
    forall t | 0 <= t < |c| ensures c[t] < |q| && q[c[t]] == Next(c, t) { SpliceStep(p, cr, ci, t); }
  }

  lemma SwapKeepsCycle(p: seq<nat>, c: seq<nat>, r: nat, i: nat)
    requires IsCycle(p, c) && r < |p| && i < |p| && (forall t | 0 <= t < |c| :: c[t] != r && c[t] != i)
    ensures IsCycle(Swapped(p, r, i), c)
  {
  }

  lemma SpliceBag(cr: seq<nat>, ci: seq<nat>)
    requires cr != [] && ci != []
    ensures multiset(Spliced(cr, ci)) == multiset(cr) + multiset(ci)
  {
    assert multiset(ci[0 := cr[0]]) == multiset(ci) - multiset{ci[0]} + multiset{cr[0]};
    assert multiset(cr[0 := ci[0]]) == multiset(cr) - multiset{cr[0]} + multiset{ci[0]};
  }

  lemma {:induction false} BagUpdate(cycles: seq<seq<nat>>, k: nat, c: seq<nat>, x: nat)
    requires k < |cycles|
    ensures Bag(cycles[k := c])[x] + multiset(cycles[k])[x] == Bag(cycles)[x] + multiset(c)[x]
    decreases |cycles|
  {
    var last := |cycles| - 1;
    if k < last {
      BagUpdate(cycles[..last], k, c, x);
      assert cycles[k := c][..last] == cycles[..last][k := c];
    } else {
      assert cycles[k := c][..last] == cycles[..last];
    }
  }

  lemma {:induction false} BagHolds(cycles: seq<seq<nat>>, k: nat, x: nat)
    requires k < |cycles|
    ensures Bag(cycles)[x] >= multiset(cycles[k])[x]
    decreases |cycles|
  {
    if k < |cycles| - 1 { BagHolds(cycles[..|cycles| - 1], k, x); }
  }

  lemma {:induction false} BagHoldsTwo(cycles: seq<seq<nat>>, k: nat, l: nat, x: nat)
    requires k < l < |cycles|
    ensures Bag(cycles)[x] >= multiset(cycles[k])[x] + multiset(cycles[l])[x]
    decreases |cycles|
  {
    var last := |cycles| - 1;
    if l < last { BagHoldsTwo(cycles[..last], k, l, x); } else { BagHolds(cycles[..last], k, x); }
  }

  lemma {:induction false} UptoOnce(n: nat, x: nat)
    ensures multiset(Upto(n))[x] == if x < n then 1 else 0
  {
    if n > 0 { UptoOnce(n - 1, x); }
  }

  lemma OccursTwice(c: seq<nat>, t: nat, u: nat)
    requires t < u < |c| && c[t] == c[u]
    ensures multiset(c)[c[t]] >= 2
  {
    assert c == c[..u] + c[u..] && c[..u][t] == c[t] && c[u..][0] == c[u];
  }

  lemma CycleNoRepeats(p: seq<nat>, cycles: seq<seq<nat>>, k: nat)
    requires Cycles(p, cycles) && k < |cycles|
    ensures NoRepeats(cycles[k])
  {
    forall t, u | 0 <= t < u < |cycles[k]| ensures cycles[k][t] != cycles[k][u] {
      var x := cycles[k][t];
      BagHolds(cycles, k, x);
      UptoOnce(|p|, x);
      if cycles[k][u] == x { OccursTwice(cycles[k], t, u); }
    }
  }

  lemma CyclesApart(p: seq<nat>, cycles: seq<seq<nat>>, k: nat, l: nat)
    requires Cycles(p, cycles) && k < l < |cycles|
    ensures Apart(cycles[k], cycles[l])
  {
    forall t, u | 0 <= t < |cycles[k]| && 0 <= u < |cycles[l]| ensures cycles[k][t] != cycles[l][u] {
      BagHoldsTwo(cycles, k, l, cycles[k][t]);
      UptoOnce(|p|, cycles[k][t]);
      assert cycles[k][t] in multiset(cycles[k]) && cycles[l][u] in multiset(cycles[l]);
    }
  }

  function Merged(cycles: seq<seq<nat>>, r: nat): seq<seq<nat>>
    requires r < |cycles| - 1 && cycles[r] != [] && cycles[|cycles| - 1] != []
  {
    cycles[..|cycles| - 1][r := Spliced(cycles[r], cycles[|cycles| - 1])]
  }

  lemma MergedBag(cycles: seq<seq<nat>>, r: nat)
    requires r < |cycles| - 1 && cycles[r] != [] && cycles[|cycles| - 1] != []
    ensures Bag(Merged(cycles, r)) == Bag(cycles)
  {
    var last := |cycles| - 1;
    SpliceBag(cycles[r], cycles[last]);
    forall x: nat ensures Bag(Merged(cycles, r))[x] == Bag(cycles)[x] {
      BagUpdate(cycles[..last], r, Spliced(cycles[r], cycles[last]), x);
    }
  }

  lemma OtherCycleKept(p: seq<nat>, cycles: seq<seq<nat>>, r: nat, i: nat, k: nat)
    requires Cycles(p, cycles) && r < i < |cycles| && k < |cycles| && k != r && k != i
    ensures r < |p| && i < |p| && IsCycle(Swapped(p, r, i), cycles[k])
  {
    if k < r { CyclesApart(p, cycles, k, r); } else { CyclesApart(p, cycles, r, k); }
    if k < i { CyclesApart(p, cycles, k, i); } else { CyclesApart(p, cycles, i, k); }
    assert cycles[r][0] == r && cycles[i][0] == i && IsCycle(p, cycles[r]) && IsCycle(p, cycles[i])
      && IsCycle(p, cycles[k]);
    SwapKeepsCycle(p, cycles[k], r, i);
  }

  lemma TwoCyclesSpliced(p: seq<nat>, cycles: seq<seq<nat>>, r: nat, i: nat)
    requires Cycles(p, cycles) && r < i < |cycles|
    ensures cycles[r] != [] && cycles[i] != [] && r < |p| && i < |p|
    ensures var c := Spliced(cycles[r], cycles[i]); IsCycle(Swapped(p, r, i), c) && c[0] == r
  {
    CycleNoRepeats(p, cycles, r);
    CycleNoRepeats(p, cycles, i);
    CyclesApart(p, cycles, r, i);
    assert IsCycle(p, cycles[r]) && IsCycle(p, cycles[i]) && cycles[r][0] == r && cycles[i][0] == i;
    SpliceIsCycle(p, cycles[r], cycles[i]);
  }

  /** Swapping the last unfixed position with an earlier one merges their cycles. */
  lemma SwapMerges(p: seq<nat>, cycles: seq<seq<nat>>, r: nat)
    requires Cycles(p, cycles) && r < |cycles| - 1 <= |p|
    ensures cycles[r] != [] && cycles[|cycles| - 1] != [] && r < |p| && |cycles| - 1 < |p|
    ensures Cycles(Swapped(p, r, |cycles| - 1), Merged(cycles, r))
  {
    var i := |cycles| - 1;
    TwoCyclesSpliced(p, cycles, r, i);
    MergedBag(cycles, r);
    var q, merged := Swapped(p, r, i), Merged(cycles, r);
    forall k | 0 <= k < |merged| ensures IsCycle(q, merged[k]) && merged[k][0] == k {
      if k == r {
        assert merged[k] == Spliced(cycles[r], cycles[i]);
      } else {
        assert merged[k] == cycles[k];
        OtherCycleKept(p, cycles, r, i, k);
      }
    }
  }

  // ---------- The shuffle ----------

  /** What rand.Intn may return in the round for position `i`. */
  predicate InRange(draws: seq<nat>) {
    forall i | 0 <= i < |draws| :: draws[i] < if i <= 1 then 1 else i
  }

  function Singles(n: nat): seq<seq<nat>> { seq(n, i requires 0 <= i => [i]) }

  lemma LastSingle(n: nat)
    requires n > 0
    ensures Singles(n)[..n - 1] == Singles(n - 1) && Singles(n)[n - 1] == [n - 1]
  {
  }

  lemma {:induction false} SinglesBag(n: nat)
    ensures Bag(Singles(n)) == multiset(Upto(n))
  {
    if n > 0 {
      SinglesBag(n - 1);
      LastSingle(n);
    }
  }

  /** NewSlice. */
  method NewSlice(n: nat) returns (s: array<nat>)
    ensures fresh(s) && s[..] == Upto(n)
  {
    s := new nat[n];
    for i := 0 to n
      invariant s[..i] == Upto(i)
    {
      s[i] := i;
      assert s[..i + 1] == s[..i] + [i];
    }
  }

  /** `m2` is one single cycle through all of 0..n-1. */
  ghost predicate SingleCycle(m2: seq<nat>, c: seq<nat>) {
    IsCycle(m2, c) && |c| == |m2| && multiset(c) == multiset(Upto(|m2|))
  }

  lemma SinglesAreCycles(n: nat)
    ensures Cycles(Upto(n), Singles(n))
  {
    SinglesBag(n);
    UptoAt(n);
  }

  /** A round: position `i` is swapped with an earlier one, except that position 0 stays. */
  ghost function AfterRound(cycles: seq<seq<nat>>, r: nat, i: nat): seq<seq<nat>> {
    if 0 < i == |cycles| - 1 && r < i && cycles[r] != [] && cycles[i] != [] then Merged(cycles, r) else cycles
  }

  lemma RoundMerges(p: seq<nat>, cycles: seq<seq<nat>>, r: nat, i: nat)
    requires Cycles(p, cycles) && |cycles| == i + 1 && i < |p| && r < if i <= 1 then 1 else i
    ensures Cycles(Swapped(p, r, i), AfterRound(cycles, r, i)) && |AfterRound(cycles, r, i)| == if i == 0 then 1 else i
  {
    if i > 0 {
      SwapMerges(p, cycles, r);
    } else {
      assert Swapped(p, 0, 0) == p;
    }
  }

  method Swap(a: array<nat>, r: nat, i: nat)
    requires r < a.Length && i < a.Length
    modifies a
    ensures a[..] == Swapped(old(a[..]), r, i)
  {
    var temp := a[r];
    a[r] := a[i];
    a[i] := temp;
  }

  /** One iteration of the loop, for position `i`: the validators above it are final and copied. */
  method Round(validators: array<nat>, m2: array<nat>, r: nat, i: nat)
    requires validators != m2 && validators.Length == m2.Length && r <= i < m2.Length
    requires forall j | i < j < m2.Length :: m2[j] == validators[j]
    modifies validators, m2
    ensures validators[..] == Swapped(old(validators[..]), r, i)
    ensures forall j | i <= j < m2.Length :: m2[j] == validators[j]
  {
    ghost var p := validators[..];
    Swap(validators, r, i);
    forall j | i < j < m2.Length ensures m2[j] == validators[j] { assert validators[..][j] == p[j]; }
    m2[i] := validators[i];
  }

  // ---------- Draws and results ----------

  /** The rounds for the positions below `i`, downwards. */
  function Shuffled(p: seq<nat>, draws: seq<nat>, i: nat): (q: seq<nat>)
    requires i <= |draws| <= |p| && InRange(draws)
    ensures |q| == |p|
    decreases i
  {
    if i == 0 then p else Shuffled(Swapped(p, draws[i - 1], i - 1), draws, i - 1)
  }

  /** Two values change places, wherever they are. */
  function Exchanged(q: seq<nat>, a: nat, b: nat): seq<nat> {
    seq(|q|, x requires 0 <= x < |q| => if q[x] == a then b else if q[x] == b then a else q[x])
  }

  /**
   The draws, read back from a result: the last position holds the last draw; with that exchange undone, what is left is
   the result of the other draws.
   */
  function ReadBack(q: seq<nat>): (draws: seq<nat>)
    ensures |draws| == |q|
    decreases |q|
  {
    if q == [] then [] else var n := |q| - 1; ReadBack(Exchanged(q, q[n], n)[..n]) + [q[n]]
  }

  lemma ExchangeTwice(q: seq<nat>, a: nat, b: nat)
    ensures Exchanged(Exchanged(q, a, b), a, b) == q
  {
  }

  lemma {:induction false} ExchangeCommutes(p: seq<nat>, draws: seq<nat>, i: nat, a: nat, b: nat)
    requires i <= |draws| <= |p| && InRange(draws)
    ensures Exchanged(Shuffled(p, draws, i), a, b) == Shuffled(Exchanged(p, a, b), draws, i)
    decreases i
  {
    if i > 0 {
      var p' := Swapped(p, draws[i - 1], i - 1);
      ExchangeCommutes(p', draws, i - 1, a, b);
      assert Exchanged(p', a, b) == Swapped(Exchanged(p, a, b), draws[i - 1], i - 1);
    }
  }

  /** Rounds below `m` stay below `m`. */
  lemma {:induction false} PrefixShuffles(p: seq<nat>, draws: seq<nat>, i: nat, m: nat)
    requires i <= m <= |draws| <= |p| && InRange(draws)
    ensures InRange(draws[..m]) && Shuffled(p, draws, i)[..m] == Shuffled(p[..m], draws[..m], i)
    ensures Shuffled(p, draws, i)[m..] == p[m..]
    decreases i
  {
    if i > 0 {
      var p' := Swapped(p, draws[i - 1], i - 1);
      PrefixShuffles(p', draws, i - 1, m);
      assert p'[..m] == Swapped(p[..m], draws[..m][i - 1], i - 1) && p'[m..] == p[m..];
    }
  }

  lemma UptoLess(n: nat, m: nat)
    requires n == m + 1
    ensures |Upto(n)| == n && Upto(n)[..m] == Upto(m)
  {
    UptoAt(n);
    UptoAt(m);
  }

  lemma FirstSwap(n: nat, m: nat, r: nat)
    requires n == m + 1 && r <= m
    ensures |Upto(n)| == n && Exchanged(Swapped(Upto(n), r, m), r, m) == Upto(n) && Swapped(Upto(n), r, m)[m] == r
  {
    UptoAt(n);
  }

  /** How the last draw shows in the result, and what is left without it. */
  lemma LastDraw(draws: seq<nat>, n: nat, m: nat)
    requires |draws| == n == m + 1 && InRange(draws)
    ensures InRange(draws[..m]) && |Upto(n)| == n && |Upto(m)| == m
    ensures var q, r := Shuffled(Upto(n), draws, n), draws[m];
            q[m] == r && Exchanged(q, r, m)[..m] == Shuffled(Upto(m), draws[..m], m)
  {
    UptoAt(n);
    UptoAt(m);
    var r := draws[m];
    var p := Swapped(Upto(n), r, m);
    FirstSwap(n, m, r);
    PrefixShuffles(p, draws, m, m);
    assert Shuffled(p, draws, m)[m..][0] == p[m..][0];
    ExchangeCommutes(p, draws, m, r, m);
    PrefixShuffles(Upto(n), draws, m, m);
    UptoLess(n, m);
  }

  /** Different draws give different results: the draws can be read back. */
  lemma {:induction false} DrawsReadBack(draws: seq<nat>)
    requires InRange(draws)
    ensures |Upto(|draws|)| == |draws| && ReadBack(Shuffled(Upto(|draws|), draws, |draws|)) == draws
    decreases |draws|
  {
    UptoAt(|draws|);
    if draws != [] {
      var n, m := |draws|, |draws| - 1;
      LastDraw(draws, n, m);
      DrawsReadBack(draws[..m]);
      assert draws == draws[..m] + [draws[m]];
    }
  }

  lemma DifferentDraws(draws: seq<nat>, other: seq<nat>, n: nat)
    requires InRange(draws) && InRange(other) && |draws| == |other| == n && draws != other
    ensures |Upto(n)| == n && Shuffled(Upto(n), draws, n) != Shuffled(Upto(n), other, n)
  {
    DrawsReadBack(draws);
    DrawsReadBack(other);
  }

  // ---------- Every single cycle is a result ----------

  /** The cycle without its place `t`. */
  function Shortened(c: seq<nat>, t: nat): seq<nat>
    requires t < |c|
  {
    c[..t] + c[t + 1..]
  }

  lemma ShortenedNext(c: seq<nat>, t: nat, u: nat)
    requires t < |c| && u + 1 < |c|
    ensures var v := if u < t then u else u + 1;
            && Shortened(c, t)[u] == c[v]
            && Next(Shortened(c, t), u) == if (if v + 1 < |c| then v + 1 else 0) == t then Next(c, t) else Next(c, v)
  {
    var c' := Shortened(c, t);
    if u + 1 < |c'| { assert c'[u + 1] == if u + 1 < t then c[u + 1] else c[u + 2]; }
    assert c'[0] == if 0 < t then c[0] else c[1];
  }

  function After(c: seq<nat>, v: nat): nat
    requires v < |c|
  {
    if v + 1 < |c| then v + 1 else 0
  }

  /** Where the largest value is on the cycle, and where it is not. */
  lemma OffTheLargest(c: seq<nat>, t: nat, v: nat)
    requires NoRepeats(c) && t < |c| && v < |c| && v != t
    ensures c[v] != c[t] && Next(c, v) != Next(c, t) && Next(c, v) == c[After(c, v)]
    ensures Next(c, v) == c[t] <==> After(c, v) == t
  {
    NextTwice(c, v, t);
    var next := After(c, v);
    assert v < t ==> c[v] != c[t];
    assert t < v ==> c[t] != c[v];
    assert next < t ==> c[next] != c[t];
    assert t < next ==> c[t] != c[next];
  }

  lemma ExchangedAt(q: seq<nat>, m: nat, x: nat)
    requires |q| == m + 1 && x < m && q[x] != q[m]
    ensures Exchanged(q, q[m], m)[..m][x] == if q[x] == m then q[m] else q[x]
  {
  }

  lemma ShortenedStep(q: seq<nat>, c: seq<nat>, m: nat, t: nat, u: nat)
    requires IsCycle(q, c) && NoRepeats(c) && |c| == |q| == m + 1 && t < |c| && c[t] == m && u < m
    ensures var q', c' := Exchanged(q, q[m], m)[..m], Shortened(c, t);
            c'[u] < m && q'[c'[u]] == Next(c', u)
  {
    var v := if u < t then u else u + 1;
    ShortenedNext(c, t, u);
    OffTheLargest(c, t, v);
    assert q[c[v]] == Next(c, v) && q[c[t]] == Next(c, t) && c[v] < |q|;
    ExchangedAt(q, m, c[v]);
  }

  lemma ShortenedBag(c: seq<nat>, t: nat)
    requires t < |c|
    ensures multiset(Shortened(c, t)) == multiset(c) - multiset{c[t]}
  {
    assert c == c[..t] + [c[t]] + c[t + 1..];
  }

  lemma UptoBag(m: nat)
    ensures multiset(Upto(m)) == multiset(Upto(m + 1)) - multiset{m}
  {
  }

  lemma ShortenedIsCycle(q: seq<nat>, c: seq<nat>, m: nat, t: nat)
    requires SingleCycle(q, c) && |q| == m + 1 && m > 0 && t < |c| && c[t] == m
    ensures SingleCycle(Exchanged(q, q[m], m)[..m], Shortened(c, t))
  {
    SingleNoRepeats(q, c);
    var q', c' := Exchanged(q, q[m], m)[..m], Shortened(c, t);
    assert IsCycle(q', c') by {
      forall u | 0 <= u < |c'| ensures c'[u] < m && q'[c'[u]] == Next(c', u) { ShortenedStep(q, c, m, t, u); }
    }
    ShortenedBag(c, t);
    UptoBag(m);
  }

  lemma LastDetermines(s: seq<nat>, q: seq<nat>, m: nat)
    requires |s| == |q| == m + 1 && s[m] == q[m] && Exchanged(s, q[m], m)[..m] == Exchanged(q, q[m], m)[..m]
    ensures s == q
  {
    var r := q[m];
    assert Exchanged(s, r, m)[m] == Exchanged(q, r, m)[m];
    SplitLast(Exchanged(s, r, m), m);
    SplitLast(Exchanged(q, r, m), m);
    ExchangeTwice(s, r, m);
    ExchangeTwice(q, r, m);
  }

  lemma SplitLast(q: seq<nat>, m: nat)
    requires |q| == m + 1
    ensures q == q[..m] + [q[m]]
  {
  }

  lemma SameResult(draws: seq<nat>, q: seq<nat>, n: nat, m: nat)
    requires |draws| == |q| == n == m + 1 && InRange(draws) && draws[m] == q[m]
    requires InRange(draws[..m]) && |Upto(m)| == m
    requires Shuffled(Upto(m), draws[..m], m) == Exchanged(q, q[m], m)[..m]
    ensures |Upto(n)| == n && Shuffled(Upto(n), draws, n) == q
  {
    LastDraw(draws, n, m);
    LastDetermines(Shuffled(Upto(n), draws, n), q, m);
  }

  /** A result of the draws that are read back from it. */
  ghost predicate Drawn(q: seq<nat>) {
    |Upto(|q|)| == |q| && InRange(ReadBack(q)) && Shuffled(Upto(|q|), ReadBack(q), |q|) == q
  }

  lemma DrawnAlone(q: seq<nat>)
    requires q == [0]
    ensures Drawn(q)
  {
    UptoAt(1);
    var draws := ReadBack(q);
    assert draws[0] == 0;
    assert Swapped(q, 0, 0) == q && Upto(1) == q;
  }

  lemma DrawnNext(q: seq<nat>, m: nat)
    requires |q| == m + 1 && m > 0 && q[m] < m && Drawn(Exchanged(q, q[m], m)[..m])
    ensures Drawn(q)
  {
    var draws := ReadBack(q);
    assert draws[..m] == ReadBack(Exchanged(q, q[m], m)[..m]) && draws[m] == q[m];
    SameResult(draws, q, m + 1, m);
  }

  /** Conversely, every single cycle is the result of draws in range, namely of those that are read back from it. */
  lemma {:induction false} EveryCycleIsDrawn(q: seq<nat>, c: seq<nat>)
    requires SingleCycle(q, c)
    ensures Drawn(q)
    decreases |q|
  {
    var m := |q| - 1;
    SingleCycleMeans(q, c);
    if m == 0 {
      DrawnAlone(q);
    } else {
      var t := OnTheCycle(q, c, m);
      ShortenedIsCycle(q, c, m, t);
      EveryCycleIsDrawn(Exchanged(q, q[m], m)[..m], Shortened(c, t));
      DrawnNext(q, m);
    }
  }

  /** Before the round for position `i - 1`: the cycles so far, and what the remaining draws will make of them. */
  ghost predicate Going(p: seq<nat>, draws: seq<nat>, i: nat, cycles: seq<seq<nat>>, q: seq<nat>) {
    && i <= |draws| == |p| && InRange(draws) && |cycles| == (if i == 0 then 1 else i)
    && Cycles(p, cycles) && Shuffled(p, draws, i) == q
  }

  lemma GoingNext(p: seq<nat>, draws: seq<nat>, i: nat, cycles: seq<seq<nat>>, q: seq<nat>)
    requires i < |draws| && Going(p, draws, i + 1, cycles, q)
    ensures draws[i] <= i && Going(Swapped(p, draws[i], i), draws, i, AfterRound(cycles, draws[i], i), q)
  {
    RoundMerges(p, cycles, draws[i], i);
  }

  lemma GoingStarts(draws: seq<nat>, n: nat)
    requires |draws| == n > 0 && InRange(draws)
    ensures |Upto(n)| == n && Going(Upto(n), draws, n, Singles(n), Shuffled(Upto(n), draws, n))
  {
    UptoAt(n);
    SinglesAreCycles(n);
  }

  /** For any random draws the result is one single cycle through all masternodes, and shows the draws. */
  method GenM2FromRandomize(n: nat, draws: seq<nat>) returns (m2: array<nat>, ghost cycle: seq<nat>)
    requires |draws| == n && InRange(draws)
    ensures m2.Length == n && (n > 0 ==> SingleCycle(m2[..], cycle))
    ensures ReadBack(m2[..]) == draws
  {
    var validators := NewSlice(n);
    DrawsReadBack(draws);
    m2 := new nat[n];
    cycle := [];
    if n == 0 { return; }
    ghost var cycles, q := Singles(n), Shuffled(Upto(n), draws, n);
    GoingStarts(draws, n);
    var i := n;
    while i > 0
      invariant 0 <= i <= n == validators.Length == m2.Length && validators != m2
      invariant Going(validators[..], draws, i, cycles, q) && forall j | i <= j < n :: m2[j] == validators[j]
      modifies validators, m2
    {
      i := i - 1;
      GoingNext(validators[..], draws, i, cycles, q);
      cycles := AfterRound(cycles, draws[i], i);
      Round(validators, m2, draws[i], i);
    }
    assert m2[..] == validators[..];
    OnlyCycle(m2[..], cycles);
    cycle := cycles[0];
  }

  lemma OnlyCycle(p: seq<nat>, cycles: seq<seq<nat>>)
    requires Cycles(p, cycles) && |cycles| == 1
    ensures SingleCycle(p, cycles[0])
  {
    assert cycles[..0] == [];
    assert Bag(cycles[..0]) == multiset{};
    assert multiset(cycles[0]) == multiset(Upto(|p|));
    UptoAt(|p|);
    assert |multiset(cycles[0])| == |cycles[0]|;
  }

  lemma OnTheCycle(m2: seq<nat>, c: seq<nat>, x: nat) returns (t: nat)
    requires SingleCycle(m2, c) && x < |m2|
    ensures t < |c| && c[t] == x
  {
    UptoOnce(|m2|, x);
    assert x in multiset(c);
    t :| t < |c| && c[t] == x;
  }

  lemma SingleNoRepeats(m2: seq<nat>, c: seq<nat>)
    requires SingleCycle(m2, c)
    ensures NoRepeats(c)
  {
    forall t, u | 0 <= t < u < |c| ensures c[t] != c[u] {
      UptoOnce(|m2|, c[t]);
      if c[u] == c[t] { OccursTwice(c, t, u); }
    }
  }

  lemma NextDiffers(c: seq<nat>, t: nat)
    requires NoRepeats(c) && t < |c|
    ensures Next(c, t) in c && (|c| >= 2 ==> Next(c, t) != c[t])
  {
    if t + 1 < |c| { assert c[t] != c[t + 1]; } else if t > 0 { assert c[0] != c[t]; }
  }

  lemma NextTwice(c: seq<nat>, t: nat, u: nat)
    requires NoRepeats(c) && t < |c| && u < |c| && t != u
    ensures Next(c, t) != Next(c, u)
  {
    var t', u' := if t + 1 < |c| then t + 1 else 0, if u + 1 < |c| then u + 1 else 0;
    assert Next(c, t) == c[t'] && Next(c, u) == c[u'];
    if t' < u' { assert c[t'] != c[u']; } else { assert c[u'] != c[t']; }
  }

  /** One single cycle is a permutation, and with two or more masternodes nobody is assigned to themselves. */
  lemma SingleCycleMeans(m2: seq<nat>, c: seq<nat>)
    requires SingleCycle(m2, c)
    ensures forall i | 0 <= i < |m2| :: m2[i] < |m2|
    ensures forall i, j | 0 <= i < j < |m2| :: m2[i] != m2[j]
    ensures |m2| >= 2 ==> forall i | 0 <= i < |m2| :: m2[i] != i
  {
    SingleNoRepeats(m2, c);
    forall i | 0 <= i < |m2| ensures m2[i] < |m2| && (|m2| >= 2 ==> m2[i] != i) {
      var t := OnTheCycle(m2, c, i);
      NextDiffers(c, t);
    }
    forall i, j | 0 <= i < j < |m2| ensures m2[i] != m2[j] {
      var t := OnTheCycle(m2, c, i);
      var u := OnTheCycle(m2, c, j);
      NextTwice(c, t, u);
    }
  }
}
