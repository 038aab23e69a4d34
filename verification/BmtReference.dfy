/**
 The reference binary Merkle tree hash (bmt/bmt_r.go): a recursion that splits the data at a
 span which is the segment pair size times a power of two.

 The base hash is a parameter `H`; nothing is assumed about it. `hs` is its output size, which
 is also the segment size.
 */
module BmtReference {

  newtype Byte = x: int | 0 <= x < 256

  type Bytes = seq<Byte>

  type BaseHash = Bytes -> Bytes

  /** `s` is 2*hs times a power of two: the spans that NewRefHasher and the halving loop produce. */
  predicate IsSpan(hs: nat, s: nat)
    decreases s
  {
    hs > 0 && (s == 2 * hs || (s > 2 * hs && s % 2 == 0 && IsSpan(hs, s / 2)))
  }

  /** Distinct spans differ by at least a factor of two. */
  lemma {:induction false} SpanGap(hs: nat, s: nat, t: nat)
    requires IsSpan(hs, s) && IsSpan(hs, t) && s < t
    ensures 2 * s <= t
    decreases s + t
  {
    if s < t / 2 {
      SpanGap(hs, s, t / 2);
    } else if t / 2 < s {
      if s != 2 * hs {
        SpanGap(hs, t / 2, s);
      }
    }
  }

  /** The loop `for ; s >= l; s /= 2 {}` of RefHasher.hash, for data longer than a segment pair. */
  function Halve(hs: nat, s: nat, l: nat): (t: nat)
    requires IsSpan(hs, s) && l > 2 * hs
    ensures IsSpan(hs, t) && t < l
    ensures s <= t || l <= 2 * t
    decreases s
  {
    if s >= l then Halve(hs, s / 2, l) else s
  }

  /** RefHasher.hash. The spans make the recursion terminate: both halves are shorter than `d`. */
  function RefHash(H: BaseHash, hs: nat, d: Bytes, s: nat): Bytes
    requires IsSpan(hs, s)
    decreases |d|
  {
    if |d| > 2 * hs then
      var t := Halve(hs, s, |d|);
      H(RefHash(H, hs, d[..t], t) + (if |d| - t > hs then RefHash(H, hs, d[t..], t) else d[t..]))
    else
      H(d)
  }

  /** A span is wide enough for `d` when the first split leaves no more on the right than on the left. */
  predicate Covers(hs: nat, s: nat, d: Bytes) {
    IsSpan(hs, s) && |d| <= 2 * s
  }

  /** Any two covering spans make the recursion choose the same first split. */
  lemma SameSplit(hs: nat, s: nat, s': nat, d: Bytes)
    requires Covers(hs, s, d) && Covers(hs, s', d) && |d| > 2 * hs
    ensures Halve(hs, s, |d|) == Halve(hs, s', |d|)
  {
    var t, t' := Halve(hs, s, |d|), Halve(hs, s', |d|);
    HalveCovers(hs, s, |d|);
    HalveCovers(hs, s', |d|);
    if t < t' { SpanGap(hs, t, t'); }
    if t' < t { SpanGap(hs, t', t); }
  }

  lemma {:induction false} HalveCovers(hs: nat, s: nat, l: nat)
    requires IsSpan(hs, s) && l > 2 * hs && l <= 2 * s
    ensures l <= 2 * Halve(hs, s, l)
    decreases s
  {
    if s >= l {
      HalveCovers(hs, s / 2, l);
    }
  }

  /** The reference hash does not depend on the span it starts from, as long as the span covers the data. */
  lemma {:induction false} SpanIrrelevant(H: BaseHash, hs: nat, d: Bytes, s: nat, s': nat)
    requires Covers(hs, s, d) && Covers(hs, s', d)
    ensures RefHash(H, hs, d, s) == RefHash(H, hs, d, s')
    decreases |d|
  {
    if |d| > 2 * hs {
      SameSplit(hs, s, s', d);
    }
  }

  /** A RefHasher: `span` and `cap` as NewRefHasher computes them from the segment count. */
  datatype RefHasher = RefHasher(hs: nat, span: nat, cap: nat) {
    predicate Valid() {
      IsSpan(hs, span) && cap <= 2 * span
    }

    /** RefHasher.Hash: data beyond the capacity is cut off. */
    function Hash(H: BaseHash, d: Bytes): Bytes
      requires Valid()
    {
      RefHash(H, hs, if |d| > cap then d[..cap] else d, span)
    }
  }

  /**
   NewRefHasher. Its doubling loop finds a span from which every chunk up to the capacity is
   split at the largest span below the chunk's length, which is what Valid() records.
   */
  method NewRefHasher(hs: nat, count: nat) returns (rh: RefHasher)
    requires hs > 0
    ensures rh.hs == hs && rh.cap == hs * count && rh.Valid()
  {
    var c := 2;
    ghost var s := 2 * hs;  // c * hs
    while c < count
      invariant 2 <= c && s == c * hs && IsSpan(hs, s)
      invariant c > 2 ==> c % 2 == 0 && s % 2 == 0 && s / 2 == c / 2 * hs && IsSpan(hs, s / 2)
    {
      DoubleSpan(hs, c, s);
      c, s := c * 2, 2 * s;
    }
    Monotone(hs, count, c);
    if c > 2 {
      c := c / 2;
    }
    rh := RefHasher(hs, c * hs, hs * count);
  }

  lemma DoubleSpan(hs: nat, c: nat, s: nat)
    requires s == c * hs && IsSpan(hs, s)
    ensures IsSpan(hs, 2 * s) && 2 * s == c * 2 * hs && 2 * s / 2 == s
  {
    assert IsSpan(hs, 2 * s / 2);
  }

  lemma Monotone(hs: nat, count: nat, c: nat)
    requires count <= c
    ensures hs * count <= c * hs
  {
  }
}
