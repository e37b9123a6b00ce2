/** Small shared vocabulary: optional and fallible results, and the integer
    bit arithmetic the scripts do with Python's `>>` and `&`. */
module Common {

  datatype Option<T> = None | Some(value: T)

  datatype Result<T, E> = Ok(value: T) | Err(error: E)

  function Pow2(n: nat): (r: nat)
    ensures r >= 1
  {
    if n == 0 then 1 else 2 * Pow2(n - 1)
  }

  /** `(n >> i) & 1` for a non-negative Python integer: shift right i times,
      then keep the lowest bit. */
  function Bit(n: nat, i: nat): (b: nat)
    ensures b < 2
    decreases i
  {
    if i == 0 then n % 2 else Bit(n / 2, i - 1)
  }

  lemma {:induction false} Pow2Monotone(a: nat, b: nat)
    requires a <= b
    ensures Pow2(a) <= Pow2(b)
  {
    if a < b {
      Pow2Monotone(a, b - 1);
    }
  }

  lemma {:induction false} Pow2Add(a: nat, b: nat)
    ensures Pow2(a + b) == Pow2(a) * Pow2(b)
  {
    if a > 0 {
      Pow2Add(a - 1, b);
    }
  }

  lemma Pow2Of32()
    ensures Pow2(32) == 0x1_0000_0000
  {
    assert Pow2(4) == 16;
    Pow2Add(4, 4);
    Pow2Add(8, 8);
    Pow2Add(16, 16);
  }

  lemma Pow2Of64()
    ensures Pow2(64) == 0x1_0000_0000_0000_0000
  {
    Pow2Of32();
    Pow2Add(32, 32);
  }

  /** Every bit at or above the width w of n is 0. */
  lemma {:induction false} BitAbove(n: nat, i: nat, w: nat)
    requires n < Pow2(w) && w <= i
    ensures Bit(n, i) == 0
  {
    if i > 0 {
      if w == 0 {
        BitAbove(n / 2, i - 1, 0);
      } else {
        BitAbove(n / 2, i - 1, w - 1);
      }
    }
  }

  // ---------------------------------------------------------------------
  // Sets accumulated round by round

  lemma UnionAssociative<T>(p: set<T>, q: set<T>, r: set<T>)
    ensures p + q + r == p + (q + r)
  {
  }

  lemma UnionEmpty<T>(p: set<T>)
    ensures {} + p == p
  {
  }

  lemma SubsetOfUnion<T>(p: set<T>, q: set<T>, r: set<T>)
    requires p <= q
    ensures p <= q + r
  {
  }

  lemma SubsetOfRight<T>(p: set<T>, q: set<T>, r: set<T>)
    requires p <= r
    ensures p <= q + r
  {
  }

  /** The union of a sequence of sets, the first set first. */
  function UnionOf<T>(f: seq<set<T>>): set<T>
  {
    if |f| == 0 then {} else UnionOf(f[..|f| - 1]) + f[|f| - 1]
  }

  /** The union of a single set is that set. */
  lemma UnionOfOne<T>(f: seq<set<T>>)
    requires |f| == 1
    ensures UnionOf(f) == f[0]
  {
    assert f[..0] == [];
  }

  /** A sequence that extends f by one set adds exactly that set. */
  lemma UnionOfExtend<T>(f: seq<set<T>>, g: seq<set<T>>)
    requires |g| == |f| + 1 && forall k :: 0 <= k < |f| ==> g[k] == f[k]
    ensures UnionOf(g) == UnionOf(f) + g[|f|]
  {
    assert g[..|f|] == f;
  }

  /** Every member of one of the sets is in the union. */
  lemma {:induction false} UnionOfMember<T>(f: seq<set<T>>, k: nat, p: T)
    requires k < |f| && p in f[k]
    ensures p in UnionOf(f)
  {
    if k < |f| - 1 {
      UnionOfMember(f[..|f| - 1], k, p);
    }
  }

  /** Every member of the union comes from one of the sets. */
  lemma {:induction false} UnionOfWitness<T>(f: seq<set<T>>, p: T) returns (k: nat)
    requires p in UnionOf(f)
    ensures k < |f| && p in f[k]
  {
    if p in f[|f| - 1] {
      k := |f| - 1;
    } else {
      k := UnionOfWitness(f[..|f| - 1], p);
    }
  }
}
