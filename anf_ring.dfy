/** Ring laws of the ANF product.

    `Mul` keeps a monomial exactly when an odd number of pairs of monomials
    make it; the laws below are the Boolean-ring laws PolyBoRi's product
    satisfies: commutativity, associativity, distributivity over XOR, one
    as the unit, and idempotence of monomials (x*x = x). */
module AnfRing {
  import opened Anf

  type Pair = (Monomial, Monomial)
  type Triple = (Monomial, Monomial, Monomial)

  // ---------------------------------------------------------------------
  // Counting

  /** Pairs with their parts exchanged. */
  function Swap(S: set<Pair>): set<Pair>
  {
    set x | x in S :: (x.1, x.0)
  }

  /** Exchanging the parts keeps the number of pairs. */
  lemma {:induction false} SwapCard(S: set<Pair>)
    ensures |Swap(S)| == |S|
    decreases |S|
  {
    if S != {} {
      var x :| x in S;
      SwapCard(S - {x});
      assert Swap(S) == Swap(S - {x}) + {(x.1, x.0)};
      assert (x.1, x.0) !in Swap(S - {x});
    }
  }

  /** Pairs extended by a third part c. */
  function Append(S: set<Pair>, c: Monomial): set<Triple>
  {
    set y | y in S :: (y.0, y.1, c)
  }

  lemma {:induction false} AppendCard(S: set<Pair>, c: Monomial)
    ensures |Append(S, c)| == |S|
    decreases |S|
  {
    if S != {} {
      var y :| y in S;
      AppendCard(S - {y}, c);
      assert Append(S, c) == Append(S - {y}, c) + {(y.0, y.1, c)};
      assert (y.0, y.1, c) !in Append(S - {y}, c);
    }
  }

  /** Pairs extended by a first part a. */
  function Prepend(a: Monomial, S: set<Pair>): set<Triple>
  {
    set y | y in S :: (a, y.0, y.1)
  }

  lemma {:induction false} PrependCard(a: Monomial, S: set<Pair>)
    ensures |Prepend(a, S)| == |S|
    decreases |S|
  {
    if S != {} {
      var y :| y in S;
      PrependCard(a, S - {y});
      assert Prepend(a, S) == Prepend(a, S - {y}) + {(a, y.0, y.1)};
      assert (a, y.0, y.1) !in Prepend(a, S - {y});
    }
  }

  /** The size of a symmetric difference has the parity of the sum of the
      sizes. */
  lemma SymDiffParity<T>(A: set<T>, B: set<T>)
    ensures |(A - B) + (B - A)| % 2 == (|A| + |B|) % 2
  {
    assert (A - B) * (B - A) == {};
    assert |A - B| == |A| - |A * B|;
    assert |B - A| == |B| - |A * B|;
  }

  /** A sum is odd exactly when one of its terms is. */
  lemma OddSum(a: nat, b: nat)
    ensures (a + b) % 2 == 1 <==> (a % 2 == 1) != (b % 2 == 1)
  {
  }

  /** A symmetric difference is odd exactly when one of the sets is. */
  lemma OddSymDiff<T>(A: set<T>, B: set<T>, C: set<T>)
    requires C == (A - B) + (B - A)
    ensures |C| % 2 == 1 <==> (|A| % 2 == 1) != (|B| % 2 == 1)
  {
    SymDiffParity(A, B);
    OddSum(|A|, |B|);
  }

  // ---------------------------------------------------------------------
  // Membership in a product

  /** The pairs making m are the pairs of a monomial of p and one of q
      whose union is m. */
  lemma PairsMember(p: Poly, q: Poly, m: Monomial, x: Pair)
    ensures x in Pairs(p, q, m) <==> x.0 in p && x.1 in q && x.0 + x.1 == m
  {
  }

  /** A monomial is in the product exactly when an odd number of pairs
      make it. */
  lemma MulMember(p: Poly, q: Poly, m: Monomial)
    ensures m in Mul(p, q) <==> |Pairs(p, q, m)| % 2 == 1
  {
    if |Pairs(p, q, m)| % 2 == 1 {
      assert Pairs(p, q, m) != {};
      var x :| x in Pairs(p, q, m);
      PairsMember(p, q, m, x);
      assert m in Products(p, q);
    }
  }

  // ---------------------------------------------------------------------
  // Commutativity, unit, idempotence

  lemma PairsSwap(p: Poly, q: Poly, m: Monomial)
    ensures Pairs(q, p, m) == Swap(Pairs(p, q, m))
  {
    forall x | x in Pairs(q, p, m)
      ensures x in Swap(Pairs(p, q, m))
    {
      PairsMember(q, p, m, x);
      PairsMember(p, q, m, (x.1, x.0));
      assert x.1 + x.0 == x.0 + x.1;
    }
    forall y | y in Pairs(p, q, m)
      ensures (y.1, y.0) in Pairs(q, p, m)
    {
      PairsMember(p, q, m, y);
      PairsMember(q, p, m, (y.1, y.0));
      assert y.1 + y.0 == y.0 + y.1;
    }
  }

  lemma MulCommutativeAt(p: Poly, q: Poly, m: Monomial)
    ensures m in Mul(p, q) <==> m in Mul(q, p)
  {
    MulMember(p, q, m);
    MulMember(q, p, m);
    PairsSwap(p, q, m);
    SwapCard(Pairs(p, q, m));
  }

  /** `p * q == q * p`. */
  lemma {:induction false} MulCommutative(p: Poly, q: Poly)
    ensures Mul(p, q) == Mul(q, p)
  {
    forall m
      ensures m in Mul(p, q) <==> m in Mul(q, p)
    {
      MulCommutativeAt(p, q, m);
    }
  }

  /** One is the unit on both sides. */
  lemma {:induction false} MulOneRight(p: Poly)
    ensures Mul(p, One) == p && Mul(One, p) == p
  {
    MulCommutative(p, One);
    MulOne(p);
  }

  /** Only the monomial itself is made by a pair of its copies. */
  lemma SelfPairs(a: Monomial, m: Monomial)
    ensures Pairs({a}, {a}, m) == if m == a then {(a, a)} else {}
  {
    forall x | x in Pairs({a}, {a}, m)
      ensures x == (a, a) && m == a
    {
      PairsMember({a}, {a}, m, x);
    }
    if m == a {
      PairsMember({a}, {a}, m, (a, a));
    }
  }

  /** A monomial times itself is itself: every variable is idempotent. */
  lemma {:induction false} MulMonomialSelf(a: Monomial)
    ensures Mul({a}, {a}) == {a}
  {
    forall m
      ensures m in Mul({a}, {a}) <==> m == a
    {
      MulMember({a}, {a}, m);
      SelfPairs(a, m);
    }
  }

  /** In particular `x * x == x` for a variable. */
  lemma {:induction false} AtomSelf(v: Var)
    ensures Mul(Atom(v), Atom(v)) == Atom(v)
  {
    MulMonomialSelf({v});
  }

  // ---------------------------------------------------------------------
  // Distributivity

  /** The pairs of `p * (q + r)` are those of exactly one of `p * q` and
      `p * r`. */
  lemma PairsAdd(p: Poly, q: Poly, r: Poly, m: Monomial)
    ensures Pairs(p, Add(q, r), m)
         == (Pairs(p, q, m) - Pairs(p, r, m)) + (Pairs(p, r, m) - Pairs(p, q, m))
  {
    forall x
      ensures x in Pairs(p, Add(q, r), m)
          <==> (x in Pairs(p, q, m)) != (x in Pairs(p, r, m))
    {
      PairsMember(p, Add(q, r), m, x);
      PairsMember(p, q, m, x);
      PairsMember(p, r, m, x);
    }
  }

  lemma MulDistributesAt(p: Poly, q: Poly, r: Poly, m: Monomial)
    ensures m in Mul(p, Add(q, r)) <==> (m in Mul(p, q)) != (m in Mul(p, r))
  {
    MulMember(p, Add(q, r), m);
    MulMember(p, q, m);
    MulMember(p, r, m);
    PairsAdd(p, q, r, m);
    OddSymDiff(Pairs(p, q, m), Pairs(p, r, m), Pairs(p, Add(q, r), m));
  }

  /** `p * (q + r) == p * q + p * r`. */
  lemma {:induction false} MulDistributes(p: Poly, q: Poly, r: Poly)
    ensures Mul(p, Add(q, r)) == Add(Mul(p, q), Mul(p, r))
  {
    forall m
      ensures m in Mul(p, Add(q, r)) <==> m in Add(Mul(p, q), Mul(p, r))
    {
      MulDistributesAt(p, q, r, m);
    }
  }

  /** `(q + r) * p == q * p + r * p`. */
  lemma {:induction false} MulDistributesLeft(p: Poly, q: Poly, r: Poly)
    ensures Mul(Add(q, r), p) == Add(Mul(q, p), Mul(r, p))
  {
    MulDistributes(p, q, r);
    MulCommutative(p, Add(q, r));
    MulCommutative(p, q);
    MulCommutative(p, r);
  }

  // ---------------------------------------------------------------------
  // Associativity: both products count the triples making m

  /** The triples (a, b, c) of monomials of p, q and r whose union is m. */
  function Triples(p: Poly, q: Poly, r: Poly, m: Monomial): set<Triple>
  {
    set a, b, c | a in p && b in q && c in r && a + b + c == m :: (a, b, c)
  }

  lemma TriplesMember(p: Poly, q: Poly, r: Poly, m: Monomial, t: Triple)
    ensures t in Triples(p, q, r, m)
        <==> t.0 in p && t.1 in q && t.2 in r && t.0 + t.1 + t.2 == m
  {
  }

  /** The triples grouped by the left pairs (a + b, c) in L. */
  function LeftOver(p: Poly, q: Poly, r: Poly, m: Monomial, L: set<Pair>): set<Triple>
  {
    set t | t in Triples(p, q, r, m) && (t.0 + t.1, t.2) in L
  }

  /** The left pairs of L whose first part survives in `p * q`. */
  function OddLeft(p: Poly, q: Poly, L: set<Pair>): set<Pair>
  {
    set x | x in L && x.0 in Mul(p, q)
  }

  /** The triples above the left pair x = (d, c): one per pair of p and q
      making d. */
  lemma LeftFiber(p: Poly, q: Poly, r: Poly, m: Monomial, L: set<Pair>, x: Pair)
    requires x in L && x.1 in r && x.0 + x.1 == m
    ensures LeftOver(p, q, r, m, L)
         == LeftOver(p, q, r, m, L - {x}) + Append(Pairs(p, q, x.0), x.1)
  {
    forall t | t in Append(Pairs(p, q, x.0), x.1)
      ensures t in LeftOver(p, q, r, m, L)
    {
      var y :| y in Pairs(p, q, x.0) && t == (y.0, y.1, x.1);
      PairsMember(p, q, x.0, y);
      TriplesMember(p, q, r, m, t);
    }
    forall t | t in LeftOver(p, q, r, m, L) && (t.0 + t.1, t.2) == x
      ensures t in Append(Pairs(p, q, x.0), x.1)
    {
      TriplesMember(p, q, r, m, t);
      PairsMember(p, q, x.0, (t.0, t.1));
    }
  }

  /** Taking the left pair x out of L takes out its fiber. */
  lemma LeftSplit(p: Poly, q: Poly, r: Poly, m: Monomial, L: set<Pair>, x: Pair)
    requires x in L && x.1 in r && x.0 + x.1 == m
    ensures |LeftOver(p, q, r, m, L)| == |LeftOver(p, q, r, m, L - {x})| + |Pairs(p, q, x.0)|
  {
    LeftFiber(p, q, r, m, L, x);
    AppendCard(Pairs(p, q, x.0), x.1);
    assert LeftOver(p, q, r, m, L - {x}) * Append(Pairs(p, q, x.0), x.1) == {};
  }

  /** Taking the pair x out of L takes x out of the odd pairs. */
  lemma OddLeftStep(p: Poly, q: Poly, L: set<Pair>, x: Pair)
    requires x in L
    ensures |OddLeft(p, q, L)| == |OddLeft(p, q, L - {x})| + if x.0 in Mul(p, q) then 1 else 0
  {
    if x.0 in Mul(p, q) {
      assert OddLeft(p, q, L) == OddLeft(p, q, L - {x}) + {x};
    } else {
      assert OddLeft(p, q, L) == OddLeft(p, q, L - {x});
    }
  }

  /** Counting the triples over L by their left pairs, modulo 2. */
  lemma {:induction false} LeftParity(p: Poly, q: Poly, r: Poly, m: Monomial, L: set<Pair>)
    requires forall x :: x in L ==> x.1 in r && x.0 + x.1 == m
    ensures |LeftOver(p, q, r, m, L)| % 2 == |OddLeft(p, q, L)| % 2
    decreases |L|
  {
    if L == {} {
      assert LeftOver(p, q, r, m, L) == {};
      assert OddLeft(p, q, L) == {};
    } else {
      var x :| x in L;
      var L' := L - {x};
      LeftParity(p, q, r, m, L');
      LeftSplit(p, q, r, m, L, x);
      MulMember(p, q, x.0);
      OddSum(|LeftOver(p, q, r, m, L')|, |Pairs(p, q, x.0)|);
      OddLeftStep(p, q, L, x);
    }
  }

  /** `(p * q) * r` at m has the parity of the number of triples. */
  lemma LeftCount(p: Poly, q: Poly, r: Poly, m: Monomial)
    ensures |Pairs(Mul(p, q), r, m)| % 2 == |Triples(p, q, r, m)| % 2
  {
    var L := Pairs(Products(p, q), r, m);
    forall x | x in L
      ensures x.1 in r && x.0 + x.1 == m
    {
      PairsMember(Products(p, q), r, m, x);
    }
    LeftParity(p, q, r, m, L);
    forall t | t in Triples(p, q, r, m)
      ensures t in LeftOver(p, q, r, m, L)
    {
      TriplesMember(p, q, r, m, t);
      assert t.0 + t.1 in Products(p, q);
      PairsMember(Products(p, q), r, m, (t.0 + t.1, t.2));
    }
    assert LeftOver(p, q, r, m, L) == Triples(p, q, r, m);
    forall x
      ensures x in OddLeft(p, q, L) <==> x in Pairs(Mul(p, q), r, m)
    {
      PairsMember(Products(p, q), r, m, x);
      PairsMember(Mul(p, q), r, m, x);
    }
    assert OddLeft(p, q, L) == Pairs(Mul(p, q), r, m);
  }

  /** The triples grouped by the right pairs (a, b + c) in R. */
  function RightOver(p: Poly, q: Poly, r: Poly, m: Monomial, R: set<Pair>): set<Triple>
  {
    set t | t in Triples(p, q, r, m) && (t.0, t.1 + t.2) in R
  }

  /** The right pairs of R whose second part survives in `q * r`. */
  function OddRight(q: Poly, r: Poly, R: set<Pair>): set<Pair>
  {
    set x | x in R && x.1 in Mul(q, r)
  }

  /** The triples above the right pair x = (a, e): one per pair of q and r
      making e. */
  lemma RightFiber(p: Poly, q: Poly, r: Poly, m: Monomial, R: set<Pair>, x: Pair)
    requires x in R && x.0 in p && x.0 + x.1 == m
    ensures RightOver(p, q, r, m, R)
         == RightOver(p, q, r, m, R - {x}) + Prepend(x.0, Pairs(q, r, x.1))
  {
    forall t | t in Prepend(x.0, Pairs(q, r, x.1))
      ensures t in RightOver(p, q, r, m, R)
    {
      var y :| y in Pairs(q, r, x.1) && t == (x.0, y.0, y.1);
      PairsMember(q, r, x.1, y);
      assert t.0 + t.1 + t.2 == t.0 + (t.1 + t.2);
      TriplesMember(p, q, r, m, t);
    }
    forall t | t in RightOver(p, q, r, m, R) && (t.0, t.1 + t.2) == x
      ensures t in Prepend(x.0, Pairs(q, r, x.1))
    {
      TriplesMember(p, q, r, m, t);
      PairsMember(q, r, x.1, (t.1, t.2));
    }
  }

  /** Taking the right pair x out of R takes out its fiber. */
  lemma RightSplit(p: Poly, q: Poly, r: Poly, m: Monomial, R: set<Pair>, x: Pair)
    requires x in R && x.0 in p && x.0 + x.1 == m
    ensures |RightOver(p, q, r, m, R)| == |RightOver(p, q, r, m, R - {x})| + |Pairs(q, r, x.1)|
  {
    RightFiber(p, q, r, m, R, x);
    PrependCard(x.0, Pairs(q, r, x.1));
    assert RightOver(p, q, r, m, R - {x}) * Prepend(x.0, Pairs(q, r, x.1)) == {};
  }

  /** Taking the pair x out of R takes x out of the odd pairs. */
  lemma OddRightStep(q: Poly, r: Poly, R: set<Pair>, x: Pair)
    requires x in R
    ensures |OddRight(q, r, R)| == |OddRight(q, r, R - {x})| + if x.1 in Mul(q, r) then 1 else 0
  {
    if x.1 in Mul(q, r) {
      assert OddRight(q, r, R) == OddRight(q, r, R - {x}) + {x};
    } else {
      assert OddRight(q, r, R) == OddRight(q, r, R - {x});
    }
  }

  /** Counting the triples over R by their right pairs, modulo 2. */
  lemma {:induction false} RightParity(p: Poly, q: Poly, r: Poly, m: Monomial, R: set<Pair>)
    requires forall x :: x in R ==> x.0 in p && x.0 + x.1 == m
    ensures |RightOver(p, q, r, m, R)| % 2 == |OddRight(q, r, R)| % 2
    decreases |R|
  {
    if R == {} {
      assert RightOver(p, q, r, m, R) == {};
      assert OddRight(q, r, R) == {};
    } else {
      var x :| x in R;
      var R' := R - {x};
      RightParity(p, q, r, m, R');
      RightSplit(p, q, r, m, R, x);
      MulMember(q, r, x.1);
      OddSum(|RightOver(p, q, r, m, R')|, |Pairs(q, r, x.1)|);
      OddRightStep(q, r, R, x);
    }
  }

  /** `p * (q * r)` at m has the parity of the number of triples. */
  lemma RightCount(p: Poly, q: Poly, r: Poly, m: Monomial)
    ensures |Pairs(p, Mul(q, r), m)| % 2 == |Triples(p, q, r, m)| % 2
  {
    var R := Pairs(p, Products(q, r), m);
    forall x | x in R
      ensures x.0 in p && x.0 + x.1 == m
    {
      PairsMember(p, Products(q, r), m, x);
    }
    RightParity(p, q, r, m, R);
    forall t | t in Triples(p, q, r, m)
      ensures t in RightOver(p, q, r, m, R)
    {
      TriplesMember(p, q, r, m, t);
      assert t.1 + t.2 in Products(q, r);
      assert t.0 + (t.1 + t.2) == t.0 + t.1 + t.2;
      PairsMember(p, Products(q, r), m, (t.0, t.1 + t.2));
    }
    assert RightOver(p, q, r, m, R) == Triples(p, q, r, m);
    forall x
      ensures x in OddRight(q, r, R) <==> x in Pairs(p, Mul(q, r), m)
    {
      PairsMember(p, Products(q, r), m, x);
      PairsMember(p, Mul(q, r), m, x);
    }
    assert OddRight(q, r, R) == Pairs(p, Mul(q, r), m);
  }

  lemma MulAssociativeAt(p: Poly, q: Poly, r: Poly, m: Monomial)
    ensures m in Mul(Mul(p, q), r) <==> m in Mul(p, Mul(q, r))
  {
    MulMember(Mul(p, q), r, m);
    MulMember(p, Mul(q, r), m);
    LeftCount(p, q, r, m);
    RightCount(p, q, r, m);
  }

  /** `(p * q) * r == p * (q * r)`. */
  lemma {:induction false} MulAssociative(p: Poly, q: Poly, r: Poly)
    ensures Mul(Mul(p, q), r) == Mul(p, Mul(q, r))
  {
    forall m
      ensures m in Mul(Mul(p, q), r) <==> m in Mul(p, Mul(q, r))
    {
      MulAssociativeAt(p, q, r, m);
    }
  }
}
