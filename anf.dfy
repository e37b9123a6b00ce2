/** Boolean polynomials in algebraic normal form (ANF).

    The analysis scripts compute over a Boolean polynomial ring (PolyBoRi):
    addition is XOR, multiplication is AND, and every variable is idempotent
    (x*x = x).  In ANF a polynomial is a set of monomials and a monomial is a
    set of variables, so two polynomials are equal exactly when they are
    equal as sets.

    One variable, `U`, is reserved as the "uncertainty" indeterminate that
    scales the input difference; every other variable is `X(n)`, the n-th
    variable of the ring's variable block. */
module Anf {

  datatype Var = U | X(index: nat)

  type Monomial = set<Var>
  type Poly = set<Monomial>

  const Zero: Poly := {}
  const One: Poly := {{}}

  /** The polynomial consisting of the single variable `v`. */
  function Atom(v: Var): Poly { {{v}} }

  /** Coercion of a Python integer into GF(2). */
  function Const(n: int): (p: Poly)
    ensures p == Zero || p == One
  {
    if n % 2 == 0 then Zero else One
  }

  /** XOR: a monomial survives when it occurs in exactly one operand. */
  function Add(p: Poly, q: Poly): (r: Poly)
    ensures forall m :: m in r <==> (m in p) != (m in q)
  {
    (p - q) + (q - p)
  }

  function Products(p: Poly, q: Poly): set<Monomial>
  {
    set a, b | a in p && b in q :: a + b
  }

  function Pairs(p: Poly, q: Poly, m: Monomial): set<(Monomial, Monomial)>
  {
    set a, b | a in p && b in q && a + b == m :: (a, b)
  }

  /** AND: the product of monomials is their union (x*x = x); a monomial of
      the product survives when it arises from an odd number of pairs. */
  function Mul(p: Poly, q: Poly): Poly
  {
    set m | m in Products(p, q) && |Pairs(p, q, m)| % 2 == 1
  }

  /** PolyBoRi division by the monomial `u`: the monomials containing `U`,
      with `U` removed. */
  function DivU(p: Poly): Poly
  {
    set m | m in p && U in m :: m - {U}
  }

  predicate FreeOfU(p: Poly)
  {
    forall m :: m in p ==> U !in m
  }

  predicate IsConstant(p: Poly)
  {
    p == Zero || p == One
  }

  // ---------------------------------------------------------------------
  // Ring laws used by the layer and propagation proofs

  lemma AddAssociative(p: Poly, q: Poly, r: Poly)
    ensures Add(Add(p, q), r) == Add(p, Add(q, r))
  {
  }

  lemma AddZero(p: Poly)
    ensures Add(p, Zero) == p && Add(Zero, p) == p
  {
  }

  lemma AddSelf(p: Poly)
    ensures Add(p, p) == Zero
  {
  }

  /** XOR on the constants 0 and 1. */
  lemma AddConstants()
    ensures Add(Zero, Zero) == Zero && Add(Zero, One) == One
    ensures Add(One, Zero) == One && Add(One, One) == Zero
  {
    AddZero(One);
    AddSelf(One);
  }

  lemma ConstAdd(a: int, b: int)
    ensures Add(Const(a), Const(b)) == Const(a + b)
  {
  }

  /** A monomial divided by `u` comes from exactly one monomial of `p`. */
  lemma DivUMember(p: Poly, m: Monomial)
    ensures m in DivU(p) <==> U !in m && m + {U} in p
  {
    if m in DivU(p) {
      var w :| w in p && U in w && m == w - {U};
      assert w == m + {U};
    }
    if U !in m && m + {U} in p {
      assert (m + {U}) - {U} == m;
    }
  }

  lemma DivUFree(p: Poly)
    ensures FreeOfU(DivU(p))
  {
  }

  /** Division by `u` is linear, so it commutes with every XOR layer. */
  lemma DivUAdd(p: Poly, q: Poly)
    ensures DivU(Add(p, q)) == Add(DivU(p), DivU(q))
  {
    forall m
      ensures m in DivU(Add(p, q)) <==> m in Add(DivU(p), DivU(q))
    {
      DivUMember(Add(p, q), m);
      DivUMember(p, m);
      DivUMember(q, m);
    }
  }

  lemma DivUOfFree(p: Poly)
    requires FreeOfU(p)
    ensures DivU(p) == Zero
  {
    forall m
      ensures m !in DivU(p)
    {
      DivUMember(p, m);
    }
  }

  lemma DivUConst(n: int)
    ensures DivU(Const(n)) == Zero
  {
    DivUOfFree(Const(n));
  }

  lemma DivUAtom(v: Var)
    requires v != U
    ensures DivU(Atom(v)) == Zero
  {
    DivUOfFree(Atom(v));
  }

  /** Adding a constant never changes the part that depends on `u`. */
  lemma DivUAddConst(p: Poly, n: int)
    ensures DivU(Add(p, Const(n))) == DivU(p)
  {
    DivUAdd(p, Const(n));
    DivUConst(n);
    AddZero(DivU(p));
  }

  lemma PairsUnique(p: Poly, q: Poly, m: Monomial, a: Monomial, b: Monomial)
    requires a in p && b in q && a + b == m
    requires forall a', b' :: a' in p && b' in q && a' + b' == m ==> a' == a && b' == b
    ensures Pairs(p, q, m) == {(a, b)}
  {
  }

  lemma MulOne(q: Poly)
    ensures Mul(One, q) == q
  {
    forall m | m in q
      ensures m in Mul(One, q)
    {
      assert {} + m == m;
      assert m in Products(One, q);
      PairsUnique(One, q, m, {}, m);
    }
    forall m | m in Mul(One, q)
      ensures m in q
    {
      var a, b :| a in One && b in q && a + b == m;
      assert a == {};
      assert b == m;
    }
  }

  lemma MulZero(q: Poly)
    ensures Mul(Zero, q) == Zero
  {
  }

  /** The product of constants: 1 * 1 = 1, every other product 0. */
  lemma MulConstants()
    ensures Mul(Zero, Zero) == Zero && Mul(Zero, One) == Zero
    ensures Mul(One, Zero) == Zero && Mul(One, One) == One
  {
    MulZero(Zero);
    MulZero(One);
    MulOne(Zero);
    MulOne(One);
  }

  lemma MulConst(n: int, q: Poly)
    ensures Mul(Const(n), q) == if n % 2 == 0 then Zero else q
  {
    if n % 2 == 0 { MulZero(q); } else { MulOne(q); }
  }

  /** Products of `u`-free polynomials stay `u`-free. */
  lemma MulFree(p: Poly, q: Poly)
    requires FreeOfU(p) && FreeOfU(q)
    ensures FreeOfU(Mul(p, q))
  {
    forall m | m in Mul(p, q)
      ensures U !in m
    {
      var a, b :| a in p && b in q && a + b == m;
    }
  }

  lemma AddFree(p: Poly, q: Poly)
    requires FreeOfU(p) && FreeOfU(q)
    ensures FreeOfU(Add(p, q))
  {
  }

  /** In `p*u`, a monomial `m + {U}` of a `u`-free `p` arises from the single
      pair `(m, {U})`. */
  lemma MulByUMember(p: Poly, m: Monomial)
    requires FreeOfU(p) && m in p
    ensures m + {U} in Mul(p, Atom(U))
  {
    var w := m + {U};
    assert w in Products(p, Atom(U));
    forall a', b' | a' in p && b' in Atom(U) && a' + b' == w
      ensures a' == m && b' == {U}
    {
      assert a' == w - {U};
      assert m == w - {U};
    }
    PairsUnique(p, Atom(U), w, m, {U});
  }

  /** Multiplying a `u`-free polynomial by `u` adds `U` to every monomial. */
  lemma MulByU(p: Poly)
    requires FreeOfU(p)
    ensures Mul(p, Atom(U)) == set m | m in p :: m + {U}
  {
    var img := set m | m in p :: m + {U};
    forall m | m in p
      ensures m + {U} in Mul(p, Atom(U))
    {
      MulByUMember(p, m);
    }
    forall w | w in Mul(p, Atom(U))
      ensures w in img
    {
      var a, b :| a in p && b in Atom(U) && a + b == w;
    }
  }

  /** The `a*u + b` split of the linearisation step: `a*u` is exactly the
      part of `p` that mentions `u`, and `b = p + a*u` is the rest. */
  lemma Decompose(p: Poly)
    ensures Mul(DivU(p), Atom(U)) == set m | m in p && U in m
    ensures Add(p, Mul(DivU(p), Atom(U))) == set m | m in p && U !in m
    ensures FreeOfU(DivU(p)) && FreeOfU(Add(p, Mul(DivU(p), Atom(U))))
  {
    DivUFree(p);
    UPart(p);
    var up := set m | m in p && U in m;
    var rest := Add(p, up);
    assert rest == set m | m in p && U !in m;
  }

  /** `(p / u) * u` is the part of `p` that mentions `u`. */
  lemma UPart(p: Poly)
    ensures Mul(DivU(p), Atom(U)) == set m | m in p && U in m
  {
    DivUFree(p);
    MulByU(DivU(p));
    var up := set m | m in p && U in m;
    forall w
      ensures w in Mul(DivU(p), Atom(U)) <==> w in up
    {
      if w in up {
        DivUMember(p, w - {U});
        assert (w - {U}) + {U} == w;
      }
      if w in Mul(DivU(p), Atom(U)) {
        var m :| m in DivU(p) && w == m + {U};
        DivUMember(p, m);
      }
    }
  }

  /** Decompose-then-recompose is the identity: `p == a*u + b`. */
  lemma Recompose(p: Poly)
    ensures Add(Mul(DivU(p), Atom(U)), Add(p, Mul(DivU(p), Atom(U)))) == p
  {
    Decompose(p);
  }

  /** The value a linearised bit takes: `na*u + nb` for two fresh names. */
  function Lin(na: Var, nb: Var): Poly
  {
    Add(Mul(Atom(na), Atom(U)), Atom(nb))
  }

  lemma LinShape(na: Var, nb: Var)
    requires na != U && nb != U
    ensures Lin(na, nb) == {{na, U}, {nb}}
  {
    MulByU(Atom(na));
    assert {na} + {U} == {na, U};
    assert (set m | m in Atom(na) :: m + {U}) == {{na, U}};
  }

  /** After linearisation, dividing by `u` gives back the fresh name `na`,
      which is never a constant. */
  lemma DivULin(na: Var, nb: Var)
    requires na != U && nb != U
    ensures DivU(Lin(na, nb)) == Atom(na)
    ensures !IsConstant(DivU(Lin(na, nb)))
  {
    LinShape(na, nb);
    DivUMember(Lin(na, nb), {na});
    forall m | m in DivU(Lin(na, nb))
      ensures m == {na}
    {
      DivUMember(Lin(na, nb), m);
      assert m + {U} == {na, U};
      assert m == {na};
    }
    assert {na} in Atom(na);
  }

  /** On constants the chi term a0 + (1 + a1) * a2 is the Boolean
      a0 xor (not a1 and a2). */
  lemma ChiOfConstants(a0: nat, a1: nat, a2: nat)
    ensures Add(Const(a0), Mul(Add(One, Const(a1)), Const(a2))) == Const(a0 + (1 - a1 % 2) * (a2 % 2))
  {
    AddConstants();
    var c0, c1, c2 := Const(a0), Const(a1), Const(a2);
    if a1 % 2 == 1 {
      assert c1 == One;
      MulZero(c2);
      AddZero(c0);
      assert (1 - a1 % 2) * (a2 % 2) == 0;
    } else if a2 % 2 == 0 {
      assert c1 == Zero && c2 == Zero;
      MulOne(Zero);
      AddZero(c0);
      assert (1 - a1 % 2) * (a2 % 2) == 0;
    } else {
      assert c1 == Zero && c2 == One;
      MulOne(One);
      ConstAdd(a0, 1);
      assert (1 - a1 % 2) * (a2 % 2) == 1;
    }
  }

  // ---------------------------------------------------------------------
  // States: sequences of polynomials

  /** The bitwise difference of a state: every bit divided by `u`. */
  function DivUAll(s: seq<Poly>): (d: seq<Poly>)
    ensures |d| == |s| && forall k :: 0 <= k < |s| ==> d[k] == DivU(s[k])
  {
    seq(|s|, k requires 0 <= k < |s| => DivU(s[k]))
  }

  /** The state whose bit i is the variable `v[i]`. */
  function Atoms(v: seq<Var>): (s: seq<Poly>)
    ensures |s| == |v| && forall k :: 0 <= k < |v| ==> s[k] == Atom(v[k])
  {
    seq(|v|, k requires 0 <= k < |v| => Atom(v[k]))
  }

  /** The variables `v` are pairwise different. */
  predicate Distinct(v: seq<Var>)
  {
    forall i, j :: 0 <= i < |v| && 0 <= j < |v| && i != j ==> v[i] != v[j]
  }

  /** No bit of the state mentions `u`: the state carries no difference. */
  predicate StateFree(A: seq<Poly>)
  {
    forall k :: 0 <= k < |A| ==> FreeOfU(A[k])
  }
}
