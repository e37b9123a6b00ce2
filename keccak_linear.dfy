/** The linear-only Keccak-f[1600] encoding of
    `compare_keccak_sat/code/keccak.py`.

    The S-box is not encoded at all: every S-box input is a pair of
    fresh states, `a_vars[2r]` and `b_vars[2r]`, every S-box output the
    pair `a_vars[2r+1]`, `b_vars[2r+1]`.  One equation per bit says that
    the two states of the input pair differ by `diff[0]`; round r
    (1 <= r < ROUNDS) copies the output pair of S-box r - 1, applies
    round constant r, theta, rho and pi to both copies, asks that they
    differ by `diff[r]` and, except in the last round, binds the results
    to the next input pair. */
module KeccakLinear {
  import opened Common
  import opened Anf
  import opened Keccak
  import opened KeccakTrail

  // ---------------------------------------------------------------------
  // Affine polynomials

  /** A polynomial of degree at most one over `x(0) .. x(n - 1)`. */
  predicate Affine(p: Poly, n: nat)
  {
    forall m :: m in p ==> |m| <= 1 && forall v :: v in m ==> v.X? && v.index < n
  }

  lemma AffineAdd(p: Poly, q: Poly, n: nat)
    requires Affine(p, n) && Affine(q, n)
    ensures Affine(Add(p, q), n)
  {
  }

  lemma AffineConst(c: int, n: nat)
    ensures Affine(Const(c), n)
  {
  }

  lemma AffineAtom(i: nat, n: nat)
    requires i < n
    ensures Affine(Atom(X(i)), n)
  {
  }

  /** Every bit of the state is affine over `x(0) .. x(n - 1)`. */
  predicate StateAffine(A: seq<Poly>, n: nat)
  {
    forall k :: 0 <= k < |A| ==> Affine(A[k], n)
  }

  lemma ParityAffine(A: seq<Poly>, x: nat, z: nat, n: nat)
    requires |A| == 1600 && x < 5 && z < 64 && StateAffine(A, n)
    ensures Affine(Parity(A, x, z), n)
  {
    PosParts(x, 0, z);
    PosParts(x, 1, z);
    PosParts(x, 2, z);
    PosParts(x, 3, z);
    PosParts(x, 4, z);
    var a0, a1, a2, a3, a4 := A[Pos(x, 0, z)], A[Pos(x, 1, z)], A[Pos(x, 2, z)], A[Pos(x, 3, z)], A[Pos(x, 4, z)];
    AffineAdd(a0, a1, n);
    AffineAdd(Add(a0, a1), a2, n);
    AffineAdd(Add(Add(a0, a1), a2), a3, n);
    AffineAdd(Add(Add(Add(a0, a1), a2), a3), a4, n);
  }

  /** theta only adds bits, so it keeps a state affine. */
  lemma ThetaAffine(A: seq<Poly>, n: nat)
    requires |A| == 1600 && StateAffine(A, n)
    ensures StateAffine(ThetaF(A), n)
  {
    forall k | 0 <= k < 1600
      ensures Affine(ThetaF(A)[k], n)
    {
      ThetaAtIndex(A, k);
      var c1 := Parity(A, (LaneX(k) + 4) % 5, LaneZ(k));
      var c2 := Parity(A, (LaneX(k) + 1) % 5, (LaneZ(k) + 63) % 64);
      ParityAffine(A, (LaneX(k) + 4) % 5, LaneZ(k), n);
      ParityAffine(A, (LaneX(k) + 1) % 5, (LaneZ(k) + 63) % 64, n);
      AffineAdd(A[k], c1, n);
      AffineAdd(Add(A[k], c1), c2, n);
    }
  }

  /** iota only adds constants, so it keeps a state affine. */
  lemma IotaAffine(A: seq<Poly>, r: int, n: nat)
    requires |A| == 1600 && RoundIndex(r) && StateAffine(A, n)
    ensures StateAffine(IotaF(A, r), n)
  {
    forall k | 0 <= k < 1600
      ensures Affine(IotaF(A, r)[k], n)
    {
      AffineConst(1, n);
      AffineAdd(A[k], One, n);
    }
  }

  /** The linear part of a round keeps a state affine. */
  lemma MixAffine(A: seq<Poly>, r: int, n: nat)
    requires |A| == 1600 && RoundIndex(r) && StateAffine(A, n)
    ensures StateAffine(Mix(A, r), n)
  {
    IotaAffine(A, r, n);
    ThetaAffine(IotaF(A, r), n);
  }

  // ---------------------------------------------------------------------
  // Linearity of the round layers

  /** The bitwise sum of two states. */
  function Sums(A: seq<Poly>, B: seq<Poly>): (s: seq<Poly>)
    requires |A| == |B|
    ensures |s| == |A|
  {
    seq(|A|, k requires 0 <= k < |A| => Add(A[k], B[k]))
  }

  /** theta, rho, pi: the linear layers without the round constant. */
  function LinearLayers(A: seq<Poly>): (t: seq<Poly>)
    requires |A| == 1600
    ensures |t| == 1600
  {
    PiF(RhoF(ThetaF(A)))
  }

  lemma ParitySum(A: seq<Poly>, B: seq<Poly>, x: nat, z: nat)
    requires |A| == 1600 && |B| == 1600 && x < 5 && z < 64
    ensures Parity(Sums(A, B), x, z) == Add(Parity(A, x, z), Parity(B, x, z))
  {
    PosParts(x, 0, z);
    PosParts(x, 1, z);
    PosParts(x, 2, z);
    PosParts(x, 3, z);
    PosParts(x, 4, z);
  }

  lemma AddSwap(a: Poly, b: Poly, c: Poly, d: Poly)
    ensures Add(Add(a, b), Add(c, d)) == Add(Add(a, c), Add(b, d))
  {
  }

  lemma ThetaBitSum(A: seq<Poly>, B: seq<Poly>, x: nat, y: nat, z: nat)
    requires |A| == 1600 && |B| == 1600 && x < 5 && y < 5 && z < 64
    ensures ThetaBit(Sums(A, B), x, y, z) == Add(ThetaBit(A, x, y, z), ThetaBit(B, x, y, z))
  {
    PosParts(x, y, z);
    ParitySum(A, B, (x + 4) % 5, z);
    ParitySum(A, B, (x + 1) % 5, (z + 63) % 64);
    var a, b := A[Pos(x, y, z)], B[Pos(x, y, z)];
    var pa, pb := Parity(A, (x + 4) % 5, z), Parity(B, (x + 4) % 5, z);
    var qa, qb := Parity(A, (x + 1) % 5, (z + 63) % 64), Parity(B, (x + 1) % 5, (z + 63) % 64);
    AddSwap(a, b, pa, pb);
    AddSwap(Add(a, pa), Add(b, pb), qa, qb);
  }

  /** theta of a sum is the sum of the thetas. */
  lemma ThetaSum(A: seq<Poly>, B: seq<Poly>)
    requires |A| == 1600 && |B| == 1600
    ensures ThetaF(Sums(A, B)) == Sums(ThetaF(A), ThetaF(B))
  {
    forall k | 0 <= k < 1600
      ensures ThetaF(Sums(A, B))[k] == Add(ThetaF(A)[k], ThetaF(B)[k])
    {
      ThetaBitSum(A, B, LaneX(k), LaneY(k), LaneZ(k));
    }
  }

  /** The same round constant added to both states cancels in their sum. */
  lemma IotaCancels(A: seq<Poly>, B: seq<Poly>, r: int)
    requires |A| == 1600 && |B| == 1600 && RoundIndex(r)
    ensures Sums(IotaF(A, r), IotaF(B, r)) == Sums(A, B)
  {
    forall k | 0 <= k < 1600
      ensures Add(IotaF(A, r)[k], IotaF(B, r)[k]) == Add(A[k], B[k])
    {
    }
  }

  /** The sum of two states after round r's linear part is the linear
      layers applied to their sum: the round constant drops out. */
  lemma MixSum(A: seq<Poly>, B: seq<Poly>, r: int)
    requires |A| == 1600 && |B| == 1600 && RoundIndex(r)
    ensures Sums(Mix(A, r), Mix(B, r)) == LinearLayers(Sums(A, B))
  {
    var IA, IB := IotaF(A, r), IotaF(B, r);
    IotaCancels(A, B, r);
    ThetaSum(IA, IB);
    var TA, TB := ThetaF(IA), ThetaF(IB);
    forall k | 0 <= k < 1600
      ensures Sums(Mix(A, r), Mix(B, r))[k] == PiF(RhoF(Sums(TA, TB)))[k]
    {
    }
  }

  // ---------------------------------------------------------------------
  // The encoding

  /** ROUNDS and the rows `diff[0] .. diff[ROUNDS - 1]`. */
  datatype LinearSetup = LinearSetup(rows: seq<seq<int>>, rounds: nat)

  /** Every index the script uses exists: at least two rounds (the first
      equations read `a_vars[0]`), a round constant for rounds 1 .. ROUNDS - 1,
      and a full row for each of rounds 0 .. ROUNDS - 1. */
  predicate LinearOk(E: LinearSetup)
  {
    && 2 <= E.rounds <= |RoundConstants|
    && |E.rows| >= E.rounds
    && forall r :: 0 <= r < E.rounds ==> |E.rows[r]| == 1600
  }

  /** `a_vars[k]`: block k of the ring, for k < 2 ROUNDS - 2. */
  function AVars(E: LinearSetup, k: nat): (v: seq<Var>)
    ensures |v| == 1600
  {
    Names(k)
  }

  /** `b_vars[k]`: block k + 2 ROUNDS - 2, after all `a` blocks. */
  function BVars(E: LinearSetup, k: nat): (v: seq<Var>)
    requires E.rounds >= 1
    ensures |v| == 1600
  {
    Names(k + 2 * E.rounds - 2)
  }

  /** The size of the ring's `x` block: 4 ROUNDS - 4 blocks of 1600. */
  function Declared(E: LinearSetup): nat
    requires E.rounds >= 1
  {
    (4 * E.rounds - 4) * 1600
  }

  /** `X` after round r: the copy of `a_vars[2r - 1]` with round constant r,
      theta, rho and pi applied. */
  function PairX(E: LinearSetup, r: nat): (s: seq<Poly>)
    requires LinearOk(E) && 1 <= r < E.rounds
    ensures |s| == 1600
  {
    Mix(Atoms(AVars(E, 2 * r - 1)), r)
  }

  /** `Y` after round r, the same for `b_vars[2r - 1]`. */
  function PairY(E: LinearSetup, r: nat): (s: seq<Poly>)
    requires LinearOk(E) && 1 <= r < E.rounds
    ensures |s| == 1600
  {
    Mix(Atoms(BVars(E, 2 * r - 1)), r)
  }

  /** The set of the bits of a state. */
  function Members(s: seq<Poly>): set<Poly>
  {
    set k | 0 <= k < |s| :: s[k]
  }

  /** Round 0: `a_vars[0][i] + b_vars[0][i] + diff[0][i]` for every i. */
  function StartEquations(E: LinearSetup): set<Poly>
    requires LinearOk(E)
  {
    Members(Sums(Sums(Atoms(AVars(E, 0)), Atoms(BVars(E, 0))), Consts(E.rows[0])))
  }

  /** Round r: `X[i] + Y[i] + diff[r][i]` for every i, and the chaining
      equations. */
  function RoundEquations(E: LinearSetup, r: nat): set<Poly>
    requires LinearOk(E) && 1 <= r < E.rounds
  {
    Members(Sums(Sums(PairX(E, r), PairY(E, r)), Consts(E.rows[r]))) + Chaining(E, r)
  }

  /** Unless r is the last round, `X[i] + a_vars[2r][i]` and
      `Y[i] + b_vars[2r][i]` for every i. */
  function Chaining(E: LinearSetup, r: nat): set<Poly>
    requires LinearOk(E) && 1 <= r < E.rounds
  {
    if r < E.rounds - 1 then
      Members(Sums(PairX(E, r), Atoms(AVars(E, 2 * r)))) + Members(Sums(PairY(E, r), Atoms(BVars(E, 2 * r))))
    else {}
  }

  /** The equations of round 0, then those of rounds 1 .. n, in order. */
  function EquationList(E: LinearSetup, n: nat): (f: seq<set<Poly>>)
    requires LinearOk(E) && n < E.rounds
    ensures |f| == n + 1
  {
    seq(n + 1, r requires 0 <= r <= n => Equations(E, r))
  }

  /** The equations of round r. */
  function Equations(E: LinearSetup, r: nat): set<Poly>
    requires LinearOk(E) && r < E.rounds
  {
    if r == 0 then StartEquations(E) else RoundEquations(E, r)
  }

  /** The system the script hands to the CNF encoder after rounds
      1 .. n. */
  function SystemAfter(E: LinearSetup, n: nat): set<Poly>
    requires LinearOk(E) && n < E.rounds
  {
    UnionOf(EquationList(E, n))
  }

  /** The whole system: rounds 1 .. ROUNDS - 1. */
  function LinearSystem(E: LinearSetup): set<Poly>
    requires LinearOk(E)
  {
    SystemAfter(E, E.rounds - 1)
  }

  lemma SystemNext(E: LinearSetup, n: nat)
    requires LinearOk(E) && n + 1 < E.rounds
    ensures SystemAfter(E, n + 1) == SystemAfter(E, n) + RoundEquations(E, n + 1)
  {
    forall r | 0 <= r <= n
      ensures EquationList(E, n + 1)[r] == EquationList(E, n)[r]
    {
    }
    UnionOfExtend(EquationList(E, n), EquationList(E, n + 1));
  }

  lemma SystemStart(E: LinearSetup)
    requires LinearOk(E)
    ensures SystemAfter(E, 0) == StartEquations(E)
  {
    UnionOfOne(EquationList(E, 0));
  }

  // ---------------------------------------------------------------------
  // The script's loops

  /** `for i in range(state): Q.add(s[i])`. */
  method AddEach(q0: set<Poly>, s: seq<Poly>) returns (q: set<Poly>)
    ensures q == q0 + Members(s)
  {
    q := q0;
    for i := 0 to |s|
      invariant q == q0 + set k | 0 <= k < i :: s[k]
    {
      q := q + {s[i]};
    }
  }

  /** `a_vars[k].copy()`: a fresh list of the block's variables, which the
      in-place round constant below can change without touching the
      block. */
  method Load(v: seq<Var>) returns (L: array<Poly>)
    requires |v| == 1600
    ensures fresh(L) && L[..] == Atoms(v)
  {
    L := new Poly[1600](i requires 0 <= i < 1600 => Atom(v[i]));
  }

  /** One of the two copies of round r: the block's variables with round
      constant r, theta, rho and pi applied. */
  method LinearPart(v: seq<Var>, r: nat) returns (L: array<Poly>)
    requires |v| == 1600 && RoundIndex(r)
    ensures L.Length == 1600 && L[..] == Mix(Atoms(v), r)
  {
    var C := Load(v);
    AddConst(C, r);
    var T := Theta(C);
    L := RhoPi(T);
  }

  /** Round r of the main loop: copy the S-box output pair, apply round
      constant r, theta, rho and pi to both copies, and add the difference
      and chaining equations. */
  method EncodeRound(E: LinearSetup, r: nat, q0: set<Poly>) returns (q: set<Poly>)
    requires LinearOk(E) && 1 <= r < E.rounds
    ensures q == q0 + RoundEquations(E, r)
  {
    var X := LinearPart(AVars(E, 2 * r - 1), r);
    var Y := LinearPart(BVars(E, 2 * r - 1), r);
    q := AddEach(q0, Sums(Sums(X[..], Y[..]), Consts(E.rows[r])));
    if r < E.rounds - 1 {
      q := AddEach(q, Sums(X[..], Atoms(AVars(E, 2 * r))));
      q := AddEach(q, Sums(Y[..], Atoms(BVars(E, 2 * r))));
    }
  }

  /** The script's main block after the rows are filled: the equations of
      round 0, then rounds 1 .. ROUNDS - 1. */
  method LinearEncoding(E: LinearSetup) returns (q: set<Poly>)
    requires LinearOk(E)
    ensures q == LinearSystem(E)
  {
    q := AddEach({}, Sums(Sums(Atoms(AVars(E, 0)), Atoms(BVars(E, 0))), Consts(E.rows[0])));
    UnionEmpty(StartEquations(E));
    SystemStart(E);
    for n := 0 to E.rounds - 1
      invariant Encoded(E, q, n)
    {
      q := NextRound(E, n, q);
    }
  }

  /** The loop has added the equations of rounds 0 .. n. */
  predicate Encoded(E: LinearSetup, q: set<Poly>, n: nat)
    requires LinearOk(E)
  {
    n < E.rounds && q == SystemAfter(E, n)
  }

  /** Round n + 1, in terms of the loop's progress. */
  method NextRound(E: LinearSetup, n: nat, q0: set<Poly>) returns (q: set<Poly>)
    requires LinearOk(E) && n + 1 < E.rounds && Encoded(E, q0, n)
    ensures Encoded(E, q, n + 1)
  {
    q := EncodeRound(E, n + 1, q0);
    SystemNext(E, n);
  }


  /** The script as written: ROUNDS = 4 and the four hard-coded rows. */
  method CompareMain() returns (q: set<Poly>)
    ensures LinearOk(LinearSetup([ActiveRow(Diff0), ActiveRow(Diff1), ActiveRow(Diff2), ActiveRow(Diff3)], 4))
    ensures q == LinearSystem(LinearSetup([ActiveRow(Diff0), ActiveRow(Diff1), ActiveRow(Diff2), ActiveRow(Diff3)], 4))
  {
    var d0 := BuildRow(Diff0);
    var d1 := BuildRow(Diff1);
    var d2 := BuildRow(Diff2);
    var d3 := BuildRow(Diff3);
    q := LinearEncoding(LinearSetup([d0[..], d1[..], d2[..], d3[..]], 4));
  }

  // ---------------------------------------------------------------------
  // What the system says

  /** The `a` blocks and the `b` blocks are pairwise disjoint, and all of
      them lie inside the ring's `x` block. */
  lemma BlocksApart(E: LinearSetup, k: nat, k': nat, i: nat, j: nat)
    requires LinearOk(E) && k < 2 * E.rounds - 2 && k' < 2 * E.rounds - 2 && i < 1600 && j < 1600
    ensures AVars(E, k)[i] != BVars(E, k')[j]
    ensures AVars(E, k)[i] == AVars(E, k')[j] <==> k == k' && i == j
    ensures BVars(E, k)[i] == BVars(E, k')[j] <==> k == k' && i == j
    ensures AVars(E, k)[i].index < Declared(E) && BVars(E, k)[i].index < Declared(E)
  {
    NamesDisjoint(k, k' + 2 * E.rounds - 2, i, j);
    NamesDisjoint(k, k', i, j);
    NamesDisjoint(k + 2 * E.rounds - 2, k' + 2 * E.rounds - 2, i, j);
    assert 1600 * (k + 2 * E.rounds - 2) + i < (4 * E.rounds - 4) * 1600;
  }

  lemma RoundListed(E: LinearSetup, n: nat, r: nat)
    requires LinearOk(E) && 1 <= r <= n < E.rounds
    ensures EquationList(E, n)[r] == RoundEquations(E, r)
  {
  }

  /** Whatever round r adds ends up in the system. */
  lemma RoundHas(E: LinearSetup, r: nat, p: Poly)
    requires LinearOk(E) && 1 <= r < E.rounds && p in RoundEquations(E, r)
    ensures p in LinearSystem(E)
  {
    assert p in Equations(E, r);
    UnionOfMember(EquationList(E, E.rounds - 1), r, p);
  }

  lemma MembersHas(s: seq<Poly>, i: nat)
    requires i < |s|
    ensures s[i] in Members(s)
  {
  }

  /** Bit i of the input pair differs by `diff[0][i]`. */
  lemma StartEquation(E: LinearSetup, i: nat)
    requires LinearOk(E) && i < 1600
    ensures Add(Add(Atom(AVars(E, 0)[i]), Atom(BVars(E, 0)[i])), Const(E.rows[0][i])) in LinearSystem(E)
  {
    MembersHas(Sums(Sums(Atoms(AVars(E, 0)), Atoms(BVars(E, 0))), Consts(E.rows[0])), i);
    var p := Sums(Sums(Atoms(AVars(E, 0)), Atoms(BVars(E, 0))), Consts(E.rows[0]))[i];
    assert p in Equations(E, 0);
    UnionOfMember(EquationList(E, E.rounds - 1), 0, p);
  }

  /** Round r asks that bit i of the output pair of S-box r - 1, taken
      through theta, rho and pi, differ by `diff[r][i]`: the round
      constant, added to both copies, cancels. */
  lemma DifferenceEquation(E: LinearSetup, r: nat, i: nat)
    requires LinearOk(E) && 1 <= r < E.rounds && i < 1600
    ensures Add(LinearLayers(Sums(Atoms(AVars(E, 2 * r - 1)), Atoms(BVars(E, 2 * r - 1))))[i], Const(E.rows[r][i]))
            in LinearSystem(E)
  {
    MixSum(Atoms(AVars(E, 2 * r - 1)), Atoms(BVars(E, 2 * r - 1)), r);
    MembersHas(Sums(Sums(PairX(E, r), PairY(E, r)), Consts(E.rows[r])), i);
    RoundHas(E, r, Sums(Sums(PairX(E, r), PairY(E, r)), Consts(E.rows[r]))[i]);
  }

  /** Every round but the last binds its results to the next input pair,
      `a_vars[2r]` and `b_vars[2r]`. */
  lemma ChainEquations(E: LinearSetup, r: nat, i: nat)
    requires LinearOk(E) && 1 <= r < E.rounds - 1 && i < 1600
    ensures Add(PairX(E, r)[i], Atom(AVars(E, 2 * r)[i])) in LinearSystem(E)
    ensures Add(PairY(E, r)[i], Atom(BVars(E, 2 * r)[i])) in LinearSystem(E)
  {
    MembersHas(Sums(PairX(E, r), Atoms(AVars(E, 2 * r))), i);
    MembersHas(Sums(PairY(E, r), Atoms(BVars(E, 2 * r))), i);
    RoundHas(E, r, Add(PairX(E, r)[i], Atom(AVars(E, 2 * r)[i])));
    RoundHas(E, r, Add(PairY(E, r)[i], Atom(BVars(E, 2 * r)[i])));
  }

  lemma SumsAffine(A: seq<Poly>, B: seq<Poly>, n: nat)
    requires |A| == |B| && StateAffine(A, n) && StateAffine(B, n)
    ensures StateAffine(Sums(A, B), n)
  {
    forall k | 0 <= k < |A|
      ensures Affine(Sums(A, B)[k], n)
    {
      AffineAdd(A[k], B[k], n);
    }
  }

  lemma ConstsAffine(row: seq<int>, n: nat)
    ensures StateAffine(Consts(row), n)
  {
    forall k | 0 <= k < |row|
      ensures Affine(Consts(row)[k], n)
    {
      AffineConst(row[k], n);
    }
  }

  lemma MembersAffine(s: seq<Poly>, n: nat)
    requires StateAffine(s, n)
    ensures forall p :: p in Members(s) ==> Affine(p, n)
  {
  }

  /** The variables of a block, as bits of a state, are affine. */
  lemma BlockAffine(E: LinearSetup, k: nat)
    requires LinearOk(E) && k < 2 * E.rounds - 2
    ensures StateAffine(Atoms(AVars(E, k)), Declared(E))
    ensures StateAffine(Atoms(BVars(E, k)), Declared(E))
  {
    forall i | 0 <= i < 1600
      ensures Affine(Atom(AVars(E, k)[i]), Declared(E)) && Affine(Atom(BVars(E, k)[i]), Declared(E))
    {
      BlocksApart(E, k, k, i, i);
      AffineAtom(AVars(E, k)[i].index, Declared(E));
      AffineAtom(BVars(E, k)[i].index, Declared(E));
    }
  }

  lemma StartAffine(E: LinearSetup)
    requires LinearOk(E)
    ensures forall p :: p in StartEquations(E) ==> Affine(p, Declared(E))
  {
    var n := Declared(E);
    BlockAffine(E, 0);
    ConstsAffine(E.rows[0], n);
    SumsAffine(Atoms(AVars(E, 0)), Atoms(BVars(E, 0)), n);
    SumsAffine(Sums(Atoms(AVars(E, 0)), Atoms(BVars(E, 0))), Consts(E.rows[0]), n);
    MembersAffine(Sums(Sums(Atoms(AVars(E, 0)), Atoms(BVars(E, 0))), Consts(E.rows[0])), n);
  }

  lemma PairAffine(E: LinearSetup, r: nat)
    requires LinearOk(E) && 1 <= r < E.rounds
    ensures StateAffine(PairX(E, r), Declared(E)) && StateAffine(PairY(E, r), Declared(E))
  {
    BlockAffine(E, 2 * r - 1);
    MixAffine(Atoms(AVars(E, 2 * r - 1)), r, Declared(E));
    MixAffine(Atoms(BVars(E, 2 * r - 1)), r, Declared(E));
  }

  lemma RoundAffine(E: LinearSetup, r: nat)
    requires LinearOk(E) && 1 <= r < E.rounds
    ensures forall p :: p in RoundEquations(E, r) ==> Affine(p, Declared(E))
  {
    var n := Declared(E);
    PairAffine(E, r);
    ConstsAffine(E.rows[r], n);
    SumsAffine(PairX(E, r), PairY(E, r), n);
    SumsAffine(Sums(PairX(E, r), PairY(E, r)), Consts(E.rows[r]), n);
    MembersAffine(Sums(Sums(PairX(E, r), PairY(E, r)), Consts(E.rows[r])), n);
    if r < E.rounds - 1 {
      BlockAffine(E, 2 * r);
      SumsAffine(PairX(E, r), Atoms(AVars(E, 2 * r)), n);
      SumsAffine(PairY(E, r), Atoms(BVars(E, 2 * r)), n);
      MembersAffine(Sums(PairX(E, r), Atoms(AVars(E, 2 * r))), n);
      MembersAffine(Sums(PairY(E, r), Atoms(BVars(E, 2 * r))), n);
    }
  }

  /** The whole system is linear: every equation is affine, over the
      variables the ring declares and never over `u`.  The guard on the
      chaining equations is what keeps the last round inside the declared
      blocks. */
  lemma LinearSystemAffine(E: LinearSetup)
    requires LinearOk(E)
    ensures forall p :: p in LinearSystem(E) ==> Affine(p, Declared(E)) && FreeOfU(p)
  {
    var f := EquationList(E, E.rounds - 1);
    assert LinearSystem(E) == UnionOf(f);
    forall p | p in UnionOf(f)
      ensures Affine(p, Declared(E)) && FreeOfU(p)
    {
      var r := UnionOfWitness(f, p);
      assert f[r] == Equations(E, r);
      EquationsAffine(E, r);
    }
  }

  /** Each round's equations are affine over the declared variables. */
  lemma EquationsAffine(E: LinearSetup, r: nat)
    requires LinearOk(E) && r < E.rounds
    ensures forall p :: p in Equations(E, r) ==> Affine(p, Declared(E)) && FreeOfU(p)
  {
    if r == 0 {
      StartAffine(E);
    } else {
      RoundAffine(E, r);
    }
    forall p | p in Equations(E, r)
      ensures FreeOfU(p)
    {
      AffineFree(p, Declared(E));
    }
  }

  /** An affine polynomial mentions only the ring's variables `x`, so not `u`. */
  lemma AffineFree(p: Poly, n: nat)
    requires Affine(p, n)
    ensures FreeOfU(p)
  {
  }
}
