/** The Keccak-f[1600] step mappings over ring elements.

    A state is 1600 bits: 25 lanes of 64 bits, bit (x, y, z) at index
    `64*(5*y + x) + z`, so plane y occupies indices `320*y .. 320*y + 319`.
    The round is theta, rho, pi, chi and iota as in sections 3.2.1 to 3.2.5
    of FIPS 202; the scripts apply rho and pi in one step and call chi the
    S-box and iota the constant addition. */
module Keccak {
  import opened Common
  import opened Anf

  // ---------------------------------------------------------------------
  // State layout

  /** Index of bit (x, y, z). */
  function Pos(x: nat, y: nat, z: nat): nat { 64 * (5 * y + x) + z }

  function LaneX(k: nat): nat { (k / 64) % 5 }
  function LaneY(k: nat): nat { k / 320 }
  function LaneZ(k: nat): nat { k % 64 }

  /** The coordinates of a bit's index are the ones it was placed at. */
  lemma PosParts(x: nat, y: nat, z: nat)
    requires x < 5 && y < 5 && z < 64
    ensures Pos(x, y, z) < 1600
    ensures LaneX(Pos(x, y, z)) == x && LaneY(Pos(x, y, z)) == y && LaneZ(Pos(x, y, z)) == z
  {
  }

  /** Every index of the state is the index of exactly one bit (x, y, z). */
  lemma PosSplit(k: nat)
    requires k < 1600
    ensures LaneX(k) < 5 && LaneY(k) < 5 && LaneZ(k) < 64
    ensures k == Pos(LaneX(k), LaneY(k), LaneZ(k))
  {
  }

  /** Bits at different coordinates have different indices. */
  lemma PosInjective(x: nat, y: nat, z: nat, x': nat, y': nat, z': nat)
    requires x < 5 && y < 5 && z < 64 && x' < 5 && y' < 5 && z' < 64
    requires Pos(x, y, z) == Pos(x', y', z')
    ensures x == x' && y == y' && z == z'
  {
    PosParts(x, y, z);
    PosParts(x', y', z');
  }

  // ---------------------------------------------------------------------
  // theta (FIPS 202 section 3.2.1)

  /** The column parity C[x, z]: the sum of the five bits of column (x, z),
      in the order of the planes. */
  function Parity(A: seq<Poly>, x: nat, z: nat): Poly
    requires |A| == 1600 && x < 5 && z < 64
  {
    Add(Add(Add(Add(A[Pos(x, 0, z)], A[Pos(x, 1, z)]), A[Pos(x, 2, z)]), A[Pos(x, 3, z)]), A[Pos(x, 4, z)])
  }

  /** theta: A[x, y, z] + C[x - 1, z] + C[x + 1, z - 1], with x taken mod 5
      and z mod 64. */
  function ThetaBit(A: seq<Poly>, x: nat, y: nat, z: nat): Poly
    requires |A| == 1600 && x < 5 && y < 5 && z < 64
  {
    Add(Add(A[Pos(x, y, z)], Parity(A, (x + 4) % 5, z)), Parity(A, (x + 1) % 5, (z + 63) % 64))
  }

  function ThetaF(A: seq<Poly>): (t: seq<Poly>)
    requires |A| == 1600
    ensures |t| == 1600
  {
    seq(1600, k requires 0 <= k < 1600 => ThetaBit(A, LaneX(k), LaneY(k), LaneZ(k)))
  }

  /** The bit of a 5 x 64 plane that lands on bit k when the plane is
      moved by dx in x and dz in z, both cyclically. */
  function PlaneSource(k: nat, dx: int, dz: int): (s: nat)
    ensures s < 320
  {
    64 * ((k / 64 - dx) % 5) + (k % 64 - dz) % 64
  }

  /** Appending bit j of lane i appends the plane's bit `64*i + j`. */
  lemma PlaneSourceAt(i: nat, j: nat, dx: int, dz: int)
    requires i < 5 && j < 64
    ensures PlaneSource(64 * i + j, dx, dz) == 64 * ((i - dx) % 5) + (j - dz) % 64
  {
    assert (64 * i + j) / 64 == i && (64 * i + j) % 64 == j;
  }

  /** `SinglePlane(X, dx, dz)`: the plane X moved by (dx, dz). */
  method SinglePlane(X: seq<Poly>, dx: int, dz: int) returns (P: seq<Poly>)
    requires |X| == 320
    ensures |P| == 320
    ensures forall k :: 0 <= k < 320 ==> P[k] == X[PlaneSource(k, dx, dz)]
  {
    P := [];
    for i := 0 to 5
      invariant |P| == 64 * i
      invariant forall k :: 0 <= k < 64 * i ==> P[k] == X[PlaneSource(k, dx, dz)]
    {
      for j := 0 to 64
        invariant |P| == 64 * i + j
        invariant forall k :: 0 <= k < 64 * i + j ==> P[k] == X[PlaneSource(k, dx, dz)]
      {
        PlaneSourceAt(i, j, dx, dz);
        P := P + [X[64 * ((i - dx) % 5) + (j - dz) % 64]];
      }
    }
  }

  /** Bit k of the state is bit `64*x + z` of its plane, and the planes
      theta adds to it are read at the parities of columns (x - 1, z) and
      (x + 1, z - 1). */
  lemma ThetaSources(k: nat)
    requires k < 1600
    ensures k % 320 == 64 * LaneX(k) + LaneZ(k)
    ensures PlaneSource(k % 320, 1, 0) == 64 * ((LaneX(k) + 4) % 5) + LaneZ(k)
    ensures PlaneSource(k % 320, -1, 1) == 64 * ((LaneX(k) + 1) % 5) + (LaneZ(k) + 63) % 64
  {
    InPlane(k);
    PreviousColumn(LaneX(k), LaneZ(k));
    NextColumn(LaneX(k), LaneZ(k));
  }

  lemma InPlane(k: nat)
    requires k < 1600
    ensures k % 320 == 64 * LaneX(k) + LaneZ(k)
  {
  }

  lemma PreviousColumn(x: nat, z: nat)
    requires x < 5 && z < 64
    ensures PlaneSource(64 * x + z, 1, 0) == 64 * ((x + 4) % 5) + z
  {
    PlaneSourceAt(x, z, 1, 0);
    assert (x as int - 1) % 5 == (x + 4) % 5;
  }

  lemma NextColumn(x: nat, z: nat)
    requires x < 5 && z < 64
    ensures PlaneSource(64 * x + z, -1, 1) == 64 * ((x + 1) % 5) + (z + 63) % 64
  {
    PlaneSourceAt(x, z, -1, 1);
    assert (z as int - 1) % 64 == (z + 63) % 64;
  }

  /** The five bits summed into `P[64*x + z]` form column (x, z). */
  lemma ParityAt(A: seq<Poly>, P: seq<Poly>, x: nat, z: nat)
    requires |A| == 1600 && |P| == 320 && x < 5 && z < 64
    requires forall i {:trigger P[i]} :: 0 <= i < 320 ==> P[i] == Add(Add(Add(Add(A[i], A[i + 320]), A[i + 640]), A[i + 960]), A[i + 1280])
    ensures P[64 * x + z] == Parity(A, x, z)
  {
    var i := 64 * x + z;
    assert P[i] == Add(Add(Add(Add(A[i], A[i + 320]), A[i + 640]), A[i + 960]), A[i + 1280]);
  }

  /** Bit k of the five appended planes is theta's bit k. */
  lemma ThetaAt(A: seq<Poly>, P: seq<Poly>, E1: seq<Poly>, E2: seq<Poly>, k: nat)
    requires |A| == 1600 && |P| == 320 && |E1| == 320 && |E2| == 320 && k < 1600
    requires forall i {:trigger P[i]} :: 0 <= i < 320 ==> P[i] == Add(Add(Add(Add(A[i], A[i + 320]), A[i + 640]), A[i + 960]), A[i + 1280])
    requires forall i {:trigger E1[i]} :: 0 <= i < 320 ==> E1[i] == P[PlaneSource(i, 1, 0)]
    requires forall i {:trigger E2[i]} :: 0 <= i < 320 ==> E2[i] == P[PlaneSource(i, -1, 1)]
    ensures Add(Add(A[k], E1[k % 320]), E2[k % 320]) == ThetaF(A)[k]
  {
    PosSplit(k);
    ThetaSources(k);
    ParityAt(A, P, (LaneX(k) + 4) % 5, LaneZ(k));
    ParityAt(A, P, (LaneX(k) + 1) % 5, (LaneZ(k) + 63) % 64);
  }

  lemma PlaneOffset(y: nat, j: nat)
    requires j < 320
    ensures (j + 320 * y) % 320 == j
  {
  }

  /** The first loop of `theta`: `P[i]` sums the five planes at i. */
  method ColumnParities(X: array<Poly>) returns (P: seq<Poly>)
    requires X.Length == 1600
    ensures |P| == 320
    ensures forall k {:trigger P[k]} :: 0 <= k < 320 ==> P[k] == Add(Add(Add(Add(X[k], X[k + 320]), X[k + 640]), X[k + 960]), X[k + 1280])
  {
    P := [];
    for i := 0 to 320
      invariant |P| == i
      invariant forall k {:trigger P[k]} :: 0 <= k < i ==> P[k] == Add(Add(Add(Add(X[k], X[k + 320]), X[k + 640]), X[k + 960]), X[k + 1280])
    {
      P := P + [Add(Add(Add(Add(X[i], X[i + 320]), X[i + 640]), X[i + 960]), X[i + 1280])];
    }
  }

  /** One of the five append loops of `theta`: plane y of A with E1 and E2
      added. */
  method AppendPlane(T: seq<Poly>, A: seq<Poly>, E1: seq<Poly>, E2: seq<Poly>, y: nat) returns (T': seq<Poly>)
    requires |A| == 1600 && |E1| == 320 && |E2| == 320 && y < 5
    requires |T| == 320 * y
    requires forall k {:trigger T[k]} :: 0 <= k < 320 * y ==> T[k] == Add(Add(A[k], E1[k % 320]), E2[k % 320])
    ensures |T'| == 320 * (y + 1)
    ensures forall k {:trigger T'[k]} :: 0 <= k < 320 * (y + 1) ==> T'[k] == Add(Add(A[k], E1[k % 320]), E2[k % 320])
  {
    T' := T;
    for j := 0 to 320
      invariant |T'| == 320 * y + j
      invariant forall k {:trigger T'[k]} :: 0 <= k < 320 * y + j ==> T'[k] == Add(Add(A[k], E1[k % 320]), E2[k % 320])
    {
      PlaneOffset(y, j);
      T' := T' + [Add(Add(A[j + 320 * y], E1[j]), E2[j])];
    }
  }

  /** `theta(X)`: the column parities, the two moved planes E1 and E2, and
      the five planes of the result appended one after the other. */
  method Theta(X: array<Poly>) returns (Y: array<Poly>)
    requires X.Length == 1600
    ensures fresh(Y) && Y[..] == ThetaF(X[..])
  {
    var A := X[..];
    var P := ColumnParities(X);
    var E1 := SinglePlane(P, 1, 0);
    var E2 := SinglePlane(P, -1, 1);
    var T := [];
    for y := 0 to 5
      invariant |T| == 320 * y
      invariant forall k {:trigger T[k]} :: 0 <= k < 320 * y ==> T[k] == Add(Add(A[k], E1[k % 320]), E2[k % 320])
    {
      T := AppendPlane(T, A, E1, E2, y);
    }
    forall k | 0 <= k < 1600
      ensures T[k] == ThetaF(A)[k]
    {
      ThetaAt(A, P, E1, E2, k);
    }
    Y := new Poly[1600](k requires 0 <= k < 1600 => T[k]);
    assert Y[..] == ThetaF(A);
  }

  /** Theta only adds bits: the difference of its result is theta of the
      difference. */
  lemma ThetaDifference(A: seq<Poly>)
    requires |A| == 1600
    ensures DivUAll(ThetaF(A)) == ThetaF(DivUAll(A))
  {
    forall k | 0 <= k < 1600
      ensures DivU(ThetaF(A)[k]) == ThetaF(DivUAll(A))[k]
    {
      PosSplit(k);
      ThetaBitDifference(A, LaneX(k), LaneY(k), LaneZ(k));
    }
  }

  lemma ThetaBitDifference(A: seq<Poly>, x: nat, y: nat, z: nat)
    requires |A| == 1600 && x < 5 && y < 5 && z < 64
    ensures DivU(ThetaBit(A, x, y, z)) == ThetaBit(DivUAll(A), x, y, z)
  {
    var c1, c2 := Parity(A, (x + 4) % 5, z), Parity(A, (x + 1) % 5, (z + 63) % 64);
    ParityDifference(A, (x + 4) % 5, z);
    ParityDifference(A, (x + 1) % 5, (z + 63) % 64);
    DivUAdd(Add(A[Pos(x, y, z)], c1), c2);
    DivUAdd(A[Pos(x, y, z)], c1);
  }

  lemma ParityDifference(A: seq<Poly>, x: nat, z: nat)
    requires |A| == 1600 && x < 5 && z < 64
    ensures DivU(Parity(A, x, z)) == Parity(DivUAll(A), x, z)
  {
    var a0, a1, a2, a3, a4 := A[Pos(x, 0, z)], A[Pos(x, 1, z)], A[Pos(x, 2, z)], A[Pos(x, 3, z)], A[Pos(x, 4, z)];
    DivUAdd(Add(Add(Add(a0, a1), a2), a3), a4);
    DivUAdd(Add(Add(a0, a1), a2), a3);
    DivUAdd(Add(a0, a1), a2);
    DivUAdd(a0, a1);
  }

  lemma ParityFree(A: seq<Poly>, x: nat, z: nat)
    requires |A| == 1600 && x < 5 && z < 64 && StateFree(A)
    ensures FreeOfU(Parity(A, x, z))
  {
    PosParts(x, 0, z);
    PosParts(x, 1, z);
    PosParts(x, 2, z);
    PosParts(x, 3, z);
    PosParts(x, 4, z);
    var a0, a1, a2, a3, a4 := A[Pos(x, 0, z)], A[Pos(x, 1, z)], A[Pos(x, 2, z)], A[Pos(x, 3, z)], A[Pos(x, 4, z)];
    AddFree(a0, a1);
    AddFree(Add(a0, a1), a2);
    AddFree(Add(Add(a0, a1), a2), a3);
    AddFree(Add(Add(Add(a0, a1), a2), a3), a4);
  }

  /** theta maps a state without `u` to a state without `u`. */
  lemma ThetaFree(A: seq<Poly>)
    requires |A| == 1600 && StateFree(A)
    ensures StateFree(ThetaF(A))
  {
    forall k | 0 <= k < 1600
      ensures FreeOfU(ThetaF(A)[k])
    {
      ThetaAtIndex(A, k);
      var c1 := Parity(A, (LaneX(k) + 4) % 5, LaneZ(k));
      var c2 := Parity(A, (LaneX(k) + 1) % 5, (LaneZ(k) + 63) % 64);
      ParityFree(A, (LaneX(k) + 4) % 5, LaneZ(k));
      ParityFree(A, (LaneX(k) + 1) % 5, (LaneZ(k) + 63) % 64);
      AddFree(A[k], c1);
      AddFree(Add(A[k], c1), c2);
    }
  }

  /** A monomial of a that neither c1 nor c2 holds survives both additions. */
  lemma KeepsMonomial(m: Monomial, a: Poly, c1: Poly, c2: Poly)
    requires m in a && m !in c1 && m !in c2
    ensures m in Add(Add(a, c1), c2)
  {
  }

  /** A monomial of bit p that neither added parity holds stays in theta's
      bit p. */
  lemma ThetaOwn(A: seq<Poly>, p: nat, m: Monomial)
    requires |A| == 1600 && p < 1600 && m in A[p]
    requires m !in Parity(A, (LaneX(p) + 4) % 5, LaneZ(p))
    requires m !in Parity(A, (LaneX(p) + 1) % 5, (LaneZ(p) + 63) % 64)
    ensures m in ThetaF(A)[p]
  {
    ThetaAtIndex(A, p);
    KeepsMonomial(m, A[p], Parity(A, (LaneX(p) + 4) % 5, LaneZ(p)),
      Parity(A, (LaneX(p) + 1) % 5, (LaneZ(p) + 63) % 64));
  }

  /** A column parity of distinct variables does not contain the variable of
      a bit outside that column. */
  lemma ParityMissing(v: seq<Var>, x: nat, z: nat, p: nat)
    requires |v| == 1600 && Distinct(v) && x < 5 && z < 64 && p < 1600 && LaneX(p) != x
    ensures {v[p]} !in Parity(Atoms(v), x, z)
  {
    forall t | 0 <= t < 5
      ensures Pos(x, t, z) != p
    {
      PosParts(x, t, z);
    }
  }

  /** Theta of distinct variables keeps every bit's own variable: bit p of
      the result contains the monomial `v[p]` once, so it is not constant. */
  lemma ThetaKeepsOwnVariable(v: seq<Var>, p: nat)
    requires |v| == 1600 && Distinct(v) && p < 1600
    ensures {v[p]} in ThetaF(Atoms(v))[p]
  {
    NeighbourParities(v, p);
    ThetaOwn(Atoms(v), p, {v[p]});
  }

  /** Neither column parity that theta adds to bit p holds bit p's variable. */
  lemma NeighbourParities(v: seq<Var>, p: nat)
    requires |v| == 1600 && Distinct(v) && p < 1600
    ensures {v[p]} in Atoms(v)[p]
    ensures {v[p]} !in Parity(Atoms(v), (LaneX(p) + 4) % 5, LaneZ(p))
    ensures {v[p]} !in Parity(Atoms(v), (LaneX(p) + 1) % 5, (LaneZ(p) + 63) % 64)
  {
    NeighbourColumns(LaneX(p));
    ParityMissing(v, (LaneX(p) + 4) % 5, LaneZ(p), p);
    ParityMissing(v, (LaneX(p) + 1) % 5, (LaneZ(p) + 63) % 64, p);
  }

  lemma NeighbourColumns(x: nat)
    requires x < 5
    ensures (x + 4) % 5 != x && (x + 1) % 5 != x
  {
  }

  /** Bit p of theta, written with p's own coordinates. */
  lemma ThetaAtIndex(A: seq<Poly>, p: nat)
    requires |A| == 1600 && p < 1600
    ensures LaneX(p) < 5 && LaneZ(p) < 64
    ensures ThetaF(A)[p] == Add(Add(A[p], Parity(A, (LaneX(p) + 4) % 5, LaneZ(p))),
                                Parity(A, (LaneX(p) + 1) % 5, (LaneZ(p) + 63) % 64))
  {
    PosSplit(p);
  }

  // ---------------------------------------------------------------------
  // rho and pi (FIPS 202 sections 3.2.2 and 3.2.3)

  /** The scripts' rotation table `r`, indexed by x and then y. */
  const RhoOffsets: seq<seq<nat>> := [
      [0, 36, 3, 41, 18],
      [1, 44, 10, 45, 2],
      [62, 6, 43, 15, 61],
      [28, 55, 25, 21, 56],
      [27, 20, 39, 8, 14]
  ]

  /** The same offsets listed by lane index 5*y + x. */
  const LaneOffsets: seq<nat> := [
      0, 1, 62, 28, 27,
      36, 44, 6, 55, 20,
      3, 10, 43, 25, 39,
      41, 45, 15, 21, 8,
      18, 2, 61, 56, 14
  ]

  function LaneOffset(l: nat): (n: nat)
    requires l < 25
    ensures n < 64
  {
    LaneOffsets[l]
  }

  /** The rotation of lane (x, y), which is the entry for its lane index. */
  function RhoOffset(x: nat, y: nat): (n: nat)
    requires x < 5 && y < 5
    ensures n < 64 && n == LaneOffset(5 * y + x)
  {
    RhoOffsets[x][y]
  }

  /** rho: every lane is rotated towards higher z by its offset, so bit z of
      lane (x, y) is read from bit z - r[x][y] (mod 64) of the same lane. */
  function RhoSource(k: nat): (s: nat)
    requires k < 1600
    ensures s < 1600 && s / 64 == k / 64
  {
    64 * (k / 64) + (k % 64 + 64 - LaneOffset(k / 64)) % 64
  }

  function RhoF(A: seq<Poly>): (t: seq<Poly>)
    requires |A| == 1600
    ensures |t| == 1600 && forall k :: 0 <= k < 1600 ==> t[k] == A[RhoSource(k)]
  {
    seq(1600, k requires 0 <= k < 1600 => A[RhoSource(k)])
  }

  /** pi: lane (x, y) moves to lane (y, 2x + 3y), so lane (x', y') of the
      result is read from lane (x' + 3y', x'), all mod 5. */
  function PiSource(k: nat): (s: nat)
    requires k < 1600
    ensures s < 1600
  {
    PosSplit(k);
    PosParts((LaneX(k) + 3 * LaneY(k)) % 5, LaneX(k), LaneZ(k));
    Pos((LaneX(k) + 3 * LaneY(k)) % 5, LaneX(k), LaneZ(k))
  }

  function PiF(A: seq<Poly>): (t: seq<Poly>)
    requires |A| == 1600
    ensures |t| == 1600 && forall k :: 0 <= k < 1600 ==> t[k] == A[PiSource(k)]
  {
    seq(1600, k requires 0 <= k < 1600 => A[PiSource(k)])
  }

  /** `SingleLane(X, dz)`: the lane rotated by dz towards higher z. */
  method SingleLane(X: seq<Poly>, dz: int) returns (Y: seq<Poly>)
    requires |X| == 64
    ensures |Y| == 64 && forall i :: 0 <= i < 64 ==> Y[i] == X[(i - dz) % 64]
  {
    Y := [];
    for i := 0 to 64
      invariant |Y| == i && forall i' :: 0 <= i' < i ==> Y[i'] == X[(i' - dz) % 64]
    {
      assert (i - dz + 64) % 64 == (i - dz) % 64;
      Y := Y + [X[(i - dz + 64) % 64]];
    }
  }

  /** The first l lanes (in index order) of S are rho's lanes of A, and the
      remaining lanes are still those of A. */
  ghost predicate RotatedUpTo(S: seq<Poly>, A: seq<Poly>, l: nat)
    requires |S| == 1600 && |A| == 1600
  {
    forall k {:trigger S[k]} :: 0 <= k < 1600 ==> S[k] == if k < 64 * l then A[RhoSource(k)] else A[k]
  }

  /** Bit k of lane (x, y) under rho reads bit z - r[x][y] of that lane,
      where z is k's place in the lane. */
  lemma RhoInLane(x: nat, y: nat, k: nat)
    requires x < 5 && y < 5 && 64 * (5 * y + x) <= k < 64 * (5 * y + x) + 64
    ensures RhoSource(k) == 64 * (5 * y + x) + (k - 64 * (5 * y + x) - RhoOffset(x, y)) % 64
  {
    var s := 64 * (5 * y + x);
    assert k / 64 == 5 * y + x && k % 64 == k - s;
    assert (k - s + 64 - RhoOffset(x, y)) % 64 == (k - s - RhoOffset(x, y)) % 64;
  }

  /** Writing lane (x, y), rotated, extends the rotated prefix by one lane. */
  lemma RotateStep(S: seq<Poly>, S': seq<Poly>, A: seq<Poly>, x: nat, y: nat, lane: seq<Poly>)
    requires |S| == 1600 && |S'| == 1600 && |A| == 1600 && x < 5 && y < 5 && |lane| == 64
    requires RotatedUpTo(S, A, 5 * y + x)
    requires forall i {:trigger lane[i]} :: 0 <= i < 64 ==>
      lane[i] == S[64 * (5 * y + x) .. 64 * (5 * y + x) + 64][(i - RhoOffset(x, y)) % 64]
    requires forall k {:trigger S'[k]} :: 0 <= k < 1600 ==>
      S'[k] == if 64 * (5 * y + x) <= k < 64 * (5 * y + x) + 64 then lane[k - 64 * (5 * y + x)] else S[k]
    ensures RotatedUpTo(S', A, 5 * y + x + 1)
  {
    var s := 64 * (5 * y + x);
    forall k | 0 <= k < 1600
      ensures S'[k] == if k < s + 64 then A[RhoSource(k)] else A[k]
    {
      if s <= k < s + 64 {
        var i := k - s;
        var j := s + (i - RhoOffset(x, y)) % 64;
        RhoInLane(x, y, k);
        assert S[j] == A[j];
        assert lane[i] == S[j];
      }
    }
  }

  /** One lane of the rotation loop: the slice of lane (x, y) is replaced
      by `SingleLane` of it. */
  method RotateLane(X: array<Poly>, x: nat, y: nat, ghost A: seq<Poly>)
    requires X.Length == 1600 && |A| == 1600 && x < 5 && y < 5
    requires RotatedUpTo(X[..], A, 5 * y + x)
    modifies X
    ensures RotatedUpTo(X[..], A, 5 * y + x + 1)
  {
    var s := 64 * (5 * y + x);
    var S := X[..];
    var lane := SingleLane(S[s..s + 64], RhoOffset(x, y));
    forall i | 0 <= i < 64 {
      X[s + i] := lane[i];
    }
    RotateStep(S, X[..], A, x, y, lane);
  }

  /** The rotation half of `rhoPi`: every lane slice of X is rotated in
      place, plane by plane. */
  method RotateLanes(X: array<Poly>)
    requires X.Length == 1600
    modifies X
    ensures X[..] == RhoF(old(X[..]))
  {
    ghost var A := X[..];
    for y := 0 to 5
      invariant RotatedUpTo(X[..], A, 5 * y)
    {
      for x := 0 to 5
        invariant RotatedUpTo(X[..], A, 5 * y + x)
      {
        RotateLane(X, x, y, A);
      }
    }
  }

  /** The index that bit s moves to under pi: lane (x, y) goes to lane
      (y, 2x + 3y mod 5). */
  function PiTarget(s: nat): (t: nat)
    requires s < 1600
    ensures t < 1600
  {
    PosSplit(s);
    PosParts(LaneY(s), (2 * LaneX(s) + 3 * LaneY(s)) % 5, LaneZ(s));
    Pos(LaneY(s), (2 * LaneX(s) + 3 * LaneY(s)) % 5, LaneZ(s))
  }

  lemma PiLanes(x: nat, y: nat)
    requires x < 5 && y < 5
    ensures (y + 3 * ((2 * x + 3 * y) % 5)) % 5 == x
  {
  }

  lemma PiLanesBack(x: nat, y: nat)
    requires x < 5 && y < 5
    ensures (2 * ((x + 3 * y) % 5) + 3 * x) % 5 == y
  {
  }

  /** pi reads every moved bit back from where it came from. */
  lemma PiSourceOfTarget(s: nat)
    requires s < 1600
    ensures PiSource(PiTarget(s)) == s
  {
    var x, y, z := LaneX(s), LaneY(s), LaneZ(s);
    PosSplit(s);
    var y' := (2 * x + 3 * y) % 5;
    PiTargetAt(x, y, z);
    PiSourceAt(y, y', z);
    PiLanes(x, y);
  }

  /** Every bit of pi's result is the target of the bit it reads. */
  lemma PiTargetOfSource(k: nat)
    requires k < 1600
    ensures PiTarget(PiSource(k)) == k
  {
    var x, y, z := LaneX(k), LaneY(k), LaneZ(k);
    PosSplit(k);
    var x' := (x + 3 * y) % 5;
    PiSourceAt(x, y, z);
    PiTargetAt(x', x, z);
    PiLanesBack(x, y);
  }

  /** pi's source of bit (x, y, z), by coordinates. */
  lemma PiSourceAt(x: nat, y: nat, z: nat)
    requires x < 5 && y < 5 && z < 64
    ensures Pos(x, y, z) < 1600 && PiSource(Pos(x, y, z)) == Pos((x + 3 * y) % 5, x, z)
  {
    PosParts(x, y, z);
  }

  /** pi's target of bit (x, y, z), by coordinates. */
  lemma PiTargetAt(x: nat, y: nat, z: nat)
    requires x < 5 && y < 5 && z < 64
    ensures Pos(x, y, z) < 1600 && PiTarget(Pos(x, y, z)) == Pos(y, (2 * x + 3 * y) % 5, z)
  {
    PosParts(x, y, z);
  }

  /** pi is a bijection on the 1600 positions: different bits read
      different sources, and every source is read by its target. */
  lemma PiBijective()
    ensures forall k, k' :: 0 <= k < 1600 && 0 <= k' < 1600 && PiSource(k) == PiSource(k') ==> k == k'
    ensures forall s :: 0 <= s < 1600 ==> PiTarget(s) < 1600 && PiSource(PiTarget(s)) == s
  {
    forall k, k' | 0 <= k < 1600 && 0 <= k' < 1600 && PiSource(k) == PiSource(k')
      ensures k == k'
    {
      PiTargetOfSource(k);
      PiTargetOfSource(k');
    }
    forall s | 0 <= s < 1600
      ensures PiSource(PiTarget(s)) == s
    {
      PiSourceOfTarget(s);
    }
  }

  /** The bits of B whose pi source lies below index n already hold it. */
  ghost predicate MovedBelow(B: seq<Poly>, S: seq<Poly>, n: nat)
    requires |B| == 1600 && |S| == 1600
  {
    forall k {:trigger B[k]} :: 0 <= k < 1600 && PiSource(k) < n ==> B[k] == S[PiSource(k)]
  }

  /** Writing source bit n to its target extends the moved prefix. */
  lemma MoveStep(B: seq<Poly>, B': seq<Poly>, S: seq<Poly>, n: nat)
    requires |B| == 1600 && |B'| == 1600 && |S| == 1600 && n < 1600
    requires MovedBelow(B, S, n)
    requires B' == B[PiTarget(n) := S[n]]
    ensures MovedBelow(B', S, n + 1)
  {
    PiSourceOfTarget(n);
    forall k | 0 <= k < 1600 && PiSource(k) < n + 1
      ensures B'[k] == S[PiSource(k)]
    {
      if k != PiTarget(n) {
        PiTargetOfSource(k);
      }
    }
  }

  lemma TargetAt(x: nat, y: nat, z: nat)
    requires x < 5 && y < 5 && z < 64
    ensures Pos(x, y, z) < 1600 && PiTarget(Pos(x, y, z)) == Pos(y, (2 * x + 3 * y) % 5, z)
  {
    PosParts(x, y, z);
  }

  /** The permutation half of `rhoPi`: a fresh state B with bit (x, y, z) of
      X written to (y, 2x + 3y, z), lane by lane. */
  method MoveLanes(X: array<Poly>) returns (B: array<Poly>)
    requires X.Length == 1600
    ensures fresh(B) && B[..] == PiF(X[..])
  {
    ghost var S := X[..];
    B := new Poly[1600](_ => Zero);
    for y := 0 to 5
      invariant B.Length == 1600 && MovedBelow(B[..], S, 320 * y)
    {
      for x := 0 to 5
        invariant MovedBelow(B[..], S, 320 * y + 64 * x)
      {
        for z := 0 to 64
          invariant MovedBelow(B[..], S, 320 * y + 64 * x + z)
        {
          TargetAt(x, y, z);
          ghost var B0 := B[..];
          B[Pos(y, (2 * x + 3 * y) % 5, z)] := X[Pos(x, y, z)];
          MoveStep(B0, B[..], S, Pos(x, y, z));
        }
      }
    }
    assert forall k :: 0 <= k < 1600 ==> B[..][k] == PiF(S)[k];
  }

  /** `rhoPi(X)`: X's lanes are rotated in place, and the result is a fresh
      state holding pi of the rotated X. */
  method RhoPi(X: array<Poly>) returns (Y: array<Poly>)
    requires X.Length == 1600
    modifies X
    ensures X[..] == RhoF(old(X[..]))
    ensures fresh(Y) && Y[..] == PiF(RhoF(old(X[..])))
  {
    RotateLanes(X);
    Y := MoveLanes(X);
  }

  // ---------------------------------------------------------------------
  // chi (FIPS 202 section 3.2.4)

  /** chi: A[x, y, z] + (A[x + 1, y, z] + 1) * A[x + 2, y, z], x mod 5. */
  function ChiBit(A: seq<Poly>, x: nat, y: nat, z: nat): Poly
    requires |A| == 1600 && x < 5 && y < 5 && z < 64
  {
    Add(A[Pos(x, y, z)], Mul(Add(One, A[Pos((x + 1) % 5, y, z)]), A[Pos((x + 2) % 5, y, z)]))
  }

  function ChiF(A: seq<Poly>): (t: seq<Poly>)
    requires |A| == 1600
    ensures |t| == 1600
  {
    seq(1600, k requires 0 <= k < 1600 => ChiBit(A, LaneX(k), LaneY(k), LaneZ(k)))
  }

  /** The five outputs of the 5-bit S-box on one row. */
  datatype Row = Row(y0: Poly, y1: Poly, y2: Poly, y3: Poly, y4: Poly)

  /** `SingleSbox`: the row map y_i = x_i + (1 + x_{i+1}) * x_{i+2}. */
  function SingleSbox(x0: Poly, x1: Poly, x2: Poly, x3: Poly, x4: Poly): Row
  {
    Row(Add(x0, Mul(Add(One, x1), x2)),
        Add(x1, Mul(Add(One, x2), x3)),
        Add(x2, Mul(Add(One, x3), x4)),
        Add(x3, Mul(Add(One, x4), x0)),
        Add(x4, Mul(Add(One, x0), x1)))
  }

  /** The S-box applied to row (y, z) gives chi's five bits of that row. */
  lemma SboxRowIsChi(A: seq<Poly>, y: nat, z: nat)
    requires |A| == 1600 && y < 5 && z < 64
    ensures SingleSbox(A[Pos(0, y, z)], A[Pos(1, y, z)], A[Pos(2, y, z)], A[Pos(3, y, z)], A[Pos(4, y, z)])
         == Row(ChiF(A)[Pos(0, y, z)], ChiF(A)[Pos(1, y, z)], ChiF(A)[Pos(2, y, z)],
                ChiF(A)[Pos(3, y, z)], ChiF(A)[Pos(4, y, z)])
  {
    PosParts(0, y, z);
    PosParts(1, y, z);
    PosParts(2, y, z);
    PosParts(3, y, z);
    PosParts(4, y, z);
  }

  /** The rows of the state in the order of the S-box loop: z, then y. */
  function RowRank(k: nat): nat { 5 * LaneZ(k) + LaneY(k) }

  /** Bits of B in rows below n already hold the bits of T. */
  ghost predicate RowsBelow(B: seq<Poly>, T: seq<Poly>, n: nat)
    requires |B| == 1600 && |T| == 1600
  {
    forall k {:trigger B[k]} :: 0 <= k < 1600 && RowRank(k) < n ==> B[k] == T[k]
  }

  lemma RowOf(k: nat, y: nat, z: nat)
    requires k < 1600 && y < 5 && z < 64 && RowRank(k) == 5 * z + y
    ensures LaneX(k) < 5 && k == Pos(LaneX(k), y, z)
  {
    PosSplit(k);
    var y0, z0 := LaneY(k), LaneZ(k);
    assert 5 * z0 + y0 == 5 * z + y && y0 < 5;
    assert z0 == z && y0 == y;
  }

  lemma RowRanks(y: nat, z: nat)
    requires y < 5 && z < 64
    ensures forall x :: 0 <= x < 5 ==> Pos(x, y, z) < 1600 && RowRank(Pos(x, y, z)) == 5 * z + y
  {
    forall x | 0 <= x < 5
      ensures Pos(x, y, z) < 1600 && RowRank(Pos(x, y, z)) == 5 * z + y
    {
      PosParts(x, y, z);
    }
  }

  /** Writing the five bits of row (y, z) extends the finished rows. */
  lemma RowStep(B: seq<Poly>, B': seq<Poly>, T: seq<Poly>, y: nat, z: nat)
    requires |B| == 1600 && |T| == 1600 && y < 5 && z < 64
    requires RowsBelow(B, T, 5 * z + y)
    requires B' == B[Pos(0, y, z) := T[Pos(0, y, z)]][Pos(1, y, z) := T[Pos(1, y, z)]]
                    [Pos(2, y, z) := T[Pos(2, y, z)]][Pos(3, y, z) := T[Pos(3, y, z)]]
                    [Pos(4, y, z) := T[Pos(4, y, z)]]
    ensures |B'| == 1600 && RowsBelow(B', T, 5 * z + y + 1)
  {
    RowRanks(y, z);
    forall k | 0 <= k < 1600 && RowRank(k) < 5 * z + y + 1
      ensures B'[k] == T[k]
    {
      if RowRank(k) == 5 * z + y {
        RowOf(k, y, z);
      }
    }
  }

  /** `sbox(A)`: a fresh state filled row by row with `SingleSbox`. */
  method Sbox(A: array<Poly>) returns (B: array<Poly>)
    requires A.Length == 1600
    ensures fresh(B) && B[..] == ChiF(A[..])
  {
    ghost var S := A[..];
    ghost var T := ChiF(S);
    B := new Poly[1600](_ => Zero);
    for z := 0 to 64
      invariant B.Length == 1600 && RowsBelow(B[..], T, 5 * z)
    {
      for y := 0 to 5
        invariant RowsBelow(B[..], T, 5 * z + y)
      {
        RowRanks(y, z);
        SboxRowIsChi(S, y, z);
        var t := SingleSbox(A[Pos(0, y, z)], A[Pos(1, y, z)], A[Pos(2, y, z)], A[Pos(3, y, z)], A[Pos(4, y, z)]);
        ghost var B0 := B[..];
        B[Pos(0, y, z)], B[Pos(1, y, z)], B[Pos(2, y, z)], B[Pos(3, y, z)], B[Pos(4, y, z)] := t.y0, t.y1, t.y2, t.y3, t.y4;
        RowStep(B0, B[..], T, y, z);
      }
    }
    assert forall k :: 0 <= k < 1600 ==> B[..][k] == T[k];
  }

  /** On constant bits chi is the Boolean map a0 + (1 + a1) * a2 of FIPS 202. */
  lemma ChiBitOfConstants(A: seq<Poly>, x: nat, y: nat, z: nat, a0: nat, a1: nat, a2: nat)
    requires |A| == 1600 && x < 5 && y < 5 && z < 64
    requires A[Pos(x, y, z)] == Const(a0)
    requires A[Pos((x + 1) % 5, y, z)] == Const(a1)
    requires A[Pos((x + 2) % 5, y, z)] == Const(a2)
    ensures ChiBit(A, x, y, z) == Const(a0 + (1 - a1 % 2) * (a2 % 2))
  {
    ChiOfConstants(a0, a1, a2);
  }

  /** chi maps a state without `u` to a state without `u`: a zero
      difference stays zero. */
  lemma ChiFree(A: seq<Poly>)
    requires |A| == 1600 && StateFree(A)
    ensures StateFree(ChiF(A))
  {
    forall k | 0 <= k < 1600
      ensures FreeOfU(ChiF(A)[k])
    {
      PosSplit(k);
      var x, y, z := LaneX(k), LaneY(k), LaneZ(k);
      PosParts((x + 1) % 5, y, z);
      PosParts((x + 2) % 5, y, z);
      var a1 := Add(One, A[Pos((x + 1) % 5, y, z)]);
      AddFree(One, A[Pos((x + 1) % 5, y, z)]);
      MulFree(a1, A[Pos((x + 2) % 5, y, z)]);
      AddFree(A[k], Mul(a1, A[Pos((x + 2) % 5, y, z)]));
    }
  }

  // ---------------------------------------------------------------------
  // iota (FIPS 202 section 3.2.5)

  /** The scripts' table of the 24 round constants, lane (0, 0) only. */
  const RoundConstants: seq<nat> := [
      0x0000000000000001, 0x0000000000008082, 0x800000000000808A, 0x8000000080008000,
      0x000000000000808B, 0x0000000080000001, 0x8000000080008081, 0x8000000000008009,
      0x000000000000008A, 0x0000000000000088, 0x0000000080008009, 0x000000008000000A,
      0x000000008000808B, 0x800000000000008B, 0x8000000000008089, 0x8000000000008003,
      0x8000000000008002, 0x8000000000000080, 0x000000000000800A, 0x800000008000000A,
      0x8000000080008081, 0x8000000000008080, 0x0000000080000001, 0x8000000080008008
  ]

  /** A round index the constant table has an entry for. */
  predicate RoundIndex(r: int) { 0 <= r < |RoundConstants| }

  /** iota: bit i < 64 of lane (0, 0) gets 1 added where bit i of the round
      constant is set; every other bit is unchanged. */
  function IotaF(A: seq<Poly>, r: int): (t: seq<Poly>)
    requires |A| == 1600 && RoundIndex(r)
    ensures |t| == 1600
  {
    seq(1600, k requires 0 <= k < 1600 =>
      if k < 64 && Bit(RoundConstants[r], k) == 1 then Add(A[k], One) else A[k])
  }

  /** `addConst(X, r)`, in place. */
  method AddConst(X: array<Poly>, r: int)
    requires X.Length == 1600 && RoundIndex(r)
    modifies X
    ensures X[..] == IotaF(old(X[..]), r)
  {
    ghost var A := X[..];
    for i := 0 to 64
      invariant forall k :: 0 <= k < 1600 ==> X[k] == if k < i then IotaF(A, r)[k] else A[k]
    {
      if Bit(RoundConstants[r], i) == 1 {
        X[i] := Add(X[i], One);
      }
    }
    assert forall k :: 0 <= k < 1600 ==> X[..][k] == IotaF(A, r)[k];
  }

  /** iota adds constants only, so the difference is unchanged. */
  lemma IotaDifference(A: seq<Poly>, r: int)
    requires |A| == 1600 && RoundIndex(r)
    ensures DivUAll(IotaF(A, r)) == DivUAll(A)
  {
    forall k | 0 <= k < 1600
      ensures DivU(IotaF(A, r)[k]) == DivU(A[k])
    {
      if k < 64 && Bit(RoundConstants[r], k) == 1 {
        DivUAddConst(A[k], 1);
      }
    }
  }

  /** Applying iota twice with the same constant gives the state back. */
  lemma IotaInvolution(A: seq<Poly>, r: int)
    requires |A| == 1600 && RoundIndex(r)
    ensures IotaF(IotaF(A, r), r) == A
  {
    forall k | 0 <= k < 1600
      ensures IotaF(IotaF(A, r), r)[k] == A[k]
    {
      if k < 64 && Bit(RoundConstants[r], k) == 1 {
        AddAssociative(A[k], One, One);
        AddSelf(One);
        AddZero(A[k]);
      }
    }
  }

  lemma IotaFree(A: seq<Poly>, r: int)
    requires |A| == 1600 && RoundIndex(r) && StateFree(A)
    ensures StateFree(IotaF(A, r))
  {
    forall k | 0 <= k < 1600
      ensures FreeOfU(IotaF(A, r)[k])
    {
      AddFree(A[k], One);
    }
  }

  // ---------------------------------------------------------------------
  // Differences through the linear layers

  /** rho and pi only move bits, so they commute with taking differences. */
  lemma RhoPiDifference(A: seq<Poly>)
    requires |A| == 1600
    ensures DivUAll(RhoF(A)) == RhoF(DivUAll(A))
    ensures DivUAll(PiF(A)) == PiF(DivUAll(A))
  {
  }

  lemma RhoPiFree(A: seq<Poly>)
    requires |A| == 1600 && StateFree(A)
    ensures StateFree(RhoF(A)) && StateFree(PiF(A))
  {
  }

  /** The part of a Keccak round after the S-box, in the order the trail
      scripts apply it after linearising: iota with constant r, theta, then
      rho and pi. */
  function Mix(A: seq<Poly>, r: int): (t: seq<Poly>)
    requires |A| == 1600 && RoundIndex(r)
    ensures |t| == 1600
  {
    PiF(RhoF(ThetaF(IotaF(A, r))))
  }

  /** The difference after `Mix` is the linear layers applied to the
      difference before it; the round constant drops out. */
  lemma MixDifference(A: seq<Poly>, r: int)
    requires |A| == 1600 && RoundIndex(r)
    ensures DivUAll(Mix(A, r)) == PiF(RhoF(ThetaF(DivUAll(A))))
  {
    var I := IotaF(A, r);
    IotaDifference(A, r);
    ThetaDifference(I);
    RhoPiDifference(ThetaF(I));
    RhoPiDifference(RhoF(ThetaF(I)));
  }

  /** Bit k of pi(rho(theta(A))) is theta's bit at the source of k. */
  lemma LinearLayersAt(A: seq<Poly>, k: nat)
    requires |A| == 1600 && k < 1600
    ensures PiSource(k) < 1600 && PiF(RhoF(ThetaF(A)))[k] == ThetaF(A)[RhoSource(PiSource(k))]
  {
  }

  /** Over distinct variables, every bit of pi(rho(theta(.))) keeps the
      variable theta keeps at its source, so no bit is constant. */
  lemma LinearLayersNotConstant(v: seq<Var>, k: nat)
    requires |v| == 1600 && Distinct(v) && k < 1600
    ensures !IsConstant(PiF(RhoF(ThetaF(Atoms(v))))[k])
  {
    var j := RhoSource(PiSource(k));
    LinearLayersAt(Atoms(v), k);
    ThetaKeepsOwnVariable(v, j);
    assert {v[j]} != {};
  }

  // ---------------------------------------------------------------------
  // Rounds

  /** One round of Keccak-f[1600] with round index i: theta, rho, pi, chi,
      iota. */
  function StepF(A: seq<Poly>, i: int): (t: seq<Poly>)
    requires |A| == 1600 && RoundIndex(i)
    ensures |t| == 1600
  {
    IotaF(ChiF(PiF(RhoF(ThetaF(A)))), i)
  }

  /** Rounds i .. n - 1 applied to A, in that order. */
  function RoundsF(A: seq<Poly>, i: nat, n: nat): (t: seq<Poly>)
    requires |A| == 1600 && i <= n <= |RoundConstants|
    ensures |t| == 1600
    decreases n - i
  {
    if i == n then A else RoundsF(StepF(A, i), i + 1, n)
  }

  /** A state without `u` stays without `u` through any number of rounds:
      a zero difference propagates as zero. */
  lemma {:induction false} RoundsFree(A: seq<Poly>, i: nat, n: nat)
    requires |A| == 1600 && i <= n <= |RoundConstants| && StateFree(A)
    ensures StateFree(RoundsF(A, i, n))
    decreases n - i
  {
    if i < n {
      StepFree(A, i);
      RoundsFree(StepF(A, i), i + 1, n);
    }
  }

  lemma StepFree(A: seq<Poly>, i: int)
    requires |A| == 1600 && RoundIndex(i) && StateFree(A)
    ensures StateFree(StepF(A, i))
  {
    ThetaFree(A);
    RhoPiFree(ThetaF(A));
    RhoPiFree(RhoF(ThetaF(A)));
    ChiFree(PiF(RhoF(ThetaF(A))));
    IotaFree(ChiF(PiF(RhoF(ThetaF(A)))), i);
  }

  /** One pass of the loop body of `round`: a fresh theta output that
      rhoPi rotates in place, a fresh S-box output and the in-place
      constant addition for round index i. */
  method RoundStep(Y: array<Poly>, i: int) returns (B: array<Poly>)
    requires Y.Length == 1600 && RoundIndex(i)
    ensures fresh(B) && B.Length == 1600 && B[..] == StepF(Y[..], i)
  {
    var T := Theta(Y);
    var P := RhoPi(T);
    B := Sbox(P);
    AddConst(B, i);
  }

  /** `round(X, r)`: r rounds of theta, rho, pi, chi and iota.  A negative
      r runs no round and hands back X itself; X is never changed.  A count
      above 24 runs out of round constants: the source raises IndexError in
      the constant addition of round 24 and returns nothing, which `ok`
      reports as false. */
  method Round(X: array<Poly>, r: int) returns (Y: array<Poly>, ok: bool)
    requires X.Length == 1600
    ensures ok <==> r <= |RoundConstants|
    ensures Y.Length == 1600
    ensures ok ==> Y[..] == RoundsF(X[..], 0, if r < 0 then 0 else r)
    ensures r <= 0 ==> Y == X
    ensures r > 0 ==> fresh(Y)
  {
    ghost var n := if r < 0 then 0 else if r > |RoundConstants| then |RoundConstants| else r;
    Y := X;
    var i := 0;
    while i < r && i < |RoundConstants|
      invariant 0 <= i <= n && Y.Length == 1600
      invariant RoundsF(Y[..], i, n) == RoundsF(X[..], 0, n)
      invariant i == 0 ==> Y == X
      invariant i > 0 ==> fresh(Y)
    {
      Y := RoundStep(Y, i);
      i := i + 1;
    }
    ok := r <= |RoundConstants|;
    if !ok {
      // theta, rhoPi and chi of round 24 still run before the failure
      var T := Theta(Y);
      var P := RhoPi(T);
      Y := Sbox(P);
    }
  }
}
