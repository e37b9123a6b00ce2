/** The Xoodoo step mappings over ring elements.

    A state is 384 bits: three planes y of four 32-bit lanes x, bit
    (x, y, z) at index `32*(x + 4*y) + z`, so plane y occupies indices
    `128*y .. 128*y + 127`.  The round is theta, rho-west, iota, chi and
    rho-east as in section 2 of the Xoodoo cookbook (IACR ePrint 2018/767);
    the script calls iota the constant addition. */
module Xoodoo {
  import opened Common
  import opened Anf

  // ---------------------------------------------------------------------
  // State layout

  /** Index of bit (x, y, z). */
  function Pos(x: nat, y: nat, z: nat): nat { 32 * (x + 4 * y) + z }

  function LaneX(k: nat): nat { (k / 32) % 4 }
  function LaneY(k: nat): nat { k / 128 }
  function LaneZ(k: nat): nat { k % 32 }

  /** The coordinates of a bit's index are the ones it was placed at. */
  lemma PosParts(x: nat, y: nat, z: nat)
    requires x < 4 && y < 3 && z < 32
    ensures Pos(x, y, z) < 384
    ensures LaneX(Pos(x, y, z)) == x && LaneY(Pos(x, y, z)) == y && LaneZ(Pos(x, y, z)) == z
  {
  }

  /** Every index of the state is the index of exactly one bit (x, y, z). */
  lemma PosSplit(k: nat)
    requires k < 384
    ensures LaneX(k) < 4 && LaneY(k) < 3 && LaneZ(k) < 32
    ensures k == Pos(LaneX(k), LaneY(k), LaneZ(k))
  {
  }

  // ---------------------------------------------------------------------
  // Plane shifts

  /** The bit of a 4 x 32 plane that lands on bit k when the plane is
      moved by t in x and v in z, both cyclically. */
  function ShiftSource(k: nat, t: int, v: int): (s: nat)
    ensures s < 128
  {
    32 * ((k / 32 - t) % 4) + (k % 32 - v) % 32
  }

  /** The plane P moved by (t, v): the cookbook's `P <<< (t, v)`. */
  function ShiftF(P: seq<Poly>, t: int, v: int): (Q: seq<Poly>)
    requires |P| == 128
    ensures |Q| == 128
  {
    seq(128, k requires 0 <= k < 128 => P[ShiftSource(k, t, v)])
  }

  lemma ShiftSourceAt(i: nat, j: nat, t: int, v: int)
    requires i < 4 && j < 32
    ensures ShiftSource(32 * i + j, t, v) == 32 * ((i - t + 4) % 4) + (j - v + 32) % 32
  {
    assert (32 * i + j) / 32 == i && (32 * i + j) % 32 == j;
  }

  /** `SingleMatrix(X, r0, r1)`: the plane X moved by (r0, r1). */
  method SingleMatrix(X: seq<Poly>, r0: int, r1: int) returns (Y: seq<Poly>)
    requires |X| == 128
    ensures Y == ShiftF(X, r0, r1)
  {
    Y := [];
    for i := 0 to 4
      invariant |Y| == 32 * i
      invariant forall k :: 0 <= k < 32 * i ==> Y[k] == X[ShiftSource(k, r0, r1)]
    {
      for j := 0 to 32
        invariant |Y| == 32 * i + j
        invariant forall k :: 0 <= k < 32 * i + j ==> Y[k] == X[ShiftSource(k, r0, r1)]
      {
        ShiftSourceAt(i, j, r0, r1);
        Y := Y + [X[32 * ((i - r0 + 4) % 4) + (j - r1 + 32) % 32]];
      }
    }
  }

  /** The bit that lands on (x + t, z + v) is bit (x, z). */
  lemma ShiftTarget(x: nat, z: nat, t: int, v: int)
    requires x < 4 && z < 32
    ensures ShiftSource(32 * ((x + t) % 4) + (z + v) % 32, t, v) == 32 * x + z
  {
    var k := 32 * ((x + t) % 4) + (z + v) % 32;
    assert k / 32 == (x + t) % 4 && k % 32 == (z + v) % 32;
    assert ((x + t) % 4 - t) % 4 == x;
    assert ((z + v) % 32 - v) % 32 == z;
  }

  /** Moving by (t, v) sends bit (x, z) of the plane to (x + t, z + v). */
  lemma ShiftMoves(P: seq<Poly>, t: int, v: int, x: nat, z: nat)
    requires |P| == 128 && x < 4 && z < 32
    ensures ShiftF(P, t, v)[32 * ((x + t) % 4) + (z + v) % 32] == P[32 * x + z]
  {
    ShiftTarget(x, z, t, v);
  }

  /** Moving by (-t, -v) undoes a move by (t, v). */
  lemma ShiftInverse(P: seq<Poly>, t: int, v: int)
    requires |P| == 128
    ensures ShiftF(ShiftF(P, t, v), -t, -v) == P
  {
    forall k | 0 <= k < 128
      ensures ShiftF(ShiftF(P, t, v), -t, -v)[k] == P[k]
    {
      ShiftSourceInverse(k, t, v);
    }
  }

  lemma ShiftSourceInverse(k: nat, t: int, v: int)
    requires k < 128
    ensures ShiftSource(ShiftSource(k, -t, -v), t, v) == k
  {
    var x, z := k / 32, k % 32;
    assert k == 32 * x + z;
    assert ShiftSource(k, -t, -v) == 32 * ((x + t) % 4) + (z + v) % 32;
    ShiftTarget(x, z, t, v);
  }

  /** Moving by (0, 0) leaves the plane as it is. */
  lemma ShiftZero(P: seq<Poly>)
    requires |P| == 128
    ensures ShiftF(P, 0, 0) == P
  {
    forall k | 0 <= k < 128
      ensures ShiftF(P, 0, 0)[k] == P[k]
    {
      ShiftSourceZero(k);
    }
  }

  lemma ShiftSourceZero(k: nat)
    requires k < 128
    ensures ShiftSource(k, 0, 0) == k
  {
    ShiftSourceAt(k / 32, k % 32, 0, 0);
    assert 32 * (k / 32) + k % 32 == k;
  }

  // ---------------------------------------------------------------------
  // theta (cookbook section 2)

  /** The column parities P = A0 + A1 + A2: entry 32*x + z sums column
      (x, z), in the order of the planes. */
  function ParityPlane(A: seq<Poly>): (P: seq<Poly>)
    requires |A| == 384
    ensures |P| == 128
  {
    seq(128, i requires 0 <= i < 128 => Add(Add(A[i], A[i + 128]), A[i + 256]))
  }

  /** The plane of A at offset o with the moved parities E1 and E2 added. */
  function AddEffect(A: seq<Poly>, o: nat, E1: seq<Poly>, E2: seq<Poly>): (t: seq<Poly>)
    requires |A| == 384 && o <= 256 && |E1| == 128 && |E2| == 128
    ensures |t| == 128
  {
    seq(128, j requires 0 <= j < 128 => Add(Add(A[o + j], E1[j]), E2[j]))
  }

  /** theta: E = P <<< (1, 5) + P <<< (1, 14) is added to every plane. */
  function ThetaF(A: seq<Poly>): (t: seq<Poly>)
    requires |A| == 384
    ensures |t| == 384
  {
    var E1, E2 := ShiftF(ParityPlane(A), 1, 5), ShiftF(ParityPlane(A), 1, 14);
    AddEffect(A, 0, E1, E2) + AddEffect(A, 128, E1, E2) + AddEffect(A, 256, E1, E2)
  }

  /** Bit j of plane y of theta's result: that bit plus the moved parities
      at its column j. */
  lemma ThetaAt(A: seq<Poly>, y: nat, j: nat)
    requires |A| == 384 && y < 3 && j < 128
    ensures 128 * y + j < 384
    ensures ThetaF(A)[128 * y + j] == Add(Add(A[128 * y + j], ShiftF(ParityPlane(A), 1, 5)[j]), ShiftF(ParityPlane(A), 1, 14)[j])
  {
    var E1, E2 := ShiftF(ParityPlane(A), 1, 5), ShiftF(ParityPlane(A), 1, 14);
    var T0, T1, T2 := AddEffect(A, 0, E1, E2), AddEffect(A, 128, E1, E2), AddEffect(A, 256, E1, E2);
    assert ThetaF(A) == T0 + T1 + T2;
    if y == 0 {
      assert ThetaF(A)[j] == T0[j];
    } else if y == 1 {
      assert ThetaF(A)[128 + j] == T1[j];
    } else {
      assert ThetaF(A)[256 + j] == T2[j];
    }
  }

  /** The parity P[x, z] of column (x, z). */
  function Parity(A: seq<Poly>, x: nat, z: nat): Poly
    requires |A| == 384 && x < 4 && z < 32
  {
    Add(Add(A[Pos(x, 0, z)], A[Pos(x, 1, z)]), A[Pos(x, 2, z)])
  }

  /** theta on bit (x, y, z): A[x, y, z] + P[x - 1, z - 5] + P[x - 1, z - 14],
      with x taken mod 4 and z mod 32. */
  function ThetaBit(A: seq<Poly>, x: nat, y: nat, z: nat): Poly
    requires |A| == 384 && x < 4 && y < 3 && z < 32
  {
    Add(Add(A[Pos(x, y, z)], Parity(A, (x + 3) % 4, (z + 27) % 32)), Parity(A, (x + 3) % 4, (z + 18) % 32))
  }

  lemma ParityAt(A: seq<Poly>, x: nat, z: nat)
    requires |A| == 384 && x < 4 && z < 32
    ensures ParityPlane(A)[32 * x + z] == Parity(A, x, z)
  {
  }

  /** The moved parities read bit (x, z) of the plane at the columns
      (x - 1, z - 5) and (x - 1, z - 14). */
  lemma EffectAt(A: seq<Poly>, j: nat, x: nat, z: nat)
    requires |A| == 384 && x < 4 && z < 32 && j == 32 * x + z
    ensures ShiftF(ParityPlane(A), 1, 5)[j] == Parity(A, (x + 3) % 4, (z + 27) % 32)
    ensures ShiftF(ParityPlane(A), 1, 14)[j] == Parity(A, (x + 3) % 4, (z + 18) % 32)
  {
    ShiftSourceAt(x, z, 1, 5);
    ShiftSourceAt(x, z, 1, 14);
    ParityAt(A, (x + 3) % 4, (z + 27) % 32);
    ParityAt(A, (x + 3) % 4, (z + 18) % 32);
  }

  /** theta in the cookbook's coordinates. */
  lemma ThetaCookbook(A: seq<Poly>, x: nat, y: nat, z: nat)
    requires |A| == 384 && x < 4 && y < 3 && z < 32
    ensures Pos(x, y, z) < 384 && ThetaF(A)[Pos(x, y, z)] == ThetaBit(A, x, y, z)
  {
    var j := 32 * x + z;
    assert Pos(x, y, z) == 128 * y + j;
    ThetaAt(A, y, j);
    EffectAt(A, j, x, z);
  }

  /** The first loop of `theta`: the column parities. */
  method ColumnParities(X: array<Poly>) returns (P: seq<Poly>)
    requires X.Length == 384
    ensures P == ParityPlane(X[..])
  {
    P := [];
    for i := 0 to 128
      invariant |P| == i
      invariant forall k {:trigger P[k]} :: 0 <= k < i ==> P[k] == Add(Add(X[k], X[k + 128]), X[k + 256])
    {
      P := P + [Add(Add(X[i], X[i + 128]), X[i + 256])];
    }
  }

  /** One of the three append loops of `theta`: plane o / 128 of X with
      E1 and E2 added, appended to T. */
  method AppendPlane(T: seq<Poly>, X: array<Poly>, o: nat, E1: seq<Poly>, E2: seq<Poly>) returns (T': seq<Poly>)
    requires X.Length == 384 && o <= 256 && |E1| == 128 && |E2| == 128
    ensures T' == T + AddEffect(X[..], o, E1, E2)
  {
    ghost var W := AddEffect(X[..], o, E1, E2);
    T' := T;
    for j := 0 to 128
      invariant T' == T + W[..j]
    {
      assert W[..j + 1] == W[..j] + [W[j]];
      T' := T' + [Add(Add(X[o + j], E1[j]), E2[j])];
    }
    assert W[..128] == W;
  }

  /** `theta(X)`: the column parities P, the moved parities E1 and E2, and
      the three planes of the result appended one after the other. */
  method Theta(X: array<Poly>) returns (Y: array<Poly>)
    requires X.Length == 384
    ensures fresh(Y) && Y[..] == ThetaF(X[..])
  {
    var P := ColumnParities(X);
    var E1 := SingleMatrix(P, 1, 5);
    var E2 := SingleMatrix(P, 1, 14);
    var T := AppendPlane([], X, 0, E1, E2);
    T := AppendPlane(T, X, 128, E1, E2);
    T := AppendPlane(T, X, 256, E1, E2);
    assert T == ThetaF(X[..]);
    Y := new Poly[384](k requires 0 <= k < 384 => T[k]);
    assert Y[..] == T;
  }

  /** A state whose every column sums to zero is in theta's kernel: theta
      leaves it as it is. */
  lemma ThetaKernel(A: seq<Poly>)
    requires |A| == 384
    requires forall x, z :: 0 <= x < 4 && 0 <= z < 32 ==> Parity(A, x, z) == Zero
    ensures ThetaF(A) == A
  {
    var P := ParityPlane(A);
    forall i | 0 <= i < 128
      ensures P[i] == Zero
    {
      var x, z := i / 32, i % 32;
      ParityAt(A, x, z);
      assert 32 * x + z == i;
    }
    var E1, E2 := ShiftF(P, 1, 5), ShiftF(P, 1, 14);
    forall o | o == 0 || o == 128 || o == 256
      ensures AddEffect(A, o, E1, E2) == A[o..o + 128]
    {
      forall j | 0 <= j < 128
        ensures AddEffect(A, o, E1, E2)[j] == A[o + j]
      {
        AddZero(A[o + j]);
        AddZero(Add(A[o + j], Zero));
      }
    }
    assert A == A[0..128] + A[128..256] + A[256..384];
  }

  /** The parities of the difference are the difference of the parities. */
  lemma ParityPlaneDifference(A: seq<Poly>)
    requires |A| == 384
    ensures DivUAll(ParityPlane(A)) == ParityPlane(DivUAll(A))
  {
    forall i | 0 <= i < 128
      ensures DivU(ParityPlane(A)[i]) == ParityPlane(DivUAll(A))[i]
    {
      DivUAdd(Add(A[i], A[i + 128]), A[i + 256]);
      DivUAdd(A[i], A[i + 128]);
    }
  }

  /** Adding the moved parities commutes with taking differences. */
  lemma AddEffectDifference(A: seq<Poly>, o: nat, E1: seq<Poly>, E2: seq<Poly>)
    requires |A| == 384 && o <= 256 && |E1| == 128 && |E2| == 128
    ensures DivUAll(AddEffect(A, o, E1, E2)) == AddEffect(DivUAll(A), o, DivUAll(E1), DivUAll(E2))
  {
    forall j | 0 <= j < 128
      ensures DivU(AddEffect(A, o, E1, E2)[j]) == AddEffect(DivUAll(A), o, DivUAll(E1), DivUAll(E2))[j]
    {
      DivUAdd(Add(A[o + j], E1[j]), E2[j]);
      DivUAdd(A[o + j], E1[j]);
    }
  }

  lemma DivUAllConcat(T0: seq<Poly>, T1: seq<Poly>, T2: seq<Poly>)
    ensures DivUAll(T0 + T1 + T2) == DivUAll(T0) + DivUAll(T1) + DivUAll(T2)
  {
  }

  /** Theta only adds bits: the difference of its result is theta of the
      difference. */
  lemma ThetaDifference(A: seq<Poly>)
    requires |A| == 384
    ensures DivUAll(ThetaF(A)) == ThetaF(DivUAll(A))
  {
    var D := DivUAll(A);
    var P := ParityPlane(A);
    var E1, E2 := ShiftF(P, 1, 5), ShiftF(P, 1, 14);
    ParityPlaneDifference(A);
    assert DivUAll(E1) == ShiftF(ParityPlane(D), 1, 5);
    assert DivUAll(E2) == ShiftF(ParityPlane(D), 1, 14);
    AddEffectDifference(A, 0, E1, E2);
    AddEffectDifference(A, 128, E1, E2);
    AddEffectDifference(A, 256, E1, E2);
    DivUAllConcat(AddEffect(A, 0, E1, E2), AddEffect(A, 128, E1, E2), AddEffect(A, 256, E1, E2));
  }

  /** theta maps a state without `u` to a state without `u`. */
  lemma ThetaFree(A: seq<Poly>)
    requires |A| == 384 && StateFree(A)
    ensures StateFree(ThetaF(A))
  {
    var P := ParityPlane(A);
    forall i | 0 <= i < 128
      ensures FreeOfU(P[i])
    {
      AddFree(A[i], A[i + 128]);
      AddFree(Add(A[i], A[i + 128]), A[i + 256]);
    }
    var E1, E2 := ShiftF(P, 1, 5), ShiftF(P, 1, 14);
    var T0, T1, T2 := AddEffect(A, 0, E1, E2), AddEffect(A, 128, E1, E2), AddEffect(A, 256, E1, E2);
    forall o, j | (o == 0 || o == 128 || o == 256) && 0 <= j < 128
      ensures FreeOfU(AddEffect(A, o, E1, E2)[j])
    {
      AddFree(A[o + j], E1[j]);
      AddFree(Add(A[o + j], E1[j]), E2[j]);
    }
    assert ThetaF(A) == T0 + T1 + T2;
    forall k | 0 <= k < 384
      ensures FreeOfU(ThetaF(A)[k])
    {
      if k < 128 {
        assert ThetaF(A)[k] == T0[k];
      } else if k < 256 {
        assert ThetaF(A)[k] == T1[k - 128];
      } else {
        assert ThetaF(A)[k] == T2[k - 256];
      }
    }
  }

  // ---------------------------------------------------------------------
  // rho-west and rho-east (cookbook section 2)

  /** The bit of the state that lands on bit k when plane 1 is moved by
      (t1, v1) and plane 2 by (t2, v2); plane 0 stays where it is. */
  function PlanesSource(k: nat, t1: int, v1: int, t2: int, v2: int): (s: nat)
    requires k < 384
    ensures s < 384 && s / 128 == k / 128
  {
    if k < 128 then k
    else if k < 256 then 128 + ShiftSource(k - 128, t1, v1)
    else 256 + ShiftSource(k - 256, t2, v2)
  }

  function MovePlanes(A: seq<Poly>, t1: int, v1: int, t2: int, v2: int): (B: seq<Poly>)
    requires |A| == 384
    ensures |B| == 384
  {
    seq(384, k requires 0 <= k < 384 => A[PlanesSource(k, t1, v1, t2, v2)])
  }

  /** rho-west: A1 moved by (1, 0) and A2 by (0, 11). */
  function RhoWestF(A: seq<Poly>): (B: seq<Poly>)
    requires |A| == 384
    ensures |B| == 384
  {
    MovePlanes(A, 1, 0, 0, 11)
  }

  /** rho-east: A1 moved by (0, 1) and A2 by (2, 8). */
  function RhoEastF(A: seq<Poly>): (B: seq<Poly>)
    requires |A| == 384
    ensures |B| == 384
  {
    MovePlanes(A, 0, 1, 2, 8)
  }

  /** Plane y of A replaced by its move by (t, v): the slice assignment
      `X[128*y : 128*y + 128] = SingleMatrix(X[128*y : 128*y + 128], t, v)`. */
  function PlaneMoved(A: seq<Poly>, y: nat, t: int, v: int): (B: seq<Poly>)
    requires |A| == 384 && y < 3
    ensures |B| == 384
  {
    A[..128 * y] + ShiftF(A[128 * y .. 128 * y + 128], t, v) + A[128 * y + 128 ..]
  }

  lemma PlaneMovedAt(A: seq<Poly>, y: nat, t: int, v: int, k: nat)
    requires |A| == 384 && y < 3 && k < 384
    ensures PlaneMoved(A, y, t, v)[k] == if k / 128 == y then A[128 * y + ShiftSource(k - 128 * y, t, v)] else A[k]
  {
    var B := ShiftF(A[128 * y .. 128 * y + 128], t, v);
    if k / 128 == y {
      assert PlaneMoved(A, y, t, v)[k] == B[k - 128 * y];
    } else if k < 128 * y {
      assert PlaneMoved(A, y, t, v)[k] == A[..128 * y][k];
    } else {
      assert PlaneMoved(A, y, t, v)[k] == A[128 * y + 128 ..][k - 128 * y - 128];
    }
  }

  /** One slice assignment of `rhowest` or `rhoeast`, in place. */
  method MovePlane(X: array<Poly>, y: nat, t: int, v: int)
    requires X.Length == 384 && y < 3
    modifies X
    ensures X[..] == PlaneMoved(old(X[..]), y, t, v)
  {
    ghost var A := X[..];
    var Y := SingleMatrix(X[128 * y .. 128 * y + 128], t, v);
    forall k | 0 <= k < 128 {
      X[128 * y + k] := Y[k];
    }
    forall k | 0 <= k < 384
      ensures X[..][k] == PlaneMoved(A, y, t, v)[k]
    {
      PlaneMovedAt(A, y, t, v, k);
    }
  }

  /** The three slice assignments move planes 1 and 2 and, moving plane 0
      by (0, 0), leave it as it is. */
  lemma PlanesMoved(A: seq<Poly>, t1: int, v1: int, t2: int, v2: int)
    requires |A| == 384
    ensures PlaneMoved(PlaneMoved(PlaneMoved(A, 0, 0, 0), 1, t1, v1), 2, t2, v2) == MovePlanes(A, t1, v1, t2, v2)
  {
    var B2 := PlaneMoved(PlaneMoved(PlaneMoved(A, 0, 0, 0), 1, t1, v1), 2, t2, v2);
    forall k | 0 <= k < 384
      ensures B2[k] == MovePlanes(A, t1, v1, t2, v2)[k]
    {
      PlanesMovedAt(A, t1, v1, t2, v2, k);
    }
  }

  lemma PlanesMovedAt(A: seq<Poly>, t1: int, v1: int, t2: int, v2: int, k: nat)
    requires |A| == 384 && k < 384
    ensures PlaneMoved(PlaneMoved(PlaneMoved(A, 0, 0, 0), 1, t1, v1), 2, t2, v2)[k] == A[PlanesSource(k, t1, v1, t2, v2)]
  {
    var B0 := PlaneMoved(A, 0, 0, 0);
    var B1 := PlaneMoved(B0, 1, t1, v1);
    PlaneMovedAt(B1, 2, t2, v2, k);
    if k < 128 {
      PlaneMovedAt(B0, 1, t1, v1, k);
      PlaneMovedAt(A, 0, 0, 0, k);
      ShiftSourceZero(k);
    } else if k < 256 {
      var s := 128 + ShiftSource(k - 128, t1, v1);
      PlaneMovedAt(B0, 1, t1, v1, k);
      PlaneMovedAt(A, 0, 0, 0, s);
    } else {
      var s := 256 + ShiftSource(k - 256, t2, v2);
      PlaneMovedAt(B0, 1, t1, v1, s);
      PlaneMovedAt(A, 0, 0, 0, s);
    }
  }

  /** `rhowest(X)`, in place. */
  method RhoWest(X: array<Poly>)
    requires X.Length == 384
    modifies X
    ensures X[..] == RhoWestF(old(X[..]))
  {
    PlanesMoved(X[..], 1, 0, 0, 11);
    MovePlane(X, 0, 0, 0);
    MovePlane(X, 1, 1, 0);
    MovePlane(X, 2, 0, 11);
  }

  /** `rhoeast(X)`, in place. */
  method RhoEast(X: array<Poly>)
    requires X.Length == 384
    modifies X
    ensures X[..] == RhoEastF(old(X[..]))
  {
    PlanesMoved(X[..], 0, 1, 2, 8);
    MovePlane(X, 0, 0, 0);
    MovePlane(X, 1, 0, 1);
    MovePlane(X, 2, 2, 8);
  }

  /** Moving the planes sends bit (x, 1, z) to (x + t1, 1, z + v1) and bit
      (x, 2, z) to (x + t2, 2, z + v2), and leaves plane 0 in place. */
  lemma MovePlanesMoves(A: seq<Poly>, t1: int, v1: int, t2: int, v2: int, x: nat, z: nat)
    requires |A| == 384 && x < 4 && z < 32
    ensures MovePlanes(A, t1, v1, t2, v2)[Pos(x, 0, z)] == A[Pos(x, 0, z)]
    ensures MovePlanes(A, t1, v1, t2, v2)[Pos((x + t1) % 4, 1, (z + v1) % 32)] == A[Pos(x, 1, z)]
    ensures MovePlanes(A, t1, v1, t2, v2)[Pos((x + t2) % 4, 2, (z + v2) % 32)] == A[Pos(x, 2, z)]
  {
    MovedFrom(x, z, 1, t1, v1, t1, v1, t2, v2);
    MovedFrom(x, z, 2, t2, v2, t1, v1, t2, v2);
  }

  /** The bit that lands on (x + t, y, z + v) of plane y = 1 or 2, moved by
      (t, v), is bit (x, y, z). */
  lemma MovedFrom(x: nat, z: nat, y: nat, t: int, v: int, t1: int, v1: int, t2: int, v2: int)
    requires x < 4 && z < 32 && (y == 1 || y == 2)
    requires y == 1 ==> t == t1 && v == v1
    requires y == 2 ==> t == t2 && v == v2
    ensures Pos((x + t) % 4, y, (z + v) % 32) < 384
    ensures PlanesSource(Pos((x + t) % 4, y, (z + v) % 32), t1, v1, t2, v2) == Pos(x, y, z)
  {
    var j := 32 * ((x + t) % 4) + (z + v) % 32;
    assert j < 128;
    assert Pos((x + t) % 4, y, (z + v) % 32) == 128 * y + j;
    ShiftTarget(x, z, t, v);
  }

  /** Moving back by the opposite offsets undoes a move of the planes. */
  lemma MovePlanesInverse(A: seq<Poly>, t1: int, v1: int, t2: int, v2: int)
    requires |A| == 384
    ensures MovePlanes(MovePlanes(A, t1, v1, t2, v2), -t1, -v1, -t2, -v2) == A
  {
    forall k | 0 <= k < 384
      ensures MovePlanes(MovePlanes(A, t1, v1, t2, v2), -t1, -v1, -t2, -v2)[k] == A[k]
    {
      PlanesSourceInverse(k, t1, v1, t2, v2);
    }
  }

  lemma PlanesSourceInverse(k: nat, t1: int, v1: int, t2: int, v2: int)
    requires k < 384
    ensures PlanesSource(PlanesSource(k, -t1, -v1, -t2, -v2), t1, v1, t2, v2) == k
  {
    if 128 <= k < 256 {
      ShiftSourceInverse(k - 128, t1, v1);
    } else if 256 <= k {
      ShiftSourceInverse(k - 256, t2, v2);
    }
  }

  /** Moving bits commutes with taking differences. */
  lemma MovePlanesDifference(A: seq<Poly>, t1: int, v1: int, t2: int, v2: int)
    requires |A| == 384
    ensures DivUAll(MovePlanes(A, t1, v1, t2, v2)) == MovePlanes(DivUAll(A), t1, v1, t2, v2)
  {
  }

  lemma MovePlanesFree(A: seq<Poly>, t1: int, v1: int, t2: int, v2: int)
    requires |A| == 384 && StateFree(A)
    ensures StateFree(MovePlanes(A, t1, v1, t2, v2))
  {
  }

  // ---------------------------------------------------------------------
  // iota (cookbook section 2)

  /** The script's table of the round constants of rounds 0 .. 11, the
      cookbook's C_{-11} .. C_0; each fits in 16 bits. */
  const RoundConstants: seq<nat> := [
      0x0058, 0x0038, 0x03c0, 0x00d0, 0x0120, 0x0014, 0x0060, 0x002c, 0x0380, 0x00f0, 0x01a0, 0x0012
  ]

  /** A round index the constant table has an entry for. */
  predicate RoundIndex(r: int) { 0 <= r < |RoundConstants| }

  /** iota: bit i < 16 of lane (0, 0) gets 1 added where bit i of the
      round constant is set; every other bit is unchanged. */
  function IotaF(A: seq<Poly>, r: int): (t: seq<Poly>)
    requires |A| == 384 && RoundIndex(r)
    ensures |t| == 384
  {
    seq(384, k requires 0 <= k < 384 =>
      if k < 16 && Bit(RoundConstants[r], k) == 1 then Add(A[k], One) else A[k])
  }

  /** `addConst(X, r)`, in place. */
  method AddConst(X: array<Poly>, r: int)
    requires X.Length == 384 && RoundIndex(r)
    modifies X
    ensures X[..] == IotaF(old(X[..]), r)
  {
    ghost var A := X[..];
    for i := 0 to 16
      invariant forall k :: 0 <= k < 384 ==> X[k] == if k < i then IotaF(A, r)[k] else A[k]
    {
      if Bit(RoundConstants[r], i) == 1 {
        X[i] := Add(X[i], One);
      }
    }
    assert forall k :: 0 <= k < 384 ==> X[..][k] == IotaF(A, r)[k];
  }

  /** The 16 bits the script visits cover the whole constant: on all of
      lane (0, 0), iota adds bit k of the constant to bit k. */
  lemma IotaLane(A: seq<Poly>, r: int, k: nat)
    requires |A| == 384 && RoundIndex(r) && k < 32
    ensures IotaF(A, r)[k] == if Bit(RoundConstants[r], k) == 1 then Add(A[k], One) else A[k]
  {
    if k >= 16 {
      assert Pow2(4) == 16;
      Pow2Add(4, 4);
      Pow2Add(8, 8);
      BitAbove(RoundConstants[r], k, 16);
    }
  }

  /** iota adds constants only, so the difference is unchanged. */
  lemma IotaDifference(A: seq<Poly>, r: int)
    requires |A| == 384 && RoundIndex(r)
    ensures DivUAll(IotaF(A, r)) == DivUAll(A)
  {
    forall k | 0 <= k < 384
      ensures DivU(IotaF(A, r)[k]) == DivU(A[k])
    {
      if k < 16 && Bit(RoundConstants[r], k) == 1 {
        DivUAddConst(A[k], 1);
      }
    }
  }

  /** Applying iota twice with the same constant gives the state back. */
  lemma IotaInvolution(A: seq<Poly>, r: int)
    requires |A| == 384 && RoundIndex(r)
    ensures IotaF(IotaF(A, r), r) == A
  {
    forall k | 0 <= k < 384
      ensures IotaF(IotaF(A, r), r)[k] == A[k]
    {
      if k < 16 && Bit(RoundConstants[r], k) == 1 {
        AddAssociative(A[k], One, One);
        AddSelf(One);
        AddZero(A[k]);
      }
    }
  }

  lemma IotaFree(A: seq<Poly>, r: int)
    requires |A| == 384 && RoundIndex(r) && StateFree(A)
    ensures StateFree(IotaF(A, r))
  {
    forall k | 0 <= k < 384
      ensures FreeOfU(IotaF(A, r)[k])
    {
      AddFree(A[k], One);
    }
  }

  // ---------------------------------------------------------------------
  // chi (cookbook section 2)

  /** chi on one plane: bit j = 32*x + z of the plane at offset o0 becomes
      A[o0 + j] + (A[o1 + j] + 1) * A[o2 + j], where o1 and o2 are the
      offsets of the next two planes, y + 1 and y + 2 mod 3. */
  function ChiPlane(A: seq<Poly>, o0: nat, o1: nat, o2: nat): (t: seq<Poly>)
    requires |A| == 384 && o0 <= 256 && o1 <= 256 && o2 <= 256
    ensures |t| == 128
  {
    seq(128, j requires 0 <= j < 128 => Add(A[o0 + j], Mul(Add(One, A[o1 + j]), A[o2 + j])))
  }

  /** chi: A[x, y, z] + (A[x, y + 1, z] + 1) * A[x, y + 2, z], y mod 3. */
  function ChiF(A: seq<Poly>): (t: seq<Poly>)
    requires |A| == 384
    ensures |t| == 384
  {
    ChiPlane(A, 0, 128, 256) + ChiPlane(A, 128, 256, 0) + ChiPlane(A, 256, 0, 128)
  }

  /** The three outputs of the 3-bit S-box on one column. */
  datatype Column = Column(y0: Poly, y1: Poly, y2: Poly)

  /** `SingleSbox`: the column map y_i = x_i + (1 + x_{i+1}) * x_{i+2}. */
  function SingleSbox(x0: Poly, x1: Poly, x2: Poly): Column
  {
    Column(Add(x0, Mul(Add(One, x1), x2)),
           Add(x1, Mul(Add(One, x2), x0)),
           Add(x2, Mul(Add(One, x0), x1)))
  }

  /** Chi's three bits of the column at offset j. */
  lemma ChiColumn(A: seq<Poly>, j: nat)
    requires |A| == 384 && j < 128
    ensures ChiF(A)[j] == Add(A[j], Mul(Add(One, A[128 + j]), A[256 + j]))
    ensures ChiF(A)[128 + j] == Add(A[128 + j], Mul(Add(One, A[256 + j]), A[j]))
    ensures ChiF(A)[256 + j] == Add(A[256 + j], Mul(Add(One, A[j]), A[128 + j]))
  {
    var P0, P1, P2 := ChiPlane(A, 0, 128, 256), ChiPlane(A, 128, 256, 0), ChiPlane(A, 256, 0, 128);
    assert ChiF(A)[j] == P0[j];
    assert ChiF(A)[128 + j] == P1[j];
    assert ChiF(A)[256 + j] == P2[j];
  }

  /** The S-box applied to the column at offset j gives chi's three bits
      of that column. */
  lemma SboxColumnIsChi(A: seq<Poly>, j: nat)
    requires |A| == 384 && j < 128
    ensures SingleSbox(A[j], A[128 + j], A[256 + j]) == Column(ChiF(A)[j], ChiF(A)[128 + j], ChiF(A)[256 + j])
  {
    ChiColumn(A, j);
  }

  /** Bits of B in columns below n already hold the bits of T. */
  ghost predicate ColumnsBelow(B: seq<Poly>, T: seq<Poly>, n: nat)
    requires |B| == 384 && |T| == 384
  {
    forall k {:trigger B[k]} :: 0 <= k < 384 && k % 128 < n ==> B[k] == T[k]
  }

  /** Writing the three bits of column j extends the finished columns. */
  lemma ColumnStep(B: seq<Poly>, B': seq<Poly>, T: seq<Poly>, j: nat)
    requires |B| == 384 && |T| == 384 && j < 128
    requires ColumnsBelow(B, T, j)
    requires B' == B[j := T[j]][128 + j := T[128 + j]][256 + j := T[256 + j]]
    ensures |B'| == 384 && ColumnsBelow(B', T, j + 1)
  {
    forall k | 0 <= k < 384 && k % 128 < j + 1
      ensures B'[k] == T[k]
    {
      if k % 128 == j {
        assert k == j || k == 128 + j || k == 256 + j;
      }
    }
  }

  /** `chi(A)`: a fresh state filled column by column with `SingleSbox`. */
  method Chi(A: array<Poly>) returns (B: array<Poly>)
    requires A.Length == 384
    ensures fresh(B) && B[..] == ChiF(A[..])
  {
    ghost var S := A[..];
    ghost var T := ChiF(S);
    B := new Poly[384](_ => Zero);
    for j := 0 to 128
      invariant B.Length == 384 && ColumnsBelow(B[..], T, j)
    {
      SboxColumnIsChi(S, j);
      var t := SingleSbox(A[0 + j], A[128 + j], A[256 + j]);
      ghost var B0 := B[..];
      B[0 + j], B[128 + j], B[256 + j] := t.y0, t.y1, t.y2;
      ColumnStep(B0, B[..], T, j);
    }
    assert forall k :: 0 <= k < 384 ==> B[..][k] == T[k];
  }

  /** On constant bits the S-box is the Boolean map
      b_i = a_i xor (not a_{i+1} and a_{i+2}). */
  lemma SboxOfConstants(a0: nat, a1: nat, a2: nat)
    ensures SingleSbox(Const(a0), Const(a1), Const(a2))
         == Column(Const(a0 + (1 - a1 % 2) * (a2 % 2)),
                   Const(a1 + (1 - a2 % 2) * (a0 % 2)),
                   Const(a2 + (1 - a0 % 2) * (a1 % 2)))
  {
    ChiOfConstants(a0, a1, a2);
    ChiOfConstants(a1, a2, a0);
    ChiOfConstants(a2, a0, a1);
  }

  /** chi maps a state without `u` to a state without `u`: a zero
      difference stays zero. */
  lemma ChiFree(A: seq<Poly>)
    requires |A| == 384 && StateFree(A)
    ensures StateFree(ChiF(A))
  {
    var P0, P1, P2 := ChiPlane(A, 0, 128, 256), ChiPlane(A, 128, 256, 0), ChiPlane(A, 256, 0, 128);
    ChiPlaneFree(A, 0, 128, 256);
    ChiPlaneFree(A, 128, 256, 0);
    ChiPlaneFree(A, 256, 0, 128);
    assert ChiF(A) == P0 + P1 + P2;
    forall k | 0 <= k < 384
      ensures FreeOfU(ChiF(A)[k])
    {
      if k < 128 {
        assert ChiF(A)[k] == P0[k];
      } else if k < 256 {
        assert ChiF(A)[k] == P1[k - 128];
      } else {
        assert ChiF(A)[k] == P2[k - 256];
      }
    }
  }

  lemma ChiPlaneFree(A: seq<Poly>, o0: nat, o1: nat, o2: nat)
    requires |A| == 384 && o0 <= 256 && o1 <= 256 && o2 <= 256 && StateFree(A)
    ensures forall j :: 0 <= j < 128 ==> FreeOfU(ChiPlane(A, o0, o1, o2)[j])
  {
    forall j | 0 <= j < 128
      ensures FreeOfU(ChiPlane(A, o0, o1, o2)[j])
    {
      var a1 := Add(One, A[o1 + j]);
      AddFree(One, A[o1 + j]);
      MulFree(a1, A[o2 + j]);
      AddFree(A[o0 + j], Mul(a1, A[o2 + j]));
    }
  }

  // ---------------------------------------------------------------------
  // The round

  /** One Xoodoo round with constant i: theta, rho-west, iota, chi and
      rho-east. */
  function RoundF(A: seq<Poly>, i: int): (B: seq<Poly>)
    requires |A| == 384 && RoundIndex(i)
    ensures |B| == 384
  {
    RhoEastF(ChiF(IotaF(RhoWestF(ThetaF(A)), i)))
  }

  /** Rounds i .. n - 1 applied to A, in that order. */
  function RoundsF(A: seq<Poly>, i: nat, n: nat): (B: seq<Poly>)
    requires |A| == 384 && i <= n <= |RoundConstants|
    ensures |B| == 384
    decreases n - i
  {
    if i == n then A else RoundsF(RoundF(A, i), i + 1, n)
  }

  /** `round(X)`: rounds 0 and 1 on fresh states; X is not changed. */
  method Round(X: array<Poly>) returns (Y: array<Poly>)
    requires X.Length == 384
    ensures Y.Length == 384 && Y[..] == RoundsF(X[..], 0, 2)
  {
    ghost var A := X[..];
    Y := X;
    for i := 0 to 2
      invariant Y.Length == 384 && RoundsF(Y[..], i, 2) == RoundsF(A, 0, 2)
      invariant i > 0 ==> fresh(Y)
    {
      ghost var B := Y[..];
      var T := Theta(Y);
      RhoWest(T);
      AddConst(T, i);
      var C := Chi(T);
      RhoEast(C);
      assert C[..] == RoundF(B, i);
      Y := C;
    }
  }

  /** One round maps a state without `u` to a state without `u`. */
  lemma RoundFree(A: seq<Poly>, i: int)
    requires |A| == 384 && RoundIndex(i) && StateFree(A)
    ensures StateFree(RoundF(A, i))
  {
    ThetaFree(A);
    MovePlanesFree(ThetaF(A), 1, 0, 0, 11);
    IotaFree(RhoWestF(ThetaF(A)), i);
    ChiFree(IotaF(RhoWestF(ThetaF(A)), i));
    MovePlanesFree(ChiF(IotaF(RhoWestF(ThetaF(A)), i)), 0, 1, 2, 8);
  }

  /** A zero difference stays zero through any number of rounds. */
  lemma {:induction false} RoundsFree(A: seq<Poly>, i: nat, n: nat)
    requires |A| == 384 && i <= n <= |RoundConstants| && StateFree(A)
    ensures StateFree(RoundsF(A, i, n))
    decreases n - i
  {
    if i < n {
      RoundFree(A, i);
      RoundsFree(RoundF(A, i), i + 1, n);
    }
  }
}
