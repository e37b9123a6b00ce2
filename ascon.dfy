/** The Ascon permutation layers of `ascon/code/2rhash_Zong.py`, over
    ring elements, in the order of section 2.6 of the Ascon v1.2
    specification: constant addition, substitution layer and linear
    diffusion layer.

    The state is the five 64-bit words x0 .. x4 laid end to end: bit j of
    word x_l is at index 64l + j, and bit j counts from the most
    significant end, so index 64l is the top bit of x_l. */
module Ascon {
  import opened Common
  import opened Anf

  // ---------------------------------------------------------------------
  // State layout

  /** The word an index belongs to, and its place inside the word. */
  function LaneIdx(k: nat): nat { k / 64 }
  function Offset(k: nat): nat { k % 64 }

  lemma IndexParts(l: nat, j: nat)
    requires j < 64
    ensures LaneIdx(64 * l + j) == l && Offset(64 * l + j) == j
  {
  }

  lemma IndexSplit(k: nat)
    requires k < 320
    ensures LaneIdx(k) < 5 && Offset(k) < 64 && k == 64 * LaneIdx(k) + Offset(k)
  {
  }

  /** Word x_l of the state. */
  function Word(A: seq<Poly>, l: nat): (w: seq<Poly>)
    requires |A| == 320 && l < 5
    ensures |w| == 64 && forall j :: 0 <= j < 64 ==> w[j] == A[64 * l + j]
  {
    A[64 * l .. 64 * l + 64]
  }

  // ---------------------------------------------------------------------
  // Words as bit rows, most significant bit first

  /** The n low bits of w, the most significant first: entry j is
      `w >> (n - 1 - j) & 1`. */
  function MsbBits(w: nat, n: nat): (b: seq<int>)
    ensures |b| == n && forall j :: 0 <= j < n ==> b[j] == Bit(w, n - 1 - j)
  {
    seq(n, j requires 0 <= j < n => Bit(w, n - 1 - j))
  }

  /** The number a row of bits spells, the most significant first. */
  function MsbValue(b: seq<int>): int
  {
    if |b| == 0 then 0 else 2 * MsbValue(b[..|b| - 1]) + b[|b| - 1]
  }

  /** Reading the bits back gives the word: the bit order is a faithful
      encoding of every n-bit number. */
  lemma {:induction false} MsbRoundTrip(w: nat, n: nat)
    requires w < Pow2(n)
    ensures MsbValue(MsbBits(w, n)) == w
  {
    if n > 0 {
      var b := MsbBits(w, n);
      assert b[..n - 1] == MsbBits(w / 2, n - 1);
      MsbRoundTrip(w / 2, n - 1);
    } else {
      assert w == 0;
    }
  }

  /** A row of 320 labels holding the words `ws` most significant bit first
      (word x_l in bits 64l .. 64l + 63); the words after the last given one
      are 0. */
  function WordRow(ws: seq<nat>): (row: seq<int>)
    ensures |row| == 320
  {
    seq(320, k requires 0 <= k < 320 =>
      if LaneIdx(k) < |ws| then Bit(ws[LaneIdx(k)], 63 - Offset(k)) else 0)
  }

  /** Word l of the row is the 64-bit encoding of `ws[l]` (of 0 for the
      words after the given ones), and it reads back as `ws[l]`. */
  lemma WordRowDecodes(ws: seq<nat>, l: nat)
    requires l < 5
    ensures WordRow(ws)[64 * l .. 64 * l + 64] == MsbBits(if l < |ws| then ws[l] else 0, 64)
    ensures l < |ws| && ws[l] < Pow2(64) ==> MsbValue(WordRow(ws)[64 * l .. 64 * l + 64]) == ws[l]
    ensures l >= |ws| ==> MsbValue(WordRow(ws)[64 * l .. 64 * l + 64]) == 0
  {
    var w := if l < |ws| then ws[l] else 0;
    forall j | 0 <= j < 64
      ensures WordRow(ws)[64 * l .. 64 * l + 64][j] == MsbBits(w, 64)[j]
    {
      IndexParts(l, j);
      if l >= |ws| {
        BitOfZero(63 - j);
      }
    }
    assert WordRow(ws)[64 * l .. 64 * l + 64] == MsbBits(w, 64);
    if l < |ws| && ws[l] < Pow2(64) {
      MsbRoundTrip(ws[l], 64);
    }
    if l >= |ws| {
      MsbRoundTrip(0, 64);
    }
  }

  lemma BitOfZero(i: nat)
    ensures Bit(0, i) == 0
  {
    BitAbove(0, i, 0);
  }

  // ---------------------------------------------------------------------
  // Constant addition (section 2.6.1)

  /** The script's table of the twelve round constants. */
  const Constants: seq<nat> := [0xf0, 0xe1, 0xd2, 0xc3, 0xb4, 0xa5, 0x96, 0x87, 0x78, 0x69, 0x5a, 0x4b]

  /** The table is Ascon's: constant r has high nibble 15 - r and low
      nibble r, that is 0xf0 - 0x0f * r; every constant fits a byte. */
  lemma ConstantsFormula(r: nat)
    requires r < |Constants|
    ensures Constants[r] == 0xf0 - 0x0f * r == 16 * (15 - r) + r
    ensures Constants[r] < Pow2(8)
  {
    assert Constants == seq(12, i requires 0 <= i < 12 => 0xf0 - 0x0f * i);
    assert Pow2(8) == 256;
  }

  /** `addConst(X, r)`: bit 184 + i gets 1 added where bit 7 - i of
      constant r is set, for i < 8; every other bit is unchanged. */
  function AddConstF(A: seq<Poly>, r: nat): (t: seq<Poly>)
    requires |A| == 320 && r < |Constants|
    ensures |t| == 320
  {
    seq(320, k requires 0 <= k < 320 =>
      if 184 <= k < 192 && Bit(Constants[r], 191 - k) == 1 then Add(A[k], One) else A[k])
  }

  /** `addConst(X, r)`, in place. */
  method AddConst(X: array<Poly>, r: nat)
    requires X.Length == 320 && r < |Constants|
    modifies X
    ensures X[..] == AddConstF(old(X[..]), r)
  {
    ghost var A := X[..];
    for i := 0 to 8
      invariant forall k :: 0 <= k < 320 ==> X[k] == if k < 184 + i then AddConstF(A, r)[k] else A[k]
    {
      if Bit(Constants[r], 7 - i) == 1 {
        X[184 + i] := Add(X[184 + i], One);
      }
    }
    assert forall k :: 0 <= k < 320 ==> X[..][k] == AddConstF(A, r)[k];
  }

  /** The state whose word x2 is constant r and whose other words are 0. */
  function ConstantRow(r: nat): (row: seq<int>)
    requires r < |Constants|
    ensures |row| == 320
  {
    WordRow([0, 0, Constants[r]])
  }

  /** Constant addition is Ascon's `x2 = x2 xor c_r`: every bit of the
      state gets the matching bit of the state holding c_r in word x2. */
  lemma AddConstIsWordXor(A: seq<Poly>, r: nat, k: nat)
    requires |A| == 320 && r < |Constants| && k < 320
    ensures AddConstF(A, r)[k] == Add(A[k], Const(ConstantRow(r)[k]))
  {
    ConstantsFormula(r);
    IndexSplit(k);
    var l, j := LaneIdx(k), Offset(k);
    if l < 2 {
      BitOfZero(63 - j);
    } else if l == 2 && j < 56 {
      BitAbove(Constants[r], 63 - j, 8);
    }
    assert ConstantRow(r)[k] == 1 <==> 184 <= k < 192 && Bit(Constants[r], 191 - k) == 1;
    AddZero(A[k]);
  }

  /** Adding a constant leaves the difference of every bit as it is. */
  lemma AddConstDifference(A: seq<Poly>, r: nat)
    requires |A| == 320 && r < |Constants|
    ensures DivUAll(AddConstF(A, r)) == DivUAll(A)
  {
    forall k | 0 <= k < 320
      ensures DivU(AddConstF(A, r)[k]) == DivU(A[k])
    {
      if 184 <= k < 192 && Bit(Constants[r], 191 - k) == 1 {
        DivUAddConst(A[k], 1);
      }
    }
  }

  /** Adding the same constant twice gives the state back. */
  lemma AddConstInvolution(A: seq<Poly>, r: nat)
    requires |A| == 320 && r < |Constants|
    ensures AddConstF(AddConstF(A, r), r) == A
  {
    forall k | 0 <= k < 320
      ensures AddConstF(AddConstF(A, r), r)[k] == A[k]
    {
      if 184 <= k < 192 && Bit(Constants[r], 191 - k) == 1 {
        AddAssociative(A[k], One, One);
        AddSelf(One);
        AddZero(A[k]);
      }
    }
  }

  lemma AddConstFree(A: seq<Poly>, r: nat)
    requires |A| == 320 && r < |Constants| && StateFree(A)
    ensures StateFree(AddConstF(A, r))
  {
    forall k | 0 <= k < 320
      ensures FreeOfU(AddConstF(A, r)[k])
    {
      AddFree(A[k], One);
    }
  }

  // ---------------------------------------------------------------------
  // Substitution layer (section 2.6.2)

  /** The five outputs of the 5-bit S-box on one bit slice. */
  datatype Slice = Slice(x0: Poly, x1: Poly, x2: Poly, x3: Poly, x4: Poly)

  /** `SingleSbox`: the algebraic normal form of the Ascon S-box, input y0
      the bit of word x0. */
  function SingleSbox(y0: Poly, y1: Poly, y2: Poly, y3: Poly, y4: Poly): Slice
  {
    Slice(Out0(y0, y1, y2, y3, y4), Out1(y0, y1, y2, y3, y4), Out2(y0, y1, y2, y3, y4),
          Out3(y0, y1, y2, y3, y4), Out4(y0, y1, y2, y3, y4))
  }

  function Out0(y0: Poly, y1: Poly, y2: Poly, y3: Poly, y4: Poly): Poly
  {
    Add(Add(Add(Add(Add(Add(Mul(y4, y1), y3), Mul(y2, y1)), y2), Mul(y1, y0)), y1), y0)
  }

  function Out1(y0: Poly, y1: Poly, y2: Poly, y3: Poly, y4: Poly): Poly
  {
    Add(Add(Add(Add(Add(Add(Add(y4, Mul(y3, y2)), Mul(y3, y1)), y3), Mul(y2, y1)), y2), y1), y0)
  }

  function Out2(y0: Poly, y1: Poly, y2: Poly, y3: Poly, y4: Poly): Poly
  {
    Add(Add(Add(Add(Mul(y4, y3), y4), y2), y1), One)
  }

  function Out3(y0: Poly, y1: Poly, y2: Poly, y3: Poly, y4: Poly): Poly
  {
    Add(Add(Add(Add(Add(Add(Mul(y4, y0), y4), Mul(y3, y0)), y3), y2), y1), y0)
  }

  function Out4(y0: Poly, y1: Poly, y2: Poly, y3: Poly, y4: Poly): Poly
  {
    Add(Add(Add(Add(Mul(y4, y1), y4), y3), Mul(y1, y0)), y1)
  }

  /** Output l of a slice. */
  function Pick(s: Slice, l: nat): Poly
    requires l < 5
  {
    if l == 0 then s.x0 else if l == 1 then s.x1 else if l == 2 then s.x2 else if l == 3 then s.x3 else s.x4
  }

  /** The S-box applied to bit slice j: bit j of the five words. */
  function SliceAt(A: seq<Poly>, j: nat): Slice
    requires |A| == 320 && j < 64
  {
    SingleSbox(A[j], A[64 + j], A[128 + j], A[192 + j], A[256 + j])
  }

  /** The substitution layer: bit j of word l is output l of slice j. */
  function SboxF(A: seq<Poly>): (t: seq<Poly>)
    requires |A| == 320
    ensures |t| == 320
  {
    seq(320, k requires 0 <= k < 320 => Pick(SliceAt(A, Offset(k)), LaneIdx(k)))
  }

  /** The slices below n are written, every other bit still 0. */
  ghost predicate SlicesBelow(B: seq<Poly>, T: seq<Poly>, n: nat)
    requires |B| == 320 && |T| == 320
  {
    forall k {:trigger B[k]} :: 0 <= k < 320 ==> B[k] == if Offset(k) < n then T[k] else Zero
  }

  /** The five bits of slice j of the layer are the S-box outputs of that
      slice. */
  lemma SboxSlice(A: seq<Poly>, j: nat)
    requires |A| == 320 && j < 64
    ensures SboxF(A)[j] == SliceAt(A, j).x0 && SboxF(A)[64 + j] == SliceAt(A, j).x1
    ensures SboxF(A)[128 + j] == SliceAt(A, j).x2 && SboxF(A)[192 + j] == SliceAt(A, j).x3
    ensures SboxF(A)[256 + j] == SliceAt(A, j).x4
  {
    IndexParts(0, j);
    IndexParts(1, j);
    IndexParts(2, j);
    IndexParts(3, j);
    IndexParts(4, j);
  }

  /** Writing the five bits of slice j extends the written slices. */
  lemma SliceStep(B: seq<Poly>, B': seq<Poly>, T: seq<Poly>, j: nat)
    requires |B| == 320 && |T| == 320 && j < 64
    requires SlicesBelow(B, T, j)
    requires B' == B[j := T[j]][64 + j := T[64 + j]][128 + j := T[128 + j]]
                    [192 + j := T[192 + j]][256 + j := T[256 + j]]
    ensures |B'| == 320 && SlicesBelow(B', T, j + 1)
  {
    forall k | 0 <= k < 320
      ensures B'[k] == if Offset(k) < j + 1 then T[k] else Zero
    {
      IndexSplit(k);
      if Offset(k) == j {
        assert k == j || k == 64 + j || k == 128 + j || k == 192 + j || k == 256 + j;
      } else {
        assert k != j && k != 64 + j && k != 128 + j && k != 192 + j && k != 256 + j;
      }
    }
  }

  /** `Sbox(Y)`: a fresh state of zeros filled slice by slice. */
  method Sbox(Y: array<Poly>) returns (Z: array<Poly>)
    requires Y.Length == 320
    ensures fresh(Z) && Z[..] == SboxF(Y[..])
  {
    ghost var A := Y[..];
    ghost var T := SboxF(A);
    Z := new Poly[320](_ => Zero);
    for j := 0 to 64
      invariant Z.Length == 320 && SlicesBelow(Z[..], T, j)
    {
      var s := SingleSbox(Y[j], Y[64 + j], Y[128 + j], Y[192 + j], Y[256 + j]);
      SboxSlice(A, j);
      ghost var B := Z[..];
      Z[j], Z[64 + j], Z[128 + j], Z[192 + j], Z[256 + j] := s.x0, s.x1, s.x2, s.x3, s.x4;
      SliceStep(B, Z[..], T, j);
    }
    assert forall k :: 0 <= k < 320 ==> Z[..][k] == T[k];
  }

  /** The S-box maps a slice without `u` to a slice without `u`. */
  lemma SliceFree(y0: Poly, y1: Poly, y2: Poly, y3: Poly, y4: Poly)
    requires FreeOfU(y0) && FreeOfU(y1) && FreeOfU(y2) && FreeOfU(y3) && FreeOfU(y4)
    ensures var s := SingleSbox(y0, y1, y2, y3, y4);
      FreeOfU(s.x0) && FreeOfU(s.x1) && FreeOfU(s.x2) && FreeOfU(s.x3) && FreeOfU(s.x4)
  {
    MulFree(y4, y1);
    MulFree(y2, y1);
    MulFree(y1, y0);
    MulFree(y3, y2);
    MulFree(y3, y1);
    MulFree(y4, y3);
    MulFree(y4, y0);
    MulFree(y3, y0);
  }

  lemma PickFree(s: Slice, l: nat)
    requires l < 5
    requires FreeOfU(s.x0) && FreeOfU(s.x1) && FreeOfU(s.x2) && FreeOfU(s.x3) && FreeOfU(s.x4)
    ensures FreeOfU(Pick(s, l))
  {
  }

  /** One bit of the substitution layer over a state without `u`. */
  lemma SboxFreeAt(A: seq<Poly>, k: nat)
    requires |A| == 320 && StateFree(A) && k < 320
    ensures FreeOfU(SboxF(A)[k])
  {
    var j := Offset(k);
    assert FreeOfU(A[j]) && FreeOfU(A[64 + j]) && FreeOfU(A[128 + j]) && FreeOfU(A[192 + j]) && FreeOfU(A[256 + j]);
    SliceFree(A[j], A[64 + j], A[128 + j], A[192 + j], A[256 + j]);
    PickFree(SliceAt(A, j), LaneIdx(k));
  }

  /** A state without `u` keeps no `u` through the substitution layer: a
      zero difference stays zero. */
  lemma SboxFree(A: seq<Poly>)
    requires |A| == 320 && StateFree(A)
    ensures StateFree(SboxF(A))
  {
    forall k | 0 <= k < 320
      ensures FreeOfU(SboxF(A)[k])
    {
      SboxFreeAt(A, k);
    }
  }

  // The S-box on constant bits

  /** The Ascon S-box lookup table, input and output read with the bit of
      word x0 as the most significant of five. */
  const SboxTable: seq<nat> := [0x04, 0x0b, 0x1f, 0x14, 0x1a, 0x15, 0x09, 0x02, 0x1b, 0x05, 0x08,
    0x12, 0x1d, 0x03, 0x06, 0x1c, 0x1e, 0x13, 0x07, 0x0e, 0x00, 0x0d, 0x11, 0x18, 0x10, 0x0c,
    0x01, 0x19, 0x16, 0x0a, 0x0f, 0x17]

  /** The inverse of the table: the S-box is a permutation of 5-bit values. */
  const SboxInverse: seq<nat> := [0x14, 0x1a, 0x07, 0x0d, 0x00, 0x09, 0x0e, 0x12, 0x0a, 0x06, 0x1d,
    0x01, 0x19, 0x15, 0x13, 0x1e, 0x18, 0x16, 0x0b, 0x11, 0x03, 0x05, 0x1c, 0x1f, 0x17, 0x1b,
    0x04, 0x08, 0x0f, 0x0c, 0x10, 0x02]

  /** A constant bit. */
  function Bool(b: bool): Poly { if b then One else Zero }

  /** Five bits as a number, b0 the most significant. */
  function Code(b0: bool, b1: bool, b2: bool, b3: bool, b4: bool): nat
  {
    16 * (if b0 then 1 else 0) + 8 * (if b1 then 1 else 0) + 4 * (if b2 then 1 else 0)
      + 2 * (if b3 then 1 else 0) + (if b4 then 1 else 0)
  }

  function Xor(a: bool, b: bool): bool { a != b }

  /** The S-box evaluated on five bits: the same algebraic normal form with
      XOR for `+` and AND for `*`. */
  datatype BitSlice = BitSlice(b0: bool, b1: bool, b2: bool, b3: bool, b4: bool)

  function SboxOnBits(y0: bool, y1: bool, y2: bool, y3: bool, y4: bool): BitSlice
  {
    BitSlice(
      Xor(Xor(Xor(Xor(Xor(Xor(y4 && y1, y3), y2 && y1), y2), y1 && y0), y1), y0),
      Xor(Xor(Xor(Xor(Xor(Xor(Xor(y4, y3 && y2), y3 && y1), y3), y2 && y1), y2), y1), y0),
      Xor(Xor(Xor(Xor(y4 && y3, y4), y2), y1), true),
      Xor(Xor(Xor(Xor(Xor(Xor(y4 && y0, y4), y3 && y0), y3), y2), y1), y0),
      Xor(Xor(Xor(Xor(y4 && y1, y4), y3), y1 && y0), y1))
  }

  /** On bits the algebraic normal form is the Ascon S-box table. */
  lemma SboxOnBitsIsTable(y0: bool, y1: bool, y2: bool, y3: bool, y4: bool)
    ensures var t := SboxOnBits(y0, y1, y2, y3, y4);
      Code(t.b0, t.b1, t.b2, t.b3, t.b4) == SboxTable[Code(y0, y1, y2, y3, y4)]
  {
  }

  /** A bit as a polynomial is the constant 1 exactly when the bit is set. */
  lemma BoolIsOne(b: bool)
    ensures IsConstant(Bool(b)) && (Bool(b) == One <==> b)
  {
    assert Zero != One by {
      assert {} in One;
    }
  }

  /** Output x0 on constant bits. */
  lemma SboxBit0(y0: bool, y1: bool, y2: bool, y3: bool, y4: bool)
    ensures Out0(Bool(y0), Bool(y1), Bool(y2), Bool(y3), Bool(y4)) == Bool(SboxOnBits(y0, y1, y2, y3, y4).b0)
  {
    AddConstants();
    MulConstants();
  }

  /** Output x1 on constant bits. */
  lemma SboxBit1(y0: bool, y1: bool, y2: bool, y3: bool, y4: bool)
    ensures Out1(Bool(y0), Bool(y1), Bool(y2), Bool(y3), Bool(y4)) == Bool(SboxOnBits(y0, y1, y2, y3, y4).b1)
  {
    AddConstants();
    MulConstants();
  }

  /** Output x2 on constant bits. */
  lemma SboxBit2(y0: bool, y1: bool, y2: bool, y3: bool, y4: bool)
    ensures Out2(Bool(y0), Bool(y1), Bool(y2), Bool(y3), Bool(y4)) == Bool(SboxOnBits(y0, y1, y2, y3, y4).b2)
  {
    AddConstants();
    MulConstants();
  }

  /** Output x3 on constant bits. */
  lemma SboxBit3(y0: bool, y1: bool, y2: bool, y3: bool, y4: bool)
    ensures Out3(Bool(y0), Bool(y1), Bool(y2), Bool(y3), Bool(y4)) == Bool(SboxOnBits(y0, y1, y2, y3, y4).b3)
  {
    AddConstants();
    MulConstants();
  }

  /** Output x4 on constant bits. */
  lemma SboxBit4(y0: bool, y1: bool, y2: bool, y3: bool, y4: bool)
    ensures Out4(Bool(y0), Bool(y1), Bool(y2), Bool(y3), Bool(y4)) == Bool(SboxOnBits(y0, y1, y2, y3, y4).b4)
  {
    AddConstants();
    MulConstants();
  }

  /** On constant bits the S-box is the table: its outputs are constants
      and, read as a 5-bit number, they are the table's entry for the
      input. */
  lemma SboxOfConstants(y0: bool, y1: bool, y2: bool, y3: bool, y4: bool)
    ensures var s := SingleSbox(Bool(y0), Bool(y1), Bool(y2), Bool(y3), Bool(y4));
      && IsConstant(s.x0) && IsConstant(s.x1) && IsConstant(s.x2) && IsConstant(s.x3) && IsConstant(s.x4)
      && Code(s.x0 == One, s.x1 == One, s.x2 == One, s.x3 == One, s.x4 == One)
         == SboxTable[Code(y0, y1, y2, y3, y4)]
  {
    var t := SboxOnBits(y0, y1, y2, y3, y4);
    SboxBit0(y0, y1, y2, y3, y4);
    SboxBit1(y0, y1, y2, y3, y4);
    SboxBit2(y0, y1, y2, y3, y4);
    SboxBit3(y0, y1, y2, y3, y4);
    SboxBit4(y0, y1, y2, y3, y4);
    BoolIsOne(t.b0);
    BoolIsOne(t.b1);
    BoolIsOne(t.b2);
    BoolIsOne(t.b3);
    BoolIsOne(t.b4);
    SboxOnBitsIsTable(y0, y1, y2, y3, y4);
  }

  /** Different constant slices give different outputs: the S-box is a
      permutation of the 32 slice values. */
  lemma SboxInjective(y0: bool, y1: bool, y2: bool, y3: bool, y4: bool,
                      z0: bool, z1: bool, z2: bool, z3: bool, z4: bool)
    requires SingleSbox(Bool(y0), Bool(y1), Bool(y2), Bool(y3), Bool(y4))
          == SingleSbox(Bool(z0), Bool(z1), Bool(z2), Bool(z3), Bool(z4))
    ensures y0 == z0 && y1 == z1 && y2 == z2 && y3 == z3 && y4 == z4
  {
    SboxOfConstants(y0, y1, y2, y3, y4);
    SboxOfConstants(z0, z1, z2, z3, z4);
    TableInjective(y0, y1, y2, y3, y4, z0, z1, z2, z3, z4);
  }

  /** The table is a permutation: equal entries come from equal inputs. */
  lemma TableInjective(y0: bool, y1: bool, y2: bool, y3: bool, y4: bool,
                       z0: bool, z1: bool, z2: bool, z3: bool, z4: bool)
    requires SboxTable[Code(y0, y1, y2, y3, y4)] == SboxTable[Code(z0, z1, z2, z3, z4)]
    ensures y0 == z0 && y1 == z1 && y2 == z2 && y3 == z3 && y4 == z4
  {
    TableInverse(y0, y1, y2, y3, y4);
    TableInverse(z0, z1, z2, z3, z4);
  }

  lemma TableInverse(y0: bool, y1: bool, y2: bool, y3: bool, y4: bool)
    ensures SboxTable[Code(y0, y1, y2, y3, y4)] < 32
    ensures SboxInverse[SboxTable[Code(y0, y1, y2, y3, y4)]] == Code(y0, y1, y2, y3, y4)
  {
  }

  // ---------------------------------------------------------------------
  // Linear diffusion layer (section 2.6.3)

  /** The bit of a word that `SingleMatrix` reads for bit i and rotation
      amount r: `(i + (64 - r)) % 64`. */
  function RotSource(i: int, r: int): (s: nat)
    ensures s < 64
  {
    (i + (64 - r)) % 64
  }

  /** `SingleMatrix(X, r0, r1)` on one word: bit i gets bits i - r0 and
      i - r1 (mod 64) added. */
  function SigmaLane(L: seq<Poly>, r0: int, r1: int): (t: seq<Poly>)
    requires |L| == 64
    ensures |t| == 64
  {
    seq(64, i requires 0 <= i < 64 => Add(Add(L[i], L[RotSource(i, r0)]), L[RotSource(i, r1)]))
  }

  /** `SingleMatrix`: the new word built bit by bit. */
  method SingleMatrix(X: seq<Poly>, r0: int, r1: int) returns (Y: seq<Poly>)
    requires |X| == 64
    ensures Y == SigmaLane(X, r0, r1)
  {
    Y := [];
    for i := 0 to 64
      invariant |Y| == i
      invariant forall k {:trigger Y[k]} :: 0 <= k < i ==> Y[k] == SigmaLane(X, r0, r1)[k]
    {
      Y := Y + [Add(Add(X[i], X[RotSource(i, r0)]), X[RotSource(i, r1)])];
    }
    assert forall k :: 0 <= k < 64 ==> Y[k] == SigmaLane(X, r0, r1)[k];
  }

  /** A word rotated right by r, the most significant bit first: the last
      r bits move to the front. */
  function RotR(L: seq<Poly>, r: nat): (t: seq<Poly>)
    requires |L| == 64 && r < 64
    ensures |t| == 64
  {
    L[64 - r ..] + L[.. 64 - r]
  }

  /** Two words added bit by bit. */
  function XorWords(P: seq<Poly>, Q: seq<Poly>): (t: seq<Poly>)
    requires |P| == |Q|
    ensures |t| == |P|
  {
    seq(|P|, i requires 0 <= i < |P| => Add(P[i], Q[i]))
  }

  lemma RotRAt(L: seq<Poly>, r: nat, i: nat)
    requires |L| == 64 && r < 64 && i < 64
    ensures RotR(L, r)[i] == L[RotSource(i, r)]
  {
  }

  /** The word map is Ascon's Sigma(x) = x + (x >>> r0) + (x >>> r1). */
  lemma SigmaIsRotations(L: seq<Poly>, r0: nat, r1: nat)
    requires |L| == 64 && r0 < 64 && r1 < 64
    ensures SigmaLane(L, r0, r1) == XorWords(XorWords(L, RotR(L, r0)), RotR(L, r1))
  {
    forall i | 0 <= i < 64
      ensures SigmaLane(L, r0, r1)[i] == XorWords(XorWords(L, RotR(L, r0)), RotR(L, r1))[i]
    {
      RotRAt(L, r0, i);
      RotRAt(L, r1, i);
    }
  }

  /** The rotation amounts of the five words. */
  const Rot0: seq<int> := [19, 61, 1, 10, 7]
  const Rot1: seq<int> := [28, 39, 6, 17, 41]

  /** `Matrix(X)`: every word through its own `SingleMatrix`. */
  function MatrixF(A: seq<Poly>): (t: seq<Poly>)
    requires |A| == 320
    ensures |t| == 320
  {
    SigmaLane(Word(A, 0), 19, 28) + SigmaLane(Word(A, 1), 61, 39) + SigmaLane(Word(A, 2), 1, 6)
      + SigmaLane(Word(A, 3), 10, 17) + SigmaLane(Word(A, 4), 7, 41)
  }

  /** Bit j of word l after the layer is bit j of that word's Sigma. */
  lemma MatrixAt(A: seq<Poly>, l: nat, j: nat)
    requires |A| == 320 && l < 5 && j < 64
    ensures MatrixF(A)[64 * l + j] == SigmaLane(Word(A, l), Rot0[l], Rot1[l])[j]
  {
  }

  /** `X[o : o + 64] = Y`. */
  method Store(X: array<Poly>, o: nat, Y: seq<Poly>)
    requires |Y| == 64 && o + 64 <= X.Length
    modifies X
    ensures forall k :: 0 <= k < X.Length ==> X[k] == if o <= k < o + 64 then Y[k - o] else old(X[k])
  {
    forall i | 0 <= i < 64 {
      X[o + i] := Y[i];
    }
  }

  /** The first l words of B are those of the layer's result on A, the
      others still those of A. */
  ghost predicate WordsBelow(B: seq<Poly>, A: seq<Poly>, l: nat)
    requires |A| == 320
  {
    |B| == 320 && forall k {:trigger B[k]} :: 0 <= k < 320 ==> B[k] == if LaneIdx(k) < l then MatrixF(A)[k] else A[k]
  }

  /** A word not yet written is still the word of A. */
  lemma WordUntouched(B: seq<Poly>, A: seq<Poly>, l: nat)
    requires |A| == 320 && l < 5 && WordsBelow(B, A, l)
    ensures B[64 * l .. 64 * l + 64] == Word(A, l)
  {
    forall j | 0 <= j < 64
      ensures B[64 * l .. 64 * l + 64][j] == Word(A, l)[j]
    {
      IndexParts(l, j);
      assert B[64 * l + j] == A[64 * l + j];
    }
  }

  /** Storing the Sigma of word l extends the written words by one. */
  lemma WordStep(B: seq<Poly>, B': seq<Poly>, A: seq<Poly>, l: nat, Y: seq<Poly>)
    requires |A| == 320 && l < 5 && WordsBelow(B, A, l)
    requires Y == SigmaLane(Word(A, l), Rot0[l], Rot1[l])
    requires |B'| == 320
    requires forall k :: 0 <= k < 320 ==> B'[k] == if 64 * l <= k < 64 * l + 64 then Y[k - 64 * l] else B[k]
    ensures WordsBelow(B', A, l + 1)
  {
    forall k | 0 <= k < 320
      ensures B'[k] == if LaneIdx(k) < l + 1 then MatrixF(A)[k] else A[k]
    {
      IndexSplit(k);
      if LaneIdx(k) == l {
        MatrixAt(A, l, Offset(k));
      }
    }
  }

  /** `X[o : o + 64] = SingleMatrix(X[o : o + 64], r0, r1)` for word l. */
  method MatrixWord(X: array<Poly>, ghost A: seq<Poly>, l: nat, r0: nat, r1: nat)
    requires X.Length == 320 && |A| == 320 && l < 5 && r0 == Rot0[l] && r1 == Rot1[l]
    requires WordsBelow(X[..], A, l)
    modifies X
    ensures WordsBelow(X[..], A, l + 1)
  {
    var Y := WordSigma(X, A, l, r0, r1);
    ghost var B := X[..];
    Store(X, 64 * l, Y);
    WordStep(B, X[..], A, l, Y);
  }

  /** `SingleMatrix(X[o : o + 64], r0, r1)` for a word l not yet written:
      the Sigma of that word of A. */
  method WordSigma(X: array<Poly>, ghost A: seq<Poly>, l: nat, r0: nat, r1: nat) returns (Y: seq<Poly>)
    requires X.Length == 320 && |A| == 320 && l < 5 && r0 == Rot0[l] && r1 == Rot1[l]
    requires WordsBelow(X[..], A, l)
    ensures Y == SigmaLane(Word(A, l), Rot0[l], Rot1[l])
  {
    WordUntouched(X[..], A, l);
    Y := SingleMatrix(X[64 * l .. 64 * l + 64], r0, r1);
  }

  /** `Matrix(X)`, word by word in place. */
  method Matrix(X: array<Poly>)
    requires X.Length == 320
    modifies X
    ensures X[..] == MatrixF(old(X[..]))
  {
    ghost var A := X[..];
    MatrixWord(X, A, 0, 19, 28);
    MatrixWord(X, A, 1, 61, 39);
    MatrixWord(X, A, 2, 1, 6);
    MatrixWord(X, A, 3, 10, 17);
    MatrixWord(X, A, 4, 7, 41);
    assert forall k :: 0 <= k < 320 ==> X[..][k] == MatrixF(A)[k];
  }

  /** The layer is linear, so it commutes with taking differences. */
  lemma MatrixDifference(A: seq<Poly>)
    requires |A| == 320
    ensures DivUAll(MatrixF(A)) == MatrixF(DivUAll(A))
  {
    forall k | 0 <= k < 320
      ensures DivU(MatrixF(A)[k]) == MatrixF(DivUAll(A))[k]
    {
      MatrixDifferenceAt(A, k);
    }
  }

  /** Bit k of the layer commutes with taking differences. */
  lemma MatrixDifferenceAt(A: seq<Poly>, k: nat)
    requires |A| == 320 && k < 320
    ensures DivU(MatrixF(A)[k]) == MatrixF(DivUAll(A))[k]
  {
    IndexSplit(k);
    var l, j := LaneIdx(k), Offset(k);
    MatrixAt(A, l, j);
    MatrixAt(DivUAll(A), l, j);
    var L := Word(A, l);
    var s0, s1 := RotSource(j, Rot0[l]), RotSource(j, Rot1[l]);
    DivUAdd(Add(L[j], L[s0]), L[s1]);
    DivUAdd(L[j], L[s0]);
  }

  lemma MatrixFree(A: seq<Poly>)
    requires |A| == 320 && StateFree(A)
    ensures StateFree(MatrixF(A))
  {
    forall k | 0 <= k < 320
      ensures FreeOfU(MatrixF(A)[k])
    {
      IndexSplit(k);
      var l, j := LaneIdx(k), Offset(k);
      MatrixAt(A, l, j);
      var L := Word(A, l);
      var s0, s1 := RotSource(j, Rot0[l]), RotSource(j, Rot1[l]);
      AddFree(L[j], L[s0]);
      AddFree(Add(L[j], L[s0]), L[s1]);
    }
  }

  /** Both rotation amounts of every word are non-zero and different. */
  lemma RotationsApart(l: nat)
    requires l < 5
    ensures 0 < Rot0[l] < 64 && 0 < Rot1[l] < 64 && Rot0[l] != Rot1[l]
  {
  }

  /** A variable added to two other variables survives both additions. */
  lemma OwnAtomSurvives(a: Var, b: Var, c: Var)
    requires a != b && a != c
    ensures {a} in Add(Add(Atom(a), Atom(b)), Atom(c))
  {
    assert {a} != {b} && {a} != {c};
  }

  /** Bit j of word l after the layer, over variables: its own variable and
      the two the rotations bring. */
  lemma MatrixOfAtoms(v: seq<Var>, l: nat, j: nat)
    requires |v| == 320 && l < 5 && j < 64
    ensures MatrixF(Atoms(v))[64 * l + j]
         == Add(Add(Atom(v[64 * l + j]), Atom(v[64 * l + RotSource(j, Rot0[l])])), Atom(v[64 * l + RotSource(j, Rot1[l])]))
  {
    MatrixAt(Atoms(v), l, j);
  }

  /** Bit j of word l after the layer keeps its own variable when the two
      variables the rotations bring are other ones. */
  lemma MatrixKeepsOwnAt(v: seq<Var>, l: nat, j: nat)
    requires |v| == 320 && l < 5 && j < 64
    requires v[64 * l + RotSource(j, Rot0[l])] != v[64 * l + j]
    requires v[64 * l + RotSource(j, Rot1[l])] != v[64 * l + j]
    ensures {v[64 * l + j]} in MatrixF(Atoms(v))[64 * l + j]
  {
    MatrixOfAtoms(v, l, j);
    OwnAtomSurvives(v[64 * l + j], v[64 * l + RotSource(j, Rot0[l])], v[64 * l + RotSource(j, Rot1[l])]);
  }

  /** Over distinct variables every bit after the layer keeps its own
      variable: the two bits added to it are other bits of the same word. */
  lemma MatrixKeepsOwnVariable(v: seq<Var>, k: nat)
    requires |v| == 320 && Distinct(v) && k < 320
    ensures {v[k]} in MatrixF(Atoms(v))[k]
    ensures !IsConstant(MatrixF(Atoms(v))[k])
  {
    IndexSplit(k);
    var l, j := LaneIdx(k), Offset(k);
    RotationsApart(l);
    RotSourceMoves(j, Rot0[l]);
    RotSourceMoves(j, Rot1[l]);
    var s0, s1 := RotSource(j, Rot0[l]), RotSource(j, Rot1[l]);
    assert v[64 * l + s0] != v[k] && v[64 * l + s1] != v[k];
    MatrixKeepsOwnAt(v, l, j);
    HoldsVariable(MatrixF(Atoms(v))[k], v[k]);
  }

  /** A rotation by 0 < r < 64 moves every bit. */
  lemma RotSourceMoves(j: nat, r: int)
    requires j < 64 && 0 < r < 64
    ensures RotSource(j, r) != j
  {
  }

  /** A polynomial with a single-variable monomial is not a constant. */
  lemma HoldsVariable(p: Poly, x: Var)
    requires {x} in p
    ensures !IsConstant(p)
  {
    assert {x} != {};
  }
}
