/** The Gimli permutation over ring elements.

    A state is 384 bits laid out as 3 rows of 4 words of 32 bits; word
    s_{i,j} occupies indices `128*i + 32*j .. 128*i + 32*j + 31`, and bit 0
    of a word is its least significant bit, so a left shift by k moves bit
    `b` to bit `b + k`.  A round is the nonlinear layer (one 96-bit SP-box
    per column), the linear mixing layer (a swap of row-0 words every second
    round) and the round constant (every fourth round), following
    Algorithm 1 of "Gimli: a cross-platform permutation" (CHES 2017). */
module Gimli {
  import opened Common
  import opened Anf

  const RoundConstant: nat := 0x9e377900

  type Column = (seq<Poly>, seq<Poly>, seq<Poly>)

  // ---------------------------------------------------------------------
  // State layout

  /** First index of word s_{i,j}. */
  function WordStart(i: nat, j: nat): nat { i * 128 + j * 32 }

  /** Index of bit b of word s_{i,j}. */
  function Index(i: nat, j: nat, b: nat): (k: nat)
    ensures i < 3 && j < 4 && b < 32 ==> k < 384
  {
    WordStart(i, j) + b
  }

  function Row(k: nat): nat { k / 128 }
  function ColumnOf(k: nat): nat { (k % 128) / 32 }
  function Offset(k: nat): nat { k % 32 }

  /** Row, column and offset recover the coordinates a bit was placed at. */
  lemma IndexParts(i: nat, j: nat, b: nat)
    requires i < 3 && j < 4 && b < 32
    ensures Index(i, j, b) < 384
    ensures Row(Index(i, j, b)) == i && ColumnOf(Index(i, j, b)) == j && Offset(Index(i, j, b)) == b
  {
  }

  /** Every index of the state lies in exactly one word. */
  lemma IndexSplit(k: nat)
    requires k < 384
    ensures Row(k) < 3 && ColumnOf(k) < 4 && Offset(k) < 32
    ensures k == Index(Row(k), ColumnOf(k), Offset(k))
  {
  }

  /** Word s_{i,j} of a state. */
  function Word(s: seq<Poly>, i: nat, j: nat): (w: seq<Poly>)
    requires |s| == 384 && i < 3 && j < 4
    ensures |w| == 32
    ensures forall b :: 0 <= b < 32 ==> w[b] == s[Index(i, j, b)]
  {
    s[WordStart(i, j)..WordStart(i, j) + 32]
  }

  // ---------------------------------------------------------------------
  // hex2vector

  /** `bin(n)[2:]`: the binary digits of n, most significant first. */
  function BinDigits(n: nat): (d: seq<nat>)
    ensures 1 <= |d|
  {
    if n < 2 then [n] else BinDigits(n / 2) + [n % 2]
  }

  function Reverse<T>(s: seq<T>): (r: seq<T>)
    ensures |r| == |s|
    ensures forall i :: 0 <= i < |s| ==> r[i] == s[|s| - 1 - i]
  {
    if s == [] then [] else Reverse(s[1..]) + [s[0]]
  }

  /** Reversed, the digits of n are its bits from the least significant
      one; their count is the width of n. */
  lemma {:induction false} BinDigitsBits(n: nat)
    ensures forall i :: 0 <= i < |BinDigits(n)| ==> Reverse(BinDigits(n))[i] == Bit(n, i)
    ensures n < Pow2(|BinDigits(n)|)
    ensures n >= 2 ==> Pow2(|BinDigits(n)| - 1) <= n
  {
    if n >= 2 {
      BinDigitsBits(n / 2);
      var d := BinDigits(n);
      forall i | 0 <= i < |d|
        ensures Reverse(d)[i] == Bit(n, i)
      {
        if i > 0 {
          assert Reverse(d)[i] == BinDigits(n / 2)[|d| - 1 - i];
          assert Reverse(BinDigits(n / 2))[i - 1] == Bit(n / 2, i - 1);
        }
      }
    }
  }

  /** The reversed digits padded with zeros to `length` are the first
      `length` bits of n. */
  lemma PaddedBits(n: nat, length: nat)
    requires |BinDigits(n)| <= length
    ensures forall i :: 0 <= i < length ==>
      (Reverse(BinDigits(n)) + seq(length - |BinDigits(n)|, _ => 0))[i] == Bit(n, i)
  {
    BinDigitsBits(n);
    var res := Reverse(BinDigits(n)) + seq(length - |BinDigits(n)|, _ => 0);
    forall i | |BinDigits(n)| <= i < length
      ensures res[i] == Bit(n, i)
    {
      BitAbove(n, i, |BinDigits(n)|);
    }
  }

  /** `length` bits of n, least significant first; `None` is the exit on a
      length that is not a multiple of 8 or a number wider than `length`
      (0 has one binary digit, so even 0 needs a positive length). */
  function Hex2Vector(n: nat, length: int): (r: Option<seq<nat>>)
    ensures r.Some? <==> length % 8 == 0 && length > 0 && n < Pow2(length)
    ensures r.Some? ==> |r.value| == length && forall i :: 0 <= i < length ==> r.value[i] == Bit(n, i)
  {
    BinDigitsBits(n);
    if length % 8 != 0 then None
    else
      var res := BinDigits(n);
      if |res| > length then
        (if length > 0 then Pow2Monotone(length, |res| - 1); None else None)
      else
        Pow2Monotone(|res|, length);
        PaddedBits(n, length);
        Some(Reverse(res) + seq(length - |res|, _ => 0))
  }

  /** A GF(2) vector lifted into the ring. */
  function ConstVec(v: seq<nat>): (p: seq<Poly>)
    ensures |p| == |v| && forall i :: 0 <= i < |v| ==> p[i] == Const(v[i])
  {
    seq(|v|, i requires 0 <= i < |v| => Const(v[i]))
  }

  // ---------------------------------------------------------------------
  // Word operations; `None` is the exit on a word that is not 32 bits.

  /** `word <<< offset` */
  function CycleLShift(word: seq<Poly>, offset: nat): (r: Option<seq<Poly>>)
    requires offset <= 32
    ensures r.Some? <==> |word| == 32
    ensures r.Some? ==> |r.value| == 32 && forall i :: 0 <= i < 32 ==> r.value[i] == word[(i - offset) % 32]
  {
    if |word| != 32 then None else Some(word[32 - offset..32] + word[..32 - offset])
  }

  /** `word << offset` */
  function NoncycleLShift(word: seq<Poly>, offset: nat): (r: Option<seq<Poly>>)
    requires offset <= 32
    ensures r.Some? <==> |word| == 32
    ensures r.Some? ==> |r.value| == 32 && forall i :: 0 <= i < 32 ==>
      r.value[i] == if i < offset then Zero else word[i - offset]
  {
    if |word| != 32 then None else Some(seq(offset, _ => Zero) + word[..32 - offset])
  }

  function VectorAnd(w1: seq<Poly>, w2: seq<Poly>): (r: Option<seq<Poly>>)
    ensures r.Some? <==> |w1| == 32 && |w2| == 32
    ensures r.Some? ==> |r.value| == 32 && forall i :: 0 <= i < 32 ==> r.value[i] == Mul(w1[i], w2[i])
  {
    if |w1| != 32 || |w2| != 32 then None
    else Some(seq(32, i requires 0 <= i < 32 => Mul(w1[i], w2[i])))
  }

  /** `a | b` written as `(a & b) ^ a ^ b`. */
  function Or(a: Poly, b: Poly): Poly
  {
    Add(Add(Mul(a, b), a), b)
  }

  /** On constant bits, `Or` is the Boolean disjunction. */
  lemma OrOfConstants(a: int, b: int)
    ensures Or(Const(a), Const(b)) == Const(if a % 2 == 1 || b % 2 == 1 then 1 else 0)
  {
    MulConst(a, Const(b));
    AddConstants();
    if a % 2 == 0 {
      assert Mul(Const(a), Const(b)) == Zero;
      AddZero(Const(b));
    } else if b % 2 == 0 {
      assert Mul(Const(a), Const(b)) == Zero;
    } else {
      assert Mul(Const(a), Const(b)) == One;
    }
  }

  function VectorOr(w1: seq<Poly>, w2: seq<Poly>): (r: Option<seq<Poly>>)
    ensures r.Some? <==> |w1| == 32 && |w2| == 32
    ensures r.Some? ==> |r.value| == 32 && forall i :: 0 <= i < 32 ==> r.value[i] == Or(w1[i], w2[i])
  {
    if |w1| != 32 || |w2| != 32 then None
    else Some(seq(32, i requires 0 <= i < 32 => Add(Add(Mul(w1[i], w2[i]), w1[i]), w2[i])))
  }

  /** Bitwise XOR of two vectors of the same length. */
  function VecAdd(a: seq<Poly>, b: seq<Poly>): (r: seq<Poly>)
    requires |a| == |b|
    ensures |r| == |a| && forall i :: 0 <= i < |a| ==> r[i] == Add(a[i], b[i])
  {
    seq(|a|, i requires 0 <= i < |a| => Add(a[i], b[i]))
  }

  // ---------------------------------------------------------------------
  // SP-box

  /** Bit i of `w1 <<< 24` and of `w2 <<< 9`. */
  function RotX(w1: seq<Poly>, i: int): Poly requires |w1| == 32 { w1[(i - 24) % 32] }
  function RotY(w2: seq<Poly>, i: int): Poly requires |w2| == 32 { w2[(i - 9) % 32] }

  /** The SP-box of Algorithm 1, bit by bit: with x = w1 <<< 24, y = w2 <<< 9
      and z = w3, the new z is x ^ (z << 1) ^ ((y & z) << 2), the new y is
      y ^ x ^ ((x | z) << 1) and the new x is z ^ y ^ ((x & y) << 3). */
  predicate SpBoxBits(w1: seq<Poly>, w2: seq<Poly>, w3: seq<Poly>, out: Column)
    requires |w1| == 32 && |w2| == 32 && |w3| == 32
  {
    |out.0| == 32 && |out.1| == 32 && |out.2| == 32 &&
    forall i :: 0 <= i < 32 ==> SpBoxBitsAt(w1, w2, w3, out, i)
  }

  predicate SpBoxBitsAt(w1: seq<Poly>, w2: seq<Poly>, w3: seq<Poly>, out: Column, i: nat)
    requires |w1| == 32 && |w2| == 32 && |w3| == 32
    requires |out.0| == 32 && |out.1| == 32 && |out.2| == 32 && i < 32
  {
    out.2[i] == Add(Add(RotX(w1, i), if i >= 1 then w3[i - 1] else Zero),
                    if i >= 2 then Mul(RotY(w2, i - 2), w3[i - 2]) else Zero) &&
    out.1[i] == Add(Add(RotY(w2, i), RotX(w1, i)),
                    if i >= 1 then Or(RotX(w1, i - 1), w3[i - 1]) else Zero) &&
    out.0[i] == Add(Add(w3[i], RotY(w2, i)),
                    if i >= 3 then Mul(RotX(w1, i - 3), RotY(w2, i - 3)) else Zero)
  }

  /** The 96-bit SP-box on one column. */
  function SpBox(w1: seq<Poly>, w2: seq<Poly>, w3: seq<Poly>): (r: Option<Column>)
    ensures r.Some? <==> |w1| == 32 && |w2| == 32 && |w3| == 32
    ensures r.Some? ==> |r.value.0| == 32 && |r.value.1| == 32 && |r.value.2| == 32
  {
    if |w1| != 32 || |w2| != 32 || |w3| != 32 then None
    else
      var x := CycleLShift(w1, 24).value;
      var y := CycleLShift(w2, 9).value;
      var z := w3;
      var yAndZ := VectorAnd(y, z).value;
      var xOrZ := VectorOr(x, z).value;
      var xAndY := VectorAnd(x, y).value;
      var resz := VecAdd(VecAdd(x, NoncycleLShift(w3, 1).value), NoncycleLShift(yAndZ, 2).value);
      var resy := VecAdd(VecAdd(y, x), NoncycleLShift(xOrZ, 1).value);
      var resx := VecAdd(VecAdd(z, y), NoncycleLShift(xAndY, 3).value);
      Some((resx, resy, resz))
  }

  /** The SP-box computes Algorithm 1 bit by bit. */
  lemma SpBoxAlgorithm1(w1: seq<Poly>, w2: seq<Poly>, w3: seq<Poly>)
    requires |w1| == 32 && |w2| == 32 && |w3| == 32
    ensures SpBoxBits(w1, w2, w3, SpBox(w1, w2, w3).value)
  {
    forall i | 0 <= i < 32
      ensures SpBoxBitsAt(w1, w2, w3, SpBox(w1, w2, w3).value, i)
    {
      SpBoxBitZ(w1, w2, w3, i);
      SpBoxBitY(w1, w2, w3, i);
      SpBoxBitX(w1, w2, w3, i);
    }
  }

  lemma SpBoxBitZ(w1: seq<Poly>, w2: seq<Poly>, w3: seq<Poly>, i: nat)
    requires |w1| == 32 && |w2| == 32 && |w3| == 32 && i < 32
    ensures SpBox(w1, w2, w3).value.2[i] == Add(Add(RotX(w1, i), if i >= 1 then w3[i - 1] else Zero),
                                               if i >= 2 then Mul(RotY(w2, i - 2), w3[i - 2]) else Zero)
  {
    var x := CycleLShift(w1, 24).value;
    var y := CycleLShift(w2, 9).value;
    var yAndZ := VectorAnd(y, w3).value;
    assert x[i] == RotX(w1, i);
    if i >= 2 {
      assert yAndZ[i - 2] == Mul(RotY(w2, i - 2), w3[i - 2]);
    }
  }

  lemma SpBoxBitY(w1: seq<Poly>, w2: seq<Poly>, w3: seq<Poly>, i: nat)
    requires |w1| == 32 && |w2| == 32 && |w3| == 32 && i < 32
    ensures SpBox(w1, w2, w3).value.1[i] == Add(Add(RotY(w2, i), RotX(w1, i)),
                                               if i >= 1 then Or(RotX(w1, i - 1), w3[i - 1]) else Zero)
  {
    var x := CycleLShift(w1, 24).value;
    var y := CycleLShift(w2, 9).value;
    var xOrZ := VectorOr(x, w3).value;
    assert x[i] == RotX(w1, i) && y[i] == RotY(w2, i);
    if i >= 1 {
      assert xOrZ[i - 1] == Or(RotX(w1, i - 1), w3[i - 1]);
    }
  }

  lemma SpBoxBitX(w1: seq<Poly>, w2: seq<Poly>, w3: seq<Poly>, i: nat)
    requires |w1| == 32 && |w2| == 32 && |w3| == 32 && i < 32
    ensures SpBox(w1, w2, w3).value.0[i] == Add(Add(w3[i], RotY(w2, i)),
                                               if i >= 3 then Mul(RotX(w1, i - 3), RotY(w2, i - 3)) else Zero)
  {
    var x := CycleLShift(w1, 24).value;
    var y := CycleLShift(w2, 9).value;
    var xAndY := VectorAnd(x, y).value;
    assert y[i] == RotY(w2, i);
    if i >= 3 {
      assert xAndY[i - 3] == Mul(RotX(w1, i - 3), RotY(w2, i - 3));
    }
  }

  // ---------------------------------------------------------------------
  // Nonlinear layer

  predicate WellFormed(c: Column)
  {
    |c.0| == 32 && |c.1| == 32 && |c.2| == 32
  }

  function Pick(c: Column, i: nat): (w: seq<Poly>)
    ensures WellFormed(c) ==> |w| == 32
  {
    if i == 0 then c.0 else if i == 1 then c.1 else c.2
  }

  /** The SP-box applied to column j of the state. */
  function ColumnOut(s: seq<Poly>, j: nat): (c: Column)
    requires |s| == 384 && j < 4
    ensures WellFormed(c)
  {
    SpBox(Word(s, 0, j), Word(s, 1, j), Word(s, 2, j)).value
  }

  /** The state whose column j is `cols[j]`. */
  function Assemble(cols: seq<Column>): (t: seq<Poly>)
    requires |cols| == 4 && forall j :: 0 <= j < 4 ==> WellFormed(cols[j])
    ensures |t| == 384
  {
    seq(384, k requires 0 <= k < 384 => Pick(cols[ColumnOf(k)], Row(k))[Offset(k)])
  }

  /** The nonlinear layer as a function of the state. */
  function NonLinearF(s: seq<Poly>): (t: seq<Poly>)
    requires |s| == 384
    ensures |t| == 384
  {
    Assemble(seq(4, j requires 0 <= j < 4 => ColumnOut(s, j)))
  }

  /** Each column is replaced by its own SP-box image: word s_{i,j} of the
      result depends only on column j of the input. */
  lemma NonLinearColumns(s: seq<Poly>, i: nat, j: nat)
    requires |s| == 384 && i < 3 && j < 4
    ensures Word(NonLinearF(s), i, j) == Pick(SpBox(Word(s, 0, j), Word(s, 1, j), Word(s, 2, j)).value, i)
  {
    var cols := seq(4, j requires 0 <= j < 4 => ColumnOut(s, j));
    forall b | 0 <= b < 32
      ensures Word(NonLinearF(s), i, j)[b] == Pick(cols[j], i)[b]
    {
      IndexParts(i, j, b);
    }
  }

  /** Overwrite column j (its three words s_{0,j}, s_{1,j}, s_{2,j}) with `c`. */
  method WriteColumn(X: array<Poly>, j: nat, c: Column)
    requires X.Length == 384 && j < 4 && WellFormed(c)
    modifies X
    ensures forall k :: 0 <= k < 384 ==> X[k] == if ColumnOf(k) == j then Pick(c, Row(k))[Offset(k)] else old(X[k])
  {
    forall k | 0 <= k < 384 && ColumnOf(k) == j {
      X[k] := Pick(c, Row(k))[Offset(k)];
    }
  }

  /** Columns not yet processed still hold their input words. */
  lemma UnprocessedColumn(x: seq<Poly>, s: seq<Poly>, cols: seq<Column>, j: nat)
    requires |x| == 384 && |s| == 384 && j < 4
    requires |cols| == 4 && forall j' :: 0 <= j' < 4 ==> WellFormed(cols[j'])
    requires forall k :: 0 <= k < 384 ==> x[k] == if ColumnOf(k) < j then Assemble(cols)[k] else s[k]
    ensures Word(x, 0, j) == Word(s, 0, j) && Word(x, 1, j) == Word(s, 1, j) && Word(x, 2, j) == Word(s, 2, j)
  {
    forall i, b | 0 <= i < 3 && 0 <= b < 32
      ensures x[Index(i, j, b)] == s[Index(i, j, b)]
    {
      IndexParts(i, j, b);
    }
    assert Word(x, 0, j) == Word(s, 0, j);
    assert Word(x, 1, j) == Word(s, 1, j);
  }

  /** Writing column j's image advances the processed prefix by one column. */
  lemma ColumnStep(before: seq<Poly>, after: seq<Poly>, s: seq<Poly>, cols: seq<Column>, j: nat)
    requires |before| == 384 && |after| == 384 && |s| == 384 && j < 4
    requires |cols| == 4 && forall j' :: 0 <= j' < 4 ==> WellFormed(cols[j'])
    requires forall k :: 0 <= k < 384 ==> before[k] == if ColumnOf(k) < j then Assemble(cols)[k] else s[k]
    requires forall k :: 0 <= k < 384 ==> after[k] == if ColumnOf(k) == j then Pick(cols[j], Row(k))[Offset(k)] else before[k]
    ensures forall k :: 0 <= k < 384 ==> after[k] == if ColumnOf(k) < j + 1 then Assemble(cols)[k] else s[k]
  {
  }

  /** The nonlinear layer, column by column, in place. */
  method NonLinear(X: array<Poly>)
    requires X.Length == 384
    modifies X
    ensures X[..] == NonLinearF(old(X[..]))
  {
    ghost var s := X[..];
    ghost var cols := seq(4, j requires 0 <= j < 4 => ColumnOut(s, j));
    for j := 0 to 4
      invariant forall k :: 0 <= k < 384 ==> X[k] == if ColumnOf(k) < j then Assemble(cols)[k] else s[k]
    {
      UnprocessedColumn(X[..], s, cols, j);
      var c := SpBox(X[WordStart(0, j)..WordStart(0, j) + 32],
                     X[WordStart(1, j)..WordStart(1, j) + 32],
                     X[WordStart(2, j)..WordStart(2, j) + 32]).value;
      assert c == cols[j];
      ghost var before := X[..];
      WriteColumn(X, j, c);
      ColumnStep(before, X[..], s, cols, j);
    }
    assert X[..] == Assemble(cols);
  }

  // ---------------------------------------------------------------------
  // Linear mixing layer

  /** The index bit k of the mixed state is read from. */
  function MixSource(r: int, k: nat): nat
  {
    if k >= 128 then k
    else if r % 4 == 0 then (if ColumnOf(k) % 2 == 0 then k + 32 else k - 32)
    else if r % 4 == 2 then (if ColumnOf(k) < 2 then k + 64 else k - 64)
    else k
  }

  function LinearMixingF(s: seq<Poly>, r: int): (t: seq<Poly>)
    requires |s| == 384
    ensures |t| == 384
  {
    seq(384, k requires 0 <= k < 384 => s[MixSource(r, k)])
  }

  /** The word of row 0 that column j receives in round r: the small swap
      exchanges s_{0,0} with s_{0,1} and s_{0,2} with s_{0,3} when
      r mod 4 = 0, the big swap exchanges s_{0,0} with s_{0,2} and s_{0,1}
      with s_{0,3} when r mod 4 = 2, and every other round keeps it. */
  function SwapPartner(r: int, j: nat): nat
  {
    if r % 4 == 0 then (if j % 2 == 0 then j + 1 else j - 1)
    else if r % 4 == 2 then (if j < 2 then j + 2 else j - 2)
    else j
  }

  lemma MixSourceWord(r: int, i: nat, j: nat, b: nat)
    requires i < 3 && j < 4 && b < 32
    ensures MixSource(r, Index(i, j, b)) == Index(i, if i == 0 then SwapPartner(r, j) else j, b)
  {
    IndexParts(i, j, b);
  }

  /** Word s_{0,j} of the mixed state is word s_{0,SwapPartner(r, j)} of
      the input, and rows 1 and 2 are never touched. */
  lemma LinearMixingWords(s: seq<Poly>, r: int, i: nat, j: nat)
    requires |s| == 384 && i < 3 && j < 4
    ensures Word(LinearMixingF(s, r), i, j) == Word(s, i, if i == 0 then SwapPartner(r, j) else j)
  {
    forall b | 0 <= b < 32
      ensures LinearMixingF(s, r)[Index(i, j, b)] == s[Index(i, if i == 0 then SwapPartner(r, j) else j, b)]
    {
      MixSourceWord(r, i, j, b);
    }
  }

  /** The source index read as a range test, the way the swaps move words. */
  lemma MixSourceRanges(r: int, k: nat)
    ensures r % 4 == 0 ==>
      MixSource(r, k) == (if k < 32 || 64 <= k < 96 then k + 32 else if k < 128 then k - 32 else k)
    ensures r % 4 == 2 ==>
      MixSource(r, k) == (if k < 64 then k + 64 else if k < 128 then k - 64 else k)
    ensures r % 4 != 0 && r % 4 != 2 ==> MixSource(r, k) == k
  {
  }

  /** Swapping the same words twice restores the state. */
  lemma LinearMixingInvolution(s: seq<Poly>, r: int)
    requires |s| == 384
    ensures LinearMixingF(LinearMixingF(s, r), r) == s
  {
    forall k | 0 <= k < 384
      ensures MixSource(r, MixSource(r, k)) == k
    {
      MixSourceRanges(r, k);
      MixSourceRanges(r, MixSource(r, k));
    }
  }

  /** Exchange the words starting at p and q. */
  method SwapWords(X: array<Poly>, p: nat, q: nat)
    requires p + 32 <= q && q + 32 <= X.Length
    modifies X
    ensures forall k :: 0 <= k < X.Length ==>
      X[k] == if p <= k < p + 32 then old(X[k - p + q]) else if q <= k < q + 32 then old(X[k - q + p]) else old(X[k])
  {
    var wp := X[p..p + 32];
    var wq := X[q..q + 32];
    forall b | 0 <= b < 32 {
      X[p + b] := wq[b];
    }
    forall b | 0 <= b < 32 {
      X[q + b] := wp[b];
    }
  }

  /** The linear mixing layer, in place. */
  method LinearMixing(X: array<Poly>, r: int)
    requires X.Length == 384
    modifies X
    ensures X[..] == LinearMixingF(old(X[..]), r)
  {
    ghost var s := X[..];
    if r % 4 == 0 {
      SwapWords(X, 0, 32);
      SwapWords(X, 64, 96);
    } else if r % 4 == 2 {
      SwapWords(X, 0, 64);
      SwapWords(X, 32, 96);
    }
    forall k | 0 <= k < 384
      ensures X[k] == LinearMixingF(s, r)[k]
    {
      MixSourceRanges(r, k);
    }
    assert X[..] == LinearMixingF(s, r);
  }

  // ---------------------------------------------------------------------
  // Round constant

  /** Round numbers for which `round_const` does not fail: in every fourth
      round hex2vector(r, 32) must accept r. */
  predicate RoundNumberOk(r: int)
  {
    r % 4 != 0 || 0 <= r < 0x1_0000_0000
  }

  /** Every fourth round XORs `0x9e377900 ^ r` into s_{0,0}. */
  function RoundConstF(s: seq<Poly>, r: int): (t: seq<Poly>)
    requires |s| == 384 && RoundNumberOk(r)
    ensures |t| == 384
  {
    if r % 4 != 0 then s
    else
      seq(384, k requires 0 <= k < 384 =>
        if k < 32 then Add(Add(s[k], Const(Bit(RoundConstant, k))), Const(Bit(r, k))) else s[k])
  }

  /** XOR-ing the two constant vectors into word s_{0,0}, one after the
      other, is the round constant of the specification. */
  lemma RoundConstWord(s: seq<Poly>, c: seq<nat>, rv: seq<nat>, r: int)
    requires |s| == 384 && |c| == |rv| == 32 && r % 4 == 0 && 0 <= r < 0x1_0000_0000
    requires forall k :: 0 <= k < 32 ==> c[k] == Bit(RoundConstant, k)
    requires forall k :: 0 <= k < 32 ==> rv[k] == Bit(r, k)
    ensures VecAdd(VecAdd(s[..32], ConstVec(c)), ConstVec(rv)) + s[32..] == RoundConstF(s, r)
  {
    var w := VecAdd(VecAdd(s[..32], ConstVec(c)), ConstVec(rv));
    assert forall k :: 0 <= k < 384 ==> (w + s[32..])[k] == RoundConstF(s, r)[k];
  }

  /** The round constant, in place. */
  method RoundConst(X: array<Poly>, r: int)
    requires X.Length == 384 && RoundNumberOk(r)
    modifies X
    ensures X[..] == RoundConstF(old(X[..]), r)
  {
    if r % 4 == 0 {
      Pow2Of32();
      var c := Hex2Vector(RoundConstant, 32).value;
      var rv := Hex2Vector(r, 32).value;
      ghost var before := X[..];
      var s00 := VecAdd(VecAdd(X[0..32], ConstVec(c)), ConstVec(rv));
      RoundConstWord(before, c, rv, r);
      WriteFirstWord(X, s00);
    }
  }

  /** `self.state[0][0] = w` */
  method WriteFirstWord(X: array<Poly>, w: seq<Poly>)
    requires X.Length == 384 && |w| == 32
    modifies X
    ensures X[..] == w + old(X[..])[32..]
  {
    forall k | 0 <= k < 32 {
      X[k] := w[k];
    }
    assert forall k :: 0 <= k < 384 ==> X[k] == (w + old(X[..])[32..])[k];
  }

  // ---------------------------------------------------------------------
  // Rounds

  /** One Gimli round with round number r. */
  function Step(s: seq<Poly>, r: int): (t: seq<Poly>)
    requires |s| == 384 && RoundNumberOk(r)
    ensures |t| == 384
  {
    RoundConstF(LinearMixingF(NonLinearF(s), r), r)
  }

  /** One round without its constant. */
  function StepWithoutConst(s: seq<Poly>, r: int): (t: seq<Poly>)
    requires |s| == 384
    ensures |t| == 384
  {
    LinearMixingF(NonLinearF(s), r)
  }

  /** The constant only ever changes s_{0,0}, and only in every fourth round. */
  lemma StepConstOnlyWord00(s: seq<Poly>, r: int)
    requires |s| == 384 && RoundNumberOk(r)
    ensures Step(s, r)[32..] == StepWithoutConst(s, r)[32..]
    ensures r % 4 != 0 ==> Step(s, r) == StepWithoutConst(s, r)
  {
  }

  /** Rounds i .. n - 1, with round numbers 24 - i, ..., 24 - (n - 1).
      Round 28 would pass -4 to the constant, which hex2vector cannot
      convert. */
  function RoundsFrom(s: seq<Poly>, i: nat, n: nat): (t: seq<Poly>)
    requires |s| == 384 && i <= n <= 28
    ensures |t| == 384
    decreases n - i
  {
    if i == n then s else RoundsFrom(Step(s, 24 - i), i + 1, n)
  }

  /** n rounds with round numbers 24, 23, ..., 24 - (n - 1). */
  function Rounds(s: seq<Poly>, n: nat): (t: seq<Poly>)
    requires |s| == 384 && n <= 28
    ensures |t| == 384
  {
    RoundsFrom(s, 0, n)
  }

  function RoundsWithoutConstFrom(s: seq<Poly>, i: nat, n: nat): (t: seq<Poly>)
    requires |s| == 384 && i <= n
    ensures |t| == 384
    decreases n - i
  {
    if i == n then s else RoundsWithoutConstFrom(StepWithoutConst(s, 24 - i), i + 1, n)
  }

  function RoundsWithoutConst(s: seq<Poly>, n: nat): (t: seq<Poly>)
    requires |s| == 384
    ensures |t| == 384
  {
    RoundsWithoutConstFrom(s, 0, n)
  }

  /** `round`: `rounds` rounds in place.  Round 28 has round number -4,
      whose constant hex2vector cannot convert: the source raises there,
      after the nonlinear and mixing layers of that round have already
      changed X; `ok` is false on that path. */
  method Round(X: array<Poly>, rounds: int) returns (ok: bool)
    requires X.Length == 384
    modifies X
    ensures ok <==> rounds <= 28
    ensures ok ==> X[..] == Rounds(old(X[..]), if rounds < 0 then 0 else rounds)
    ensures !ok ==> X[..] == StepWithoutConst(Rounds(old(X[..]), 28), -4)
  {
    var n := if rounds < 0 then 0 else if rounds > 28 then 28 else rounds;
    for r := 0 to n
      invariant RoundsFrom(X[..], r, n) == Rounds(old(X[..]), n)
    {
      ghost var before := X[..];
      OneRound(X, 24 - r);
      assert RoundsFrom(before, r, n) == RoundsFrom(X[..], r + 1, n);
    }
    assert RoundsFrom(X[..], n, n) == X[..];
    ok := rounds <= 28;
    if !ok {
      OneRoundWithoutConst(X, 24 - 28);
    }
  }

  /** The body of the loop of `round`: round number r. */
  method OneRound(X: array<Poly>, r: int)
    requires X.Length == 384 && RoundNumberOk(r)
    modifies X
    ensures X[..] == Step(old(X[..]), r)
  {
    NonLinear(X);
    LinearMixing(X, r);
    RoundConst(X, r);
  }

  /** The body of the loop of `round_without_const`. */
  method OneRoundWithoutConst(X: array<Poly>, r: int)
    requires X.Length == 384
    modifies X
    ensures X[..] == StepWithoutConst(old(X[..]), r)
  {
    NonLinear(X);
    LinearMixing(X, r);
  }

  /** `round_without_const`: `rounds` rounds in place, without constants. */
  method RoundWithoutConst(X: array<Poly>, rounds: int)
    requires X.Length == 384
    modifies X
    ensures X[..] == RoundsWithoutConst(old(X[..]), if rounds < 0 then 0 else rounds)
  {
    var n := if rounds < 0 then 0 else rounds;
    for r := 0 to n
      invariant RoundsWithoutConstFrom(X[..], r, n) == RoundsWithoutConst(old(X[..]), n)
    {
      ghost var before := X[..];
      OneRoundWithoutConst(X, 24 - r);
      assert RoundsWithoutConstFrom(before, r, n) == RoundsWithoutConstFrom(X[..], r + 1, n);
    }
    assert RoundsWithoutConstFrom(X[..], n, n) == X[..];
  }

  // ---------------------------------------------------------------------
  // Known-answer check

  /** The published output of 24 rounds on the all-zero state. */
  const GroundTruthBits: seq<nat> := [
      0, 0, 1, 0, 0, 0, 1, 1, 0, 0, 0, 1, 1, 0, 1, 1, 1, 1, 1, 0, 0, 1, 1, 0, 0, 0, 1, 0, 0, 1, 1, 0,
      1, 1, 0, 1, 1, 1, 0, 0, 0, 0, 0, 1, 1, 1, 1, 1, 0, 0, 1, 1, 1, 0, 1, 1, 1, 1, 1, 0, 0, 0, 0, 0,
      0, 0, 1, 0, 1, 0, 1, 1, 0, 0, 0, 0, 1, 1, 0, 1, 1, 1, 0, 1, 0, 0, 0, 0, 1, 1, 0, 1, 1, 1, 0, 0,
      0, 0, 1, 1, 0, 0, 1, 0, 0, 1, 1, 0, 1, 1, 0, 0, 1, 0, 0, 0, 0, 1, 0, 0, 1, 1, 0, 1, 1, 0, 0, 0,
      0, 0, 1, 1, 1, 0, 1, 1, 1, 0, 0, 0, 1, 1, 0, 0, 0, 0, 1, 0, 1, 1, 0, 0, 0, 0, 0, 1, 0, 0, 0, 0,
      0, 1, 1, 1, 0, 0, 0, 1, 0, 1, 1, 1, 1, 1, 0, 1, 1, 1, 0, 1, 1, 1, 1, 1, 0, 1, 1, 1, 0, 0, 0, 0,
      0, 0, 1, 0, 0, 0, 0, 1, 0, 0, 0, 1, 0, 1, 1, 1, 0, 0, 1, 0, 1, 0, 1, 0, 0, 0, 0, 0, 0, 0, 0, 0,
      1, 0, 1, 0, 1, 0, 1, 0, 1, 0, 0, 1, 1, 0, 1, 1, 1, 1, 0, 1, 0, 0, 0, 1, 0, 0, 1, 0, 0, 1, 1, 0,
      0, 1, 1, 1, 0, 1, 0, 0, 0, 0, 1, 0, 1, 1, 0, 1, 1, 0, 1, 1, 1, 0, 1, 0, 0, 1, 0, 1, 0, 0, 1, 0,
      1, 1, 0, 1, 0, 0, 1, 1, 1, 0, 0, 0, 0, 0, 1, 0, 0, 1, 1, 0, 0, 0, 0, 0, 0, 1, 0, 1, 0, 0, 1, 1,
      0, 1, 0, 0, 0, 0, 1, 1, 0, 1, 0, 0, 1, 0, 1, 1, 1, 1, 0, 0, 1, 1, 1, 0, 0, 1, 1, 0, 0, 0, 0, 1,
      1, 0, 0, 1, 0, 0, 0, 0, 0, 0, 0, 1, 1, 0, 1, 1, 0, 0, 0, 0, 1, 1, 0, 0, 0, 1, 1, 1, 0, 1, 0, 0
  ]

  function GroundTruth(): (g: seq<Poly>)
    ensures |g| == 384
  {
    ConstVec(GroundTruthBits)
  }

  /** `check_round`: run 24 rounds on the zero state and compare with the
      published output. */
  method CheckRound() returns (res: bool)
    ensures res <==> Rounds(seq(384, _ => Zero), 24) == GroundTruth()
  {
    var X := new Poly[384](_ => Zero);
    assert X[..] == seq(384, _ => Zero);
    var ok := Round(X, 24);
    res := X[..] == GroundTruth();
  }
}
