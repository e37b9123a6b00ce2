/** `check_differential`: the 6-round Gimli trail of the paper, checked bit
    by bit with the binary label rule.

    The trail is given as twelve word constants; row r of the table is the
    difference after round r, and only words s_{i,1} and s_{i,3} are ever
    nonzero (they always carry the same constant).  The ring's variable
    blocks are `x`, then `NVa0 .. NVa(M-1)`, then `NVb0 .. NVb(M-1)`, each
    a Gimli state of 384 variables, where M is `MAX_ROUNDS`. */
module GimliCheck {
  import opened Common
  import opened Anf
  import opened Propagation
  import opened Gimli
  import opened GimliTrail

  /** The word differences of the trail, in the order the table uses them. */
  const C: seq<nat> := [
    0xff898081, 0x80618880, 0x81ff8980, 0x42668080, 0xc0400000, 0x00011100,
    0x80010080, 0x00402000, 0x80400080, 0x00000080, 0x00400000, 0x80000000]

  /** The 32 bits of a word, least significant first. */
  function Bits32(n: nat): (w: seq<int>)
    ensures |w| == 32
  {
    seq(32, k requires 0 <= k < 32 => Bit(n, k) as int)
  }

  /** `hex2vector(w, 32)` of each word, one after the other. */
  method WordsToBits(ws: seq<nat>) returns (c: seq<seq<int>>)
    requires forall t :: 0 <= t < |ws| ==> ws[t] < 0x1_0000_0000
    ensures |c| == |ws|
    ensures forall t :: 0 <= t < |ws| ==> c[t] == Bits32(ws[t])
  {
    Pow2Of32();
    c := [];
    for t := 0 to |ws|
      invariant |c| == t
      invariant forall t' :: 0 <= t' < t ==> c[t'] == Bits32(ws[t'])
    {
      var v := Hex2Vector(ws[t], 32);
      assert v.value == Bits32(ws[t]);
      c := c + [v.value];
    }
  }

  // ---------------------------------------------------------------------
  // The trail table

  /** Which constant words s_{i,1} and s_{i,3} of row r carry; `None`
      leaves them 0. */
  function TrailWord(r: nat, i: nat): (t: Option<nat>)
    ensures t.Some? ==> t.value < |C|
  {
    if r == 0 && i == 0 then Some(0)
    else if r == 1 && 1 <= i <= 2 then Some(i)
    else if 2 <= r <= 4 && i <= 2 then Some(3 * (r - 1) + i)
    else if r == 5 && i == 2 then Some(11)
    else if r == 6 && i == 0 then Some(11)
    else None
  }

  /** Word s_{i,j} of row r of the trail, as a number. */
  function TrailValue(r: nat, i: nat, j: nat): nat
  {
    var w := TrailWord(r, i);
    if (j == 1 || j == 3) && w.Some? then C[w.value] else 0
  }

  /** Row r of the trail table: bit z of word s_{i,j} is bit z of its
      value. */
  function TrailRow(r: nat): (row: seq<int>)
    ensures |row| == 384
  {
    seq(384, k requires 0 <= k < 384 => Bit(TrailValue(r, Row(k), ColumnOf(k)), Offset(k)) as int)
  }

  /** The table of `MAX_ROUNDS + 1` rows. */
  function TrailTable(m: nat): (t: seq<seq<int>>)
    ensures |t| == m + 1 && forall r :: 0 <= r <= m ==> t[r] == TrailRow(r)
  {
    seq(m + 1, r requires 0 <= r <= m => TrailRow(r))
  }

  /** The nonzero words of the trail are s_{i,1} and s_{i,3} of rows 0 to
      6, and the two words of a row always agree. */
  lemma TrailShape(r: nat, i: nat)
    ensures TrailValue(r, i, 1) == TrailValue(r, i, 3)
    ensures TrailValue(r, i, 0) == 0 && TrailValue(r, i, 2) == 0
    ensures r > 6 ==> TrailValue(r, i, 1) == 0
  {
  }

  /** Word s_{i,j} of a table row. */
  function TableWord(row: seq<int>, i: nat, j: nat): (w: seq<int>)
    requires |row| == 384 && i < 3 && j < 4
    ensures |w| == 32
  {
    row[WordStart(i, j)..WordStart(i, j) + 32]
  }

  /** Bit k of 0 is 0. */
  lemma {:induction false} BitOfZero(k: nat)
    ensures Bit(0, k) == 0
  {
    if k > 0 {
      BitOfZero(k - 1);
    }
  }

  const ZeroRow: seq<int> := seq(384, _ => 0)

  /** Every word of the all-zero row is the word of 0. */
  lemma ZeroWords()
    ensures forall i, j :: 0 <= i < 3 && 0 <= j < 4 ==> TableWord(ZeroRow, i, j) == Bits32(0)
  {
    forall k | 0 <= k < 32
      ensures Bits32(0)[k] == 0
    {
      BitOfZero(k);
    }
  }

  /** A row whose twelve words are the bits of the trail's word values of
      row r is row r. */
  lemma RowIsTrail(row: seq<int>, r: nat)
    requires |row| == 384
    requires forall i, j :: 0 <= i < 3 && 0 <= j < 4 ==> TableWord(row, i, j) == Bits32(TrailValue(r, i, j))
    ensures row == TrailRow(r)
  {
    forall k | 0 <= k < 384
      ensures row[k] == TrailRow(r)[k]
    {
      IndexSplit(k);
      assert row[k] == TableWord(row, Row(k), ColumnOf(k))[Offset(k)];
    }
  }

  /** `row[start:start+32] = w`. */
  function SetSlice(row: seq<int>, start: nat, w: seq<int>): (row': seq<int>)
    requires start + 32 <= |row| && |w| == 32
    ensures |row'| == |row|
    ensures forall k :: 0 <= k < |row| ==> row'[k] == if start <= k < start + 32 then w[k - start] else row[k]
  {
    row[..start] + w + row[start + 32..]
  }

  /** Bit z of word s_{i,j} lies in word s_{i',j'} exactly when the words
      are the same. */
  lemma InWord(i: nat, j: nat, i': nat, j': nat, z: nat)
    requires i < 3 && j < 4 && i' < 3 && j' < 4 && z < 32
    ensures WordStart(i', j') <= Index(i, j, z) < WordStart(i', j') + 32 <==> i == i' && j == j'
    ensures i == i' && j == j' ==> Index(i, j, z) - WordStart(i', j') == z
  {
  }

  /** `diff[r][s_{i,1}] = diff[r][s_{i,3}] = w` on row `diff[r]`: both odd
      words of state row i become w, every other word is kept. */
  function SetPair(row: seq<int>, i: nat, w: seq<int>): (row': seq<int>)
    requires |row| == 384 && i < 3 && |w| == 32
    ensures |row'| == 384
    ensures forall i', j :: 0 <= i' < 3 && 0 <= j < 4 ==>
      TableWord(row', i', j) == if i' == i && (j == 1 || j == 3) then w else TableWord(row, i', j)
  {
    var row' := SetSlice(SetSlice(row, WordStart(i, 1), w), WordStart(i, 3), w);
    forall i', j | 0 <= i' < 3 && 0 <= j < 4
      ensures TableWord(row', i', j) == if i' == i && (j == 1 || j == 3) then w else TableWord(row, i', j)
    {
      forall z | 0 <= z < 32
        ensures TableWord(row', i', j)[z] == (if i' == i && (j == 1 || j == 3) then w else TableWord(row, i', j))[z]
      {
        InWord(i', j, i, 1, z);
        InWord(i', j, i, 3, z);
      }
    }
    row'
  }

  /** Row r of `diff` after the slice assignments that write it: the
      fourteen assignments touch rows 0 to 6, each row's assignments
      together; every other row stays zero. */
  method WriteRow(r: nat, c: seq<seq<int>>) returns (row: seq<int>)
    requires |c| == |C| && forall t :: 0 <= t < |C| ==> c[t] == Bits32(C[t])
    ensures row == TrailRow(r)
  {
    ZeroWords();
    row := ZeroRow;
    if r == 0 {
      row := SetPair(row, 0, c[0]);
      RowIsTrail(row, r);
    } else if r == 1 {
      row := SetPair(row, 1, c[1]);
      row := SetPair(row, 2, c[2]);
      RowIsTrail(row, r);
    } else if r == 2 {
      row := SetPair(row, 0, c[3]);
      row := SetPair(row, 1, c[4]);
      row := SetPair(row, 2, c[5]);
      RowIsTrail(row, r);
    } else if r == 3 {
      row := SetPair(row, 0, c[6]);
      row := SetPair(row, 1, c[7]);
      row := SetPair(row, 2, c[8]);
      RowIsTrail(row, r);
    } else if r == 4 {
      row := SetPair(row, 0, c[9]);
      row := SetPair(row, 1, c[10]);
      row := SetPair(row, 2, c[11]);
      RowIsTrail(row, r);
    } else if r == 5 {
      row := SetPair(row, 2, c[11]);
      RowIsTrail(row, r);
    } else if r == 6 {
      row := SetPair(row, 0, c[11]);
      RowIsTrail(row, r);
    } else {
      RowIsTrail(row, r);
    }
  }

  /** The table as `check_differential` fills it: `MAX_ROUNDS + 1` zero
      rows, then the slice assignments of rows 0 to 6.  Row 6 is always
      written, so a table of fewer than 7 rows raises an IndexError
      (`None`). */
  method BuildTable(m: int) returns (diff: Option<seq<seq<int>>>)
    ensures diff.None? <==> m < 6
    ensures diff.Some? ==> diff.value == TrailTable(m)
  {
    if m < 6 {
      return None;
    }
    var c := WordsToBits(C);
    var t := seq(m + 1, _ => ZeroRow);
    ZeroRowsAbove(m);
    for r := 0 to 7
      invariant |t| == m + 1
      invariant forall r' :: 0 <= r' < r ==> t[r'] == TrailRow(r')
      invariant forall r' :: r <= r' <= m ==> t[r'] == ZeroRow
    {
      var row := WriteRow(r, c);
      t := t[r := row];
    }
    assert forall r :: 0 <= r <= m ==> t[r] == TrailTable(m)[r];
    return Some(t);
  }

  /** Rows past 6 of the trail are zero. */
  lemma ZeroRowsAbove(m: nat)
    ensures forall r :: 7 <= r <= m ==> TrailRow(r) == ZeroRow
  {
    forall r | 7 <= r <= m
      ensures TrailRow(r) == ZeroRow
    {
      ZeroWords();
      RowIsTrail(ZeroRow, r);
    }
  }

  // ---------------------------------------------------------------------
  // check_differential

  /** `NVa_r(i)`, variable i of block 1 + r. */
  function NVa(r: nat): (a: seq<Var>)
    ensures |a| == 384
  {
    seq(384, i requires 0 <= i < 384 => X(384 * (1 + r) + i))
  }

  /** `NVb_r(i)`, variable i of block 1 + M + r. */
  function NVb(m: nat, r: nat): (b: seq<Var>)
    ensures |b| == 384
  {
    seq(384, i requires 0 <= i < 384 => X(384 * (1 + m + r) + i))
  }

  /** What `check_differential` hands to the loop when `MAX_ROUNDS` is m. */
  function CheckSetup(m: nat): Setup
  {
    Setup(Binary, seq(384, i requires 0 <= i < 384 => Const(TrailRow(0)[i])), TrailTable(m),
          seq(m, r requires 0 <= r < m => NVa(r)), seq(m, r requires 0 <= r < m => NVb(m, r)),
          0, seq(m, _ => []))
  }

  /** The setup covers every round up to `MAX_ROUNDS`. */
  lemma CheckSetupOk(m: nat, rounds: nat)
    requires rounds <= m
    ensures SetupOk(CheckSetup(m), rounds)
  {
  }

  /** `check_differential(rounds, MAX_ROUNDS)`.  More rounds than
      `MAX_ROUNDS` stop it at once (`exit(1)`), a `MAX_ROUNDS` below 6 makes
      the table assignments fail, round 28 (round number -4) makes the
      round constant fail, and a negative round count runs no round. */
  method CheckDifferential(rounds: int, maxRounds: int) returns (out: Outcome)
    ensures out.Aborted? <==> rounds > maxRounds || maxRounds < 6 || rounds > 28
    ensures !out.Impossible?
    ensures out.Constraints? ==> 6 <= maxRounds && rounds <= maxRounds && rounds <= 28
    ensures out.Constraints? ==> out.q == Trail(CheckSetup(maxRounds), if rounds < 0 then 0 else rounds)
  {
    if rounds > maxRounds {
      return Aborted;
    }
    var diff := BuildTable(maxRounds);
    if diff.None? {
      return Aborted;
    }
    var table := diff.value;
    var d0 := seq(384, i requires 0 <= i < 384 => Const(table[0][i]));
    var a := seq(maxRounds, r requires 0 <= r < maxRounds => NVa(r));
    var b := seq(maxRounds, r requires 0 <= r < maxRounds => NVb(maxRounds, r));
    var S := Setup(Binary, d0, table, a, b, 0, seq(maxRounds, _ => []));
    assert S == CheckSetup(maxRounds);
    var n := if rounds < 0 then 0 else rounds;
    CheckSetupOk(maxRounds, n);
    out := Propagate(S, n);
  }

  /** Every bit of every checked round is pinned to the trail: the name of
      bit k's difference after round r + 1 equals bit k of trail row
      r + 1. */
  lemma CheckEveryBit(m: nat, n: nat, r: nat, k: nat)
    requires n <= m && n <= 28 && r < n && k < 384
    ensures SetupOk(CheckSetup(m), n)
    ensures Add(Atom(NVa(r)[k]), Const(TrailRow(r + 1)[k])) in Trail(CheckSetup(m), n)
  {
    var S := CheckSetup(m);
    CheckSetupOk(m, n);
    TrailDifferences(S, n, r, k);
    var e := TrailRow(r + 1)[k];
    assert Target(e) == e;
  }

  /** The seeded input difference is the trail's row 0. */
  lemma CheckInput(m: nat, k: nat)
    requires k < 384
    ensures SetupOk(CheckSetup(m), 0)
    ensures DivU(State(CheckSetup(m), 0)[k]) == Const(TrailRow(0)[k])
  {
    CheckSetupOk(m, 0);
    InputDifference(CheckSetup(m), k);
  }

  /** The names are fresh: no two bits of any rounds share a name, and no
      name is an input variable. */
  lemma CheckNamesFresh(m: nat, r: nat, i: nat, r': nat, i': nat)
    requires r < m && r' < m && i < 384 && i' < 384
    ensures NVa(r)[i] == NVa(r')[i'] ==> r == r' && i == i'
    ensures NVb(m, r)[i] == NVb(m, r')[i'] ==> r == r' && i == i'
    ensures NVa(r)[i] != NVb(m, r')[i']
    ensures NVa(r)[i] != X(i') && NVb(m, r)[i] != X(i')
  {
  }
}
