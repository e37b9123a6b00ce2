/** The 6-round and 8-round Gimli attacks.

    Both scripts feed the shared propagation loop with a symbolic input
    difference (31 fresh difference variables in word s_{0,3}, and in the
    6-round attack the same variables in word s_{0,1}, with bit 31 of those
    words set to 1), a label table of 0 and -1 built by slice assignments,
    the ternary label rule, and a fresh pair of name blocks per round.  The
    6-round attack also ties words s_{i,1} and s_{i,3} of the rows its
    labels leave open; the 8-round attack starts at round number 23. */
module GimliAttacks {
  import opened Common
  import opened Anf
  import opened Propagation
  import opened Gimli
  import opened GimliTrail
  import opened GimliCheck

  datatype Attack = SixRound | EightRound

  /** `ROUNDS` of each script. */
  function AttackRounds(A: Attack): nat
  {
    if A == SixRound then 6 else 8
  }

  /** The 8-round attack uses round numbers `24 - (r + 1)`. */
  function AttackShift(A: Attack): nat
  {
    if A == SixRound then 0 else 1
  }

  // ---------------------------------------------------------------------
  // The label table

  /** Word s_{i,j} of `diff[r]` is labelled -1 (ignored). */
  predicate Ignored(A: Attack, r: nat, i: nat, j: nat)
  {
    match A
    case SixRound =>
      (j == 1 || j == 3) &&
      ((r == 1 && 1 <= i) || (2 <= r <= 4) || (r == 5 && i == 2) || (r == 6 && i == 0))
    case EightRound =>
      || ((r == 1 || r == 3) && j == 3)
      || ((r == 5 || r == 7) && j == 2)
      || (r == 2 && j == 3 && 1 <= i)
      || (r == 4 && j == 2 && i == 0)
      || (r == 6 && j == 2 && 1 <= i)
      || (r == 8 && j == 3 && i == 0)
  }

  /** `diff[r]` as a label row: -1 on the ignored words, 0 elsewhere. */
  function LabelRow(A: Attack, r: nat): (row: seq<int>)
    ensures |row| == 384
  {
    seq(384, k requires 0 <= k < 384 => if Ignored(A, r, Row(k), ColumnOf(k)) then -1 else 0)
  }

  /** `diff[0 .. ROUNDS]` as labels; row 0 holds the symbolic input
      difference instead, which `DiffInput` describes. */
  function Labels(A: Attack): (t: seq<seq<int>>)
    ensures |t| == AttackRounds(A) + 1
    ensures forall r :: 0 <= r < |t| ==> t[r] == LabelRow(A, r)
  {
    seq(AttackRounds(A) + 1, r requires 0 <= r <= AttackRounds(A) => LabelRow(A, r))
  }

  /** A word of the table: (row r of `diff`, state row i, column j). */
  type WordId = (nat, nat, nat)

  /** The table `diff[0 .. n]` once the words of W have been set to -1. */
  function MaskTable(n: nat, W: set<WordId>): (t: seq<seq<int>>)
    ensures |t| == n + 1 && forall r :: 0 <= r <= n ==> |t[r]| == 384
  {
    seq(n + 1, r requires 0 <= r <= n => seq(384, k requires 0 <= k < 384 => if (r, Row(k), ColumnOf(k)) in W then -1 else 0))
  }

  /** `diff[r][index_start[i][j]:index_end[i][j]] = [-1] * 32`. */
  method Ignore(t: seq<seq<int>>, ghost n: nat, ghost W: set<WordId>, r: nat, i: nat, j: nat)
    returns (t': seq<seq<int>>)
    requires t == MaskTable(n, W) && r <= n && i < 3 && j < 4
    ensures t' == MaskTable(n, W + {(r, i, j)})
  {
    t' := t[r := SetSlice(t[r], WordStart(i, j), seq(32, _ => -1))];
    var M := MaskTable(n, W + {(r, i, j)});
    forall r' | 0 <= r' <= n
      ensures t'[r'] == M[r']
    {
      forall k | 0 <= k < 384
        ensures t'[r'][k] == M[r'][k]
      {
        IndexSplit(k);
        InWord(Row(k), ColumnOf(k), i, j, Offset(k));
      }
    }
  }

  /** A table whose -1 words are exactly the ignored ones is the label
      table. */
  lemma MaskIsLabels(A: Attack, W: set<WordId>)
    requires forall r, i, j :: 0 <= r <= AttackRounds(A) && 0 <= i < 3 && 0 <= j < 4 ==>
      ((r, i, j) in W <==> Ignored(A, r, i, j))
    ensures MaskTable(AttackRounds(A), W) == Labels(A)
  {
    var M := MaskTable(AttackRounds(A), W);
    forall r | 0 <= r <= AttackRounds(A)
      ensures M[r] == Labels(A)[r]
    {
      forall k | 0 <= k < 384
        ensures M[r][k] == Labels(A)[r][k]
      {
        IndexSplit(k);
      }
    }
  }

  /** An all-zero table of n + 1 rows has no -1 word. */
  lemma ZeroTable(n: nat)
    ensures seq(n + 1, _ => ZeroRow) == MaskTable(n, {})
  {
    var M := MaskTable(n, {});
    forall r | 0 <= r <= n
      ensures M[r] == ZeroRow
    {
      forall k | 0 <= k < 384
        ensures M[r][k] == ZeroRow[k]
      {
      }
    }
  }

  /** The words of a table row, as a set. */
  function Words(ws: seq<WordId>): set<WordId>
  {
    set w | w in ws
  }

  /** A chained assignment `diff[..][..] = ... = diff[..][..] = [-1] * 32`:
      every listed word becomes -1. */
  method IgnoreAll(t: seq<seq<int>>, ghost n: nat, ghost W: set<WordId>, ws: seq<WordId>)
    returns (t': seq<seq<int>>)
    requires t == MaskTable(n, W)
    requires forall k :: 0 <= k < |ws| ==> ws[k].0 <= n && ws[k].1 < 3 && ws[k].2 < 4
    ensures t' == MaskTable(n, W + Words(ws))
  {
    t' := t;
    assert W + Words(ws[..0]) == W;
    for k := 0 to |ws|
      invariant t' == MaskTable(n, W + Words(ws[..k]))
    {
      assert Words(ws[..k + 1]) == Words(ws[..k]) + {ws[k]} by {
        assert ws[..k + 1] == ws[..k] + [ws[k]];
      }
      assert W + Words(ws[..k + 1]) == W + Words(ws[..k]) + {ws[k]};
      t' := Ignore(t', n, W + Words(ws[..k]), ws[k].0, ws[k].1, ws[k].2);
    }
    assert ws[..|ws|] == ws;
  }

  /** The -1 words of the 6-round table after the first loop has run for
      rows 1 .. i - 1. */
  ghost predicate SixFirstLoop(W: set<WordId>, i: nat)
  {
    forall r: nat, i': nat, j: nat :: (r, i', j) in W <==> r == 1 && 1 <= i' < i && (j == 1 || j == 3)
  }

  /** ... and after the second loop has run for rows 0 .. i - 1. */
  ghost predicate SixSecondLoop(W: set<WordId>, i: nat)
  {
    forall r: nat, i': nat, j: nat :: (r, i', j) in W <==>
      (j == 1 || j == 3) && ((r == 1 && 1 <= i' < 3) || (2 <= r <= 4 && i' < i))
  }

  lemma SixFirstStep(W: set<WordId>, i: nat)
    requires 1 <= i && SixFirstLoop(W, i)
    ensures SixFirstLoop(W + Words([(1, i, 1), (1, i, 3)]), i + 1)
  {
  }

  lemma SixSecondStep(W: set<WordId>, i: nat)
    requires SixSecondLoop(W, i)
    ensures SixSecondLoop(W + Words([(2, i, 1), (2, i, 3), (3, i, 1), (3, i, 3), (4, i, 1), (4, i, 3)]), i + 1)
  {
  }

  lemma SixLast(W: set<WordId>)
    requires SixSecondLoop(W, 3)
    ensures forall r, i, j :: 0 <= r <= 6 && 0 <= i < 3 && 0 <= j < 4 ==>
      ((r, i, j) in W + Words([(5, 2, 1), (5, 2, 3), (6, 0, 1), (6, 0, 3)]) <==> Ignored(SixRound, r, i, j))
  {
  }

  /** The label table of `attack_6round`, built by the script's loops. */
  method SixRoundLabels() returns (t: seq<seq<int>>)
    ensures t == Labels(SixRound)
  {
    ghost var W: set<WordId> := {};
    t := seq(7, _ => ZeroRow);
    ZeroTable(6);
    for i := 1 to 3
      invariant t == MaskTable(6, W) && SixFirstLoop(W, i)
    {
      var ws := [(1, i, 1), (1, i, 3)];
      t := IgnoreAll(t, 6, W, ws);
      SixFirstStep(W, i);
      W := W + Words(ws);
    }
    for i := 0 to 3
      invariant t == MaskTable(6, W) && SixSecondLoop(W, i)
    {
      var ws := [(2, i, 1), (2, i, 3), (3, i, 1), (3, i, 3), (4, i, 1), (4, i, 3)];
      t := IgnoreAll(t, 6, W, ws);
      SixSecondStep(W, i);
      W := W + Words(ws);
    }
    var ws := [(5, 2, 1), (5, 2, 3), (6, 0, 1), (6, 0, 3)];
    t := IgnoreAll(t, 6, W, ws);
    SixLast(W);
    MaskIsLabels(SixRound, W + Words(ws));
  }

  /** The -1 words of the 8-round table after its loop has run for rows
      0 .. i - 1. */
  ghost predicate EightLoop(W: set<WordId>, i: nat)
  {
    forall r: nat, i': nat, j: nat :: (r, i', j) in W <==>
      i' < i && (((r == 1 || r == 3) && j == 3) || ((r == 5 || r == 7) && j == 2))
  }

  lemma EightStep(W: set<WordId>, i: nat)
    requires EightLoop(W, i)
    ensures EightLoop(W + Words([(1, i, 3), (3, i, 3), (5, i, 2), (7, i, 2)]), i + 1)
  {
  }

  lemma EightLast(W: set<WordId>)
    requires EightLoop(W, 3)
    ensures forall r, i, j :: 0 <= r <= 8 && 0 <= i < 3 && 0 <= j < 4 ==>
      ((r, i, j) in W + Words([(2, 1, 3), (2, 2, 3), (4, 0, 2), (6, 1, 2), (6, 2, 2), (8, 0, 3)])
       <==> Ignored(EightRound, r, i, j))
  {
  }

  /** The label table of `attack_8round`, built by the script's loop and
      chained assignment. */
  method EightRoundLabels() returns (t: seq<seq<int>>)
    ensures t == Labels(EightRound)
  {
    ghost var W: set<WordId> := {};
    t := seq(9, _ => ZeroRow);
    ZeroTable(8);
    for i := 0 to 3
      invariant t == MaskTable(8, W) && EightLoop(W, i)
    {
      var ws := [(1, i, 3), (3, i, 3), (5, i, 2), (7, i, 2)];
      t := IgnoreAll(t, 8, W, ws);
      EightStep(W, i);
      W := W + Words(ws);
    }
    var ws := [(2, 1, 3), (2, 2, 3), (4, 0, 2), (6, 1, 2), (6, 2, 2), (8, 0, 3)];
    t := IgnoreAll(t, 8, W, ws);
    EightLast(W);
    MaskIsLabels(EightRound, W + Words(ws));
  }

  // ---------------------------------------------------------------------
  // The symbolic input difference

  /** Difference variable z, `x((2*ROUNDS + 1)*384 + z)`: the block after
      every round's names. */
  function DiffVar(A: Attack, z: nat): Var
  {
    X((2 * AttackRounds(A) + 1) * 384 + z)
  }

  /** The active words of `diff[0]`: s_{0,3}, and s_{0,1} in the 6-round
      attack. */
  predicate ActiveWord(A: Attack, i: nat, j: nat)
  {
    i == 0 && (j == 3 || (A == SixRound && j == 1))
  }

  /** `diff[0]`: bits 0 .. 30 of an active word are the difference
      variables, bit 31 is 1, every other bit is 0. */
  function DiffInput(A: Attack): (d: seq<Poly>)
    ensures |d| == 384
  {
    seq(384, k requires 0 <= k < 384 =>
      if !ActiveWord(A, Row(k), ColumnOf(k)) then Zero
      else if Offset(k) < 31 then Atom(DiffVar(A, Offset(k)))
      else One)
  }

  /** `diff[0][index_start[0][j]:index_end[0][j] - 1] = [diff_var(...)]`
      followed by `diff[0][index_end[0][j] - 1] = 1`, on the words the
      attack activates. */
  method InputDifferenceOf(A: Attack) returns (d: seq<Poly>)
    ensures d == DiffInput(A)
  {
    var vars := seq(31, z requires 0 <= z < 31 => Atom(DiffVar(A, z)));
    d := seq(384, _ => Zero);
    if A == SixRound {
      d := d[..WordStart(0, 1)] + vars + d[WordStart(0, 1) + 31..];
    }
    d := d[..WordStart(0, 3)] + vars + d[WordStart(0, 3) + 31..];
    if A == SixRound {
      d := d[Index(0, 1, 31) := One];
    }
    d := d[Index(0, 3, 31) := One];
    forall k | 0 <= k < 384
      ensures d[k] == DiffInput(A)[k]
    {
      DiffInputAt(A, k);
    }
  }

  /** Bit k of `diff[0]` by the range of k: words s_{0,1} and s_{0,3} are
      bits 32 .. 63 and 96 .. 127. */
  lemma DiffInputAt(A: Attack, k: nat)
    requires k < 384
    ensures DiffInput(A)[k] ==
      if 96 <= k < 127 then Atom(DiffVar(A, k - 96))
      else if k == 127 then One
      else if A == SixRound && 32 <= k < 63 then Atom(DiffVar(A, k - 32))
      else if A == SixRound && k == 63 then One
      else Zero
  {
    if k < 128 {
      assert Row(k) == 0 && k % 128 == k;
      if k < 32 {
        assert ColumnOf(k) == 0;
      } else if k < 64 {
        assert ColumnOf(k) == 1 && Offset(k) == k - 32;
      } else if k < 96 {
        assert ColumnOf(k) == 2;
      } else {
        assert ColumnOf(k) == 3 && Offset(k) == k - 96;
      }
    } else {
      assert Row(k) != 0;
    }
  }

  // ---------------------------------------------------------------------
  // Names, ties and the whole setup

  /** `a_vars[r][i] = x(384*(2r + 1) + i)`. */
  function AttackA(r: nat): (a: seq<Var>)
    ensures |a| == 384
  {
    seq(384, i requires 0 <= i < 384 => X(384 * (2 * r + 1) + i))
  }

  /** `b_vars[r][i] = x(384*(2r + 2) + i)`. */
  function AttackB(r: nat): (b: seq<Var>)
    ensures |b| == 384
  {
    seq(384, i requires 0 <= i < 384 => X(384 * (2 * r + 2) + i))
  }

  /** The rows whose words 1 and 3 the 6-round attack ties after round r;
      the 8-round attack ties none. */
  function TiedRows(A: Attack, r: nat): (rows: seq<nat>)
    ensures forall k :: 0 <= k < |rows| ==> rows[k] < 3
  {
    if A == EightRound then []
    else if r == 0 then [1, 2]
    else if r in [1, 2, 3] then [0, 1, 2]
    else if r == 4 then [2]
    else if r == 5 then [0]
    else []
  }

  function AttackSetup(A: Attack): Setup
  {
    Setup(Ternary, DiffInput(A), Labels(A),
          seq(AttackRounds(A), r requires 0 <= r < AttackRounds(A) => AttackA(r)),
          seq(AttackRounds(A), r requires 0 <= r < AttackRounds(A) => AttackB(r)),
          AttackShift(A),
          seq(AttackRounds(A), r requires 0 <= r < AttackRounds(A) => TiedRows(A, r)))
  }

  lemma AttackSetupOk(A: Attack)
    ensures SetupOk(AttackSetup(A), AttackRounds(A))
    ensures AttackRounds(A) + AttackShift(A) <= 28
  {
  }

  /** `attack_6round` and `attack_8round`: both propagate all their rounds
      and return the constraint set; neither the round constant nor the
      ternary check stops them. */
  method RunAttack(A: Attack) returns (q: set<Poly>)
    ensures SetupOk(AttackSetup(A), AttackRounds(A))
    ensures q == Trail(AttackSetup(A), AttackRounds(A))
  {
    var d0 := InputDifferenceOf(A);
    var table;
    if A == SixRound {
      table := SixRoundLabels();
    } else {
      table := EightRoundLabels();
    }
    var n := AttackRounds(A);
    var S := Setup(Ternary, d0, table,
                   seq(n, r requires 0 <= r < n => AttackA(r)),
                   seq(n, r requires 0 <= r < n => AttackB(r)),
                   AttackShift(A),
                   seq(n, r requires 0 <= r < n => TiedRows(A, r)));
    assert S == AttackSetup(A);
    AttackSetupOk(A);
    var out := Propagate(S, n);
    q := out.q;
  }

  // ---------------------------------------------------------------------
  // What the constraint sets say

  /** The 6-round attack ties exactly the rows whose odd words the next
      label row ignores. */
  lemma TiesMatchLabels(r: nat, i: nat)
    requires r < 6 && i < 3
    ensures i in TiedRows(SixRound, r) <==> Ignored(SixRound, r + 1, i, 1)
    ensures Ignored(SixRound, r + 1, i, 1) <==> Ignored(SixRound, r + 1, i, 3)
  {
  }

  /** Every bit a label row does not ignore is pinned to difference 0: the
      name of its difference after round r + 1 is itself an equation. */
  lemma AttackPinsOpenBits(A: Attack, r: nat, k: nat)
    requires r < AttackRounds(A) && k < 384
    requires !Ignored(A, r + 1, Row(k), ColumnOf(k))
    ensures SetupOk(AttackSetup(A), AttackRounds(A))
    ensures Atom(AttackA(r)[k]) in Trail(AttackSetup(A), AttackRounds(A))
  {
    var S := AttackSetup(A);
    AttackSetupOk(A);
    assert S.rows[r + 1][k] == 0;
    TrailPinsZero(S, AttackRounds(A), r, k);
  }

  /** In the 6-round attack, bit z of words s_{i,1} and s_{i,3} of a tied
      row have equal differences after round r + 1. */
  lemma SixRoundTies(r: nat, i: nat, z: nat)
    requires r < 6 && i in TiedRows(SixRound, r) && z < 32
    ensures SetupOk(AttackSetup(SixRound), 6)
    ensures Add(Atom(AttackA(r)[Index(i, 1, z)]), Atom(AttackA(r)[Index(i, 3, z)]))
            in Trail(AttackSetup(SixRound), 6)
  {
    var S := AttackSetup(SixRound);
    AttackSetupOk(SixRound);
    var k :| 0 <= k < |S.tied[r]| && S.tied[r][k] == i;
    TrailTies(S, 6, r, k, z);
  }

  /** The seeded difference is `diff[0]`; it is not zero, because bit 31 of
      s_{0,3} is 1, and in the 6-round attack words s_{0,1} and s_{0,3}
      carry the same difference. */
  lemma AttackInput(A: Attack, k: nat)
    requires k < 384
    ensures SetupOk(AttackSetup(A), 0)
    ensures DivU(State(AttackSetup(A), 0)[k]) == DiffInput(A)[k]
    ensures DiffInput(A)[Index(0, 3, 31)] == One
    ensures A == SixRound && k < 32 ==> DiffInput(A)[Index(0, 1, k)] == DiffInput(A)[Index(0, 3, k)]
  {
    AttackSetupOk(A);
    IndexSplit(k);
    InputDifference(AttackSetup(A), k);
    IndexParts(0, 3, 31);
    if A == SixRound && k < 32 {
      IndexParts(0, 1, k);
      IndexParts(0, 3, k);
    }
  }

  /** All names are fresh: different bits and rounds get different names,
      and no name is an input variable or a difference variable. */
  lemma AttackNamesFresh(A: Attack, r: nat, i: nat, r': nat, i': nat, z: nat)
    requires r < AttackRounds(A) && r' < AttackRounds(A) && i < 384 && i' < 384 && z < 31
    ensures AttackA(r)[i] == AttackA(r')[i'] ==> r == r' && i == i'
    ensures AttackB(r)[i] == AttackB(r')[i'] ==> r == r' && i == i'
    ensures AttackA(r)[i] != AttackB(r')[i']
    ensures AttackA(r)[i] != X(i') && AttackB(r)[i] != X(i')
    ensures AttackA(r)[i] != DiffVar(A, z) && AttackB(r)[i] != DiffVar(A, z)
  {
  }
}
