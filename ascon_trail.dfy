/** The 2-round Ascon trail checker of `ascon/code/2rhash_Zong.py`.

    The input state `x_0 .. x_319` is seeded with the difference row
    `diff[0]`.  Round r = 1 .. ROUNDS adds round constant r - 1, applies the
    S-box layer, linearises every bit into the round's fresh names
    `a_{r-1,i}*u + b_{r-1,i}`, applies the linear diffusion layer and
    compares every bit's difference with `diff[r + 1]` under the binary
    label rule.  Row `diff[1]` is filled but never compared. */
module AsconTrail {
  import opened Common
  import opened Anf
  import opened Propagation
  import opened Ascon

  // ---------------------------------------------------------------------
  // Difference rows

  /** Row filling below n: the first n entries of R are those of T, the
      others still 0. */
  ghost predicate FilledBelow(R: seq<int>, T: seq<int>, n: nat)
  {
    |R| == 320 && |T| == 320 && forall k {:trigger R[k]} :: 0 <= k < 320 ==> R[k] == if k < n then T[k] else 0
  }

  lemma FilledStep(R: seq<int>, R': seq<int>, T: seq<int>, n: nat)
    requires FilledBelow(R, T, n) && n < 320 && R' == R[n := T[n]]
    ensures FilledBelow(R', T, n + 1)
  {
  }

  /** Entry 64l + j of a row of words is bit 63 - j of word l, and 0 past
      the listed words. */
  lemma WordRowAt(ws: seq<nat>, l: nat, j: nat)
    requires l < 5 && j < 64
    ensures 64 * l + j < 320
    ensures WordRow(ws)[64 * l + j] == if l < |ws| then Bit(ws[l], 63 - j) else 0
  {
    IndexParts(l, j);
  }

  /** The single loop that fills word 0 of `diff[0]` and of `diff[3]`
      from `d0` and `d3`, over two fresh rows of zeros. */
  method FillFirstWords(d0: nat, d3: nat) returns (r0: array<int>, r3: array<int>)
    ensures fresh(r0) && fresh(r3) && r0[..] == WordRow([d0]) && r3[..] == WordRow([d3])
  {
    ghost var T0, T3 := WordRow([d0]), WordRow([d3]);
    r0 := new int[320](_ => 0);
    r3 := new int[320](_ => 0);
    for i := 0 to 64
      invariant FilledBelow(r0[..], T0, i) && FilledBelow(r3[..], T3, i)
    {
      WordRowAt([d0], 0, i);
      WordRowAt([d3], 0, i);
      ghost var R0, R3 := r0[..], r3[..];
      r0[i] := Bit(d0, 63 - i);
      r3[i] := Bit(d3, 63 - i);
      FilledStep(R0, r0[..], T0, i);
      FilledStep(R3, r3[..], T3, i);
    }
    forall k | 64 <= k < 320
      ensures T0[k] == 0 && T3[k] == 0
    {
      IndexSplit(k);
      WordRowAt([d0], LaneIdx(k), Offset(k));
      WordRowAt([d3], LaneIdx(k), Offset(k));
    }
    assert forall k :: 0 <= k < 320 ==> r0[..][k] == T0[k] && r3[..][k] == T3[k];
  }

  /** The double loop that fills a row from five words, over a fresh row
      of zeros. */
  method FillWords(ws: seq<nat>) returns (row: array<int>)
    requires |ws| == 5
    ensures fresh(row) && row[..] == WordRow(ws)
  {
    ghost var T := WordRow(ws);
    row := new int[320](_ => 0);
    for i := 0 to 5
      invariant FilledBelow(row[..], T, 64 * i)
    {
      for j := 0 to 64
        invariant FilledBelow(row[..], T, 64 * i + j)
      {
        WordRowAt(ws, i, j);
        ghost var R := row[..];
        row[64 * i + j] := Bit(ws[i], 63 - j);
        FilledStep(R, row[..], T, 64 * i + j);
      }
    }
    assert forall k :: 0 <= k < 320 ==> row[..][k] == T[k];
  }

  // ---------------------------------------------------------------------
  // Setup

  /** What the script hands to the loop: the rows `diff[0], diff[1], ...`
      and the fresh names `a_vars`, `b_vars` of every round. */
  datatype Setup = Setup(rows: seq<seq<int>>, a: seq<seq<Var>>, b: seq<seq<Var>>)

  /** The names of one round: 320 of each kind, none of them `u`, the `a`
      names pairwise different. */
  predicate NamesOk(a: seq<Var>, b: seq<Var>)
  {
    |a| == 320 && |b| == 320 && Distinct(a) && forall i :: 0 <= i < 320 ==> a[i] != U && b[i] != U
  }

  /** The data covers rounds 1 .. n, all of which have a round constant:
      row 0, the rows 2 .. n + 1 they are compared with and the names of
      rounds 1 .. n are there. */
  predicate SetupOk(S: Setup, n: nat)
  {
    && n <= |Constants| && |S.rows| > n + 1 && |S.a| >= n && |S.b| >= n
    && |S.rows[0]| == 320 && RowsOk(S.rows, n) && AllNamesOk(S.a, S.b, n)
  }

  /** Rows 2 .. n + 1 have one entry per bit, stated from row n + 1 down. */
  predicate RowsOk(rows: seq<seq<int>>, n: nat)
    requires n + 1 < |rows|
  {
    n == 0 || (|rows[n + 1]| == 320 && RowsOk(rows, n - 1))
  }

  /** The names of rounds 1 .. n meet `NamesOk`, stated from round n down. */
  predicate AllNamesOk(a: seq<seq<Var>>, b: seq<seq<Var>>, n: nat)
    requires n <= |a| && n <= |b|
  {
    n == 0 || (NamesOk(a[n - 1], b[n - 1]) && AllNamesOk(a, b, n - 1))
  }

  lemma {:induction false} RowsOkAll(rows: seq<seq<int>>, n: nat)
    requires n + 1 < |rows|
    ensures RowsOk(rows, n) <==> forall r :: 2 <= r <= n + 1 ==> |rows[r]| == 320
  {
    if n > 0 {
      RowsOkAll(rows, n - 1);
    }
  }

  lemma {:induction false} AllNamesOkAll(a: seq<seq<Var>>, b: seq<seq<Var>>, n: nat)
    requires n <= |a| && n <= |b|
    ensures AllNamesOk(a, b, n) <==> forall r :: 0 <= r < n ==> NamesOk(a[r], b[r])
  {
    if n > 0 {
      AllNamesOkAll(a, b, n - 1);
    }
  }

  /** `SetupOk` row by row: row 0 and rows 2 .. n + 1 have 320 entries and
      the names of every round 1 .. n meet `NamesOk`; row 1 may be
      anything. */
  lemma SetupOkAll(S: Setup, n: nat)
    requires n <= |Constants| && |S.rows| > n + 1 && |S.a| >= n && |S.b| >= n
    ensures SetupOk(S, n) <==>
      && |S.rows[0]| == 320 && (forall r :: 2 <= r <= n + 1 ==> |S.rows[r]| == 320)
      && (forall r :: 0 <= r < n ==> NamesOk(S.a[r], S.b[r]))
  {
    RowsOkAll(S.rows, n);
    AllNamesOkAll(S.a, S.b, n);
  }

  lemma SetupOkFewer(S: Setup, n: nat, m: nat)
    requires SetupOk(S, n) && m <= n
    ensures SetupOk(S, m)
  {
    SetupOkAll(S, n);
    SetupOkAll(S, m);
  }

  /** The input variables `x(0) .. x(319)`. */
  function Inputs(): (v: seq<Var>)
    ensures |v| == 320
  {
    seq(320, i requires 0 <= i < 320 => X(i))
  }

  /** A row of integer labels read as ring constants. */
  function Consts(row: seq<int>): (d: seq<Poly>)
    ensures |d| == |row|
  {
    seq(|row|, i requires 0 <= i < |row| => Const(row[i]))
  }

  // ---------------------------------------------------------------------
  // The specification of the loop

  /** The state after n rounds: the seeded input, then the linear layer
      applied to the linearised S-box output of the last round. */
  function State(S: Setup, n: nat): (s: seq<Poly>)
    requires SetupOk(S, n)
    ensures |s| == 320
  {
    if n == 0 then Seeded(Atoms(Inputs()), Consts(S.rows[0]))
    else MatrixF(Linearised(S.a[n - 1], S.b[n - 1]))
  }

  /** The S-box output of round r, before it is linearised. */
  function SboxOutput(S: Setup, r: nat): (s: seq<Poly>)
    requires SetupOk(S, r) && r >= 1
    ensures |s| == 320
  {
    SetupOkFewer(S, r, r - 1);
    SboxF(AddConstF(State(S, r - 1), r - 1))
  }

  /** What round r adds: the naming equations of its S-box output and the
      comparison with row r + 1. */
  function Records(S: Setup, r: nat): set<Poly>
    requires SetupOk(S, r) && r >= 1
  {
    RowsOkAll(S.rows, r);
    Naming(SboxOutput(S, r), S.a[r - 1], S.b[r - 1], 320)
      + Required(Binary, State(S, r), S.rows[r + 1], 320)
  }

  /** The constraint set after rounds 1 .. n: one more round adds that
      round's records. */
  function Trail(S: Setup, n: nat): set<Poly>
    requires SetupOk(S, n)
    decreases n
  {
    if n == 0 then {}
    else
      SetupOkFewer(S, n, n - 1);
      Trail(S, n - 1) + Records(S, n)
  }

  /** Whatever round r records is in the constraint set of any later
      round. */
  lemma {:induction false} TrailHas(S: Setup, n: nat, r: nat)
    requires SetupOk(S, n) && 1 <= r <= n
    ensures SetupOk(S, r)
    ensures Records(S, r) <= Trail(S, n)
  {
    SetupOkFewer(S, n, r);
    if r == n {
      TrailGains(S, n);
    } else {
      TrailHas(S, n - 1, r);
      TrailStep(S, n);
    }
  }

  /** The last round's records are in the set. */
  lemma TrailGains(S: Setup, n: nat)
    requires SetupOk(S, n) && n >= 1
    ensures Records(S, n) <= Trail(S, n)
  {
    TrailIs(S, n);
  }

  /** The constraint set after round n >= 1, unfolded once. */
  lemma TrailIs(S: Setup, n: nat)
    requires SetupOk(S, n) && n >= 1
    ensures SetupOk(S, n - 1) && Trail(S, n) == Trail(S, n - 1) + Records(S, n)
  {
    SetupOkFewer(S, n, n - 1);
  }

  // ---------------------------------------------------------------------
  // The loop

  /** What round r records, unfolded once. */
  lemma RecordsAre(S: Setup, r: nat)
    requires SetupOk(S, r) && r >= 1
    ensures |S.rows[r + 1]| == 320
    ensures Records(S, r)
      == Naming(SboxOutput(S, r), S.a[r - 1], S.b[r - 1], 320) + Required(Binary, State(S, r), S.rows[r + 1], 320)
  {
    RowsOkAll(S.rows, r);
  }

  /** The first half of round r: round constant, S-box layer and the
      linearisation with the round's names. */
  method SboxStage(S: Setup, X: array<Poly>, r: nat, q0: set<Poly>) returns (C: array<Poly>, q: set<Poly>)
    requires SetupOk(S, r) && r >= 1 && SetupOk(S, r - 1)
    requires X.Length == 320 && X[..] == State(S, r - 1)
    modifies X
    ensures fresh(C) && C.Length == 320 && C[..] == Linearised(S.a[r - 1], S.b[r - 1])
    ensures q == q0 + Naming(SboxOutput(S, r), S.a[r - 1], S.b[r - 1], 320)
  {
    AddConst(X, r - 1);
    C := Sbox(X);
    assert C[..] == SboxOutput(S, r);
    q := Linearise(C, S.a[r - 1], S.b[r - 1], q0);
  }

  /** The second half of round r: the linear layer and the comparison with
      row r + 1, which never finds a contradiction. */
  method LinearStage(S: Setup, C: array<Poly>, r: nat, q0: set<Poly>) returns (q: set<Poly>)
    requires SetupOk(S, r) && r >= 1
    requires C.Length == 320 && C[..] == Linearised(S.a[r - 1], S.b[r - 1])
    modifies C
    ensures C[..] == State(S, r)
    ensures q == q0 + Required(Binary, State(S, r), S.rows[r + 1], 320)
  {
    Matrix(C);
    NotRefuted(S, r);
    var impossible;
    impossible, q := Check(Binary, C[..], S.rows[r + 1], q0);
    assert !impossible;
  }

  /** Round r of the loop on the state `X`: round constant r - 1, S-box,
      linearisation, linear layer, and the comparison with row r + 1. */
  method PropagateRound(S: Setup, X: array<Poly>, r: nat, q0: set<Poly>) returns (Y: array<Poly>, q: set<Poly>)
    requires SetupOk(S, r) && r >= 1
    requires X.Length == 320 && SetupOk(S, r - 1) && X[..] == State(S, r - 1)
    modifies X
    ensures fresh(Y) && Y.Length == 320 && Y[..] == State(S, r)
    ensures q == q0 + Records(S, r)
  {
    RecordsAre(S, r);
    var q1;
    Y, q1 := SboxStage(S, X, r, q0);
    q := LinearStage(S, Y, r, q1);
    UnionAssociative(q0, Naming(SboxOutput(S, r), S.a[r - 1], S.b[r - 1], 320),
      Required(Binary, State(S, r), S.rows[r + 1], 320));
  }

  /** The loop has run rounds 1 .. r of 1 .. n: the state is `State(S, r)`
      and the set is `Trail(S, r)`. */
  predicate Reached(S: Setup, n: nat, s: seq<Poly>, q: set<Poly>, r: nat)
    requires SetupOk(S, n) && r <= n
  {
    SetupOkFewer(S, n, r);
    s == State(S, r) && q == Trail(S, r)
  }

  /** Round r + 1 of n, in terms of the loop's progress. */
  method NextRound(S: Setup, n: nat, X: array<Poly>, r: nat, q0: set<Poly>) returns (Y: array<Poly>, q: set<Poly>)
    requires SetupOk(S, n) && r < n
    requires X.Length == 320 && Reached(S, n, X[..], q0, r)
    modifies X
    ensures fresh(Y) && Y.Length == 320 && Reached(S, n, Y[..], q, r + 1)
  {
    SetupOkFewer(S, n, r + 1);
    SetupOkFewer(S, n, r);
    Y, q := PropagateRound(S, X, r + 1, q0);
  }

  /** The ring's input variables, seeded with `diff[0] * u`. */
  method InitialState(S: Setup) returns (st: array<Poly>)
    requires SetupOk(S, 0)
    ensures fresh(st) && st.Length == 320 && st[..] == State(S, 0)
  {
    st := new Poly[320](i requires 0 <= i < 320 => Atom(X(i)));
    assert st[..] == Atoms(Inputs());
    SeedInput(st, Consts(S.rows[0]));
  }

  /** Rounds 1 .. n of the loop.  None of them stops on "Impossible",
      because each comparison follows a linearisation and the linear
      layer. */
  method Propagate(S: Setup, n: nat) returns (out: Outcome)
    requires SetupOk(S, n)
    ensures out == Constraints(Trail(S, n))
  {
    SetupOkFewer(S, n, 0);
    var st := InitialState(S);
    var q := {};
    for r := 0 to n
      invariant fresh(st) && st.Length == 320 && Reached(S, n, st[..], q, r)
    {
      st, q := NextRound(S, n, st, r, q);
    }
    return Constraints(q);
  }

  // ---------------------------------------------------------------------
  // Differences along the trail

  /** The difference after round r >= 1: the linear layer applied to the
      round's `a` names; the round constant does not enter it. */
  function Difference(S: Setup, r: nat): (d: seq<Poly>)
    requires SetupOk(S, r) && r >= 1
    ensures |d| == 320
  {
    AllNamesOkAll(S.a, S.b, r);
    MatrixF(Atoms(S.a[r - 1]))
  }

  lemma StateDifference(S: Setup, r: nat)
    requires SetupOk(S, r) && r >= 1
    ensures DivUAll(State(S, r)) == Difference(S, r)
  {
    AllNamesOkAll(S.a, S.b, r);
    LinearisedDifference(S.a[r - 1], S.b[r - 1]);
    MatrixDifference(Linearised(S.a[r - 1], S.b[r - 1]));
  }

  /** No bit's difference after round r is a constant. */
  lemma DifferenceNotConstant(S: Setup, r: nat, i: nat)
    requires SetupOk(S, r) && r >= 1 && i < 320
    ensures DivU(State(S, r)[i]) == Difference(S, r)[i]
    ensures !IsConstant(DivU(State(S, r)[i]))
  {
    StateDifference(S, r);
    assert DivUAll(State(S, r))[i] == DivU(State(S, r)[i]);
    AllNamesOkAll(S.a, S.b, r);
    MatrixKeepsOwnVariable(S.a[r - 1], i);
  }

  /** The comparison of round r can never report "Impossible". */
  lemma NotRefuted(S: Setup, r: nat)
    requires SetupOk(S, r) && r >= 1
    ensures |S.rows[r + 1]| == 320
    ensures !Refutes(Binary, State(S, r), S.rows[r + 1])
  {
    RowsOkAll(S.rows, r);
    forall i | 0 <= i < 320
      ensures !Judge(Binary, DivU(State(S, r)[i]), S.rows[r + 1][i]).Contradiction?
    {
      DifferenceNotConstant(S, r, i);
    }
  }

  /** The difference of bit j of word l after round r: the name of that
      bit plus the names of the two bits the rotations of word l bring. */
  lemma DifferenceAt(S: Setup, r: nat, l: nat, j: nat)
    requires SetupOk(S, r) && r >= 1 && l < 5 && j < 64
    ensures Difference(S, r)[64 * l + j]
         == Add(Add(Atom(S.a[r - 1][64 * l + j]), Atom(S.a[r - 1][64 * l + RotSource(j, Rot0[l])])),
                Atom(S.a[r - 1][64 * l + RotSource(j, Rot1[l])]))
  {
    AllNamesOkAll(S.a, S.b, r);
    MatrixOfAtoms(S.a[r - 1], l, j);
  }

  /** The difference of bit i after round r keeps the name of bit i: the
      equation of that bit is never trivial. */
  lemma DifferenceKeepsName(S: Setup, r: nat, i: nat)
    requires SetupOk(S, r) && r >= 1 && i < 320
    ensures {S.a[r - 1][i]} in Difference(S, r)[i]
  {
    AllNamesOkAll(S.a, S.b, r);
    MatrixKeepsOwnVariable(S.a[r - 1], i);
  }

  /** Round r adds, besides the naming equations of its S-box output, the
      equation "difference of bit i equals its label" for every bit i. */
  lemma RequiredShape(S: Setup, r: nat)
    requires SetupOk(S, r) && r >= 1
    ensures |S.rows[r + 1]| == 320
    ensures Required(Binary, State(S, r), S.rows[r + 1], 320)
         == set i | 0 <= i < 320 :: Add(Difference(S, r)[i], Const(Target(S.rows[r + 1][i])))
  {
    RowsOkAll(S.rows, r);
    forall i | 0 <= i < 320
      ensures Judge(Binary, DivU(State(S, r)[i]), S.rows[r + 1][i])
           == Constrain(Add(Difference(S, r)[i], Const(Target(S.rows[r + 1][i]))))
    {
      DifferenceNotConstant(S, r, i);
    }
  }

  /** Seeding perturbs exactly the bits whose `diff[0]` entry is odd. */
  lemma InputSeeding(S: Setup, i: nat)
    requires SetupOk(S, 0) && i < 320
    ensures State(S, 0)[i] == if S.rows[0][i] % 2 == 0 then Atom(X(i)) else Add(Atom(X(i)), Atom(U))
  {
    SeedConst(Atom(X(i)), S.rows[0][i]);
  }

  /** The input difference of bit i is its `diff[0]` entry. */
  lemma InputDifference(S: Setup, i: nat)
    requires SetupOk(S, 0) && i < 320
    ensures DivU(State(S, 0)[i]) == Const(S.rows[0][i])
  {
    assert Atoms(Inputs()) == seq(320, k requires 0 <= k < 320 => Atom(Inputs()[k]));
    SeededDifference(Inputs(), Consts(S.rows[0]), i);
  }

  // ---------------------------------------------------------------------
  // What the constraint set says

  /** No equation of a round mentions `u`. */
  lemma RecordsFree(S: Setup, r: nat)
    requires SetupOk(S, r) && r >= 1
    ensures forall p :: p in Records(S, r) ==> FreeOfU(p)
  {
    RowsOkAll(S.rows, r);
    AllNamesOkAll(S.a, S.b, r);
    NamingFree(SboxOutput(S, r), S.a[r - 1], S.b[r - 1], 320);
    RequiredFree(Binary, State(S, r), S.rows[r + 1], 320);
  }

  /** The set printed at the end never mentions `u`. */
  lemma {:induction false} TrailFree(S: Setup, n: nat)
    requires SetupOk(S, n)
    ensures forall p :: p in Trail(S, n) ==> FreeOfU(p)
  {
    if n > 0 {
      SetupOkFewer(S, n, n - 1);
      TrailFree(S, n - 1);
      RecordsFree(S, n);
    }
  }

  /** A round only adds to the constraint set. */
  lemma TrailStep(S: Setup, n: nat)
    requires SetupOk(S, n) && n >= 1
    ensures SetupOk(S, n - 1) && Trail(S, n - 1) <= Trail(S, n)
  {
    TrailIs(S, n);
  }

  /** Round r records the two naming equations of every bit: `a` is the
      S-box output bit's difference and `b` the rest of it. */
  lemma RoundNames(S: Setup, r: nat, i: nat)
    requires SetupOk(S, r) && r >= 1 && i < 320
    ensures NamesOk(S.a[r - 1], S.b[r - 1])
    ensures {Add(DivU(SboxOutput(S, r)[i]), Atom(S.a[r - 1][i])),
             Add(SplitB(SboxOutput(S, r)[i]), Atom(S.b[r - 1][i]))} <= Records(S, r)
  {
    AllNamesOkAll(S.a, S.b, r);
    RecordsAre(S, r);
    NamingHas(SboxOutput(S, r), S.a[r - 1], S.b[r - 1], 320, i);
    SubsetOfUnion({Add(DivU(SboxOutput(S, r)[i]), Atom(S.a[r - 1][i])),
                   Add(SplitB(SboxOutput(S, r)[i]), Atom(S.b[r - 1][i]))},
      Naming(SboxOutput(S, r), S.a[r - 1], S.b[r - 1], 320), Required(Binary, State(S, r), S.rows[r + 1], 320));
  }

  /** Every round's names stay bound to that round's S-box output in the
      final set. */
  lemma TrailNames(S: Setup, n: nat, r: nat, i: nat)
    requires SetupOk(S, n) && 1 <= r <= n && i < 320
    ensures SetupOk(S, r) && NamesOk(S.a[r - 1], S.b[r - 1])
    ensures {Add(DivU(SboxOutput(S, r)[i]), Atom(S.a[r - 1][i])),
             Add(SplitB(SboxOutput(S, r)[i]), Atom(S.b[r - 1][i]))} <= Trail(S, n)
  {
    TrailHas(S, n, r);
    RoundNames(S, r, i);
  }

  /** Round r records, for every bit i, "the difference of bit i equals
      its label in row r + 1". */
  lemma RoundDifference(S: Setup, r: nat, i: nat)
    requires SetupOk(S, r) && r >= 1 && i < 320
    ensures |S.rows[r + 1]| == 320
    ensures Add(Difference(S, r)[i], Const(Target(S.rows[r + 1][i]))) in Records(S, r)
  {
    RowsOkAll(S.rows, r);
    DifferenceNotConstant(S, r, i);
    RequiredMember(Binary, State(S, r), S.rows[r + 1], 320, i);
  }

  /** Every bit of every compared row becomes the equation "the difference
      of that bit equals its label". */
  lemma TrailDifferences(S: Setup, n: nat, r: nat, i: nat)
    requires SetupOk(S, n) && 1 <= r <= n && i < 320
    ensures SetupOk(S, r) && |S.rows[r + 1]| == 320
    ensures Add(Difference(S, r)[i], Const(Target(S.rows[r + 1][i]))) in Trail(S, n)
  {
    TrailHas(S, n, r);
    RoundDifference(S, r, i);
  }

  /** Row 1 and the rows after row n + 1 are never read: changing one of
      them leaves the constraint set of rounds 1 .. n as it is. */
  lemma {:induction false} TrailIgnoresRow(S: Setup, n: nat, m: nat, row: seq<int>)
    requires SetupOk(S, n) && m < |S.rows| && (m == 1 || m > n + 1)
    ensures SetupOk(S.(rows := S.rows[m := row]), n)
    ensures Trail(S.(rows := S.rows[m := row]), n) == Trail(S, n)
  {
    var S' := UnreadRowOk(S, n, m, row);
    if n > 0 {
      SetupOkFewer(S, n, n - 1);
      TrailIgnoresRow(S, n - 1, m, row);
      RecordsSameRows(S, S', n);
    }
  }

  /** Replacing an unread row keeps the setup well formed up to n and
      leaves the rows and names it reads unchanged. */
  lemma UnreadRowOk(S: Setup, n: nat, m: nat, row: seq<int>) returns (S': Setup)
    requires SetupOk(S, n) && m < |S.rows| && (m == 1 || m > n + 1)
    ensures S' == S.(rows := S.rows[m := row]) && SetupOk(S', n)
    ensures S'.a == S.a && S'.b == S.b && S'.rows[0] == S.rows[0]
    ensures forall r :: 2 <= r <= n + 1 ==> S'.rows[r] == S.rows[r]
  {
    S' := S.(rows := S.rows[m := row]);
    SetupOkAll(S, n);
    SetupOkAll(S', n);
  }

  /** Two setups that agree on the names and on rows 0 and r + 1 record
      the same equations in round r. */
  lemma RecordsSameRows(S: Setup, S': Setup, r: nat)
    requires SetupOk(S, r) && SetupOk(S', r) && r >= 1 && S.a == S'.a && S.b == S'.b
    requires S.rows[0] == S'.rows[0] && S.rows[r + 1] == S'.rows[r + 1]
    ensures Records(S, r) == Records(S', r)
  {
    SetupOkFewer(S, r, r - 1);
    SetupOkFewer(S', r, r - 1);
    assert State(S, r - 1) == State(S', r - 1);
    assert State(S, r) == State(S', r);
  }

  // ---------------------------------------------------------------------
  // Variable blocks

  /** Block k of the ring's `x` variables: `x(320k) .. x(320k + 319)`. */
  function Names(k: nat): (v: seq<Var>)
    ensures |v| == 320
    ensures forall i :: 0 <= i < 320 ==> v[i] == X(320 * k + i)
  {
    seq(320, i requires 0 <= i < 320 => X(320 * k + i))
  }

  /** Two names are the same exactly when they are the same bit of the same
      block; no block holds `u`, and block 0 is the input. */
  lemma NamesDisjoint(k: nat, k': nat, i: nat, j: nat)
    requires i < 320 && j < 320
    ensures Names(k)[i] != U
    ensures Names(k)[i] == Names(k')[j] <==> k == k' && i == j
    ensures Names(0)[i] == Inputs()[i]
  {
    if k < k' {
      assert 320 * k + i < 320 * k';
    } else if k' < k {
      assert 320 * k' + j < 320 * k;
    }
  }

  lemma NamesOkBlocks(k: nat, k': nat)
    ensures NamesOk(Names(k), Names(k'))
  {
    forall i, j | 0 <= i < 320 && 0 <= j < 320 && i != j
      ensures Names(k)[i] != Names(k)[j]
    {
      NamesDisjoint(k, k, i, j);
    }
  }

  /** How the script hands out names: round r linearises into `a_vars[r-1]`
      = block 2r - 1 and `b_vars[r-1]` = block 2r, after the input block 0. */
  function BlockSetup(rows: seq<seq<int>>, n: nat): (S: Setup)
    ensures S.rows == rows && |S.a| == n && |S.b| == n
    ensures forall r :: 0 <= r < n ==> S.a[r] == Names(2 * r + 1) && S.b[r] == Names(2 * r + 2)
  {
    Setup(rows, seq(n, r requires 0 <= r < n => Names(2 * r + 1)), seq(n, r requires 0 <= r < n => Names(2 * r + 2)))
  }

  /** The block names meet the loop's demands for rounds 1 .. n. */
  lemma BlockSetupOk(rows: seq<seq<int>>, n: nat)
    requires n <= |Constants| && |rows| > n + 1
    requires |rows[0]| == 320 && forall r :: 2 <= r <= n + 1 ==> |rows[r]| == 320
    ensures SetupOk(BlockSetup(rows, n), n)
  {
    var S := BlockSetup(rows, n);
    forall r | 0 <= r < n
      ensures NamesOk(S.a[r], S.b[r])
    {
      NamesOkBlocks(2 * r + 1, 2 * r + 2);
    }
    SetupOkAll(S, n);
  }

  /** The `a` and `b` blocks of every round are disjoint from each other,
      from those of every other round and from the input block. */
  lemma BlocksFresh(rows: seq<seq<int>>, n: nat, r: nat, r': nat, i: nat, j: nat)
    requires r < n && r' < n && i < 320 && j < 320
    ensures BlockSetup(rows, n).a[r][i] != BlockSetup(rows, n).b[r'][j]
    ensures BlockSetup(rows, n).a[r][i] != Inputs()[j] && BlockSetup(rows, n).b[r][i] != Inputs()[j]
    ensures BlockSetup(rows, n).a[r][i] == BlockSetup(rows, n).a[r'][j] <==> r == r' && i == j
    ensures BlockSetup(rows, n).b[r][i] == BlockSetup(rows, n).b[r'][j] <==> r == r' && i == j
  {
    NamesDisjoint(2 * r + 1, 2 * r' + 2, i, j);
    NamesDisjoint(2 * r + 1, 0, i, j);
    NamesDisjoint(2 * r + 2, 0, i, j);
    NamesDisjoint(0, 0, j, j);
    NamesDisjoint(2 * r + 1, 2 * r' + 1, i, j);
    NamesDisjoint(2 * r + 2, 2 * r' + 2, i, j);
  }

  // ---------------------------------------------------------------------
  // The script's hard-coded 2-round trail

  /** Word x0 of the input difference and of the difference after round 2. */
  const D0: nat := 0xe6765f2bfb737f78
  const D3: nat := 0xd255739452530b86

  /** The five words of `diff[1]` and of `diff[2]`. */
  const Diff1Words: seq<nat> := [0x00144000c0404000, 0xe6765f2bfb737f78, 0x0000000000000000,
    0x0400000008101000, 0xe6621f2b3b333f78]
  const Diff2Words: seq<nat> := [0x0c10400249045804, 0x8232408ad1246801, 0x0000000000000000,
    0x0c0102000812100c, 0x8233428ad1366809]

  /** The script's rows and names: ROUNDS = 2, so rows 0 .. 3 and the
      names of rounds 1 and 2. */
  function MainSetup(): (S: Setup)
    ensures SetupOk(S, 2)
  {
    BlockSetupOk([WordRow([D0]), WordRow(Diff1Words), WordRow(Diff2Words), WordRow([D3])], 2);
    BlockSetup([WordRow([D0]), WordRow(Diff1Words), WordRow(Diff2Words), WordRow([D3])], 2)
  }

  /** The script's main block: fill the four rows, then run rounds 1 and 2.
      It ends with the constraint set of the two rounds, never with
      "Impossible". */
  method AsconMain() returns (out: Outcome)
    ensures out == Constraints(Trail(MainSetup(), 2))
  {
    var d0, d3 := FillFirstWords(D0, D3);
    var d1 := FillWords(Diff1Words);
    var d2 := FillWords(Diff2Words);
    var S := BlockSetup([d0[..], d1[..], d2[..], d3[..]], 2);
    assert S == MainSetup();
    out := Propagate(S, 2);
  }

  /** Word x0 of the input difference decodes back to `d0`, and the other
      words of `diff[0]` are 0. */
  lemma MainInputWords(l: nat)
    requires l < 5
    ensures MsbValue(MainSetup().rows[0][64 * l .. 64 * l + 64]) == if l == 0 then D0 else 0
  {
    Pow2Of64();
    WordRowDecodes([D0], l);
  }
}
