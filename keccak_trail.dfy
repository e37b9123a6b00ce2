/** The Keccak-f[1600] trail checkers: the hard-coded 4-round trail of
    `Keccak/code/keccak.py` and the trail-file driver `4rkeccak.py`.

    The input state `x_0 .. x_1599` is seeded with the difference row
    `diff[0]`.  Round r = 1 .. ROUNDS - 1 applies the S-box, linearises
    every bit into the round's fresh names `a_{r-1,i}*u + b_{r-1,i}`, adds
    round constant r, applies theta, rho and pi, and compares every bit's
    difference with `diff[r]` under the binary label rule. */
module KeccakTrail {
  import opened Common
  import opened Anf
  import opened Propagation
  import opened Keccak

  /** A bit coordinate (x, y, z) as the trail tables list it. */
  type Coord = (int, int, int)

  /** Row `diff[r]` built from a list of active coordinates: 1 at every
      listed bit, 0 everywhere else. */
  function ActiveRow(cs: seq<Coord>): (row: seq<int>)
    ensures |row| == 1600
  {
    seq(1600, k requires 0 <= k < 1600 =>
      if (LaneX(k) as int, LaneY(k) as int, LaneZ(k) as int) in cs then 1 else 0)
  }

  /** Bit (x, y, z) of the row is 1 exactly when (x, y, z) is listed, and 0
      otherwise. */
  lemma ActiveRowAt(cs: seq<Coord>, x: nat, y: nat, z: nat)
    requires x < 5 && y < 5 && z < 64
    ensures Pos(x, y, z) < 1600
    ensures ActiveRow(cs)[Pos(x, y, z)] == 1 <==> (x, y, z) in cs
    ensures ActiveRow(cs)[Pos(x, y, z)] == 0 <==> (x, y, z) !in cs
  {
    PosParts(x, y, z);
  }

  /** The order in which the table loops visit the bits: x, then y, then z. */
  function VisitRank(k: nat): nat { 320 * LaneX(k) + 64 * LaneY(k) + LaneZ(k) }

  /** The bits visited before step n hold the row, the others still 0. */
  ghost predicate VisitedBelow(R: seq<int>, T: seq<int>, n: nat)
    requires |R| == 1600 && |T| == 1600
  {
    forall k {:trigger R[k]} :: 0 <= k < 1600 ==> R[k] == if VisitRank(k) < n then T[k] else 0
  }

  lemma VisitStep(R: seq<int>, R': seq<int>, T: seq<int>, x: nat, y: nat, z: nat)
    requires |R| == 1600 && |T| == 1600 && x < 5 && y < 5 && z < 64
    requires VisitedBelow(R, T, 320 * x + 64 * y + z)
    requires Pos(x, y, z) < 1600 && R' == R[Pos(x, y, z) := T[Pos(x, y, z)]]
    ensures |R'| == 1600 && VisitedBelow(R', T, 320 * x + 64 * y + z + 1)
  {
    forall k | 0 <= k < 1600
      ensures R'[k] == if VisitRank(k) < 320 * x + 64 * y + z + 1 then T[k] else 0
    {
      VisitRankOf(k, x, y, z);
    }
  }

  /** Bit k is visited at step 320x + 64y + z exactly when it is bit
      (x, y, z). */
  lemma VisitRankOf(k: nat, x: nat, y: nat, z: nat)
    requires k < 1600 && x < 5 && y < 5 && z < 64
    ensures VisitRank(k) == 320 * x + 64 * y + z <==> k == Pos(x, y, z)
  {
    PosSplit(k);
    PosParts(x, y, z);
    if VisitRank(k) == 320 * x + 64 * y + z {
      RankDetermines(LaneX(k), LaneY(k), LaneZ(k), x, y, z);
    }
  }

  lemma RankDetermines(x: nat, y: nat, z: nat, x': nat, y': nat, z': nat)
    requires x < 5 && y < 5 && z < 64 && x' < 5 && y' < 5 && z' < 64
    requires 320 * x + 64 * y + z == 320 * x' + 64 * y' + z'
    ensures x == x' && y == y' && z == z'
  {
  }

  /** The source's triple loop over x, y and z filling one `diff` row from
      a coordinate list, over a fresh row of zeros. */
  method BuildRow(cs: seq<Coord>) returns (row: array<int>)
    ensures fresh(row) && row[..] == ActiveRow(cs)
  {
    ghost var T := ActiveRow(cs);
    row := new int[1600](_ => 0);
    for i := 0 to 5
      invariant row.Length == 1600 && VisitedBelow(row[..], T, 320 * i)
    {
      for j := 0 to 5
        invariant VisitedBelow(row[..], T, 320 * i + 64 * j)
      {
        for k := 0 to 64
          invariant VisitedBelow(row[..], T, 320 * i + 64 * j + k)
        {
          ActiveRowAt(cs, i, j, k);
          ghost var R := row[..];
          row[Pos(i, j, k)] := if (i, j, k) in cs then 1 else 0;
          VisitStep(R, row[..], T, i, j, k);
        }
      }
    }
    assert forall k :: 0 <= k < 1600 ==> row[..][k] == T[k];
  }

  // ---------------------------------------------------------------------
  // Setup

  /** What a script hands to the loop: the rows `diff[0], diff[1], ...` and
      the fresh names `a_vars`, `b_vars` of every round. */
  datatype Setup = Setup(rows: seq<seq<int>>, a: seq<seq<Var>>, b: seq<seq<Var>>)

  /** The names of one round: 1600 of each kind, none of them `u`, the
      `a` names pairwise different. */
  predicate NamesOk(a: seq<Var>, b: seq<Var>)
  {
    |a| == 1600 && |b| == 1600 && Distinct(a) && forall i :: 0 <= i < 1600 ==> a[i] != U && b[i] != U
  }

  /** The data covers rounds 1 .. n, all of which have a round constant:
      rows 0 .. n and the names of rounds 1 .. n are there. */
  predicate SetupOk(S: Setup, n: nat)
  {
    && n < |RoundConstants| && |S.rows| > n && |S.a| >= n && |S.b| >= n
    && RowsOk(S.rows, n) && AllNamesOk(S.a, S.b, n)
  }

  /** Rows 0 .. n have one entry per bit, stated from row n down. */
  predicate RowsOk(rows: seq<seq<int>>, n: nat)
    requires n < |rows|
  {
    |rows[n]| == 1600 && (n == 0 || RowsOk(rows, n - 1))
  }

  /** The names of rounds 1 .. n meet `NamesOk`, stated from round n down. */
  predicate AllNamesOk(a: seq<seq<Var>>, b: seq<seq<Var>>, n: nat)
    requires n <= |a| && n <= |b|
  {
    n == 0 || (NamesOk(a[n - 1], b[n - 1]) && AllNamesOk(a, b, n - 1))
  }

  lemma {:induction false} RowsOkAll(rows: seq<seq<int>>, n: nat)
    requires n < |rows|
    ensures RowsOk(rows, n) <==> forall r :: 0 <= r <= n ==> |rows[r]| == 1600
  {
    if n > 0 {
      RowsOkAll(rows, n - 1);
    }
  }

  lemma {:induction false} AllNamesOkAll(a: seq<seq<Var>>, b: seq<seq<Var>>, n: nat)
    requires n <= |a| && n <= |b|
    ensures AllNamesOk(a, b, n) <==> forall r :: 0 <= r < n ==> NamesOk(a[r], b[r])
  {
    if n > 0 {
      AllNamesOkAll(a, b, n - 1);
    }
  }

  /** `SetupOk` bit by bit: every row 0 .. n has 1600 entries and the
      names of every round 1 .. n meet `NamesOk`. */
  lemma SetupOkAll(S: Setup, n: nat)
    requires n < |RoundConstants| && |S.rows| > n && |S.a| >= n && |S.b| >= n
    ensures SetupOk(S, n) <==>
      (forall r :: 0 <= r <= n ==> |S.rows[r]| == 1600) && (forall r :: 0 <= r < n ==> NamesOk(S.a[r], S.b[r]))
  {
    RowsOkAll(S.rows, n);
    AllNamesOkAll(S.a, S.b, n);
  }

  lemma SetupOkFewer(S: Setup, n: nat, m: nat)
    requires SetupOk(S, n) && m <= n
    ensures SetupOk(S, m)
  {
    SetupOkAll(S, n);
    SetupOkAll(S, m);
  }

  /** The input variables `x(0) .. x(1599)`. */
  function Inputs(): (v: seq<Var>)
    ensures |v| == 1600
  {
    seq(1600, i requires 0 <= i < 1600 => X(i))
  }

  /** A row of integer labels read as ring constants. */
  function Consts(row: seq<int>): (d: seq<Poly>)
    ensures |d| == |row|
  {
    seq(|row|, i requires 0 <= i < |row| => Const(row[i]))
  }

  // ---------------------------------------------------------------------
  // The specification of the loop

  /** The state after n rounds: the seeded input, then the linear layers
      applied to the linearised S-box output of the last round. */
  function State(S: Setup, n: nat): (s: seq<Poly>)
    requires SetupOk(S, n)
    ensures |s| == 1600
  {
    if n == 0 then Seeded(Atoms(Inputs()), Consts(S.rows[0]))
    else Mix(Linearised(S.a[n - 1], S.b[n - 1]), n)
  }

  /** What round r adds: the naming equations of its S-box output and the
      comparison with row r. */
  function Records(S: Setup, r: nat): set<Poly>
    requires SetupOk(S, r) && r >= 1
  {
    SetupOkFewer(S, r, r - 1);
    Naming(ChiF(State(S, r - 1)), S.a[r - 1], S.b[r - 1], 1600)
      + Required(Binary, State(S, r), S.rows[r], 1600)
  }

  /** The constraint set after rounds 1 .. n: one more round adds that
      round's records. */
  function Trail(S: Setup, n: nat): set<Poly>
    requires SetupOk(S, n)
    decreases n
  {
    if n == 0 then {}
    else
      SetupOkFewer(S, n, n - 1);
      Trail(S, n - 1) + Records(S, n)
  }

  /** Whatever round r records is in the constraint set of any later
      round. */
  lemma {:induction false} TrailHas(S: Setup, n: nat, r: nat)
    requires SetupOk(S, n) && 1 <= r <= n
    ensures SetupOk(S, r)
    ensures Records(S, r) <= Trail(S, n)
  {
    SetupOkFewer(S, n, r);
    if r == n {
      TrailGains(S, n);
    } else {
      TrailHas(S, n - 1, r);
      TrailStep(S, n);
    }
  }

  /** The last round's records are in the set. */
  lemma TrailGains(S: Setup, n: nat)
    requires SetupOk(S, n) && n >= 1
    ensures Records(S, n) <= Trail(S, n)
  {
    SetupOkFewer(S, n, n - 1);
  }

  /** The rounds a run of `rounds` rounds gets through: 1 .. rounds - 1,
      but not beyond round 23, the last with a round constant. */
  function Done(rounds: nat): (n: nat)
    requires rounds >= 1
    ensures n < |RoundConstants| && n <= rounds - 1
    ensures n == rounds - 1 <==> rounds <= |RoundConstants|
  {
    if rounds > |RoundConstants| then |RoundConstants| - 1 else rounds - 1
  }

  /** How the loop ends: with an exception in round 24, which has no round
      constant, otherwise with the constraint set of rounds 1 .. rounds - 1. */
  function Expected(S: Setup, rounds: nat): (out: Outcome)
    requires rounds >= 1 && SetupOk(S, Done(rounds))
    ensures out.Aborted? <==> rounds > |RoundConstants|
    ensures !out.Impossible?
  {
    if rounds > |RoundConstants| then Aborted else Constraints(Trail(S, rounds - 1))
  }

  // ---------------------------------------------------------------------
  // The loop

  /** Round r of the loop on the state `X`: S-box, linearisation, round
      constant r, theta, rho and pi, and the comparison with row r. */
  method PropagateRound(S: Setup, X: array<Poly>, r: nat, q0: set<Poly>) returns (Y: array<Poly>, q: set<Poly>)
    requires SetupOk(S, r) && r >= 1
    requires X.Length == 1600 && SetupOk(S, r - 1) && X[..] == State(S, r - 1)
    ensures Y.Length == 1600 && Y[..] == State(S, r)
    ensures q == q0 + Records(S, r)
  {
    var C, q1 := SboxStage(S, X, r, q0);
    Y, q := LinearStage(S, C, r, q1);
    UnionAssociative(q0, Naming(ChiF(State(S, r - 1)), S.a[r - 1], S.b[r - 1], 1600),
      Required(Binary, State(S, r), S.rows[r], 1600));
  }

  /** The S-box and the linearisation of round r: the state becomes the
      named bits and the naming equations are recorded. */
  method SboxStage(S: Setup, X: array<Poly>, r: nat, q0: set<Poly>) returns (C: array<Poly>, q: set<Poly>)
    requires SetupOk(S, r) && r >= 1
    requires X.Length == 1600 && SetupOk(S, r - 1) && X[..] == State(S, r - 1)
    ensures fresh(C) && C.Length == 1600 && C[..] == Linearised(S.a[r - 1], S.b[r - 1])
    ensures q == q0 + Naming(ChiF(State(S, r - 1)), S.a[r - 1], S.b[r - 1], 1600)
  {
    C := Sbox(X);
    q := Linearise(C, S.a[r - 1], S.b[r - 1], q0);
  }

  /** The linear layers of round r on the named bits, then the comparison
      with row r. */
  method LinearStage(S: Setup, C: array<Poly>, r: nat, q0: set<Poly>) returns (Y: array<Poly>, q: set<Poly>)
    requires SetupOk(S, r) && r >= 1
    requires C.Length == 1600 && SetupOk(S, r - 1) && C[..] == Linearised(S.a[r - 1], S.b[r - 1])
    modifies C
    ensures Y.Length == 1600 && Y[..] == State(S, r)
    ensures q == q0 + Required(Binary, State(S, r), S.rows[r], 1600)
  {
    AddConst(C, r);
    var T := Theta(C);
    Y := RhoPi(T);
    NotRefuted(S, r);
    var impossible;
    impossible, q := Check(Binary, Y[..], S.rows[r], q0);
    assert !impossible;
  }

  /** The loop has run rounds 1 .. r of 1 .. n: the state is `State(S, r)`
      and the set is `Trail(S, r)`. */
  predicate Reached(S: Setup, n: nat, s: seq<Poly>, q: set<Poly>, r: nat)
    requires SetupOk(S, n) && r <= n
  {
    SetupOkFewer(S, n, r);
    s == State(S, r) && q == Trail(S, r)
  }

  /** Round r + 1 of n, in terms of the loop's progress. */
  method NextRound(S: Setup, n: nat, X: array<Poly>, r: nat, q0: set<Poly>) returns (Y: array<Poly>, q: set<Poly>)
    requires SetupOk(S, n) && r < n
    requires X.Length == 1600 && Reached(S, n, X[..], q0, r)
    ensures Y.Length == 1600 && Reached(S, n, Y[..], q, r + 1)
  {
    SetupOkFewer(S, n, r + 1);
    SetupOkFewer(S, n, r);
    Y, q := PropagateRound(S, X, r + 1, q0);
  }

  /** The ring's input variables, seeded with `diff[0] * u`. */
  method InitialState(S: Setup) returns (st: array<Poly>)
    requires SetupOk(S, 0)
    ensures fresh(st) && st.Length == 1600 && st[..] == State(S, 0)
  {
    st := new Poly[1600](i requires 0 <= i < 1600 => Atom(X(i)));
    assert st[..] == Atoms(Inputs());
    SeedInput(st, Consts(S.rows[0]));
  }

  /** Rounds 1 .. n of the loop, none of which fails. */
  method RunRounds(S: Setup, n: nat) returns (q: set<Poly>)
    requires SetupOk(S, n)
    ensures q == Trail(S, n)
  {
    SetupOkFewer(S, n, 0);
    var st := InitialState(S);
    q := {};
    for r := 0 to n
      invariant st.Length == 1600 && Reached(S, n, st[..], q, r)
    {
      st, q := NextRound(S, n, st, r, q);
    }
  }

  /** The propagation loop of both scripts for `rounds` rounds.  Round 24
      stops it with an exception (the constant table has 24 entries, with
      indices 0 .. 23); it never stops on "Impossible", because each
      comparison follows a linearisation and the linear layers. */
  method Propagate(S: Setup, rounds: nat) returns (out: Outcome)
    requires rounds >= 1 && SetupOk(S, Done(rounds))
    ensures out == Expected(S, rounds)
  {
    var n := Done(rounds);
    var q := RunRounds(S, n);
    if rounds > |RoundConstants| {
      // addConst of round 24 indexes past the table
      return Aborted;
    }
    return Constraints(q);
  }

  // ---------------------------------------------------------------------
  // Differences along the trail

  /** The difference after round r >= 1: theta, rho and pi applied to the
      round's `a` names; the round constant does not enter it. */
  function Difference(S: Setup, r: nat): (d: seq<Poly>)
    requires SetupOk(S, r) && r >= 1
    ensures |d| == 1600
  {
    PiF(RhoF(ThetaF(Atoms(S.a[r - 1]))))
  }

  lemma StateDifference(S: Setup, r: nat)
    requires SetupOk(S, r) && r >= 1
    ensures DivUAll(State(S, r)) == Difference(S, r)
  {
    LinearisedDifference(S.a[r - 1], S.b[r - 1]);
    MixDifference(Linearised(S.a[r - 1], S.b[r - 1]), r);
  }

  /** No bit's difference after round r is a constant. */
  lemma DifferenceNotConstant(S: Setup, r: nat, i: nat)
    requires SetupOk(S, r) && r >= 1 && i < 1600
    ensures DivU(State(S, r)[i]) == Difference(S, r)[i]
    ensures !IsConstant(DivU(State(S, r)[i]))
  {
    StateDifference(S, r);
    assert DivUAll(State(S, r))[i] == DivU(State(S, r)[i]);
    LinearLayersNotConstant(S.a[r - 1], i);
  }

  /** The comparison of round r can never report "Impossible". */
  lemma NotRefuted(S: Setup, r: nat)
    requires SetupOk(S, r) && r >= 1
    ensures !Refutes(Binary, State(S, r), S.rows[r])
  {
    forall i | 0 <= i < 1600
      ensures !Judge(Binary, DivU(State(S, r)[i]), S.rows[r][i]).Contradiction?
    {
      DifferenceNotConstant(S, r, i);
    }
  }

  /** Round r adds, besides the naming equations of its S-box output, the
      equation "difference of bit i equals its label" for every bit i. */
  lemma RequiredShape(S: Setup, r: nat)
    requires SetupOk(S, r) && r >= 1
    ensures Required(Binary, State(S, r), S.rows[r], 1600)
         == set i | 0 <= i < 1600 :: Add(Difference(S, r)[i], Const(Target(S.rows[r][i])))
  {
    forall i | 0 <= i < 1600
      ensures Judge(Binary, DivU(State(S, r)[i]), S.rows[r][i])
           == Constrain(Add(Difference(S, r)[i], Const(Target(S.rows[r][i]))))
    {
      DifferenceNotConstant(S, r, i);
    }
  }

  /** The difference of bit i after round r keeps the name of the bit that
      theta, rho and pi bring to position i: the equation of that bit is
      never trivial. */
  lemma DifferenceKeepsName(S: Setup, r: nat, i: nat)
    requires SetupOk(S, r) && r >= 1 && i < 1600
    ensures PiSource(i) < 1600 && RhoSource(PiSource(i)) < 1600
    ensures {S.a[r - 1][RhoSource(PiSource(i))]} in Difference(S, r)[i]
  {
    var a := S.a[r - 1];
    LinearLayersAt(Atoms(a), i);
    ThetaKeepsOwnVariable(a, RhoSource(PiSource(i)));
  }

  /** Seeding perturbs exactly the bits whose `diff[0]` entry is odd. */
  lemma InputSeeding(S: Setup, i: nat)
    requires SetupOk(S, 0) && i < 1600
    ensures State(S, 0)[i] == if S.rows[0][i] % 2 == 0 then Atom(X(i)) else Add(Atom(X(i)), Atom(U))
  {
    SeedConst(Atom(X(i)), S.rows[0][i]);
  }

  /** The input difference of bit i is its `diff[0]` entry. */
  lemma InputDifference(S: Setup, i: nat)
    requires SetupOk(S, 0) && i < 1600
    ensures DivU(State(S, 0)[i]) == Const(S.rows[0][i])
  {
    assert Atoms(Inputs()) == seq(1600, k requires 0 <= k < 1600 => Atom(Inputs()[k]));
    SeededDifference(Inputs(), Consts(S.rows[0]), i);
  }

  // ---------------------------------------------------------------------
  // What the constraint set says

  /** No equation of a round mentions `u`. */
  lemma RecordsFree(S: Setup, r: nat)
    requires SetupOk(S, r) && r >= 1
    ensures forall p :: p in Records(S, r) ==> FreeOfU(p)
  {
    SetupOkFewer(S, r, r - 1);
    NamingFree(ChiF(State(S, r - 1)), S.a[r - 1], S.b[r - 1], 1600);
    RequiredFree(Binary, State(S, r), S.rows[r], 1600);
  }

  /** The set handed to the SAT solver never mentions `u`. */
  lemma {:induction false} TrailFree(S: Setup, n: nat)
    requires SetupOk(S, n)
    ensures forall p :: p in Trail(S, n) ==> FreeOfU(p)
  {
    if n > 0 {
      SetupOkFewer(S, n, n - 1);
      TrailFree(S, n - 1);
      RecordsFree(S, n);
    }
  }

  /** A round only adds to the constraint set: the set only grows from
      round to round. */
  lemma TrailStep(S: Setup, n: nat)
    requires SetupOk(S, n) && n >= 1
    ensures SetupOk(S, n - 1) && Trail(S, n - 1) <= Trail(S, n)
  {
    SetupOkFewer(S, n, n - 1);
  }

  /** Round r records the two naming equations of every bit: `a` is the
      S-box output bit's difference and `b` the rest of it. */
  lemma RoundNames(S: Setup, r: nat, i: nat)
    requires SetupOk(S, r) && r >= 1 && i < 1600
    ensures SetupOk(S, r - 1) && NamesOk(S.a[r - 1], S.b[r - 1])
    ensures {Add(DivU(ChiF(State(S, r - 1))[i]), Atom(S.a[r - 1][i])),
             Add(SplitB(ChiF(State(S, r - 1))[i]), Atom(S.b[r - 1][i]))} <= Records(S, r)
  {
    NamingInRecords(S, r);
    var s := ChiF(State(S, r - 1));
    NamingHas(s, S.a[r - 1], S.b[r - 1], 1600, i);
    assert NameA(s[i], S.a[r - 1][i]) in Records(S, r);
    assert NameB(s[i], S.b[r - 1][i]) in Records(S, r);
  }

  /** Round r's naming equations are among its records. */
  lemma NamingInRecords(S: Setup, r: nat)
    requires SetupOk(S, r) && r >= 1
    ensures SetupOk(S, r - 1) && NamesOk(S.a[r - 1], S.b[r - 1])
    ensures Naming(ChiF(State(S, r - 1)), S.a[r - 1], S.b[r - 1], 1600) <= Records(S, r)
  {
    SetupOkFewer(S, r, r - 1);
  }

  /** Every round's names stay bound to that round's S-box output in the
      final set. */
  lemma TrailNames(S: Setup, n: nat, r: nat, i: nat)
    requires SetupOk(S, n) && 1 <= r <= n && i < 1600
    ensures SetupOk(S, r - 1) && NamesOk(S.a[r - 1], S.b[r - 1])
    ensures {Add(DivU(ChiF(State(S, r - 1))[i]), Atom(S.a[r - 1][i])),
             Add(SplitB(ChiF(State(S, r - 1))[i]), Atom(S.b[r - 1][i]))} <= Trail(S, n)
  {
    TrailHas(S, n, r);
    RoundNames(S, r, i);
  }

  /** Round r records, for every bit i, "the difference of bit i equals
      its label". */
  lemma RoundDifference(S: Setup, r: nat, i: nat)
    requires SetupOk(S, r) && r >= 1 && i < 1600
    ensures Add(Difference(S, r)[i], Const(Target(S.rows[r][i]))) in Records(S, r)
  {
    RequiredHas(S, r, i);
  }

  lemma RequiredHas(S: Setup, r: nat, i: nat)
    requires SetupOk(S, r) && r >= 1 && i < 1600
    ensures Add(Difference(S, r)[i], Const(Target(S.rows[r][i])))
         in Required(Binary, State(S, r), S.rows[r], 1600)
  {
    DifferenceNotConstant(S, r, i);
    RequiredMember(Binary, State(S, r), S.rows[r], 1600, i);
  }

  /** Every bit of every compared row becomes the equation "the difference
      of that bit equals its label". */
  lemma TrailDifferences(S: Setup, n: nat, r: nat, i: nat)
    requires SetupOk(S, n) && 1 <= r <= n && i < 1600
    ensures SetupOk(S, r)
    ensures Add(Difference(S, r)[i], Const(Target(S.rows[r][i]))) in Trail(S, n)
  {
    TrailHas(S, n, r);
    RoundDifference(S, r, i);
  }

  /** Rows after row n are never read: changing a later row (such as the
      last row of a trail file) leaves the constraint set of rounds
      1 .. n as it is. */
  lemma {:induction false} TrailIgnoresLaterRow(S: Setup, n: nat, m: nat, row: seq<int>)
    requires SetupOk(S, n) && n < m < |S.rows|
    ensures SetupOk(S.(rows := S.rows[m := row]), n)
    ensures Trail(S.(rows := S.rows[m := row]), n) == Trail(S, n)
  {
    var S' := LaterRowOk(S, n, m, row);
    if n > 0 {
      SetupOkFewer(S, n, n - 1);
      TrailIgnoresLaterRow(S, n - 1, m, row);
      RecordsSameRows(S, S', n);
      TrailSameStep(S, S', n);
    }
  }

  /** Two setups whose sets agree after n - 1 rounds and whose round n
      records agree have the same set after n rounds. */
  lemma TrailSameStep(S: Setup, S': Setup, n: nat)
    requires SetupOk(S, n) && SetupOk(S', n) && n >= 1 && SetupOk(S, n - 1) && SetupOk(S', n - 1)
    requires Trail(S, n - 1) == Trail(S', n - 1) && Records(S, n) == Records(S', n)
    ensures Trail(S, n) == Trail(S', n)
  {
  }

  /** Replacing a row after round n keeps the setup well formed up to n and
      leaves the rows and names it reads unchanged. */
  lemma LaterRowOk(S: Setup, n: nat, m: nat, row: seq<int>) returns (S': Setup)
    requires SetupOk(S, n) && n < m < |S.rows|
    ensures S' == S.(rows := S.rows[m := row]) && SetupOk(S', n)
    ensures S'.a == S.a && S'.b == S.b
    ensures forall r :: 0 <= r <= n ==> S'.rows[r] == S.rows[r]
  {
    S' := S.(rows := S.rows[m := row]);
    SetupOkAll(S, n);
    SetupOkAll(S', n);
  }

  /** Two setups that agree on the names and on rows 0 and r record the
      same equations in round r. */
  lemma RecordsSameRows(S: Setup, S': Setup, r: nat)
    requires SetupOk(S, r) && SetupOk(S', r) && r >= 1 && S.a == S'.a && S.b == S'.b
    requires S.rows[0] == S'.rows[0] && S.rows[r] == S'.rows[r]
    ensures Records(S, r) == Records(S', r)
  {
    SetupOkFewer(S, r, r - 1);
    SetupOkFewer(S', r, r - 1);
    assert State(S, r - 1) == State(S', r - 1);
    assert State(S, r) == State(S', r);
  }

  // ---------------------------------------------------------------------
  // Variable blocks

  /** Block k of the ring's `x` variables: `x(1600k) .. x(1600k + 1599)`. */
  function Names(k: nat): (v: seq<Var>)
    ensures |v| == 1600
    ensures forall i :: 0 <= i < 1600 ==> v[i] == X(1600 * k + i)
  {
    seq(1600, i requires 0 <= i < 1600 => X(1600 * k + i))
  }

  /** Two names are the same exactly when they are the same bit of the same
      block; no block holds `u`, and block 0 is the input. */
  lemma NamesDisjoint(k: nat, k': nat, i: nat, j: nat)
    requires i < 1600 && j < 1600
    ensures Names(k)[i] != U
    ensures Names(k)[i] == Names(k')[j] <==> k == k' && i == j
    ensures Names(0)[i] == Inputs()[i]
  {
    if k < k' {
      assert 1600 * k + i < 1600 * k';
    } else if k' < k {
      assert 1600 * k' + j < 1600 * k;
    }
  }

  lemma NamesOkBlocks(k: nat, k': nat)
    ensures NamesOk(Names(k), Names(k'))
  {
    forall i, j | 0 <= i < 1600 && 0 <= j < 1600 && i != j
      ensures Names(k)[i] != Names(k)[j]
    {
      NamesDisjoint(k, k, i, j);
    }
  }

  /** How both scripts hand out names: round r linearises into `a_vars[r-1]`
      = block 2r - 1 and `b_vars[r-1]` = block 2r, after the input block 0. */
  function BlockSetup(rows: seq<seq<int>>, n: nat): (S: Setup)
    ensures S.rows == rows && |S.a| == n && |S.b| == n
    ensures forall r :: 0 <= r < n ==> S.a[r] == Names(2 * r + 1) && S.b[r] == Names(2 * r + 2)
  {
    Setup(rows, seq(n, r requires 0 <= r < n => Names(2 * r + 1)), seq(n, r requires 0 <= r < n => Names(2 * r + 2)))
  }

  /** The block names meet the loop's demands for rounds 1 .. m. */
  lemma BlockSetupOk(rows: seq<seq<int>>, n: nat, m: nat)
    requires m <= n && m < |RoundConstants| && |rows| > m
    requires forall r :: 0 <= r <= m ==> |rows[r]| == 1600
    ensures SetupOk(BlockSetup(rows, n), m)
  {
    var S := BlockSetup(rows, n);
    forall r | 0 <= r < m
      ensures NamesOk(S.a[r], S.b[r])
    {
      NamesOkBlocks(2 * r + 1, 2 * r + 2);
    }
    SetupOkAll(S, m);
  }

  /** The `a` and `b` blocks of every round are disjoint from each other,
      from those of every other round and from the input block. */
  lemma BlocksFresh(rows: seq<seq<int>>, n: nat, r: nat, r': nat, i: nat, j: nat)
    requires r < n && r' < n && i < 1600 && j < 1600
    ensures BlockSetup(rows, n).a[r][i] != BlockSetup(rows, n).b[r'][j]
    ensures BlockSetup(rows, n).a[r][i] != Inputs()[j] && BlockSetup(rows, n).b[r][i] != Inputs()[j]
    ensures BlockSetup(rows, n).a[r][i] == BlockSetup(rows, n).a[r'][j] <==> r == r' && i == j
    ensures BlockSetup(rows, n).b[r][i] == BlockSetup(rows, n).b[r'][j] <==> r == r' && i == j
  {
    NamesDisjoint(2 * r + 1, 2 * r' + 2, i, j);
    NamesDisjoint(2 * r + 1, 0, i, j);
    NamesDisjoint(2 * r + 2, 0, i, j);
    NamesDisjoint(0, 0, j, j);
    NamesDisjoint(2 * r + 1, 2 * r' + 1, i, j);
    NamesDisjoint(2 * r + 2, 2 * r' + 2, i, j);
  }

  // ---------------------------------------------------------------------
  // The hard-coded 4-round trail of `Keccak/code/keccak.py`

  /** The active bits of `diff[0] .. diff[3]`. */
  const Diff0: seq<Coord> := [(0, 0, 2), (0, 1, 2), (0, 2, 2), (0, 3, 2), (0, 4, 2),
    (2, 3, 60), (2, 4, 60), (2, 4, 1), (3, 0, 1), (3, 1, 1), (3, 2, 1), (3, 3, 1),
    (4, 0, 3), (4, 1, 3), (4, 2, 3), (4, 4, 3)]
  const Diff1: seq<Coord> := [(2, 3, 11), (3, 2, 11), (3, 3, 11), (4, 1, 57), (4, 3, 57)]
  const Diff2: seq<Coord> := [(1, 1, 13), (2, 2, 36), (3, 0, 32), (3, 2, 1)]
  const Diff3: seq<Coord> := [(0, 0, 14), (1, 0, 57), (1, 0, 17), (2, 0, 56), (2, 0, 45),
    (2, 0, 12), (2, 0, 15), (3, 0, 57), (4, 0, 46), (4, 0, 15), (0, 1, 60), (0, 1, 0),
    (1, 1, 52), (1, 1, 21), (2, 1, 17), (3, 1, 18), (4, 1, 63), (4, 1, 30), (4, 1, 10),
    (0, 2, 38), (1, 2, 39), (1, 2, 19), (1, 2, 8), (2, 2, 61), (2, 2, 26), (3, 2, 40),
    (3, 2, 9), (4, 2, 32), (0, 3, 59), (0, 3, 28), (1, 3, 50), (2, 3, 47), (3, 3, 48),
    (3, 3, 28), (3, 3, 17), (4, 3, 28), (0, 4, 31), (0, 4, 11), (0, 4, 0), (1, 4, 27),
    (2, 4, 40), (2, 4, 7), (3, 4, 55), (4, 4, 39)]

  /** The script's rows and names: ROUNDS = 4, so rows 0 .. 3 and the
      names of rounds 1 .. 3. */
  function MainSetup(): (S: Setup)
    ensures SetupOk(S, 3)
  {
    BlockSetupOk([ActiveRow(Diff0), ActiveRow(Diff1), ActiveRow(Diff2), ActiveRow(Diff3)], 3, 3);
    BlockSetup([ActiveRow(Diff0), ActiveRow(Diff1), ActiveRow(Diff2), ActiveRow(Diff3)], 3)
  }

  /** The script's main block: fill the four rows, then run rounds 1 .. 3.
      It ends with the constraint set of the three rounds, never with
      "Impossible". */
  method KeccakMain() returns (out: Outcome)
    ensures out == Constraints(Trail(MainSetup(), 3))
  {
    var d0 := BuildRow(Diff0);
    var d1 := BuildRow(Diff1);
    var d2 := BuildRow(Diff2);
    var d3 := BuildRow(Diff3);
    var S := BlockSetup([d0[..], d1[..], d2[..], d3[..]], 3);
    assert S == MainSetup();
    out := Propagate(S, 4);
  }
}
