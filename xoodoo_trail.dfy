/** The Xoodoo trail checker `xoodoo_mess` of
    `xoodoo/code/extension_trail_mess.py`.

    The input state `x_0 .. x_383` is seeded with the difference row
    `diff[0]`.  Round r = 0 .. ROUNDS - 1 applies chi and compares every
    bit's difference with `diff[r + 1]` under the binary label rule; a
    contradiction ends the run as "Impossible".  Every round but the last
    then linearises every bit into the round's fresh names
    `a_{r,i}*u + b_{r,i}` and applies rho-east, theta, rho-west and round
    constant r + 1.  Unlike the Keccak checkers, the comparison follows the
    nonlinear layer, so a contradiction is reachable. */
module XoodooTrail {
  import opened Common
  import opened Anf
  import opened Propagation
  import opened Xoodoo

  // ---------------------------------------------------------------------
  // Setup

  /** What the checker works on: the rows `diff[0] .. diff[ROUNDS]` and the
      names `a_vars`, `b_vars` of rounds 0 .. ROUNDS - 2. */
  datatype Setup = Setup(rows: seq<seq<int>>, a: seq<seq<Var>>, b: seq<seq<Var>>)

  /** The names of one round: 384 of each kind, none of them `u`. */
  predicate NamesOk(a: seq<Var>, b: seq<Var>)
  {
    |a| == 384 && |b| == 384 && forall i :: 0 <= i < 384 ==> a[i] != U && b[i] != U
  }

  /** A run of `rounds` rounds: rows 0 .. rounds of 384 labels each and
      names for every round that linearises. */
  predicate SetupOk(S: Setup, rounds: nat)
  {
    && rounds >= 1
    && |S.rows| == rounds + 1
    && (forall r :: 0 <= r <= rounds ==> |S.rows[r]| == 384)
    && |S.a| == rounds - 1 && |S.b| == rounds - 1
    && (forall r :: 0 <= r < rounds - 1 ==> NamesOk(S.a[r], S.b[r]))
  }

  /** The input variables `x(0) .. x(383)`. */
  function Inputs(): (v: seq<Var>)
    ensures |v| == 384
  {
    seq(384, i requires 0 <= i < 384 => X(i))
  }

  /** A row of integer labels read as ring constants. */
  function Consts(row: seq<int>): (d: seq<Poly>)
    ensures |d| == |row|
  {
    seq(|row|, i requires 0 <= i < |row| => Const(row[i]))
  }

  /** The rounds the loop can reach: all of them, but none past round 11,
      after which `addConst` has no constant. */
  function Reach(rounds: nat): (n: nat)
    ensures n <= rounds && n <= |RoundConstants|
    ensures n == rounds <==> rounds <= |RoundConstants|
  {
    if rounds <= |RoundConstants| then rounds else |RoundConstants|
  }

  // ---------------------------------------------------------------------
  // The specification of the loop

  /** The linear part between two chi layers: rho-east, theta, rho-west and
      round constant r. */
  function Mix(A: seq<Poly>, r: int): (B: seq<Poly>)
    requires |A| == 384 && RoundIndex(r)
    ensures |B| == 384
  {
    IotaF(RhoWestF(ThetaF(RhoEastF(A))), r)
  }

  /** The state entering chi in round r: the seeded input, or the linear
      part with constant r applied to round r - 1's linearised state. */
  function ChiIn(S: Setup, rounds: nat, r: nat): (s: seq<Poly>)
    requires SetupOk(S, rounds) && r < Reach(rounds)
    ensures |s| == 384
  {
    if r == 0 then Seeded(Atoms(Inputs()), Consts(S.rows[0]))
    else Mix(Linearised(S.a[r - 1], S.b[r - 1]), r)
  }

  /** The state round r compares with `diff[r + 1]`. */
  function ChiOut(S: Setup, rounds: nat, r: nat): (s: seq<Poly>)
    requires SetupOk(S, rounds) && r < Reach(rounds)
    ensures |s| == 384
  {
    ChiF(ChiIn(S, rounds, r))
  }

  /** Round r finds a bit whose difference contradicts its label. */
  predicate Refuted(S: Setup, rounds: nat, r: nat)
    requires SetupOk(S, rounds) && r < Reach(rounds)
  {
    Refutes(Binary, ChiOut(S, rounds, r), S.rows[r + 1])
  }

  /** The equations the comparison of round r adds. */
  function Compared(S: Setup, rounds: nat, r: nat): set<Poly>
    requires SetupOk(S, rounds) && r < Reach(rounds)
  {
    Required(Binary, ChiOut(S, rounds, r), S.rows[r + 1], 384)
  }

  /** The naming equations of round r < ROUNDS - 1. */
  function Named(S: Setup, rounds: nat, r: nat): set<Poly>
    requires SetupOk(S, rounds) && r < Reach(rounds) && r < rounds - 1
  {
    Naming(ChiOut(S, rounds, r), S.a[r], S.b[r], 384)
  }

  /** What round r contributes: whether it refutes its row, its comparison
      equations and, for every round but the last, its naming equations. */
  datatype Step = Step(refuted: bool, compared: set<Poly>, named: set<Poly>)

  /** The rounds the loop can reach, each as a Step. */
  function Steps(S: Setup, rounds: nat): (t: seq<Step>)
    requires SetupOk(S, rounds)
    ensures |t| == Reach(rounds)
  {
    seq(Reach(rounds), r requires 0 <= r < Reach(rounds) =>
      Step(Refuted(S, rounds, r), Compared(S, rounds, r), if r < rounds - 1 then Named(S, rounds, r) else {}))
  }

  lemma StepAt(S: Setup, rounds: nat, r: nat)
    requires SetupOk(S, rounds) && r < Reach(rounds)
    ensures Steps(S, rounds)[r].refuted == Refuted(S, rounds, r)
    ensures Steps(S, rounds)[r].compared == Compared(S, rounds, r)
    ensures r < rounds - 1 ==> Steps(S, rounds)[r].named == Named(S, rounds, r)
  {
  }

  /** How the loop goes on from round r with the set q: a refuted round
      ends it, the last round returns the set with its comparisons, and
      round 11 cannot go on without a constant for round 12. */
  function Walk(t: seq<Step>, rounds: nat, r: nat, q: set<Poly>): Outcome
    requires |t| == Reach(rounds) && r < |t|
    decreases rounds - r
  {
    if t[r].refuted then Impossible
    else if r == rounds - 1 then Constraints(q + t[r].compared)
    else if r + 1 == |RoundConstants| then Aborted
    else Walk(t, rounds, r + 1, q + t[r].compared + t[r].named)
  }

  /** The whole run, from round 0 with the empty set. */
  function Run(S: Setup, rounds: nat): Outcome
    requires SetupOk(S, rounds)
  {
    Walk(Steps(S, rounds), rounds, 0, {})
  }

  /** The equations rounds r .. ROUNDS - 1 add when none of them fails. */
  function Gathered(t: seq<Step>, rounds: nat, r: nat): set<Poly>
    requires |t| == rounds && r < rounds
    decreases rounds - r
  {
    if r == rounds - 1 then t[r].compared
    else t[r].compared + t[r].named + Gathered(t, rounds, r + 1)
  }

  /** The equations of rounds r .. ROUNDS - 1 of a run that reaches them all. */
  function Collected(S: Setup, rounds: nat, r: nat): set<Poly>
    requires SetupOk(S, rounds) && r < rounds <= |RoundConstants|
  {
    Gathered(Steps(S, rounds), rounds, r)
  }

  // ---------------------------------------------------------------------
  // The loop

  /** The ring's input variables, seeded with `diff[0] * u`. */
  method InitialState(S: Setup, rounds: nat) returns (st: array<Poly>)
    requires SetupOk(S, rounds)
    ensures fresh(st) && st.Length == 384 && st[..] == ChiIn(S, rounds, 0)
  {
    st := new Poly[384](i requires 0 <= i < 384 => Atom(X(i)));
    assert st[..] == Atoms(Inputs());
    SeedInput(st, Consts(S.rows[0]));
  }

  /** Rho-east, theta and rho-west, in the order of the source. */
  method LinearLayers(X: array<Poly>) returns (Y: array<Poly>)
    requires X.Length == 384
    modifies X
    ensures fresh(Y) && Y.Length == 384
    ensures Y[..] == RhoWestF(ThetaF(RhoEastF(old(X[..]))))
  {
    RhoEast(X);
    Y := Theta(X);
    RhoWest(Y);
  }

  /** The linear part of round r: the three layers, then
      `addConst(X, r + 1)`, which has no constant for r + 1 = 12. */
  method MixRound(X: array<Poly>, r: nat) returns (Y: array<Poly>, ok: bool)
    requires X.Length == 384
    modifies X
    ensures ok <==> RoundIndex(r + 1)
    ensures fresh(Y) && Y.Length == 384
    ensures ok ==> Y[..] == Mix(old(X[..]), r + 1)
  {
    Y := LinearLayers(X);
    if r + 1 >= |RoundConstants| {
      // the constant table has no entry r + 1
      return Y, false;
    }
    AddConst(Y, r + 1);
    ok := true;
  }

  /** The loop of `xoodoo_mess`. */
  method XoodooMess(S: Setup, rounds: nat) returns (out: Outcome)
    requires SetupOk(S, rounds)
    ensures out == Run(S, rounds)
  {
    var X := InitialState(S, rounds);
    var q: set<Poly> := {};
    var r := 0;
    while true
      invariant r < Reach(rounds)
      invariant fresh(X) && X.Length == 384 && X[..] == ChiIn(S, rounds, r)
      invariant Walk(Steps(S, rounds), rounds, r, q) == Run(S, rounds)
      decreases rounds - r
    {
      X := Chi(X);
      StepAt(S, rounds, r);
      var impossible;
      impossible, q := Check(Binary, X[..], S.rows[r + 1], q);
      if impossible {
        return Impossible;
      }
      if r == rounds - 1 {
        return Constraints(q);
      }
      q := Linearise(X, S.a[r], S.b[r], q);
      var ok;
      X, ok := MixRound(X, r);
      if !ok {
        return Aborted;
      }
      r := r + 1;
    }
  }

  /** The script's main block: a solution of the wrong length is rejected
      with a `ValueError` before the loop. */
  method XoodooMain(rows: seq<seq<int>>, rounds: nat) returns (out: Outcome)
    requires rounds >= 1 && forall r :: 0 <= r < |rows| ==> |rows[r]| == 384
    ensures |rows| != rounds + 1 ==> out == Aborted
    ensures |rows| == rounds + 1 ==> SetupOk(BlockSetup(rows, rounds), rounds) && out == Run(BlockSetup(rows, rounds), rounds)
  {
    if rounds + 1 != |rows| {
      return Aborted;
    }
    BlockSetupOk(rows, rounds);
    out := XoodooMess(BlockSetup(rows, rounds), rounds);
  }

  // ---------------------------------------------------------------------
  // The ring's names

  /** Block k of the ring's `x` variables: `x(384*k) .. x(384*k + 383)`. */
  function Names(k: nat): (v: seq<Var>)
    ensures |v| == 384
    ensures forall i :: 0 <= i < 384 ==> v[i] == X(384 * k + i)
  {
    seq(384, i requires 0 <= i < 384 => X(384 * k + i))
  }

  /** The names of the script: block 0 is the input, round r's `a_vars`
      are block 2r + 1 and its `b_vars` block 2r + 2. */
  function BlockSetup(rows: seq<seq<int>>, rounds: nat): (S: Setup)
    requires rounds >= 1
    ensures S.rows == rows && |S.a| == rounds - 1 && |S.b| == rounds - 1
    ensures forall r :: 0 <= r < rounds - 1 ==> S.a[r] == Names(2 * r + 1) && S.b[r] == Names(2 * r + 2)
  {
    Setup(rows, seq(rounds - 1, r requires 0 <= r < rounds - 1 => Names(2 * r + 1)),
                seq(rounds - 1, r requires 0 <= r < rounds - 1 => Names(2 * r + 2)))
  }

  lemma BlockSetupOk(rows: seq<seq<int>>, rounds: nat)
    requires rounds >= 1 && |rows| == rounds + 1 && forall r :: 0 <= r < |rows| ==> |rows[r]| == 384
    ensures SetupOk(BlockSetup(rows, rounds), rounds)
  {
  }

  /** Two names are the same exactly when they are the same bit of the same
      block; no block holds `u`, and block 0 is the input. */
  lemma NamesDisjoint(k: nat, k': nat, i: nat, j: nat)
    requires i < 384 && j < 384
    ensures Names(k)[i] != U
    ensures Names(k)[i] == Names(k')[j] <==> k == k' && i == j
    ensures Names(0)[i] == Inputs()[i]
  {
    if k < k' {
      assert 384 * k + i < 384 * k';
    } else if k' < k {
      assert 384 * k' + j < 384 * k;
    }
  }

  /** Every name of a run of `rounds` rounds is one of the ring's
      `2*(ROUNDS - 1)*384 + 384` variables `x`. */
  lemma NamesInRing(rounds: nat, r: nat, i: nat)
    requires rounds >= 1 && r < rounds - 1 && i < 384
    ensures Names(2 * r + 1)[i].index < 2 * (rounds - 1) * 384 + 384
    ensures Names(2 * r + 2)[i].index < 2 * (rounds - 1) * 384 + 384
  {
    assert 384 * (2 * r + 2) + i < 384 * (2 * r + 3);
    assert 2 * r + 3 <= 2 * (rounds - 1) + 1;
    assert 384 * (2 * r + 3) <= 384 * (2 * (rounds - 1) + 1);
  }

  // ---------------------------------------------------------------------
  // How a run ends

  /** A round that passes and is neither the last nor round 11 hands its
      equations on to the next round. */
  lemma WalkNext(t: seq<Step>, rounds: nat, r: nat, q: set<Poly>)
    requires |t| == Reach(rounds) && r < |t|
    requires !t[r].refuted && r != rounds - 1 && r + 1 != |RoundConstants|
    ensures r + 1 < |t|
    ensures Walk(t, rounds, r, q) == Walk(t, rounds, r + 1, q + t[r].compared + t[r].named)
  {
  }

  /** Rounds r .. Reach - 1 all pass exactly when round r and rounds
      r + 1 .. Reach - 1 do. */
  lemma PassSplit(t: seq<Step>, r: nat)
    requires r < |t|
    ensures (forall r' :: r <= r' < |t| ==> !t[r'].refuted) <==>
      !t[r].refuted && forall r' :: r + 1 <= r' < |t| ==> !t[r'].refuted
  {
    if !t[r].refuted && forall r' :: r + 1 <= r' < |t| ==> !t[r'].refuted {
      forall r' | r <= r' < |t|
        ensures !t[r'].refuted
      {
      }
    }
  }

  /** A run ends as "Impossible" exactly when one of the rounds it reaches
      refutes its row. */
  lemma {:induction false} WalkImpossible(t: seq<Step>, rounds: nat, r: nat, q: set<Poly>)
    requires |t| == Reach(rounds) && r < |t|
    ensures Walk(t, rounds, r, q).Impossible? <==> !forall r' :: r <= r' < |t| ==> !t[r'].refuted
    decreases rounds - r
  {
    PassSplit(t, r);
    if t[r].refuted {
    } else if r == rounds - 1 || r + 1 == |RoundConstants| {
      assert |t| == r + 1;
    } else {
      WalkNext(t, rounds, r, q);
      WalkImpossible(t, rounds, r + 1, q + t[r].compared + t[r].named);
    }
  }

  /** A run is cut short by the missing round constant exactly when it has
      more than 12 rounds and rounds 0 .. 11 all pass. */
  lemma {:induction false} WalkAborted(t: seq<Step>, rounds: nat, r: nat, q: set<Poly>)
    requires |t| == Reach(rounds) && r < |t|
    ensures Walk(t, rounds, r, q).Aborted? <==>
      rounds > |RoundConstants| && forall r' :: r <= r' < |t| ==> !t[r'].refuted
    decreases rounds - r
  {
    PassSplit(t, r);
    if t[r].refuted {
    } else if r == rounds - 1 || r + 1 == |RoundConstants| {
      assert |t| == r + 1;
    } else {
      WalkNext(t, rounds, r, q);
      WalkAborted(t, rounds, r + 1, q + t[r].compared + t[r].named);
    }
  }

  /** A run that ends with a constraint set ends with q and the equations of
      the rounds from r on. */
  lemma {:induction false} WalkConstraints(t: seq<Step>, rounds: nat, r: nat, q: set<Poly>)
    requires |t| == Reach(rounds) && r < |t|
    ensures Walk(t, rounds, r, q).Constraints? ==>
      rounds <= |RoundConstants| && Walk(t, rounds, r, q).q == q + Gathered(t, rounds, r)
    decreases rounds - r
  {
    if !t[r].refuted && r != rounds - 1 && r + 1 != |RoundConstants| {
      var q' := q + t[r].compared + t[r].named;
      WalkNext(t, rounds, r, q);
      WalkConstraints(t, rounds, r + 1, q');
      if Walk(t, rounds, r, q).Constraints? {
        UnionAssociative(q, t[r].compared + t[r].named, Gathered(t, rounds, r + 1));
      }
    }
  }

  /** The three ends of a run: "Impossible" when a reached round refutes its
      row; otherwise the missing constant of round 12 when there are more
      than 12 rounds; otherwise the equations of all rounds. */
  lemma RunOutcome(S: Setup, rounds: nat)
    requires SetupOk(S, rounds)
    ensures Run(S, rounds).Impossible? <==> exists r :: 0 <= r < Reach(rounds) && Refuted(S, rounds, r)
    ensures Run(S, rounds).Aborted? <==>
      rounds > |RoundConstants| && forall r :: 0 <= r < Reach(rounds) ==> !Refuted(S, rounds, r)
    ensures Run(S, rounds).Constraints? ==>
      rounds <= |RoundConstants| && Run(S, rounds).q == Collected(S, rounds, 0)
  {
    var t := Steps(S, rounds);
    WalkImpossible(t, rounds, 0, {});
    WalkAborted(t, rounds, 0, {});
    WalkConstraints(t, rounds, 0, {});
    forall r | 0 <= r < Reach(rounds)
      ensures t[r].refuted == Refuted(S, rounds, r)
    {
      StepAt(S, rounds, r);
    }
    var none: set<Poly> := {};
    if rounds <= |RoundConstants| {
      assert none + Collected(S, rounds, 0) == Collected(S, rounds, 0);
    }
  }

  // ---------------------------------------------------------------------
  // What the constraint set says

  lemma RoundFree(S: Setup, rounds: nat, r: nat)
    requires SetupOk(S, rounds) && r < Reach(rounds)
    ensures forall p :: p in Compared(S, rounds, r) ==> FreeOfU(p)
    ensures r < rounds - 1 ==> forall p :: p in Named(S, rounds, r) ==> FreeOfU(p)
  {
    RequiredFree(Binary, ChiOut(S, rounds, r), S.rows[r + 1], 384);
    if r < rounds - 1 {
      NamingFree(ChiOut(S, rounds, r), S.a[r], S.b[r], 384);
    }
  }

  /** Rounds without `u` gather equations without `u`. */
  lemma {:induction false} GatheredFree(t: seq<Step>, rounds: nat, r: nat)
    requires |t| == rounds && r < rounds
    requires forall r' :: r <= r' < rounds ==> forall p :: p in t[r'].compared ==> FreeOfU(p)
    requires forall r' :: r <= r' < rounds - 1 ==> forall p :: p in t[r'].named ==> FreeOfU(p)
    ensures forall p :: p in Gathered(t, rounds, r) ==> FreeOfU(p)
    decreases rounds - r
  {
    if r < rounds - 1 {
      GatheredFree(t, rounds, r + 1);
    }
  }

  /** No equation handed to the SAT solver mentions `u`. */
  lemma CollectedFree(S: Setup, rounds: nat)
    requires SetupOk(S, rounds) && rounds <= |RoundConstants|
    ensures forall p :: p in Collected(S, rounds, 0) ==> FreeOfU(p)
  {
    var t := Steps(S, rounds);
    forall r | 0 <= r < rounds
      ensures forall p :: p in t[r].compared ==> FreeOfU(p)
      ensures r < rounds - 1 ==> forall p :: p in t[r].named ==> FreeOfU(p)
    {
      StepAt(S, rounds, r);
      RoundFree(S, rounds, r);
    }
    GatheredFree(t, rounds, 0);
  }

  /** Round r' gathers its comparisons into the set of any earlier round r. */
  lemma {:induction false} GatheredCompared(t: seq<Step>, rounds: nat, r: nat, r': nat)
    requires |t| == rounds && r <= r' < rounds
    ensures t[r'].compared <= Gathered(t, rounds, r)
    decreases r' - r
  {
    var c := t[r].compared;
    if r == r' && r == rounds - 1 {
      assert Gathered(t, rounds, r) == c;
    } else {
      var n := t[r].named;
      var rest := Gathered(t, rounds, r + 1);
      assert Gathered(t, rounds, r) == c + n + rest;
      if r == r' {
        SubsetOfUnion(c, c, n);
        SubsetOfUnion(c, c + n, rest);
      } else {
        GatheredCompared(t, rounds, r + 1, r');
        SubsetOfRight(t[r'].compared, c + n, rest);
      }
    }
  }

  /** Round r' < ROUNDS - 1 gathers its naming equations likewise. */
  lemma {:induction false} GatheredNamed(t: seq<Step>, rounds: nat, r: nat, r': nat)
    requires |t| == rounds && r <= r' < rounds - 1
    ensures t[r'].named <= Gathered(t, rounds, r)
    decreases r' - r
  {
    var c := t[r].compared;
    var n := t[r].named;
    var rest := Gathered(t, rounds, r + 1);
    assert Gathered(t, rounds, r) == c + n + rest;
    if r == r' {
      SubsetOfRight(n, c, n);
      SubsetOfUnion(n, c + n, rest);
    } else {
      GatheredNamed(t, rounds, r + 1, r');
      SubsetOfRight(t[r'].named, c + n, rest);
    }
  }

  /** Every equation of a completed run is in the final set: each round's
      "difference equals label" equations and every naming equation but
      the last round's. */
  lemma CollectedRounds(S: Setup, rounds: nat, r: nat)
    requires SetupOk(S, rounds) && r < rounds <= |RoundConstants|
    ensures Compared(S, rounds, r) <= Collected(S, rounds, 0)
    ensures r < rounds - 1 ==> Named(S, rounds, r) <= Collected(S, rounds, 0)
  {
    StepAt(S, rounds, r);
    GatheredCompared(Steps(S, rounds), rounds, 0, r);
    if r < rounds - 1 {
      GatheredNamed(Steps(S, rounds), rounds, 0, r);
    }
  }

  // ---------------------------------------------------------------------
  // Differences along the trail

  /** The input difference of bit i is its `diff[0]` entry. */
  lemma InputDifference(S: Setup, rounds: nat, i: nat)
    requires SetupOk(S, rounds) && i < 384
    ensures DivU(ChiIn(S, rounds, 0)[i]) == Const(S.rows[0][i])
  {
    assert Atoms(Inputs()) == seq(384, k requires 0 <= k < 384 => Atom(Inputs()[k]));
    SeededDifference(Inputs(), Consts(S.rows[0]), i);
  }

  /** The difference entering chi in round r >= 1 is rho-west, theta and
      rho-east applied to the names `a_{r-1}`; the round constant does not
      enter it. */
  lemma ChiInDifference(S: Setup, rounds: nat, r: nat)
    requires SetupOk(S, rounds) && 1 <= r < Reach(rounds)
    ensures DivUAll(ChiIn(S, rounds, r)) == RhoWestF(ThetaF(RhoEastF(Atoms(S.a[r - 1]))))
  {
    var L := Linearised(S.a[r - 1], S.b[r - 1]);
    LinearisedDifference(S.a[r - 1], S.b[r - 1]);
    MovePlanesDifference(L, 0, 1, 2, 8);
    ThetaDifference(RhoEastF(L));
    MovePlanesDifference(ThetaF(RhoEastF(L)), 1, 0, 0, 11);
    IotaDifference(RhoWestF(ThetaF(RhoEastF(L))), r);
  }

  /** With no input difference, the state entering chi in round 0 has no
      `u` at all. */
  lemma NoInputDifference(S: Setup, rounds: nat)
    requires SetupOk(S, rounds)
    requires forall i :: 0 <= i < 384 ==> S.rows[0][i] % 2 == 0
    ensures StateFree(ChiIn(S, rounds, 0))
  {
    forall i | 0 <= i < 384
      ensures FreeOfU(ChiIn(S, rounds, 0)[i])
    {
      SeedConst(Atom(X(i)), S.rows[0][i]);
    }
  }

  /** A contradiction is reachable: with no input difference, a row
      `diff[1]` that asks for any difference is refuted in round 0. */
  lemma ZeroInputRefuted(S: Setup, rounds: nat, i: nat)
    requires SetupOk(S, rounds) && i < 384
    requires forall k :: 0 <= k < 384 ==> S.rows[0][k] % 2 == 0
    requires S.rows[1][i] == 1
    ensures Run(S, rounds).Impossible?
  {
    NoInputDifference(S, rounds);
    ChiFree(ChiIn(S, rounds, 0));
    var s := ChiOut(S, rounds, 0);
    DivUOfFree(s[i]);
    assert Judge(Binary, DivU(s[i]), S.rows[1][i]).Contradiction?;
    assert Refuted(S, rounds, 0);
    RunOutcome(S, rounds);
  }
}
