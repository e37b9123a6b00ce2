/** The propagation loop shared by the three Gimli trail scripts.

    The input state `x_0 .. x_383` is seeded with the input difference;
    every round applies the permutation round, linearises each bit into the
    round's fresh names `a_i*u + b_i`, compares each bit's difference with
    the trail's entry, and (in the 6-round attack) ties the differences of
    words s_{i,1} and s_{i,3} of some rows together.  The scripts differ
    only in the data this loop is given, collected in a `Setup`. */
module GimliTrail {
  import opened Common
  import opened Anf
  import opened Propagation
  import opened Gimli

  /** What a script hands to the loop: the label rule, the input difference,
      the trail (row r is the difference after round r, row 0 the input),
      the fresh names of every round, the shift of the round numbers (round
      r uses round number 24 - (r + shift)) and, per round, the rows whose
      words 1 and 3 are tied. */
  datatype Setup = Setup(
    rule: LabelRule,
    d0: seq<Poly>,
    rows: seq<seq<int>>,
    a: seq<seq<Var>>,
    b: seq<seq<Var>>,
    shift: nat,
    tied: seq<seq<nat>>)

  /** The names of one round: 384 of each kind, none of them `u`. */
  predicate NamesOk(a: seq<Var>, b: seq<Var>)
  {
    |a| == 384 && |b| == 384 && forall i :: 0 <= i < 384 ==> a[i] != U && b[i] != U
  }

  /** The data covers `rounds` rounds. */
  predicate SetupOk(S: Setup, rounds: nat)
  {
    && |S.d0| == 384
    && |S.rows| > rounds
    && (forall r :: 0 <= r <= rounds ==> |S.rows[r]| == 384)
    && |S.a| >= rounds && |S.b| >= rounds && |S.tied| >= rounds
    && (forall r :: 0 <= r < rounds ==> NamesOk(S.a[r], S.b[r]))
    && (forall r, k :: 0 <= r < rounds && 0 <= k < |S.tied[r]| ==> S.tied[r][k] < 3)
    && S.shift <= 24
  }

  lemma SetupOkFewer(S: Setup, n: nat, m: nat)
    requires SetupOk(S, n) && m <= n
    ensures SetupOk(S, m)
  {
  }

  /** The input variables `x(0) .. x(383)`. */
  function Inputs(): (s: seq<Poly>)
    ensures |s| == 384
  {
    seq(384, i requires 0 <= i < 384 => Atom(X(i)))
  }

  /** The round number of round r; every round before the one numbered -4
      has a number the constant step accepts. */
  function RoundNumber(S: Setup, r: nat): (n: int)
    ensures r + S.shift < 28 ==> RoundNumberOk(n)
  {
    24 - (r + S.shift)
  }

  // ---------------------------------------------------------------------
  // Tying words 1 and 3

  /** `X[128*i + 32 + z]/u + X[128*i + 96 + z]/u`: the differences of bit z
      of words s_{i,1} and s_{i,3} are equal. */
  function Tie(s: seq<Poly>, i: nat, z: nat): Poly
    requires |s| == 384 && i < 3 && z < 32
  {
    Add(DivU(s[Index(i, 1, z)]), DivU(s[Index(i, 3, z)]))
  }

  /** The ties for bits `0 .. zs - 1` of every listed row. */
  function Ties(s: seq<Poly>, rows: seq<nat>, zs: nat): set<Poly>
    requires |s| == 384 && zs <= 32 && forall k :: 0 <= k < |rows| ==> rows[k] < 3
  {
    set z, k | 0 <= z < zs && 0 <= k < |rows| :: Tie(s, rows[k], z)
  }

  lemma TiesStep(s: seq<Poly>, rows: seq<nat>, z: nat)
    requires |s| == 384 && z < 32 && forall k :: 0 <= k < |rows| ==> rows[k] < 3
    ensures Ties(s, rows, z + 1) == Ties(s, rows, z) + set k | 0 <= k < |rows| :: Tie(s, rows[k], z)
  {
  }

  /** The ties for bit z of the first k listed rows. */
  function TiesAt(s: seq<Poly>, rows: seq<nat>, z: nat, k: nat): set<Poly>
    requires |s| == 384 && z < 32 && k <= |rows| && forall k' :: 0 <= k' < |rows| ==> rows[k'] < 3
  {
    set k' | 0 <= k' < k :: Tie(s, rows[k'], z)
  }

  lemma TiesAtStep(s: seq<Poly>, rows: seq<nat>, z: nat, k: nat)
    requires |s| == 384 && z < 32 && k < |rows| && forall k' :: 0 <= k' < |rows| ==> rows[k'] < 3
    ensures TiesAt(s, rows, z, k + 1) == TiesAt(s, rows, z, k) + {Tie(s, rows[k], z)}
  {
  }

  /** Add the ties of the listed rows, bit by bit. */
  method AddTies(X: array<Poly>, rows: seq<nat>, q0: set<Poly>) returns (q: set<Poly>)
    requires X.Length == 384 && forall k :: 0 <= k < |rows| ==> rows[k] < 3
    ensures q == q0 + Ties(X[..], rows, 32)
  {
    var s := X[..];
    q := q0;
    for z := 0 to 32
      invariant q == q0 + Ties(s, rows, z)
    {
      TiesStep(s, rows, z);
      UnionAssociative(q0, Ties(s, rows, z), TiesAt(s, rows, z, |rows|));
      ghost var q1 := q;
      for k := 0 to |rows|
        invariant q == q1 + TiesAt(s, rows, z, k)
      {
        TiesAtStep(s, rows, z, k);
        UnionAssociative(q1, TiesAt(s, rows, z, k), {Tie(s, rows[k], z)});
        q := q + {Tie(s, rows[k], z)};
      }
    }
  }

  /** On a linearised state a tie equates the two fresh names. */
  lemma TiesLinearised(a: seq<Var>, b: seq<Var>, rows: seq<nat>)
    requires NamesOk(a, b) && forall k :: 0 <= k < |rows| ==> rows[k] < 3
    ensures Ties(Linearised(a, b), rows, 32)
         == set z, k | 0 <= z < 32 && 0 <= k < |rows| :: Add(Atom(a[Index(rows[k], 1, z)]), Atom(a[Index(rows[k], 3, z)]))
  {
    var s := Linearised(a, b);
    forall z, k | 0 <= z < 32 && 0 <= k < |rows|
      ensures Tie(s, rows[k], z) == Add(Atom(a[Index(rows[k], 1, z)]), Atom(a[Index(rows[k], 3, z)]))
    {
      var i1 := Index(rows[k], 1, z);
      var i3 := Index(rows[k], 3, z);
      DivULin(a[i1], b[i1]);
      DivULin(a[i3], b[i3]);
    }
  }

  // ---------------------------------------------------------------------
  // The specification of the loop

  /** The state after n rounds: the seeded input, then the linearised
      state of the last round. */
  function State(S: Setup, n: nat): (s: seq<Poly>)
    requires SetupOk(S, n)
    ensures |s| == 384
  {
    if n == 0 then Seeded(Inputs(), S.d0) else Linearised(S.a[n - 1], S.b[n - 1])
  }

  /** What round r adds: the naming equations of its output, the
      comparison with trail row r + 1 and the ties. */
  function Records(S: Setup, r: nat): set<Poly>
    requires SetupOk(S, r + 1) && r + S.shift < 28
  {
    SetupOkFewer(S, r + 1, r);
    var lin := Linearised(S.a[r], S.b[r]);
    Naming(Step(State(S, r), RoundNumber(S, r)), S.a[r], S.b[r], 384)
      + Required(S.rule, lin, S.rows[r + 1], 384)
      + Ties(lin, S.tied[r], 32)
  }

  /** The constraint set after n rounds. */
  function Trail(S: Setup, n: nat): set<Poly>
    requires SetupOk(S, n) && n + S.shift <= 28
  {
    if n == 0 then {}
    else
      SetupOkFewer(S, n, n - 1);
      Trail(S, n - 1) + Records(S, n - 1)
  }

  /** One more round adds that round's records. */
  lemma TrailNext(S: Setup, n: nat)
    requires SetupOk(S, n + 1) && n + 1 + S.shift <= 28
    ensures SetupOk(S, n)
    ensures Trail(S, n + 1) == Trail(S, n) + Records(S, n)
  {
    SetupOkFewer(S, n + 1, n);
  }

  /** How the loop ends: with an exception when it reaches round number -4,
      otherwise with the constraint set of all its rounds. */
  function Expected(S: Setup, rounds: nat): (out: Outcome)
    requires SetupOk(S, rounds)
    ensures out.Aborted? <==> rounds + S.shift > 28
    ensures !out.Impossible?
  {
    if rounds + S.shift > 28 then Aborted else Constraints(Trail(S, rounds))
  }

  /** One round of the loop on the state `X`: the three layers, the
      linearisation, the comparison and the ties. */
  method PropagateRound(S: Setup, X: array<Poly>, r: nat, q0: set<Poly>) returns (q: set<Poly>)
    requires SetupOk(S, r + 1) && r + S.shift < 28
    requires X.Length == 384 && X[..] == State(S, r)
    modifies X
    ensures X[..] == State(S, r + 1)
    ensures q == q0 + Records(S, r)
  {
    NonLinear(X);
    LinearMixing(X, RoundNumber(S, r));
    RoundConst(X, RoundNumber(S, r));
    q := Linearise(X, S.a[r], S.b[r], q0);
    CheckLinearised(S.rule, S.a[r], S.b[r], S.rows[r + 1], 384);
    var impossible;
    impossible, q := Check(S.rule, X[..], S.rows[r + 1], q);
    assert !impossible;
    q := AddTies(X, S.tied[r], q);
  }

  /** The loop has run r of its n rounds: the state is `State(S, r)` and the
      set is `Trail(S, r)`. */
  predicate Reached(S: Setup, n: nat, s: seq<Poly>, q: set<Poly>, r: nat)
    requires SetupOk(S, n) && n + S.shift <= 28 && r <= n
  {
    SetupOkFewer(S, n, r);
    s == State(S, r) && q == Trail(S, r)
  }

  /** Round r of n, in terms of the loop's progress. */
  method NextRound(S: Setup, n: nat, X: array<Poly>, r: nat, q0: set<Poly>) returns (q: set<Poly>)
    requires SetupOk(S, n) && n + S.shift <= 28 && r < n
    requires X.Length == 384 && Reached(S, n, X[..], q0, r)
    modifies X
    ensures Reached(S, n, X[..], q, r + 1)
  {
    SetupOkFewer(S, n, r + 1);
    q := PropagateRound(S, X, r, q0);
    TrailNext(S, r);
  }

  /** The ring's input variables x, seeded with the input difference. */
  method InitialState(S: Setup) returns (st: array<Poly>)
    requires SetupOk(S, 0)
    ensures fresh(st) && st[..] == State(S, 0)
  {
    st := new Poly[384](i requires 0 <= i < 384 => Atom(X(i)));
    assert st[..] == Inputs();
    SeedInput(st, S.d0);
  }

  /** The first n rounds of the loop, none of which fails. */
  method RunRounds(S: Setup, n: nat) returns (q: set<Poly>)
    requires SetupOk(S, n) && n + S.shift <= 28
    ensures q == Trail(S, n)
  {
    var st := InitialState(S);
    q := {};
    for r := 0 to n
      invariant Reached(S, n, st[..], q, r)
    {
      q := NextRound(S, n, st, r, q);
    }
  }

  /** `check_differential`'s and the attacks' loop: `rounds` rounds from the
      seeded input.  The round whose number is -4 stops it with an
      exception (hex2vector cannot convert a negative number); it can never
      stop on "Impossible", because each comparison follows a
      linearisation. */
  method Propagate(S: Setup, rounds: nat) returns (out: Outcome)
    requires SetupOk(S, rounds)
    ensures out == Expected(S, rounds)
  {
    var n := if rounds + S.shift > 28 then 28 - S.shift else rounds;
    SetupOkFewer(S, rounds, n);
    var q := RunRounds(S, n);
    if n < rounds {
      // round n has round number -4
      return Aborted;
    }
    return Constraints(q);
  }

  // ---------------------------------------------------------------------
  // What the constraint set says

  /** Round r adds, besides the naming equations of its output, exactly the
      equations "a_i equals the entry" for the entries the rule cares about
      and "a at word 1 equals a at word 3" for the tied rows. */
  lemma RecordsShape(S: Setup, r: nat)
    requires SetupOk(S, r + 1) && r + S.shift < 28
    ensures SetupOk(S, r)
    ensures Records(S, r)
         == Naming(Step(State(S, r), RoundNumber(S, r)), S.a[r], S.b[r], 384)
          + (set i | 0 <= i < 384 && Cares(S.rule, S.rows[r + 1][i]) :: Add(Atom(S.a[r][i]), Const(Target(S.rows[r + 1][i]))))
          + (set z, k | 0 <= z < 32 && 0 <= k < |S.tied[r]| ::
               Add(Atom(S.a[r][Index(S.tied[r][k], 1, z)]), Atom(S.a[r][Index(S.tied[r][k], 3, z)])))
  {
    SetupOkFewer(S, r + 1, r);
    CheckLinearised(S.rule, S.a[r], S.b[r], S.rows[r + 1], 384);
    TiesLinearised(S.a[r], S.b[r], S.tied[r]);
  }

  /** No equation of a round mentions `u`. */
  lemma RecordsFree(S: Setup, r: nat)
    requires SetupOk(S, r + 1) && r + S.shift < 28
    ensures forall p :: p in Records(S, r) ==> FreeOfU(p)
  {
    SetupOkFewer(S, r + 1, r);
    var lin := Linearised(S.a[r], S.b[r]);
    NamingFree(Step(State(S, r), RoundNumber(S, r)), S.a[r], S.b[r], 384);
    RequiredFree(S.rule, lin, S.rows[r + 1], 384);
    forall p | p in Ties(lin, S.tied[r], 32)
      ensures FreeOfU(p)
    {
      var z, k :| 0 <= z < 32 && 0 <= k < |S.tied[r]| && p == Tie(lin, S.tied[r][k], z);
      DivUFree(lin[Index(S.tied[r][k], 1, z)]);
      DivUFree(lin[Index(S.tied[r][k], 3, z)]);
      AddFree(DivU(lin[Index(S.tied[r][k], 1, z)]), DivU(lin[Index(S.tied[r][k], 3, z)]));
    }
  }

  /** The set handed to the SAT solver never mentions `u`. */
  lemma {:induction false} TrailFree(S: Setup, n: nat)
    requires SetupOk(S, n) && n + S.shift <= 28
    ensures forall p :: p in Trail(S, n) ==> FreeOfU(p)
  {
    if n > 0 {
      TrailNext(S, n - 1);
      TrailFree(S, n - 1);
      RecordsFree(S, n - 1);
    }
  }

  /** The constraint set only grows from round to round. */
  lemma {:induction false} TrailGrows(S: Setup, m: nat, n: nat)
    requires SetupOk(S, n) && n + S.shift <= 28 && m <= n
    ensures SetupOk(S, m)
    ensures Trail(S, m) <= Trail(S, n)
  {
    SetupOkFewer(S, n, m);
    if m < n {
      TrailNext(S, n - 1);
      TrailGrows(S, m, n - 1);
      SubsetOfUnion(Trail(S, m), Trail(S, n - 1), Records(S, n - 1));
    }
  }

  /** Every round's names are bound to that round's output: `a` is the
      output bit's difference and `b` the rest of it. */
  lemma TrailNames(S: Setup, n: nat, r: nat, i: nat)
    requires SetupOk(S, n) && n + S.shift <= 28 && r < n && i < 384
    ensures SetupOk(S, r)
    ensures Add(DivU(Step(State(S, r), RoundNumber(S, r))[i]), Atom(S.a[r][i])) in Trail(S, n)
    ensures Add(SplitB(Step(State(S, r), RoundNumber(S, r))[i]), Atom(S.b[r][i])) in Trail(S, n)
  {
    SetupOkFewer(S, n, r + 1);
    SetupOkFewer(S, n, r);
    TrailGrows(S, r + 1, n);
    var s := Step(State(S, r), RoundNumber(S, r));
    assert NameA(s[i], S.a[r][i]) in Naming(s, S.a[r], S.b[r], 384);
    assert NameB(s[i], S.b[r][i]) in Naming(s, S.a[r], S.b[r], 384);
  }

  /** Every entry the rule cares about becomes the equation "the name of
      that bit's difference equals the entry". */
  lemma TrailDifferences(S: Setup, n: nat, r: nat, i: nat)
    requires SetupOk(S, n) && n + S.shift <= 28 && r < n && i < 384
    requires Cares(S.rule, S.rows[r + 1][i])
    ensures Add(Atom(S.a[r][i]), Const(Target(S.rows[r + 1][i]))) in Trail(S, n)
  {
    SetupOkFewer(S, n, r + 1);
    TrailGrows(S, r + 1, n);
    RecordsShape(S, r);
  }

  /** An entry 0 pins the bit's difference to 0: its name alone is an
      equation. */
  lemma TrailPinsZero(S: Setup, n: nat, r: nat, i: nat)
    requires SetupOk(S, n) && n + S.shift <= 28 && r < n && i < 384
    requires S.rows[r + 1][i] == 0
    ensures Atom(S.a[r][i]) in Trail(S, n)
  {
    TrailDifferences(S, n, r, i);
    TargetZero(Atom(S.a[r][i]), S.rows[r + 1][i]);
  }

  /** Every tie of a round is an equation of the trail: bit z of words
      s_{i,1} and s_{i,3} of a tied row i get equal difference names. */
  lemma TrailTies(S: Setup, n: nat, r: nat, k: nat, z: nat)
    requires SetupOk(S, n) && n + S.shift <= 28 && r < n && k < |S.tied[r]| && z < 32
    ensures Add(Atom(S.a[r][Index(S.tied[r][k], 1, z)]), Atom(S.a[r][Index(S.tied[r][k], 3, z)])) in Trail(S, n)
  {
    SetupOkFewer(S, n, r + 1);
    TrailGrows(S, r + 1, n);
    RoundTie(S, r, k, z);
  }

  lemma RoundTie(S: Setup, r: nat, k: nat, z: nat)
    requires SetupOk(S, r + 1) && r + S.shift < 28 && k < |S.tied[r]| && z < 32
    ensures Add(Atom(S.a[r][Index(S.tied[r][k], 1, z)]), Atom(S.a[r][Index(S.tied[r][k], 3, z)])) in Records(S, r)
  {
    RecordsShape(S, r);
  }

  /** The input difference is the seeded one: bit i of the input state
      divided by `u` is `d0_i`. */
  lemma InputDifference(S: Setup, i: nat)
    requires SetupOk(S, 0) && i < 384 && FreeOfU(S.d0[i])
    ensures DivU(State(S, 0)[i]) == S.d0[i]
  {
    var v := seq(384, k requires 0 <= k < 384 => X(k));
    assert Inputs() == seq(|v|, k requires 0 <= k < |v| => Atom(v[k]));
    SeededDifference(v, S.d0, i);
  }
}
