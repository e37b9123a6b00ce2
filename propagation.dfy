/** The propagation steps every trail checker shares.

    A state is a sequence of ring elements, one per permutation bit.  The
    input difference is seeded as `x_i + d_i*u`; after each nonlinear layer
    every bit is split as `a*u + b`, the pair of naming equations
    `a + NVa_i` and `b + NVb_i` is recorded in the constraint set `Q`, and
    the bit is replaced by `NVa_i*u + NVb_i`; finally every bit's
    difference `X_i/u` is compared with the prescribed difference bit. */
module Propagation {
  import opened Anf

  /** How a checker run ends: rejected before propagating (a process exit
      or an exception during setup), stopped as "Impossible", or with the
      constraint set handed to the SAT solver. */
  datatype Outcome = Aborted | Impossible | Constraints(q: set<Poly>)

  /** Label conventions: `Binary` reads 1 as "difference 1" and every
      other entry as "difference 0"; `Ternary` also reads 0 as
      "difference 0" and skips every other entry (the attacks use -1 for
      "don't care"). */
  datatype LabelRule = Binary | Ternary

  /** The result of comparing one bit's difference with its entry. */
  datatype Verdict = Holds | Contradiction | Constrain(c: Poly)

  /** Does the rule prescribe a difference for this entry at all? */
  predicate Cares(rule: LabelRule, entry: int)
  {
    rule == Binary || entry == 0 || entry == 1
  }

  /** The difference bit an entry prescribes. */
  function Target(entry: int): (t: int)
    ensures t == 0 || t == 1
  {
    if entry == 1 then 1 else 0
  }

  /** The equation an entry 0 prescribes is the bare difference name. */
  lemma TargetZero(p: Poly, entry: int)
    requires entry == 0
    ensures Add(p, Const(Target(entry))) == p
  {
    AddZero(p);
  }

  /** The if/elif chain applied to `d = X_i/u` and the entry. */
  function Judge(rule: LabelRule, d: Poly, entry: int): (v: Verdict)
    ensures v.Holds? <==> !Cares(rule, entry) || d == Const(Target(entry))
    ensures v.Contradiction? <==> Cares(rule, entry) && d == Const(1 - Target(entry))
    ensures v.Constrain? ==> Cares(rule, entry) && !IsConstant(d) && v.c == Add(d, Const(Target(entry)))
  {
    if entry == 1 then
      (if d == One then Holds else if d == Zero then Contradiction else Constrain(Add(d, One)))
    else if rule == Binary || entry == 0 then
      (if d == Zero then Holds else if d == One then Contradiction else Constrain(d))
    else
      Holds
  }

  /** A recorded constraint is the equation "d equals the entry's bit":
      it is the zero polynomial exactly when d already is that bit. */
  lemma JudgeConstraintMeaning(rule: LabelRule, d: Poly, entry: int)
    requires Judge(rule, d, entry).Constrain?
    ensures Judge(rule, d, entry).c != Zero
    ensures Add(Judge(rule, d, entry).c, Const(Target(entry))) == d
  {
  }

  // ---------------------------------------------------------------------
  // Seeding

  /** `X_i + d_i*u`, with the difference `d_i` a ring element. */
  function Seed(x: Poly, d: Poly): Poly
  {
    Add(x, Mul(d, Atom(U)))
  }

  /** A bit seeded with a difference bit 0 is the unperturbed input. */
  lemma SeedConst(x: Poly, n: int)
    ensures Seed(x, Const(n)) == if n % 2 == 0 then x else Add(x, Atom(U))
  {
    MulConst(n, Atom(U));
    AddZero(x);
  }

  /** The difference carried by a seeded input variable is its entry. */
  lemma SeedDifference(v: Var, d: Poly)
    requires v != U && FreeOfU(d)
    ensures DivU(Seed(Atom(v), d)) == d
  {
    DivUAdd(Atom(v), Mul(d, Atom(U)));
    DivUAtom(v);
    MulByU(d);
    var du := Mul(d, Atom(U));
    forall m
      ensures m in DivU(du) <==> m in d
    {
      DivUMember(du, m);
      if U !in m && m + {U} in du {
        var w :| w in d && m + {U} == w + {U};
        assert w == m;
      }
      if m in d {
        assert m + {U} in du;
      }
    }
    AddZero(DivU(du));
  }

  /** The seeded input: bit i is `x_i + d_i*u`. */
  function Seeded(x: seq<Poly>, d: seq<Poly>): (s: seq<Poly>)
    requires |x| == |d|
    ensures |s| == |x|
  {
    seq(|x|, i requires 0 <= i < |x| => Seed(x[i], d[i]))
  }

  /** Seed every bit of `X` with its difference, in place. */
  method SeedInput(X: array<Poly>, d: seq<Poly>)
    requires X.Length == |d|
    modifies X
    ensures X[..] == Seeded(old(X[..]), d)
  {
    ghost var x := X[..];
    for i := 0 to X.Length
      invariant forall k :: 0 <= k < i ==> X[k] == Seed(x[k], d[k])
      invariant forall k :: i <= k < X.Length ==> X[k] == x[k]
    {
      X[i] := Add(X[i], Mul(d[i], Atom(U)));
    }
    assert forall k :: 0 <= k < X.Length ==> X[..][k] == Seeded(x, d)[k];
  }

  /** Seeding input variables other than `u` with u-free differences: the
      difference of bit i is `d_i`. */
  lemma SeededDifference(v: seq<Var>, d: seq<Poly>, i: nat)
    requires |v| == |d| && i < |v| && v[i] != U && FreeOfU(d[i])
    ensures DivU(Seeded(seq(|v|, k requires 0 <= k < |v| => Atom(v[k])), d)[i]) == d[i]
  {
    SeedDifference(v[i], d[i]);
  }

  // ---------------------------------------------------------------------
  // Linearisation

  /** The `a` of the split `X_i = a*u + b`. */
  function SplitA(p: Poly): Poly { DivU(p) }

  /** The `b` of the split `X_i = a*u + b`. */
  function SplitB(p: Poly): Poly { Add(p, Mul(DivU(p), Atom(U))) }

  /** The split always exists: it recomposes `p` from two u-free parts. */
  lemma SplitSound(p: Poly)
    ensures FreeOfU(SplitA(p)) && FreeOfU(SplitB(p))
    ensures Add(Mul(SplitA(p), Atom(U)), SplitB(p)) == p
  {
    Decompose(p);
    Recompose(p);
  }

  /** The naming equation `a + NVa_i`. */
  function NameA(p: Poly, na: Var): Poly { Add(SplitA(p), Atom(na)) }

  /** The naming equation `b + NVb_i`. */
  function NameB(p: Poly, nb: Var): Poly { Add(SplitB(p), Atom(nb)) }

  /** The state after linearisation: bit i is `a_i*u + b_i`. */
  function Linearised(a: seq<Var>, b: seq<Var>): (s: seq<Poly>)
    requires |a| == |b|
    ensures |s| == |a|
  {
    seq(|a|, i requires 0 <= i < |a| => Lin(a[i], b[i]))
  }

  /** The naming equations recorded for the first n bits of `s`. */
  function Naming(s: seq<Poly>, a: seq<Var>, b: seq<Var>, n: nat): set<Poly>
    requires n <= |s| && |s| == |a| == |b|
  {
    (set i | 0 <= i < n :: NameA(s[i], a[i])) + (set i | 0 <= i < n :: NameB(s[i], b[i]))
  }

  /** Both naming equations of every bit below n are recorded. */
  lemma NamingHas(s: seq<Poly>, a: seq<Var>, b: seq<Var>, n: nat, i: nat)
    requires n <= |s| && |s| == |a| == |b| && i < n
    ensures NameA(s[i], a[i]) in Naming(s, a, b, n) && NameB(s[i], b[i]) in Naming(s, a, b, n)
  {
  }

  lemma NamingStep(s: seq<Poly>, a: seq<Var>, b: seq<Var>, n: nat)
    requires n < |s| && |s| == |a| == |b|
    ensures Naming(s, a, b, n + 1) == Naming(s, a, b, n) + {NameA(s[n], a[n]), NameB(s[n], b[n])}
  {
    var sa := set i | 0 <= i < n :: NameA(s[i], a[i]);
    var sa' := set i | 0 <= i < n + 1 :: NameA(s[i], a[i]);
    assert sa' == sa + {NameA(s[n], a[n])};
    var sb := set i | 0 <= i < n :: NameB(s[i], b[i]);
    var sb' := set i | 0 <= i < n + 1 :: NameB(s[i], b[i]);
    assert sb' == sb + {NameB(s[n], b[n])};
  }

  /** Linearise every bit of `X` into the names `a`, `b`, recording the
      naming equations in the constraint set. */
  method Linearise(X: array<Poly>, a: seq<Var>, b: seq<Var>, q0: set<Poly>) returns (q: set<Poly>)
    requires X.Length == |a| == |b|
    modifies X
    ensures X[..] == Linearised(a, b)
    ensures q == q0 + Naming(old(X[..]), a, b, X.Length)
  {
    q := q0;
    ghost var s := X[..];
    for i := 0 to X.Length
      invariant forall k :: 0 <= k < i ==> X[k] == Lin(a[k], b[k])
      invariant forall k :: i <= k < X.Length ==> X[k] == s[k]
      invariant q == q0 + Naming(s, a, b, i)
    {
      NamingStep(s, a, b, i);
      q := q + {NameA(X[i], a[i]), NameB(X[i], b[i])};
      X[i] := Lin(a[i], b[i]);
    }
    assert forall k :: 0 <= k < X.Length ==> X[..][k] == Linearised(a, b)[k];
  }

  /** After linearisation the difference of bit i is the name `a_i`. */
  lemma LinearisedDifference(a: seq<Var>, b: seq<Var>)
    requires |a| == |b| && forall i :: 0 <= i < |a| ==> a[i] != U && b[i] != U
    ensures DivUAll(Linearised(a, b)) == Atoms(a)
  {
    forall i | 0 <= i < |a|
      ensures DivU(Linearised(a, b)[i]) == Atom(a[i])
    {
      DivULin(a[i], b[i]);
    }
  }

  /** Every naming equation over names other than `u` is u-free, so the
      constraint set never mentions `u`. */
  lemma NamingFree(s: seq<Poly>, a: seq<Var>, b: seq<Var>, n: nat)
    requires n <= |s| && |s| == |a| == |b|
    requires forall i :: 0 <= i < |a| ==> a[i] != U && b[i] != U
    ensures forall p :: p in Naming(s, a, b, n) ==> FreeOfU(p)
  {
    forall i | 0 <= i < n
      ensures FreeOfU(NameA(s[i], a[i])) && FreeOfU(NameB(s[i], b[i]))
    {
      SplitSound(s[i]);
      AddFree(SplitA(s[i]), Atom(a[i]));
      AddFree(SplitB(s[i]), Atom(b[i]));
    }
  }

  // ---------------------------------------------------------------------
  // Comparison with the prescribed difference

  /** The constraints the comparison adds for the first n bits. */
  function Required(rule: LabelRule, s: seq<Poly>, entries: seq<int>, n: nat): set<Poly>
    requires n <= |s| == |entries|
  {
    set i | 0 <= i < n && Judge(rule, DivU(s[i]), entries[i]).Constrain? :: Judge(rule, DivU(s[i]), entries[i]).c
  }

  lemma RequiredStep(rule: LabelRule, s: seq<Poly>, entries: seq<int>, n: nat)
    requires n < |s| == |entries|
    ensures Judge(rule, DivU(s[n]), entries[n]).Constrain? ==>
      Required(rule, s, entries, n + 1) == Required(rule, s, entries, n) + {Judge(rule, DivU(s[n]), entries[n]).c}
    ensures !Judge(rule, DivU(s[n]), entries[n]).Constrain? ==>
      Required(rule, s, entries, n + 1) == Required(rule, s, entries, n)
  {
  }

  /** The set of the loop of `Check` after bit n. */
  lemma RequiredGrows(rule: LabelRule, s: seq<Poly>, entries: seq<int>, n: nat, q0: set<Poly>, q: set<Poly>)
    requires n < |s| == |entries| && q == q0 + Required(rule, s, entries, n)
    ensures Judge(rule, DivU(s[n]), entries[n]).Constrain? ==>
      q + {Judge(rule, DivU(s[n]), entries[n]).c} == q0 + Required(rule, s, entries, n + 1)
    ensures !Judge(rule, DivU(s[n]), entries[n]).Constrain? ==> q == q0 + Required(rule, s, entries, n + 1)
  {
    RequiredStep(rule, s, entries, n);
  }

  /** A bit whose comparison is open contributes its equation. */
  lemma RequiredMember(rule: LabelRule, s: seq<Poly>, entries: seq<int>, n: nat, i: nat)
    requires n <= |s| == |entries| && i < n && !IsConstant(DivU(s[i])) && Cares(rule, entries[i])
    ensures Judge(rule, DivU(s[i]), entries[i]) == Constrain(Add(DivU(s[i]), Const(Target(entries[i]))))
    ensures Add(DivU(s[i]), Const(Target(entries[i]))) in Required(rule, s, entries, n)
  {
  }

  /** Some bit's difference is the constant opposite to its entry. */
  predicate Refutes(rule: LabelRule, s: seq<Poly>, entries: seq<int>)
    requires |s| == |entries|
  {
    exists i :: 0 <= i < |s| && Judge(rule, DivU(s[i]), entries[i]).Contradiction?
  }

  /** Compare every bit with its entry, stopping at the first
      contradiction; otherwise add the open equations to the set. */
  method Check(rule: LabelRule, s: seq<Poly>, entries: seq<int>, q0: set<Poly>) returns (impossible: bool, q: set<Poly>)
    requires |s| == |entries|
    ensures impossible <==> Refutes(rule, s, entries)
    ensures !impossible ==> q == q0 + Required(rule, s, entries, |s|)
  {
    q := q0;
    var i := 0;
    while i < |s|
      invariant 0 <= i <= |s|
      invariant q == q0 + Required(rule, s, entries, i)
      invariant forall k :: 0 <= k < i ==> !Judge(rule, DivU(s[k]), entries[k]).Contradiction?
    {
      var v := Judge(rule, DivU(s[i]), entries[i]);
      if v.Contradiction? {
        return true, q;
      }
      RequiredGrows(rule, s, entries, i, q0, q);
      if v.Constrain? {
        q := q + {v.c};
      }
      i := i + 1;
    }
    return false, q;
  }

  /** A comparison on a u-free difference adds only u-free equations. */
  lemma RequiredFree(rule: LabelRule, s: seq<Poly>, entries: seq<int>, n: nat)
    requires n <= |s| == |entries|
    ensures forall p :: p in Required(rule, s, entries, n) ==> FreeOfU(p)
  {
    forall i | 0 <= i < n && Judge(rule, DivU(s[i]), entries[i]).Constrain?
      ensures FreeOfU(Judge(rule, DivU(s[i]), entries[i]).c)
    {
      DivUFree(s[i]);
      AddFree(DivU(s[i]), Const(Target(entries[i])));
    }
  }

  /** One linearised bit: its difference is the fresh name `na`, so the
      comparison either ignores the entry or records `na + label`. */
  lemma JudgeLin(rule: LabelRule, na: Var, nb: Var, entry: int)
    requires na != U && nb != U
    ensures Judge(rule, DivU(Lin(na, nb)), entry)
         == if Cares(rule, entry) then Constrain(Add(Atom(na), Const(Target(entry)))) else Holds
  {
    DivULin(na, nb);
  }

  /** Right after linearisation the difference of bit i is the fresh name
      `a_i`: no comparison can fail, and bit i adds `a_i + label_i`
      exactly when the rule cares about its entry. */
  lemma CheckLinearised(rule: LabelRule, a: seq<Var>, b: seq<Var>, entries: seq<int>, n: nat)
    requires |a| == |b| == |entries| && n <= |a|
    requires forall i :: 0 <= i < |a| ==> a[i] != U && b[i] != U
    ensures !Refutes(rule, Linearised(a, b), entries)
    ensures Required(rule, Linearised(a, b), entries, n)
         == set i | 0 <= i < n && Cares(rule, entries[i]) :: Add(Atom(a[i]), Const(Target(entries[i])))
  {
    var s := Linearised(a, b);
    forall i | 0 <= i < |a|
      ensures Judge(rule, DivU(s[i]), entries[i])
           == if Cares(rule, entries[i]) then Constrain(Add(Atom(a[i]), Const(Target(entries[i])))) else Holds
    {
      JudgeLin(rule, a[i], b[i], entries[i]);
    }
  }
}
