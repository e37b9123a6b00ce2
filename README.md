# Symbolic differential propagation for Gimli, Keccak-f, Xoodoo and Ascon

This project models the core of a toolkit that checks differential characteristics of bit-oriented
permutations. A characteristic gives, for each round, a label for every state bit: 1 (the bit must
differ), 0 (it must not differ), or -1 (either is allowed, used by the Gimli attack scripts).

## How the engine works

Every state bit is a polynomial over GF(2) in the algebraic normal form that the Python scripts get from
PolyBoRi's `declare_ring`. The ring has the input variables `x(i)`, blocks of fresh names, and one
auxiliary variable `u`.
- The run starts from `X[i] = x(i) + d0[i]*u`, where `d0` is the input difference.
- Each round applies the permutation's layers to the whole state.
- Each bit is then linearised as `X[i] = a*u + b`. Here `a = X[i]/u` and `b = X[i] + a*u`. The constraints `a + NVa(i)` and
  `b + NVb(i)` are recorded, and the bit is replaced by `NVa(i)*u + NVb(i)` with those fresh names.
- The quotient `X[i]/u` is compared with the round's label:
  - a constant that matches the label is accepted;
  - a constant that does not match ends the run with "Impossible";
  - anything else becomes a constraint (`X[i]/u + label`).
- The result is the constraint set `Q`, which the scripts hand to a SAT solver.

The model has these parts:
- `Anf`, `AnfRing`: the ring. A polynomial is a set of monomials, and a monomial is a set of variables.
  - Addition is symmetric difference. Multiplication keeps the monomials reached by an odd number of pairs.
  - Division by `u` keeps the monomials that contain `u` and removes `u` from them.
  - The ring laws that the scripts rely on are proved: commutativity, associativity, distributivity and units.
- `Propagation`: the steps every driver shares: seeding, linearisation, and the comparison verdict. It
  also defines `Outcome`, which is one of three results:
  - `Impossible`: the `exit(0)` after "Impossible";
  - `Constraints(q)`: the set `Q` reached;
  - `Aborted`: an `exit(1)`, or a `ValueError` or `IndexError` that the Python code raises.
- One module per permutation layer set: `Gimli`, `Keccak`, `Xoodoo`, `Ascon`. Each layer is a method that
  follows the source's loops over an array of polynomials. Each is proved equal to a pure function, and
  that function is proved to match the permutation's standard definition (Algorithm 1 of the Gimli paper,
  the Keccak-f step mappings, the Xoodoo round, the Ascon S-box table and rotations).
- One module per driver:
  - `GimliCheck`: `check_differential` in gimli.py, with the 6-round trail of the Gimli paper.
  - `GimliAttacks`: 6rattack.py and 8rattack.py.
  - `GimliTrail`: the propagation they share.
  - `KeccakTrail`: `main` of Keccak/code/keccak.py.
  - `KeccakFourRound`: 4rkeccak.py, which reads its trail with `ReadTrails`.
  - `KeccakLinear`: the linear system built by compare_keccak_sat/code/keccak.py.
  - `AsconTrail`: 2rhash_Zong.py.
  - `XoodooTrail`: extension_trail_mess.py.
- Each driver's method is proved equal to a recursive specification of the run (`Trail`, `Run`, `Expected`).
  Lemmas about that specification state what the constraint set contains:
  - the naming constraints;
  - one difference constraint per labelled bit;
  - no `u` anywhere;
  - when the verdict can or cannot be "Impossible".
- `ReadTrails`: the trail-file reader of Keccak/code/read_trails.py. It is a method over the lines of the
  file, proved equal to a tail-recursive mirror of its three nested loops.
- `XoodooDdt`, `XoodooExtend`: extend_ddt.py.
  - The 3-bit chi and its difference distribution table.
  - The `Extend` class, which lists every extension of a two-round Xoodoo trail by one column-wise
    S-box layer on each side, with `dfs`.
  - Every non-zero row of the 3-bit table has exactly four entries, read off the table `Ddt3` of all
    `chi(a) ^ chi(a ^ d)`.
  - The number of extensions is proved to be the product of the table row sizes of the active columns,
    which is `4^max_weight`, the count the docstring of `extend_trail` gives.

Results that hold across the model:
- For Gimli, for Keccak (keccak.py and 4rkeccak.py) and for Ascon, the comparison always runs on a linear
  image of a freshly linearised state. So every quotient is a non-constant sum of fresh names, and the run
  can never end with "Impossible" (`GimliTrail.Expected`, `KeccakTrail.NotRefuted`, `AsconTrail.NotRefuted`).
- Xoodoo compares right after chi, so "Impossible" is reachable there (`XoodooTrail.ZeroInputRefuted`).
- 4rkeccak.py builds `ROUNDS+1` difference rows but compares only rows `1..ROUNDS-1`.
  - Its comment "4r: b0-->b1-->b2-->b3" describes a trail whose last state is the S-box input of the
    final round.
  - `KeccakFourRound.LastStateUnused` proves the last row has no effect on the result.
  - `KeccakFourRound.FixedHasLastState` and `KeccakFourRound.FixedSameOutcome` show the result is the same
    whether the reader keeps or drops a truncated final trail.
- 2rhash_Zong.py builds a difference row `w` (diff[1]) that is never compared. `AsconTrail.TrailIgnoresRow`
  proves the result does not depend on it.

## Model

| member | source | states |
|---|---|---|
| Anf.Const | gimli/code/gimli.py:416-417 | a Python integer label coerced into the ring is Zero or One (its value mod 2) |
| Anf.Add | gimli/code/gimli.py:185 | a monomial is in `p + q` exactly when it is in one of them and not both (XOR of ANF terms) |
| Anf.AddConstants | gimli/code/gimli.py:278 | adding the constants 0 and 1 is XOR of bits |
| Anf.ConstAdd | gimli/code/gimli.py:278 | adding two coerced integers equals coercing their sum |
| Anf.DivUMember | gimli/code/gimli.py:430 | `m` is in `p/u` exactly when `m` has no `u` and `m*u` is a term of `p` |
| Anf.DivUFree | gimli/code/gimli.py:430 | `p/u` never contains `u` |
| Anf.DivUAdd | gimli/code/gimli.py:430 | division by `u` is linear: `(p+q)/u == p/u + q/u` |
| Anf.DivUOfFree | gimli/code/gimli.py:430 | a polynomial without `u` divides to Zero |
| Anf.DivUConst | gimli/code/gimli.py:443-447 | a constant divides to Zero |
| Anf.DivUAtom | gimli/code/gimli.py:443-447 | a plain variable other than `u` divides to Zero |
| Anf.DivUAddConst | gimli/code/gimli.py:278 | adding a constant does not change the quotient by `u` |
| Anf.MulOne | gimli/code/gimli.py:166 | One is the left unit of multiplication |
| Anf.MulZero | gimli/code/gimli.py:166 | Zero times anything is Zero |
| Anf.MulConstants | gimli/code/gimli.py:166 | multiplying the constants 0 and 1 is AND of bits |
| Anf.MulConst | gimli/code/gimli.py:417 | `n*q` is Zero for even `n` and `q` for odd `n`, so `diff*u` seeds with 0 or `u` |
| Anf.MulFree | gimli/code/gimli.py:166 | a product of `u`-free polynomials is `u`-free |
| Anf.AddFree | gimli/code/gimli.py:185 | a sum of `u`-free polynomials is `u`-free |
| Anf.MulByU | gimli/code/gimli.py:431 | multiplying a `u`-free polynomial by `u` adds `u` to each of its terms |
| Anf.Decompose | gimli/code/gimli.py:430-431 | `(p/u)*u` is the part of `p` with `u` and `p + (p/u)*u` the part without, both quotients `u`-free |
| Anf.Recompose | gimli/code/gimli.py:430-437 | `p == a*u + b` for `a = p/u` and `b = p + a*u` |
| Anf.LinShape | gimli/code/gimli.py:437 | `NVa*u + NVb` has exactly the two terms `NVa*u` and `NVb` |
| Anf.DivULin | gimli/code/gimli.py:437-447 | the linearised bit `NVa*u + NVb` divides to `NVa`, which is not constant |
| Anf.ChiOfConstants | Keccak/code/keccak.py:110-116 | chi on constant bits `a0 + (1+a1)*a2` is the integer formula `a0 + (1-a1)*a2` mod 2 |
| Anf.DivUAll | gimli/code/gimli.py:443-454 | the quotient of every bit of a state, position by position |
| Anf.Atoms | gimli/code/gimli.py:411 | the state of plain variables `R(x(i))`, position by position |
| AnfRing.MulMember | gimli/code/gimli.py:166 | a monomial is in `p*q` exactly when an odd number of term pairs multiply to it (Boolean ring product) |
| AnfRing.MulCommutative | gimli/code/gimli.py:166 | `p*q == q*p` |
| AnfRing.MulOneRight | gimli/code/gimli.py:166 | One is a unit on both sides |
| AnfRing.MulMonomialSelf | gimli/code/gimli.py:166 | a monomial times itself is itself (idempotent variables) |
| AnfRing.AtomSelf | gimli/code/gimli.py:437 | `v*v == v` for every variable, including `u` |
| AnfRing.MulDistributes | gimli/code/gimli.py:185 | `p*(q+r) == p*q + p*r` |
| AnfRing.MulDistributesLeft | gimli/code/gimli.py:185 | `(q+r)*p == q*p + r*p` |
| AnfRing.MulAssociative | gimli/code/gimli.py:213 | `(p*q)*r == p*(q*r)` |
| Propagation.Target | gimli/code/gimli.py:443-462 | the constant that a cared label asks the quotient to equal is 0 or 1 |
| Propagation.Judge | gimli/code/gimli.py:443-462 | the verdict on one bit: it holds iff the label is ignored or the quotient is the label's constant; it is a contradiction iff the label is cared for and the quotient is the other constant; otherwise the constraint is `quotient + label`, with a non-constant quotient |
| Propagation.JudgeConstraintMeaning | gimli/code/gimli.py:452-462 | a recorded constraint is never Zero, and adding the label back gives the quotient |
| Propagation.SeedConst | gimli/code/gimli.py:416-417 | seeding with label 0 keeps the bit and seeding with label 1 adds `u` |
| Propagation.SeedDifference | gimli/code/gimli.py:416-417 | after seeding `x + d*u`, the quotient by `u` is the difference `d` |
| Propagation.SeedInput | gimli/code/gimli.py:416-417 | the seeding loop leaves `X[i] == x_i + d_i*u` at every position |
| Propagation.SeededDifference | gimli/code/gimli.py:411-417 | on the input state, every seeded bit's quotient is its difference label |
| Propagation.SplitSound | gimli/code/gimli.py:430-431 | the split `(a, b)` of a bit is `u`-free and recombines to the bit |
| Propagation.Linearise | gimli/code/gimli.py:427-435 | the loop leaves every bit as `NVa_i*u + NVb_i` and adds exactly the naming constraints `a_i + NVa_i`, `b_i + NVb_i` of the old state |
| Propagation.LinearisedDifference | gimli/code/gimli.py:437 | the linearised state divides to the state of `NVa` names |
| Propagation.NamingFree | gimli/code/gimli.py:433-436 | every naming constraint is free of `u` |
| Propagation.RequiredMember | gimli/code/gimli.py:452-462 | a non-constant quotient of a cared bit is recorded as `quotient + label` |
| Propagation.Check | gimli/code/gimli.py:440-462 | the comparison loop reports Impossible exactly when some cared bit has the wrong constant quotient; otherwise it adds exactly the required constraints |
| Propagation.RequiredFree | gimli/code/gimli.py:443-462 | every required constraint is free of `u` |
| Propagation.JudgeLin | gimli/code/gimli.py:437-462 | on a linearised bit, the verdict is the constraint `NVa + label` when the label is cared for, and holds otherwise |
| Propagation.CheckLinearised | gimli/code/gimli.py:437-462 | a linearised state is never refuted, and its required set is exactly `{NVa_i + label_i}` over the cared positions |
| Gimli.Index | gimli/code/gimli.py:109-110 | bit `b` of word `s_{i,j}` sits at `32*(4i+j) + b`, inside the 384-bit state |
| Gimli.IndexParts | gimli/code/gimli.py:109-110 | row, column and offset are recovered from an index |
| Gimli.IndexSplit | gimli/code/gimli.py:109-110 | every index below 384 is `Index` of its row, column and offset |
| Gimli.Word | gimli/code/gimli.py:109-110 | the slice `X[index_start[i][j]:index_end[i][j]]` is the 32 bits of word `s_{i,j}` |
| Gimli.BinDigitsBits | gimli/code/gimli.py:37-64 | the reversed binary digits of `n` are its bits, least significant first, and there are just enough of them |
| Gimli.PaddedBits | gimli/code/gimli.py:58-64 | padding the reversed digits with zeros to `length` gives bit `i` of `n` at position `i` |
| Gimli.Hex2Vector | gimli/code/gimli.py:37-64 | a vector exists iff `length` is a positive multiple of 8 and `n < 2^length` (the two `exit(1)` paths); its entry `i` is bit `i` of `n` |
| Gimli.ConstVec | gimli/code/gimli.py:278 | a 0/1 vector coerced into the ring, entry by entry |
| Gimli.CycleLShift | gimli/code/gimli.py:113-129 | defined iff the word has 32 bits; output bit `i` is input bit `(i - offset) mod 32` |
| Gimli.NoncycleLShift | gimli/code/gimli.py:131-148 | defined iff the word has 32 bits; output bit `i` is Zero below `offset` and input bit `i - offset` above |
| Gimli.VectorAnd | gimli/code/gimli.py:150-167 | defined iff both words have 32 bits; bit `i` is the product of the two bits |
| Gimli.OrOfConstants | gimli/code/gimli.py:185 | `a*b + a + b` on constant bits is their OR |
| Gimli.VectorOr | gimli/code/gimli.py:169-186 | defined iff both words have 32 bits; bit `i` is `a*b + a + b` |
| Gimli.VecAdd | gimli/code/gimli.py:213-215 | bitwise sum of two vectors of equal length |
| Gimli.SpBox | gimli/code/gimli.py:188-216 | defined iff all three words have 32 bits, and then returns three 32-bit words |
| Gimli.SpBoxAlgorithm1 | gimli/code/gimli.py:206-215 | the SP-box output satisfies Algorithm 1 of the Gimli paper bit by bit (`x <<< 24`, `y <<< 9`, then the three shift-and-combine equations) |
| Gimli.SpBoxBitZ | gimli/code/gimli.py:213 | new `z[i] = x'[i] + z[i-1] + (y' & z)[i-2]`, each shifted term Zero below its shift |
| Gimli.SpBoxBitY | gimli/code/gimli.py:214 | new `y[i] = y'[i] + x'[i] + (x' \| z)[i-1]` |
| Gimli.SpBoxBitX | gimli/code/gimli.py:215 | new `x[i] = z[i] + y'[i] + (x' & y')[i-3]` |
| Gimli.NonLinearColumns | gimli/code/gimli.py:229-232 | word `s_{i,j}` of the non-linear layer's output is word `i` of the SP-box applied to column `j` |
| Gimli.WriteColumn | gimli/code/gimli.py:231-232 | the slice assignment writes column `j` and leaves every other bit unchanged |
| Gimli.NonLinear | gimli/code/gimli.py:218-233 | the in-place column loop leaves the state equal to the non-linear layer of the old state |
| Gimli.MixSourceWord | gimli/code/gimli.py:246-257 | after mixing, word `s_{0,j}` comes from the swap partner of `j` and rows 1 and 2 stay in place |
| Gimli.LinearMixingWords | gimli/code/gimli.py:246-257 | the same statement on words of the mixed state: small swap when `r mod 4 == 0`, big swap when `r mod 4 == 2`, identity otherwise |
| Gimli.MixSourceRanges | gimli/code/gimli.py:246-257 | the swaps as index ranges: the small swap exchanges bits 0..31 with 32..63 and 64..95 with 96..127; the big swap exchanges 0..63 with 64..127 |
| Gimli.LinearMixingInvolution | gimli/code/gimli.py:235-258 | mixing twice with the same round number gives back the state |
| Gimli.SwapWords | gimli/code/gimli.py:248-251 | the tuple assignment exchanges two 32-bit slices and changes nothing else |
| Gimli.LinearMixing | gimli/code/gimli.py:235-258 | the in-place swaps leave the state equal to the linear mixing of the old state |
| Gimli.RoundConstWord | gimli/code/gimli.py:272-280 | when `r mod 4 == 0`, only word `s_{0,0}` changes, to `s_{0,0} + 0x9e377900 + r` in bits |
| Gimli.RoundConst | gimli/code/gimli.py:260-281 | the method leaves the state equal to the round-constant layer of the old state |
| Gimli.WriteFirstWord | gimli/code/gimli.py:279-280 | writing word `s_{0,0}` replaces the first 32 bits and nothing else |
| Gimli.StepConstOnlyWord00 | gimli/code/gimli.py:294-300 | a round with constant and a round without it differ only in the first 32 bits, and not at all when `r mod 4 != 0` |
| Gimli.Round | gimli/code/gimli.py:283-301 | it succeeds iff `rounds <= 28`, and then gives the rounds numbered 24, 23, ... applied in order; with more rounds, the round numbered -4 raises in `hex2vector` after its non-linear and mixing layers |
| Gimli.OneRound | gimli/code/gimli.py:295-300 | one iteration of the round loop: non-linear, mixing, constant |
| Gimli.OneRoundWithoutConst | gimli/code/gimli.py:315-318 | one iteration without the constant layer |
| Gimli.RoundWithoutConst | gimli/code/gimli.py:303-319 | the loop leaves the rounds without constant applied in order, none for `rounds <= 0` |
| Gimli.GroundTruth | gimli/code/gimli.py:336-349 | the 384 bits of the test vector |
| Gimli.CheckRound | gimli/code/gimli.py:321-353 | the result is true iff 24 rounds on the all-zero state give the test vector |
| GimliTrail.SetupOkFewer | gimli/code/6rattack.py:73 | a setup good for `n` rounds is good for fewer |
| GimliTrail.Inputs | gimli/code/6rattack.py:64 | the input state `R(x(i))` has 384 bits |
| GimliTrail.RoundNumber | gimli/code/6rattack.py:75 | the round number passed to the layers (`24 - r` in 6rattack.py and gimli.py, `24 - (r + 1)` in 8rattack.py) is one `round_const` accepts while `r + shift < 28` |
| GimliTrail.TiesStep | gimli/code/6rattack.py:121-141 | one more column `z` adds, for each tied row, the constraint `X[row,1,z]/u + X[row,3,z]/u` |
| GimliTrail.AddTies | gimli/code/6rattack.py:121-141 | the loops add exactly the tie constraints of the listed rows over all 32 columns |
| GimliTrail.TiesLinearised | gimli/code/6rattack.py:121-141 | on a linearised state a tie is the sum of the two words' `NVa` names |
| GimliTrail.State | gimli/code/6rattack.py:69-91 | the state after `n` rounds of seeding, layers and linearisation has 384 bits |
| GimliTrail.TrailNext | gimli/code/6rattack.py:73-141 | the constraints after `n + 1` rounds are those after `n` plus round `n`'s records |
| GimliTrail.Expected | gimli/code/6rattack.py:73-141 | the run aborts iff it reaches the round numbered -4 (`rounds + shift > 28`) and never ends with Impossible |
| GimliTrail.PropagateRound | gimli/code/6rattack.py:77-141 | one round on the array: the state moves to the next round's state, and the constraints grow by exactly that round's records |
| GimliTrail.RunRounds | gimli/code/6rattack.py:69-141 | seeding and the round loop give exactly the specified constraint set `Trail(S, n)` |
| GimliTrail.Propagate | gimli/code/6rattack.py:66-141 | the whole run returns the specified outcome |
| GimliTrail.RecordsShape | gimli/code/6rattack.py:83-141 | a round records exactly: the naming constraints of the round's layer output; `NVa_i + label_i` for each cared bit; and the ties `NVa[row,1,z] + NVa[row,3,z]` |
| GimliTrail.RecordsFree | gimli/code/6rattack.py:83-141 | no record of a round mentions `u` |
| GimliTrail.TrailFree | gimli/code/6rattack.py:66-141 | no constraint of the run mentions `u` |
| GimliTrail.TrailGrows | gimli/code/6rattack.py:66-141 | `Q` only grows: the constraints after `m` rounds are among those after `n >= m` |
| GimliTrail.TrailNames | gimli/code/6rattack.py:84-90 | for every round and bit, `a + NVa` and `b + NVb` of that round's layer output are in `Q` |
| GimliTrail.TrailDifferences | gimli/code/6rattack.py:94-116 | for every round and every cared bit, `NVa + label` is in `Q` |
| GimliTrail.TrailPinsZero | gimli/code/6rattack.py:107-116 | a bit labelled 0 puts its `NVa` name itself in `Q` |
| GimliTrail.TrailTies | gimli/code/6rattack.py:121-141 | every tie of every round is in `Q` |
| GimliTrail.RoundTie | gimli/code/6rattack.py:121-141 | every tie of a round is among that round's records |
| GimliTrail.InputDifference | gimli/code/6rattack.py:69-70 | the seeded input state divides to the input difference |
| GimliCheck.Bits32 | gimli/code/gimli.py:390-391 | `hex2vector(c, 32)` as a list of 32 bits |
| GimliCheck.WordsToBits | gimli/code/gimli.py:390-391 | the conversion loop turns each constant into its 32 bits |
| GimliCheck.TrailTable | gimli/code/gimli.py:394-409 | the table has `MAX_ROUNDS + 1` rows, each the trail row of its round |
| GimliCheck.TrailShape | gimli/code/gimli.py:396-409 | in every row, word 1 equals word 3 of the same state row, words 0 and 2 are zero, and rows above 6 are zero |
| GimliCheck.ZeroWords | gimli/code/gimli.py:394 | every word of the initial zero row is `Bits32(0)` |
| GimliCheck.RowIsTrail | gimli/code/gimli.py:394-409 | a row whose every word matches the trail's value for that word is the trail row |
| GimliCheck.SetSlice | gimli/code/gimli.py:396 | the slice assignment on a row writes 32 entries and nothing else |
| GimliCheck.InWord | gimli/code/gimli.py:109-110 | an index lies in the slice of word `(i', j')` iff it belongs to that word |
| GimliCheck.SetPair | gimli/code/gimli.py:396 | the chained assignment writes words 1 and 3 of one state row and leaves every other word |
| GimliCheck.WriteRow | gimli/code/gimli.py:396-409 | the assignments for one round build exactly that round's trail row |
| GimliCheck.BuildTable | gimli/code/gimli.py:394-409 | the table is built iff `MAX_ROUNDS >= 6` (else writing `diff[6]` raises IndexError), and is then the trail table |
| GimliCheck.ZeroRowsAbove | gimli/code/gimli.py:394 | rows 7 and above stay all zero |
| GimliCheck.NVa | gimli/code/gimli.py:374-380 | round `r`'s `NVa` names: 384 variables of block `1 + r` |
| GimliCheck.NVb | gimli/code/gimli.py:374-380 | round `r`'s `NVb` names: 384 variables of block `1 + MAX_ROUNDS + r` |
| GimliCheck.CheckSetupOk | gimli/code/gimli.py:374-417 | the setup built by `check_differential` is well formed up to `MAX_ROUNDS` rounds |
| GimliCheck.CheckDifferential | gimli/code/gimli.py:355-469 | the run aborts iff `rounds > MAX_ROUNDS`, `MAX_ROUNDS < 6` or `rounds > 28`; it never ends with Impossible; otherwise `Q` is the specified trail of `rounds` rounds |
| GimliCheck.CheckEveryBit | gimli/code/gimli.py:440-462 | for every round and bit, `NVa + diff[r+1][k]` is in `Q` (gimli.py cares about every bit) |
| GimliCheck.CheckInput | gimli/code/gimli.py:416-417 | every input bit divides to its `diff[0]` label |
| GimliCheck.CheckNamesFresh | gimli/code/gimli.py:374-380 | the `NVa` and `NVb` names are pairwise distinct, distinct from each other and from the inputs |
| GimliAttacks.Labels | gimli/code/6rattack.py:32-59 | the label table of an attack has `ROUNDS + 1` rows, each the attack's row for that round |
| GimliAttacks.MaskTable | gimli/code/6rattack.py:32 | a zero table with a set of words overwritten by -1 has `n + 1` rows of 384 labels |
| GimliAttacks.Ignore | gimli/code/6rattack.py:41-43 | one slice assignment of `[-1] * 32` adds that word to the masked set |
| GimliAttacks.MaskIsLabels | gimli/code/6rattack.py:39-59 | masking exactly the words the script ignores gives the attack's label table |
| GimliAttacks.ZeroTable | gimli/code/6rattack.py:32 | the fresh zero table is the table with no word masked |
| GimliAttacks.IgnoreAll | gimli/code/6rattack.py:45-52 | a chained assignment masks all the words it lists |
| GimliAttacks.SixRoundLabels | gimli/code/6rattack.py:32-59 | the three masking statements of 6rattack.py build the 6-round label table |
| GimliAttacks.EightRoundLabels | gimli/code/8rattack.py:32-53 | the two masking statements of 8rattack.py build the 8-round label table |
| GimliAttacks.DiffInput | gimli/code/6rattack.py:34-38 | the input difference is a 384-bit state |
| GimliAttacks.InputDifferenceOf | gimli/code/6rattack.py:34-38 | the slice assignments build exactly that input difference |
| GimliAttacks.DiffInputAt | gimli/code/8rattack.py:34-36 | bits 96..126 are the difference variables and bit 127 is One; for the 6-round attack also bits 32..62 and 63; every other bit is Zero |
| GimliAttacks.TiedRows | gimli/code/6rattack.py:121-141 | the rows tied in each round are state rows below 3 |
| GimliAttacks.AttackSetupOk | gimli/code/8rattack.py:26-36 | the attack's setup is well formed for all its rounds, and no round reaches the round numbered -4 |
| GimliAttacks.RunAttack | gimli/code/8rattack.py:58-113 | the attack's run gives exactly the specified constraint set |
| GimliAttacks.TiesMatchLabels | gimli/code/6rattack.py:39-59 | a row is tied in round `r` exactly when its words 1 and 3 are ignored in `diff[r+1]`; word 1 is ignored iff word 3 is |
| GimliAttacks.AttackPinsOpenBits | gimli/code/8rattack.py:88-113 | every bit whose label is not -1 pins its `NVa` name with the label in `Q` |
| GimliAttacks.SixRoundTies | gimli/code/6rattack.py:121-141 | every tie of the 6-round attack is an equation between `NVa` names in `Q` |
| GimliAttacks.AttackInput | gimli/code/6rattack.py:34-38 | every input bit divides to its difference label; bit 31 of `s_{0,3}` is 1; in the 6-round attack word `s_{0,1}` has the same difference as `s_{0,3}` |
| GimliAttacks.AttackNamesFresh | gimli/code/8rattack.py:26-28 | the round names, the inputs and the difference variables are pairwise distinct |
| Keccak.PosParts | Keccak/code/keccak.py:101-107 | bit `z` of lane `(x, y)` sits at `64*(5y+x) + z`, below 1600, and the coordinates are recovered from it |
| Keccak.PosSplit | Keccak/code/keccak.py:101-107 | every index below 1600 is the position of its own coordinates |
| Keccak.PosInjective | Keccak/code/keccak.py:101-107 | distinct coordinates give distinct positions |
| Keccak.PlaneSourceAt | Keccak/code/keccak.py:53-58 | entry `64i + j` of a shifted plane reads entry `64*((i-dx) mod 5) + (j-dz) mod 64` |
| Keccak.SinglePlane | Keccak/code/keccak.py:53-58 | the double loop builds the plane shifted by `dx` columns and `dz` bits |
| Keccak.ThetaSources | Keccak/code/keccak.py:65-71 | `E1` reads the parity of column `x-1` at the same `z`, and `E2` that of column `x+1` at `z-1` |
| Keccak.ColumnParities | Keccak/code/keccak.py:65-66 | `P[k]` is the sum of the five bits of column `k` |
| Keccak.AppendPlane | Keccak/code/keccak.py:70-83 | each of the five append loops extends `Y` by one plane of `X + E1 + E2` |
| Keccak.Theta | Keccak/code/keccak.py:60-84 | the method returns theta of its input |
| Keccak.ThetaAtIndex | Keccak/code/keccak.py:60-84 | bit `(x, y, z)` of theta's output is the input bit plus the parities of columns `(x-1, z)` and `(x+1, z-1)`: the Keccak-f theta step |
| Keccak.ThetaDifference | Keccak/code/keccak.py:60-84 | theta commutes with division by `u`: the quotient state of theta's output is theta of the quotient state |
| Keccak.ThetaFree | Keccak/code/keccak.py:60-84 | theta of a `u`-free state is `u`-free |
| Keccak.ThetaKeepsOwnVariable | Keccak/code/keccak.py:60-84 | on a state of distinct variables, bit `p` of theta's output still contains variable `p` |
| Keccak.RhoOffset | Keccak/code/keccak.py:94-98 | the rotation offset of lane `(x, y)` is the table entry `r[x][y]`, below 64 |
| Keccak.RhoF | Keccak/code/keccak.py:99-101 | rho keeps every bit in its own lane |
| Keccak.PiF | Keccak/code/keccak.py:103-107 | pi reads each output bit from the bit `PiSource` names |
| Keccak.SingleLane | Keccak/code/keccak.py:86-90 | output bit `i` of a lane is input bit `(i - dz) mod 64` |
| Keccak.RhoInLane | Keccak/code/keccak.py:99-101 | rho reads bit `z` of lane `(x, y)` from bit `(z - r[x][y]) mod 64` of the same lane |
| Keccak.RotateLane | Keccak/code/keccak.py:101 | one slice assignment rotates one more lane |
| Keccak.RotateLanes | Keccak/code/keccak.py:99-101 | the in-place double loop leaves rho of the old state |
| Keccak.PiSourceAt | Keccak/code/keccak.py:103-107 | output bit `(x, y, z)` of pi comes from input bit `(x + 3y mod 5, x, z)` |
| Keccak.PiTargetAt | Keccak/code/keccak.py:107 | input bit `(x, y, z)` goes to `(y, 2x + 3y mod 5, z)` |
| Keccak.PiSourceOfTarget | Keccak/code/keccak.py:103-107 | the source of a bit's target is that bit |
| Keccak.PiTargetOfSource | Keccak/code/keccak.py:103-107 | the target of a bit's source is that bit |
| Keccak.PiBijective | Keccak/code/keccak.py:103-107 | pi is a permutation of the 1600 positions, so the loop writes every bit of `Y` exactly once |
| Keccak.MoveLanes | Keccak/code/keccak.py:103-107 | the triple loop over a fresh zero state builds pi of the rotated state |
| Keccak.RhoPi | Keccak/code/keccak.py:92-108 | the input array is left rotated in place, and the returned array is pi of rho of the old input |
| Keccak.SboxRowIsChi | Keccak/code/keccak.py:110-116 | `SingleSbox` on the row `(y, z)` gives the chi output of that row |
| Keccak.Sbox | Keccak/code/keccak.py:119-133 | the loop over all 320 rows returns chi of the input: `A[x] + (1 + A[x+1]) * A[x+2]` in each row |
| Keccak.ChiBitOfConstants | Keccak/code/keccak.py:110-116 | on constant inputs chi is the bit formula `a0 + (1 - a1) * a2` mod 2 |
| Keccak.ChiFree | Keccak/code/keccak.py:119-133 | chi of a `u`-free state is `u`-free |
| Keccak.AddConst | Keccak/code/keccak.py:135-163 | the loop leaves iota of the old state: bit `i` of lane (0, 0) flips where the round constant has bit `i` set |
| Keccak.IotaDifference | Keccak/code/keccak.py:160-162 | iota does not change any bit's quotient by `u` |
| Keccak.IotaInvolution | Keccak/code/keccak.py:160-162 | adding the same constant twice gives back the state |
| Keccak.IotaFree | Keccak/code/keccak.py:160-162 | iota of a `u`-free state is `u`-free |
| Keccak.RhoPiDifference | Keccak/code/keccak.py:92-108 | rho and pi commute with division by `u` |
| Keccak.RhoPiFree | Keccak/code/keccak.py:92-108 | rho and pi keep a state `u`-free |
| Keccak.MixDifference | Keccak/code/keccak.py:258-260 | the quotient state after `rhoPi(theta(addConst(X)))` is `rhoPi(theta(quotients of X))` |
| Keccak.LinearLayersAt | Keccak/code/keccak.py:258-260 | bit `k` after theta, rho, pi is theta's bit at `RhoSource(PiSource(k))` |
| Keccak.LinearLayersNotConstant | Keccak/code/keccak.py:258-260 | on distinct variables, every bit after theta, rho and pi is not constant |
| Keccak.RoundsFree | Keccak/code/keccak.py:165-171 | the rounds keep a `u`-free state `u`-free |
| Keccak.StepFree | Keccak/code/keccak.py:166-170 | one round keeps a `u`-free state `u`-free |
| Keccak.RoundStep | Keccak/code/keccak.py:167-170 | one loop iteration returns the round theta, rho, pi, chi, iota with index `i` |
| Keccak.Round | Keccak/code/keccak.py:165-171 | it succeeds iff `r <= 24` (else `constant[24]` raises IndexError), and then returns rounds `0 .. r-1` applied in order; for `r <= 0` it is the input itself |
| KeccakTrail.ActiveRow | keccak/code/4rkeccak.py:205-213 | a difference row built from a list of active coordinates has 1600 labels |
| KeccakTrail.ActiveRowAt | keccak/code/4rkeccak.py:207-213 | the label at `(x, y, z)` is 1 iff the coordinate is in the list, and 0 iff it is not |
| KeccakTrail.BuildRow | Keccak/code/keccak.py:204-213 | the triple loop over `i, j, k` writes exactly the row of the listed coordinates |
| KeccakTrail.SetupOkAll | Keccak/code/keccak.py:196-200 | a setup is well formed for `n` rounds iff rows `0..n` have 1600 labels and every round's names are fresh |
| KeccakTrail.SetupOkFewer | Keccak/code/keccak.py:248 | a setup good for `n` rounds is good for fewer |
| KeccakTrail.State | Keccak/code/keccak.py:243-260 | the state after round `n` of seeding, chi, linearisation, iota, theta, rho and pi has 1600 bits |
| KeccakTrail.TrailHas | Keccak/code/keccak.py:248-281 | every round's records are in the final constraint set |
| KeccakTrail.TrailGains | Keccak/code/keccak.py:248-281 | the last round's records are in the constraint set |
| KeccakTrail.Done | Keccak/code/keccak.py:248 | the number of rounds the loop completes before it stops: `ROUNDS - 1` when `ROUNDS <= 24`, else the 23 rounds before `constant[24]` raises |
| KeccakTrail.Expected | Keccak/code/keccak.py:248-281 | the run aborts iff `ROUNDS > 24` (the round with index 24 has no constant) and never ends with Impossible |
| KeccakTrail.PropagateRound | Keccak/code/keccak.py:249-281 | one loop iteration moves the state to round `r`'s state and adds exactly round `r`'s records |
| KeccakTrail.SboxStage | Keccak/code/keccak.py:249-257 | chi then linearisation: the state becomes `NVa*u + NVb` and the naming constraints of chi's output are added |
| KeccakTrail.LinearStage | Keccak/code/keccak.py:258-281 | iota, theta, rho-pi and the comparison: the state becomes round `r`'s state and exactly its required constraints are added |
| KeccakTrail.RunRounds | Keccak/code/keccak.py:243-281 | seeding and `n` iterations give exactly the specified constraint set |
| KeccakTrail.Propagate | Keccak/code/keccak.py:243-281 | the run returns the specified outcome |
| KeccakTrail.StateDifference | Keccak/code/keccak.py:258-260 | the quotient state after round `r` is theta-rho-pi of the round's `NVa` names |
| KeccakTrail.DifferenceNotConstant | Keccak/code/keccak.py:261-281 | no quotient that the comparison examines is constant |
| KeccakTrail.NotRefuted | Keccak/code/keccak.py:261-281 | no round ends with Impossible |
| KeccakTrail.RequiredShape | Keccak/code/keccak.py:261-281 | a round's comparison adds, for every bit, its quotient plus its label |
| KeccakTrail.DifferenceKeepsName | Keccak/code/keccak.py:258-260 | the quotient of bit `i` contains the `NVa` name of the bit that rho and pi move to `i` |
| KeccakTrail.InputSeeding | Keccak/code/keccak.py:243-244 | input bit `i` is `x(i)` for label 0 and `x(i) + u` for label 1 |
| KeccakTrail.InputDifference | Keccak/code/keccak.py:243-244 | every input bit divides to its `diff[0]` label |
| KeccakTrail.RecordsFree | Keccak/code/keccak.py:255-281 | no record of a round mentions `u` |
| KeccakTrail.TrailFree | Keccak/code/keccak.py:245-281 | no constraint mentions `u` |
| KeccakTrail.TrailStep | Keccak/code/keccak.py:245-281 | `Q` only grows from one round to the next |
| KeccakTrail.RoundNames | Keccak/code/keccak.py:251-256 | `a + NVa` and `b + NVb` of every bit of chi's output are in that round's records |
| KeccakTrail.NamingInRecords | Keccak/code/keccak.py:250-256 | all naming constraints of a round are in its records |
| KeccakTrail.TrailNames | Keccak/code/keccak.py:250-256 | every naming constraint of every round is in the final `Q` |
| KeccakTrail.RoundDifference | Keccak/code/keccak.py:261-281 | every bit's `quotient + label` is in its round's records |
| KeccakTrail.RequiredHas | Keccak/code/keccak.py:261-281 | every bit's `quotient + label` is among the required constraints |
| KeccakTrail.TrailDifferences | Keccak/code/keccak.py:261-281 | every difference constraint of every round is in the final `Q` |
| KeccakTrail.TrailIgnoresLaterRow | keccak/code/4rkeccak.py:219-252 | changing a difference row beyond the last compared round leaves `Q` unchanged |
| KeccakTrail.TrailSameStep | Keccak/code/keccak.py:248-281 | two setups with equal constraints after `n - 1` rounds and equal records in round `n` have equal constraints after `n` |
| KeccakTrail.LaterRowOk | keccak/code/4rkeccak.py:203-213 | replacing a later row keeps the setup well formed, with the same names and earlier rows |
| KeccakTrail.RecordsSameRows | Keccak/code/keccak.py:249-281 | a round's records depend only on the names, `diff[0]` and that round's row |
| KeccakTrail.Names | Keccak/code/keccak.py:196-199 | block `k` of the ring: variable `i` is `x(1600k + i)` |
| KeccakTrail.NamesDisjoint | Keccak/code/keccak.py:196-199 | two block variables are equal iff block and offset are equal; block 0 is the input |
| KeccakTrail.NamesOkBlocks | Keccak/code/keccak.py:198-199 | two blocks of names are fresh enough for one round |
| KeccakTrail.BlockSetup | Keccak/code/keccak.py:198-199 | `a_vars[r]` is block `2r + 1` and `b_vars[r]` is block `2r + 2` |
| KeccakTrail.BlockSetupOk | Keccak/code/keccak.py:196-200 | the block naming gives a well-formed setup for rounds with 1600-label rows |
| KeccakTrail.BlocksFresh | Keccak/code/keccak.py:196-199 | all `a` and `b` names and inputs are pairwise distinct |
| KeccakTrail.MainSetup | Keccak/code/keccak.py:200-240 | the four hand-written rows of keccak.py with block naming form a setup good for 3 rounds |
| KeccakTrail.KeccakMain | Keccak/code/keccak.py:183-288 | the script's run with `ROUNDS = 4` ends with exactly the constraint set of 3 rounds of propagation |
| KeccakFourRound.TrailRows | keccak/code/4rkeccak.py:203-213 | the rows built from a trail are the active rows of its first states |
| KeccakFourRound.TrailSetup | keccak/code/4rkeccak.py:199-213 | the setup built from a trail with more than `ROUNDS` states is well formed for the rounds the loop runs |
| KeccakFourRound.Outcome4 | keccak/code/4rkeccak.py:187-252 | the run aborts iff the file has no trail (`trails[0]`), the first trail has at most `ROUNDS` states (`trail[ROUNDS]`) or `ROUNDS > 24`; it never ends with Impossible; otherwise `Q` is the constraint set of `ROUNDS - 1` rounds |
| KeccakFourRound.TrailRowsAt | keccak/code/4rkeccak.py:207-213 | row `r`'s label at `(x, y, z)` is 1 iff that coordinate is active in state `r` of the trail |
| KeccakFourRound.BuildRows | keccak/code/4rkeccak.py:203-213 | building fails iff the trail has at most `ROUNDS` states, and otherwise gives the rows of states `0..ROUNDS` |
| KeccakFourRound.Drive | keccak/code/4rkeccak.py:188-252 | the method returns the specified outcome for the trails read |
| KeccakFourRound.FourRoundMain | keccak/code/4rkeccak.py:184-252 | reading the file and running gives that outcome, and the same outcome with the corrected reader |
| KeccakFourRound.FixedSameOutcome | Keccak/code/read_trails.py:79-83 | the reader as written and the corrected reader fail on the same files, and give the same outcome otherwise |
| KeccakFourRound.FixedHasLastState | keccak/code/4rkeccak.py:188-213 | with the corrected reader the first trail has `ROUNDS + 1` states, so the run aborts only for `ROUNDS > 24` |
| KeccakFourRound.LastStateUnused | keccak/code/4rkeccak.py:198-252 | replacing the last state `trail[ROUNDS]` does not change the outcome |
| KeccakLinear.AffineAdd | compare_keccak_sat/code/keccak.py:259-265 | a sum of affine polynomials over the declared variables is affine |
| KeccakLinear.AffineConst | compare_keccak_sat/code/keccak.py:247 | a constant label is affine |
| KeccakLinear.AffineAtom | compare_keccak_sat/code/keccak.py:186-188 | a declared variable is affine |
| KeccakLinear.ParityAffine | compare_keccak_sat/code/keccak.py:254 | a column parity of an affine state is affine |
| KeccakLinear.ThetaAffine | compare_keccak_sat/code/keccak.py:254 | theta keeps a state affine |
| KeccakLinear.IotaAffine | compare_keccak_sat/code/keccak.py:253 | iota keeps a state affine |
| KeccakLinear.MixAffine | compare_keccak_sat/code/keccak.py:253-258 | `rhoPi(theta(addConst(.)))` keeps a state affine |
| KeccakLinear.ParitySum | compare_keccak_sat/code/keccak.py:259-260 | the parity of a bitwise sum is the sum of the parities |
| KeccakLinear.ThetaBitSum | compare_keccak_sat/code/keccak.py:259-260 | each theta output bit of a sum is the sum of the theta bits |
| KeccakLinear.ThetaSum | compare_keccak_sat/code/keccak.py:259-260 | theta is linear: `theta(A + B) == theta(A) + theta(B)` |
| KeccakLinear.IotaCancels | compare_keccak_sat/code/keccak.py:253-260 | the round constant added to both `X` and `Y` cancels in `X + Y` |
| KeccakLinear.MixSum | compare_keccak_sat/code/keccak.py:253-260 | `X + Y` after the linear layers of each is theta-rho-pi of `a + b`, with no round constant |
| KeccakLinear.AVars | compare_keccak_sat/code/keccak.py:187 | `a_vars[k]` is 1600 variables `x(1600k + i)` |
| KeccakLinear.BVars | compare_keccak_sat/code/keccak.py:188 | `b_vars[k]` is 1600 variables `x(1600(k + 2R - 2) + i)` |
| KeccakLinear.PairX | compare_keccak_sat/code/keccak.py:250-255 | `X` of round `r` is the linear layers applied to `a_vars[2r-1]`, 1600 bits |
| KeccakLinear.PairY | compare_keccak_sat/code/keccak.py:251-258 | `Y` of round `r` is the linear layers applied to `b_vars[2r-1]`, 1600 bits |
| KeccakLinear.EquationList | compare_keccak_sat/code/keccak.py:245-265 | one equation set for the start and one for each round up to `n` |
| KeccakLinear.SystemNext | compare_keccak_sat/code/keccak.py:248-265 | the system after round `n + 1` is that after `n` plus round `n + 1`'s equations |
| KeccakLinear.SystemStart | compare_keccak_sat/code/keccak.py:245-247 | before the loop, the system is the start equations |
| KeccakLinear.AddEach | compare_keccak_sat/code/keccak.py:259-260 | the loop adds every entry of the list to `Q` |
| KeccakLinear.Load | compare_keccak_sat/code/keccak.py:250-251 | the copy of a variable block is the state of those variables |
| KeccakLinear.LinearPart | compare_keccak_sat/code/keccak.py:253-258 | the three calls on the copy give `rhoPi(theta(addConst(vars, r)))` |
| KeccakLinear.EncodeRound | compare_keccak_sat/code/keccak.py:249-265 | one iteration adds exactly round `r`'s equations |
| KeccakLinear.LinearEncoding | compare_keccak_sat/code/keccak.py:243-265 | the whole encoding gives exactly the specified linear system |
| KeccakLinear.CompareMain | compare_keccak_sat/code/keccak.py:182-265 | the script with `ROUNDS = 4` and its four hand-written rows builds exactly that system |
| KeccakLinear.BlocksApart | compare_keccak_sat/code/keccak.py:186-188 | the `a` and `b` blocks are disjoint, distinct within themselves, and inside the declared ring |
| KeccakLinear.RoundListed | compare_keccak_sat/code/keccak.py:248-265 | entry `r` of the list is round `r`'s equations |
| KeccakLinear.RoundHas | compare_keccak_sat/code/keccak.py:248-265 | every equation of a round is in the final system |
| KeccakLinear.StartEquation | compare_keccak_sat/code/keccak.py:245-247 | `a_0[i] + b_0[i] + diff[0][i]` is in the system for every bit |
| KeccakLinear.DifferenceEquation | compare_keccak_sat/code/keccak.py:259-260 | for every round and bit, theta-rho-pi of `a_{2r-1} + b_{2r-1}` plus the label is in the system |
| KeccakLinear.ChainEquations | compare_keccak_sat/code/keccak.py:262-265 | before the last round, `X[i] + a_{2r}[i]` and `Y[i] + b_{2r}[i]` are in the system |
| KeccakLinear.LinearSystemAffine | compare_keccak_sat/code/keccak.py:243-265 | every equation is affine over the declared variables and free of `u`, so the CNF encoder receives a linear system |
| KeccakLinear.EquationsAffine | compare_keccak_sat/code/keccak.py:243-265 | each equation set is affine and free of `u` |
| KeccakLinear.AffineFree | compare_keccak_sat/code/keccak.py:186 | an affine polynomial over `x` variables has no `u` |
| ReadTrails.ContainsAt | Keccak/code/read_trails.py:32 | `find(start_sign) != -1` holds iff the sign occurs at some offset of the line |
| ReadTrails.StripNewlines | Keccak/code/read_trails.py:51 | `rstrip("\n")` removes exactly the trailing newlines: the result is a prefix, not ending in a newline, and only newlines were dropped |
| ReadTrails.Split | Keccak/code/read_trails.py:56 | `split("\|")` gives one piece more than the separators, no piece holds a separator, and joining the pieces gives the line back |
| ReadTrails.RemoveSpaces | Keccak/code/read_trails.py:62 | `replace(" ", "")` drops exactly the spaces and keeps every other character |
| ReadTrails.HexValue | Keccak/code/read_trails.py:13 | the value of a hex digit is below 16 |
| ReadTrails.ActiveBitsMembers | Keccak/code/read_trails.py:15-17 | the active bits of `v` are exactly the `i < n` with bit `i` of `v` set |
| ReadTrails.ActiveBitsAscending | Keccak/code/read_trails.py:15-17 | they are listed in increasing order |
| ReadTrails.ActiveHex | Keccak/code/read_trails.py:8-18 | it fails with a ValueError iff the character is not a hex digit; otherwise it returns exactly the set bits of the digit's value, ascending |
| ReadTrails.DigitOffset | Keccak/code/read_trails.py:74 | `z = tmpz + 4*(15-h)` recovers the digit and the bit in it |
| ReadTrails.PlacedMember | Keccak/code/read_trails.py:72-75 | a coordinate is appended for digit `h` iff it has the lane's `x`, `y` and `z - 4(15-h)` is an active bit |
| ReadTrails.PlacedAt | Keccak/code/read_trails.py:72-75 | digit `h` contributes exactly the `z` in `4(15-h) .. 4(16-h)-1` whose bit in the digit is set |
| ReadTrails.LaneBitsAt | Keccak/code/read_trails.py:67-75 | after `h` digits, a coordinate is read iff its `z` lies in the digits read and the digit `lane[15 - z/4]` has bit `z mod 4` set |
| ReadTrails.LaneBitsOk | Keccak/code/read_trails.py:67-75 | reading a lane fails iff one of its digits is neither `-` nor a hex digit |
| ReadTrails.LaneBitsStuck | Keccak/code/read_trails.py:72 | once a digit raises, reading further digits gives the same error |
| ReadTrails.LanesStuck | Keccak/code/read_trails.py:60-65 | once a lane raises, reading further lanes gives the same error |
| ReadTrails.LanesAt | Keccak/code/read_trails.py:60-75 | the coordinates read from the first `x` lanes are exactly the active bits of those lanes |
| ReadTrails.LanesOk | Keccak/code/read_trails.py:60-75 | reading the first `x` lanes succeeds iff each has 16 digits after removing spaces and every digit is valid |
| ReadTrails.PlaneBitsMeaning | Keccak/code/read_trails.py:51-75 | a plane line is read iff it is well formed (five lanes of 16 valid digits); then the coordinates read are exactly its active bits, all in range |
| ReadTrails.AppendPlaced | Keccak/code/read_trails.py:72-75 | the loop appends the placed coordinates of one digit |
| ReadTrails.ReadLane | Keccak/code/read_trails.py:67-75 | the digit loop returns the specified lane reading |
| ReadTrails.ReadPlane | Keccak/code/read_trails.py:51-75 | the plane's code returns the specified plane reading, with the ValueErrors of lines 57-59 and 63-65 |
| ReadTrails.StateFrom | Keccak/code/read_trails.py:48-80 | the plane loop advances through the lines and stops at the end of the file when it has fewer than five planes |
| ReadTrails.TrailFrom | Keccak/code/read_trails.py:42-83 | the state loop advances, counts `r` up to `ROUNDS + 1` and keeps at most one state fewer than it counted, only when the file ended |
| ReadTrails.ReadState | Keccak/code/read_trails.py:44-80 | the method returns the specified state reading |
| ReadTrails.ReadTrails | Keccak/code/read_trails.py:20-84 | the three nested loops return the specified reading of the file |
| ReadTrails.ReadInRange | Keccak/code/read_trails.py:20-84 | every coordinate read has `x < 5`, `y < 5` and `z < 64` |
| ReadTrails.ReadLengths | Keccak/code/read_trails.py:79-83 | every trail read has `ROUNDS + 1` states, except that the last may have `ROUNDS` |
| ReadTrails.ReadFixedComplete | Keccak/code/read_trails.py:79-83 | with the correction, every trail read has `ROUNDS + 1` states |
| ReadTrails.ReadFixedDrops | Keccak/code/read_trails.py:79-83 | the corrected reader is the reader as written minus the short trail |
| ReadTrails.ZeroPlaneBits | Keccak/code/read_trails.py:51-75 | a plane of five blank lanes is read with no active bit |
| ReadTrails.ZeroTrail | Keccak/code/read_trails.py:42-83 | reading zero states to the end of the file counts `ROUNDS + 1` states but keeps only `ROUNDS` |
| ReadTrails.TruncatedTrail | Keccak/code/read_trails.py:79-83 | for "β0" followed by `5*ROUNDS + 1` blank planes, the reader as written returns one trail of `ROUNDS` states, and the corrected reader returns none |
| ReadTrails.BlankLane | Keccak/code/read_trails.py:4 | sixteen `-` make a blank lane |
| Ascon.IndexParts | ascon/code/2rhash_Zong.py:35-39 | bit `j` of lane `l` sits at `64l + j`, and lane and offset are recovered from it |
| Ascon.IndexSplit | ascon/code/2rhash_Zong.py:35-39 | every index below 320 is `64*lane + offset` |
| Ascon.Word | ascon/code/2rhash_Zong.py:35-39 | the slice `X[64l : 64l+64]` is lane `l` |
| Ascon.MsbBits | ascon/code/2rhash_Zong.py:76 | `w >> (n-1-j) & 1` lists the bits of `w` most significant first |
| Ascon.MsbRoundTrip | ascon/code/2rhash_Zong.py:84-86 | reading those bits back as a number gives `w` for every `w < 2^n` |
| Ascon.WordRow | ascon/code/2rhash_Zong.py:84-95 | a row built from lane words has 320 labels |
| Ascon.WordRowDecodes | ascon/code/2rhash_Zong.py:84-95 | lane `l` of the row is the 64 bits of word `l` (zero for missing words), and decodes back to that word |
| Ascon.ConstantsFormula | ascon/code/2rhash_Zong.py:57-58 | the round constants are `0xf0 - 0x0f*r`, that is `16(15-r) + r`, each one byte |
| Ascon.AddConst | ascon/code/2rhash_Zong.py:56-63 | the loop leaves the state with the constant added at bits `184..191`, most significant bit first |
| Ascon.AddConstIsWordXor | ascon/code/2rhash_Zong.py:59-62 | each bit is the old bit plus the constant row's bit: the byte is XORed into the low byte of lane 2 |
| Ascon.AddConstDifference | ascon/code/2rhash_Zong.py:60-62 | adding the constant does not change any quotient by `u` |
| Ascon.AddConstInvolution | ascon/code/2rhash_Zong.py:60-62 | adding the constant twice gives back the state |
| Ascon.AddConstFree | ascon/code/2rhash_Zong.py:60-62 | adding the constant keeps a state `u`-free |
| Ascon.SboxSlice | ascon/code/2rhash_Zong.py:52-53 | the S-box layer writes slice `j` (bits `j, 64+j, .., 256+j`) with `SingleSbox` of that slice |
| Ascon.Sbox | ascon/code/2rhash_Zong.py:50-54 | the loop returns the S-box layer of the input |
| Ascon.SboxFree | ascon/code/2rhash_Zong.py:50-54 | the S-box layer keeps a state `u`-free |
| Ascon.SboxOnBitsIsTable | ascon/code/2rhash_Zong.py:42-48 | the five ANF formulas on bits compute the Ascon S-box table |
| Ascon.SboxBit0 | ascon/code/2rhash_Zong.py:43 | the ring formula for `x0` on constant bits is the bit formula for `x0` |
| Ascon.SboxBit1 | ascon/code/2rhash_Zong.py:44 | likewise for `x1` |
| Ascon.SboxBit2 | ascon/code/2rhash_Zong.py:45 | likewise for `x2` |
| Ascon.SboxBit3 | ascon/code/2rhash_Zong.py:46 | likewise for `x3` |
| Ascon.SboxBit4 | ascon/code/2rhash_Zong.py:47 | likewise for `x4` |
| Ascon.SboxOfConstants | ascon/code/2rhash_Zong.py:42-48 | on constant inputs `SingleSbox` gives constants whose 5-bit code is the table entry of the input's code |
| Ascon.SboxInjective | ascon/code/2rhash_Zong.py:42-48 | `SingleSbox` is injective on constant inputs |
| Ascon.TableInjective | ascon/code/2rhash_Zong.py:42-48 | the S-box table is a permutation of 0..31 |
| Ascon.TableInverse | ascon/code/2rhash_Zong.py:42-48 | the inverse table undoes the table |
| Ascon.RotSource | ascon/code/2rhash_Zong.py:31 | the index `(i + 64 - r) mod 64` is below 64 |
| Ascon.SingleMatrix | ascon/code/2rhash_Zong.py:28-32 | the loop returns `X[i] + X[(i + 64 - r0) mod 64] + X[(i + 64 - r1) mod 64]` for each `i` |
| Ascon.RotRAt | ascon/code/2rhash_Zong.py:31 | bit `i` of the rotation by `r` is input bit `(i + 64 - r) mod 64` |
| Ascon.SigmaIsRotations | ascon/code/2rhash_Zong.py:28-32 | `SingleMatrix(x, r0, r1)` is `x + (x >>> r0) + (x >>> r1)`, the Ascon linear layer on one lane |
| Ascon.MatrixAt | ascon/code/2rhash_Zong.py:34-40 | lane `l` of the layer's output is `SingleMatrix` of lane `l` with that lane's rotation pair |
| Ascon.Store | ascon/code/2rhash_Zong.py:35 | the slice assignment writes 64 bits and leaves the rest |
| Ascon.MatrixWord | ascon/code/2rhash_Zong.py:35-39 | one slice assignment transforms one more lane |
| Ascon.WordSigma | ascon/code/2rhash_Zong.py:35-39 | the value assigned to lane `l` is `SingleMatrix` of the old lane `l` |
| Ascon.Matrix | ascon/code/2rhash_Zong.py:34-40 | the five assignments leave the linear layer of the old state |
| Ascon.MatrixDifference | ascon/code/2rhash_Zong.py:34-40 | the linear layer commutes with division by `u` |
| Ascon.MatrixFree | ascon/code/2rhash_Zong.py:34-40 | the linear layer keeps a state `u`-free |
| Ascon.RotationsApart | ascon/code/2rhash_Zong.py:35-39 | the two rotations of each lane are distinct and neither is 0 |
| Ascon.MatrixOfAtoms | ascon/code/2rhash_Zong.py:31 | on plain variables, output bit `64l + j` is the sum of three distinct variables of lane `l` |
| Ascon.MatrixKeepsOwnVariable | ascon/code/2rhash_Zong.py:34-40 | on distinct variables every output bit contains its own variable and is not constant |
| Ascon.RotSourceMoves | ascon/code/2rhash_Zong.py:31 | a rotation by `0 < r < 64` moves every bit |
| AsconTrail.WordRowAt | ascon/code/2rhash_Zong.py:84-95 | label `64l + j` is bit `63 - j` of word `l` |
| AsconTrail.FillFirstWords | ascon/code/2rhash_Zong.py:75-77 | the loop writes `d0` into lane 0 of `diff[0]` and `d3` into lane 0 of `diff[3]` |
| AsconTrail.FillWords | ascon/code/2rhash_Zong.py:84-86 | the double loop writes the five words into the row |
| AsconTrail.SetupOkAll | ascon/code/2rhash_Zong.py:67-71 | a setup is well formed iff `diff[0]` and the compared rows have 320 labels and every round's names are fresh |
| AsconTrail.SetupOkFewer | ascon/code/2rhash_Zong.py:101 | a setup good for `n` rounds is good for fewer |
| AsconTrail.State | ascon/code/2rhash_Zong.py:98-112 | the state after `n` rounds of constant, S-box, linearisation and linear layer has 320 bits |
| AsconTrail.SboxOutput | ascon/code/2rhash_Zong.py:102-103 | the S-box output of round `r` has 320 bits |
| AsconTrail.TrailHas | ascon/code/2rhash_Zong.py:101-133 | every round's records are in the final constraint set |
| AsconTrail.TrailGains | ascon/code/2rhash_Zong.py:101-133 | the last round's records are in the constraint set |
| AsconTrail.TrailIs | ascon/code/2rhash_Zong.py:101-133 | the constraints after round `n` are those after `n - 1` plus round `n`'s records |
| AsconTrail.RecordsAre | ascon/code/2rhash_Zong.py:104-133 | a round records the naming constraints of its S-box output and the required constraints of `diff[r+2]` |
| AsconTrail.SboxStage | ascon/code/2rhash_Zong.py:102-111 | constant, S-box and linearisation: the state becomes `NVa*u + NVb` and the naming constraints are added |
| AsconTrail.LinearStage | ascon/code/2rhash_Zong.py:112-133 | the linear layer and the comparison: the state becomes the round's state and exactly its required constraints are added |
| AsconTrail.PropagateRound | ascon/code/2rhash_Zong.py:102-133 | one loop iteration moves to the next state and adds exactly the round's records |
| AsconTrail.Propagate | ascon/code/2rhash_Zong.py:97-133 | seeding and the loop return exactly the specified constraint set |
| AsconTrail.StateDifference | ascon/code/2rhash_Zong.py:112 | the quotient state after a round is the linear layer of the round's `NVa` names |
| AsconTrail.DifferenceNotConstant | ascon/code/2rhash_Zong.py:113-133 | no quotient that the comparison examines is constant |
| AsconTrail.NotRefuted | ascon/code/2rhash_Zong.py:113-133 | no round ends with Impossible |
| AsconTrail.DifferenceAt | ascon/code/2rhash_Zong.py:31 | the quotient of bit `64l + j` is the sum of three `NVa` names of lane `l` |
| AsconTrail.DifferenceKeepsName | ascon/code/2rhash_Zong.py:112 | the quotient of bit `i` contains its own `NVa` name |
| AsconTrail.RequiredShape | ascon/code/2rhash_Zong.py:113-133 | the comparison adds, for every bit, its quotient plus its label |
| AsconTrail.InputSeeding | ascon/code/2rhash_Zong.py:98-99 | input bit `i` is `x(i)` for label 0 and `x(i) + u` for label 1 |
| AsconTrail.InputDifference | ascon/code/2rhash_Zong.py:98-99 | every input bit divides to its `diff[0]` label |
| AsconTrail.RecordsFree | ascon/code/2rhash_Zong.py:104-133 | no record of a round mentions `u` |
| AsconTrail.TrailFree | ascon/code/2rhash_Zong.py:97-133 | no constraint mentions `u` |
| AsconTrail.TrailStep | ascon/code/2rhash_Zong.py:97-133 | `Q` only grows from one round to the next |
| AsconTrail.RoundNames | ascon/code/2rhash_Zong.py:105-110 | `a + NVa` and `b + NVb` of each S-box output bit are in the round's records |
| AsconTrail.TrailNames | ascon/code/2rhash_Zong.py:105-110 | every naming constraint of every round is in `Q` |
| AsconTrail.RoundDifference | ascon/code/2rhash_Zong.py:113-133 | every bit's `quotient + label` is in its round's records |
| AsconTrail.TrailDifferences | ascon/code/2rhash_Zong.py:113-133 | every difference constraint of every round is in `Q` |
| AsconTrail.TrailIgnoresRow | ascon/code/2rhash_Zong.py:78-86 | replacing `diff[1]` (the words `w`) or a row past the last compared one leaves `Q` unchanged |
| AsconTrail.UnreadRowOk | ascon/code/2rhash_Zong.py:78-86 | replacing an unread row keeps the setup well formed, with the same names and read rows |
| AsconTrail.RecordsSameRows | ascon/code/2rhash_Zong.py:101-133 | a round's records depend only on the names, `diff[0]` and the rows read up to it |
| AsconTrail.Names | ascon/code/2rhash_Zong.py:67-70 | block `k` of the ring: variable `i` is `x(320k + i)` |
| AsconTrail.NamesDisjoint | ascon/code/2rhash_Zong.py:67-70 | two block variables are equal iff block and offset are equal; block 0 is the input |
| AsconTrail.NamesOkBlocks | ascon/code/2rhash_Zong.py:69-70 | two blocks of names are fresh enough for one round |
| AsconTrail.BlockSetup | ascon/code/2rhash_Zong.py:69-70 | `a_vars[r]` is block `2r + 1` and `b_vars[r]` is block `2r + 2` |
| AsconTrail.BlockSetupOk | ascon/code/2rhash_Zong.py:67-71 | the block naming gives a well-formed setup |
| AsconTrail.BlocksFresh | ascon/code/2rhash_Zong.py:67-70 | all names and inputs are pairwise distinct |
| AsconTrail.MainSetup | ascon/code/2rhash_Zong.py:66-95 | the script's four rows and the block naming form a setup good for 2 rounds |
| AsconTrail.AsconMain | ascon/code/2rhash_Zong.py:65-136 | the script's run ends with exactly the constraint set of its 2 rounds |
| AsconTrail.MainInputWords | ascon/code/2rhash_Zong.py:73-76 | lane 0 of `diff[0]` decodes to `d0 = 0xe6765f2bfb737f78` and the other lanes to 0 |
| Xoodoo.PosParts | xoodoo/code/extension_trail_mess.py:31-36 | bit `(x, y, z)` sits at `128y + 32x + z` below 384, and its coordinates are recovered from it |
| Xoodoo.PosSplit | xoodoo/code/extension_trail_mess.py:31-36 | every index below 384 is the position of its coordinates |
| Xoodoo.ShiftSource | xoodoo/code/extension_trail_mess.py:35 | the index read for output bit `k` lies in the plane |
| Xoodoo.ShiftSourceAt | xoodoo/code/extension_trail_mess.py:33-35 | output `32i + j` reads input `32((i - t + 4) mod 4) + (j - v + 32) mod 32` |
| Xoodoo.SingleMatrix | xoodoo/code/extension_trail_mess.py:31-36 | the double loop returns the plane shifted by `t` along x and `v` along z |
| Xoodoo.ShiftTarget | xoodoo/code/extension_trail_mess.py:35 | the bit at `(x, z)` is read by output `((x + t) mod 4, (z + v) mod 32)` |
| Xoodoo.ShiftMoves | xoodoo/code/extension_trail_mess.py:31-36 | the shift moves bit `(x, z)` to `((x + t) mod 4, (z + v) mod 32)` |
| Xoodoo.ShiftInverse | xoodoo/code/extension_trail_mess.py:31-36 | shifting by `(-t, -v)` undoes shifting by `(t, v)` |
| Xoodoo.ShiftSourceInverse | xoodoo/code/extension_trail_mess.py:35 | the index maps of opposite shifts are inverse |
| Xoodoo.ShiftZero | xoodoo/code/extension_trail_mess.py:59 | the shift by `(0, 0)` is the identity |
| Xoodoo.ThetaAt | xoodoo/code/extension_trail_mess.py:48-55 | output bit `128y + j` is the input bit plus the two shifted parity planes at `j` |
| Xoodoo.ParityAt | xoodoo/code/extension_trail_mess.py:43-44 | the parity plane holds the sum of each column's three bits |
| Xoodoo.EffectAt | xoodoo/code/extension_trail_mess.py:45-46 | `E1` and `E2` at `(x, z)` are the parities of columns `(x - 1, z - 5)` and `(x - 1, z - 14)` |
| Xoodoo.ThetaCookbook | xoodoo/code/extension_trail_mess.py:38-56 | theta adds to each bit the parities of columns `(x - 1, z - 5)` and `(x - 1, z - 14)`, the Xoodoo theta |
| Xoodoo.ColumnParities | xoodoo/code/extension_trail_mess.py:43-44 | the loop returns the parity plane |
| Xoodoo.AppendPlane | xoodoo/code/extension_trail_mess.py:48-55 | one of the three loops appends one plane plus `E1 + E2` |
| Xoodoo.Theta | xoodoo/code/extension_trail_mess.py:38-56 | the function returns the theta of its input |
| Xoodoo.ThetaKernel | xoodoo/code/extension_trail_mess.py:38-56 | a state whose columns all have even parity is left unchanged |
| Xoodoo.ThetaDifference | xoodoo/code/extension_trail_mess.py:38-56 | theta commutes with division by `u` |
| Xoodoo.ThetaFree | xoodoo/code/extension_trail_mess.py:38-56 | theta keeps a state `u`-free |
| Xoodoo.PlanesSource | xoodoo/code/extension_trail_mess.py:58-63 | a plane move reads from the same plane |
| Xoodoo.PlaneMovedAt | xoodoo/code/extension_trail_mess.py:59-61 | one slice assignment shifts its own plane and leaves the others |
| Xoodoo.MovePlane | xoodoo/code/extension_trail_mess.py:59-61 | the slice assignment `X[128y : 128y+128] = SingleMatrix(..)` shifts plane `y` in place |
| Xoodoo.PlanesMoved | xoodoo/code/extension_trail_mess.py:58-63 | the three assignments move the three planes |
| Xoodoo.PlanesMovedAt | xoodoo/code/extension_trail_mess.py:58-63 | after the three assignments bit `k` comes from its plane-move source |
| Xoodoo.RhoWest | xoodoo/code/extension_trail_mess.py:58-63 | rho-west shifts plane 1 by `(1, 0)` and plane 2 by `(0, 11)` in place |
| Xoodoo.RhoEast | xoodoo/code/extension_trail_mess.py:85-89 | rho-east shifts plane 1 by `(0, 1)` and plane 2 by `(2, 8)` in place |
| Xoodoo.MovePlanesMoves | xoodoo/code/extension_trail_mess.py:58-63 | plane 0 stays, bit `(x, y, z)` of plane `y > 0` moves to `(x + t_y, y, z + v_y)` |
| Xoodoo.MovedFrom | xoodoo/code/extension_trail_mess.py:58-63 | the moved position reads back the original bit |
| Xoodoo.MovePlanesInverse | xoodoo/code/extension_trail_mess.py:58-89 | moving the planes by opposite shifts undoes the move |
| Xoodoo.PlanesSourceInverse | xoodoo/code/extension_trail_mess.py:58-89 | the index maps of opposite plane moves are inverse |
| Xoodoo.MovePlanesDifference | xoodoo/code/extension_trail_mess.py:58-89 | a plane move commutes with division by `u` |
| Xoodoo.MovePlanesFree | xoodoo/code/extension_trail_mess.py:58-89 | a plane move keeps a state `u`-free |
| Xoodoo.AddConst | xoodoo/code/extension_trail_mess.py:65-71 | the loop adds 1 to bit `i < 16` exactly where bit `i` of the round constant is set |
| Xoodoo.IotaLane | xoodoo/code/extension_trail_mess.py:68-70 | bit `k` changes iff bit `k` of `constant[r]` is 1 |
| Xoodoo.IotaDifference | xoodoo/code/extension_trail_mess.py:65-71 | adding the constant does not change any quotient by `u` |
| Xoodoo.IotaInvolution | xoodoo/code/extension_trail_mess.py:65-71 | adding the constant twice gives back the state |
| Xoodoo.IotaFree | xoodoo/code/extension_trail_mess.py:65-71 | adding the constant keeps a state `u`-free |
| Xoodoo.ChiColumn | xoodoo/code/extension_trail_mess.py:73-83 | output bit `(x, y, z)` is `a_y + (1 + a_{y+1}) a_{y+2}` on column `(x, z)` |
| Xoodoo.SboxColumnIsChi | xoodoo/code/extension_trail_mess.py:79-83 | each column of chi is `SingleSbox` of that column |
| Xoodoo.ColumnStep | xoodoo/code/extension_trail_mess.py:81-82 | one iteration writes one more column |
| Xoodoo.Chi | xoodoo/code/extension_trail_mess.py:79-83 | the loop returns chi of the input |
| Xoodoo.SboxOfConstants | xoodoo/code/extension_trail_mess.py:73-77 | on constant bits `SingleSbox` is the bitwise 3-bit chi |
| Xoodoo.ChiFree | xoodoo/code/extension_trail_mess.py:79-83 | chi keeps a state `u`-free |
| Xoodoo.ChiPlaneFree | xoodoo/code/extension_trail_mess.py:79-83 | each plane of chi of a `u`-free state is `u`-free |
| Xoodoo.Round | xoodoo/code/extension_trail_mess.py:91-98 | the loop returns two rounds of theta, rho-west, constant, chi and rho-east |
| Xoodoo.RoundFree | xoodoo/code/extension_trail_mess.py:91-98 | a round keeps a state `u`-free |
| Xoodoo.RoundsFree | xoodoo/code/extension_trail_mess.py:91-98 | any number of rounds keeps a state `u`-free |
| XoodooTrail.Reach | xoodoo/code/extension_trail_mess.py:134-174 | the rounds run before `addConst(X, r + 1)` runs out of the 12 constants: all of them iff `rounds <= 12` |
| XoodooTrail.StepAt | xoodoo/code/extension_trail_mess.py:134-174 | round `r` of the trace refutes, compares and names as the round specification says |
| XoodooTrail.InitialState | xoodoo/code/extension_trail_mess.py:124-133 | the state is `x(i) + diff[0][i] u` |
| XoodooTrail.LinearLayers | xoodoo/code/extension_trail_mess.py:171-173 | the three calls return rho-west of theta of rho-east of the state |
| XoodooTrail.MixRound | xoodoo/code/extension_trail_mess.py:171-174 | the linear layers and `addConst(X, r + 1)` succeed iff `r + 1` indexes a constant, and then give the next chi input |
| XoodooTrail.XoodooMess | xoodoo/code/extension_trail_mess.py:100-179 | the function's outcome is the specified run: Impossible, Aborted or exactly the collected constraints |
| XoodooTrail.XoodooMain | xoodoo/code/extension_trail_mess.py:181-196 | a solution without `ROUNDS + 1` states raises ValueError; otherwise the outcome is the run with the block naming |
| XoodooTrail.Names | xoodoo/code/extension_trail_mess.py:124-127 | block `k` names bit `i` as `x(384k + i)` |
| XoodooTrail.BlockSetup | xoodoo/code/extension_trail_mess.py:126-127 | `a_vars[r]` is block `2r + 1` and `b_vars[r]` block `2r + 2`, for `r < ROUNDS - 1` |
| XoodooTrail.BlockSetupOk | xoodoo/code/extension_trail_mess.py:122-133 | the block naming with `ROUNDS + 1` rows of 384 labels is a well-formed setup |
| XoodooTrail.NamesDisjoint | xoodoo/code/extension_trail_mess.py:124-127 | two names are equal iff block and offset are equal; block 0 is the input |
| XoodooTrail.NamesInRing | xoodoo/code/extension_trail_mess.py:122-127 | every auxiliary name lies in the declared block of `2(ROUNDS - 1)384 + 384` variables |
| XoodooTrail.WalkNext | xoodoo/code/extension_trail_mess.py:134-174 | a round that is not refuted and not the last adds its comparisons and names and moves on |
| XoodooTrail.PassSplit | xoodoo/code/extension_trail_mess.py:134-174 | no refutation from round `r` on iff none at `r` and none from `r + 1` on |
| XoodooTrail.WalkImpossible | xoodoo/code/extension_trail_mess.py:138-156 | the walk ends Impossible iff some remaining round refutes |
| XoodooTrail.WalkAborted | xoodoo/code/extension_trail_mess.py:171-174 | the walk aborts iff there are more than 12 rounds and no remaining round refutes |
| XoodooTrail.WalkConstraints | xoodoo/code/extension_trail_mess.py:134-177 | a walk that finishes returns the constraints gathered so far plus those of the remaining rounds |
| XoodooTrail.RunOutcome | xoodoo/code/extension_trail_mess.py:134-177 | Impossible iff some round refutes; Aborted iff `ROUNDS > 12` and none refutes; otherwise `Q` is the collected set |
| XoodooTrail.RoundFree | xoodoo/code/extension_trail_mess.py:138-168 | no comparison or naming constraint of a round mentions `u` |
| XoodooTrail.GatheredFree | xoodoo/code/extension_trail_mess.py:134-174 | the gathered constraints of `u`-free rounds are `u`-free |
| XoodooTrail.CollectedFree | xoodoo/code/extension_trail_mess.py:134-177 | no constraint in `Q` mentions `u` |
| XoodooTrail.GatheredCompared | xoodoo/code/extension_trail_mess.py:138-156 | every later round's comparison constraints are gathered |
| XoodooTrail.GatheredNamed | xoodoo/code/extension_trail_mess.py:160-168 | every later round's naming constraints are gathered |
| XoodooTrail.CollectedRounds | xoodoo/code/extension_trail_mess.py:134-177 | every round's comparison constraints, and the naming constraints of every round but the last, are in `Q` |
| XoodooTrail.InputDifference | xoodoo/code/extension_trail_mess.py:132-133 | every input bit divides to its `diff[0]` label |
| XoodooTrail.ChiInDifference | xoodoo/code/extension_trail_mess.py:168-174 | after round 0 the chi input's quotient is rho-west of theta of rho-east of the round's `a` names |
| XoodooTrail.NoInputDifference | xoodoo/code/extension_trail_mess.py:132-133 | with an all-even `diff[0]` the first chi input is `u`-free |
| XoodooTrail.ZeroInputRefuted | xoodoo/code/extension_trail_mess.py:136-145 | a zero input difference with some `diff[1]` bit equal to 1 ends Impossible |
| XoodooDdt.IndexBounds | xoodoo/code/extend_ddt.py:8-19 | `index(x, y, z)` is below 384 and its plane, lane and bit are recovered from it |
| XoodooDdt.IndexInjective | xoodoo/code/extend_ddt.py:8-19 | distinct coordinates have distinct indices |
| XoodooDdt.IndexOnto | xoodoo/code/extend_ddt.py:8-19 | every index below 384 is the index of its coordinates |
| XoodooDdt.XorSelf | xoodoo/code/extend_ddt.py:56-58 | `a ^ a == 0` |
| XoodooDdt.XorZero | xoodoo/code/extend_ddt.py:56-58 | `a ^ 0 == a` |
| XoodooDdt.XorBound | xoodoo/code/extend_ddt.py:56-58 | the XOR of two `n`-bit numbers has `n` bits |
| XoodooDdt.WrapIsMod | xoodoo/code/extend_ddt.py:37 | the wrapped index is `j mod n` |
| XoodooDdt.XorOfBits | xoodoo/code/extend_ddt.py:37 | on bits, XOR is addition mod 2 |
| XoodooDdt.ChiBitIs | xoodoo/code/extend_ddt.py:37 | chi output bit `i` is `x_i + (1 - x_{i+1}) x_{i+2}` mod 2 |
| XoodooDdt.ValueBound | xoodoo/code/extend_ddt.py:36-37 | a number built from `k` bits is below `2^k` |
| XoodooDdt.ValueBit | xoodoo/code/extend_ddt.py:36-37 | bit `i` of that number is the `i`-th bit listed |
| XoodooDdt.ChiBits | xoodoo/code/extend_ddt.py:21-38 | `chi(x, n)` is an `n`-bit number whose bit `i` is chi's bit `i` |
| XoodooDdt.ValueStep | xoodoo/code/extend_ddt.py:36-37 | one iteration adds chi bit `i` times `2^i` |
| XoodooDdt.ChiStep | xoodoo/code/extend_ddt.py:37 | the loop's XOR/AND expression is chi bit `i` |
| XoodooDdt.Chi | xoodoo/code/extend_ddt.py:21-38 | the two loops return `chi(x, n)` |
| XoodooDdt.BitList | xoodoo/code/extend_ddt.py:34-35 | `x_bin[j]` is bit `j` of `x` |
| XoodooDdt.PlaceFacts | xoodoo/code/extend_ddt.py:62 | the insertion point has only smaller entries before it |
| XoodooDdt.InsertShape | xoodoo/code/extend_ddt.py:62 | inserting keeps the entries before the point, puts `v` there and shifts the rest |
| XoodooDdt.PlaceAbove | xoodoo/code/extend_ddt.py:62 | in an ascending list the entries before the point are below `v` and the rest at least `v` |
| XoodooDdt.InsertFacts | xoodoo/code/extend_ddt.py:62 | inserting into an ascending list keeps it ascending (strictly, when `v` is new) and adds exactly `v` |
| XoodooDdt.SortUpToFacts | xoodoo/code/extend_ddt.py:62 | sorting a prefix gives an ascending list of the prefix's members, strict for distinct input |
| XoodooDdt.SortUpToShape | xoodoo/code/extend_ddt.py:62 | the sorted prefix is ascending and as long as the prefix |
| XoodooDdt.SortUpToMembers | xoodoo/code/extend_ddt.py:62 | the sorted prefix has the prefix's members |
| XoodooDdt.SortUpToStrict | xoodoo/code/extend_ddt.py:62 | the sorted prefix of distinct values is strictly ascending |
| XoodooDdt.SortedListFacts | xoodoo/code/extend_ddt.py:62 | `sorted` returns an ascending list of the same members and length |
| XoodooDdt.InsertPermutes | xoodoo/code/extend_ddt.py:62 | inserting adds exactly one copy of `v` |
| XoodooDdt.SortUpToPermutes | xoodoo/code/extend_ddt.py:62 | the sorted prefix is a permutation of the prefix |
| XoodooDdt.SortedListPermutes | xoodoo/code/extend_ddt.py:62 | `sorted` returns a permutation of its input |
| XoodooDdt.GetDdt | xoodoo/code/extend_ddt.py:40-63 | the table has the keys `d < 2^n`, each mapped to its row: sorted distinct output differences |
| XoodooDdt.DdtUpToStep | xoodoo/code/extend_ddt.py:52-62 | each outer iteration adds the row of one more input difference |
| XoodooDdt.RowOf | xoodoo/code/extend_ddt.py:53-62 | the inner loop and the sort return the row of `d` |
| XoodooDdt.SeenHas | xoodoo/code/extend_ddt.py:54-61 | `tmp` has no repeats and holds exactly the output differences of the inputs seen so far |
| XoodooDdt.RowFacts | xoodoo/code/extend_ddt.py:40-63 | a row is strictly ascending and holds `v` iff some input pair with difference `d` has output difference `v` |
| XoodooDdt.RowZero | xoodoo/code/extend_ddt.py:40-63 | input difference 0 gives only output difference 0 |
| XoodooDdt.RowEntries | xoodoo/code/extend_ddt.py:40-63 | every output difference has `n` bits |
| XoodooDdt.RowNonEmpty | xoodoo/code/extend_ddt.py:40-63 | every row is non-empty |
| XoodooDdt.Spread | xoodoo/code/extend_ddt.py:62 | a strictly ascending list of `k` entries spans at least `k - 1` |
| XoodooDdt.XorHalf | xoodoo/code/extend_ddt.py:56-58 | the lowest bit of `a ^ b` is set iff those of `a` and `b` differ, and `(a ^ b) >> 1 == (a >> 1) ^ (b >> 1)` |
| XoodooDdt.BitOfXor | xoodoo/code/extend_ddt.py:56-58 | bit `i` of `a ^ b` is set iff bits `i` of `a` and `b` differ |
| XoodooDdt.ThreeBits | xoodoo/code/extend_ddt.py:33-34 | a number below 8 is the sum of its three weighted bits |
| XoodooDdt.ChiOnBits | xoodoo/code/extend_ddt.py:36 | on single bits, `x_i ^ ((x_{i+1} ^ 1) & x_{i+2})` complements `x_i` iff `x_{i+1}` is clear and `x_{i+2}` is set |
| XoodooDdt.OutDiffBit | xoodoo/code/extend_ddt.py:55-58 | bit `i` of `chi(ax) ^ chi(ax ^ delta_a)` is the formula `DiffBit` of bits `i`, `i + 1`, `i + 2` of `ax` and `delta_a` |
| XoodooDdt.OutDiffBound | xoodoo/code/extend_ddt.py:55-58 | for 3 bits every output difference is below 8 |
| XoodooDdt.OutDiffIs | xoodoo/code/extend_ddt.py:55-58 | for 3 bits the output difference is `DiffFormula` of the six input and difference bits |
| XoodooDdt.Ddt3Formula | xoodoo/code/extend_ddt.py:55-58 | the table `Ddt3` lists `DiffFormula` for every pair of 3-bit values |
| XoodooDdt.OutDiffTable | xoodoo/code/extend_ddt.py:52-58 | for 3 bits, `chi(ax, 3) ^ chi(ax ^ delta_a, 3)` is entry `(ax, delta_a)` of the table `Ddt3` |
| XoodooDdt.SeenIs3 | xoodoo/code/extend_ddt.py:53-61 | for 3 bits, `tmp` after the first `k` inputs is the list of first appearances read off `Ddt3` |
| XoodooDdt.SeenFourA | xoodoo/code/extend_ddt.py:53-61 | for input differences 1 and 2, `tmp` ends with four entries |
| XoodooDdt.SeenFourB | xoodoo/code/extend_ddt.py:53-61 | for input differences 3 and 4, `tmp` ends with four entries |
| XoodooDdt.SeenFourC | xoodoo/code/extend_ddt.py:53-61 | for input differences 5 and 6, `tmp` ends with four entries |
| XoodooDdt.SeenFourD | xoodoo/code/extend_ddt.py:53-61 | for input difference 7, `tmp` ends with four entries |
| XoodooDdt.RowSizeThree | xoodoo/code/extend_ddt.py:40-63 | in `get_ddt(3)` every non-zero input difference has exactly four output differences |
| XoodooExtend.ColumnSum | xoodoo/code/extend_ddt.py:115-117 | a column's value is `A(x,0,z) + 2A(x,1,z) + 4A(x,2,z)` |
| XoodooExtend.ColumnBits | xoodoo/code/extend_ddt.py:115-117 | on a 0/1 state a column value is below 8 and bit `y` is the cell `(x, y, z)` |
| XoodooExtend.ColumnOfCells | xoodoo/code/extend_ddt.py:115-117 | a column's value depends only on its three cells |
| XoodooExtend.LaneUpToFacts | xoodoo/code/extend_ddt.py:111-122 | the lane scan lists exactly the nonzero columns of lane `x` below `z`, in order |
| XoodooExtend.LanesFacts | xoodoo/code/extend_ddt.py:110-122 | the scan lists exactly the nonzero columns of the lanes below `x`, in order |
| XoodooExtend.ActiveColsFacts | xoodoo/code/extend_ddt.py:107-122 | the active columns are exactly the nonzero columns `(x, z, value)`, in scan order |
| XoodooExtend.ColumnCells | xoodoo/code/extend_ddt.py:162-163 | the cells of column `(x, z)` are exactly `index(x, y, z)` for `y < 3` |
| XoodooExtend.SetColumnRead | xoodoo/code/extend_ddt.py:158-163 | after setting column `(x, z)` to `value < 8` it reads back `value` |
| XoodooExtend.ExtendedOutside | xoodoo/code/extend_ddt.py:155-164 | cells outside every changed column keep their value |
| XoodooExtend.ExtendedColumn | xoodoo/code/extend_ddt.py:155-164 | a column reads the value of its last change |
| XoodooExtend.ReachableStep | xoodoo/code/extend_ddt.py:135-142 | the search passes index `i` iff the active column has a table row and the search passes `i + 1` |
| XoodooExtend.PrefixedHas | xoodoo/code/extend_ddt.py:140-142 | a prefixed choice is the column followed by a choice of the rest |
| XoodooExtend.BranchesHas | xoodoo/code/extend_ddt.py:139-143 | a branch starts at the active column's position, with a value from the row, followed by a choice of the rest |
| XoodooExtend.ChoicesExact | xoodoo/code/extend_ddt.py:128-143 | the choices are exactly the column lists of length `m - i` that follow the active columns with table values |
| XoodooExtend.BranchesStep | xoodoo/code/extend_ddt.py:139-143 | each loop iteration appends the choices starting with the next row entry |
| XoodooExtend.BranchesCount | xoodoo/code/extend_ddt.py:139-143 | there are `|row|` times as many branches as choices of the rest |
| XoodooExtend.ChoicesCount | xoodoo/code/extend_ddt.py:128-143 | the number of choices is the product of the row sizes of the searched columns |
| XoodooExtend.SplitIsCut | xoodoo/code/extend_ddt.py:174-181 | both branches of print_extend cut `col + active_cols[max_weight:]` at `a1_weight` |
| XoodooExtend.ExtensionsConcat | xoodoo/code/extend_ddt.py:166-194 | the extensions of two lists of choices are concatenated |
| XoodooExtend.ExtensionsPrefixed | xoodoo/code/extend_ddt.py:140-142 | extending prefixed choices is extending with the column appended to `cur_col` |
| XoodooExtend.ExtensionsStep | xoodoo/code/extend_ddt.py:139-143 | one loop iteration adds the extensions of one more row entry |
| XoodooExtend.SearchBelow | xoodoo/code/extend_ddt.py:128-143 | the search prints one extension for each choice, in order |
| XoodooExtend.BranchesNone | xoodoo/code/extend_ddt.py:139 | before the loop nothing is printed |
| XoodooExtend.SearchStep | xoodoo/code/extend_ddt.py:139-143 | the loop invariant advances by one row entry |
| XoodooExtend.SearchLeaf | xoodoo/code/extend_ddt.py:135-137 | at depth `max_weight` the search prints exactly the current choice |
| XoodooExtend.SearchRow | xoodoo/code/extend_ddt.py:139-143 | after the loop over a whole row, the output is the search below `cur_col` |
| XoodooExtend.ColumnList.constructor | xoodoo/code/extend_ddt.py:206 | `cur_col` starts empty |
| XoodooExtend.Extend.constructor | xoodoo/code/extend_ddt.py:88-96 | the object holds the 3-bit table, the trail, the weight, nothing printed, and its active columns set |
| XoodooExtend.Extend.SetActiveCols | xoodoo/code/extend_ddt.py:98-126 | `active_cols` is the active columns of the first state followed by those of the last; `a1_weight` counts the first |
| XoodooExtend.Extend.ExtendByCol | xoodoo/code/extend_ddt.py:145-164 | the copy has each listed column set to its value |
| XoodooExtend.Extend.PrintExtend | xoodoo/code/extend_ddt.py:166-194 | one extension is printed: `b0`, the trail's inner states and `ar` |
| XoodooExtend.Extend.Dfs | xoodoo/code/extend_ddt.py:128-143 | the search returns normally iff `i <= max_weight <= len(active_cols)` and every searched column has a table row; it prints exactly the extensions of `cur_col`'s choices and restores `cur_col` |
| XoodooExtend.DdtUnique | xoodoo/code/extend_ddt.py:40-63 | the table is the unique 3-bit table |
| XoodooExtend.FoundStops | xoodoo/code/extend_ddt.py:204-207 | after a trail raises, later trails print nothing |
| XoodooExtend.ExtendOne | xoodoo/code/extend_ddt.py:205-207 | one trail prints its extensions and raises iff its search does |
| XoodooExtend.FoundStep | xoodoo/code/extend_ddt.py:204-207 | each trail appends its extensions to those printed so far |
| XoodooExtend.ExtendTrail | xoodoo/code/extend_ddt.py:197-207 | the loop prints the extensions of each trail until one raises |
| XoodooExtend.FoundCount | xoodoo/code/extend_ddt.py:197-207 | a trail prints as many extensions as the product of its searched rows' sizes |
| XoodooExtend.TrailActiveNonZero | xoodoo/code/extend_ddt.py:107-122 | every active column has a non-zero value |
| XoodooExtend.DdtRowFour | xoodoo/code/extend_ddt.py:40-63 | each non-zero row of the extender's table has four entries |
| XoodooExtend.ProductFour | xoodoo/code/extend_ddt.py:128-143 | when each searched column offers four values, the search from depth `i` to depth `m` has `4^(m - i)` leaves |
| XoodooExtend.FoundFour | xoodoo/code/extend_ddt.py:197-207 | a trail whose search goes through prints exactly `4^max_weight` extensions, the count the docstring gives |

## Left out

- KeccakFourRound.Outcome4: requires `rounds >= 1`, because with `ROUNDS <= 0` the block size `(2*ROUNDS - 1)*state` given to `declare_ring` is negative, and PolyBoRi's behaviour there is not part of this model.
- KeccakFourRound.Drive: requires `rounds >= 1`, for the same reason as `Outcome4`.
- KeccakFourRound.FourRoundMain: requires `rounds >= 1`, for the same reason as `Outcome4`.
- KeccakFourRound.FixedSameOutcome: requires `rounds >= 1`, for the same reason as `Outcome4`.
- KeccakFourRound.FixedHasLastState: requires `rounds >= 1`, for the same reason as `Outcome4`.
- KeccakFourRound.LastStateUnused: requires `rounds >= 1`, for the same reason as `Outcome4`.
- KeccakTrail.Done: requires `rounds >= 1`, because keccak.py declares a block of `(2*ROUNDS - 1)*state` variables, negative for `ROUNDS <= 0`.
- KeccakTrail.Expected: requires `rounds >= 1`, for the same reason as `Done`.
- KeccakTrail.Propagate: requires `rounds >= 1`, for the same reason as `Done`.
- KeccakLinear.BVars: requires `E.rounds >= 1`, because compare_keccak_sat/code/keccak.py declares `(4*ROUNDS - 4)*state` variables, negative for `ROUNDS <= 0`.
- XoodooTrail.XoodooMain: requires `rounds >= 1`, because extension_trail_mess.py declares `2*(ROUNDS-1)*384 + 384` variables and builds `ROUNDS - 1` name blocks, which is meaningless for `ROUNDS <= 0`.
- XoodooTrail.BlockSetup: requires `rounds >= 1`, for the same reason as `XoodooMain`.
- XoodooTrail.BlockSetupOk: requires `rounds >= 1`, for the same reason as `XoodooMain`.
- XoodooTrail.NamesInRing: requires `rounds >= 1`, for the same reason as `XoodooMain`.
- Gimli.CheckRound: the contract ties the result to the model's 24-round function on the zero state, but does not prove that the result is true (that the model reproduces the published test vector), because evaluating 24 symbolic rounds of 384 polynomials is beyond what the verifier handles within its limits.
- ReadTrails.HexValue: accepts only the ASCII digits `0-9`, `a-f` and `A-F`; Python's `int(c, 16)` also accepts other Unicode decimal digits, which the model turns into a ValueError.
- XoodooExtend.Extend.constructor: requires a trail with at least one state of 384 bits; with an empty or short trail the source raises IndexError inside `set_active_cols`, which is not modelled.
- Printing and logging: `print_state`, the text layout of `print_extend`, the `for q in Q: print(q)` loops and all `logger` calls are left out; the model records what would be printed as values (`Extension`, the constraint set).
- Command-line entry points: argparse handling and reading the solution files (`read_sol`, `read_sol_i`, which are not part of this model) are left out; their results are parameters. read_trails.py is modelled on the lines of the file, without the file I/O.
- Solving: `solve_sat`, the CNF encoding, DIMACS output and the calls to `exit` after solving are left out; the model stops at the constraint set.
- PolyBoRi: the ring is modelled as sets of monomials with the ring laws proved here; variable ordering, term orders and PolyBoRi's internal representation are not modelled.
- AsconTrail.Propagate: modelled for `ROUNDS <= 12` through `SetupOk` (`n <= |Constants|`); with `ROUNDS > 12` the script raises IndexError at `constant[r]` in `addConst` (ascon/code/2rhash_Zong.py:61), which is not modelled. The script fixes `ROUNDS = 2`, and `AsconMain` states that run.
- KeccakLinear.LinearEncoding: modelled for `2 <= ROUNDS <= 24` through `LinearOk`; with `ROUNDS = 1` the script raises IndexError at `a_vars[2*r]` (compare_keccak_sat/code/keccak.py:247, no `a_vars` block is declared), and with `ROUNDS > 24` it raises IndexError in `addConst` (called at line 253); neither failure is modelled. The script fixes `ROUNDS = 4`, and `CompareMain` states that instance.
- Xoodoo `round`: the helper in extension_trail_mess.py is modelled as written (two rounds with constants 0 and 1); the drivers never call it.
- Floating point, concurrency and timing do not occur in the core.

## Findings

| source | as written | input that shows it | evidently intended | confidence | as-written member | corrected member |
|---|---|---|---|---|---|---|
| Keccak/code/read_trails.py:79-83 | when the file ends inside the last state of a trail, the state loop has already counted `r` up to `ROUNDS + 1`, so the trail is appended with only `ROUNDS` states | a file holding "β0" followed by `5*ROUNDS + 1` blank planes | only trails with all `ROUNDS + 1` states are returned | not executed | ReadTrails.TruncatedTrail | ReadTrails.ReadFixedComplete |
