/** The column search of `xoodoo/code/extend_ddt.py`: the active columns of
    a trail's first and last states, the depth-first enumeration of DDT
    choices for the first `max_weight` of them, and the two extended states
    printed for each complete choice. */
module XoodooExtend {
  import opened Common
  import opened XoodooDdt

  const StateSize := 384

  /** A column change `(x, z, value)`. */
  datatype Col = Col(x: nat, z: nat, value: nat)

  /** What `print_extend` prints for one choice: the state one S-box before
      the trail, the trail's states but the last (printed as a1, a2, ...),
      and the state one S-box after it. */
  datatype Extension = Extension(b0: seq<nat>, middle: seq<seq<nat>>, ar: seq<nat>)

  predicate OnState(c: Col)
  {
    c.x < StateX && c.z < StateZ
  }

  /** The place of column (x, z) in the script's scan, x outer and z inner. */
  function Slot(c: Col): nat
  {
    StateZ * c.x + c.z
  }

  predicate SlotsAscending(cs: seq<Col>)
  {
    forall i, j :: 0 <= i < j < |cs| ==> Slot(cs[i]) < Slot(cs[j])
  }

  /** A state whose every entry is a bit. */
  predicate Bits(A: seq<nat>)
  {
    forall k :: 0 <= k < |A| ==> A[k] < 2
  }

  // ---------------------------------------------------------------------
  // Reading a column

  /** The lowest y bits of column (x, z), bit y of the column at weight
      2^y. */
  function ColumnUpTo(A: seq<nat>, x: nat, z: nat, y: nat): nat
    requires |A| == StateSize && x < StateX && z < StateZ && y <= StateY
  {
    if y == 0 then 0
    else
      IndexBounds(x, y - 1, z);
      ColumnUpTo(A, x, z, y - 1) + A[Index(x, y - 1, z)] * Pow2(y - 1)
  }

  /** Column (x, z) of A as the number the script computes. */
  function ColumnValue(A: seq<nat>, x: nat, z: nat): nat
    requires |A| == StateSize && x < StateX && z < StateZ
  {
    ColumnUpTo(A, x, z, StateY)
  }

  /** The column as the sum the loop over y adds up. */
  lemma ColumnSum(A: seq<nat>, x: nat, z: nat)
    requires |A| == StateSize && x < StateX && z < StateZ
    ensures Index(x, 0, z) < StateSize && Index(x, 1, z) < StateSize && Index(x, 2, z) < StateSize
    ensures ColumnValue(A, x, z) == A[Index(x, 0, z)] + 2 * A[Index(x, 1, z)] + 4 * A[Index(x, 2, z)]
  {
    IndexBounds(x, 0, z);
    IndexBounds(x, 1, z);
    IndexBounds(x, 2, z);
    assert ColumnUpTo(A, x, z, 1) == A[Index(x, 0, z)];
    assert ColumnUpTo(A, x, z, 2) == A[Index(x, 0, z)] + 2 * A[Index(x, 1, z)];
    assert Pow2(2) == 4;
  }

  /** The column of a bit state is a 3-bit number whose bit y is the bit at
      height y. */
  lemma ColumnBits(A: seq<nat>, x: nat, z: nat)
    requires |A| == StateSize && Bits(A) && x < StateX && z < StateZ
    ensures ColumnValue(A, x, z) < 8
    ensures forall y :: 0 <= y < StateY ==> Bit(ColumnValue(A, x, z), y) == A[Index(x, y, z)]
  {
    ColumnSum(A, x, z);
    var v := ColumnValue(A, x, z);
    assert Bit(v, 1) == (v / 2) % 2;
    assert Bit(v, 2) == (v / 2 / 2) % 2;
  }

  /** A column is read from its three cells only. */
  lemma ColumnOfCells(A: seq<nat>, B: seq<nat>, x: nat, z: nat)
    requires |A| == StateSize && |B| == StateSize && x < StateX && z < StateZ
    requires forall y :: 0 <= y < StateY ==> A[Index(x, y, z)] == B[Index(x, y, z)]
    ensures ColumnValue(A, x, z) == ColumnValue(B, x, z)
  {
    ColumnSum(A, x, z);
    ColumnSum(B, x, z);
  }

  // ---------------------------------------------------------------------
  // The active columns (`set_active_cols`)

  /** The nonzero column (x, z), as the one-element list the scan appends,
      or nothing. */
  function ActiveAt(A: seq<nat>, x: nat, z: nat): seq<Col>
    requires |A| == StateSize && x < StateX && z < StateZ
  {
    var v := ColumnValue(A, x, z);
    if v != 0 then [Col(x, z, v)] else []
  }

  lemma AppendAssociative<T>(a: seq<T>, b: seq<T>, c: seq<T>)
    ensures a + b + c == a + (b + c)
  {
  }

  lemma AppendEmpty<T>(a: seq<T>)
    ensures a + [] == a
  {
  }

  /** The active columns (x, z') with z' < z, in scan order. */
  function LaneUpTo(A: seq<nat>, x: nat, z: nat): seq<Col>
    requires |A| == StateSize && x < StateX && z <= StateZ
  {
    if z == 0 then [] else LaneUpTo(A, x, z - 1) + ActiveAt(A, x, z - 1)
  }

  /** The active columns of the lanes before x, in scan order. */
  function Lanes(A: seq<nat>, x: nat): seq<Col>
    requires |A| == StateSize && x <= StateX
  {
    if x == 0 then [] else Lanes(A, x - 1) + LaneUpTo(A, x - 1, StateZ)
  }

  /** Every active column of A, in scan order. */
  function ActiveCols(A: seq<nat>): seq<Col>
    requires |A| == StateSize
  {
    Lanes(A, StateX)
  }

  lemma {:induction false} LaneUpToFacts(A: seq<nat>, x: nat, z: nat)
    requires |A| == StateSize && x < StateX && z <= StateZ
    ensures forall c :: c in LaneUpTo(A, x, z) <==>
      c.x == x && c.z < z && c.value != 0 && c.value == ColumnValue(A, c.x, c.z)
    ensures SlotsAscending(LaneUpTo(A, x, z))
  {
    if z > 0 {
      LaneUpToFacts(A, x, z - 1);
      var L := LaneUpTo(A, x, z - 1);
      forall i, j | 0 <= i < j < |LaneUpTo(A, x, z)|
        ensures Slot(LaneUpTo(A, x, z)[i]) < Slot(LaneUpTo(A, x, z)[j])
      {
        if j == |L| {
          assert LaneUpTo(A, x, z)[i] == L[i] && L[i] in L;
        }
      }
    }
  }

  lemma {:induction false} LanesFacts(A: seq<nat>, x: nat)
    requires |A| == StateSize && x <= StateX
    ensures forall c :: c in Lanes(A, x) <==>
      c.x < x && c.z < StateZ && c.value != 0 && c.value == ColumnValue(A, c.x, c.z)
    ensures SlotsAscending(Lanes(A, x))
  {
    if x > 0 {
      LanesFacts(A, x - 1);
      LaneUpToFacts(A, x - 1, StateZ);
      var P, L := Lanes(A, x - 1), LaneUpTo(A, x - 1, StateZ);
      forall i, j | 0 <= i < j < |P + L|
        ensures Slot((P + L)[i]) < Slot((P + L)[j])
      {
        if i < |P| && |P| <= j {
          assert (P + L)[i] == P[i] && P[i] in P;
          assert (P + L)[j] == L[j - |P|] && L[j - |P|] in L;
        }
      }
    }
  }

  /** The active columns of A are exactly its nonzero columns, each with
      its value, listed in scan order, so no column twice. */
  lemma ActiveColsFacts(A: seq<nat>)
    requires |A| == StateSize
    ensures forall c :: c in ActiveCols(A) <==>
      OnState(c) && c.value != 0 && c.value == ColumnValue(A, c.x, c.z)
    ensures SlotsAscending(ActiveCols(A))
  {
    LanesFacts(A, StateX);
  }

  // ---------------------------------------------------------------------
  // Writing columns (`extend_by_col`)

  /** Position k lies in column (x, z). */
  predicate InColumn(k: nat, x: nat, z: nat)
  {
    k % 128 / 32 == x && k % 32 == z
  }

  /** A with column c.(x, z) set to the low bits of c.value. */
  function SetColumn(A: seq<nat>, c: Col): (B: seq<nat>)
    ensures |B| == |A|
  {
    seq(|A|, k requires 0 <= k < |A| => if InColumn(k, c.x, c.z) then Bit(c.value, k / 128) else A[k])
  }

  /** A with the first n column changes applied in order. */
  function ExtendedUpTo(A: seq<nat>, cols: seq<Col>, n: nat): (B: seq<nat>)
    requires n <= |cols|
    ensures |B| == |A|
  {
    if n == 0 then A else SetColumn(ExtendedUpTo(A, cols, n - 1), cols[n - 1])
  }

  function ExtendedBy(A: seq<nat>, cols: seq<Col>): seq<nat>
  {
    ExtendedUpTo(A, cols, |cols|)
  }

  /** The positions of column (x, z) are its three cells. */
  lemma ColumnCells(x: nat, z: nat)
    requires x < StateX && z < StateZ
    ensures forall k :: 0 <= k < StateSize && InColumn(k, x, z) ==> k == Index(x, k / 128, z) && k / 128 < StateY
    ensures forall y :: 0 <= y < StateY ==> InColumn(Index(x, y, z), x, z) && Index(x, y, z) / 128 == y
  {
    forall k | 0 <= k < StateSize && InColumn(k, x, z)
      ensures k == Index(x, k / 128, z) && k / 128 < StateY
    {
      IndexOnto(k);
    }
    forall y | 0 <= y < StateY
      ensures InColumn(Index(x, y, z), x, z) && Index(x, y, z) / 128 == y
    {
      IndexBounds(x, y, z);
    }
  }

  /** Setting a column of a 384-bit state to a 3-bit value and reading it
      back gives that value. */
  lemma SetColumnRead(A: seq<nat>, c: Col)
    requires |A| == StateSize && OnState(c) && c.value < 8
    ensures ColumnValue(SetColumn(A, c), c.x, c.z) == c.value
  {
    var B := SetColumn(A, c);
    ColumnCells(c.x, c.z);
    ColumnSum(B, c.x, c.z);
    ThreeBits(c.value);
  }

  /** A position outside every changed column keeps its bit. */
  lemma {:induction false} ExtendedOutside(A: seq<nat>, cols: seq<Col>, n: nat, k: nat)
    requires n <= |cols| && k < |A|
    requires forall j :: 0 <= j < n ==> !InColumn(k, cols[j].x, cols[j].z)
    ensures ExtendedUpTo(A, cols, n)[k] == A[k]
  {
    if n > 0 {
      ExtendedOutside(A, cols, n - 1, k);
    }
  }

  /** A column change that no later change overrides leaves its value in
      the extended state. */
  lemma {:induction false} ExtendedColumn(A: seq<nat>, cols: seq<Col>, n: nat, j: nat)
    requires |A| == StateSize && j < n <= |cols|
    requires OnState(cols[j]) && cols[j].value < 8
    requires forall i :: j < i < n ==> Slot(cols[i]) != Slot(cols[j])
    ensures ColumnValue(ExtendedUpTo(A, cols, n), cols[j].x, cols[j].z) == cols[j].value
  {
    var c := cols[j];
    if n == j + 1 {
      SetColumnRead(ExtendedUpTo(A, cols, j), c);
    } else {
      ExtendedColumn(A, cols, n - 1, j);
      var d := cols[n - 1];
      ColumnCells(c.x, c.z);
      forall y | 0 <= y < StateY
        ensures ExtendedUpTo(A, cols, n)[Index(c.x, y, c.z)] == ExtendedUpTo(A, cols, n - 1)[Index(c.x, y, c.z)]
      {
        assert !InColumn(Index(c.x, y, c.z), d.x, d.z) by {
          assert Slot(d) != Slot(c);
        }
      }
      ColumnOfCells(ExtendedUpTo(A, cols, n), ExtendedUpTo(A, cols, n - 1), c.x, c.z);
    }
  }

  // ---------------------------------------------------------------------
  // The search (`dfs`)

  /** The search from depth i neither runs off the active columns nor looks
      up a value the table has no row for. */
  predicate Reachable(active: seq<Col>, ddt: map<nat, seq<nat>>, i: nat, m: int)
  {
    i <= m <= |active| && forall j :: i <= j < m ==> active[j].value in ddt
  }

  /** Below the end, depth i is reachable exactly when its column has a
      row and depth i + 1 is reachable. */
  lemma ReachableStep(active: seq<Col>, ddt: map<nat, seq<nat>>, i: nat, m: int)
    requires i < |active| && i != m
    ensures Reachable(active, ddt, i, m) <==> active[i].value in ddt && Reachable(active, ddt, i + 1, m)
  {
  }

  /** The column choices for active columns i up to m, in the order the
      search visits them. */
  function Choices(active: seq<Col>, ddt: map<nat, seq<nat>>, i: nat, m: nat): seq<seq<Col>>
    requires Reachable(active, ddt, i, m)
    decreases m - i, 1, 0
  {
    if i == m then [[]] else Branches(active, ddt, i, m, ddt[active[i].value])
  }

  /** The choices whose column i takes a value of row, in row order. */
  function Branches(active: seq<Col>, ddt: map<nat, seq<nat>>, i: nat, m: nat, row: seq<nat>): seq<seq<Col>>
    requires Reachable(active, ddt, i, m) && i < m
    decreases m - i, 0, |row|
  {
    if row == [] then []
    else
      Branches(active, ddt, i, m, row[..|row| - 1])
      + Prefixed(Col(active[i].x, active[i].z, row[|row| - 1]), Choices(active, ddt, i + 1, m))
  }

  function Prefixed(c: Col, ts: seq<seq<Col>>): (r: seq<seq<Col>>)
    ensures |r| == |ts|
  {
    seq(|ts|, k requires 0 <= k < |ts| => [c] + ts[k])
  }

  /** A list of column changes for active columns i, i + 1, ... that keeps
      each column's place and takes a value its DDT row allows. */
  predicate Fits(active: seq<Col>, ddt: map<nat, seq<nat>>, i: nat, t: seq<Col>)
    requires i + |t| <= |active|
  {
    forall k :: 0 <= k < |t| ==>
      t[k].x == active[i + k].x && t[k].z == active[i + k].z
      && active[i + k].value in ddt && t[k].value in ddt[active[i + k].value]
  }

  /** The number of choices from depth i: the product of the row sizes. */
  function Product(active: seq<Col>, ddt: map<nat, seq<nat>>, i: nat, m: nat): int
    requires Reachable(active, ddt, i, m)
    decreases m - i
  {
    if i == m then 1 else |ddt[active[i].value]| * Product(active, ddt, i + 1, m)
  }

  lemma PrefixedHas(c: Col, ts: seq<seq<Col>>, t: seq<Col>)
    ensures t in Prefixed(c, ts) <==> |t| > 0 && t[0] == c && t[1..] in ts
  {
    if |t| > 0 && t[0] == c && t[1..] in ts {
      var k :| 0 <= k < |ts| && ts[k] == t[1..];
      assert Prefixed(c, ts)[k] == t;
    }
  }

  lemma {:induction false} BranchesHas(active: seq<Col>, ddt: map<nat, seq<nat>>, i: nat, m: nat, row: seq<nat>, t: seq<Col>)
    requires Reachable(active, ddt, i, m) && i < m
    ensures t in Branches(active, ddt, i, m, row) <==>
      |t| > 0 && t[0].x == active[i].x && t[0].z == active[i].z && t[0].value in row
      && t[1..] in Choices(active, ddt, i + 1, m)
    decreases |row|
  {
    if row != [] {
      var last := Col(active[i].x, active[i].z, row[|row| - 1]);
      BranchesHas(active, ddt, i, m, row[..|row| - 1], t);
      PrefixedHas(last, Choices(active, ddt, i + 1, m), t);
      assert row == row[..|row| - 1] + [row[|row| - 1]];
    }
  }

  /** The search visits exactly the choices that fit, each of length
      m - i. */
  lemma {:induction false} ChoicesExact(active: seq<Col>, ddt: map<nat, seq<nat>>, i: nat, m: nat, t: seq<Col>)
    requires Reachable(active, ddt, i, m)
    ensures t in Choices(active, ddt, i, m) <==> |t| == m - i && Fits(active, ddt, i, t)
    decreases m - i
  {
    if i < m {
      BranchesHas(active, ddt, i, m, ddt[active[i].value], t);
      if |t| > 0 {
        ChoicesExact(active, ddt, i + 1, m, t[1..]);
        if |t| == m - i {
          assert Fits(active, ddt, i, t) <==>
            (t[0].x == active[i].x && t[0].z == active[i].z && t[0].value in ddt[active[i].value]
             && Fits(active, ddt, i + 1, t[1..])) by {
            if Fits(active, ddt, i + 1, t[1..]) {
              forall k | 1 <= k < |t|
                ensures t[k] == t[1..][k - 1]
              {
              }
            }
          }
        }
      }
    } else {
      assert t in [[]] <==> t == [];
    }
  }

  /** One more row entry adds its choices at the end. */
  lemma BranchesStep(active: seq<Col>, ddt: map<nat, seq<nat>>, i: nat, m: nat, row: seq<nat>, k: nat)
    requires Reachable(active, ddt, i, m) && i < m && k < |row|
    ensures Branches(active, ddt, i, m, row[..k + 1]) == Branches(active, ddt, i, m, row[..k])
      + Prefixed(Col(active[i].x, active[i].z, row[k]), Choices(active, ddt, i + 1, m))
  {
    assert row[..k + 1][..k] == row[..k];
  }

  lemma {:induction false} BranchesCount(active: seq<Col>, ddt: map<nat, seq<nat>>, i: nat, m: nat, row: seq<nat>)
    requires Reachable(active, ddt, i, m) && i < m
    ensures |Branches(active, ddt, i, m, row)| == |row| * |Choices(active, ddt, i + 1, m)|
    decreases |row|
  {
    if row != [] {
      BranchesCount(active, ddt, i, m, row[..|row| - 1]);
      var n := |Choices(active, ddt, i + 1, m)|;
      assert (|row| - 1) * n + n == |row| * n;
    }
  }

  /** The search visits as many choices as the product of the sizes of
      the DDT rows of the columns it varies. */
  lemma {:induction false} ChoicesCount(active: seq<Col>, ddt: map<nat, seq<nat>>, i: nat, m: nat)
    requires Reachable(active, ddt, i, m)
    ensures |Choices(active, ddt, i, m)| == Product(active, ddt, i, m)
    decreases m - i
  {
    if i < m {
      var row := ddt[active[i].value];
      ChoicesCount(active, ddt, i + 1, m);
      BranchesCount(active, ddt, i, m, row);
      assert Choices(active, ddt, i, m) == Branches(active, ddt, i, m, row);
      assert Product(active, ddt, i, m) == |row| * Product(active, ddt, i + 1, m);
    }
  }

  // ---------------------------------------------------------------------
  // The split (`print_extend`)

  /** Python's `s[i:j]` for non-negative bounds: clipped to the list. */
  function Slice(s: seq<Col>, i: nat, j: nat): seq<Col>
  {
    var hi := if j < |s| then j else |s|;
    var lo := if i < hi then i else hi;
    s[lo..hi]
  }

  /** `col0` and `colr` of `print_extend` for the choice col. */
  function Split(col: seq<Col>, active: seq<Col>, a1: nat, m: nat): (seq<Col>, seq<Col>)
  {
    if a1 >= m then (col + Slice(active, m, a1), Slice(active, a1, |active|))
    else (Slice(col, 0, a1), Slice(col, a1, m) + Slice(active, m, |active|))
  }

  /** Both branches cut the same list: the choice followed by the unchosen
      active columns, split after the first a1 entries, so the backward
      part covers the columns of the first state and the forward part those
      of the last. */
  lemma SplitIsCut(col: seq<Col>, active: seq<Col>, a1: nat, m: nat)
    requires |col| == m <= |active| && a1 <= |active|
    ensures var full := col + active[m..];
      Split(col, active, a1, m) == (full[..a1], full[a1..])
  {
    var full := col + active[m..];
    if a1 >= m {
      assert full[..a1] == col + active[m..][..a1 - m];
      assert active[m..][..a1 - m] == active[m..a1];
      assert full[a1..] == active[m..][a1 - m..];
      assert active[m..][a1 - m..] == active[a1..];
      assert Slice(active, m, a1) == active[m..a1];
      assert Slice(active, a1, |active|) == active[a1..];
    } else {
      assert Slice(col, 0, a1) == col[..a1] == full[..a1];
      assert Slice(col, a1, m) == col[a1..];
      assert Slice(active, m, |active|) == active[m..];
      assert col[a1..] + active[m..] == full[a1..];
    }
  }

  /** The extension printed for the complete choice col. */
  function Printed(trail: seq<seq<nat>>, active: seq<Col>, a1: nat, m: nat, col: seq<Col>): Extension
    requires |trail| >= 1
  {
    var parts := Split(col, active, a1, m);
    Extension(ExtendedBy(trail[0], parts.0), trail[..|trail| - 1], ExtendedBy(trail[|trail| - 1], parts.1))
  }

  /** The extensions printed for the choices ts below the prefix cur. */
  function Extensions(trail: seq<seq<nat>>, active: seq<Col>, a1: nat, m: nat,
                      cur: seq<Col>, ts: seq<seq<Col>>): (r: seq<Extension>)
    requires |trail| >= 1
    ensures |r| == |ts|
  {
    seq(|ts|, k requires 0 <= k < |ts| => Printed(trail, active, a1, m, cur + ts[k]))
  }

  lemma ExtensionsConcat(trail: seq<seq<nat>>, active: seq<Col>, a1: nat, m: nat,
                         cur: seq<Col>, ts: seq<seq<Col>>, us: seq<seq<Col>>)
    requires |trail| >= 1
    ensures Extensions(trail, active, a1, m, cur, ts + us)
         == Extensions(trail, active, a1, m, cur, ts) + Extensions(trail, active, a1, m, cur, us)
  {
  }

  lemma ExtensionsPrefixed(trail: seq<seq<nat>>, active: seq<Col>, a1: nat, m: nat,
                           cur: seq<Col>, c: Col, ts: seq<seq<Col>>)
    requires |trail| >= 1
    ensures Extensions(trail, active, a1, m, cur, Prefixed(c, ts))
         == Extensions(trail, active, a1, m, cur + [c], ts)
  {
    forall k | 0 <= k < |ts|
      ensures cur + Prefixed(c, ts)[k] == cur + [c] + ts[k]
    {
    }
  }

  /** What the search prints from the prefix cur: an extension for every
      choice below it when the search goes through, nothing when it
      raises. */
  function Search(trail: seq<seq<nat>>, active: seq<Col>, ddt: map<nat, seq<nat>>, a1: nat, m: int, cur: seq<Col>): seq<Extension>
    requires |trail| >= 1
  {
    if Reachable(active, ddt, |cur|, m) then
      Extensions(trail, active, a1, m as nat, cur, Choices(active, ddt, |cur|, m as nat))
    else []
  }

  /** The output for the entries of row up to k is that for the entries
      before k followed by the output below entry k. */
  lemma ExtensionsStep(trail: seq<seq<nat>>, active: seq<Col>, ddt: map<nat, seq<nat>>, a1: nat, m: nat, i: nat, cur: seq<Col>,
                       row: seq<nat>, k: nat)
    requires |trail| >= 1 && Reachable(active, ddt, i, m) && i < m && k < |row|
    ensures Extensions(trail, active, a1, m, cur, Branches(active, ddt, i, m, row[..k + 1]))
         == Extensions(trail, active, a1, m, cur, Branches(active, ddt, i, m, row[..k]))
          + Extensions(trail, active, a1, m, cur + [Col(active[i].x, active[i].z, row[k])], Choices(active, ddt, i + 1, m))
  {
    var c := Col(active[i].x, active[i].z, row[k]);
    var T := Choices(active, ddt, i + 1, m);
    BranchesStep(active, ddt, i, m, row, k);
    ExtensionsConcat(trail, active, a1, m, cur, Branches(active, ddt, i, m, row[..k]), Prefixed(c, T));
    ExtensionsPrefixed(trail, active, a1, m, cur, c, T);
  }

  /** Below a reachable depth the search prints the extensions of every
      choice. */
  lemma SearchBelow(trail: seq<seq<nat>>, active: seq<Col>, ddt: map<nat, seq<nat>>, a1: nat, m: nat, cur: seq<Col>)
    requires |trail| >= 1 && Reachable(active, ddt, |cur|, m)
    ensures Search(trail, active, ddt, a1, m, cur) == Extensions(trail, active, a1, m, cur, Choices(active, ddt, |cur|, m))
  {
  }

  lemma BranchesNone(trail: seq<seq<nat>>, active: seq<Col>, ddt: map<nat, seq<nat>>, a1: nat, m: nat, i: nat, cur: seq<Col>, row: seq<nat>)
    requires |trail| >= 1 && Reachable(active, ddt, i, m) && i < m
    ensures Extensions(trail, active, a1, m, cur, Branches(active, ddt, i, m, row[..0])) == []
  {
    assert row[..0] == [];
  }

  /** One pass of the loop in `dfs`: the output for the entries of row
      before k, followed by the search below entry k, is the output for the
      entries up to k. */
  lemma SearchStep(trail: seq<seq<nat>>, active: seq<Col>, ddt: map<nat, seq<nat>>, a1: nat, m: nat, i: nat, cur: seq<Col>,
                   row: seq<nat>, k: nat, p0: seq<Extension>, before: seq<Extension>, after: seq<Extension>)
    requires |trail| >= 1 && Reachable(active, ddt, i, m) && i < m && k < |row| && |cur| == i
    requires k == 0 ==> before == p0
    requires k > 0 ==> before == p0 + Extensions(trail, active, a1, m, cur, Branches(active, ddt, i, m, row[..k]))
    requires after == before + Search(trail, active, ddt, a1, m, cur + [Col(active[i].x, active[i].z, row[k])])
    ensures after == p0 + Extensions(trail, active, a1, m, cur, Branches(active, ddt, i, m, row[..k + 1]))
  {
    var c := Col(active[i].x, active[i].z, row[k]);
    var D := Extensions(trail, active, a1, m, cur, Branches(active, ddt, i, m, row[..k]));
    var E := Extensions(trail, active, a1, m, cur + [c], Choices(active, ddt, i + 1, m));
    SearchBelow(trail, active, ddt, a1, m, cur + [c]);
    ExtensionsStep(trail, active, ddt, a1, m, i, cur, row, k);
    if k == 0 {
      BranchesNone(trail, active, ddt, a1, m, i, cur, row);
      AppendEmpty(p0);
    }
    AppendAssociative(p0, D, E);
  }

  /** At depth max_weight the search prints the current choice once. */
  lemma SearchLeaf(trail: seq<seq<nat>>, active: seq<Col>, ddt: map<nat, seq<nat>>, a1: nat, cur: seq<Col>)
    requires |trail| >= 1 && |cur| <= |active|
    ensures Search(trail, active, ddt, a1, |cur|, cur) == [Printed(trail, active, a1, |cur|, cur)]
  {
    assert Choices(active, ddt, |cur|, |cur|) == [[]];
    assert cur + [] == cur;
  }

  /** After the loop of `dfs` over a whole non-empty row, the output is the
      search below the current choice. */
  lemma SearchRow(trail: seq<seq<nat>>, active: seq<Col>, ddt: map<nat, seq<nat>>, a1: nat, m: nat, i: nat, cur: seq<Col>,
                  row: seq<nat>, p0: seq<Extension>, printed: seq<Extension>)
    requires |trail| >= 1 && Reachable(active, ddt, i, m) && i < m && |cur| == i && row == ddt[active[i].value]
    requires printed == p0 + Extensions(trail, active, a1, m, cur, Branches(active, ddt, i, m, row[..|row|]))
    ensures printed == p0 + Search(trail, active, ddt, a1, m, cur)
  {
    assert row[..|row|] == row;
    assert Choices(active, ddt, i, m) == Branches(active, ddt, i, m, row);
  }

  predicate Shaped(trail: seq<seq<nat>>)
  {
    |trail| >= 1 && |trail[0]| == StateSize && |trail[|trail| - 1]| == StateSize
  }

  /** The active columns of a trail's first state followed by those of its
      last. */
  function TrailActive(trail: seq<seq<nat>>): seq<Col>
    requires Shaped(trail)
  {
    ActiveCols(trail[0]) + ActiveCols(trail[|trail| - 1])
  }

  /** The number of active columns of a trail's first state. */
  function A1Weight(trail: seq<seq<nat>>): nat
    requires Shaped(trail)
  {
    |ActiveCols(trail[0])|
  }

  // ---------------------------------------------------------------------
  // The objects

  /** The list `cur_col`, which the search appends to and pops from in
      place. */
  class ColumnList {
    var items: seq<Col>

    constructor ()
      ensures items == []
    {
      items := [];
    }
  }

  /** Every row of the table has an entry. */
  ghost predicate NoEmptyRow(ddt: map<nat, seq<nat>>)
  {
    forall d :: d in ddt ==> |ddt[d]| > 0
  }

  /** The columns the search varies for one trail, the trail's active
      columns and the weight of its first state, the way `Extend` derives
      them; `printed` is what the object has printed so far. */
  class Extend {
    var ddt: map<nat, seq<nat>>
    var trail: seq<seq<nat>>
    var maxWeight: int
    var activeCols: seq<Col>
    var a1Weight: nat
    var printed: seq<Extension>

    /** What the search relies on; that `ddt` is the table of `get_ddt(3)`
        is the constructor's concern, and no method changes it. */
    ghost predicate Valid()
      reads this`ddt, this`trail, this`activeCols, this`a1Weight
    {
      NoEmptyRow(ddt) && Shaped(trail)
      && activeCols == TrailActive(trail) && a1Weight == A1Weight(trail)
      && (forall c :: c in activeCols ==> OnState(c))
    }

    constructor (trail: seq<seq<nat>>, maxWeight: int)
      requires Shaped(trail)
      ensures Valid() && IsDdt(ddt, StateY)
      ensures this.trail == trail && this.maxWeight == maxWeight && printed == []
    {
      var table := GetDdt(StateY);
      forall d | d in table
        ensures |table[d]| > 0
      {
        RowNonEmpty(StateY, d);
      }
      ddt := table;
      this.trail := trail;
      this.maxWeight := maxWeight;
      activeCols := [];
      a1Weight := 0;
      printed := [];
      new;
      SetActiveCols();
      ActiveColsFacts(trail[0]);
      ActiveColsFacts(trail[|trail| - 1]);
    }

    /** `set_active_cols`: the active columns of the first state followed
        by those of the last, and how many the first state has. */
    method SetActiveCols()
      requires Shaped(trail)
      modifies this`activeCols, this`a1Weight
      ensures activeCols == ActiveCols(trail[0]) + ActiveCols(trail[|trail| - 1])
      ensures a1Weight == |ActiveCols(trail[0])|
    {
      var a1 := trail[0];
      var br1 := trail[|trail| - 1];
      var a1Active: seq<Col> := [];
      var br1Active: seq<Col> := [];
      var x := 0;
      while x < StateX
        invariant x <= StateX
        invariant a1Active == Lanes(a1, x) && br1Active == Lanes(br1, x)
      {
        ghost var a1Before, br1Before := a1Active, br1Active;
        var z := 0;
        while z < StateZ
          invariant z <= StateZ
          invariant a1Active == a1Before + LaneUpTo(a1, x, z)
          invariant br1Active == br1Before + LaneUpTo(br1, x, z)
        {
          var colA, colB := ColumnPair(a1, br1, x, z);
          if colA != 0 {
            a1Active := a1Active + [Col(x, z, colA)];
          }
          if colB != 0 {
            br1Active := br1Active + [Col(x, z, colB)];
          }
          AppendAssociative(a1Before, LaneUpTo(a1, x, z), ActiveAt(a1, x, z));
          AppendAssociative(br1Before, LaneUpTo(br1, x, z), ActiveAt(br1, x, z));
          z := z + 1;
        }
        x := x + 1;
      }
      activeCols := a1Active + br1Active;
      a1Weight := |a1Active|;
    }

    /** The inner loop of `set_active_cols`: column (x, z) of a1 and of
        br-1 read as 3-bit numbers, bit y from row y. */
    static method ColumnPair(a1: seq<nat>, br1: seq<nat>, x: nat, z: nat) returns (colA: nat, colB: nat)
      requires |a1| == StateSize && |br1| == StateSize && x < StateX && z < StateZ
      ensures colA == ColumnValue(a1, x, z) && colB == ColumnValue(br1, x, z)
    {
      colA, colB := 0, 0;
      var y := 0;
      while y < StateY
        invariant y <= StateY
        invariant colA == ColumnUpTo(a1, x, z, y) && colB == ColumnUpTo(br1, x, z, y)
      {
        IndexBounds(x, y, z);
        colA := colA + a1[Index(x, y, z)] * Pow2(y);
        colB := colB + br1[Index(x, y, z)] * Pow2(y);
        y := y + 1;
      }
    }

    /** `extend_by_col`: a copy of state with the column changes applied in
        order. */
    method ExtendByCol(state: seq<nat>, cols: seq<Col>) returns (res: seq<nat>)
      requires |state| == StateSize
      requires forall c :: c in cols ==> OnState(c)
      ensures res == ExtendedBy(state, cols)
    {
      res := state;
      var i := 0;
      while i < |cols|
        invariant i <= |cols| && res == ExtendedUpTo(state, cols, i)
      {
        var x, z, value := cols[i].x, cols[i].z, cols[i].value;
        assert OnState(cols[i]);
        ColumnCells(x, z);
        ghost var prev := res;
        var y := 0;
        while y < StateY
          invariant y <= StateY && |res| == StateSize
          invariant forall k :: 0 <= k < StateSize ==>
            res[k] == if InColumn(k, x, z) && k / 128 < y then Bit(value, k / 128) else prev[k]
        {
          IndexBounds(x, y, z);
          res := res[Index(x, y, z) := Bit(value, y)];
          y := y + 1;
        }
        i := i + 1;
      }
    }

    /** `print_extend`: the two extended states for the choice col, printed
        around the trail. */
    method PrintExtend(col: seq<Col>)
      requires Valid()
      requires forall c :: c in col ==> OnState(c)
      modifies this`printed
      ensures printed == old(printed) + [Printed(trail, activeCols, a1Weight, |col|, col)]
    {
      var m := |col|;
      var col0, colr;
      if a1Weight >= m {
        col0 := col + Slice(activeCols, m, a1Weight);
        colr := Slice(activeCols, a1Weight, |activeCols|);
      } else {
        col0 := Slice(col, 0, a1Weight);
        colr := Slice(col, a1Weight, m) + Slice(activeCols, m, |activeCols|);
      }
      var b0 := ExtendByCol(trail[0], col0);
      var ar := ExtendByCol(trail[|trail| - 1], colr);
      printed := printed + [Extension(b0, trail[..|trail| - 1], ar)];
    }

    /** `dfs(i, cur_col)`.  It returns false where the script raises: on
        running off the active columns before depth `max_weight` (an
        IndexError), or on a column value with no DDT row (a KeyError);
        the first descent meets either before anything is printed. */
    method Dfs(i: nat, cur: ColumnList) returns (ok: bool)
      requires Valid()
      requires |cur.items| == i <= |activeCols|
      requires forall c :: c in cur.items ==> OnState(c)
      modifies this`printed, cur
      ensures ok == Reachable(activeCols, ddt, i, maxWeight)
      ensures printed == old(printed) + Search(trail, activeCols, ddt, a1Weight, maxWeight, old(cur.items))
      ensures ok ==> cur.items == old(cur.items)
      decreases |activeCols| - i
    {
      ghost var cur0, p0 := cur.items, printed;
      if i == maxWeight {
        PrintExtend(cur.items);
        SearchLeaf(trail, activeCols, ddt, a1Weight, cur0);
        return true;
      }
      if i == |activeCols| {
        assert printed == p0 + [];
        return false;
      }
      var v := activeCols[i].value;
      if v !in ddt {
        assert printed == p0 + [];
        return false;
      }
      var row := ddt[v];
      ReachableStep(activeCols, ddt, i, maxWeight);
      ghost var m: nat := if maxWeight < 0 then 0 else maxWeight;
      ghost var act, tr, a1w := activeCols, trail, a1Weight;
      var k := 0;
      while k < |row|
        invariant k <= |row| && cur.items == cur0
        invariant k == 0 ==> printed == p0
        invariant k > 0 ==> Reachable(act, ddt, i, m) && m == maxWeight && i < m
        invariant k > 0 ==>
          printed == p0 + Extensions(tr, act, a1w, m, cur0, Branches(act, ddt, i, m, row[..k]))
      {
        var c := Col(activeCols[i].x, activeCols[i].z, row[k]);
        assert activeCols[i] in activeCols;
        ghost var before := printed;
        cur.items := cur.items + [c];
        var sub := Dfs(i + 1, cur);
        if !sub {
          assert printed == before + [] == p0 + [];
          return false;
        }
        assert Reachable(act, ddt, i, m) && m == maxWeight && i < m;
        cur.items := cur.items[..i] + cur.items[i + 1..];
        assert cur.items == cur0;
        SearchStep(tr, act, ddt, a1w, m, i, cur0, row, k, p0, before, printed);
        k := k + 1;
      }
      assert k > 0;
      SearchRow(tr, act, ddt, a1w, m, i, cur0, row, p0, printed);
      ok := true;
    }
  }

  /** The 3-bit table every `Extend` object builds. */
  ghost function Ddt(): map<nat, seq<nat>>
  {
    map d: nat | d < Pow2(StateY) :: Row(StateY, d)
  }

  /** `get_ddt(3)` has only one possible value. */
  lemma DdtUnique(ddt: map<nat, seq<nat>>)
    requires IsDdt(ddt, StateY)
    ensures ddt == Ddt()
  {
    assert forall d :: d in ddt <==> d in Ddt();
  }

  /** What one trail contributes to the output of `extend_trail`. */
  ghost function Found(trail: seq<seq<nat>>, m: int): seq<Extension>
    requires Shaped(trail)
  {
    Search(trail, TrailActive(trail), Ddt(), A1Weight(trail), m, [])
  }

  /** The output of `extend_trail` over the first n trails, and whether it
      got through them all without raising. */
  ghost function FoundUpTo(trails: seq<seq<seq<nat>>>, m: int, n: nat): (seq<Extension>, bool)
    requires n <= |trails| && forall j :: 0 <= j < |trails| ==> Shaped(trails[j])
  {
    if n == 0 then ([], true)
    else
      var before := FoundUpTo(trails, m, n - 1);
      var t := trails[n - 1];
      if !before.1 then before
      else (before.0 + Found(t, m), Reachable(TrailActive(t), Ddt(), 0, m))
  }

  /** Once a trail has raised, later trails add nothing. */
  lemma {:induction false} FoundStops(trails: seq<seq<seq<nat>>>, m: int, n: nat, n': nat)
    requires n <= n' <= |trails| && forall j :: 0 <= j < |trails| ==> Shaped(trails[j])
    requires !FoundUpTo(trails, m, n).1
    ensures FoundUpTo(trails, m, n') == FoundUpTo(trails, m, n)
    decreases n' - n
  {
    if n < n' {
      FoundStops(trails, m, n, n' - 1);
    }
  }

  /** One trail's turn in `extend_trail`: a fresh `Extend` object and a
      search from depth 0 with an empty column list. */
  method ExtendOne(trail: seq<seq<nat>>, maxWeight: int) returns (found: seq<Extension>, ok: bool)
    requires Shaped(trail)
    ensures found == Found(trail, maxWeight)
    ensures ok == Reachable(TrailActive(trail), Ddt(), 0, maxWeight)
  {
    var ext := new Extend(trail, maxWeight);
    var cur := new ColumnList();
    ok := ext.Dfs(0, cur);
    DdtUnique(ext.ddt);
    found := ext.printed;
  }

  lemma FoundStep(trails: seq<seq<seq<nat>>>, m: int, n: nat)
    requires n < |trails| && forall j :: 0 <= j < |trails| ==> Shaped(trails[j])
    requires FoundUpTo(trails, m, n).1
    ensures FoundUpTo(trails, m, n + 1)
      == (FoundUpTo(trails, m, n).0 + Found(trails[n], m), Reachable(TrailActive(trails[n]), Ddt(), 0, m))
  {
  }

  /** `extend_trail`: the extensions of every trail in turn, stopping at
      the first trail whose search raises. */
  method ExtendTrail(trails: seq<seq<seq<nat>>>, maxWeight: int) returns (found: seq<Extension>, ok: bool)
    requires forall j :: 0 <= j < |trails| ==> Shaped(trails[j])
    ensures (found, ok) == FoundUpTo(trails, maxWeight, |trails|)
  {
    found, ok := [], true;
    var n := 0;
    while n < |trails|
      invariant n <= |trails| && ok && (found, ok) == FoundUpTo(trails, maxWeight, n)
    {
      var more, r := ExtendOne(trails[n], maxWeight);
      FoundStep(trails, maxWeight, n);
      found := found + more;
      if !r {
        ok := false;
        FoundStops(trails, maxWeight, n + 1, |trails|);
        return;
      }
      n := n + 1;
    }
  }

  /** When the search goes through, a trail yields as many extensions as
      the product of the DDT row sizes of the `max_weight` columns varied,
      one per fitting choice. */
  lemma FoundCount(trail: seq<seq<nat>>, m: int)
    requires Shaped(trail) && Reachable(TrailActive(trail), Ddt(), 0, m)
    ensures |Found(trail, m)| == Product(TrailActive(trail), Ddt(), 0, m as nat)
  {
    ChoicesCount(TrailActive(trail), Ddt(), 0, m as nat);
  }

  /** Each non-zero row of `get_ddt(3)` has four entries. */
  lemma DdtRowFour(v: nat)
    requires v in Ddt() && v != 0
    ensures |Ddt()[v]| == 4
  {
    RowSizeThree(StateY, v);
  }

  /** When every active column from depth i to depth m offers four
      choices, the search visits 4^(m - i) leaves. */
  lemma {:induction false} ProductFour(active: seq<Col>, ddt: map<nat, seq<nat>>, i: nat, m: nat)
    requires Reachable(active, ddt, i, m)
    requires forall j :: i <= j < m ==> |ddt[active[j].value]| == 4
    ensures Product(active, ddt, i, m) == Pow2(2 * (m - i))
    decreases m - i
  {
    if i < m {
      var e := 2 * (m - (i + 1));
      ProductFour(active, ddt, i + 1, m);
      assert Pow2(e + 2) == 4 * Pow2(e);
      assert 2 * (m - i) == e + 2;
    }
  }

  /** Active columns are non-zero. */
  lemma TrailActiveNonZero(trail: seq<seq<nat>>)
    requires Shaped(trail)
    ensures forall c :: c in TrailActive(trail) ==> c.value != 0
  {
    ActiveColsFacts(trail[0]);
    ActiveColsFacts(trail[|trail| - 1]);
  }

  /** `extend_trail` writes 4^max_weight extensions of a trail whose first
      max_weight active columns all have a row. */
  lemma FoundFour(trail: seq<seq<nat>>, m: int)
    requires Shaped(trail) && Reachable(TrailActive(trail), Ddt(), 0, m)
    ensures |Found(trail, m)| == Pow2(2 * m)
  {
    var active := TrailActive(trail);
    FoundCount(trail, m);
    TrailActiveNonZero(trail);
    forall j | 0 <= j < m
      ensures |Ddt()[active[j].value]| == 4
    {
      assert active[j] in active;
      DdtRowFour(active[j].value);
    }
    ProductFour(active, Ddt(), 0, m);
  }
}
