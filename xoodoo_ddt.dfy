/** The trail extender of `xoodoo/code/extend_ddt.py`.

    A Xoodoo state is 384 bits, bit (x, y, z) at index 128 y + 32 x + z.
    The script tabulates the differences the 3-bit chi can produce (its
    DDT), lists the active columns of a trail's first and last states, and
    enumerates depth first every way of replacing the first `max_weight`
    active columns by a DDT entry.  Each complete choice is split into the
    columns that extend the trail one S-box backward (before its first
    state) and those that extend it one S-box forward (after its last
    state); the two extended states are what the script prints. */
module XoodooDdt {
  import opened Common

  // ---------------------------------------------------------------------
  // Bit positions

  const StateX := 4
  const StateY := 3
  const StateZ := 32

  /** `index(x, y, z)`: the position of bit (x, y, z) in the state. */
  function Index(x: nat, y: nat, z: nat): nat
  {
    StateZ * StateX * y + StateZ * x + z
  }

  /** On the state's coordinates the index is below 384, and (x, y, z) can
      be read back from it. */
  lemma IndexBounds(x: nat, y: nat, z: nat)
    requires x < StateX && y < StateY && z < StateZ
    ensures Index(x, y, z) < 384
    ensures Index(x, y, z) / 128 == y
    ensures Index(x, y, z) % 128 / 32 == x
    ensures Index(x, y, z) % 32 == z
  {
    var k := Index(x, y, z);
    assert k == 128 * y + (32 * x + z);
    assert 32 * x + z < 128;
    assert k % 128 == 32 * x + z;
    assert k % 32 == z by {
      assert k == 32 * (4 * y + x) + z;
    }
  }

  /** Distinct coordinates have distinct indices. */
  lemma IndexInjective(x: nat, y: nat, z: nat, x': nat, y': nat, z': nat)
    requires x < StateX && y < StateY && z < StateZ
    requires x' < StateX && y' < StateY && z' < StateZ
    requires Index(x, y, z) == Index(x', y', z')
    ensures x == x' && y == y' && z == z'
  {
    IndexBounds(x, y, z);
    IndexBounds(x', y', z');
  }

  /** Every position below 384 is the index of one bit. */
  lemma IndexOnto(k: nat)
    requires k < 384
    ensures k / 128 < StateY && k % 128 / 32 < StateX && k % 32 < StateZ
    ensures Index(k % 128 / 32, k / 128, k % 32) == k
  {
  }

  // ---------------------------------------------------------------------
  // Python's `^` on non-negative integers

  /** Bitwise exclusive or, one bit at a time from the lowest. */
  function Xor(a: nat, b: nat): nat
    decreases a + b
  {
    if a == 0 && b == 0 then 0 else (a + b) % 2 + 2 * Xor(a / 2, b / 2)
  }

  lemma {:induction false} XorSelf(a: nat)
    ensures Xor(a, a) == 0
    decreases a
  {
    if a != 0 {
      XorSelf(a / 2);
    }
  }

  lemma {:induction false} XorZero(a: nat)
    ensures Xor(a, 0) == a
    decreases a
  {
    if a != 0 {
      XorZero(a / 2);
    }
  }

  /** The exclusive or of two n-bit numbers has n bits. */
  lemma {:induction false} XorBound(a: nat, b: nat, n: nat)
    requires a < Pow2(n) && b < Pow2(n)
    ensures Xor(a, b) < Pow2(n)
    decreases n
  {
    if n > 0 && (a != 0 || b != 0) {
      XorBound(a / 2, b / 2, n - 1);
    }
  }

  // ---------------------------------------------------------------------
  // chi on an n-bit integer

  /** `j % n` for the indices `i + 1` and `i + 2` the script reduces, with
      i < n. */
  function Wrap(j: nat, n: nat): (r: nat)
    requires 0 < n && j < n + 2
    ensures r < n
  {
    if j < n then j else if j - n < n then j - n else 0
  }

  lemma WrapIsMod(j: nat, n: nat)
    requires 0 < n && j < n + 2
    ensures Wrap(j, n) == j % n
  {
  }

  /** Bit i of `chi(x, n)`, as the script's second loop computes it:
      `x_i ^ ((x_{i+1} ^ 1) & x_{i+2})` with indices taken mod n. */
  function ChiBit(x: nat, n: nat, i: nat): (b: nat)
    requires i < n
    ensures b < 2
  {
    var b1, b2 := Bit(x, Wrap(i + 1, n)), Bit(x, Wrap(i + 2, n));
    XorOfBits(b1, 1);
    XorOfBits(Bit(x, i), Xor(b1, 1) * b2);
    Xor(Bit(x, i), Xor(b1, 1) * b2)
  }

  /** The output bits of `chi(x, n)`, lowest first. */
  function ChiOut(x: nat, n: nat): (bits: seq<nat>)
    ensures |bits| == n
  {
    seq(n, i requires 0 <= i < n => ChiBit(x, n, i))
  }

  /** The number with low bits `bits[0 .. k - 1]`, summed as the script sums
      them: bit i adds `pow(2, i)` when it is set. */
  function Value(bits: seq<nat>, k: nat): nat
    requires k <= |bits|
  {
    if k == 0 then 0
    else if bits[k - 1] == 1 then Value(bits, k - 1) + Pow2(k - 1)
    else Value(bits, k - 1)
  }

  /** `chi(x, xbits)`. */
  function ChiF(x: nat, n: nat): nat
  {
    Value(ChiOut(x, n), n)
  }

  /** On single bits `^` is addition modulo 2. */
  lemma XorOfBits(a: nat, b: nat)
    requires a < 2 && b < 2
    ensures Xor(a, b) == (a + b) % 2
  {
  }

  /** Bit i of the output is the chi formula on bits i, i + 1, i + 2 of the
      input (indices mod n). */
  lemma ChiBitIs(x: nat, n: nat, i: nat)
    requires i < n
    ensures ChiBit(x, n, i) == (Bit(x, i) + (1 - Bit(x, (i + 1) % n)) * Bit(x, (i + 2) % n)) % 2
  {
    WrapIsMod(i + 1, n);
    WrapIsMod(i + 2, n);
    XorOfBits(Bit(x, (i + 1) % n), 1);
    XorOfBits(Bit(x, i), Xor(Bit(x, (i + 1) % n), 1) * Bit(x, (i + 2) % n));
  }

  /** Adding 2^k to a k-bit number L keeps L's bits and sets bit k. */
  lemma {:induction false} BitOfTop(L: nat, k: nat, i: nat)
    requires L < Pow2(k) && i <= k
    ensures Bit(L + Pow2(k), i) == if i < k then Bit(L, i) else 1
    decreases k
  {
    if k > 0 {
      assert L + Pow2(k) == (L % 2) + 2 * (L / 2 + Pow2(k - 1));
      if i > 0 {
        BitOfTop(L / 2, k - 1, i - 1);
      }
    }
  }

  lemma BitTimes(b: nat, p: nat)
    requires b < 2
    ensures b * p == if b == 1 then p else 0
  {
    if b == 1 { } else { assert b == 0; }
  }

  lemma {:induction false} ValueBound(bits: seq<nat>, k: nat)
    requires k <= |bits|
    ensures Value(bits, k) < Pow2(k)
  {
    if k > 0 {
      ValueBound(bits, k - 1);
    }
  }

  /** Bit i of the sum is bits[i]. */
  lemma {:induction false} ValueBit(bits: seq<nat>, k: nat, i: nat)
    requires i < k <= |bits| && forall j :: 0 <= j < |bits| ==> bits[j] < 2
    ensures Bit(Value(bits, k), i) == bits[i]
  {
    var L := Value(bits, k - 1);
    ValueBound(bits, k - 1);
    if bits[k - 1] == 1 {
      BitOfTop(L, k - 1, i);
    } else if i == k - 1 {
      BitAbove(L, i, k - 1);
    }
    if i < k - 1 {
      ValueBit(bits, k - 1, i);
    }
  }

  /** `chi(x, n) < 2^n`, and its bit i is the chi formula for every i < n. */
  lemma ChiBits(x: nat, n: nat)
    ensures ChiF(x, n) < Pow2(n)
    ensures forall i :: 0 <= i < n ==> Bit(ChiF(x, n), i) == ChiBit(x, n, i)
  {
    var bits := ChiOut(x, n);
    ValueBound(bits, n);
    forall i | 0 <= i < n
      ensures Bit(ChiF(x, n), i) == ChiBit(x, n, i)
    {
      ValueBit(bits, n, i);
    }
  }

  /** The sum over the output bits grows by bit i times 2^i. */
  lemma ValueStep(x: nat, n: nat, i: nat)
    requires i < n
    ensures Value(ChiOut(x, n), i + 1) == Value(ChiOut(x, n), i) + ChiBit(x, n, i) * Pow2(i)
  {
    assert ChiOut(x, n)[i] == ChiBit(x, n, i);
    BitTimes(ChiBit(x, n, i), Pow2(i));
  }

  /** The second loop's step, read from the list of input bits. */
  lemma ChiStep(x: nat, n: nat, i: nat, xBin: seq<nat>)
    requires i < n && |xBin| == n
    requires forall j :: 0 <= j < n ==> xBin[j] == Bit(x, j)
    ensures Xor(xBin[i], Xor(xBin[Wrap(i + 1, n)], 1) * xBin[Wrap(i + 2, n)]) == ChiBit(x, n, i)
  {
  }

  /** The script's `chi`: first the bits of x, then the sum of the output
      bits. */
  method Chi(x: nat, n: nat) returns (y: nat)
    ensures y == ChiF(x, n)
  {
    var xBin := BitList(x, n);
    var acc: int := 0;
    var i := 0;
    while i < n
      invariant 0 <= i <= n && acc == Value(ChiOut(x, n), i)
    {
      var bit := Xor(xBin[i], Xor(xBin[Wrap(i + 1, n)], 1) * xBin[Wrap(i + 2, n)]);
      ChiStep(x, n, i, xBin);
      ValueStep(x, n, i);
      acc := acc + bit * Pow2(i);
      i := i + 1;
    }
    y := acc;
  }

  /** The first loop of `chi`: the list of x's low n bits, lowest first. */
  method BitList(x: nat, n: nat) returns (xBin: seq<nat>)
    ensures |xBin| == n && forall j :: 0 <= j < n ==> xBin[j] == Bit(x, j)
  {
    xBin := [];
    var i := 0;
    while i < n
      invariant 0 <= i <= n && |xBin| == i
      invariant forall j :: 0 <= j < i ==> xBin[j] == Bit(x, j)
    {
      xBin := xBin + [Bit(x, i)];
      i := i + 1;
    }
  }

  // ---------------------------------------------------------------------
  // The difference distribution table

  /** The output difference of inputs a and `a ^ d`. */
  function OutDiff(a: nat, d: nat, n: nat): nat
  {
    Xor(ChiF(a, n), ChiF(Xor(a, d), n))
  }

  /** The list `tmp` after inputs 0 .. k - 1 of row d: every output
      difference seen so far, once, in the order of first appearance. */
  function Seen(n: nat, d: nat, k: nat): seq<nat>
  {
    if k == 0 then []
    else
      var t, v := Seen(n, d, k - 1), OutDiff(k - 1, d, n);
      if v in t then t else t + [v]
  }

  predicate Ascending(s: seq<nat>)
  {
    forall i, j :: 0 <= i < j < |s| ==> s[i] <= s[j]
  }

  /** Ascending with no entry twice. */
  predicate Strict(s: seq<nat>)
  {
    forall i, j :: 0 <= i < j < |s| ==> s[i] < s[j]
  }

  predicate Distinct(s: seq<nat>)
  {
    forall i, j :: 0 <= i < j < |s| ==> s[i] != s[j]
  }

  /** The position of the first entry of s from i on that is not below v. */
  function Place(v: nat, s: seq<nat>, i: nat): (p: nat)
    requires i <= |s|
    ensures i <= p <= |s|
    decreases |s| - i
  {
    if i < |s| && s[i] < v then Place(v, s, i + 1) else i
  }

  /** v put in front of the first entry it does not exceed. */
  function Insert(v: nat, s: seq<nat>): seq<nat>
  {
    var p := Place(v, s, 0);
    s[..p] + [v] + s[p..]
  }

  /** Python's `sorted` on a list of integers, as an insertion sort of the
      first k entries. */
  function SortUpTo(s: seq<nat>, k: nat): seq<nat>
    requires k <= |s|
  {
    if k == 0 then [] else Insert(s[k - 1], SortUpTo(s, k - 1))
  }

  function SortedList(s: seq<nat>): seq<nat>
  {
    SortUpTo(s, |s|)
  }

  /** Everything before the place is below v, and the entry at the place
      is not. */
  lemma {:induction false} PlaceFacts(v: nat, s: seq<nat>, i: nat)
    requires i <= |s|
    requires forall j :: 0 <= j < i ==> s[j] < v
    ensures forall j :: 0 <= j < Place(v, s, i) ==> s[j] < v
    ensures Place(v, s, i) < |s| ==> s[Place(v, s, i)] >= v
    decreases |s| - i
  {
    if i < |s| && s[i] < v {
      PlaceFacts(v, s, i + 1);
    }
  }

  /** Entry k of the inserted list, by where k lies against the place. */
  lemma InsertShape(v: nat, s: seq<nat>)
    ensures |Insert(v, s)| == |s| + 1
    ensures forall k :: 0 <= k < Place(v, s, 0) ==> Insert(v, s)[k] == s[k]
    ensures Insert(v, s)[Place(v, s, 0)] == v
    ensures forall k :: Place(v, s, 0) < k <= |s| ==> Insert(v, s)[k] == s[k - 1]
    ensures forall x :: x in Insert(v, s) <==> x == v || x in s
  {
    var p := Place(v, s, 0);
    assert s == s[..p] + s[p..];
  }

  /** Everything from the place on is at least v in an ascending list, and
      above v when v is not in it and the list is strictly ascending. */
  lemma PlaceAbove(v: nat, s: seq<nat>)
    requires Ascending(s)
    ensures forall k :: 0 <= k < Place(v, s, 0) ==> s[k] < v
    ensures forall k :: Place(v, s, 0) <= k < |s| ==> s[k] >= v
    ensures v !in s ==> forall k :: Place(v, s, 0) <= k < |s| ==> s[k] > v
  {
    var p := Place(v, s, 0);
    PlaceFacts(v, s, 0);
    forall k | p <= k < |s|
      ensures s[k] >= v && (v !in s ==> s[k] > v)
    {
      assert s[p] <= s[k];
      assert s[k] in s;
    }
  }

  /** Inserting into an ascending list keeps it ascending (strictly so when
      v is new) and adds exactly v. */
  lemma InsertFacts(v: nat, s: seq<nat>)
    requires Ascending(s)
    ensures Ascending(Insert(v, s)) && |Insert(v, s)| == |s| + 1
    ensures forall x :: x in Insert(v, s) <==> x == v || x in s
    ensures Strict(s) && v !in s ==> Strict(Insert(v, s))
  {
    var p, r := Place(v, s, 0), Insert(v, s);
    InsertShape(v, s);
    PlaceAbove(v, s);
    forall i, j | 0 <= i < j < |r|
      ensures r[i] <= r[j] && (Strict(s) && v !in s ==> r[i] < r[j])
    {
      if j < p {
        assert r[i] == s[i] && r[j] == s[j];
      } else if j == p {
        assert r[i] == s[i] && r[j] == v;
      } else if i < p {
        assert r[i] == s[i] && r[j] == s[j - 1];
      } else if i == p {
        assert r[i] == v && r[j] == s[j - 1];
      } else {
        assert r[i] == s[i - 1] && r[j] == s[j - 1];
      }
    }
  }

  lemma TakeLast(s: seq<nat>, k: nat)
    requires 0 < k <= |s|
    ensures s[..k] == s[..k - 1] + [s[k - 1]]
  {
  }

  /** The sorted list is ascending, has the input's length and elements, and
      is strictly ascending when no input element repeats. */
  lemma {:induction false} SortUpToFacts(s: seq<nat>, k: nat)
    requires k <= |s|
    ensures Ascending(SortUpTo(s, k)) && |SortUpTo(s, k)| == k
    ensures forall x :: x in SortUpTo(s, k) <==> x in s[..k]
    ensures Distinct(s) ==> Strict(SortUpTo(s, k))
  {
    SortUpToShape(s, k);
    SortUpToMembers(s, k);
    if Distinct(s) {
      SortUpToStrict(s, k);
    }
  }

  lemma {:induction false} SortUpToShape(s: seq<nat>, k: nat)
    requires k <= |s|
    ensures Ascending(SortUpTo(s, k)) && |SortUpTo(s, k)| == k
  {
    if k > 0 {
      SortUpToShape(s, k - 1);
      InsertFacts(s[k - 1], SortUpTo(s, k - 1));
    }
  }

  lemma {:induction false} SortUpToMembers(s: seq<nat>, k: nat)
    requires k <= |s|
    ensures forall x :: x in SortUpTo(s, k) <==> x in s[..k]
  {
    if k > 0 {
      SortUpToMembers(s, k - 1);
      SortUpToShape(s, k - 1);
      InsertFacts(s[k - 1], SortUpTo(s, k - 1));
      TakeLast(s, k);
    }
  }

  lemma {:induction false} SortUpToStrict(s: seq<nat>, k: nat)
    requires k <= |s| && Distinct(s)
    ensures Strict(SortUpTo(s, k))
  {
    if k > 0 {
      SortUpToStrict(s, k - 1);
      SortUpToShape(s, k - 1);
      SortUpToMembers(s, k - 1);
      var t := SortUpTo(s, k - 1);
      assert forall i :: 0 <= i < k - 1 ==> s[i] != s[k - 1];
      assert s[k - 1] !in t;
      InsertFacts(s[k - 1], t);
    }
  }

  lemma SortedListFacts(s: seq<nat>)
    ensures Ascending(SortedList(s)) && |SortedList(s)| == |s|
    ensures forall x :: x in SortedList(s) <==> x in s
    ensures Distinct(s) ==> Strict(SortedList(s))
  {
    SortUpToFacts(s, |s|);
    assert s[..|s|] == s;
  }

  lemma InsertPermutes(v: nat, s: seq<nat>)
    ensures multiset(Insert(v, s)) == multiset(s) + multiset{v}
  {
    var p := Place(v, s, 0);
    assert s == s[..p] + s[p..];
  }

  /** The sorted list is a permutation of its input. */
  lemma {:induction false} SortUpToPermutes(s: seq<nat>, k: nat)
    requires k <= |s|
    ensures multiset(SortUpTo(s, k)) == multiset(s[..k])
  {
    if k > 0 {
      SortUpToPermutes(s, k - 1);
      InsertPermutes(s[k - 1], SortUpTo(s, k - 1));
      TakeLast(s, k);
    }
  }

  lemma SortedListPermutes(s: seq<nat>)
    ensures multiset(SortedList(s)) == multiset(s)
  {
    SortUpToPermutes(s, |s|);
    assert s[..|s|] == s;
  }

  /** Row d of `get_ddt(n)`: the sorted list of output differences. */
  function Row(n: nat, d: nat): seq<nat>
  {
    SortedList(Seen(n, d, Pow2(n)))
  }

  /** The table `get_ddt(n)` returns: a row for each input difference below
      2^n and no other key. */
  ghost predicate IsDdt(ddt: map<nat, seq<nat>>, n: nat)
  {
    (forall d: nat :: d in ddt <==> d < Pow2(n)) && forall d :: d in ddt ==> ddt[d] == Row(n, d)
  }

  /** The script's `get_ddt`. */
  method GetDdt(n: nat) returns (ddt: map<nat, seq<nat>>)
    ensures IsDdt(ddt, n)
  {
    var size := Pow2(n);
    ddt := map[];
    var d := 0;
    while d < size
      invariant d <= size && DdtUpTo(ddt, n, d)
    {
      var row := RowOf(n, d);
      DdtUpToStep(ddt, n, d, row);
      ddt := ddt[d := row];
      d := d + 1;
    }
  }

  /** The table holds the rows of the input differences below d. */
  ghost predicate DdtUpTo(ddt: map<nat, seq<nat>>, n: nat, d: nat)
  {
    (forall e: nat :: e in ddt <==> e < d) && forall e :: e in ddt ==> ddt[e] == Row(n, e)
  }

  lemma DdtUpToStep(ddt: map<nat, seq<nat>>, n: nat, d: nat, row: seq<nat>)
    requires DdtUpTo(ddt, n, d) && row == Row(n, d)
    ensures DdtUpTo(ddt[d := row], n, d + 1)
  {
  }

  /** One pass of the outer loop of `get_ddt`: the list `tmp` for input
      difference d, sorted. */
  method RowOf(n: nat, d: nat) returns (row: seq<nat>)
    ensures row == Row(n, d)
  {
    var size := Pow2(n);
    var tmp := [];
    var a := 0;
    while a < size
      invariant a <= size && tmp == Seen(n, d, a)
    {
      var ay := Xor(a, d);
      var c1 := Chi(a, n);
      var c2 := Chi(ay, n);
      var deltaB := Xor(c1, c2);
      if deltaB !in tmp {
        tmp := tmp + [deltaB];
      }
      a := a + 1;
    }
    row := SortedList(tmp);
  }

  /** What the inner loop collects: each output difference of row d once,
      and exactly those. */
  lemma {:induction false} SeenHas(n: nat, d: nat, k: nat)
    ensures Distinct(Seen(n, d, k))
    ensures forall v :: v in Seen(n, d, k) <==> exists a :: 0 <= a < k && OutDiff(a, d, n) == v
  {
    if k > 0 {
      SeenHas(n, d, k - 1);
      var v := OutDiff(k - 1, d, n);
      forall w
        ensures w in Seen(n, d, k) <==> exists a :: 0 <= a < k && OutDiff(a, d, n) == w
      {
        if w in Seen(n, d, k) && w != v {
          assert w in Seen(n, d, k - 1);
          var a :| 0 <= a < k - 1 && OutDiff(a, d, n) == w;
          assert 0 <= a < k && OutDiff(a, d, n) == w;
        }
        if w !in Seen(n, d, k) {
          assert w != v;
          forall a | 0 <= a < k
            ensures OutDiff(a, d, n) != w
          {
            if a < k - 1 {
              assert !(0 <= a < k - 1 && OutDiff(a, d, n) == w);
            }
          }
        }
      }
    }
  }

  /** Each row is strictly ascending, so sorted and free of duplicates,
      and v is in row d exactly when some input pair `(a, a ^ d)` with
      a < 2^n has output difference v. */
  lemma RowFacts(n: nat, d: nat)
    ensures Strict(Row(n, d))
    ensures forall v :: v in Row(n, d) <==> exists a :: 0 <= a < Pow2(n) && OutDiff(a, d, n) == v
  {
    SeenHas(n, d, Pow2(n));
    SortedListFacts(Seen(n, d, Pow2(n)));
  }

  /** The zero difference only goes to the zero difference. */
  lemma RowZero(n: nat)
    ensures Row(n, 0) == [0]
  {
    RowFacts(n, 0);
    var r := Row(n, 0);
    forall a | 0 <= a < Pow2(n)
      ensures OutDiff(a, 0, n) == 0
    {
      XorZero(a);
      XorSelf(ChiF(a, n));
    }
    assert 0 in r by {
      assert OutDiff(0, 0, n) == 0;
    }
    forall k | 0 <= k < |r|
      ensures r[k] == 0
    {
      assert r[k] in r;
    }
    Spread(r);
  }

  /** Every entry of the table is an n-bit difference. */
  lemma RowEntries(n: nat, d: nat, v: nat)
    requires v in Row(n, d)
    ensures v < Pow2(n)
  {
    RowFacts(n, d);
    var a :| 0 <= a < Pow2(n) && OutDiff(a, d, n) == v;
    ChiBits(a, n);
    ChiBits(Xor(a, d), n);
    XorBound(ChiF(a, n), ChiF(Xor(a, d), n), n);
  }

  /** Every row holds at least the output difference of the pair
      `(0, d)`. */
  lemma RowNonEmpty(n: nat, d: nat)
    ensures |Row(n, d)| > 0
  {
    RowFacts(n, d);
    assert OutDiff(0, d, n) in Row(n, d);
  }

  /** A strictly ascending list of naturals climbs by at least one per
      entry. */
  lemma {:induction false} Spread(r: seq<nat>)
    requires |r| > 0 && Strict(r)
    ensures r[|r| - 1] >= r[0] + |r| - 1
  {
    if |r| > 1 {
      Spread(r[..|r| - 1]);
      assert r[|r| - 2] < r[|r| - 1];
    }
  }

  // ---------------------------------------------------------------------
  // The 3-bit table the extender uses (`get_ddt(3)`)

  /** A truth value as a bit. */
  function ToBit(b: bool): nat
  {
    if b then 1 else 0
  }

  lemma HalfSum(r: nat, x: nat)
    requires r < 2
    ensures (r + 2 * x) % 2 == r && (r + 2 * x) / 2 == x
  {
  }

  lemma ParitySum(a: nat, b: nat)
    ensures (a + b) % 2 == ToBit(a % 2 != b % 2)
  {
    assert a == 2 * (a / 2) + a % 2 && b == 2 * (b / 2) + b % 2;
  }

  /** The lowest bit of `a ^ b` says whether those of a and b differ, and
      the rest is the XOR of the rest. */
  lemma XorHalf(a: nat, b: nat)
    ensures Xor(a, b) % 2 == ToBit(a % 2 != b % 2)
    ensures Xor(a, b) / 2 == Xor(a / 2, b / 2)
  {
    if !(a == 0 && b == 0) {
      var r, x := (a + b) % 2, Xor(a / 2, b / 2);
      assert Xor(a, b) == r + 2 * x;
      HalfSum(r, x);
      ParitySum(a, b);
    }
  }

  /** Bit i of `a ^ b` is set exactly when bits i of a and b differ. */
  lemma {:induction false} BitOfXor(a: nat, b: nat, i: nat)
    ensures Bit(Xor(a, b), i) == ToBit(Bit(a, i) != Bit(b, i))
    decreases i
  {
    XorHalf(a, b);
    if i > 0 {
      BitOfXor(a / 2, b / 2, i - 1);
    }
  }

  /** For v below 8, bits 0, 1 and 2 of v add up to v. */
  lemma ThreeBits(v: nat)
    requires v < 8
    ensures v == Bit(v, 0) + 2 * Bit(v, 1) + 4 * Bit(v, 2)
  {
    var h := v / 2;
    var q := h / 2;
    assert Bit(v, 1) == h % 2 by { assert Bit(v, 1) == Bit(h, 0); }
    assert Bit(v, 2) == q % 2 by { assert Bit(v, 2) == Bit(h, 1) == Bit(q, 0); }
  }

  lemma Pow2Three(n: nat)
    requires n == 3
    ensures Pow2(n) == 8
  {
    assert Pow2(3) == 8;
  }

  /** The chi bit formula on single bits: a is complemented exactly when b
      is clear and c is set. */
  lemma ChiOnBits(a: nat, b: nat, c: nat)
    requires a < 2 && b < 2 && c < 2
    ensures (a + (1 - b) * c) % 2 == ToBit((a == 1) != (b == 0 && c == 1))
  {
    if b == 0 && c == 1 {} else if b == 0 {} else {}
  }

  /** Bit i of the output difference of chi, for input bits a0 a1 a2 and
      difference bits d0 d1 d2 at positions i, i + 1, i + 2. */
  function DiffBit(a0: bool, a1: bool, a2: bool, d0: bool, d1: bool, d2: bool): bool
  {
    (a0 != (!a1 && a2)) != ((a0 != d0) != (!(a1 != d1) && (a2 != d2)))
  }

  /** `OutDiff(a, d, 3)` from the bits of a and d. */
  function DiffFormula(a0: bool, a1: bool, a2: bool, d0: bool, d1: bool, d2: bool): nat
  {
    ToBit(DiffBit(a0, a1, a2, d0, d1, d2))
    + 2 * ToBit(DiffBit(a1, a2, a0, d1, d2, d0))
    + 4 * ToBit(DiffBit(a2, a0, a1, d2, d0, d1))
  }

  lemma OutDiffBit(a: nat, d: nat, n: nat, i: nat, j: nat, k: nat)
    requires i < n && j == (i + 1) % n && k == (i + 2) % n
    ensures Bit(OutDiff(a, d, n), i) == ToBit(DiffBit(Bit(a, i) == 1, Bit(a, j) == 1, Bit(a, k) == 1,
                                                      Bit(d, i) == 1, Bit(d, j) == 1, Bit(d, k) == 1))
  {
    var e := Xor(a, d);
    BitOfXor(ChiF(a, n), ChiF(e, n), i);
    ChiBits(a, n);
    ChiBits(e, n);
    ChiBitIs(a, n, i);
    ChiBitIs(e, n, i);
    ChiOnBits(Bit(a, i), Bit(a, j), Bit(a, k));
    ChiOnBits(Bit(e, i), Bit(e, j), Bit(e, k));
    BitOfXor(a, d, i);
    BitOfXor(a, d, j);
    BitOfXor(a, d, k);
  }

  lemma OutDiffBound(a: nat, d: nat, n: nat)
    requires n == 3 && a < 8 && d < 8
    ensures OutDiff(a, d, n) < 8
  {
    Pow2Three(n);
    XorBound(a, d, n);
    ChiBits(a, n);
    ChiBits(Xor(a, d), n);
    XorBound(ChiF(a, n), ChiF(Xor(a, d), n), n);
  }

  /** The bit positions are parameters so that the verifier does not unfold
      the definitions on literal arguments. */
  lemma OutDiffIs(a: nat, d: nat, n: nat, i0: nat, i1: nat, i2: nat)
    requires n == 3 && i0 == 0 && i1 == 1 && i2 == 2 && a < 8 && d < 8
    ensures OutDiff(a, d, n) == DiffFormula(Bit(a, i0) == 1, Bit(a, i1) == 1, Bit(a, i2) == 1,
                                            Bit(d, i0) == 1, Bit(d, i1) == 1, Bit(d, i2) == 1)
  {
    OutDiffBound(a, d, n);
    ThreeBits(OutDiff(a, d, n));
    OutDiffBit(a, d, n, i0, i1, i2);
    OutDiffBit(a, d, n, i1, i2, i0);
    OutDiffBit(a, d, n, i2, i0, i1);
  }

  /** `chi(a, 3) ^ chi(a ^ d, 3)` at row a, column d. */
  const Ddt3: seq<seq<nat>> :=
    [[0, 3, 6, 1, 5, 4, 2, 7],
      [0, 3, 2, 5, 7, 6, 4, 1],
      [0, 7, 6, 5, 4, 1, 3, 2],
      [0, 7, 2, 1, 6, 3, 5, 4],
      [0, 1, 7, 2, 5, 6, 3, 4],
      [0, 1, 3, 6, 7, 4, 5, 2],
      [0, 5, 7, 6, 4, 3, 2, 1],
      [0, 5, 3, 2, 6, 1, 4, 7]]

  function Index3(b0: bool, b1: bool, b2: bool): nat
  {
    ToBit(b0) + 2 * ToBit(b1) + 4 * ToBit(b2)
  }

  lemma Ddt3Formula(a0: bool, a1: bool, a2: bool, d0: bool, d1: bool, d2: bool)
    ensures DiffFormula(a0, a1, a2, d0, d1, d2) == Ddt3[Index3(a0, a1, a2)][Index3(d0, d1, d2)]
  {
  }

  lemma IndexOfBits(x: nat)
    requires x < 8
    ensures Index3(Bit(x, 0) == 1, Bit(x, 1) == 1, Bit(x, 2) == 1) == x
  {
    ThreeBits(x);
  }

  /** The output differences of the 3-bit chi are those of the table. */
  lemma OutDiffTable(a: nat, d: nat, n: nat)
    requires n == 3 && a < 8 && d < 8
    ensures OutDiff(a, d, n) == Ddt3[a][d]
  {
    OutDiffIs(a, d, n, 0, 1, 2);
    Ddt3Formula(Bit(a, 0) == 1, Bit(a, 1) == 1, Bit(a, 2) == 1, Bit(d, 0) == 1, Bit(d, 1) == 1, Bit(d, 2) == 1);
    IndexOfBits(a);
    IndexOfBits(d);
  }

  /** `Seen(3, d, k)` read off the table. */
  function SeenIn3(d: nat, k: nat): seq<nat>
    requires d < 8 && k <= 8
  {
    if k == 0 then []
    else if Ddt3[k - 1][d] in SeenIn3(d, k - 1) then SeenIn3(d, k - 1)
    else SeenIn3(d, k - 1) + [Ddt3[k - 1][d]]
  }

  lemma {:induction false} SeenIs3(n: nat, d: nat, k: nat)
    requires n == 3 && d < 8 && k <= 8
    ensures Seen(n, d, k) == SeenIn3(d, k)
  {
    if k > 0 {
      SeenIs3(n, d, k - 1);
      OutDiffTable(k - 1, d, n);
    }
  }

  // Four distinct output differences for each non-zero input difference,
  // at most two columns at a time.
  lemma SeenFourA(d: nat)
    requires 0 < d < 3
    ensures |SeenIn3(d, 8)| == 4
  {
    if d == 1 { assert |SeenIn3(1, 8)| == 4; } else { assert |SeenIn3(2, 8)| == 4; }
  }

  lemma SeenFourB(d: nat)
    requires 3 <= d < 5
    ensures |SeenIn3(d, 8)| == 4
  {
    if d == 3 { assert |SeenIn3(3, 8)| == 4; } else { assert |SeenIn3(4, 8)| == 4; }
  }

  lemma SeenFourC(d: nat)
    requires 5 <= d < 7
    ensures |SeenIn3(d, 8)| == 4
  {
    if d == 5 { assert |SeenIn3(5, 8)| == 4; } else { assert |SeenIn3(6, 8)| == 4; }
  }

  lemma SeenFourD()
    ensures |SeenIn3(7, 8)| == 4
  {
  }

  /** Every non-zero row of `get_ddt(3)` has exactly four entries. */
  lemma RowSizeThree(n: nat, d: nat)
    requires n == 3 && 0 < d < Pow2(n)
    ensures |Row(n, d)| == 4
  {
    Pow2Three(n);
    SeenIs3(n, d, 8);
    SortedListFacts(Seen(n, d, 8));
    if d < 3 { SeenFourA(d); } else if d < 5 { SeenFourB(d); } else if d < 7 { SeenFourC(d); } else { SeenFourD(); }
  }
}
