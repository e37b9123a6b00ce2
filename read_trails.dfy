/** The trail-text decoder of the Keccak scripts. A trail file prints each
    1600-bit state of a differential trail as five lines, one per plane y;
    a line holds the five lanes x = 0 .. 4 separated by `|`, and a lane is
    sixteen hex digits, the most significant first, with `-` for a zero
    digit. A trail starts after a line containing "β0" and holds ROUNDS + 1
    states. The file is given here as its sequence of lines. */
module ReadTrails {
  import opened Common

  /** An active bit (x, y, z) of a Keccak-f[1600] state. */
  type Coord = (int, int, int)

  /** The `ValueError`s the reader raises (`NotHex` is the one `int(h, 16)`
      raises); line numbers are 1-based, as in the messages. */
  datatype ReadError =
    | LaneCount(line: nat, lanes: nat)
    | LaneWidth(line: nat, bits: nat)
    | NotHex(digit: char)

  const StartSign: string := "β0"
  const ZeroSign: char := '-'
  /** `z_len / 4 * x_len`: a shorter line is not a plane. */
  const PlaneWidth: nat := 80
  const LaneDigits: nat := 16

  // ---------------------------------------------------------------------
  // String operations the reader uses

  /** `t in s` for strings, as `s.find(t) != -1` tests it. */
  function Contains(s: string, t: string): bool
    decreases |s|
  {
    if |s| < |t| then false else s[..|t|] == t || (|s| > |t| && Contains(s[1..], t))
  }

  /** t occurs in s at offset k. */
  predicate OccursAt(s: string, t: string, k: int)
  {
    0 <= k <= |s| - |t| && s[k..k + |t|] == t
  }

  /** Dropping the first character moves every occurrence one place left. */
  lemma OccursShift(s: string, t: string, k: nat)
    requires |s| >= 1
    ensures OccursAt(s[1..], t, k) <==> OccursAt(s, t, k + 1)
  {
    if k + 1 <= |s| - |t| {
      assert s[1..][k..k + |t|] == s[k + 1..k + 1 + |t|];
    }
  }

  lemma {:induction false} ContainsAt(s: string, t: string)
    ensures Contains(s, t) <==> exists k :: OccursAt(s, t, k)
    decreases |s|
  {
    if |s| > |t| {
      ContainsAt(s[1..], t);
      assert s[..|t|] == s[0..0 + |t|];
      if s[..|t|] == t {
        assert OccursAt(s, t, 0);
      }
      if Contains(s[1..], t) {
        var k :| OccursAt(s[1..], t, k);
        OccursShift(s, t, k);
      }
      if exists k :: OccursAt(s, t, k) {
        var k :| OccursAt(s, t, k);
        if k > 0 {
          OccursShift(s, t, k - 1);
        }
      }
    } else if |s| == |t| {
      assert s[..|t|] == s[0..0 + |t|];
      if Contains(s, t) {
        assert OccursAt(s, t, 0);
      }
      if exists k :: OccursAt(s, t, k) {
        var k :| OccursAt(s, t, k);
        assert k == 0;
      }
    }
  }

  /** `s.rstrip("\n")`: every trailing newline removed. */
  function StripNewlines(s: string): (r: string)
    ensures |r| <= |s| && r == s[..|r|]
    ensures |r| == 0 || r[|r| - 1] != '\n'
    ensures forall k :: |r| <= k < |s| ==> s[k] == '\n'
  {
    if |s| > 0 && s[|s| - 1] == '\n' then StripNewlines(s[..|s| - 1]) else s
  }

  function Count(s: string, c: char): nat
  {
    if |s| == 0 then 0 else (if s[0] == c then 1 else 0) + Count(s[1..], c)
  }

  /** The pieces joined back together with c between them. */
  function Join(ps: seq<string>, c: char): string
    requires |ps| >= 1
  {
    if |ps| == 1 then ps[0] else ps[0] + [c] + Join(ps[1..], c)
  }

  /** `s.split(c)`: the pieces between the occurrences of c. */
  function Split(s: string, c: char): (r: seq<string>)
    ensures |r| == Count(s, c) + 1
    ensures forall k :: 0 <= k < |r| ==> c !in r[k]
    ensures Join(r, c) == s
  {
    if |s| == 0 then [""]
    else
      var rest := Split(s[1..], c);
      if s[0] == c then
        assert Join([""] + rest, c) == [c] + Join(rest, c) by {
          assert ([""] + rest)[1..] == rest;
        }
        [""] + rest
      else
        assert Join([[s[0]] + rest[0]] + rest[1..], c) == [s[0]] + Join(rest, c) by {
          assert ([[s[0]] + rest[0]] + rest[1..])[1..] == rest[1..];
        }
        [[s[0]] + rest[0]] + rest[1..]
  }

  /** `s.replace(" ", "")`. */
  function RemoveSpaces(s: string): (r: string)
    ensures ' ' !in r
    ensures |r| == |s| - Count(s, ' ')
    ensures forall ch :: ch != ' ' ==> (ch in r <==> ch in s)
  {
    if |s| == 0 then ""
    else if s[0] == ' ' then RemoveSpaces(s[1..])
    else [s[0]] + RemoveSpaces(s[1..])
  }

  // ---------------------------------------------------------------------
  // Hex digits

  /** `int(c, 16)` for one character. */
  function HexValue(c: char): (v: Option<nat>)
    ensures v.Some? ==> v.value < 16
  {
    if '0' <= c <= '9' then Some(c as int - '0' as int)
    else if 'a' <= c <= 'f' then Some(c as int - 'a' as int + 10)
    else if 'A' <= c <= 'F' then Some(c as int - 'A' as int + 10)
    else None
  }

  /** The indices i < n with bit i of v set, in the order the loop of
      `active_hex` appends them. */
  function ActiveBits(v: nat, n: nat): seq<nat>
  {
    if n == 0 then [] else ActiveBits(v, n - 1) + (if Bit(v, n - 1) == 1 then [n - 1] else [])
  }

  lemma {:induction false} ActiveBitsMembers(v: nat, n: nat)
    ensures forall i :: i in ActiveBits(v, n) <==> 0 <= i < n && Bit(v, i) == 1
  {
    if n > 0 {
      ActiveBitsMembers(v, n - 1);
    }
  }

  lemma {:induction false} ActiveBitsAscending(v: nat, n: nat)
    ensures forall j, k :: 0 <= j < k < |ActiveBits(v, n)| ==> ActiveBits(v, n)[j] < ActiveBits(v, n)[k]
  {
    if n > 0 {
      ActiveBitsAscending(v, n - 1);
      ActiveBitsMembers(v, n - 1);
      var s := ActiveBits(v, n - 1);
      forall j | 0 <= j < |s| ensures s[j] < n - 1 {
        assert s[j] in s;
      }
    }
  }

  /** `active_hex(c)`: the set bits of the hex digit c, ascending, or the
      `ValueError` of `int(c, 16)`. */
  method ActiveHex(c: char) returns (res: Result<seq<nat>, ReadError>)
    ensures res.Err? <==> HexValue(c).None?
    ensures res.Err? ==> res.error == NotHex(c)
    ensures res.Ok? ==> forall i :: i in res.value <==> 0 <= i < 4 && Bit(HexValue(c).value, i) == 1
    ensures res.Ok? ==> forall j, k :: 0 <= j < k < |res.value| ==> res.value[j] < res.value[k]
    ensures res.Ok? ==> res.value == ActiveBits(HexValue(c).value, 4)
  {
    var h := HexValue(c);
    if h.None? {
      return Err(NotHex(c));
    }
    var ret: seq<nat> := [];
    for i := 0 to 4
      invariant ret == ActiveBits(h.value, i)
    {
      if Bit(h.value, i) == 1 {
        ret := ret + [i];
      }
    }
    ActiveBitsMembers(h.value, 4);
    ActiveBitsAscending(h.value, 4);
    return Ok(ret);
  }

  // ---------------------------------------------------------------------
  // One plane line

  /** Hex digit h of a lane stands for z = 4 * (15 - h) .. 4 * (15 - h) + 3;
      these are the bits a digit's set bits b become. */
  function Placed(x: int, y: int, h: int, bits: seq<nat>): seq<Coord>
  {
    seq(|bits|, j requires 0 <= j < |bits| => (x, y, bits[j] + (15 - h) * 4))
  }

  /** The bits lane x of plane y contributes from its first h digits. */
  function LaneBits(lane: string, x: int, y: int, h: nat): Result<seq<Coord>, ReadError>
    requires h <= |lane|
  {
    if h == 0 then Ok([])
    else match LaneBits(lane, x, y, h - 1)
      case Err(e) => Err(e)
      case Ok(acc) =>
        if lane[h - 1] == ZeroSign then Ok(acc)
        else match HexValue(lane[h - 1])
          case None => Err(NotHex(lane[h - 1]))
          case Some(v) => Ok(acc + Placed(x, y, h - 1, ActiveBits(v, 4)))
  }

  /** The bits of the first x lanes of a plane split into `pieces`. */
  function Lanes(pieces: seq<string>, y: int, line: nat, x: nat): Result<seq<Coord>, ReadError>
    requires x <= |pieces|
  {
    if x == 0 then Ok([])
    else match Lanes(pieces, y, line, x - 1)
      case Err(e) => Err(e)
      case Ok(acc) =>
        var lane := RemoveSpaces(pieces[x - 1]);
        if |lane| != LaneDigits then Err(LaneWidth(line + 1, |lane| * 4))
        else match LaneBits(lane, x - 1, y, LaneDigits)
          case Err(e) => Err(e)
          case Ok(b) => Ok(acc + b)
  }

  /** The active bits plane line `text` (the file's line number line + 1)
      holds for plane y. */
  function PlaneBits(text: string, y: int, line: nat): Result<seq<Coord>, ReadError>
  {
    var pieces := Split(text, '|');
    if |pieces| != 5 then Err(LaneCount(line + 1, |pieces|)) else Lanes(pieces, y, line, 5)
  }

  /** A digit that `int(c, 16)` reads or the zero sign. */
  predicate Digit(c: char)
  {
    c == ZeroSign || HexValue(c).Some?
  }

  /** Digit c has bit b set. */
  predicate DigitHas(c: char, b: nat)
  {
    c != ZeroSign && HexValue(c).Some? && Bit(HexValue(c).value, b) == 1
  }

  /** Lane x of a plane line, spaces removed. */
  function LaneOf(text: string, x: nat): string
    requires x < |Split(text, '|')|
  {
    RemoveSpaces(Split(text, '|')[x])
  }

  /** A plane line the reader accepts. */
  predicate WellFormed(text: string)
  {
    |Split(text, '|')| == 5 &&
    (forall x :: 0 <= x < 5 ==> |LaneOf(text, x)| == LaneDigits) &&
    (forall x, h :: 0 <= x < 5 && 0 <= h < LaneDigits ==> Digit(LaneOf(text, x)[h]))
  }

  /** Bit (x, ., z) is set on a plane line: its digit 15 - z / 4 of lane x
      has bit z % 4 set. */
  predicate PlaneHas(text: string, x: int, z: int)
  {
    0 <= x < |Split(text, '|')| && 0 <= z < 64 && |LaneOf(text, x)| == LaneDigits &&
    DigitHas(LaneOf(text, x)[15 - z / 4], z % 4)
  }

  predicate InRange(c: Coord)
  {
    0 <= c.0 < 5 && 0 <= c.1 < 5 && 0 <= c.2 < 64
  }

  /** Bit b of a digit at offset 4 * d lands on z = 4 * d + b, whose
      remainder is b. */
  lemma DigitOffset(d: nat, b: nat)
    requires b < 4
    ensures (4 * d + b) % 4 == b && (4 * d + b) / 4 == d
  {
  }

  /** The bits of digit h are its set bits moved up by 4 * (15 - h). */
  lemma PlacedMember(x: int, y: int, h: nat, bits: seq<nat>, c: Coord)
    requires h < LaneDigits
    ensures c in Placed(x, y, h, bits) <==> c.0 == x && c.1 == y && c.2 - 4 * (15 - h) in bits
  {
    var P := Placed(x, y, h, bits);
    if c in P {
      var j :| 0 <= j < |P| && P[j] == c;
      assert c.2 - 4 * (15 - h) == bits[j];
    }
    if c.0 == x && c.1 == y && c.2 - 4 * (15 - h) in bits {
      var j :| 0 <= j < |bits| && bits[j] == c.2 - 4 * (15 - h);
      assert P[j] == c;
    }
  }

  lemma PlacedAt(x: int, y: int, h: nat, v: nat, c: Coord)
    requires h < LaneDigits
    ensures c in Placed(x, y, h, ActiveBits(v, 4)) <==>
      c.0 == x && c.1 == y && 4 * (15 - h) <= c.2 < 4 * (16 - h) && Bit(v, c.2 % 4) == 1
  {
    var d: nat := 15 - h;
    PlacedMember(x, y, h, ActiveBits(v, 4), c);
    ActiveBitsMembers(v, 4);
    var b := c.2 - 4 * d;
    if 0 <= b < 4 {
      DigitOffset(d, b);
      assert c.2 % 4 == b;
    }
  }

  /** A lane's first h digits give exactly the bits (x, y, z) whose digit
      15 - z / 4 is among them and has bit z % 4 set. */
  lemma {:induction false} LaneBitsAt(lane: string, x: int, y: int, h: nat, c: Coord)
    requires |lane| == LaneDigits && h <= LaneDigits && LaneBits(lane, x, y, h).Ok?
    ensures c in LaneBits(lane, x, y, h).value <==>
      c.0 == x && c.1 == y && 4 * (16 - h) <= c.2 < 64 && DigitHas(lane[15 - c.2 / 4], c.2 % 4)
  {
    if h > 0 {
      LaneBitsAt(lane, x, y, h - 1, c);
      var d := lane[h - 1];
      if d != ZeroSign {
        PlacedAt(x, y, h - 1, HexValue(d).value, c);
      }
    }
  }

  /** The lane parses exactly when its first h characters are digits. */
  lemma {:induction false} LaneBitsOk(lane: string, x: int, y: int, h: nat)
    requires h <= |lane|
    ensures LaneBits(lane, x, y, h).Ok? <==> forall k :: 0 <= k < h ==> Digit(lane[k])
  {
    if h > 0 {
      LaneBitsOk(lane, x, y, h - 1);
    }
  }

  /** A failure stays the result once it happened. */
  lemma {:induction false} LaneBitsStuck(lane: string, x: int, y: int, h: nat, h': nat)
    requires h <= h' <= |lane| && LaneBits(lane, x, y, h).Err?
    ensures LaneBits(lane, x, y, h') == LaneBits(lane, x, y, h)
    decreases h' - h
  {
    if h < h' {
      LaneBitsStuck(lane, x, y, h + 1, h');
    }
  }

  lemma {:induction false} LanesStuck(pieces: seq<string>, y: int, line: nat, x: nat, x': nat)
    requires x <= x' <= |pieces| && Lanes(pieces, y, line, x).Err?
    ensures Lanes(pieces, y, line, x') == Lanes(pieces, y, line, x)
    decreases x' - x
  {
    if x < x' {
      LanesStuck(pieces, y, line, x + 1, x');
    }
  }

  lemma {:induction false} LanesAt(text: string, y: int, line: nat, x: nat, c: Coord)
    requires |Split(text, '|')| == 5 && x <= 5 && Lanes(Split(text, '|'), y, line, x).Ok?
    ensures c in Lanes(Split(text, '|'), y, line, x).value <==> 0 <= c.0 < x && c.1 == y && PlaneHas(text, c.0, c.2)
  {
    if x > 0 {
      var pieces := Split(text, '|');
      LanesAt(text, y, line, x - 1, c);
      LaneBitsAt(LaneOf(text, x - 1), x - 1, y, LaneDigits, c);
    }
  }

  lemma {:induction false} LanesOk(text: string, y: int, line: nat, x: nat)
    requires |Split(text, '|')| == 5 && x <= 5
    ensures Lanes(Split(text, '|'), y, line, x).Ok? <==>
      forall x' :: 0 <= x' < x ==>
        (|LaneOf(text, x')| == LaneDigits && forall h :: 0 <= h < LaneDigits ==> Digit(LaneOf(text, x')[h]))
  {
    if x > 0 {
      LanesOk(text, y, line, x - 1);
      if |LaneOf(text, x - 1)| == LaneDigits {
        LaneBitsOk(LaneOf(text, x - 1), x - 1, y, LaneDigits);
      }
    }
  }

  /** A plane line is read without error exactly when it is well formed,
      and then its bits are exactly the set digit bits of its lanes. */
  lemma PlaneBitsMeaning(text: string, y: int, line: nat)
    ensures PlaneBits(text, y, line).Ok? <==> WellFormed(text)
    ensures PlaneBits(text, y, line).Ok? ==> forall x, z ::
      (x, y, z) in PlaneBits(text, y, line).value <==> PlaneHas(text, x, z)
    ensures PlaneBits(text, y, line).Ok? ==> forall c :: c in PlaneBits(text, y, line).value ==>
      0 <= c.0 < 5 && c.1 == y && 0 <= c.2 < 64
  {
    if |Split(text, '|')| == 5 {
      LanesOk(text, y, line, 5);
      if PlaneBits(text, y, line).Ok? {
        forall c: Coord ensures c in PlaneBits(text, y, line).value <==> 0 <= c.0 < 5 && c.1 == y && PlaneHas(text, c.0, c.2) {
          LanesAt(text, y, line, 5, c);
        }
      }
    }
  }

  /** The innermost loop: `for tmpz in active_hex(hbits)`, appending
      (x, y, tmpz + (15 - h)*4) for each set bit. */
  method AppendPlaced(bits: seq<Coord>, x: int, y: int, h: nat, active: seq<nat>) returns (bits': seq<Coord>)
    ensures bits' == bits + Placed(x, y, h, active)
  {
    bits' := bits;
    for j := 0 to |active|
      invariant bits' == bits + Placed(x, y, h, active[..j])
    {
      assert Placed(x, y, h, active[..j + 1]) == Placed(x, y, h, active[..j]) + [(x, y, active[j] + (15 - h) * 4)];
      bits' := bits' + [(x, y, active[j] + (15 - h) * 4)];
    }
    assert active[..|active|] == active;
  }

  /** The loop over the 16 digits of one lane, spaces removed. */
  method ReadLane(lane: string, x: int, y: int) returns (res: Result<seq<Coord>, ReadError>)
    requires |lane| == LaneDigits
    ensures res == LaneBits(lane, x, y, LaneDigits)
  {
    var bits: seq<Coord> := [];
    for h := 0 to LaneDigits
      invariant LaneBits(lane, x, y, h) == Ok(bits)
    {
      if lane[h] != ZeroSign {
        var active := ActiveHex(lane[h]);
        if active.Err? {
          LaneBitsStuck(lane, x, y, h + 1, LaneDigits);
          return Err(active.error);
        }
        bits := AppendPlaced(bits, x, y, h, active.value);
      }
    }
    return Ok(bits);
  }

  /** One plane line: `plane = line.split("|")` and the loops over its
      lanes, digits and set bits. */
  method ReadPlane(text: string, y: int, line: nat) returns (res: Result<seq<Coord>, ReadError>)
    ensures res == PlaneBits(text, y, line)
  {
    var plane := Split(text, '|');
    if |plane| != 5 {
      return Err(LaneCount(line + 1, |plane|));
    }
    var bits: seq<Coord> := [];
    for x := 0 to 5
      invariant Lanes(plane, y, line, x) == Ok(bits)
    {
      var lane := RemoveSpaces(plane[x]);
      if |lane| != LaneDigits {
        LanesStuck(plane, y, line, x + 1, 5);
        return Err(LaneWidth(line + 1, |lane| * 4));
      }
      var laneBits := ReadLane(lane, x, y);
      if laneBits.Err? {
        LanesStuck(plane, y, line, x + 1, 5);
        return Err(laneBits.error);
      }
      bits := bits + laneBits.value;
    }
    return Ok(bits);
  }

  // ---------------------------------------------------------------------
  // States, trails and the whole file

  /** Where the plane loop stopped: the next line, the planes read (5 for
      a complete state) and the active bits gathered. */
  datatype StateRead = StateRead(next: nat, planes: nat, bits: seq<Coord>)

  /** The plane loop from line i, with y planes and `bits` read so far:
      lines shorter than a plane are skipped, each other line is a plane. */
  function StateFrom(lines: seq<string>, i: nat, y: nat, bits: seq<Coord>): (r: Result<StateRead, ReadError>)
    requires i <= |lines| && y <= 5
    ensures r.Ok? ==> i <= r.value.next <= |lines| && y <= r.value.planes <= 5
    ensures r.Ok? && r.value.planes < 5 ==> r.value.next == |lines|
    ensures r.Ok? && i < |lines| && y < 5 ==> r.value.next > i
    decreases |lines| - i
  {
    if i < |lines| && y < 5 then
      var text := StripNewlines(lines[i]);
      if |text| < PlaneWidth then StateFrom(lines, i + 1, y, bits)
      else match PlaneBits(text, y, i)
        case Err(e) => Err(e)
        case Ok(b) => StateFrom(lines, i + 1, y + 1, bits + b)
    else Ok(StateRead(i, y, bits))
  }

  /** Where the state loop stopped: the next line, the round counter and
      the states recorded. */
  datatype TrailRead = TrailRead(next: nat, round: nat, states: seq<seq<Coord>>)

  /** The state loop from line i in round r: each round reads one state and
      records it only when all five planes were read. At most the last
      state can be missing, and only when the lines ran out. */
  function TrailFrom(lines: seq<string>, rounds: nat, i: nat, r: nat, states: seq<seq<Coord>>): (t: Result<TrailRead, ReadError>)
    requires i <= |lines| && r <= rounds + 1
    ensures t.Ok? ==> i <= t.value.next <= |lines| && r <= t.value.round <= rounds + 1
    ensures t.Ok? && i < |lines| && r < rounds + 1 ==> t.value.next > i
    ensures t.Ok? && t.value.round < rounds + 1 ==> t.value.next == |lines|
    ensures t.Ok? ==> |states| + t.value.round - r <= |t.value.states| + 1
    ensures t.Ok? ==> |t.value.states| <= |states| + t.value.round - r
    ensures t.Ok? && |t.value.states| < |states| + t.value.round - r ==> t.value.next == |lines|
    decreases rounds + 1 - r
  {
    if i < |lines| && r < rounds + 1 then
      match StateFrom(lines, i, 0, [])
        case Err(e) => Err(e)
        case Ok(s) => TrailFrom(lines, rounds, s.next, r + 1, if s.planes == 5 then states + [s.bits] else states)
    else Ok(TrailRead(i, r, states))
  }

  /** Whether a trail read is appended: the source appends it once the
      round counter reaches ROUNDS + 1 (`fixed` false); the corrected
      reader appends it only when it holds ROUNDS + 1 states. */
  predicate Kept(t: TrailRead, rounds: nat, fixed: bool)
  {
    if fixed then |t.states| == rounds + 1 else t.round == rounds + 1
  }

  /** The outer loop from line i with `trails` found so far. */
  function ScanFrom(lines: seq<string>, rounds: nat, i: nat, trails: seq<seq<seq<Coord>>>, fixed: bool): Result<seq<seq<seq<Coord>>>, ReadError>
    requires i <= |lines|
    decreases |lines| - i
  {
    if i == |lines| then Ok(trails)
    else if !Contains(lines[i], StartSign) then ScanFrom(lines, rounds, i + 1, trails, fixed)
    else match TrailFrom(lines, rounds, i + 1, 0, [])
      case Err(e) => Err(e)
      case Ok(t) => ScanFrom(lines, rounds, t.next, if Kept(t, rounds, fixed) then trails + [t.states] else trails, fixed)
  }

  /** What `read_trails` returns for a file with these lines. */
  function Read(lines: seq<string>, rounds: nat): Result<seq<seq<seq<Coord>>>, ReadError>
  {
    ScanFrom(lines, rounds, 0, [], false)
  }

  /** The corrected reader, which drops a trail cut short by the end of
      the file. */
  function ReadFixed(lines: seq<string>, rounds: nat): Result<seq<seq<seq<Coord>>>, ReadError>
  {
    ScanFrom(lines, rounds, 0, [], true)
  }

  /** The plane loop of `read_trails`, from line i0 with y = 0. */
  method ReadState(lines: seq<string>, i0: nat) returns (res: Result<StateRead, ReadError>)
    requires i0 <= |lines|
    ensures res == StateFrom(lines, i0, 0, [])
  {
    var i, y, state := i0, 0, [];
    while i < |lines| && y < 5
      invariant i0 <= i <= |lines| && y <= 5
      invariant StateFrom(lines, i, y, state) == StateFrom(lines, i0, 0, [])
      decreases |lines| - i
    {
      var text := StripNewlines(lines[i]);
      if |text| < PlaneWidth {
        i := i + 1;
        continue;
      }
      var plane := ReadPlane(text, y, i);
      if plane.Err? {
        return Err(plane.error);
      }
      state := state + plane.value;
      i := i + 1;
      y := y + 1;
    }
    return Ok(StateRead(i, y, state));
  }

  /** `read_trails(path, ROUNDS)` on the file's lines. */
  method ReadTrails(lines: seq<string>, rounds: nat) returns (res: Result<seq<seq<seq<Coord>>>, ReadError>)
    ensures res == Read(lines, rounds)
  {
    var trails: seq<seq<seq<Coord>>> := [];
    var i := 0;
    while i < |lines|
      invariant i <= |lines|
      invariant ScanFrom(lines, rounds, i, trails, false) == Read(lines, rounds)
      decreases |lines| - i
    {
      if !Contains(lines[i], StartSign) {
        i := i + 1;
        continue;
      }
      ghost var at, before := i, trails;
      i := i + 1;
      var trail: seq<seq<Coord>> := [];
      var r := 0;
      while i < |lines| && r < rounds + 1
        invariant at < i <= |lines| && r <= rounds + 1
        invariant Contains(lines[at], StartSign)
        invariant ScanFrom(lines, rounds, at, before, false) == Read(lines, rounds)
        invariant TrailFrom(lines, rounds, i, r, trail) == TrailFrom(lines, rounds, at + 1, 0, [])
        invariant trails == if r == rounds + 1 then before + [trail] else before
        decreases rounds + 1 - r
      {
        var state := ReadState(lines, i);
        if state.Err? {
          return Err(state.error);
        }
        i := state.value.next;
        if state.value.planes == 5 {
          trail := trail + [state.value.bits];
        }
        r := r + 1;
        if r == rounds + 1 {
          trails := trails + [trail];
        }
      }
    }
    return Ok(trails);
  }

  // ---------------------------------------------------------------------
  // What a read trail list holds

  predicate BitsInRange(bits: seq<Coord>)
  {
    forall c :: c in bits ==> InRange(c)
  }

  predicate StatesInRange(states: seq<seq<Coord>>)
  {
    forall k :: 0 <= k < |states| ==> BitsInRange(states[k])
  }

  predicate TrailsInRange(trails: seq<seq<seq<Coord>>>)
  {
    forall k :: 0 <= k < |trails| ==> StatesInRange(trails[k])
  }

  lemma {:induction false} StateInRange(lines: seq<string>, i: nat, y: nat, bits: seq<Coord>)
    requires i <= |lines| && y <= 5 && BitsInRange(bits) && StateFrom(lines, i, y, bits).Ok?
    ensures BitsInRange(StateFrom(lines, i, y, bits).value.bits)
    decreases |lines| - i
  {
    if i < |lines| && y < 5 {
      var text := StripNewlines(lines[i]);
      if |text| < PlaneWidth {
        StateInRange(lines, i + 1, y, bits);
      } else {
        PlaneBitsMeaning(text, y, i);
        StateInRange(lines, i + 1, y + 1, bits + PlaneBits(text, y, i).value);
      }
    }
  }

  lemma {:induction false} TrailInRange(lines: seq<string>, rounds: nat, i: nat, r: nat, states: seq<seq<Coord>>)
    requires i <= |lines| && r <= rounds + 1 && StatesInRange(states)
    requires TrailFrom(lines, rounds, i, r, states).Ok?
    ensures StatesInRange(TrailFrom(lines, rounds, i, r, states).value.states)
    decreases rounds + 1 - r
  {
    if i < |lines| && r < rounds + 1 {
      var s := StateFrom(lines, i, 0, []).value;
      StateInRange(lines, i, 0, []);
      TrailInRange(lines, rounds, s.next, r + 1, if s.planes == 5 then states + [s.bits] else states);
    }
  }

  lemma {:induction false} ScanInRange(lines: seq<string>, rounds: nat, i: nat, trails: seq<seq<seq<Coord>>>, fixed: bool)
    requires i <= |lines| && TrailsInRange(trails) && ScanFrom(lines, rounds, i, trails, fixed).Ok?
    ensures TrailsInRange(ScanFrom(lines, rounds, i, trails, fixed).value)
    decreases |lines| - i
  {
    if i < |lines| {
      if !Contains(lines[i], StartSign) {
        ScanInRange(lines, rounds, i + 1, trails, fixed);
      } else {
        var t := TrailFrom(lines, rounds, i + 1, 0, []).value;
        TrailInRange(lines, rounds, i + 1, 0, []);
        ScanInRange(lines, rounds, t.next, if Kept(t, rounds, fixed) then trails + [t.states] else trails, fixed);
      }
    }
  }

  /** Every bit the reader (as written or corrected) returns lies in the
      5 x 5 x 64 state. */
  lemma ReadInRange(lines: seq<string>, rounds: nat)
    ensures Read(lines, rounds).Ok? ==> TrailsInRange(Read(lines, rounds).value)
    ensures ReadFixed(lines, rounds).Ok? ==> TrailsInRange(ReadFixed(lines, rounds).value)
  {
    if Read(lines, rounds).Ok? {
      ScanInRange(lines, rounds, 0, [], false);
    }
    if ReadFixed(lines, rounds).Ok? {
      ScanInRange(lines, rounds, 0, [], true);
    }
  }

  predicate Complete(trails: seq<seq<seq<Coord>>>, rounds: nat)
  {
    forall k :: 0 <= k < |trails| ==> |trails[k]| == rounds + 1
  }

  lemma {:induction false} ScanLengths(lines: seq<string>, rounds: nat, i: nat, trails: seq<seq<seq<Coord>>>)
    requires i <= |lines| && Complete(trails, rounds) && ScanFrom(lines, rounds, i, trails, false).Ok?
    ensures var ts := ScanFrom(lines, rounds, i, trails, false).value;
      forall k :: 0 <= k < |ts| ==> |ts[k]| == rounds + 1 || (k == |ts| - 1 && |ts[k]| == rounds)
    decreases |lines| - i
  {
    if i < |lines| {
      if !Contains(lines[i], StartSign) {
        ScanLengths(lines, rounds, i + 1, trails);
      } else {
        var t := TrailFrom(lines, rounds, i + 1, 0, []).value;
        if t.round == rounds + 1 && |t.states| == rounds + 1 {
          ScanLengths(lines, rounds, t.next, trails + [t.states]);
        } else if t.round != rounds + 1 {
          ScanLengths(lines, rounds, t.next, trails);
        }
      }
    }
  }

  /** The source's reader returns trails of ROUNDS + 1 states, except that
      the last one may hold only ROUNDS: a trail cut off by the end of the
      file inside its last state is still returned. */
  lemma ReadLengths(lines: seq<string>, rounds: nat)
    requires Read(lines, rounds).Ok?
    ensures var ts := Read(lines, rounds).value;
      forall k :: 0 <= k < |ts| ==> |ts[k]| == rounds + 1 || (k == |ts| - 1 && |ts[k]| == rounds)
  {
    ScanLengths(lines, rounds, 0, []);
  }

  lemma {:induction false} ScanComplete(lines: seq<string>, rounds: nat, i: nat, trails: seq<seq<seq<Coord>>>)
    requires i <= |lines| && Complete(trails, rounds) && ScanFrom(lines, rounds, i, trails, true).Ok?
    ensures Complete(ScanFrom(lines, rounds, i, trails, true).value, rounds)
    decreases |lines| - i
  {
    if i < |lines| {
      if !Contains(lines[i], StartSign) {
        ScanComplete(lines, rounds, i + 1, trails);
      } else {
        var t := TrailFrom(lines, rounds, i + 1, 0, []).value;
        ScanComplete(lines, rounds, t.next, if Kept(t, rounds, true) then trails + [t.states] else trails);
      }
    }
  }

  /** The corrected reader returns only trails of ROUNDS + 1 states. */
  lemma ReadFixedComplete(lines: seq<string>, rounds: nat)
    requires ReadFixed(lines, rounds).Ok?
    ensures Complete(ReadFixed(lines, rounds).value, rounds)
  {
    ScanComplete(lines, rounds, 0, []);
  }

  /** A result with a short last trail removed. */
  function DropShort(res: Result<seq<seq<seq<Coord>>>, ReadError>, rounds: nat): Result<seq<seq<seq<Coord>>>, ReadError>
  {
    match res
      case Err(e) => Err(e)
      case Ok(ts) => Ok(if |ts| > 0 && |ts[|ts| - 1]| != rounds + 1 then ts[..|ts| - 1] else ts)
  }

  lemma {:induction false} ScanFixedDrops(lines: seq<string>, rounds: nat, i: nat, trails: seq<seq<seq<Coord>>>)
    requires i <= |lines| && Complete(trails, rounds)
    ensures ScanFrom(lines, rounds, i, trails, true) == DropShort(ScanFrom(lines, rounds, i, trails, false), rounds)
    decreases |lines| - i
  {
    if i < |lines| {
      if !Contains(lines[i], StartSign) {
        ScanFixedDrops(lines, rounds, i + 1, trails);
      } else if TrailFrom(lines, rounds, i + 1, 0, []).Ok? {
        var t := TrailFrom(lines, rounds, i + 1, 0, []).value;
        if t.round == rounds + 1 && |t.states| == rounds + 1 {
          ScanFixedDrops(lines, rounds, t.next, trails + [t.states]);
        } else if t.round != rounds + 1 {
          ScanFixedDrops(lines, rounds, t.next, trails);
        } else {
          assert (trails + [t.states])[..|trails|] == trails;
        }
      }
    }
  }

  /** The corrected reader fails exactly where the source's reader fails,
      and otherwise returns the same trails less a short last one. */
  lemma ReadFixedDrops(lines: seq<string>, rounds: nat)
    ensures ReadFixed(lines, rounds) == DropShort(Read(lines, rounds), rounds)
  {
    ScanFixedDrops(lines, rounds, 0, []);
  }

  // ---------------------------------------------------------------------
  // A file cut off inside the last state

  /** A lane of sixteen zero signs. */
  predicate Blank(z: string)
  {
    |z| == LaneDigits && forall k :: 0 <= k < |z| ==> z[k] == ZeroSign
  }

  /** A plane line with no active bit, made of blank lanes z. */
  function ZeroPlane(z: string): string
  {
    z + "|" + z + "|" + z + "|" + z + "|" + z
  }

  /** A trail header followed by ROUNDS complete zero states and the first
      plane of one more. */
  function Truncated(rounds: nat, z: string): seq<string>
  {
    ["β0"] + seq(5 * rounds + 1, _ => ZeroPlane(z))
  }

  /** n states with no active bit. */
  function NoBits(n: nat): seq<seq<Coord>>
  {
    seq(n, _ => [])
  }

  lemma {:induction false} SplitNone(a: string, c: char)
    requires c !in a
    ensures Split(a, c) == [a]
    decreases |a|
  {
    if |a| > 0 {
      SplitNone(a[1..], c);
    }
  }

  lemma {:induction false} SplitAt(a: string, b: string, c: char)
    requires c !in a
    ensures Split(a + [c] + b, c) == [a] + Split(b, c)
    decreases |a|
  {
    if |a| > 0 {
      assert (a + [c] + b)[1..] == a[1..] + [c] + b;
      SplitAt(a[1..], b, c);
      assert [a[0]] + a[1..] == a;
    } else {
      assert (a + [c] + b)[1..] == b;
    }
  }

  lemma {:induction false} RemoveSpacesNone(a: string)
    requires ' ' !in a
    ensures RemoveSpaces(a) == a
    decreases |a|
  {
    if |a| > 0 {
      RemoveSpacesNone(a[1..]);
      assert [a[0]] + a[1..] == a;
    }
  }

  lemma {:induction false} ZeroLaneBits(z: string, x: int, y: int, h: nat)
    requires Blank(z) && h <= LaneDigits
    ensures LaneBits(z, x, y, h) == Ok([])
  {
    if h > 0 {
      ZeroLaneBits(z, x, y, h - 1);
    }
  }

  lemma ZeroPlaneSplit(z: string)
    requires Blank(z)
    ensures Split(ZeroPlane(z), '|') == [z, z, z, z, z]
  {
    var p3 := z + "|" + z;
    var p2 := z + "|" + p3;
    var p1 := z + "|" + p2;
    assert '|' !in z;
    assert ZeroPlane(z) == z + ['|'] + p1;
    SplitNone(z, '|');
    SplitAt(z, z, '|');
    SplitAt(z, p3, '|');
    SplitAt(z, p2, '|');
    SplitAt(z, p1, '|');
  }

  lemma {:induction false} ZeroLanes(z: string, y: int, line: nat, x: nat)
    requires Blank(z) && x <= 5
    ensures Lanes([z, z, z, z, z], y, line, x) == Ok([])
  {
    if x > 0 {
      var pieces := [z, z, z, z, z];
      ZeroLanes(z, y, line, x - 1);
      assert ' ' !in z;
      RemoveSpacesNone(z);
      assert RemoveSpaces(pieces[x - 1]) == z;
      ZeroLaneBits(z, x - 1, y, LaneDigits);
      var none: seq<Coord> := [];
      assert none + none == none;
    }
  }

  lemma ZeroPlaneBits(z: string, y: int, line: nat)
    requires Blank(z)
    ensures StripNewlines(ZeroPlane(z)) == ZeroPlane(z) && |ZeroPlane(z)| >= PlaneWidth
    ensures PlaneBits(ZeroPlane(z), y, line) == Ok([])
  {
    var p := ZeroPlane(z);
    assert |p| == 84;
    assert p[83] == z[15];
    ZeroPlaneSplit(z);
    ZeroLanes(z, y, line, 5);
  }

  lemma {:induction false} ZeroState(lines: seq<string>, z: string, i: nat, y: nat)
    requires Blank(z) && y <= 5 && i + 5 - y <= |lines|
    requires forall k :: i <= k < i + 5 - y ==> lines[k] == ZeroPlane(z)
    ensures StateFrom(lines, i, y, []) == Ok(StateRead(i + 5 - y, 5, []))
    decreases 5 - y
  {
    if y < 5 {
      ZeroPlaneBits(z, y, i);
      ZeroState(lines, z, i + 1, y + 1);
    }
  }

  lemma {:induction false} ZeroTrail(rounds: nat, z: string, r: nat)
    requires Blank(z) && r <= rounds
    ensures TrailFrom(Truncated(rounds, z), rounds, 1 + 5 * r, r, NoBits(r)) ==
      Ok(TrailRead(|Truncated(rounds, z)|, rounds + 1, NoBits(rounds)))
    decreases rounds - r
  {
    var lines := Truncated(rounds, z);
    var i := 1 + 5 * r;
    if r < rounds {
      ZeroState(lines, z, i, 0);
      assert NoBits(r) + [[]] == NoBits(r + 1);
      ZeroTrail(rounds, z, r + 1);
    } else {
      ZeroPlaneBits(z, 0, i);
      assert StateFrom(lines, i, 0, []) == Ok(StateRead(i + 1, 1, []));
    }
  }

  /** The source's reader returns, for a file cut off inside the last
      state, a trail of only ROUNDS states (the driver then fails on
      `trail[ROUNDS]`); the corrected reader returns no trail. */
  lemma TruncatedTrail(rounds: nat, z: string)
    requires Blank(z)
    ensures Read(Truncated(rounds, z), rounds) == Ok([NoBits(rounds)])
    ensures |Read(Truncated(rounds, z), rounds).value[0]| == rounds
    ensures ReadFixed(Truncated(rounds, z), rounds) == Ok([])
  {
    var lines := Truncated(rounds, z);
    ZeroTrail(rounds, z, 0);
    assert NoBits(0) == [];
    assert lines[0] == StartSign;
    assert Contains(lines[0], StartSign);
    var t := TrailRead(|lines|, rounds + 1, NoBits(rounds));
    assert TrailFrom(lines, rounds, 1, 0, []) == Ok(t);
    assert Read(lines, rounds) == ScanFrom(lines, rounds, |lines|, [] + [NoBits(rounds)], false);
    assert ReadFixed(lines, rounds) == ScanFrom(lines, rounds, |lines|, [], true);
    var none: seq<seq<seq<Coord>>> := [];
    assert none + [NoBits(rounds)] == [NoBits(rounds)];
  }

  /** Such files exist: sixteen zero signs make a blank lane. */
  lemma BlankLane()
    ensures Blank("----------------")
  {
  }
}
