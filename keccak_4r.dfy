/** The trail-file driver `keccak/code/4rkeccak.py`: read the trails of a
    file, take the first one, build the rows `diff[0] .. diff[ROUNDS]` from
    its states and run the Keccak-f[1600] propagation loop for ROUNDS
    rounds, naming round r's linearisation with blocks 2r - 1 and 2r of
    the ring's `x` variables. */
module KeccakFourRound {
  import opened Common
  import opened Propagation
  import opened Keccak
  import opened KeccakTrail
  import RT = ReadTrails

  /** The rows `diff[0] .. diff[n - 1]` of a trail's first n states. */
  function TrailRows(trail: seq<seq<Coord>>, n: nat): (rows: seq<seq<int>>)
    requires n <= |trail|
    ensures |rows| == n
    ensures forall r :: 0 <= r < n ==> rows[r] == ActiveRow(trail[r])
  {
    seq(n, r requires 0 <= r < n => ActiveRow(trail[r]))
  }

  /** The rows and names the driver hands to the loop. */
  function TrailSetup(trail: seq<seq<Coord>>, rounds: nat): (S: Setup)
    requires 1 <= rounds < |trail|
    ensures SetupOk(S, Done(rounds))
  {
    BlockSetupOk(TrailRows(trail, rounds + 1), rounds - 1, Done(rounds));
    BlockSetup(TrailRows(trail, rounds + 1), rounds - 1)
  }

  /** How the driver ends on a list of trails: with an `IndexError` when
      there is no trail or the first has no state `trail[ROUNDS]`,
      otherwise as the propagation loop ends. */
  function Outcome4(trails: seq<seq<seq<Coord>>>, rounds: nat): (out: Outcome)
    requires rounds >= 1
    ensures out.Aborted? <==> |trails| == 0 || |trails[0]| <= rounds || rounds > |RoundConstants|
    ensures !out.Impossible?
    ensures out.Constraints? ==> out.q == Trail(TrailSetup(trails[0], rounds), rounds - 1)
  {
    if |trails| == 0 || |trails[0]| <= rounds then Aborted
    else Expected(TrailSetup(trails[0], rounds), rounds)
  }

  /** Row r of the setup marks exactly the active bits of state r. */
  lemma TrailRowsAt(trail: seq<seq<Coord>>, rounds: nat, r: nat, x: nat, y: nat, z: nat)
    requires 1 <= rounds < |trail| && r <= rounds && x < 5 && y < 5 && z < 64
    ensures Pos(x, y, z) < 1600
    ensures TrailSetup(trail, rounds).rows[r][Pos(x, y, z)] == 1 <==> (x, y, z) in trail[r]
    ensures TrailSetup(trail, rounds).rows[r][Pos(x, y, z)] == 0 <==> (x, y, z) !in trail[r]
  {
    ActiveRowAt(trail[r], x, y, z);
  }

  /** The rows `diff[0] .. diff[ROUNDS]`, filled in the script's nested
      loops; with an `IndexError` (None) once the trail has no state r. */
  method BuildRows(trail: seq<seq<Coord>>, rounds: nat) returns (rows: Option<seq<seq<int>>>)
    ensures rows.None? <==> |trail| <= rounds
    ensures rows.Some? ==> rows.value == TrailRows(trail, rounds + 1)
  {
    var built: seq<seq<int>> := [];
    for r := 0 to rounds + 1
      invariant r <= |trail| && built == TrailRows(trail, r)
    {
      if r == |trail| {
        return None;
      }
      var row := BuildRow(trail[r]);
      built := built + [row[..]];
    }
    return Some(built);
  }

  /** The driver on a parsed list of trails. */
  method Drive(trails: seq<seq<seq<Coord>>>, rounds: nat) returns (out: Outcome)
    requires rounds >= 1
    ensures out == Outcome4(trails, rounds)
  {
    if |trails| == 0 {
      return Aborted;
    }
    var trail := trails[0];
    var rows := BuildRows(trail, rounds);
    if rows.None? {
      return Aborted;
    }
    var S := BlockSetup(rows.value, rounds - 1);
    assert S == TrailSetup(trail, rounds);
    out := Propagate(S, rounds);
  }

  /** The script's main block on the lines of the trail file: a
      `ValueError` of the reader ends it too. The outcome is the same
      whether the reader keeps or drops a trail cut short by the end of
      the file. */
  method FourRoundMain(lines: seq<string>, rounds: nat) returns (out: Outcome)
    requires rounds >= 1
    ensures out == (match RT.Read(lines, rounds) case Err(_) => Aborted case Ok(ts) => Outcome4(ts, rounds))
    ensures out == (match RT.ReadFixed(lines, rounds) case Err(_) => Aborted case Ok(ts) => Outcome4(ts, rounds))
  {
    var trails := RT.ReadTrails(lines, rounds);
    FixedSameOutcome(lines, rounds);
    if trails.Err? {
      return Aborted;
    }
    out := Drive(trails.value, rounds);
  }

  /** Dropping a short last trail does not change the driver's outcome:
      the driver reads only the first trail, and a short first trail
      fails on `trail[ROUNDS]` just as a missing one fails on `trails[0]`. */
  lemma FixedSameOutcome(lines: seq<string>, rounds: nat)
    requires rounds >= 1
    ensures RT.Read(lines, rounds).Err? <==> RT.ReadFixed(lines, rounds).Err?
    ensures RT.Read(lines, rounds).Ok? ==>
      Outcome4(RT.Read(lines, rounds).value, rounds) == Outcome4(RT.ReadFixed(lines, rounds).value, rounds)
  {
    RT.ReadFixedDrops(lines, rounds);
    if RT.Read(lines, rounds).Ok? {
      var ts := RT.Read(lines, rounds).value;
      RT.ReadLengths(lines, rounds);
      var fs := RT.ReadFixed(lines, rounds).value;
      if |ts| > 1 {
        assert fs[0] == ts[0];
      }
    }
  }

  /** Trails from the corrected reader always have the state `trail[ROUNDS]`. */
  lemma FixedHasLastState(lines: seq<string>, rounds: nat)
    requires rounds >= 1 && RT.ReadFixed(lines, rounds).Ok? && |RT.ReadFixed(lines, rounds).value| > 0
    ensures |RT.ReadFixed(lines, rounds).value[0]| == rounds + 1
    ensures Outcome4(RT.ReadFixed(lines, rounds).value, rounds).Aborted? <==> rounds > |RoundConstants|
  {
    RT.ReadFixedComplete(lines, rounds);
  }

  /** `diff[ROUNDS]` is built but never compared: replacing the trail's
      last state by any other leaves the outcome as it is. */
  lemma LastStateUnused(trails: seq<seq<seq<Coord>>>, rounds: nat, cs: seq<Coord>)
    requires rounds >= 1 && |trails| > 0 && |trails[0]| > rounds
    ensures Outcome4(trails[0 := trails[0][rounds := cs]], rounds) == Outcome4(trails, rounds)
  {
    var t := trails[0];
    var t' := t[rounds := cs];
    assert trails[0 := t'][0] == t';
    var S := TrailSetup(t, rounds);
    var S' := TrailSetup(t', rounds);
    assert S' == S.(rows := S.rows[rounds := ActiveRow(cs)]);
    if rounds <= |RoundConstants| {
      TrailIgnoresLaterRow(S, rounds - 1, rounds, ActiveRow(cs));
    }
  }
}
