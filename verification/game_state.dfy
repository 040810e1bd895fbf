/**
 The state a `Game` keeps between frames: its players, the occupied-cells list
 shared with the bots, the `done` flag and the victorious player. This module
 also holds the flattening of all rosters into one list of units (the `units`
 property and `set_occupied_cells`) and the creation of players
 (`init_players`).
 */
module GameState {

  /** A grid cell. A unit is modelled by the one cell it stands on: the
      occupancy list reads a unit's `(x, y)` and the victory rule reads its
      `current_cell`, and the model takes both to be this cell. */
  datatype Pos = Pos(x: int, y: int)

  datatype Option<+T> = None | Some(value: T)

  /** A player: its id, the strategy name its bot was loaded from, and its
      units in roster order. */
  datatype Player = Player(pk: nat, bot: string, units: seq<Pos>)

  /** The bookkeeping of a running game. `winner` is the index in `players`
      of the victorious player, which is also its id (see `InitPlayers`). */
  datatype Game = Game(players: seq<Player>, occupied: seq<Pos>, done: bool, winner: Option<nat>)

  /** One entry of the flattened unit order: unit `unit` of player `player`. */
  datatype Slot = Slot(player: nat, unit: nat)

  /** How the roster of a player is created: from the players created before
      it, its id and its strategy name. It stands for the unseen
      `Player.__init__`, which is handed the game while `players` is being
      built. */
  type Spawn = (seq<Player>, nat, string) -> seq<Pos>

  /** Roster size of every player, in player order. */
  function Sizes(ps: seq<Player>): (r: seq<nat>)
    ensures |r| == |ps|
    ensures forall i :: 0 <= i < |ps| ==> r[i] == |ps[i].units|
  {
    SizesUpTo(ps, |ps|)
  }

  function SizesUpTo(ps: seq<Player>, n: nat): (r: seq<nat>)
    requires n <= |ps|
    ensures |r| == n
    ensures forall i :: 0 <= i < n ==> r[i] == |ps[i].units|
  {
    if n == 0 then [] else SizesUpTo(ps, n - 1) + [|ps[n - 1].units|]
  }

  /** Number of units of the first `i` players: the position in the
      flattened order of the first unit of player `i`. */
  function Offset(sizes: seq<nat>, i: nat): nat
    requires i <= |sizes|
  {
    if i == 0 then 0 else Offset(sizes, i - 1) + sizes[i - 1]
  }

  function Total(sizes: seq<nat>): nat
  {
    Offset(sizes, |sizes|)
  }

  /** Number of units of all players together. */
  function UnitCount(ps: seq<Player>): nat
  {
    Total(Sizes(ps))
  }

  lemma {:induction false} OffsetMonotone(sizes: seq<nat>, i: nat, k: nat)
    requires i <= k <= |sizes|
    ensures Offset(sizes, i) <= Offset(sizes, k)
    decreases k - i
  {
    if i < k {
      OffsetMonotone(sizes, i + 1, k);
    }
  }

  /** The units of the first `n` players, player by player and within a
      player in roster order. */
  function UnitsUpTo(ps: seq<Player>, n: nat): seq<Pos>
    requires n <= |ps|
  {
    if n == 0 then [] else UnitsUpTo(ps, n - 1) + ps[n - 1].units
  }

  /** The first `n` players own `Offset(n)` units between them. */
  lemma {:induction false} UnitsUpToLength(ps: seq<Player>, n: nat)
    requires n <= |ps|
    ensures |UnitsUpTo(ps, n)| == Offset(Sizes(ps), n)
  {
    if n > 0 {
      UnitsUpToLength(ps, n - 1);
    }
  }

  /** The `units` property: every unit of every player. */
  function Units(ps: seq<Player>): seq<Pos>
  {
    UnitsUpTo(ps, |ps|)
  }

  /** Unit `j` of player `i` sits at position `Offset(i) + j`. */
  lemma {:induction false} UnitsUpToIndex(ps: seq<Player>, n: nat, i: nat, j: nat)
    requires i < n <= |ps| && j < |ps[i].units|
    ensures Offset(Sizes(ps), i) + j < |UnitsUpTo(ps, n)|
    ensures UnitsUpTo(ps, n)[Offset(Sizes(ps), i) + j] == ps[i].units[j]
  {
    UnitsUpToLength(ps, n - 1);
    if i < n - 1 {
      UnitsUpToIndex(ps, n - 1, i, j);
    }
  }

  /** The units of player `i` in the flattened order. */
  function Row(i: nat, len: nat): (r: seq<Slot>)
    ensures |r| == len
    ensures forall j :: 0 <= j < len ==> r[j] == Slot(i, j)
  {
    if len == 0 then [] else Row(i, len - 1) + [Slot(i, len - 1)]
  }

  function SlotsUpTo(sizes: seq<nat>, n: nat): (r: seq<Slot>)
    requires n <= |sizes|
    ensures |r| == Offset(sizes, n)
  {
    if n == 0 then [] else SlotsUpTo(sizes, n - 1) + Row(n - 1, sizes[n - 1])
  }

  /** The flattened order itself, one entry per unit, player by player and
      within a player in roster order. */
  function Slots(sizes: seq<nat>): (r: seq<Slot>)
    ensures |r| == Total(sizes)
  {
    SlotsUpTo(sizes, |sizes|)
  }

  lemma {:induction false} SlotsUpToIndex(sizes: seq<nat>, n: nat, k: nat)
    requires n <= |sizes| && k < Offset(sizes, n)
    ensures SlotsUpTo(sizes, n)[k].player < n
    ensures SlotsUpTo(sizes, n)[k].unit < sizes[SlotsUpTo(sizes, n)[k].player]
    ensures k == Offset(sizes, SlotsUpTo(sizes, n)[k].player) + SlotsUpTo(sizes, n)[k].unit
  {
    if k < Offset(sizes, n - 1) {
      SlotsUpToIndex(sizes, n - 1, k);
    }
  }

  /** Every entry of the order names an existing unit, and its own index is
      that unit's position `Offset(player) + unit`; so no unit appears twice. */
  lemma SlotsIndex(sizes: seq<nat>, k: nat)
    requires k < Total(sizes)
    ensures Slots(sizes)[k].player < |sizes|
    ensures Slots(sizes)[k].unit < sizes[Slots(sizes)[k].player]
    ensures k == Offset(sizes, Slots(sizes)[k].player) + Slots(sizes)[k].unit
  {
    SlotsUpToIndex(sizes, |sizes|, k);
  }

  /** Every unit appears in the order, at position `Offset(i) + j`. */
  lemma SlotsAt(sizes: seq<nat>, i: nat, j: nat)
    requires i < |sizes| && j < sizes[i]
    ensures Offset(sizes, i) + j < Total(sizes)
    ensures Slots(sizes)[Offset(sizes, i) + j] == Slot(i, j)
  {
    OffsetMonotone(sizes, i + 1, |sizes|);
    var k := Offset(sizes, i) + j;
    SlotsIndex(sizes, k);
    var s := Slots(sizes)[k];
    if s.player < i {
      OffsetMonotone(sizes, s.player + 1, i);
    } else if s.player > i {
      OffsetMonotone(sizes, i + 1, s.player);
    }
  }

  /** The order is player index first, then roster index. */
  lemma SlotsOrdered(sizes: seq<nat>, k1: nat, k2: nat)
    requires k1 < k2 < Total(sizes)
    ensures Slots(sizes)[k1].player <= Slots(sizes)[k2].player
    ensures Slots(sizes)[k1].player == Slots(sizes)[k2].player ==> Slots(sizes)[k1].unit < Slots(sizes)[k2].unit
  {
    SlotsIndex(sizes, k1);
    SlotsIndex(sizes, k2);
    var s1, s2 := Slots(sizes)[k1], Slots(sizes)[k2];
    if s1.player > s2.player {
      OffsetMonotone(sizes, s2.player + 1, s1.player);
    }
  }

  lemma OffsetBoundAll(sizes: seq<nat>)
    ensures forall i {:trigger Offset(sizes, i)} :: 0 <= i < |sizes| ==> Offset(sizes, i) + sizes[i] <= Total(sizes)
  {
    forall i | 0 <= i < |sizes|
      ensures Offset(sizes, i) + sizes[i] <= Total(sizes)
    {
      OffsetMonotone(sizes, i + 1, |sizes|);
    }
  }

  /** `flat` lists the units of `ps` player by player, each roster in order:
      one entry per unit, and unit `j` of player `i` at `Offset(i) + j`. */
  ghost predicate Flattens(ps: seq<Player>, flat: seq<Pos>)
  {
    && |flat| == UnitCount(ps)
    && (forall i {:trigger Offset(Sizes(ps), i)} :: 0 <= i < |ps| ==> Offset(Sizes(ps), i) + |ps[i].units| <= |flat|)
    && (forall i, j :: 0 <= i < |ps| && 0 <= j < |ps[i].units| ==>
          flat[Offset(Sizes(ps), i) + j] == ps[i].units[j])
  }

  lemma UnitsFlattens(ps: seq<Player>)
    ensures Flattens(ps, Units(ps))
  {
    UnitsUpToLength(ps, |ps|);
    OffsetBoundAll(Sizes(ps));
    forall i, j | 0 <= i < |ps| && 0 <= j < |ps[i].units|
      ensures Units(ps)[Offset(Sizes(ps), i) + j] == ps[i].units[j]
    {
      UnitsUpToIndex(ps, |ps|, i, j);
    }
  }

  /** Entry `k` of a flattened list is the unit at place `k` of the order. */
  lemma FlattensAt(ps: seq<Player>, flat: seq<Pos>, k: nat)
    requires Flattens(ps, flat) && k < UnitCount(ps)
    ensures
      var s := Slots(Sizes(ps))[k];
      s.player < |ps| && s.unit < |ps[s.player].units| && k < |flat| &&
      flat[k] == ps[s.player].units[s.unit]
  {
    SlotsIndex(Sizes(ps), k);
  }

  /** `Flattens` pins the list down completely: there is exactly one
      flattening of a roster list, so `Units` is it. */
  lemma FlattensUnique(ps: seq<Player>, a: seq<Pos>, b: seq<Pos>)
    requires Flattens(ps, a) && Flattens(ps, b)
    ensures a == b
  {
    forall k | 0 <= k < |a|
      ensures a[k] == b[k]
    {
      SlotsIndex(Sizes(ps), k);
      var s := Slots(Sizes(ps))[k];
      assert a[k] == ps[s.player].units[s.unit];
    }
  }

  /** `set_occupied_cells`: the occupied list is rebuilt from the units;
      nothing else changes. */
  function SetOccupiedCells(g: Game): (r: Game)
    ensures r.players == g.players && r.done == g.done && r.winner == g.winner
  {
    g.(occupied := Units(g.players))
  }

  /** After `set_occupied_cells` the list holds one cell per unit, in the
      order of `units`, duplicates included. */
  lemma OccupiedCellsFlatten(g: Game)
    ensures Flattens(g.players, SetOccupiedCells(g).occupied)
  {
    UnitsFlattens(g.players);
  }

  /** Occupancy is a list, not a set: two distinct units on one cell give
      that cell twice. */
  lemma OccupiedKeepsDuplicates(g: Game, a: Slot, b: Slot)
    requires a != b
    requires a.player < |g.players| && a.unit < |g.players[a.player].units|
    requires b.player < |g.players| && b.unit < |g.players[b.player].units|
    requires g.players[a.player].units[a.unit] == g.players[b.player].units[b.unit]
    ensures exists k1, k2 ::
      && 0 <= k1 < k2 < |SetOccupiedCells(g).occupied|
      && SetOccupiedCells(g).occupied[k1] == SetOccupiedCells(g).occupied[k2] == g.players[a.player].units[a.unit]
  {
    var sizes := Sizes(g.players);
    var r := SetOccupiedCells(g);
    OccupiedCellsFlatten(g);
    SlotsAt(sizes, a.player, a.unit);
    SlotsAt(sizes, b.player, b.unit);
    var ka := Offset(sizes, a.player) + a.unit;
    var kb := Offset(sizes, b.player) + b.unit;
    assert ka != kb;
    if ka < kb {
      assert r.occupied[ka] == r.occupied[kb];
    } else {
      assert r.occupied[kb] == r.occupied[ka];
    }
  }

  /** `init_players`: one player per bot, in argument order, player `i`
      getting id `i`; each roster is made with the players created so far. */
  function InitPlayers(bots: seq<string>, spawn: Spawn): (r: seq<Player>)
    ensures |r| == |bots|
    ensures forall i :: 0 <= i < |bots| ==>
      r[i].pk == i && r[i].bot == bots[i] && r[i].units == spawn(r[..i], i, bots[i])
  {
    if bots == [] then []
    else
      var prev := InitPlayers(bots[..|bots| - 1], spawn);
      var n := |prev|;
      var r := prev + [Player(n, bots[n], spawn(prev, n, bots[n]))];
      assert r[..n] == prev;
      assert forall i :: 0 <= i < n ==> r[..i] == prev[..i];
      r
  }

  /** `Game.__init__`: the occupied list starts empty and is not filled until
      the first unit acts, the game is not done and has no winner. */
  function NewGame(bots: seq<string>, spawn: Spawn): (r: Game)
    ensures |r.players| == |bots|
    ensures forall i :: 0 <= i < |bots| ==> r.players[i].pk == i && r.players[i].bot == bots[i]
    ensures r.occupied == [] && !r.done && r.winner == None
  {
    Game(InitPlayers(bots, spawn), [], false, None)
  }
}
