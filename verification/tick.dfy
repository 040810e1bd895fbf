/**
 One call of `Game.update`: every unit acts once, player by player and within
 a player in roster order, and the occupied-cells list is rebuilt after each
 single action, so a unit sees the moves of the units before it in the same
 tick and not those after it.
 */
module Tick {
  import opened GameState

  /** `unit.action()`: the cell unit `j` of player `i` moves to, decided from
      the game as it stands when that unit acts. The bots that make this
      decision are not part of the model, so it is a parameter. */
  type Action = (Game, nat, nat) -> Pos

  /** Same players with the same ids, bots and roster sizes; only unit
      positions may differ. */
  predicate SameShape(a: seq<Player>, b: seq<Player>)
  {
    && |a| == |b|
    && forall i :: 0 <= i < |a| ==> SamePlayer(a[i], b[i])
  }

  predicate SamePlayer(p: Player, q: Player)
  {
    p.pk == q.pk && p.bot == q.bot && |p.units| == |q.units|
  }

  lemma SameShapeSizes(a: seq<Player>, b: seq<Player>)
    requires SameShape(a, b)
    ensures Sizes(a) == Sizes(b) && UnitCount(a) == UnitCount(b)
  {
  }

  lemma SameShapeSlot(a: seq<Player>, b: seq<Player>, s: Slot)
    requires SameShape(a, b) && ValidSlot(b, s)
    ensures ValidSlot(a, s)
  {
  }

  lemma SameShapeTrans(a: seq<Player>, b: seq<Player>, c: seq<Player>)
    requires SameShape(a, b) && SameShape(b, c)
    ensures SameShape(a, c)
  {
  }

  predicate ValidSlot(ps: seq<Player>, s: Slot)
  {
    s.player < |ps| && s.unit < |ps[s.player].units|
  }

  /** Every entry of the flattened order names an existing unit. */
  lemma SlotValid(ps: seq<Player>, k: nat)
    requires k < UnitCount(ps)
    ensures ValidSlot(ps, Slots(Sizes(ps))[k])
  {
    SlotsIndex(Sizes(ps), k);
  }

  /** Two different places of the order name two different units. */
  lemma SlotsDistinct(ps: seq<Player>, k1: nat, k2: nat)
    requires k1 < UnitCount(ps) && k2 < UnitCount(ps) && k1 != k2
    ensures Slots(Sizes(ps))[k1] != Slots(Sizes(ps))[k2]
  {
    SlotsIndex(Sizes(ps), k1);
    SlotsIndex(Sizes(ps), k2);
  }

  /** Unit `j` of player `i` moves to `p`; no other unit moves. */
  function MoveUnit(ps: seq<Player>, i: nat, j: nat, p: Pos): seq<Player>
    requires i < |ps| && j < |ps[i].units|
  {
    ps[i := ps[i].(units := ps[i].units[j := p])]
  }

  /** One pass of the inner loop body: the unit at `s` acts on the game as it
      is now, then the occupied cells are rebuilt from the new positions. */
  function Step(g: Game, act: Action, s: Slot): (r: Game)
    requires ValidSlot(g.players, s)
    ensures r.done == g.done && r.winner == g.winner
  {
    SetOccupiedCells(g.(players := MoveUnit(g.players, s.player, s.unit, act(g, s.player, s.unit))))
  }

  /** An action changes no roster, id or strategy. */
  lemma StepShape(g: Game, act: Action, s: Slot)
    requires ValidSlot(g.players, s)
    ensures SameShape(Step(g, act, s).players, g.players)
  {
  }

  /** After one action, the acting unit stands on the cell it chose and every
      other unit where it was. */
  lemma StepCell(g: Game, r: Game, act: Action, t: Slot, s: Slot)
    requires ValidSlot(g.players, t) && ValidSlot(g.players, s) && r == Step(g, act, t)
    ensures ValidSlot(r.players, s)
    ensures r.players[s.player].units[s.unit] ==
      if s == t then act(g, t.player, t.unit) else g.players[s.player].units[s.unit]
  {
  }

  /** The game after the first `k` actions of a tick that started from `g`.
      Before any action the occupied cells are still those `g` had. */
  function After(g: Game, act: Action, k: nat): (r: Game)
    requires k <= UnitCount(g.players)
    ensures r.done == g.done && r.winner == g.winner
    decreases k, 1
  {
    if k == 0 then g
    else
      var s := Slots(Sizes(g.players))[k - 1];
      SlotValid(g.players, k - 1);
      AfterShape(g, act, k - 1);
      SameShapeSlot(After(g, act, k - 1).players, g.players, s);
      Step(After(g, act, k - 1), act, s)
  }

  /** Acting never changes a roster, an id or a strategy. */
  lemma AfterShape(g: Game, act: Action, k: nat)
    requires k <= UnitCount(g.players)
    ensures SameShape(After(g, act, k).players, g.players)
    decreases k, 2
  {
    if k > 0 {
      var s := Slots(Sizes(g.players))[k - 1];
      SlotValid(g.players, k - 1);
      AfterShape(g, act, k - 1);
      SameShapeSlot(After(g, act, k - 1).players, g.players, s);
      StepShape(After(g, act, k - 1), act, s);
      SameShapeTrans(After(g, act, k).players, After(g, act, k - 1).players, g.players);
    }
  }

  /** Acting never removes a unit, so a unit of `g` is still there after `k`
      actions. */
  lemma AfterValid(g: Game, act: Action, k: nat, s: Slot)
    requires k <= UnitCount(g.players) && ValidSlot(g.players, s)
    ensures ValidSlot(After(g, act, k).players, s)
  {
    AfterShape(g, act, k);
    SameShapeSlot(After(g, act, k).players, g.players, s);
  }

  /** Action `k` is the one of the unit at place `k - 1` of the order, taken in
      the game the `k - 1` earlier actions left. */
  lemma AfterStep(g: Game, act: Action, k: nat)
    requires 0 < k <= UnitCount(g.players)
    ensures ValidSlot(g.players, Slots(Sizes(g.players))[k - 1])
    ensures ValidSlot(After(g, act, k - 1).players, Slots(Sizes(g.players))[k - 1])
    ensures After(g, act, k) == Step(After(g, act, k - 1), act, Slots(Sizes(g.players))[k - 1])
  {
    SlotValid(g.players, k - 1);
    AfterValid(g, act, k - 1, Slots(Sizes(g.players))[k - 1]);
  }

  /** The same step as `AfterStep`, taken from a game `r` the first `k`
      actions left. */
  lemma AfterNext(g: Game, act: Action, k: nat, s: Slot, r: Game)
    requires k < UnitCount(g.players) && s == Slots(Sizes(g.players))[k]
    requires r == After(g, act, k)
    ensures ValidSlot(r.players, s)
    ensures Step(r, act, s) == After(g, act, k + 1)
  {
    AfterStep(g, act, k + 1);
  }

  /** Action `k` moves the unit at place `k - 1` to the cell it chose. */
  lemma AfterActs(g: Game, act: Action, k: nat)
    requires 0 < k <= UnitCount(g.players)
    ensures ValidSlot(g.players, Slots(Sizes(g.players))[k - 1])
    ensures
      var t := Slots(Sizes(g.players))[k - 1];
      ValidSlot(After(g, act, k - 1).players, t) &&
      ValidSlot(After(g, act, k).players, t) &&
      After(g, act, k).players[t.player].units[t.unit] == act(After(g, act, k - 1), t.player, t.unit)
  {
    var t := Slots(Sizes(g.players))[k - 1];
    AfterStep(g, act, k);
    StepCell(After(g, act, k - 1), After(g, act, k), act, t, t);
  }

  /** Action `k` moves no unit but the one at place `k - 1`. */
  lemma AfterKeeps(g: Game, act: Action, k: nat, m: nat)
    requires 0 < k <= UnitCount(g.players) && m < UnitCount(g.players) && m != k - 1
    ensures ValidSlot(g.players, Slots(Sizes(g.players))[m])
    ensures
      var s := Slots(Sizes(g.players))[m];
      ValidSlot(After(g, act, k - 1).players, s) &&
      ValidSlot(After(g, act, k).players, s) &&
      After(g, act, k).players[s.player].units[s.unit] == After(g, act, k - 1).players[s.player].units[s.unit]
  {
    var s := Slots(Sizes(g.players))[m];
    SlotValid(g.players, m);
    AfterStep(g, act, k);
    AfterValid(g, act, k - 1, s);
    SlotsDistinct(g.players, m, k - 1);
    StepCell(After(g, act, k - 1), After(g, act, k), act, Slots(Sizes(g.players))[k - 1], s);
  }

  /** A unit whose turn has not come yet this tick is still where it was. */
  lemma {:induction false} AfterUnmoved(g: Game, act: Action, k: nat, m: nat)
    requires k <= m < UnitCount(g.players)
    ensures ValidSlot(g.players, Slots(Sizes(g.players))[m])
    ensures
      var s := Slots(Sizes(g.players))[m];
      ValidSlot(After(g, act, k).players, s) &&
      After(g, act, k).players[s.player].units[s.unit] == g.players[s.player].units[s.unit]
    decreases k
  {
    SlotValid(g.players, m);
    if k == 0 {
      assert After(g, act, 0) == g;
    } else {
      AfterUnmoved(g, act, k - 1, m);
      AfterKeeps(g, act, k, m);
    }
  }

  /** A unit that has had its turn stands, for the rest of the tick, on the
      cell its action chose in the game the `m` actions before it left. */
  lemma {:induction false} AfterMoved(g: Game, act: Action, k: nat, m: nat)
    requires m < k <= UnitCount(g.players)
    ensures ValidSlot(g.players, Slots(Sizes(g.players))[m])
    ensures
      var s := Slots(Sizes(g.players))[m];
      ValidSlot(After(g, act, k).players, s) &&
      After(g, act, k).players[s.player].units[s.unit] == act(After(g, act, m), s.player, s.unit)
    decreases k
  {
    if k - 1 == m {
      AfterActs(g, act, k);
    } else {
      AfterMoved(g, act, k - 1, m);
      AfterKeeps(g, act, k, m);
    }
  }

  /** Each unit acts exactly once, at its place in the order: after `k`
      actions, the unit at place `m` has moved iff `m < k`, and then to the
      cell its action chose in the game left by the `m` actions before it. */
  lemma AfterPositions(g: Game, act: Action, k: nat, m: nat)
    requires k <= UnitCount(g.players) && m < UnitCount(g.players)
    ensures ValidSlot(g.players, Slots(Sizes(g.players))[m])
    ensures
      var s := Slots(Sizes(g.players))[m];
      ValidSlot(After(g, act, k).players, s) &&
      After(g, act, k).players[s.player].units[s.unit] ==
        if m < k then act(After(g, act, m), s.player, s.unit) else g.players[s.player].units[s.unit]
  {
    if m < k {
      AfterMoved(g, act, k, m);
    } else {
      AfterUnmoved(g, act, k, m);
    }
  }

  /** Mid-tick occupancy: once some unit has acted, entry `m` of the occupied
      cells is the new cell of the unit at place `m` if it has already acted
      this tick and its old cell otherwise. */
  lemma MidTickOccupancy(g: Game, act: Action, k: nat, m: nat)
    requires 0 < k <= UnitCount(g.players) && m < UnitCount(g.players)
    ensures m < |After(g, act, k).occupied|
    ensures
      var s := Slots(Sizes(g.players))[m];
      s.player < |g.players| && s.unit < |g.players[s.player].units| &&
      After(g, act, k).occupied[m] ==
        if m < k then act(After(g, act, m), s.player, s.unit) else g.players[s.player].units[s.unit]
  {
    var r := After(g, act, k);
    AfterFlattens(g, act, k);
    AfterShape(g, act, k);
    SameShapeSizes(r.players, g.players);
    FlattensAt(r.players, r.occupied, m);
    AfterPositions(g, act, k, m);
  }

  /** After at least one action the occupied cells are exactly the units'
      current cells in roster order. */
  lemma AfterFlattens(g: Game, act: Action, k: nat)
    requires 0 < k <= UnitCount(g.players)
    ensures Flattens(After(g, act, k).players, After(g, act, k).occupied)
  {
    AfterStep(g, act, k);
    var prev := After(g, act, k - 1);
    var t := Slots(Sizes(g.players))[k - 1];
    OccupiedCellsFlatten(prev.(players := MoveUnit(prev.players, t.player, t.unit, act(prev, t.player, t.unit))));
  }

  /** The game at the end of one call of `Game.update`. */
  function Updated(g: Game, act: Action): (r: Game)
    ensures r.done == g.done && r.winner == g.winner
  {
    After(g, act, UnitCount(g.players))
  }

  /** What one tick does: rosters, ids and strategies stay, every unit has
      moved to the cell its own action chose in the game as it stood at its
      turn, and, unless there is no unit at all, the occupied cells list the
      new cells in roster order. */
  lemma UpdatedSpec(g: Game, act: Action)
    ensures SameShape(Updated(g, act).players, g.players)
    ensures UnitCount(g.players) > 0 ==> Flattens(Updated(g, act).players, Updated(g, act).occupied)
    ensures UnitCount(g.players) == 0 ==> Updated(g, act) == g
    ensures forall m :: 0 <= m < UnitCount(g.players) ==>
      var s := Slots(Sizes(g.players))[m];
      ValidSlot(Updated(g, act).players, s) &&
      Updated(g, act).players[s.player].units[s.unit] == act(After(g, act, m), s.player, s.unit)
  {
    var n := UnitCount(g.players);
    AfterShape(g, act, n);
    if n > 0 {
      AfterFlattens(g, act, n);
    }
    forall m | 0 <= m < n
      ensures
        var s := Slots(Sizes(g.players))[m];
        ValidSlot(After(g, act, n).players, s) &&
        After(g, act, n).players[s.player].units[s.unit] == act(After(g, act, m), s.player, s.unit)
    {
      AfterMoved(g, act, n, m);
    }
  }

  /** The game after the first `k` actions of the tick, named apart from the
      recursive `After` so that a loop invariant can carry it from one step
      to the next without unfolding the recursion. */
  function Prefix(g: Game, act: Action, k: nat): (r: Game)
    requires k <= UnitCount(g.players)
  {
    After(g, act, k)
  }

  /** The action of unit `j` of player `i` is the next one of the tick once
      the `i` earlier rosters and the `j` earlier units of this one have
      acted. */
  lemma TurnNext(g: Game, act: Action, i: nat, j: nat, n: nat, r: Game)
    requires i < |g.players| && j < |g.players[i].units|
    requires n == Offset(Sizes(g.players), i) + j && n <= UnitCount(g.players)
    requires r == After(g, act, n)
    ensures n < UnitCount(g.players)
    ensures ValidSlot(r.players, Slot(i, j))
    ensures Step(r, act, Slot(i, j)) == Prefix(g, act, n + 1)
  {
    SlotsAt(Sizes(g.players), i, j);
    AfterNext(g, act, n, Slot(i, j), r);
  }

  /** The inner loop of `Game.update`: the units of player `i` act one after
      the other, starting from the game the `k` earlier actions left. */
  method PlayerTurn(g: Game, act: Action, r0: Game, i: nat, k: nat) returns (r: Game, n: nat)
    requires i < |g.players| && k == Offset(Sizes(g.players), i) <= UnitCount(g.players)
    requires r0 == After(g, act, k)
    ensures n == k + |g.players[i].units| <= UnitCount(g.players)
    ensures r == After(g, act, n)
  {
    OffsetMonotone(Sizes(g.players), i + 1, |g.players|);
    r, n := r0, k;
    var j := 0;
    while j < |g.players[i].units|
      invariant 0 <= j <= |g.players[i].units|
      invariant n == k + j <= UnitCount(g.players)
      invariant r == Prefix(g, act, n)
    {
      TurnNext(g, act, i, j, n, r);
      r := Step(r, act, Slot(i, j));
      n := n + 1;
      j := j + 1;
    }
  }

  /** `Game.update`, loop for loop: for every player, for every unit of that
      player, the unit acts and the occupied cells are rebuilt. */
  method Update(g: Game, act: Action) returns (r: Game)
    ensures r == Updated(g, act)
  {
    var sizes := Sizes(g.players);
    r := g;
    var k := 0;
    var i := 0;
    while i < |g.players|
      invariant 0 <= i <= |g.players|
      invariant k == Offset(sizes, i) <= UnitCount(g.players)
      invariant r == After(g, act, k)
    {
      r, k := PlayerTurn(g, act, r, i, k);
      i := i + 1;
    }
  }
}
