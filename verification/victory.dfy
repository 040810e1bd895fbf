/**
 `Game.check_for_victory`: a player wins when all its units share one column
 or one row. The check is skipped once a winner is known, and it walks every
 player without stopping, so when several players qualify at once the last
 one in player order is the one recorded.
 */
module Victory {
  import opened GameState

  /** The distinct x coordinates of a roster. */
  function Xs(us: seq<Pos>): set<int>
  {
    set i | 0 <= i < |us| :: us[i].x
  }

  /** The distinct y coordinates of a roster. */
  function Ys(us: seq<Pos>): set<int>
  {
    set i | 0 <= i < |us| :: us[i].y
  }

  /** The victory test of one player, as the game writes it: exactly one
      distinct x or exactly one distinct y. */
  predicate Qualifies(us: seq<Pos>)
  {
    |Xs(us)| == 1 || |Ys(us)| == 1
  }

  /** Alignment stated directly: the player has units and they all stand in
      one column or all in one row. The docstring of `check_for_victory`
      asks only that the units be aligned; that a player with no units never
      qualifies comes from the coded test, whose coordinate sets are then
      empty. */
  predicate Aligned(us: seq<Pos>)
  {
    && |us| > 0
    && ((forall i :: 0 <= i < |us| ==> us[i].x == us[0].x) ||
        (forall i :: 0 <= i < |us| ==> us[i].y == us[0].y))
  }

  /** A finite set holding `e` has one element exactly when it is `{e}`. */
  lemma SingletonSet(s: set<int>, e: int)
    requires e in s
    ensures |s| == 1 <==> s == {e}
  {
    if |s| == 1 {
      var rest := s - {e};
      assert |rest| == 0;
      assert rest == {};
      assert s == {e};
    }
  }

  /** Exactly one distinct x means: some unit, and every unit in the column
      of the first one. */
  lemma OneColumn(us: seq<Pos>)
    ensures |Xs(us)| == 1 <==> |us| > 0 && forall i :: 0 <= i < |us| ==> us[i].x == us[0].x
  {
    if |us| == 0 {
      assert Xs(us) == {};
    } else {
      assert us[0].x in Xs(us);
      SingletonSet(Xs(us), us[0].x);
      if |Xs(us)| == 1 {
        forall i | 0 <= i < |us|
          ensures us[i].x == us[0].x
        {
          assert us[i].x in Xs(us);
        }
      }
      if forall i :: 0 <= i < |us| ==> us[i].x == us[0].x {
        assert Xs(us) == {us[0].x};
      }
    }
  }

  /** Exactly one distinct y means: some unit, and every unit in the row of
      the first one. */
  lemma OneRow(us: seq<Pos>)
    ensures |Ys(us)| == 1 <==> |us| > 0 && forall i :: 0 <= i < |us| ==> us[i].y == us[0].y
  {
    if |us| == 0 {
      assert Ys(us) == {};
    } else {
      assert us[0].y in Ys(us);
      SingletonSet(Ys(us), us[0].y);
      if |Ys(us)| == 1 {
        forall i | 0 <= i < |us|
          ensures us[i].y == us[0].y
        {
          assert us[i].y in Ys(us);
        }
      }
      if forall i :: 0 <= i < |us| ==> us[i].y == us[0].y {
        assert Ys(us) == {us[0].y};
      }
    }
  }

  /** The coded test is the alignment rule, in both directions. */
  lemma QualifiesIffAligned(us: seq<Pos>)
    ensures Qualifies(us) <==> Aligned(us)
  {
    OneColumn(us);
    OneRow(us);
  }

  /** A player with a single unit always qualifies. */
  lemma SingleUnitQualifies(p: Pos)
    ensures Qualifies([p])
  {
    QualifiesIffAligned([p]);
  }

  /** The player the scan of players `0 .. n-1` leaves recorded: the last
      qualifying one, or none. */
  function LastQualifier(ps: seq<Player>, n: nat): (r: Option<nat>)
    requires n <= |ps|
    ensures r.None? <==> forall i :: 0 <= i < n ==> !Qualifies(ps[i].units)
    ensures r.Some? ==> r.value < n && Qualifies(ps[r.value].units)
    ensures r.Some? ==> forall i :: r.value < i < n ==> !Qualifies(ps[i].units)
  {
    if n == 0 then None
    else if Qualifies(ps[n - 1].units) then Some(n - 1)
    else LastQualifier(ps, n - 1)
  }

  /** `check_for_victory` as a function of the game. */
  function CheckVictory(g: Game): (r: Game)
    ensures r.players == g.players && r.occupied == g.occupied && r.done == g.done
    ensures g.winner.Some? ==> r.winner == g.winner
    ensures g.winner.None? && r.winner.None? ==>
      forall i :: 0 <= i < |g.players| ==> !Qualifies(g.players[i].units)
    ensures g.winner.None? && r.winner.Some? ==>
      && r.winner.value < |g.players|
      && Qualifies(g.players[r.winner.value].units)
      && forall i :: r.winner.value < i < |g.players| ==> !Qualifies(g.players[i].units)
  {
    if g.winner.Some? then g else g.(winner := LastQualifier(g.players, |g.players|))
  }

  /** `check_for_victory`, statement for statement: return at once if a winner
      is known, otherwise look at every player in order and record each one
      that qualifies, overwriting any earlier one. */
  method CheckForVictory(g: Game) returns (r: Game)
    ensures r == CheckVictory(g)
  {
    if g.winner.Some? {
      return g;
    }
    r := g;
    var i := 0;
    while i < |g.players|
      invariant 0 <= i <= |g.players|
      invariant r == g.(winner := LastQualifier(g.players, i))
    {
      var xs := Xs(g.players[i].units);
      var ys := Ys(g.players[i].units);
      if |xs| == 1 || |ys| == 1 {
        r := r.(winner := Some(i));
      }
      i := i + 1;
    }
  }

  /** Two players that both qualify in the same check, one on a column and
      one on a row: the second one is recorded, not the one with the lower
      id. */
  lemma TieGoesToLast(g: Game)
    requires g.winner.None?
    requires g.players == [Player(0, "a", [Pos(1, 1), Pos(1, 4)]), Player(1, "b", [Pos(3, 2), Pos(6, 2)])]
    ensures Qualifies(g.players[0].units) && Qualifies(g.players[1].units)
    ensures CheckVictory(g).winner == Some(1)
  {
    QualifiesIffAligned(g.players[0].units);
    QualifiesIffAligned(g.players[1].units);
  }

  /** A roster in one column qualifies; one that is in neither a single row
      nor a single column does not, and neither does an empty roster. */
  lemma ScenarioColumn()
    ensures Qualifies([Pos(2, 1), Pos(2, 5), Pos(2, 9)])
    ensures !Qualifies([Pos(1, 2), Pos(4, 2), Pos(7, 9)])
    ensures !Qualifies([])
  {
    var a := [Pos(2, 1), Pos(2, 5), Pos(2, 9)];
    var b := [Pos(1, 2), Pos(4, 2), Pos(7, 9)];
    QualifiesIffAligned(a);
    QualifiesIffAligned(b);
    assert b[2].y != b[0].y;
    assert b[1].x != b[0].x;
  }
}
