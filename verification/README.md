# strategypy game core in Dafny

A model of the `Game` class of strategypy (`strategypy/core/game.py`), the
turn-based grid game in which each player's bot moves its units and a player
wins once all its units stand in one column or one row. The model covers the
game's own bookkeeping:

- building the players (`init_players`) and the starting game (`__init__`);
- the flat unit list (`units`) and the occupied-cells list
  (`set_occupied_cells`);
- one tick of `update`, in which every unit acts once, in player order and
  then roster order, and the occupied cells are rebuilt after every single
  action;
- the victory test (`check_for_victory`);
- the stop flag set by `event_loop`, and the frames of `main_loop`.

A unit is its cell `Pos(x, y)`. A player is its id `pk`, the name of its bot
and its roster of units. The recorded winner is the index of the winning
player, which equals its `pk` for players built by `init_players`.

What a unit does when it acts (`unit.action()`, code that is not part of this
model) is a parameter `act` of type `Action`. Given the game as it stands,
the player index and the roster index, it returns the unit's new cell. How
`Player.__init__` builds a roster is likewise a parameter `spawn`. It is
handed the players created so far, because the real constructor receives the
game while `players` is still being filled.

Modules:

- `GameState` (`game_state.dfy`): the data model, the flattening of rosters
  into the unit order, occupancy and initialisation.
- `Tick` (`tick.dfy`): `update`, as a function `After` over the first `k`
  actions and as the two nested loops.
- `Victory` (`victory.dfy`): `check_for_victory`.
- `MainLoop` (`main_loop.dfy`): `event_loop` and `main_loop`.

Points where the code does something a reader may not expect, all of which
the model keeps:

- When several players qualify in the same check, the victory scan has no
  `break` and no lowest-id tie-break: the last qualifying player in player
  order is the one recorded.
- Finding a winner does not set `done`. The main loop goes on running frames
  until a quit event or a held Escape key, and the winner stays fixed.
- The frame in which the quit is seen still runs its update and its victory
  check, because the loop condition is only tested at the top.
- The occupied cells start as the empty list. They are first computed when
  the first unit acts and are recomputed after every action, so a unit sees
  the cells of all units as they stand at its own turn. With no units at all
  they are never computed.

## Model

| member | source | states |
|---|---|---|
| GameState.UnitsFlattens | strategypy/core/game.py:55-60 | `units` (the function `Units`) lists every unit once, player by player and each roster in order: unit `j` of player `i` sits at the sum of the earlier roster sizes plus `j`, and the length is the total unit count |
| GameState.FlattensUnique | strategypy/core/game.py:55-60 | two lists that both flatten the same rosters are equal, so the flattening property pins `units` down completely |
| GameState.SlotsOrdered | strategypy/core/game.py:75-76 | the nested iteration order visits players in increasing index, and the units of one player in increasing roster index |
| GameState.OccupiedCellsFlatten | strategypy/core/game.py:18-23 | after `set_occupied_cells` the occupied list is the flattening of the current rosters: one cell per unit, in unit order |
| GameState.OccupiedKeepsDuplicates | strategypy/core/game.py:18-23 | two distinct units on one cell put that cell into the occupied list twice; the list is not deduplicated |
| GameState.SetOccupiedCells | strategypy/core/game.py:18-23 | rebuilding the occupied list leaves the players, the stop flag and the winner untouched |
| GameState.InitPlayers | strategypy/core/game.py:34-44 | one player per bot, in argument order; player `i` has id `i` and bot `i`, and its roster is built from exactly the players created before it |
| GameState.NewGame | strategypy/core/game.py:9-16 | a new game has one player per bot with ids `0..n-1`, an empty occupied list, is not done and has no winner |
| Tick.Step | strategypy/core/game.py:77-78 | one action followed by the rebuild of the occupied list changes only the rosters and the occupied list: the stop flag and the winner stay as they were (where the units go is stated by `AfterActs` and `AfterKeeps`) |
| Tick.After | strategypy/core/game.py:71-78 | the game after the first `k` actions of a tick, in player-then-roster order, has the stop flag and the winner it started with |
| Tick.Updated | strategypy/core/game.py:71-78 | a whole tick leaves the stop flag and the winner as they were, so `update` never ends the game or records a winner (what it does to the units is stated by `UpdatedSpec`) |
| Tick.AfterActs | strategypy/core/game.py:76-78 | the `k`-th action of a tick moves the unit at place `k - 1` of the order to the cell its action chose in the game left by the actions before it |
| Tick.AfterKeeps | strategypy/core/game.py:76-78 | the `k`-th action of a tick leaves every other unit where it was |
| Tick.AfterMoved | strategypy/core/game.py:71-78 | after the first `k` actions of a tick, every unit that has acted stands on the cell its action chose in the game as it was at that unit's turn |
| Tick.AfterUnmoved | strategypy/core/game.py:71-78 | after the first `k` actions of a tick, every unit that has not acted yet is still on its starting cell |
| Tick.MidTickOccupancy | strategypy/core/game.py:76-78 | after any action of a tick, entry `m` of the occupied list is unit `m`'s new cell if it has acted and its old cell if not, so later units see earlier moves |
| Tick.AfterFlattens | strategypy/core/game.py:76-78 | after at least one action the occupied list is the flattening of the current rosters |
| Tick.UpdatedSpec | strategypy/core/game.py:71-78 | a whole tick keeps every player's id, bot and roster size. Each unit ends on the cell its action chose at its turn. With at least one unit the occupied list is the flattening of the new rosters. With no units the game is unchanged |
| Tick.TurnNext | strategypy/core/game.py:75-78 | unit `j` of player `i` is the next to act once the earlier rosters and the first `j` units of this one have acted, and its action extends the tick by one step |
| Tick.PlayerTurn | strategypy/core/game.py:76-78 | the inner loop over one roster performs exactly that player's actions, in order, continuing the tick where the earlier players left it |
| Tick.Update | strategypy/core/game.py:71-78 | the two nested loops of `update` compute the same game as the tick function `Updated`, one action per unit in player-then-roster order |
| Victory.QualifiesIffAligned | strategypy/core/game.py:136-140 | the coded test `Qualifies` (one distinct x or one distinct y) holds exactly when the roster is non-empty and all units share one column or all share one row |
| Victory.SingleUnitQualifies | strategypy/core/game.py:137-140 | a player with a single unit always passes the victory test |
| Victory.ScenarioColumn | strategypy/core/game.py:137-140 | three units in one column qualify; three units in neither one row nor one column do not; a player with no units never qualifies, since both coordinate sets are empty |
| Victory.LastQualifier | strategypy/core/game.py:136-142 | scanning the first `n` players records nothing exactly when none of them qualifies, and otherwise records a qualifying player after which no scanned player qualifies |
| Victory.CheckVictory | strategypy/core/game.py:126-143 | an already recorded winner is kept, so once set it never changes. Otherwise the result is no winner only if no player qualifies, or else the last qualifying player. Rosters, the occupied list and the stop flag never change |
| Victory.CheckForVictory | strategypy/core/game.py:126-143 | the loop that records every qualifying player in turn, overwriting earlier ones, yields exactly `CheckVictory` |
| Victory.TieGoesToLast | strategypy/core/game.py:136-142 | with two players that both qualify in the same check, one on a column and one on a row, player 1 is recorded and not player 0 |
| MainLoop.EventLoop | strategypy/core/game.py:62-69 | after reading a batch of events the game is done exactly when it was done before or some event is a quit or had Escape held; nothing else changes |
| MainLoop.Frame | strategypy/core/game.py:156-162 | one frame is done exactly when the game was done or its events ask to stop, finding a winner does not stop it, a recorded winner is kept, and no winner after the frame means no player qualifies |
| MainLoop.QuitFrameStillMoves | strategypy/core/game.py:156-158 | the frame whose events ask to stop is done, yet every unit has still moved to the cell its action chose |
| MainLoop.RunFrom | strategypy/core/game.py:152-163 | from frame `i` on, the loop stops either on a done game or when the inputs run out, never runs a frame on a done game, and never replaces a recorded winner |
| MainLoop.Run | strategypy/core/game.py:152-163 | a whole run of the loop ends done unless every frame's input was used, runs no more frames than there are inputs, and keeps a winner the game started with |
| MainLoop.RunStopsAtFirstQuit | strategypy/core/game.py:152-163 | no frame before the last one asks to stop, and if the run ends done, the last frame that ran is the one whose events asked to stop |
| MainLoop.NoQuitRunsAll | strategypy/core/game.py:152-163 | when no frame's events ask to stop, every frame runs and the game is not done at the end, whatever winner the checks found |

## Left out

- Drawing, the grid, the window caption and the frame clock (`draw`, `draw_grid`, `display_caption`, `update_caption_with_victorious_player`, `pygame.display.update`, `clock.tick`, `init_screen`) are not modelled. The model assumes they change no game state; `unit.render()`, which `draw` calls, is not part of this model.
- `init_bots` imports one bot module per argument of `Game(*args)` by reflection; the model takes the list of bot names as given (where the arguments come from is not part of this model).
- The internals of `Player`, `Unit` and the bots (`strategypy/core/players.py` and the bot modules are not part of this model); a unit's action and a player's roster construction are the parameters `act` and `spawn`.
- Bot memory and randomness are modelled only at frame granularity: each frame gets its own action function (`FrameInput.act`), so a bot may behave differently from frame to frame, by memory or by chance. Within one tick the action is a function of the game as it stands, the player index and the roster index, so bot state that changes between two units' turns in the same tick, or a random draw that differs for two identical situations in one tick, is not modelled.
- The victory check reads `unit.current_cell` while occupancy reads `(unit.x, unit.y)`; the model assumes the two agree and stores one cell per unit.
- `check_for_victory` tests the recorded winner by Python truthiness; the model assumes a recorded player is always truthy, as objects are by default.
- `event_loop` reads the pygame event queue and samples the keyboard per event; the model takes each frame's events as a list of records saying whether the event is a quit and whether Escape was down. An empty batch never sets `done`, as in the code.
- MainLoop.RunFrom: the real loop can run forever; the model consumes a finite list of frame inputs and also stops when they run out.
