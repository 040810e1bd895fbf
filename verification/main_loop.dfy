/**
 `Game.event_loop` and `Game.main_loop`: the only way the loop ends is a quit
 event or a held Escape key seen while the frame's events are read. Finding a
 winner does not end it, and the frame in which the quit is seen still runs
 its update and its victory check before the loop test stops it.
 */
module MainLoop {
  import opened GameState
  import opened Tick
  import opened Victory

  /** One pygame event as `event_loop` reads it: whether it is the window's
      quit event, and whether the key state sampled while handling it has
      Escape down. */
  datatype Event = Event(isQuit: bool, escapeHeld: bool)

  predicate Stops(e: Event)
  {
    e.isQuit || e.escapeHeld
  }

  /** Some event of the batch asks the game to stop. */
  predicate AnyStops(events: seq<Event>)
  {
    exists i :: 0 <= i < |events| && Stops(events[i])
  }

  /** The first `n` events of the batch, handled in order. */
  function EventsUpTo(g: Game, events: seq<Event>, n: nat): (r: Game)
    requires n <= |events|
    ensures r.players == g.players && r.occupied == g.occupied && r.winner == g.winner
    ensures r.done <==> g.done || exists i :: 0 <= i < n && Stops(events[i])
  {
    if n == 0 then g
    else
      var r := EventsUpTo(g, events, n - 1);
      if Stops(events[n - 1]) then r.(done := true) else r
  }

  /** `event_loop`: `done` becomes true when some event of the batch asks to
      stop, and is never cleared; nothing else changes. */
  function EventLoop(g: Game, events: seq<Event>): (r: Game)
    ensures r.players == g.players && r.occupied == g.occupied && r.winner == g.winner
    ensures r.done <==> g.done || AnyStops(events)
  {
    EventsUpTo(g, events, |events|)
  }

  /** One pass of the `main_loop` body: events, update, victory check. The
      drawing, display and clock calls in between change no game state. */
  function Frame(g: Game, events: seq<Event>, act: Action): (r: Game)
    ensures r.done <==> g.done || AnyStops(events)
    ensures g.winner.Some? ==> r.winner == g.winner
    ensures r.winner.None? ==> forall i :: 0 <= i < |r.players| ==> !Qualifies(r.players[i].units)
  {
    CheckVictory(Updated(EventLoop(g, events), act))
  }

  /** The frame that sees the quit still moves every unit, exactly as a frame
      without a quit would. */
  lemma QuitFrameStillMoves(g: Game, events: seq<Event>, act: Action, m: nat)
    requires AnyStops(events) && m < UnitCount(g.players)
    ensures Frame(g, events, act).done
    ensures
      var e := EventLoop(g, events);
      var s := Slots(Sizes(g.players))[m];
      ValidSlot(Frame(g, events, act).players, s) &&
      Frame(g, events, act).players[s.player].units[s.unit] == act(After(e, act, m), s.player, s.unit)
  {
    UpdatedSpec(EventLoop(g, events), act);
  }

  /** What one frame of `main_loop` is handed from outside the game: the
      events pygame delivers, and how the units act in that frame's tick.
      Taking a fresh action per frame lets the bots change their behaviour
      from frame to frame, by memory or by chance. */
  datatype FrameInput = FrameInput(events: seq<Event>, act: Action)

  /** Where a run of the main loop ends: the game, and how many frames ran. */
  datatype RunResult = RunResult(game: Game, frames: nat)

  /** `main_loop` fed with the inputs of successive frames, from frame `i`
      on: it stops before a frame once `done` is set. The pygame event queue
      is unbounded; here the run also stops when the inputs run out. */
  function RunFrom(g: Game, inputs: seq<FrameInput>, i: nat): (r: RunResult)
    requires i <= |inputs|
    ensures i <= r.frames <= |inputs|
    ensures r.game.done || r.frames == |inputs|
    ensures g.done ==> r == RunResult(g, i)
    ensures g.winner.Some? ==> r.game.winner == g.winner
    decreases |inputs| - i
  {
    if g.done || i == |inputs| then RunResult(g, i)
    else RunFrom(Frame(g, inputs[i].events, inputs[i].act), inputs, i + 1)
  }

  function Run(g: Game, inputs: seq<FrameInput>): (r: RunResult)
    ensures r.frames <= |inputs|
    ensures r.game.done || r.frames == |inputs|
    ensures g.winner.Some? ==> r.game.winner == g.winner
  {
    RunFrom(g, inputs, 0)
  }

  /** The loop runs frame after frame until the first frame whose events ask
      to stop, and that frame is the last one. */
  lemma {:induction false} RunStopsAtFirstQuit(g: Game, inputs: seq<FrameInput>, i: nat)
    requires i <= |inputs| && !g.done
    ensures var r := RunFrom(g, inputs, i);
      && (forall j :: i <= j < r.frames - 1 ==> !AnyStops(inputs[j].events))
      && (r.game.done ==> i < r.frames && AnyStops(inputs[r.frames - 1].events))
    decreases |inputs| - i
  {
    if i < |inputs| {
      var h := Frame(g, inputs[i].events, inputs[i].act);
      if !h.done {
        RunStopsAtFirstQuit(h, inputs, i + 1);
      }
    }
  }

  /** A winner does not stop the loop: with no quit in sight every frame runs,
      whatever the victory checks find. */
  lemma {:induction false} NoQuitRunsAll(g: Game, inputs: seq<FrameInput>, i: nat)
    requires i <= |inputs| && !g.done
    requires forall j :: i <= j < |inputs| ==> !AnyStops(inputs[j].events)
    ensures RunFrom(g, inputs, i).frames == |inputs|
    ensures !RunFrom(g, inputs, i).game.done
    decreases |inputs| - i
  {
    if i < |inputs| {
      NoQuitRunsAll(Frame(g, inputs[i].events, inputs[i].act), inputs, i + 1);
    }
  }
}
