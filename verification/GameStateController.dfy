/**
 * The match clock: a countdown that ends play exactly once, switching the
 * phase to GAME_OVER and firing the finish event.
 */
module GameState {

  datatype GameStates = PLAYING | PAUSED | GAME_OVER

  /** The controller's fields; `seconds` is the whole number the timer text shows. */
  datatype Game = Game(
    currentState: GameStates,
    timer: real,
    seconds: int,
    gameIsEnded: bool,
    newGameStartingTime: real)

  /** The field initialisers: playing, not ended, sixty seconds on the clock. */
  function Initial(newGameStartingTime: real): (g: Game)
    ensures g.currentState == PLAYING && !g.gameIsEnded
    ensures g.timer == 60.0 && g.seconds == 60
  {
    Game(PLAYING, 60.0, 60, false, newGameStartingTime)
  }

  /** `Start` loads the configured match length into the timer. */
  function Start(g: Game): (r: Game)
    ensures r.timer == g.newGameStartingTime
    ensures r.(timer := g.timer) == g
  {
    g.(timer := g.newGameStartingTime)
  }

  /** A frame's outcome: the new state and whether `gameFinished` was invoked. */
  datatype Frame = Frame(game: Game, finished: bool)

  /**
   * `Update`, given the frame time `dt` and `shownSeconds`, the display
   * rounding of the new timer.  While time remains the clock runs down and
   * the phase is untouched; the first frame at or below zero ends the game;
   * after that nothing changes.
   */
  function Update(g: Game, dt: real, shownSeconds: int): (r: Frame)
    ensures !g.gameIsEnded && g.timer > 0.0 ==>
      && !r.finished
      && r.game == g.(timer := g.timer - dt, seconds := shownSeconds)
    ensures !g.gameIsEnded && g.timer <= 0.0 ==>
      && r.finished
      && r.game == g.(gameIsEnded := true, seconds := 0, currentState := GAME_OVER)
    ensures g.gameIsEnded ==> r == Frame(g, false)
  {
    if g.timer > 0.0 && !g.gameIsEnded then
      Frame(g.(timer := g.timer - dt, seconds := shownSeconds), false)
    else if g.timer <= 0.0 && !g.gameIsEnded then
      Frame(g.(gameIsEnded := true, seconds := 0, currentState := GAME_OVER), true)
    else
      Frame(g, false)
  }

  /** `ResetTimer` refills the clock but leaves the phase and the ended flag alone. */
  function ResetTimer(g: Game): (r: Game)
    ensures r.timer == g.newGameStartingTime && r.seconds == 60
    ensures r.currentState == g.currentState && r.gameIsEnded == g.gameIsEnded
    ensures r.newGameStartingTime == g.newGameStartingTime
  {
    g.(timer := g.newGameStartingTime, seconds := 60)
  }

  /** The phase is never PAUSED, and it is GAME_OVER exactly when the game has ended. */
  predicate Consistent(g: Game) {
    g.currentState != PAUSED && (g.gameIsEnded <==> g.currentState == GAME_OVER)
  }

  /** Everything that can happen to the clock. */
  datatype Event = Tick(dt: real, shownSeconds: int) | Reset

  function Apply(g: Game, e: Event): Frame {
    match e
    case Tick(dt, shown) => Update(g, dt, shown)
    case Reset => Frame(ResetTimer(g), false)
  }

  /** A run of events: the final state and how many times `gameFinished` fired. */
  function Run(g: Game, events: seq<Event>): (Game, nat)
    decreases |events|
  {
    if |events| == 0 then (g, 0)
    else
      var f := Apply(g, events[0]);
      var (last, fired) := Run(f.game, events[1..]);
      (last, fired + if f.finished then 1 else 0)
  }

  /** `gameFinished` fires at most once in any run, and never once the game has ended, resets or not. */
  lemma {:induction false} FinishedFiresAtMostOnce(g: Game, events: seq<Event>)
    decreases |events|
    ensures Run(g, events).1 <= if g.gameIsEnded then 0 else 1
    ensures g.gameIsEnded ==> Run(g, events).0.gameIsEnded
  {
    if |events| > 0 {
      var f := Apply(g, events[0]);
      FinishedFiresAtMostOnce(f.game, events[1..]);
    }
  }

  /** Every run from the initial state keeps the phase consistent: never PAUSED, GAME_OVER for good. */
  lemma {:induction false} RunStaysConsistent(g: Game, events: seq<Event>)
    requires Consistent(g)
    decreases |events|
    ensures Consistent(Run(g, events).0)
    ensures g.currentState == GAME_OVER ==> Run(g, events).0.currentState == GAME_OVER
  {
    if |events| > 0 {
      var f := Apply(g, events[0]);
      RunStaysConsistent(f.game, events[1..]);
    }
  }

  /** Resetting an ended game does not restart the countdown: the next frame changes nothing. */
  lemma ResetDoesNotResume(g: Game, dt: real, shownSeconds: int)
    requires g.gameIsEnded
    ensures Update(ResetTimer(g), dt, shownSeconds) == Frame(ResetTimer(g), false)
  {
  }
}
