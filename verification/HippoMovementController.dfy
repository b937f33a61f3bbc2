/**
 * One physics step of a player's body: gate the movement source on the game
 * phase, then either move freely and update the locomotion state, or slide
 * along the wall that the forward probe hit; finally start a kick if one was
 * requested.  The probe, the rigid-body moves and the facing rotation belong
 * to the engine; what remains is the state machine and the arithmetic of the
 * slide's remaining distance.
 */
module HippoMovement {
  import opened Geometry
  import opened PlayerState
  import InputData
  import GameState
  import HumanInput

  /** The slide loop gives up after this many corrections. */
  const MaxBounces: nat := 4

  /** `Mathf.Epsilon`, the smallest positive single-precision value. */
  const FloatEpsilon: real := 1.401298e-45

  /** The least fraction of the remaining distance a head-on hit keeps. */
  const MinShoveFactor: real := 0.1

  /** `Start`: the player begins every round idle. */
  function Start(c: StateController): (r: StateController)
    ensures r.currentState == IDLE
  {
    SetCurrentState(c, IDLE)
  }

  /**
   * The locomotion state after a step.  Only a free (no wall hit) step
   * changes it: RUNNING on positive movement, IDLE on none, and KICKING is
   * never left.
   */
  function LocomotionState(s: CharacterState, magnitude: real, wallHit: bool): (r: CharacterState)
    ensures wallHit ==> r == s
    ensures s == KICKING ==> r == KICKING
    ensures !wallHit && s != KICKING && magnitude > 0.0 ==> r == RUNNING
    ensures !wallHit && s != KICKING && magnitude <= 0.0 ==> r == IDLE
  {
    if wallHit then s
    else if s != RUNNING && magnitude > 0.0 && s != KICKING then RUNNING
    else if magnitude <= 0.0 && s != KICKING then IDLE
    else s
  }

  /** The kick trigger: a press outside KICKING starts a kick and its particles; otherwise nothing happens. */
  function KickTrigger(s: CharacterState, pressed: bool): (r: (CharacterState, bool))
    ensures pressed && s != KICKING ==> r == (KICKING, true)
    ensures !(pressed && s != KICKING) ==> r == (s, false)
  {
    if pressed && s != KICKING then (KICKING, true) else (s, false)
  }

  /**
   * What one step leaves behind: the shared input data, the human
   * controller's actions after the gate, the new state, and the step's
   * visible effects.
   */
  datatype Step = Step(
    input: InputData.Controller,
    actions: HumanInput.Actions,
    state: StateController,
    turned: bool,
    kickParticlesPlayed: bool)

  /**
   * `HippoMovement`.  The body's input source is the human controller: the
   * step reads the movement value from its shared data `input`, gates its
   * `actions` on the game phase through the controller's overrides, which
   * leave the shared enable flag alone, and asks it about the kick
   * (`kickPressed`).  `magnitude` is the length of the resulting planar
   * movement and `wallHit` the probe's verdict.
   */
  function HippoStep(
    input: InputData.Controller, actions: HumanInput.Actions, c: StateController,
    phase: GameState.GameStates, magnitude: real, wallHit: bool, kickPressed: bool): (r: Step)
    ensures r.input == input
    ensures r.actions.move <==> phase == GameState.PLAYING
    ensures HumanInput.InStep(actions) ==> (r.actions.kick <==> phase == GameState.PLAYING)
    ensures r.turned <==> input.moveVal != Zero2
    ensures c.currentState == KICKING ==> r.state.currentState == KICKING && !r.kickParticlesPlayed
    ensures r.kickParticlesPlayed <==> kickPressed && c.currentState != KICKING
    ensures r.kickParticlesPlayed ==> r.state.currentState == KICKING
    ensures !r.kickParticlesPlayed ==> r.state.currentState == LocomotionState(c.currentState, magnitude, wallHit)
  {
    var gated := if phase != GameState.PLAYING then HumanInput.DisableActions(actions) else HumanInput.EnableActions(actions);
    var moved := SetCurrentState(c, LocomotionState(c.currentState, magnitude, wallHit));
    var (s, played) := KickTrigger(moved.currentState, kickPressed);
    Step(input, gated, SetCurrentState(moved, s), input.moveVal.x != 0.0 || input.moveVal.y != 0.0, played)
  }

  /** Once KICKING, no sequence of steps leaves it: only a collaborator's setter can. */
  lemma KickingIsSticky(
    input: InputData.Controller, actions: HumanInput.Actions, c: StateController,
    phase: GameState.GameStates, magnitude: real, wallHit: bool, kickPressed: bool)
    requires c.currentState == KICKING
    ensures HippoStep(input, actions, c, phase, magnitude, wallHit, kickPressed).state == c
  {
  }

  /** A part of a positive whole is a fraction in [0, 1]. */
  lemma RatioInUnit(part: real, whole: real)
    requires 0.0 <= part <= whole && whole > 0.0
    ensures 0.0 <= part / whole <= 1.0
  {
  }

  /** The shove angle clipped to `maxShoveAngle` and scaled into [0, 1]. */
  function NormalizedAngle(angleBetween: real, maxShoveAngle: real): (r: real)
    requires 15.0 <= maxShoveAngle <= 75.0
    ensures 0.0 <= r <= 1.0
    ensures Abs(angleBetween) >= maxShoveAngle ==> r == 1.0
  {
    var clipped := if maxShoveAngle <= Abs(angleBetween) then maxShoveAngle else Abs(angleBetween);
    RatioInUnit(clipped, maxShoveAngle);
    assert maxShoveAngle / maxShoveAngle == 1.0;
    clipped / maxShoveAngle
  }

  /**
   * The attenuation `(1 - normalizedAngle)^0.5 * 0.9 + 0.1`, given `root`,
   * the square root of `1 - normalizedAngle`: between 0.1 (head-on) and 1 (glancing).
   */
  function ShoveFactor(normalizedAngle: real, root: real): (r: real)
    requires 0.0 <= normalizedAngle <= 1.0
    requires root >= 0.0 && root * root == 1.0 - normalizedAngle
    ensures MinShoveFactor <= r <= 1.0
    ensures normalizedAngle == 1.0 ==> r == MinShoveFactor
    ensures normalizedAngle == 0.0 ==> r == 1.0
  {
    SquareOrder(1.0, root);
    SquareOrder(root, 1.0);
    SquareOrder(0.0, root);
    root * 0.9 + 0.1
  }

  /** A more head-on hit never keeps more of the remaining distance. */
  lemma ShoveFactorDecreasesWithAngle(a1: real, root1: real, a2: real, root2: real)
    requires 0.0 <= a1 <= a2 <= 1.0
    requires root1 >= 0.0 && root1 * root1 == 1.0 - a1
    requires root2 >= 0.0 && root2 * root2 == 1.0 - a2
    ensures ShoveFactor(a2, root2) <= ShoveFactor(a1, root1)
  {
    SquareOrder(root1, root2);
  }

  /** Scaling by an attenuation factor never grows a distance and keeps a negative one negative. */
  lemma ScaleByFactor(x: real, factor: real)
    requires MinShoveFactor <= factor <= 1.0
    ensures x >= 0.0 ==> x * factor <= x
    ensures x < 0.0 ==> x * factor < 0.0
  {
    if x >= 0.0 {
      assert x * factor <= x * 1.0;
    }
  }

  /** A distance attenuated by a factor of the slide: never longer, and a negative one stays negative. */
  function Scale(x: real, factor: real): (r: real)
    requires MinShoveFactor <= factor <= 1.0
    ensures x >= 0.0 ==> r <= x
    ensures x < 0.0 ==> r < 0.0
  {
    ScaleByFactor(x, factor);
    x * factor
  }

  /** One correction of the slide: the hit distance comes off, then the attenuation applies. */
  function SlideStep(remaining: real, hitDistance: real, factor: real): (r: real)
    requires remaining > 0.0 && hitDistance >= 0.0 && MinShoveFactor <= factor <= 1.0
    ensures r <= remaining
    ensures r <= remaining - hitDistance || r < 0.0
  {
    Scale(remaining - hitDistance, factor)
  }


  /**
   * The wall-slide loop on the remaining distance alone.  The probe's hit is
   * taken once before the loop, so `hitDistance` and `factor` stay fixed.
   * `trace` lists the remaining distance before each correction and after the last.
   */
  method WallSlide(initial: real, hitDistance: real, factor: real) returns (bounces: nat, remaining: real, trace: seq<real>)
    requires hitDistance >= 0.0 && MinShoveFactor <= factor <= 1.0
    ensures bounces <= MaxBounces
    ensures bounces < MaxBounces ==> remaining <= FloatEpsilon
    ensures bounces == 0 <==> initial <= FloatEpsilon
    ensures |trace| == bounces + 1 && trace[0] == initial && trace[bounces] == remaining
    ensures forall k :: 0 <= k < bounces ==>
      && trace[k] > FloatEpsilon
      && trace[k + 1] == SlideStep(trace[k], hitDistance, factor)
      && trace[k + 1] <= trace[k]
    ensures remaining <= initial
  {
    bounces := 0;
    remaining := initial;
    trace := [initial];
    while bounces < MaxBounces && remaining > FloatEpsilon
      invariant bounces <= MaxBounces
      invariant |trace| == bounces + 1 && trace[0] == initial && trace[bounces] == remaining
      invariant forall k :: 0 <= k < bounces ==>
        && trace[k] > FloatEpsilon
        && trace[k + 1] == SlideStep(trace[k], hitDistance, factor)
        && trace[k + 1] <= trace[k]
      invariant remaining <= initial
      invariant bounces > 0 ==> initial > FloatEpsilon
      decreases MaxBounces - bounces
    {
      remaining := SlideStep(remaining, hitDistance, factor);
      trace := trace + [remaining];
      bounces := bounces + 1;
    }
  }
}
