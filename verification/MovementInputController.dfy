/**
 * The human player's input controller.  It overrides the shared input data's
 * enable and disable operations: instead of the shared enable flag it
 * switches its two input-system actions, movement and kick, and it decides
 * whether to switch them by looking at the movement action alone.
 */
module HumanInput {
  /** Whether each of the controller's two input-system actions is enabled. */
  datatype Actions = Actions(move: bool, kick: bool)

  /** The two actions agree, as they do after the component's `OnEnable` or `OnDisable`. */
  predicate InStep(a: Actions) {
    a.move == a.kick
  }

  /**
   * `EnableActions` (override): a disabled movement action switches both
   * actions on; an enabled one leaves everything as it is.
   */
  function EnableActions(a: Actions): (r: Actions)
    ensures r.move
    ensures a.move ==> r == a
    ensures !a.move ==> r.kick
    ensures InStep(a) ==> InStep(r)
  {
    if !a.move then Actions(true, true) else a
  }

  /**
   * `DisableActions` (override): an enabled movement action switches both
   * actions off; a disabled one leaves everything as it is.
   */
  function DisableActions(a: Actions): (r: Actions)
    ensures !r.move
    ensures !a.move ==> r == a
    ensures a.move ==> !r.kick
    ensures InStep(a) ==> InStep(r)
  {
    if a.move then Actions(false, false) else a
  }

  /**
   * Switching is idempotent, and a switch in one direction followed by one in
   * the other always ends with both actions agreeing, whatever the start.
   */
  lemma SwitchingSettles(a: Actions)
    ensures EnableActions(EnableActions(a)) == EnableActions(a)
    ensures DisableActions(DisableActions(a)) == DisableActions(a)
    ensures DisableActions(EnableActions(a)) == Actions(false, false)
    ensures EnableActions(DisableActions(a)) == Actions(true, true)
  {
  }

  /**
   * Because only the movement action is consulted, a kick action that is out
   * of step with it is not repaired by a switch towards the movement action's
   * current state.  This documents the override's single-action test; it is
   * not a reachable game state, since `OnEnable`, `OnDisable` and both
   * overrides switch the two actions together.
   */
  lemma OutOfStepKickPersists(a: Actions)
    requires !InStep(a)
    ensures a.move ==> !EnableActions(a).kick
    ensures !a.move ==> DisableActions(a).kick
  {
  }
}
