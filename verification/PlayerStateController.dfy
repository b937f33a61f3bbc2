/** The locomotion state a player shows to the animation driver. */
module PlayerState {

  datatype CharacterState = IDLE | WALKING | RUNNING | KICKING | DISABLED

  /** The component holding one player's current state. */
  datatype StateController = StateController(currentState: CharacterState)

  /** The state at field initialisation. */
  function Initial(): (c: StateController)
    ensures c.currentState == IDLE
  {
    StateController(IDLE)
  }

  /** `Awake` puts the component back into IDLE whatever it held. */
  function Awake(c: StateController): (r: StateController)
    ensures r.currentState == IDLE
  {
    StateController(IDLE)
  }

  function GetCurrentState(c: StateController): CharacterState {
    c.currentState
  }

  /** The setter has no guard: every state may follow every state. */
  function SetCurrentState(c: StateController, s: CharacterState): (r: StateController)
    ensures GetCurrentState(r) == s
  {
    StateController(s)
  }

  /** The getter returns the last value set, and nothing earlier matters. */
  lemma GetReturnsLastSet(c: StateController, earlier: CharacterState, s: CharacterState)
    ensures GetCurrentState(SetCurrentState(SetCurrentState(c, earlier), s)) == s
    ensures SetCurrentState(SetCurrentState(c, earlier), s) == SetCurrentState(c, s)
  {
  }

  /** There are exactly five states. */
  lemma FiveStates(s: CharacterState)
    ensures s in {IDLE, WALKING, RUNNING, KICKING, DISABLED}
    ensures |{IDLE, WALKING, RUNNING, KICKING, DISABLED}| == 5
  {
  }
}
