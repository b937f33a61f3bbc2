# HippoSoccerRoyale — a Dafny model of the game rules

HippoSoccerRoyale is a four-player arena game. Each hippo, whether human or
computer (COM), pushes marbles into the score zones. This project models the
rule-bearing core of its scripts as pure Dafny functions and small methods,
and proves what those scripts promise. The core covers:

- **COM targeting** (`ComInput`). The scan walks the marble list and keeps the
  marble that is in play, level with the agent, inside the arena and strictly
  closer than the current pick both to the agent and to the agent's own zone.
  Scans are gated by a flag that a timer re-arms. The target is turned into a
  unit planar stick input, or zero within the arrival buffer. The COM's
  one-shot kick flag is modelled too.
- **Per-step body update** (`HippoMovement`). It switches the human
  controller's input actions on or off by game phase, runs the
  IDLE/RUNNING/KICKING state machine, triggers kicks, and runs the wall-slide
  loop on the remaining distance.
- **Shared input data** (`InputData`). The enable flag, the kick flag, and
  the movement, zone and start properties.
- **Human input actions** (`HumanInput`). The human controller overrides the
  shared enable and disable operations. It switches its movement and kick
  actions instead of the shared flag, and it looks only at the movement
  action to decide. The game's only calls of these operations go to this
  override, so nothing in the game ever clears the shared flag. In
  particular, a COM stays enabled (`ComInput.ComStaysEnabled`).
- **Player state** (`PlayerState`). The five character states and their
  unguarded setter.
- **Match clock** (`GameState`). The countdown ends the game exactly once.
  `ResetTimer` refills the clock but does not restart an ended game.
- **Score counters** (`ScoreZones`). `AddPoint` matches a tag against the four
  zones in order. `ResetScores` sets every counter to zero.
- **Marble respawn queue** (`Marbles`). Each frame collects the inactive
  marbles into a queue without duplicates. A timer brings back the one at the
  front.
- **Leaderboard** (`Highscores`). A new score is sorted into the ten slots,
  the board is saved to and loaded from an abstract key-value store, and
  displaying the board clears the "new" flags.

`Geometry` holds the vector arithmetic. Distances are compared through their
squares (`Geometry.SquareOrder` justifies this). A length that must be divided
by is passed in together with the fact that it squares to the vector's squared
length, so no square root is needed.

Three behaviours of the code look unintended. They are modelled as written,
and the model proves their consequences:

- The COM scan's loop bound is `Count - 1`, so the last marble in the list is
  never considered. With a single marble, the COM always heads back to its
  spawn point (`ComInput.LastMarbleIgnored`, `ComInput.SingleMarbleMeansSpawn`).
- The spawn step reads the front of the queue without checking it. When the
  scene has fewer marbles than the maximum, an armed timer can reach an empty
  queue. The model returns `Failure(EmptyQueue(…))` there, which stands for the
  `Queue.Peek` exception (`Marbles.EmptyQueueReachable`). The failure carries
  the state the frame had already written, with the timer advanced, because
  the next frame continues from it. The model proves three consequences.
  Every later frame throws again while all marbles stay in play
  (`Marbles.FaultRepeatsWhileAllInPlay`). The next marble to leave play comes
  back in the same frame, without the spawn delay
  (`Marbles.RespawnWithoutDelayAfterFault`). None of this happens when there
  are at least as many marbles as the maximum.
- `PopulateHighscorePairs` loads only slots 0 to 8. The bottom slot keeps
  whatever it held.

## Model

| member | source | states |
|---|---|---|
| Geometry.Normalized | Assets/Scripts/COM_MovementInputController.cs:69 | a vector longer than the cutoff normalises to a unit vector parallel to it and pointing the same way; a shorter one gives zero |
| InputData.Initial | Assets/Scripts/InputControllerData.cs:10-14 | a new controller is enabled, not kicking, and has zero vectors |
| InputData.EnableActions | Assets/Scripts/InputControllerData.cs:81-84 | afterwards the controller is enabled, and no other field changes |
| InputData.DisableActions | Assets/Scripts/InputControllerData.cs:90-93 | afterwards the controller is disabled, and no other field changes |
| HumanInput.EnableActions | Assets/Scripts/MovementInputController.cs:57-64 | afterwards the movement action is on; a disabled movement action turns both actions on, and an enabled one changes nothing; agreeing actions still agree |
| HumanInput.DisableActions | Assets/Scripts/MovementInputController.cs:69-76 | afterwards the movement action is off; an enabled movement action turns both actions off, and a disabled one changes nothing; agreeing actions still agree |
| HumanInput.SwitchingSettles | Assets/Scripts/MovementInputController.cs:57-76 | each switch is idempotent, and switching one way then the other leaves both actions agreeing, from any start |
| HumanInput.OutOfStepKickPersists | Assets/Scripts/MovementInputController.cs:57-76 | only the movement action is consulted, so a kick action out of step with it stays out of step under a switch towards the movement action's state |
| InputData.GetKickActionPressed | Assets/Scripts/InputControllerData.cs:71-75 | the base query never reports a kick and changes nothing |
| InputData.SetMovementValue | Assets/Scripts/InputControllerData.cs:21-25 | the movement value becomes the argument, and nothing else changes |
| InputData.SetKicking | Assets/Scripts/InputControllerData.cs:30-34 | the kick flag becomes the argument, and nothing else changes |
| InputData.SetZoneLocation | Assets/Scripts/InputControllerData.cs:39-49 | the zone location becomes the argument, and nothing else changes |
| InputData.SetStartLocation | Assets/Scripts/InputControllerData.cs:54-64 | the start location becomes the argument, and nothing else changes |
| InputData.EnableDisableIdempotent | Assets/Scripts/InputControllerData.cs:81-93 | enabling twice equals enabling once; disabling twice equals disabling once |
| InputData.DisableThenEnable | Assets/Scripts/InputControllerData.cs:81-93 | disable then enable equals enable alone, which gives back an enabled controller unchanged |
| InputData.PropertyRoundTrips | Assets/Scripts/InputControllerData.cs:21-64 | each property reads back its last written value, whatever other properties were written in between |
| PlayerState.Initial | Assets/Scripts/PlayerStateController.cs:20 | the field starts at IDLE |
| PlayerState.Awake | Assets/Scripts/PlayerStateController.cs:30-33 | Awake resets to IDLE from any state |
| PlayerState.SetCurrentState | Assets/Scripts/PlayerStateController.cs:24-28 | the getter returns the state just set; there is no transition guard |
| PlayerState.GetReturnsLastSet | Assets/Scripts/PlayerStateController.cs:24-28 | only the last set matters, and earlier sets are overwritten |
| PlayerState.FiveStates | Assets/Scripts/PlayerStateController.cs:11-18 | the enum has exactly five distinct states |
| ComInput.StartSelection | Assets/Scripts/COM_MovementInputController.cs:101-105 | the scan starts with no pick, and the previous target is the provisional position |
| ComInput.Consider | Assets/Scripts/COM_MovementInputController.cs:117-133 | a marble that is eligible and strictly closer on both distances becomes the pick, and both minima strictly drop; otherwise nothing changes |
| ComInput.Scan | Assets/Scripts/COM_MovementInputController.cs:115-134 | the loop keeps the selection sound, the minima never rise, and at the end no marble it scanned (index up to Count-2) beats the pick |
| ComInput.Pick | Assets/Scripts/COM_MovementInputController.cs:113-139 | there is no pick exactly when no scanned marble is eligible and within 10000; a pick is such a marble, and no scanned marble is strictly closer than it on both distances |
| ComInput.ScanIgnoresPosition | Assets/Scripts/COM_MovementInputController.cs:104-105 | the position that seeds the loop does not affect which marble is chosen |
| ComInput.FindTarget | Assets/Scripts/COM_MovementInputController.cs:99-142 | an empty list gives the agent's position; otherwise the result is the picked marble's position or the spawn point; it does not depend on the previous target |
| ComInput.FindTargetIgnoresPrevious | Assets/Scripts/COM_MovementInputController.cs:105-141 | two searches that differ only in the previous target find the same target |
| ComInput.ScanSeesOnlyScannedRange | Assets/Scripts/COM_MovementInputController.cs:115 | lists that agree on indices 0 to Count-2 scan alike |
| ComInput.LastMarbleIgnored | Assets/Scripts/COM_MovementInputController.cs:115 | replacing the last marble never changes the target |
| ComInput.SingleMarbleMeansSpawn | Assets/Scripts/COM_MovementInputController.cs:113-139 | with one marble the loop never runs, so the target is the spawn point |
| ComInput.SetMoveValue | Assets/Scripts/COM_MovementInputController.cs:59-77 | within the 2.0 buffer the input is zero; beyond it, the input is the unit planar direction toward the target, or zero for an offset too short to normalise |
| ComInput.InitialCom | Assets/Scripts/COM_MovementInputController.cs:24 | a scan is due at the first step |
| ComInput.ScanForTarget | Assets/Scripts/COM_MovementInputController.cs:82-93 | when a scan is due, the flag clears and the target is recomputed; otherwise nothing changes |
| ComInput.WaitForSearch | Assets/Scripts/COM_MovementInputController.cs:144-148 | before 0.1 s have passed the COM is unchanged; from then on a scan is due again and nothing else changes |
| ComInput.SearchWaitElapsed | Assets/Scripts/COM_MovementInputController.cs:144-148 | the end of the wait re-arms the scan flag and changes nothing else |
| ComInput.FixedUpdate | Assets/Scripts/COM_MovementInputController.cs:42-54 | a disabled COM only zeroes its input; an enabled one scans if due and aims at the target; the kick and enable flags are untouched |
| ComInput.TargetFrozenBetweenScans | Assets/Scripts/COM_MovementInputController.cs:82-93 | a second step before the wait elapses keeps the first step's target, whatever the marbles did |
| ComInput.Kick | Assets/Scripts/COM_MovementInputController.cs:153-159 | the kick flag ends up raised, and nothing else changes |
| ComInput.GetKickActionPressed | Assets/Scripts/COM_MovementInputController.cs:165-176 | the query reports the kick flag and lowers it, and nothing else changes |
| ComInput.KickReportedOnce | Assets/Scripts/COM_MovementInputController.cs:153-176 | after a kick the first query says yes and the next says no |
| ComInput.ComStaysEnabled | Assets/Scripts/COM_MovementInputController.cs:36-176 | a COM starts enabled and none of its operations clears the flag, so its disabled branch is never taken |
| ComInput.KickFlagStaysDown | Assets/Scripts/COM_MovementInputController.cs:153-176 | the flag starts down and only the never-called `Kick` raises it, so every query of a COM reports no kick |
| HippoMovement.Start | Assets/Scripts/HippoMovementController.cs:60 | a round starts IDLE |
| HippoMovement.LocomotionState | Assets/Scripts/HippoMovementController.cs:106-121 | a wall hit keeps the state; otherwise positive movement gives RUNNING and none gives IDLE; KICKING is never left |
| HippoMovement.KickTrigger | Assets/Scripts/HippoMovementController.cs:152-156 | a press outside KICKING enters KICKING and plays the particles; otherwise nothing happens |
| HippoMovement.HippoStep | Assets/Scripts/HippoMovementController.cs:74-157 | the shared input data is left as it was; the human controller's movement action is on exactly while PLAYING, and so is its kick action when the two agreed before; the model turns exactly on non-zero input; particles play exactly on a press outside KICKING; otherwise the state follows the locomotion rule |
| HippoMovement.KickingIsSticky | Assets/Scripts/HippoMovementController.cs:110-156 | no step leaves KICKING |
| HippoMovement.NormalizedAngle | Assets/Scripts/HippoMovementController.cs:136-138 | the clipped angle ratio lies in [0, 1] and is 1 from the maximum angle on |
| HippoMovement.ShoveFactor | Assets/Scripts/HippoMovementController.cs:140 | the attenuation lies in [0.1, 1]: 0.1 head-on, 1 when glancing |
| HippoMovement.ShoveFactorDecreasesWithAngle | Assets/Scripts/HippoMovementController.cs:136-140 | a wider angle never keeps more of the distance |
| HippoMovement.Scale | Assets/Scripts/HippoMovementController.cs:140 | attenuating by a factor in [0.1, 1] never lengthens a distance and keeps a negative one negative |
| HippoMovement.SlideStep | Assets/Scripts/HippoMovementController.cs:131-140 | a correction never increases the remaining distance, and it removes at least the hit distance unless the result goes negative |
| HippoMovement.WallSlide | Assets/Scripts/HippoMovementController.cs:125-147 | at most four corrections; fewer only once the distance is at or below epsilon; none exactly when it starts there; the trace of distances never rises |
| GameState.Initial | Assets/Scripts/GameStateController.cs:21-28 | the game starts PLAYING and not ended, with 60 seconds on the clock |
| GameState.Start | Assets/Scripts/GameStateController.cs:56 | the timer is loaded with the match length, and nothing else changes |
| GameState.Update | Assets/Scripts/GameStateController.cs:63-80 | while time remains the clock runs down; the first frame at or below zero ends the game, sets GAME_OVER and fires the finish event; after that nothing changes |
| GameState.ResetTimer | Assets/Scripts/GameStateController.cs:82-87 | the clock refills to the match length and shows 60; the phase and the ended flag are kept |
| GameState.FinishedFiresAtMostOnce | Assets/Scripts/GameStateController.cs:63-87 | over any sequence of frames and resets, the finish event fires at most once, and never after the game has ended |
| GameState.RunStaysConsistent | Assets/Scripts/GameStateController.cs:21-87 | the phase is never PAUSED, it is GAME_OVER exactly when the game has ended, and GAME_OVER is final |
| GameState.ResetDoesNotResume | Assets/Scripts/GameStateController.cs:63-87 | after a reset an ended game stays frozen |
| ScoreZones.MatchZone | Assets/Scripts/ScoreZonesManager.cs:101-128 | tags are compared in the order tr, tl, br, bl and the first equal tag wins; no match exactly when all four differ |
| ScoreZones.AddPoint | Assets/Scripts/ScoreZonesManager.cs:99-129 | the matched counter goes up by one and the others are unchanged; an unmatched tag changes nothing |
| ScoreZones.ResetScores | Assets/Scripts/ScoreZonesManager.cs:131-136 | all four counters become zero |
| ScoreZones.PointsOnlyAccumulate | Assets/Scripts/ScoreZonesManager.cs:99-129 | without a reset the counters never decrease, and their total grows by the number of matching tags |
| Marbles.Initial | Assets/Scripts/MarbleManager.cs:33-34 | the queue starts empty, with the timer at zero and unarmed |
| Marbles.CountActive | Assets/Scripts/MarbleManager.cs:69 | the count is at most the number of marbles, and equals it exactly when all are in play |
| Marbles.CountAfterActivation | Assets/Scripts/MarbleManager.cs:69-103 | bringing back an inactive marble raises the count by exactly one |
| Marbles.CollectInactive | Assets/Scripts/MarbleManager.cs:72-80 | the old queue is kept as a prefix; only new inactive indices are appended, with no duplicates, and every inactive index ends up queued |
| Marbles.CollectInactiveAscending | Assets/Scripts/MarbleManager.cs:72-79 | the loop appends the indices it queues in increasing order |
| Marbles.Collect | Assets/Scripts/MarbleManager.cs:67-85 | below the maximum the missing marbles are queued, the new ones in increasing index order, and the timer is armed if anything was added; at the maximum it is disarmed; the queue invariant is kept |
| Marbles.UpdateMarbleSpawning | Assets/Scripts/MarbleManager.cs:93-108 | an armed timer below the maximum accumulates; on reaching the delay the front marble returns and the timer restarts; an empty queue at that point is the failure, which keeps the advanced timer; the queue invariant holds in every outcome |
| Marbles.Update | Assets/Scripts/MarbleManager.cs:67-88 | a frame, finished or thrown, keeps the queue invariant, brings back at most one marble, and dequeues at most one index; a thrown frame leaves an empty queue and a timer at or past the delay |
| Marbles.FrontIsLowestInactive | Assets/Scripts/MarbleManager.cs:69-104 | when nothing was queued, the front of the queue, the next marble to come back, is the lowest-numbered marble out of play |
| Marbles.UpdateNeverThrowsWithEnoughMarbles | Assets/Scripts/MarbleManager.cs:67-108 | with at least as many marbles as the maximum, a frame never reaches an empty queue |
| Marbles.EmptyQueueReachable | Assets/Scripts/MarbleManager.cs:67-108 | from a fresh one-marble scene: the marble leaves play, is queued, returns after 1.5 s, and the next 1.5 s frame throws on the empty queue |
| Marbles.QueuedFrame | Assets/Scripts/MarbleManager.cs:69-98 | the frame after the only marble leaves queues it and arms the timer |
| Marbles.RespawnFrame | Assets/Scripts/MarbleManager.cs:69-105 | a frame that reaches the delay brings the queued marble back and drains the queue |
| Marbles.ThrowingFrame | Assets/Scripts/MarbleManager.cs:69-102 | with the timer still armed and nothing queued, a full-delay frame throws, keeping the advanced timer |
| Marbles.SkipActive | Assets/Scripts/MarbleManager.cs:72-80 | the collecting loop adds nothing across marbles in play |
| Marbles.NothingToCollect | Assets/Scripts/MarbleManager.cs:72-80 | with every marble in play nothing is queued |
| Marbles.OneToCollect | Assets/Scripts/MarbleManager.cs:72-80 | with exactly one marble out of play, exactly that marble is queued |
| Marbles.AllInPlayAfterFault | Assets/Scripts/MarbleManager.cs:67-104 | a frame throws only when every marble is in play and there are fewer than the maximum; it leaves the timer armed at or past the delay with nothing queued |
| Marbles.FaultRepeatsWhileAllInPlay | Assets/Scripts/MarbleManager.cs:67-104 | after a throw, the next frame throws again with the timer grown further |
| Marbles.RespawnWithoutDelayAfterFault | Assets/Scripts/MarbleManager.cs:67-105 | after a throw, a marble that leaves play comes back in the next frame, whatever its length, and only then does the timer restart |
| Marbles.DisableAllMarbles | Assets/Scripts/MarbleManager.cs:114-122 | every marble leaves play and the timer returns to zero; the queue is kept and becomes valid |
| Marbles.MarbleLeavesWater | Assets/Scripts/Marble.cs:36-43 | one marble leaves play, nothing else changes, and the queue invariant is kept |
| Highscores.Initial | Assets/Scripts/PlayerPrefsManager.cs:24 | the board starts as ten default slots |
| Highscores.InsertionIndex | Assets/Scripts/PlayerPrefsManager.cs:65 | the downward scan stops below the lowest slot that is not beaten, and every slot from there down is beaten |
| Highscores.InsertionKeepsOrder | Assets/Scripts/PlayerPrefsManager.cs:62-76 | inserting at that index and shifting the rest down keeps a sorted board sorted |
| Highscores.ShiftDown | Assets/Scripts/PlayerPrefsManager.cs:64-73 | the loop stops at the insertion index, which is at most 9, and leaves the slots down to it as they were; every later slot holds its predecessor's entry with the flag cleared |
| Highscores.InsertIntoBoard | Assets/Scripts/PlayerPrefsManager.cs:62-76 | the upper slots stay; the entry carrying the field `newHighscore` and the pending name is flagged new at the insertion index; the lower entries shift down one slot with their flags cleared; the old slot 9 is dropped; a sorted board stays sorted when the compared and stored scores agree |
| Highscores.SortNewScoreToHighscores | Assets/Scripts/PlayerPrefsManager.cs:59-79 | a score that does not beat the bottom slot changes neither the board nor the store; otherwise the score is inserted as above and the new board is written to the store |
| Highscores.InputNewPlayerHighscore | Assets/Scripts/PlayerPrefsManager.cs:137-142 | the entry written carries the given name and score, and a sorted board stays sorted |
| Highscores.SetString | Assets/Scripts/PlayerPrefsManager.cs:105 | the key reads back the string written, and every other key is unchanged |
| Highscores.SetInt | Assets/Scripts/PlayerPrefsManager.cs:106 | the key reads back the integer written, and every other key is unchanged |
| Highscores.SaveSlots | Assets/Scripts/PlayerPrefsManager.cs:103-107 | after writing slots 0 to n-1, each of them has both keys, holding its name and its score |
| Highscores.SaveSlotsKeepsOtherKeys | Assets/Scripts/PlayerPrefsManager.cs:103-107 | saving changes no key other than the slots' own |
| Highscores.SaveHighScorePlayerPrefs | Assets/Scripts/PlayerPrefsManager.cs:101-109 | all ten slots are stored under their name and score keys |
| Highscores.SaveThenLoad | Assets/Scripts/PlayerPrefsManager.cs:101-135 | loading a slot after a save gives back its name and score, with the new flag cleared |
| Highscores.DisplayHighscores | Assets/Scripts/PlayerPrefsManager.cs:84-96 | all new flags are cleared, and scores and names are kept |
| Highscores.DisplayIdempotent | Assets/Scripts/PlayerPrefsManager.cs:84-96 | displaying twice equals displaying once, and the order is untouched |
| Highscores.KeysDistinct | Assets/Scripts/PlayerPrefsManager.cs:118-119 | each slot has its own two keys, and no name key is a score key |
| Highscores.StoredSlot | Assets/Scripts/PlayerPrefsManager.cs:118-133 | a slot with both keys loads the stored name and score; otherwise it is the blank "---"/0 entry; it is never flagged new |
| Highscores.PopulateHighscorePairs | Assets/Scripts/PlayerPrefsManager.cs:114-135 | slots 0 to 8 are loaded from the store, and slot 9 keeps what it had |

## Left out

- Engine physics is not modelled: `Physics.SphereCast`, `Rigidbody.MovePosition`, `TransformDirection`, the capsule geometry and the visual rotation (`Quaternion.Slerp`/`LookRotation`). A step takes the probe's verdict (`wallHit`) and the movement magnitude as inputs.
- HippoMovement.WallSlide: the slide's projected position (`ProjectOnPlane`, `MovePosition`) is left out. `Vector3.Angle` and `Mathf.Pow(…, 0.5)` are folded into an attenuation factor in [0.1, 1] (the range `ShoveFactor` proves), because real square roots and angles are not expressible.
- Square roots are left out. `Vector3.Distance` comparisons are modelled on squares, and `Vector2.normalized` receives the vector's length from its caller.
- Single-precision float rounding is not modelled; all arithmetic is on reals.
- GameState.Update: `Convert.ToInt32(timer % 60)` (banker's rounding of a float) is the `shownSeconds` parameter rather than computed. The timer text and the listeners attached to the finish event are UI.
- `Time.deltaTime` is a parameter. `Random.Range` (the spawn offset, and the human player's zone in `ScoreZonesManager.Start`) is left out.
- Coroutines are left out as a mechanism. `WaitForSearch` is modelled by `ComInput.WaitForSearch`, given the seconds waited so far by the caller; the scheduler that resumes it is the engine's. `PlaySplash`, `SplashEffect` and the splash queue are particle effects.
- `ScoreZonesManager.GetWinningScore`, a listener of the finish event, is not part of this model.
- The mapping from marble `GameObject`s to `activeInHierarchy` and positions is left out: a marble is its position and an in-play flag. The `IsTargeted` write is left out. It names a member that `Marble` does not define, and nothing reads it.
- ComInput.FindTarget: the debug draw calls are left out.
- ScoreZones.AddPoint: does not model 32-bit wrap-around of the counters, because a match would need over two billion points to reach it.
- ScoreZones.ResetScores: the number texts are UI and are not modelled. In the source, the reset writes "0" to the top-right text twice and never to the top-left text.
- HippoMovement.HippoStep: `kickCollider.enabled` follows the particle system and is left out. The input-system actions are two flags: their bindings, callbacks and `IsPressed` are the engine's, and the step takes the kick query's answer as `kickPressed`.
- The store is an abstract pair of maps, one for strings and one for integers. `PlayerPrefs.Save`, the flush to disk, is I/O and is left out.
- C#'s null string (the default slot name and the initial `inputName`) is modelled as the empty string.
- Singleton `Awake`/`Destroy` and `DontDestroyOnLoad` are scene lifecycle and are left out.
