/**
 * The computer player's movement source.  On a scan it walks the scene's
 * marble list once, keeping a marble only when it is in play, level with the
 * agent, inside the arena, and strictly closer than the current pick both to
 * the agent and to the agent's own score zone.  Between scans the chosen
 * point stays the goal, and every physics step turns it into a fake stick
 * input: zero within the arrival buffer, a unit (x, z) vector otherwise.
 */
module ComInput {
  import opened Geometry
  import opened Wrappers
  import InputData

  /** Seconds the coroutine started by a scan waits before the next scan is allowed. */
  const CheckInterval: real := 0.1

  /** Arrival radius, and also the largest vertical gap to a marble worth chasing. */
  const DistanceFromTargetBuffer: real := 2.0

  /** Both running minima start at this distance; the model keeps their squares. */
  const InitialMinimum: real := 10000.0

  const InitialMinimumSq: real := InitialMinimum * InitialMinimum

  /** What a scan reads of one marble. */
  datatype Marble = Marble(position: Vec3, active: bool)

  /** The arena's centre and play radius. */
  datatype Arena = Arena(center: Vec3, radius: real)

  /** The arena the scene sets up: centre (0, 1, 0), radius 21. */
  const DefaultArena: Arena := Arena(Vec3(0.0, 1.0, 0.0), 21.0)

  /** The filter of the scan: in play, level with the agent, and on the field. */
  predicate Eligible(m: Marble, agent: Vec3, arena: Arena) {
    && m.active
    && Abs(m.position.y - agent.y) < DistanceFromTargetBuffer
    && WithinRadius(m.position, arena.center, arena.radius)
  }

  /**
   * The scan's running state: the two minima (squared), the position it
   * would return, and the index that set them (`Some` exactly when the
   * source's `closestSet` is true).
   */
  datatype Selection = Selection(
    minDistSq: real,
    minGoalDistSq: real,
    closestPosition: Vec3,
    chosen: Option<nat>)

  /** The state before the loop: both minima at 10000 and the previous target as the position. */
  function StartSelection(previous: Vec3): (s: Selection)
    ensures s.chosen.None? && s.closestPosition == previous
  {
    Selection(InitialMinimumSq, InitialMinimumSq, previous, None)
  }

  /** Whether marble `m` replaces the current pick. */
  predicate Improves(m: Marble, s: Selection, agent: Vec3, zone: Vec3, arena: Arena) {
    && DistSq(m.position, agent) < s.minDistSq
    && DistSq(m.position, zone) < s.minGoalDistSq
    && Eligible(m, agent, arena)
  }

  /** Whether `m` passes the filter and beats the starting minima of 10000. */
  predicate Qualifies(m: Marble, agent: Vec3, zone: Vec3, arena: Arena) {
    && DistSq(m.position, agent) < InitialMinimumSq
    && DistSq(m.position, zone) < InitialMinimumSq
    && Eligible(m, agent, arena)
  }

  /** Whether `m` is eligible and strictly closer than `c` both to the agent and to the zone. */
  predicate StrictlyCloser(m: Marble, c: Marble, agent: Vec3, zone: Vec3, arena: Arena) {
    && DistSq(m.position, agent) < DistSq(c.position, agent)
    && DistSq(m.position, zone) < DistSq(c.position, zone)
    && Eligible(m, agent, arena)
  }

  /** A selection's claims hold: its index is scanned, eligible, and supplies its minima and position. */
  predicate Sound(ms: seq<Marble>, s: Selection, agent: Vec3, zone: Vec3, arena: Arena) {
    s.chosen.Some? ==>
      var k := s.chosen.value;
      && k + 1 < |ms|
      && Eligible(ms[k], agent, arena)
      && s.closestPosition == ms[k].position
      && s.minDistSq == DistSq(ms[k].position, agent)
      && s.minGoalDistSq == DistSq(ms[k].position, zone)
  }

  /** One pass of the loop body, at index `i`: either nothing changes or both minima strictly drop. */
  function Consider(ms: seq<Marble>, i: nat, s: Selection, agent: Vec3, zone: Vec3, arena: Arena): (r: Selection)
    requires i < |ms|
    ensures Improves(ms[i], s, agent, zone, arena) ==>
      && r.chosen == Some(i)
      && r.closestPosition == ms[i].position
      && r.minDistSq == DistSq(ms[i].position, agent) < s.minDistSq
      && r.minGoalDistSq == DistSq(ms[i].position, zone) < s.minGoalDistSq
    ensures !Improves(ms[i], s, agent, zone, arena) ==> r == s
  {
    if Improves(ms[i], s, agent, zone, arena) then
      Selection(DistSq(ms[i].position, agent), DistSq(ms[i].position, zone), ms[i].position, Some(i))
    else
      s
  }

  /**
   * The loop from index `i` on.  It stops one short of the end of the list,
   * as the source's bound `Count - 1` does, so the last marble is never looked at.
   */
  function Scan(ms: seq<Marble>, agent: Vec3, zone: Vec3, arena: Arena, i: nat, s: Selection): (r: Selection)
    decreases |ms| - i
    ensures Sound(ms, s, agent, zone, arena) ==> Sound(ms, r, agent, zone, arena)
    ensures r == s || (
      && r.chosen.Some? && i <= r.chosen.value
      && r.minDistSq < s.minDistSq && r.minGoalDistSq < s.minGoalDistSq)
    ensures r.minDistSq <= s.minDistSq && r.minGoalDistSq <= s.minGoalDistSq
    ensures forall j :: i <= j && j + 1 < |ms| ==> !Improves(ms[j], r, agent, zone, arena)
  {
    if i + 1 >= |ms| then s
    else Scan(ms, agent, zone, arena, i + 1, Consider(ms, i, s, agent, zone, arena))
  }

  /**
   * The index the scan settles on.  None exactly when no scanned marble
   * qualifies; otherwise an eligible marble before the last one that no other
   * scanned marble beats on both distances at once.
   */
  function Pick(ms: seq<Marble>, agent: Vec3, zone: Vec3, arena: Arena): (r: Option<nat>)
    ensures r.Some? ==>
      && r.value + 1 < |ms|
      && Qualifies(ms[r.value], agent, zone, arena)
    ensures r.None? <==> forall j :: 0 <= j && j + 1 < |ms| ==> !Qualifies(ms[j], agent, zone, arena)
    ensures r.Some? ==>
      forall j :: 0 <= j && j + 1 < |ms| ==> !StrictlyCloser(ms[j], ms[r.value], agent, zone, arena)
  {
    var s0 := StartSelection(Origin);
    var s := Scan(ms, agent, zone, arena, 0, s0);
    assert forall j :: 0 <= j && j + 1 < |ms| ==> (Improves(ms[j], s0, agent, zone, arena) <==> Qualifies(ms[j], agent, zone, arena));
    s.chosen
  }

  /** The scan's choice depends only on the minima and choice it starts from, never on the position carried along. */
  lemma {:induction false} ScanIgnoresPosition(
    ms: seq<Marble>, agent: Vec3, zone: Vec3, arena: Arena, i: nat, s: Selection, p: Vec3)
    decreases |ms| - i
    ensures Scan(ms, agent, zone, arena, i, s.(closestPosition := p)).chosen == Scan(ms, agent, zone, arena, i, s).chosen
  {
    if i + 1 < |ms| {
      var t := s.(closestPosition := p);
      if Improves(ms[i], s, agent, zone, arena) {
        assert Consider(ms, i, t, agent, zone, arena) == Consider(ms, i, s, agent, zone, arena);
      } else {
        ScanIgnoresPosition(ms, agent, zone, arena, i + 1, s, p);
      }
    }
  }

  /**
   * `FindTarget`: the agent's own position for an empty list; otherwise the
   * picked marble's position, or the spawn point when no marble qualifies.
   * The previous target seeds the loop's provisional position, but the result
   * does not depend on it.
   */
  function FindTarget(
    ms: seq<Marble>, agent: Vec3, zone: Vec3, start: Vec3, previous: Vec3, arena: Arena): (r: Vec3)
    ensures |ms| == 0 ==> r == agent
    ensures |ms| > 0 && Pick(ms, agent, zone, arena).None? ==> r == start
    ensures |ms| > 0 && Pick(ms, agent, zone, arena).Some? ==> r == ms[Pick(ms, agent, zone, arena).value].position
  {
    if |ms| == 0 then agent
    else
      var s := Scan(ms, agent, zone, arena, 0, StartSelection(previous));
      ScanIgnoresPosition(ms, agent, zone, arena, 0, StartSelection(Origin), previous);
      if s.chosen.None? then start else s.closestPosition
  }

  /** Two calls that differ only in the previous target find the same target. */
  lemma FindTargetIgnoresPrevious(
    ms: seq<Marble>, agent: Vec3, zone: Vec3, start: Vec3, p1: Vec3, p2: Vec3, arena: Arena)
    ensures FindTarget(ms, agent, zone, start, p1, arena) == FindTarget(ms, agent, zone, start, p2, arena)
  {
  }

  /** The scan reads marbles 0 .. Count-2 only, so lists differing elsewhere scan alike. */
  lemma {:induction false} ScanSeesOnlyScannedRange(
    ms1: seq<Marble>, ms2: seq<Marble>, agent: Vec3, zone: Vec3, arena: Arena, i: nat, s: Selection)
    requires |ms1| == |ms2|
    requires forall j :: 0 <= j && j + 1 < |ms1| ==> ms1[j] == ms2[j]
    decreases |ms1| - i
    ensures Scan(ms1, agent, zone, arena, i, s) == Scan(ms2, agent, zone, arena, i, s)
  {
    if i + 1 < |ms1| {
      assert Consider(ms1, i, s, agent, zone, arena) == Consider(ms2, i, s, agent, zone, arena);
      ScanSeesOnlyScannedRange(ms1, ms2, agent, zone, arena, i + 1, Consider(ms1, i, s, agent, zone, arena));
    }
  }

  /** Replacing the last marble, however placed, never changes the target. */
  lemma LastMarbleIgnored(
    ms: seq<Marble>, m: Marble, agent: Vec3, zone: Vec3, start: Vec3, previous: Vec3, arena: Arena)
    requires |ms| > 0
    ensures FindTarget(ms[..|ms| - 1] + [m], agent, zone, start, previous, arena)
         == FindTarget(ms, agent, zone, start, previous, arena)
  {
    var ms2 := ms[..|ms| - 1] + [m];
    ScanSeesOnlyScannedRange(ms, ms2, agent, zone, arena, 0, StartSelection(Origin));
  }

  /** With a single marble the loop body never runs: the agent heads back to its spawn point. */
  lemma SingleMarbleMeansSpawn(m: Marble, agent: Vec3, zone: Vec3, start: Vec3, previous: Vec3, arena: Arena)
    ensures FindTarget([m], agent, zone, start, previous, arena) == start
  {
  }

  /**
   * `SetMoveValue`, given the planar length of the offset to the target:
   * zero within the arrival buffer, else the unit (x, z) vector toward the target.
   */
  function SetMoveValue(target: Vec3, position: Vec3, planarLen: real): (r: Vec2)
    requires planarLen >= 0.0 && planarLen * planarLen == PlanarNormSq(Sub(target, position))
    ensures !FartherThan(target, position, DistanceFromTargetBuffer) ==> r == Zero2
    ensures FartherThan(target, position, DistanceFromTargetBuffer) && planarLen > NormalizeCutoff ==>
      var d := Sub(target, position);
      && Norm2Sq(r) == 1.0
      && r.x * d.z == r.y * d.x
      && r.x * d.x + r.y * d.z > 0.0
    ensures planarLen <= NormalizeCutoff ==> r == Zero2
  {
    if FartherThan(target, position, DistanceFromTargetBuffer) then
      Normalized(Planar(Sub(target, position)), planarLen)
    else
      Zero2
  }

  /** The component's own state on top of the shared input data. */
  datatype Com = Com(input: InputData.Controller, target: Vec3, startNewScan: bool)

  /** A fresh computer player: a scan is due at the first step. */
  function InitialCom(): (c: Com)
    ensures c.startNewScan && c.input == InputData.Initial()
  {
    Com(InputData.Initial(), Origin, true)
  }

  /** `ScanForTarget`: picks a new target only when a scan is due, and clears the flag at once. */
  function ScanForTarget(c: Com, ms: seq<Marble>, agent: Vec3, arena: Arena): (r: Com)
    ensures c.startNewScan ==>
      && !r.startNewScan
      && r.input == c.input
      && r.target == FindTarget(ms, agent, c.input.zoneLocation, c.input.startLocation, c.target, arena)
    ensures !c.startNewScan ==> r == c
  {
    if c.startNewScan then
      c.(startNewScan := false,
         target := FindTarget(ms, agent, c.input.zoneLocation, c.input.startLocation, c.target, arena))
    else
      c
  }

  /** The end of `WaitForSearch`: the next step may scan again; nothing else changes. */
  function SearchWaitElapsed(c: Com): (r: Com)
    ensures r.startNewScan
    ensures r.(startNewScan := c.startNewScan) == c
  {
    c.(startNewScan := true)
  }

  /**
   * `WaitForSearch`, observed after `waited` seconds since it started: before
   * the interval is up nothing changes, and from then on a scan is due again.
   */
  function WaitForSearch(c: Com, waited: real): (r: Com)
    ensures waited < CheckInterval ==> r == c
    ensures waited >= CheckInterval ==> r.startNewScan && r.(startNewScan := c.startNewScan) == c
  {
    if waited >= CheckInterval then SearchWaitElapsed(c) else c
  }

  /** The length the next `SetMoveValue` divides by must be the planar length of the offset it uses. */
  predicate PlanarLengthOf(planarLen: real, target: Vec3, agent: Vec3) {
    planarLen >= 0.0 && planarLen * planarLen == PlanarNormSq(Sub(target, agent))
  }

  /**
   * `FixedUpdate`: a disabled player reports a zero input and neither scans
   * nor re-aims; an enabled one scans if due, then aims at its target.
   */
  function FixedUpdate(c: Com, ms: seq<Marble>, agent: Vec3, arena: Arena, planarLen: real): (r: Com)
    requires c.input.movementEnabled ==>
      PlanarLengthOf(planarLen, ScanForTarget(c, ms, agent, arena).target, agent)
    ensures !c.input.movementEnabled ==> r == c.(input := c.input.(moveVal := Zero2))
    ensures c.input.movementEnabled ==>
      && !r.startNewScan
      && r.target == ScanForTarget(c, ms, agent, arena).target
      && r.input == c.input.(moveVal := SetMoveValue(r.target, agent, planarLen))
    ensures !c.startNewScan ==> r.target == c.target
    ensures r.input.kicking == c.input.kicking && r.input.movementEnabled == c.input.movementEnabled
  {
    if c.input.movementEnabled then
      var scanned := ScanForTarget(c, ms, agent, arena);
      scanned.(input := InputData.SetMovementValue(scanned.input, SetMoveValue(scanned.target, agent, planarLen)))
    else
      c.(input := InputData.SetMovementValue(c.input, Zero2))
  }

  /**
   * Between two scans the target is frozen: a second step before the wait
   * elapses keeps the first step's target, whatever the marbles did meanwhile.
   */
  lemma TargetFrozenBetweenScans(
    c: Com, ms1: seq<Marble>, ms2: seq<Marble>, agent1: Vec3, agent2: Vec3, arena: Arena,
    len1: real, len2: real)
    requires c.input.movementEnabled
    requires PlanarLengthOf(len1, ScanForTarget(c, ms1, agent1, arena).target, agent1)
    requires PlanarLengthOf(len2, FixedUpdate(c, ms1, agent1, arena, len1).target, agent2)
    ensures
      var c1 := FixedUpdate(c, ms1, agent1, arena, len1);
      FixedUpdate(c1, ms2, agent2, arena, len2).target == c1.target
  {
    var c1 := FixedUpdate(c, ms1, agent1, arena, len1);
    assert ScanForTarget(c1, ms2, agent2, arena) == c1;
  }

  /** `Kick` (private and never called): raise the kick flag if it is down. */
  function Kick(c: Com): (r: Com)
    ensures r.input.kicking
    ensures r.(input := r.input.(kicking := c.input.kicking)) == c
  {
    if !c.input.kicking then c.(input := InputData.SetKicking(c.input, true)) else c
  }

  /** The override of the kick query: reports the flag and lowers it. */
  function GetKickActionPressed(c: Com): (r: (Com, bool))
    ensures r.1 == c.input.kicking
    ensures !r.0.input.kicking
    ensures r.0.(input := r.0.input.(kicking := c.input.kicking)) == c
  {
    if c.input.kicking then (c.(input := InputData.SetKicking(c.input, false)), true) else (c, false)
  }

  /** A kick is reported once: after a `Kick`, the first query says yes and the next says no. */
  lemma KickReportedOnce(c: Com)
    ensures GetKickActionPressed(Kick(c)).1
    ensures !GetKickActionPressed(GetKickActionPressed(Kick(c)).0).1
    ensures !GetKickActionPressed(GetKickActionPressed(c).0).1
  {
  }

  /**
   * Nothing but `Kick` raises the flag, and nothing calls `Kick`: from a
   * lowered flag, every other operation leaves it down and every query says no.
   */
  lemma KickFlagStaysDown(c: Com, ms: seq<Marble>, agent: Vec3, arena: Arena, planarLen: real)
    requires !c.input.kicking
    ensures !InitialCom().input.kicking
    ensures !GetKickActionPressed(c).1 && !GetKickActionPressed(c).0.input.kicking
    ensures !ScanForTarget(c, ms, agent, arena).input.kicking
    ensures !SearchWaitElapsed(c).input.kicking
    ensures (c.input.movementEnabled ==> PlanarLengthOf(planarLen, ScanForTarget(c, ms, agent, arena).target, agent)) ==>
      !FixedUpdate(c, ms, agent, arena, planarLen).input.kicking
  {
  }

  /**
   * A computer player starts enabled and none of its own operations writes
   * the enable flag.  The game's only caller of the enable operations is the
   * body's step, and it calls the human controller's override, so the
   * disabled branch of `FixedUpdate` is never reached in play.
   */
  lemma ComStaysEnabled(c: Com, ms: seq<Marble>, agent: Vec3, arena: Arena, planarLen: real)
    requires c.input.movementEnabled
    requires PlanarLengthOf(planarLen, ScanForTarget(c, ms, agent, arena).target, agent)
    ensures InitialCom().input.movementEnabled
    ensures ScanForTarget(c, ms, agent, arena).input.movementEnabled
    ensures SearchWaitElapsed(c).input.movementEnabled
    ensures FixedUpdate(c, ms, agent, arena, planarLen).input.movementEnabled
    ensures Kick(c).input.movementEnabled
    ensures GetKickActionPressed(c).0.input.movementEnabled
  {
  }
}
