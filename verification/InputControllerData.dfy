/**
 * The data every movement source carries, human or computer: whether it may
 * act, the planar movement value it reports, a pending-kick flag, and the
 * locations of its score zone and spawn point.  Each setter of the C# class
 * becomes a function returning the updated record.
 */
module InputData {
  import opened Geometry

  datatype Controller = Controller(
    movementEnabled: bool,
    moveVal: Vec2,
    kicking: bool,
    zoneLocation: Vec3,
    startLocation: Vec3)

  /** A freshly created controller: enabled, not kicking, every vector at zero. */
  function Initial(): (c: Controller)
    ensures c.movementEnabled && !c.kicking
    ensures c.moveVal == Zero2 && c.zoneLocation == Origin && c.startLocation == Origin
  {
    Controller(true, Zero2, false, Origin, Origin)
  }

  /** Allows the player to act; only the enable flag can change. */
  function EnableActions(c: Controller): (r: Controller)
    ensures r.movementEnabled
    ensures r.(movementEnabled := c.movementEnabled) == c
  {
    if !c.movementEnabled then c.(movementEnabled := true) else c
  }

  /** Stops the player from acting; only the enable flag can change. */
  function DisableActions(c: Controller): (r: Controller)
    ensures !r.movementEnabled
    ensures r.(movementEnabled := c.movementEnabled) == c
  {
    if c.movementEnabled then c.(movementEnabled := false) else c
  }

  /** The base class's kick query: never a kick, and no state is touched. */
  function GetKickActionPressed(c: Controller): (r: (Controller, bool))
    ensures !r.1 && r.0 == c
  {
    (c, false)
  }

  function SetMovementValue(c: Controller, v: Vec2): (r: Controller)
    ensures r.moveVal == v && r.(moveVal := c.moveVal) == c
  {
    c.(moveVal := v)
  }

  function SetKicking(c: Controller, k: bool): (r: Controller)
    ensures r.kicking == k && r.(kicking := c.kicking) == c
  {
    c.(kicking := k)
  }

  function SetZoneLocation(c: Controller, z: Vec3): (r: Controller)
    ensures r.zoneLocation == z && r.(zoneLocation := c.zoneLocation) == c
  {
    c.(zoneLocation := z)
  }

  function SetStartLocation(c: Controller, s: Vec3): (r: Controller)
    ensures r.startLocation == s && r.(startLocation := c.startLocation) == c
  {
    c.(startLocation := s)
  }

  /** Enabling twice is enabling once, and likewise for disabling. */
  lemma EnableDisableIdempotent(c: Controller)
    ensures EnableActions(EnableActions(c)) == EnableActions(c)
    ensures DisableActions(DisableActions(c)) == DisableActions(c)
  {
  }

  /** Disabling and then enabling returns a controller to exactly its enabled self. */
  lemma DisableThenEnable(c: Controller)
    ensures EnableActions(DisableActions(c)) == EnableActions(c)
    ensures c.movementEnabled ==> EnableActions(DisableActions(c)) == c
  {
  }

  /** Each property reads back what was last written to it, whatever else was written since. */
  lemma PropertyRoundTrips(c: Controller, v: Vec2, k: bool, z: Vec3, s: Vec3)
    ensures SetMovementValue(SetKicking(SetZoneLocation(SetStartLocation(c, s), z), k), v).moveVal == v
    ensures SetKicking(SetZoneLocation(SetStartLocation(SetMovementValue(c, v), s), z), k).kicking == k
    ensures SetZoneLocation(SetStartLocation(SetMovementValue(SetKicking(c, k), v), s), z).zoneLocation == z
    ensures SetStartLocation(SetMovementValue(SetKicking(SetZoneLocation(c, z), k), v), s).startLocation == s
  {
  }
}
