/**
 * The data of `PlayerController`: the per-tick input snapshot, the player's stats,
 * the controller's mutable fields gathered into one value, and the small pure
 * expressions of the controller (jump direction, skill buttons, jump budget, facing).
 */
module PlayerTypes {
  import opened Geometry

  /** Coyote time: how long after leaving the ground a ground jump is still allowed. */
  const JUMP_GRACE_TIME: real := 0.2
  /** How long a jump press is remembered so that it fires on landing. */
  const JUMP_BUFFER: real := 0.2
  /** `float.MaxValue`, the "never runs out" value of the grace timer after a jump. */
  const FLOAT_MAX: real := 340282346638528859811704183484516925440.0
  /** The serialized default of `maxFallSpeed`. */
  const DEFAULT_MAX_FALL_SPEED: real := 20.0
  /** Gravity scale off the ladder, set every tick. */
  const AIR_GRAVITY: real := 3.0
  /** Gravity scale restored when the ladder tile is left. */
  const LADDER_EXIT_GRAVITY: real := 1.0
  /** Below this vertical speed the player counts as standing. */
  const GROUNDED_SPEED: real := 0.001
  /** How far the ladder anchor must have moved since a dismount before re-attaching. */
  const LADDER_EPSILON: real := 0.01

  /** `JumpDire`: the direction the movement input points in. */
  datatype JumpDire = None | Up | Down | Left | Right

  /** `Facing`, read from the sign of the sprite's x scale. */
  datatype Facing = Left | Right

  /** `SkillTypes`: the ability slots of a player. */
  datatype SkillType = Primary | Secondary | Utility | Ultimate | Passive | Item

  /** `InputValues`: one tick's input; `jumpDown` and `interact` already edge-resolved. */
  datatype InputValues = InputValues(
    horizontal: real,
    vertical: real,
    jumpDown: bool,
    jumpUp: bool,
    primarySkill: bool,
    secondarySkill: bool,
    utilitySkill: bool,
    ultimateSkill: bool,
    specialSkill: bool,
    itemSkill: bool,
    interact: bool)

  /** The part of `PlayerStats` the controller reads. */
  datatype PlayerStats = PlayerStats(speed: real, jumpHeight: real, maxJumpCount: int)

  /**
   * A callback queued with `AddLandingAction`. `StopMotion` is the one the Spree skill
   * queues (it zeroes the velocity); any other callback is foreign code.
   */
  datatype LandingAction = StopMotion | External(id: nat)

  /** What the controller reads but its per-tick logic never writes. */
  datatype Settings = Settings(
    stats: PlayerStats,
    ladderTiles: set<Cell>,
    floorTiles: set<Cell>,
    maxFallSpeed: real,
    hasItem: bool)

  /**
   * Every field the controller changes: the rigidbody (position, velocity, gravity scale),
   * the collider's trigger flag, the sprite's x scale, the animator's paused flag
   * (`_animator.speed == 0`), `Controllable`, the jump bookkeeping, the ladder
   * bookkeeping and the landing-action list.
   */
  datatype PlayerState = PlayerState(
    position: Vec2,
    velocity: Vec2,
    gravityScale: real,
    isTrigger: bool,
    scaleX: real,
    animPaused: bool,
    controllable: bool,
    jumpCount: int,
    jumpBuffer: real,
    jumpGraceTimer: real,
    jumpCountOffset: int,
    jumpDirection: JumpDire,
    lastLadderJumpDirection: JumpDire,
    ladderPos: Vec2,
    onLadder: bool,
    climbLadder: bool,
    previousLadderPos: real,
    landingActions: seq<LandingAction>)

  /** The fields as a freshly spawned controller has them (C# defaults, `Controllable = true`). */
  function InitialState(spawn: Vec2): (s: PlayerState)
    ensures s.position == spawn && s.velocity == Zero
    ensures s.controllable && !s.onLadder && !s.climbLadder
    ensures s.jumpCount == 0 && s.jumpCountOffset == 0 && s.landingActions == []
  {
    PlayerState(spawn, Zero, AIR_GRAVITY, false, 1.0, false, true,
                0, 0.0, 0.0, 0, JumpDire.None, JumpDire.None, Zero, false, false, 0.0, [])
  }

  /** Climbing only ever starts from a ladder tile, and leaving the tile ends it. */
  predicate LadderConsistent(s: PlayerState)
  {
    s.climbLadder ==> s.onLadder
  }

  /** `MaxJumpCount`: the stats' budget plus the offset the last tick stored. */
  function MaxJumpCount(stats: PlayerStats, s: PlayerState): int
  {
    stats.maxJumpCount + s.jumpCountOffset
  }

  /** `PlayerFacing`: a positive x scale means the sprite faces left. */
  function PlayerFacing(s: PlayerState): (f: Facing)
    ensures f == Facing.Left <==> s.scaleX > 0.0
  {
    if s.scaleX > 0.0 then Facing.Left else Facing.Right
  }

  /** `GetNowJumpDirection`: horizontal input wins over vertical input. */
  function GetNowJumpDirection(input: InputValues): (d: JumpDire)
    ensures d == JumpDire.Right <==> input.horizontal > 0.0
    ensures d == JumpDire.Left <==> input.horizontal < 0.0
    ensures d == JumpDire.Up <==> input.horizontal == 0.0 && input.vertical > 0.0
    ensures d == JumpDire.Down <==> input.horizontal == 0.0 && input.vertical < 0.0
    ensures d == JumpDire.None <==> input.horizontal == 0.0 && input.vertical == 0.0
  {
    if input.horizontal > 0.0 then JumpDire.Right
    else if input.horizontal < 0.0 then JumpDire.Left
    else if input.vertical > 0.0 then JumpDire.Up
    else if input.vertical < 0.0 then JumpDire.Down
    else JumpDire.None
  }

  /** `IsSkillButtonPressed`: each slot is driven by its own button; `Passive` by the special button. */
  function IsSkillButtonPressed(input: InputValues, slot: SkillType): (pressed: bool)
    ensures slot == Primary ==> (pressed <==> input.primarySkill)
    ensures slot == Secondary ==> (pressed <==> input.secondarySkill)
    ensures slot == Utility ==> (pressed <==> input.utilitySkill)
    ensures slot == Ultimate ==> (pressed <==> input.ultimateSkill)
    ensures slot == Passive ==> (pressed <==> input.specialSkill)
    ensures slot == Item ==> (pressed <==> input.itemSkill)
    ensures pressed ==>
      input.primarySkill || input.secondarySkill || input.utilitySkill ||
      input.ultimateSkill || input.specialSkill || input.itemSkill
  {
    match slot
    case Primary => input.primarySkill
    case Secondary => input.secondarySkill
    case Utility => input.utilitySkill
    case Ultimate => input.ultimateSkill
    case Passive => input.specialSkill
    case Item => input.itemSkill
  }
}
