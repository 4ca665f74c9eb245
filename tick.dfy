/**
 * `PlayerController.Update`: one frame of the controller as the composition of its steps,
 * in the source's order, and the properties that only show across steps or frames.
 */
module Tick {
  import opened Geometry
  import opened PlayerTypes
  import opened Tiles
  import opened Jumping
  import opened Ladder
  import opened Movement
  import opened Landing

  /** The head of `Update`: timers run down, collider, gravity and jump-count offset follow the state. */
  function PrepareStep(s: PlayerState, dt: real): (r: PlayerState)
    ensures r.jumpGraceTimer == s.jumpGraceTimer - dt && r.jumpBuffer == s.jumpBuffer - dt
    ensures r.isTrigger == s.climbLadder
    ensures r.gravityScale == if s.climbLadder then 0.0 else AIR_GRAVITY
    // the budget loses the ground jump exactly when coyote time has run out
    ensures forall stats: PlayerStats ::
              (MaxJumpCount(stats, r) == stats.maxJumpCount - 1 <==> r.jumpGraceTimer <= 0.0)
              && (MaxJumpCount(stats, r) == stats.maxJumpCount <==> r.jumpGraceTimer > 0.0)
    ensures r == s.(jumpGraceTimer := r.jumpGraceTimer, jumpBuffer := r.jumpBuffer, isTrigger := r.isTrigger,
                    gravityScale := r.gravityScale, jumpCountOffset := r.jumpCountOffset)
  {
    var timed := s.(jumpGraceTimer := s.jumpGraceTimer - dt, jumpBuffer := s.jumpBuffer - dt);
    timed.(isTrigger := timed.climbLadder,
           gravityScale := if timed.climbLadder then 0.0 else AIR_GRAVITY,
           jumpCountOffset := if timed.jumpGraceTimer <= 0.0 then -1 else 0)
  }

  /**
   * `Update` minus the interaction query and the skill gate: prepare, `ClimbLadder`,
   * `Jump`, `ClampVelocity`, `ResetJump`, then remember the input direction.
   */
  function TickStep(cfg: Settings, s: PlayerState, input: InputValues, dt: real, ceilingHit: bool): (r: PlayerState)
    // the fall clamp runs after everything that sets the velocity
    ensures r.velocity.y >= -cfg.maxFallSpeed
    ensures r.jumpDirection == GetNowJumpDirection(input)
    ensures r.jumpCountOffset == if s.jumpGraceTimer - dt <= 0.0 then -1 else 0
    // passthrough and zero gravity only ever come from climbing at the start of the tick
    ensures r.isTrigger ==> s.climbLadder
    ensures r.gravityScale == 0.0 ==> s.climbLadder
    // a tick adds at most one jump, and only within the budget
    ensures s.jumpCount >= 0 ==>
              r.jumpCount >= 0
              && (r.jumpCount <= s.jumpCount || (r.jumpCount == s.jumpCount + 1 && r.jumpCount <= MaxJumpCount(cfg.stats, r)))
    ensures LadderConsistent(s) ==> LadderConsistent(r)
    ensures r.controllable == s.controllable && r.scaleX == s.scaleX && r.landingActions == s.landingActions
  {
    var prepared := PrepareStep(s, dt);
    var laddered := LadderStep(cfg, prepared, input, dt);
    var jumped := JumpStep(cfg.stats, laddered, input, false, ceilingHit);
    var clamped := jumped.(velocity := ClampFall(jumped.velocity, cfg.maxFallSpeed));
    var reset := ResetJumpStep(clamped);
    reset.(jumpDirection := GetNowJumpDirection(input))
  }

  /** Standing (or climbing) refills the budget: the next short frame allows the full jump count. */
  lemma GroundRefillsBudget(stats: PlayerStats, s: PlayerState, dt: real)
    requires Grounded(s) && dt < JUMP_GRACE_TIME
    ensures var next := PrepareStep(ResetJumpStep(s), dt);
            next.jumpCount == 0 && MaxJumpCount(stats, next) == stats.maxJumpCount
  {
  }

  /**
   * The dismount guard: a jump off a ladder is not followed by re-attaching to that ladder
   * on the next frame, whatever that frame's input. The guard compares the direction stored
   * at the end of the previous frame, which after the dismount frame is the dismount
   * direction itself, so the next frame is blocked for any input; the test "the player still
   * holds the dismount direction" first depends on the input one frame later.
   */
  lemma DismountBlocksReattach(cfg: Settings, s: PlayerState, jumpInput: InputValues, dt1: real,
                               input: InputValues, dt2: real, ceilingHit2: bool)
    // first frame: climbing on a ladder tile, moving vertically, jumping under a clear ceiling with budget left
    requires s.controllable && s.climbLadder
    requires jumpInput.jumpDown && jumpInput.vertical != 0.0
    requires OnLadderTile(cfg, s, jumpInput)
    requires s.jumpCount < cfg.stats.maxJumpCount + (if s.jumpGraceTimer - dt1 <= 0.0 then -1 else 0)
    // the take-off speed survives the clamp and is not mistaken for standing
    requires cfg.stats.jumpHeight >= 2.0 * GROUNDED_SPEED && cfg.maxFallSpeed >= GROUNDED_SPEED
    ensures var first := TickStep(cfg, s, jumpInput, dt1, false);
            !first.climbLadder && !TickStep(cfg, first, input, dt2, ceilingHit2).climbLadder
  {
    DismountFrame(cfg, s, jumpInput, dt1);
    var first := TickStep(cfg, s, jumpInput, dt1, false);
    NoReattachAfterDismount(cfg, first, input, dt2, ceilingHit2, s.position, jumpInput.vertical);
  }

  /**
   * The dismount frame itself: the player leaves the ladder, remembers the ladder's anchor x,
   * stays in its column, and ends the frame with its stored direction equal to the dismount
   * direction.
   */
  lemma DismountFrame(cfg: Settings, s: PlayerState, jumpInput: InputValues, dt1: real)
    requires s.controllable && s.climbLadder
    requires jumpInput.jumpDown && jumpInput.vertical != 0.0
    requires OnLadderTile(cfg, s, jumpInput)
    requires s.jumpCount < cfg.stats.maxJumpCount + (if s.jumpGraceTimer - dt1 <= 0.0 then -1 else 0)
    requires cfg.stats.jumpHeight >= 2.0 * GROUNDED_SPEED && cfg.maxFallSpeed >= GROUNDED_SPEED
    ensures var first := TickStep(cfg, s, jumpInput, dt1, false);
            && !first.climbLadder
            && first.lastLadderJumpDirection == first.jumpDirection
            && first.position.x.Floor == s.position.x.Floor
            && first.previousLadderPos == HasTile(cfg.ladderTiles, s.position, jumpInput.vertical).1.x
  {
    var prepared := PrepareStep(s, dt1);
    var anchor := LadderAnchor(cfg, prepared, jumpInput);
    var laddered := LadderStep(cfg, prepared, jumpInput, dt1);
    assert laddered.climbLadder && laddered.ladderPos == anchor;
    assert laddered.lastLadderJumpDirection == GetNowJumpDirection(jumpInput);
    assert laddered.position.x.Floor == s.position.x.Floor by {
      AnchorStaysInColumn(cfg.ladderTiles, prepared.position, jumpInput.vertical);
    }
    var jumped := JumpStep(cfg.stats, laddered, jumpInput, false, false);
    assert JumpGranted(cfg.stats, laddered, jumpInput, false, false);
    assert jumped.previousLadderPos == anchor.x;
    var clamped := jumped.(velocity := ClampFall(jumped.velocity, cfg.maxFallSpeed));
    assert !Grounded(clamped);
    var first := TickStep(cfg, s, jumpInput, dt1, false);
    assert first == ResetJumpStep(clamped).(jumpDirection := GetNowJumpDirection(jumpInput));
  }

  /**
   * The frame after a dismount: with the stored direction equal to the dismount direction
   * and the remembered anchor being that of the player's column, no input re-attaches.
   */
  lemma NoReattachAfterDismount(cfg: Settings, first: PlayerState, input: InputValues, dt2: real, ceilingHit2: bool,
                                ladderProbe: Vec2, probeVertical: real)
    requires !first.climbLadder && first.lastLadderJumpDirection == first.jumpDirection
    requires HasTile(cfg.ladderTiles, ladderProbe, probeVertical).0
    requires first.position.x.Floor == ladderProbe.x.Floor
    requires first.previousLadderPos == HasTile(cfg.ladderTiles, ladderProbe, probeVertical).1.x
    ensures !TickStep(cfg, first, input, dt2, ceilingHit2).climbLadder
  {
    var again := PrepareStep(first, dt2);
    if OnLadderTile(cfg, again, input) {
      SameColumnSameAnchor(cfg.ladderTiles, again.position, input.vertical, ladderProbe, probeVertical);
      assert ReattachBlocked(cfg, again, input);
    }
    assert !LadderStep(cfg, again, input, dt2).climbLadder;
  }

  /**
   * The frame that attaches to a ladder ends climbing with air gravity and a solid collider:
   * `Update` sets both from `climbLadder` before `ClimbLadder` runs, so they only switch to
   * zero gravity and passthrough at the head of the next frame.
   */
  lemma AttachFrameLagsPhysics(cfg: Settings, s: PlayerState, input: InputValues, dt: real, ceilingHit: bool,
                               dt2: real)
    requires !s.climbLadder && !input.jumpDown
    requires Attaches(cfg, PrepareStep(s, dt), input)
    ensures var r := TickStep(cfg, s, input, dt, ceilingHit);
            && r.climbLadder && r.gravityScale == AIR_GRAVITY && !r.isTrigger
            && PrepareStep(r, dt2).gravityScale == 0.0 && PrepareStep(r, dt2).isTrigger
  {
    var prepared := PrepareStep(s, dt);
    var laddered := LadderStep(cfg, prepared, input, dt);
    assert laddered.climbLadder && laddered.gravityScale == AIR_GRAVITY && !laddered.isTrigger;
  }

  /** What can happen to a player between two frames, or in one. */
  datatype Event =
    | Frame(input: InputValues, dt: real, ceilingHit: bool)
    | Land(input: InputValues, onFloor: bool, landCeilingHit: bool)
    | Physics(input: InputValues)
    | Control(request: bool)

  /** One event on a dead player; `SetControllable` is called with the death flag set. */
  function DeadStep(cfg: Settings, s: PlayerState, e: Event): PlayerState
  {
    match e
    case Frame(input, dt, ceilingHit) => TickStep(cfg, s, input, dt, ceilingHit)
    case Land(input, onFloor, ceilingHit) => LandStep(cfg.stats, s, input, onFloor, ceilingHit)
    case Physics(input) => MoveStep(cfg.stats, s, input)
    case Control(request) => SetControllableStep(s, true, request)
  }

  /** A dead player's history: frames, collisions, physics steps and `SetControllable` calls, in order. */
  function DeadRun(cfg: Settings, s: PlayerState, events: seq<Event>): PlayerState
    decreases |events|
  {
    if events == [] then s else DeadRun(cfg, DeadStep(cfg, s, events[0]), events[1..])
  }

  /** One event on an uncontrollable dead player: no control, no move, no new jump, no new climb. */
  lemma DeadEvent(cfg: Settings, s: PlayerState, e: Event)
    requires !s.controllable && s.jumpCount >= 0
    ensures var r := DeadStep(cfg, s, e);
            && !r.controllable && r.position == s.position
            && 0 <= r.jumpCount <= s.jumpCount && (r.climbLadder ==> s.climbLadder)
  {
    if e.Frame? {
      var prepared := PrepareStep(s, e.dt);
      assert LadderStep(cfg, prepared, e.input, e.dt) == prepared;
      assert JumpStep(cfg.stats, prepared, e.input, false, e.ceilingHit) == prepared;
    }
  }

  /**
   * Once dead and out of control, a player stays that way through any interleaving of
   * frames, landings, physics steps and control requests: it is never moved, it never
   * gains a jump and it never starts climbing.
   */
  lemma {:induction false} DeadStaysUncontrollable(cfg: Settings, s: PlayerState, events: seq<Event>)
    requires !s.controllable && s.jumpCount >= 0
    ensures var r := DeadRun(cfg, s, events);
            && !r.controllable && r.position == s.position
            && 0 <= r.jumpCount <= s.jumpCount && (r.climbLadder ==> s.climbLadder)
    decreases |events|
  {
    if events != [] {
      DeadEvent(cfg, s, events[0]);
      DeadStaysUncontrollable(cfg, DeadStep(cfg, s, events[0]), events[1..]);
    }
  }
}
