/**
 * `PlayerController` as a class: the settings it reads, the latest input, and the fields it
 * writes, held as one `PlayerState` record `state`. Its methods update that record statement
 * by statement as the source updates its fields; each is proved to leave it as the matching
 * step function prescribes, and the properties are proved about those functions.
 */
module Controller {
  import opened Geometry
  import opened PlayerTypes
  import opened Tiles
  import opened Jumping
  import opened Ladder
  import opened Movement
  import opened Landing
  import opened SkillGate
  import opened Tick

  class PlayerController {
    // what the per-tick logic only reads
    var playerStats: PlayerStats
    var ladderTilemap: set<Cell>
    var floorTilemap: set<Cell>
    var maxFallSpeed: real
    var hasItem: bool
    var input: InputValues

    /** Rigidbody, collider, sprite, animator, control flag, jump and ladder bookkeeping, landing actions. */
    var state: PlayerState

    /** The fields the per-tick logic reads but does not write. */
    function Config(): Settings
      reads this`playerStats, this`ladderTilemap, this`floorTilemap, this`maxFallSpeed, this`hasItem
    {
      Settings(playerStats, ladderTilemap, floorTilemap, maxFallSpeed, hasItem)
    }

    /** Climbing implies standing on a ladder tile; the jump count and its offset stay in range. */
    predicate Valid()
      reads this`state
    {
      LadderConsistent(state) && state.jumpCount >= 0 && -1 <= state.jumpCountOffset <= 0
    }

    /** `Awake`/`Initialize`: the map's ladder and floor layers, stats from the player, default fields. */
    constructor (stats: PlayerStats, ladderTiles: set<Cell>, floorTiles: set<Cell>, spawn: Vec2)
      ensures Valid()
      ensures Config() == Settings(stats, ladderTiles, floorTiles, DEFAULT_MAX_FALL_SPEED, false)
      ensures state == InitialState(spawn)
    {
      playerStats, ladderTilemap, floorTilemap := stats, ladderTiles, floorTiles;
      maxFallSpeed, hasItem := DEFAULT_MAX_FALL_SPEED, false;
      input := InputValues(0.0, 0.0, false, false, false, false, false, false, false, false, false);
      state := InitialState(spawn);
    }

    /** `OnMapChanged`: read the new map's ladder and floor layers. */
    method SetTilemaps(ladderTiles: set<Cell>, floorTiles: set<Cell>)
      requires Valid()
      modifies this`ladderTilemap, this`floorTilemap
      ensures Valid()
      ensures ladderTilemap == ladderTiles && floorTilemap == floorTiles
    {
      ladderTilemap, floorTilemap := ladderTiles, floorTiles;
    }

    /** `Update`: one frame with this frame's input, frame time and ceiling probe; returns the slots played. */
    method Update(frameInput: InputValues, dt: real, ceilingHit: bool, skills: SkillType -> Skill)
      returns (fired: seq<SkillType>)
      requires Valid()
      modifies this`input, this`state
      ensures Valid()
      ensures input == frameInput
      ensures state == TickStep(Config(), old(state), frameInput, dt, ceilingHit)
      ensures fired == SkillsFired(frameInput, hasItem, state.climbLadder, skills, SKILL_ORDER)
    {
      input := frameInput;
      var framePosition := state.position;
      Prepare(dt);
      ClimbLadder(framePosition, dt);
      Jump(false, ceilingHit);
      ClampVelocity();
      ResetJump();
      state := state.(jumpDirection := GetNowJumpDirection(input));
      fired := UseSkill(skills, SKILL_ORDER);
    }

    /** The head of `Update`: timers, collider, gravity and the jump-count offset. */
    method Prepare(dt: real)
      modifies this`state
      ensures state == PrepareStep(old(state), dt)
    {
      state := state.(jumpGraceTimer := state.jumpGraceTimer - dt);
      state := state.(jumpBuffer := state.jumpBuffer - dt);
      state := state.(isTrigger := state.climbLadder);
      state := state.(gravityScale := if state.climbLadder then 0.0 else AIR_GRAVITY);
      state := state.(jumpCountOffset := if state.jumpGraceTimer <= 0.0 then -1 else 0);
    }

    /** `ClimbLadder(position)`: `framePosition` is where the frame started. */
    method ClimbLadder(framePosition: Vec2, dt: real)
      requires framePosition == state.position
      modifies this`state
      ensures state == LadderStep(Config(), old(state), input, dt)
    {
      if !state.controllable {
        return;
      }
      if state.climbLadder && input.vertical == 0.0 {
        state := state.(velocity := Zero);
        state := state.(animPaused := true);
      }
      SetLadderStatus();
      ClimbAfterStatus(framePosition.y, dt);
    }

    /** The rest of `ClimbLadder` after `SetLadderStatus`; `startY` is the frame's starting height. */
    method ClimbAfterStatus(startY: real, dt: real)
      modifies this`state
      ensures state == ClimbFromStatus(Config(), old(state), input, startY, dt)
    {
      if input.vertical == 0.0 || !state.onLadder {
        return;
      }
      if state.climbLadder && input.jumpDown {
        state := state.(lastLadderJumpDirection := GetNowJumpDirection(input));
      }
      Attach(startY, dt);
    }

    /** Snap onto the ladder and climb, unless this is the ladder just jumped off in the same direction. */
    method Attach(startY: real, dt: real)
      modifies this`state
      ensures state == AttachStep(Config(), old(state), input, startY, dt)
    {
      var s := state;
      if s.jumpDirection == s.lastLadderJumpDirection && Abs(s.previousLadderPos - s.ladderPos.x) < LADDER_EPSILON {
        return;
      }
      s := s.(climbLadder := true, position := Vec2(s.ladderPos.x, startY), velocity := Zero);
      if CoveredTop(Config(), s.position, input.vertical) {
        state := s;
        return;
      }
      var deltaY := input.vertical * playerStats.speed * dt;
      s := s.(position := Vec2(s.position.x, s.position.y + deltaY), animPaused := false);
      state := s;
    }

    /** `SetLadderStatus`: probe the ladder layer at the player's position. */
    method SetLadderStatus()
      modifies this`state
      ensures state == SetLadderStatusStep(Config(), old(state), input)
    {
      var (found, anchor) := HasTile(ladderTilemap, state.position, input.vertical);
      if found {
        state := state.(ladderPos := anchor);
        state := state.(onLadder := true);
        return;
      }
      if !state.onLadder {
        return;
      }
      state := state.(onLadder := false);
      state := state.(climbLadder := false);
      state := state.(gravityScale := LADDER_EXIT_GRAVITY);
      state := state.(isTrigger := false);
    }

    /** `Jump(forced)`; `ceilingHit` is the short upward raycast against the floor layer. */
    method Jump(forced: bool, ceilingHit: bool)
      modifies this`state
      ensures state == JumpStep(playerStats, old(state), input, forced, ceilingHit)
    {
      if !forced && !input.jumpDown {
        return;
      }
      if !state.controllable {
        return;
      }
      if ceilingHit {
        return;
      }
      var s := state.(jumpBuffer := JUMP_BUFFER);
      if s.jumpCount >= playerStats.maxJumpCount + s.jumpCountOffset {
        state := s;
        return;
      }
      var jumpHeight := if s.climbLadder && input.vertical < 0.0 then -playerStats.jumpHeight * 0.5
                        else playerStats.jumpHeight;
      s := s.(jumpBuffer := 0.0);
      s := s.(jumpCount := s.jumpCount + 1);
      if s.climbLadder {
        s := s.(animPaused := false);
        s := s.(climbLadder := false);
        s := s.(previousLadderPos := s.ladderPos.x);
      }
      s := s.(velocity := Vec2(s.velocity.x, jumpHeight));
      if s.jumpGraceTimer > 0.0 {
        s := s.(jumpGraceTimer := FLOAT_MAX);
      }
      state := s;
    }

    /** `ResetJump`. */
    method ResetJump()
      modifies this`state
      ensures state == ResetJumpStep(old(state))
    {
      if Abs(state.velocity.y) < GROUNDED_SPEED || state.climbLadder {
        state := state.(jumpGraceTimer := JUMP_GRACE_TIME);
        state := state.(jumpCount := 0);
        state := state.(jumpDirection := JumpDire.None);
        state := state.(lastLadderJumpDirection := JumpDire.None);
      }
    }

    /** `ClampVelocity`. */
    method ClampVelocity()
      modifies this`state
      ensures state == old(state).(velocity := ClampFall(old(state).velocity, maxFallSpeed))
    {
      if state.velocity.y < -maxFallSpeed {
        state := state.(velocity := Vec2(state.velocity.x, -maxFallSpeed));
      }
    }

    /** `FixedUpdate`: no horizontal move while climbing. */
    method FixedUpdate()
      requires Valid()
      modifies this`state
      ensures Valid()
      ensures state == MoveStep(playerStats, old(state), input)
    {
      if state.climbLadder {
        return;
      }
      Move();
    }

    /** `Move`: horizontal speed from the input, vertical speed kept, then `FlipSprite`. */
    method Move()
      requires !state.climbLadder
      modifies this`state
      ensures state == MoveStep(playerStats, old(state), input)
    {
      if !state.controllable {
        return;
      }
      state := state.(velocity := Vec2(input.horizontal * playerStats.speed, state.velocity.y));
      FlipSprite();
    }

    /** `FlipSprite`: turn the sprite towards non-zero horizontal input. */
    method FlipSprite()
      modifies this`state
      ensures state == old(state).(scaleX := FlippedScale(old(state).scaleX, input.horizontal))
    {
      if input.horizontal > 0.0 {
        state := state.(scaleX := -1.0);
      } else if input.horizontal < 0.0 {
        state := state.(scaleX := 1.0);
      }
    }

    /** `AddLandingAction`: queue a callback for the next floor contact. */
    method AddLandingAction(action: LandingAction)
      requires Valid()
      modifies this`state
      ensures Valid()
      ensures state == old(state).(landingActions := old(state).landingActions + [action])
    {
      state := state.(landingActions := state.landingActions + [action]);
    }

    /** Invoking one queued callback. */
    method InvokeLandingAction(action: LandingAction)
      modifies this`state
      ensures state == RunAction(old(state), action)
    {
      match action
      case StopMotion => state := state.(velocity := Zero);
      case External(_) =>
    }

    /** `OnCollisionEnter2D`; `onFloor` says the other object is on the Floor layer. */
    method OnCollisionEnter2D(onFloor: bool, ceilingHit: bool)
      requires Valid()
      modifies this`state
      ensures Valid()
      ensures state == LandStep(playerStats, old(state), input, onFloor, ceilingHit)
    {
      if !onFloor {
        return;
      }
      if state.jumpBuffer > 0.0 {
        state := state.(jumpCount := 0);
        Jump(true, ceilingHit);
      }
      ghost var jumped := state;
      var actions := state.landingActions;
      var i := 0;
      while i < |actions|
        invariant 0 <= i <= |actions|
        invariant RunActions(state, actions[i..]) == RunActions(jumped, actions)
      {
        assert actions[i..] == [actions[i]] + actions[i + 1..];
        InvokeLandingAction(actions[i]);
        i := i + 1;
      }
      state := state.(landingActions := []);
    }

    /** `SetControllable(value)`; `dead` is the owning player's death flag. */
    method SetControllable(value: bool, dead: bool)
      requires Valid()
      modifies this`state
      ensures Valid()
      ensures state == SetControllableStep(old(state), dead, value)
    {
      if dead {
        state := state.(controllable := false);
        return;
      }
      state := state.(controllable := value);
      if !value && state.velocity.y == 0.0 {
        state := state.(velocity := Vec2(0.0, state.velocity.y));
      }
    }

    /**
     * `UseSkill`: the item slot first, then, unless climbing, the slots in `order` until the
     * first one whose button is held and which is ready; that one is played if it is an
     * `IUseable`, and the loop stops either way.
     */
    method UseSkill(skills: SkillType -> Skill, order: seq<SkillType>) returns (fired: seq<SkillType>)
      ensures fired == SkillsFired(input, hasItem, state.climbLadder, skills, order)
    {
      fired := [];
      if input.itemSkill && hasItem {
        fired := [Item];
      }
      if state.climbLadder {
        return;
      }
      var i := 0;
      while i < |order|
        invariant 0 <= i <= |order|
        invariant fired == ItemFired(input, hasItem)
        invariant forall j :: 0 <= j < i ==> !PressedAndReady(input, skills, order[j])
      {
        var slot := order[i];
        if !IsSkillButtonPressed(input, slot) || !skills(slot).isReady {
          i := i + 1;
          continue;
        }
        if skills(slot).isUseable {
          fired := fired + [slot];
        }
        break;
      }
    }
  }
}
