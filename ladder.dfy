/**
 * `PlayerController.ClimbLadder` and `SetLadderStatus`: attaching to, climbing and
 * leaving a ladder, with the guard against re-attaching right after a dismount jump.
 */
module Ladder {
  import opened Geometry
  import opened PlayerTypes
  import opened Tiles

  /** `SetLadderStatus`'s probe: is the player's cell a ladder cell. */
  predicate OnLadderTile(cfg: Settings, s: PlayerState, input: InputValues)
  {
    HasTile(cfg.ladderTiles, s.position, input.vertical).0
  }

  /** The anchor of the ladder cell the player stands in (zero when there is none). */
  function LadderAnchor(cfg: Settings, s: PlayerState, input: InputValues): Vec2
  {
    HasTile(cfg.ladderTiles, s.position, input.vertical).1
  }

  /** `SetLadderStatus`: record the ladder anchor, or let go of the ladder when its tile is left. */
  function SetLadderStatusStep(cfg: Settings, s: PlayerState, input: InputValues): (r: PlayerState)
    ensures r.onLadder <==> OnLadderTile(cfg, s, input)
    ensures OnLadderTile(cfg, s, input) ==>
              && r.ladderPos == LadderAnchor(cfg, s, input) && r.climbLadder == s.climbLadder
              && r.gravityScale == s.gravityScale && r.isTrigger == s.isTrigger
    ensures !OnLadderTile(cfg, s, input) && s.onLadder ==>
              !r.climbLadder && r.gravityScale == LADDER_EXIT_GRAVITY && !r.isTrigger
    ensures !OnLadderTile(cfg, s, input) && !s.onLadder ==> r == s
    // the recorded anchor is the centre of the column the player stands in
    ensures r.onLadder ==> r.ladderPos.x - 0.5 <= r.position.x < r.ladderPos.x + 0.5
    ensures r == s.(ladderPos := r.ladderPos, onLadder := r.onLadder, climbLadder := r.climbLadder,
                    gravityScale := r.gravityScale, isTrigger := r.isTrigger)
  {
    var (found, anchor) := HasTile(cfg.ladderTiles, s.position, input.vertical);
    if found then s.(ladderPos := anchor, onLadder := true)
    else if !s.onLadder then s
    else s.(onLadder := false, climbLadder := false, gravityScale := LADDER_EXIT_GRAVITY, isTrigger := false)
  }

  /** The direction remembered as the last dismount: the current one when jumping off while climbing. */
  function DismountDirection(s: PlayerState, input: InputValues): JumpDire
  {
    if s.climbLadder && input.jumpDown then GetNowJumpDirection(input) else s.lastLadderJumpDirection
  }

  /** The re-attach guard: same direction as the dismount, and the ladder anchor has not moved. */
  predicate ReattachBlocked(cfg: Settings, s: PlayerState, input: InputValues)
  {
    s.jumpDirection == DismountDirection(s, input)
    && Abs(s.previousLadderPos - LadderAnchor(cfg, s, input).x) < LADDER_EPSILON
  }

  /** The player attaches (or stays attached and climbs) this tick. */
  predicate Attaches(cfg: Settings, s: PlayerState, input: InputValues)
  {
    s.controllable && OnLadderTile(cfg, s, input) && input.vertical != 0.0 && !ReattachBlocked(cfg, s, input)
  }

  /**
   * A ladder whose top is covered: pushing up, the probe one unit above the player holds
   * floor but no ladder. `HasTile` shifts an upward probe by one more cell, so the cell
   * probed is the one containing height `at.y + 2`.
   */
  predicate CoveredTop(cfg: Settings, at: Vec2, vertical: real)
  {
    var above := Vec2(at.x, at.y + 1.0);
    vertical > 0.0 && HasTile(cfg.floorTiles, above, vertical).0 && !HasTile(cfg.ladderTiles, above, vertical).0
  }

  /** `ClimbLadder(position)` for one tick of length `dt`. */
  function LadderStep(cfg: Settings, s: PlayerState, input: InputValues, dt: real): (r: PlayerState)
    ensures !s.controllable ==> r == s
    // still on a ladder with no vertical input: the body stops
    ensures s.controllable && s.climbLadder && input.vertical == 0.0 ==> r.velocity == Zero && r.animPaused
    // leaving the ladder tile drops the ladder and restores gravity and collisions
    ensures s.controllable && !OnLadderTile(cfg, s, input) && s.onLadder ==>
              && !r.onLadder && !r.climbLadder
              && r.gravityScale == LADDER_EXIT_GRAVITY && !r.isTrigger
    ensures !(s.controllable && !OnLadderTile(cfg, s, input) && s.onLadder) ==>
              r.gravityScale == s.gravityScale && r.isTrigger == s.isTrigger
    ensures s.controllable && OnLadderTile(cfg, s, input) ==>
              r.onLadder && r.ladderPos == LadderAnchor(cfg, s, input)
    // attaching snaps to the anchor, stops the body, and climbs unless the top is covered
    ensures Attaches(cfg, s, input) ==>
              var anchor := LadderAnchor(cfg, s, input);
              && r.climbLadder && r.velocity == Zero && r.position.x == anchor.x
              && r.position.y == s.position.y +
                   (if CoveredTop(cfg, Vec2(anchor.x, s.position.y), input.vertical) then 0.0
                    else input.vertical * cfg.stats.speed * dt)
    // nothing else starts climbing or moves the player
    ensures !Attaches(cfg, s, input) ==> r.position == s.position && (r.climbLadder ==> s.climbLadder)
    ensures r.velocity == s.velocity || r.velocity == Zero
    // only the stop on a ladder and attaching change the velocity
    ensures !(s.controllable && s.climbLadder && input.vertical == 0.0) && !Attaches(cfg, s, input) ==>
              r.velocity == s.velocity
    // a player away from any ladder is left untouched
    ensures !s.climbLadder && !s.onLadder && !OnLadderTile(cfg, s, input) ==> r == s
    ensures r.lastLadderJumpDirection ==
              if s.controllable && OnLadderTile(cfg, s, input) && input.vertical != 0.0
              then DismountDirection(s, input) else s.lastLadderJumpDirection
    ensures LadderConsistent(s) ==> LadderConsistent(r)
    ensures r == s.(position := r.position, velocity := r.velocity, gravityScale := r.gravityScale,
                    isTrigger := r.isTrigger, animPaused := r.animPaused,
                    lastLadderJumpDirection := r.lastLadderJumpDirection, ladderPos := r.ladderPos,
                    onLadder := r.onLadder, climbLadder := r.climbLadder)
  {
    if !s.controllable then s
    else
      var paused := if s.climbLadder && input.vertical == 0.0 then s.(velocity := Zero, animPaused := true) else s;
      var status := SetLadderStatusStep(cfg, paused, input);
      ClimbFromStatus(cfg, status, input, s.position.y, dt)
  }

  /**
   * On a ladder cell a climbing player keeps climbing, and a player who attaches starts:
   * `ClimbLadder` never ends a climb on the ladder's own tile (only a jump or leaving the tile does).
   */
  lemma ClimbingContinues(cfg: Settings, s: PlayerState, input: InputValues, dt: real)
    requires s.controllable && OnLadderTile(cfg, s, input)
    ensures LadderStep(cfg, s, input, dt).climbLadder == (s.climbLadder || Attaches(cfg, s, input))
  {
  }

  /** The animation pauses when idle on a ladder and resumes when a climb moves the player. */
  lemma AnimationFollowsClimb(cfg: Settings, s: PlayerState, input: InputValues, dt: real)
    ensures LadderStep(cfg, s, input, dt).animPaused ==
              if Attaches(cfg, s, input) && !CoveredTop(cfg, Vec2(LadderAnchor(cfg, s, input).x, s.position.y), input.vertical)
              then false
              else if s.controllable && s.climbLadder && input.vertical == 0.0 then true
              else s.animPaused
  {
  }

  /** Off a ladder cell the recorded ladder anchor is kept. */
  lemma AnchorKeptOffLadder(cfg: Settings, s: PlayerState, input: InputValues, dt: real)
    requires !OnLadderTile(cfg, s, input)
    ensures LadderStep(cfg, s, input, dt).ladderPos == s.ladderPos
  {
  }

  /**
   * The rest of `ClimbLadder` once `SetLadderStatus` has run: with vertical input on a ladder
   * tile, note a dismount jump, then attach to the ladder.
   */
  function ClimbFromStatus(cfg: Settings, s: PlayerState, input: InputValues, startY: real, dt: real): (r: PlayerState)
    ensures input.vertical == 0.0 || !s.onLadder ==> r == s
    ensures r.lastLadderJumpDirection == if input.vertical != 0.0 && s.onLadder then DismountDirection(s, input) else s.lastLadderJumpDirection
    ensures r == s.(position := r.position, velocity := r.velocity, animPaused := r.animPaused,
                    climbLadder := r.climbLadder, lastLadderJumpDirection := r.lastLadderJumpDirection)
  {
    if input.vertical == 0.0 || !s.onLadder then s
    else
      var marked :=
        if s.climbLadder && input.jumpDown
        then s.(lastLadderJumpDirection := GetNowJumpDirection(input))
        else s;
      AttachStep(cfg, marked, input, startY, dt)
  }

  /**
   * Unless re-attaching is blocked, snap to the ladder at the frame's starting height `startY`,
   * stop, and climb unless the top is covered.
   */
  function AttachStep(cfg: Settings, s: PlayerState, input: InputValues, startY: real, dt: real): PlayerState
  {
    if s.jumpDirection == s.lastLadderJumpDirection && Abs(s.previousLadderPos - s.ladderPos.x) < LADDER_EPSILON
    then s
    else
      var attached := s.(climbLadder := true, position := Vec2(s.ladderPos.x, startY), velocity := Zero);
      if CoveredTop(cfg, attached.position, input.vertical) then attached
      else
        attached.(position := Vec2(attached.position.x, attached.position.y + input.vertical * cfg.stats.speed * dt),
                  animPaused := false)
  }
}
