/**
 * `PlayerController.Jump`, `ResetJump` and `ClampVelocity` as functions of the
 * controller's state, with the jump-budget property over a run of attempts.
 */
module Jumping {
  import opened Geometry
  import opened PlayerTypes

  /** The jump gets past the button check, the control gate and the ceiling probe. */
  predicate PastProbe(s: PlayerState, input: InputValues, forced: bool, ceilingHit: bool)
  {
    (forced || input.jumpDown) && s.controllable && !ceilingHit
  }

  /** The jump happens: past the probe and the jump count is still under the budget. */
  predicate JumpGranted(stats: PlayerStats, s: PlayerState, input: InputValues, forced: bool, ceilingHit: bool)
  {
    PastProbe(s, input, forced, ceilingHit) && s.jumpCount < MaxJumpCount(stats, s)
  }

  /** Take-off speed: half the jump height downwards when dropping off a ladder, else the jump height. */
  function JumpVelocity(stats: PlayerStats, climbing: bool, vertical: real): real
  {
    if climbing && vertical < 0.0 then -stats.jumpHeight * 0.5 else stats.jumpHeight
  }

  /** The fields `Jump` never writes. */
  predicate JumpFrame(s: PlayerState, r: PlayerState)
  {
    && r.position == s.position
    && r.gravityScale == s.gravityScale
    && r.isTrigger == s.isTrigger
    && r.scaleX == s.scaleX
    && r.controllable == s.controllable
    && r.jumpCountOffset == s.jumpCountOffset
    && r.jumpDirection == s.jumpDirection
    && r.lastLadderJumpDirection == s.lastLadderJumpDirection
    && r.ladderPos == s.ladderPos
    && r.onLadder == s.onLadder
    && r.landingActions == s.landingActions
  }

  /** `Jump(forced)` with the ceiling raycast given as `ceilingHit`. */
  function JumpStep(stats: PlayerStats, s: PlayerState, input: InputValues, forced: bool, ceilingHit: bool): (r: PlayerState)
    // no request, no control, or a ceiling: nothing changes (the buffer is not touched)
    ensures !PastProbe(s, input, forced, ceilingHit) ==> r == s
    // a refused jump still buffers the press
    ensures PastProbe(s, input, forced, ceilingHit) && !JumpGranted(stats, s, input, forced, ceilingHit) ==>
              r == s.(jumpBuffer := JUMP_BUFFER)
    // a jump is counted exactly when it is granted, and only from under the budget
    ensures r.jumpCount == s.jumpCount + 1 <==> JumpGranted(stats, s, input, forced, ceilingHit)
    ensures r.jumpCount != s.jumpCount ==> s.jumpCount < MaxJumpCount(stats, s) && r.jumpCount == s.jumpCount + 1
    ensures JumpGranted(stats, s, input, forced, ceilingHit) ==>
              && r.jumpBuffer == 0.0
              && r.velocity == Vec2(s.velocity.x, JumpVelocity(stats, s.climbLadder, input.vertical))
              && !r.climbLadder
              && r.previousLadderPos == (if s.climbLadder then s.ladderPos.x else s.previousLadderPos)
              && r.animPaused == (s.animPaused && !s.climbLadder)
              && r.jumpGraceTimer == (if s.jumpGraceTimer > 0.0 then FLOAT_MAX else s.jumpGraceTimer)
    ensures JumpFrame(s, r)
    ensures LadderConsistent(s) ==> LadderConsistent(r)
  {
    if !(forced || input.jumpDown) then s
    else if !s.controllable then s
    else if ceilingHit then s
    else
      var buffered := s.(jumpBuffer := JUMP_BUFFER);
      if buffered.jumpCount >= MaxJumpCount(stats, buffered) then buffered
      else
        var vy := JumpVelocity(stats, buffered.climbLadder, input.vertical);
        var counted := buffered.(jumpBuffer := 0.0, jumpCount := buffered.jumpCount + 1);
        var dismounted :=
          if counted.climbLadder
          then counted.(animPaused := false, climbLadder := false, previousLadderPos := counted.ladderPos.x)
          else counted;
        var launched := dismounted.(velocity := Vec2(dismounted.velocity.x, vy));
        if launched.jumpGraceTimer > 0.0 then launched.(jumpGraceTimer := FLOAT_MAX) else launched
  }

  /** `ResetJump` fires while standing still vertically or while climbing. */
  predicate Grounded(s: PlayerState)
  {
    Abs(s.velocity.y) < GROUNDED_SPEED || s.climbLadder
  }

  /** `ResetJump`: refill coyote time and the jump count, forget the jump directions. */
  function ResetJumpStep(s: PlayerState): (r: PlayerState)
    ensures Grounded(s) ==>
              && r.jumpGraceTimer == JUMP_GRACE_TIME && r.jumpCount == 0
              && r.jumpDirection == JumpDire.None && r.lastLadderJumpDirection == JumpDire.None
    ensures !Grounded(s) ==> r == s
    ensures r == s.(jumpGraceTimer := r.jumpGraceTimer, jumpCount := r.jumpCount,
                    jumpDirection := r.jumpDirection, lastLadderJumpDirection := r.lastLadderJumpDirection)
  {
    if Abs(s.velocity.y) < GROUNDED_SPEED || s.climbLadder then
      s.(jumpGraceTimer := JUMP_GRACE_TIME, jumpCount := 0,
         jumpDirection := JumpDire.None, lastLadderJumpDirection := JumpDire.None)
    else s
  }

  /** `ClampVelocity`: the fall speed is capped at `maxFallSpeed`, with the least change. */
  function ClampFall(v: Vec2, maxFallSpeed: real): (r: Vec2)
    ensures r.x == v.x
    ensures r.y >= -maxFallSpeed && r.y >= v.y
    ensures r.y != v.y ==> r.y == -maxFallSpeed
    ensures v.y >= -maxFallSpeed ==> r == v
  {
    if v.y < -maxFallSpeed then Vec2(v.x, -maxFallSpeed) else v
  }

  /** Clamping twice is clamping once. */
  lemma ClampIdempotent(v: Vec2, maxFallSpeed: real)
    ensures ClampFall(ClampFall(v, maxFallSpeed), maxFallSpeed) == ClampFall(v, maxFallSpeed)
  {
  }

  /** One jump attempt of a run: that tick's input and ceiling probe. */
  datatype JumpAttempt = JumpAttempt(input: InputValues, ceilingHit: bool)

  /** Unforced jump attempts one after another, with no landing or reset in between. */
  function JumpRun(stats: PlayerStats, s: PlayerState, attempts: seq<JumpAttempt>): PlayerState
    decreases |attempts|
  {
    if attempts == [] then s
    else JumpRun(stats, JumpStep(stats, s, attempts[0].input, false, attempts[0].ceilingHit), attempts[1..])
  }

  /** The attempts whose button was down and whose ceiling was clear. */
  function Presses(attempts: seq<JumpAttempt>): nat
    decreases |attempts|
  {
    if attempts == [] then 0
    else (if attempts[0].input.jumpDown && !attempts[0].ceilingHit then 1 else 0) + Presses(attempts[1..])
  }

  function Min(a: int, b: int): int
  {
    if a <= b then a else b
  }

  /**
   * The jump budget: a run of attempts grants one jump per clear press until the count
   * reaches `MaxJumpCount`, and none after that (nor any for an uncontrollable player).
   */
  lemma {:induction false} JumpBudget(stats: PlayerStats, s: PlayerState, attempts: seq<JumpAttempt>)
    ensures JumpRun(stats, s, attempts).jumpCount ==
              if !s.controllable || s.jumpCount >= MaxJumpCount(stats, s) then s.jumpCount
              else Min(MaxJumpCount(stats, s), s.jumpCount + Presses(attempts))
    decreases |attempts|
  {
    if attempts != [] {
      var next := JumpStep(stats, s, attempts[0].input, false, attempts[0].ceilingHit);
      JumpBudget(stats, next, attempts[1..]);
    }
  }
}
