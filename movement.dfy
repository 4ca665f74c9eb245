/**
 * `PlayerController.FixedUpdate`/`Move`/`FlipSprite` and `SetControllable`.
 */
module Movement {
  import opened Geometry
  import opened PlayerTypes
  import opened Jumping
  import opened Ladder

  /** `FlipSprite`: the sprite's x scale after a move with horizontal input `horizontal`. */
  function FlippedScale(scaleX: real, horizontal: real): (r: real)
    ensures horizontal > 0.0 ==> r == -1.0
    ensures horizontal < 0.0 ==> r == 1.0
    ensures horizontal == 0.0 ==> r == scaleX
  {
    if horizontal > 0.0 then -1.0 else if horizontal < 0.0 then 1.0 else scaleX
  }

  /** `FixedUpdate`: no horizontal move while climbing; otherwise `Move`, which needs control. */
  function MoveStep(stats: PlayerStats, s: PlayerState, input: InputValues): (r: PlayerState)
    ensures s.climbLadder || !s.controllable ==> r == s
    ensures !s.climbLadder && s.controllable ==>
              && r.velocity == Vec2(input.horizontal * stats.speed, s.velocity.y)
              && (input.horizontal > 0.0 ==> PlayerFacing(r) == Facing.Right)
              && (input.horizontal < 0.0 ==> PlayerFacing(r) == Facing.Left)
    // facing changes only on non-zero horizontal input
    ensures input.horizontal == 0.0 ==> r.scaleX == s.scaleX
    ensures r == s.(velocity := r.velocity, scaleX := r.scaleX)
  {
    if s.climbLadder || !s.controllable then s
    else s.(velocity := Vec2(input.horizontal * stats.speed, s.velocity.y),
            scaleX := FlippedScale(s.scaleX, input.horizontal))
  }

  /** `SetControllable(controllable)`; `dead` is the owning player's death flag. */
  function SetControllableStep(s: PlayerState, dead: bool, controllable: bool): (r: PlayerState)
    ensures dead ==> !r.controllable && r.velocity == s.velocity
    ensures !dead ==> r.controllable == controllable
    // taking control away on the ground also stops the horizontal drift
    ensures !dead && !controllable && s.velocity.y == 0.0 ==> r.velocity == Vec2(0.0, 0.0)
    ensures dead || controllable || s.velocity.y != 0.0 ==> r.velocity == s.velocity
    ensures r == s.(controllable := r.controllable, velocity := r.velocity)
  {
    if dead then s.(controllable := false)
    else
      var updated := s.(controllable := controllable);
      if !controllable && updated.velocity.y == 0.0 then updated.(velocity := Vec2(0.0, updated.velocity.y)) else updated
  }

  /** Once control is taken away (or the player is dead) input neither moves, jumps nor climbs. */
  lemma UncontrollableIgnoresInput(cfg: Settings, s: PlayerState, dead: bool, input: InputValues,
                                   forced: bool, ceilingHit: bool, dt: real)
    ensures var u := SetControllableStep(s, dead, false);
            && MoveStep(cfg.stats, u, input) == u
            && JumpStep(cfg.stats, u, input, forced, ceilingHit) == u
            && LadderStep(cfg, u, input, dt) == u
  {
  }
}
