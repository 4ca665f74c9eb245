/**
 * `PlayerController.OnCollisionEnter2D` and the one-shot landing-action list:
 * on floor contact a buffered jump fires first, then the queued actions run once
 * and the list is cleared.
 */
module Landing {
  import opened Geometry
  import opened PlayerTypes
  import opened Jumping

  /** Running one landing callback: `StopMotion` zeroes the velocity, foreign ones change nothing modelled. */
  function RunAction(s: PlayerState, action: LandingAction): PlayerState
  {
    match action
    case StopMotion => s.(velocity := Zero)
    case External(_) => s
  }

  /** Invoking the multicast delegate: every queued callback, in the order it was added. */
  function RunActions(s: PlayerState, actions: seq<LandingAction>): (r: PlayerState)
    ensures StopMotion in actions ==> r.velocity == Zero
    ensures StopMotion !in actions ==> r == s
    ensures r == s.(velocity := r.velocity)
    decreases |actions|
  {
    if actions == [] then s
    else RunActions(RunAction(s, actions[0]), actions[1..])
  }

  /** The forced jump of a buffered landing: the jump count is cleared first. */
  predicate BufferedJumpGranted(stats: PlayerStats, s: PlayerState, ceilingHit: bool)
  {
    s.jumpBuffer > 0.0 && s.controllable && !ceilingHit && 0 < MaxJumpCount(stats, s)
  }

  /** `OnCollisionEnter2D` with `onFloor` for "the other object is on the Floor layer". */
  function LandStep(stats: PlayerStats, s: PlayerState, input: InputValues, onFloor: bool, ceilingHit: bool): (r: PlayerState)
    ensures !onFloor ==> r == s
    // the queue is drained exactly once
    ensures onFloor ==> r.landingActions == []
    // a pending buffer resets the count and then fires exactly one jump if the jump is allowed
    ensures onFloor && s.jumpBuffer > 0.0 ==>
              r.jumpCount == (if BufferedJumpGranted(stats, s, ceilingHit) then 1 else 0)
    ensures onFloor && BufferedJumpGranted(stats, s, ceilingHit) ==> r.jumpBuffer == 0.0
    ensures onFloor && s.jumpBuffer <= 0.0 ==> r.jumpCount == s.jumpCount && r.jumpBuffer == s.jumpBuffer
    // the queued actions run after the jump, so a queued stop also cancels the jump's velocity
    ensures onFloor && StopMotion in s.landingActions ==> r.velocity == Zero
    ensures onFloor && s.jumpBuffer <= 0.0 && StopMotion !in s.landingActions ==> r == s.(landingActions := [])
    // with a queued stop, the landing is the jump (if any) followed by a full stop
    ensures onFloor && StopMotion in s.landingActions ==>
              r == (if s.jumpBuffer > 0.0 then JumpStep(stats, s.(jumpCount := 0), input, true, ceilingHit) else s)
                     .(velocity := Zero, landingActions := [])
    // without a queued stop, a buffered landing is exactly the forced jump from a cleared count
    ensures onFloor && s.jumpBuffer > 0.0 && StopMotion !in s.landingActions ==>
              r == JumpStep(stats, s.(jumpCount := 0), input, true, ceilingHit).(landingActions := [])
    ensures r.controllable == s.controllable && r.position == s.position && r.onLadder == s.onLadder
    ensures LadderConsistent(s) ==> LadderConsistent(r)
  {
    if !onFloor then s
    else
      var jumped := if s.jumpBuffer > 0.0 then JumpStep(stats, s.(jumpCount := 0), input, true, ceilingHit) else s;
      RunActions(jumped, jumped.landingActions).(landingActions := [])
  }
}
