# Platformer controller: locomotion, jump budget, ladders, skill gate and enemy hits

This project models the core of a 2D platformer written for Unity: the per-frame
state machine of `PlayerController` and the hit bookkeeping of `EnemyBase`.

`PlayerController` covers:

- coyote time (the grace timer);
- jump buffering;
- the jump budget, including the extra ground jump that coyote time grants;
- attaching to, climbing and leaving ladders on a tilemap;
- the guard against re-attaching to a ladder right after jumping off it;
- the fall-speed clamp;
- horizontal movement and sprite facing;
- the one-shot landing-action list;
- the control flag;
- the skill gate, which decides which skill slot plays in a frame.

`EnemyBase.Attacked` covers:

- the per-attack-ID counter that stacks the damage text of repeated hits;
- the critical-hit text intensity;
- the choice between stun and daze;
- the health decrement and the death test.

## How the model is organised

Each thing the controller does is a pure step function on a `PlayerState` value. That
value is a record of every field the controller writes: the rigidbody's position,
velocity and gravity scale, the collider's trigger flag, the sprite's x scale, the
animator's paused flag, `Controllable`, the jump and ladder bookkeeping, and the
landing actions. The properties are stated on these functions and proved as their
`ensures` clauses and as lemmas.

- `PlayerTypes` (`player_types.dfy`): the data model, constants, `MaxJumpCount`,
  `PlayerFacing`, `GetNowJumpDirection` and `IsSkillButtonPressed`.
- `Tiles` (`tiles.dfy`): the cell and anchor arithmetic of `HasTile`.
- `Jumping` (`jumping.dfy`): `Jump`, `ResetJump` and `ClampVelocity`, plus the
  jump-budget lemma over a run of attempts.
- `Ladder` (`ladder.dfy`): `SetLadderStatus` and `ClimbLadder`.
- `Movement` (`movement.dfy`): `FixedUpdate`/`Move`/`FlipSprite` and `SetControllable`.
- `Landing` (`landing.dfy`): `OnCollisionEnter2D` and the landing actions.
- `SkillGate` (`skill_gate.dfy`): the specification of `UseSkill`.
- `Tick` (`tick.dfy`): a whole `Update` frame as the composition of the steps in the
  source's order, plus the properties that only show across steps or frames.
- `Controller` (`controller.dfy`): the class `PlayerController`.
  - It holds the settings it reads (stats, the two tilemaps, `maxFallSpeed`,
    `_hasItem`), the latest input, and one field `state: PlayerState`.
  - Its methods update `state` statement by statement, as the source updates its
    fields.
  - Each method is proved to leave `state` exactly as the matching step function
    prescribes. `Update` runs the steps in the source's order. `UseSkill` walks the
    enum in a loop with `continue` and `break`.
- `EnemyHits` (`enemy.dfy`):
  - the attack-ID map update, with C#'s `uint` increment wrapping modulo 2^32;
  - a class `EnemyBase` whose `Attacked` updates the map and the health in place and
    reports what it shows and triggers.
- `Geometry` and `Optional`: `Vec2`, `Cell`, `Abs` and `Option`.

Unity's single-precision floats are modelled as `real`s. A tilemap is the set of cells
holding a tile, and its transform is taken as the identity.

Some inputs come from outside the modelled code and become parameters:

- the frame time `dt`;
- the input snapshot;
- the ceiling raycast in `Jump`, as a boolean;
- whether the collided object is on the Floor layer;
- each skill slot's `IsReady` and `IUseable`-ness, as a function of the slot;
- the player's `dead` flag.

### Behaviours of the code worth knowing

**Buffered landing.** A landing with a pending jump buffer is meant to produce exactly
one jump. The code does not always do that.

`OnCollisionEnter2D` (PlayerController.cs:248-253) clears `jumpCount` and then calls
`Jump(true)`. `Jump` still refuses the jump in three cases:

- the controller is not `Controllable`;
- the ceiling raycast hits;
- `0 >= MaxJumpCount`. `MaxJumpCount` adds to the stats' `maxJumpCount` the offset stored
  at the head of the last `Update` (line 124), not one computed from the current timer.
  So the jump is refused when the stats allow no jump at all (`maxJumpCount <= 0`), and
  when `maxJumpCount` is 1 and the last `Update` found coyote time run out (offset -1).

`Landing.LandStep` models the code. A buffered landing yields `jumpCount == 1` exactly
when `Landing.BufferedJumpGranted` holds, and `jumpCount == 0` otherwise.

**The item slot is played by the skill loop too.** `UseSkill` first plays the item when
the item button is held and `_hasItem` is set (PlayerController.cs:563-564). Its loop then
walks every `SkillTypes` value, `Item` included (lines 572-578), and `IsSkillButtonPressed`
maps `Item` to the item button (line 555). So holding only the item button plays the item
from the loop even without an item, and twice in one frame with one.
`SkillGate.ItemAlsoPlaysInLoop` states both. As written, `_hasItem` is never set to true
(line 561), so the first gate never fires.

**Physics lags one frame behind attaching.** `Update` sets the collider's trigger flag and
the gravity scale from `climbLadder` (lines 114-119) before `ClimbLadder` runs (line 128).
The frame that attaches to a ladder therefore ends with `climbLadder` set, air gravity and
a solid collider. Zero gravity and passthrough only take effect at the head of the next
frame. `Tick.AttachFrameLagsPhysics` states this.

## Model

Source paths are relative to the repository root. `PlayerController.cs` is
`Assets/__Scripts/Entity/Player/PlayerController.cs`, and `EnemyBase.cs` is
`Assets/__Scripts/Entity/Enemy/EnemyBase.cs`.

| member | source | states |
|---|---|---|
| PlayerTypes.InitialState | Assets/__Scripts/Entity/Player/PlayerController.cs:56 | a fresh controller sits at its spawn point at rest, controllable, off any ladder, with no jumps counted, no offset and no landing actions queued |
| PlayerTypes.PlayerFacing | Assets/__Scripts/Entity/Player/PlayerController.cs:52-54 | the player faces left exactly when the sprite's x scale is positive |
| PlayerTypes.GetNowJumpDirection | Assets/__Scripts/Entity/Player/PlayerController.cs:464-474 | Right iff horizontal input is positive, Left iff negative; Up or Down iff there is no horizontal input and the vertical input is positive or negative; None iff both are zero |
| PlayerTypes.IsSkillButtonPressed | Assets/__Scripts/Entity/Player/PlayerController.cs:546-558 | each slot reads pressed exactly when its own button is held: Primary, Secondary, Utility and Ultimate their namesakes, Passive the special button, Item the item button; no slot reads as pressed unless some skill button is held |
| Tiles.TileCell | Assets/__Scripts/Entity/Player/PlayerController.cs:507-512 | the probed cell contains the target, one cell higher when pushing up |
| Tiles.HasTile | Assets/__Scripts/Entity/Player/PlayerController.cs:502-527 | a tile is found iff the probed cell holds one; the anchor is zero when none is found, and otherwise exactly the middle of the probed cell's bottom edge, (cell.x + 0.5, cell.y): centred on the target's column, level with the cell's bottom, and the cell can be recovered from it |
| Tiles.SameColumnSameAnchor | Assets/__Scripts/Entity/Player/PlayerController.cs:516-523 | two successful probes in the same column report the same anchor x |
| Tiles.AnchorStaysInColumn | Assets/__Scripts/Entity/Player/PlayerController.cs:516-523 | the anchor x of a successful probe lies in the probed column |
| Jumping.JumpStep | Assets/__Scripts/Entity/Player/PlayerController.cs:319-370 | with no request, no control or a ceiling hit nothing changes; a refused jump over budget still sets the buffer; the count rises by one exactly when the jump is granted, and only from under MaxJumpCount; a granted jump clears the buffer, sets the take-off speed (half, downwards, when dropping off a ladder), leaves the ladder recording its anchor x, and turns remaining coyote time into the "large" sentinel; nothing else changes |
| Jumping.ResetJumpStep | Assets/__Scripts/Entity/Player/PlayerController.cs:376-387 | standing still vertically or climbing refills coyote time, clears the jump count and forgets both jump directions; otherwise nothing changes |
| Jumping.ClampFall | Assets/__Scripts/Entity/Player/PlayerController.cs:535-540 | the fall speed never exceeds maxFallSpeed afterwards, the horizontal speed is untouched, and a speed within bounds is left alone |
| Jumping.ClampIdempotent | Assets/__Scripts/Entity/Player/PlayerController.cs:535-540 | clamping twice is the same as clamping once |
| Jumping.JumpBudget | Assets/__Scripts/Entity/Player/PlayerController.cs:338-351 | over any run of unforced jump attempts, the count rises by one per clear press until it reaches MaxJumpCount and no further, and not at all for an uncontrollable player |
| Ladder.SetLadderStatusStep | Assets/__Scripts/Entity/Player/PlayerController.cs:479-497 | onLadder becomes "the player's cell is a ladder cell"; on a ladder cell the anchor is recorded; leaving the cell while on a ladder stops climbing, sets gravity to 1 and makes the collider solid; the recorded anchor is centred on the player's column |
| Ladder.LadderStep | Assets/__Scripts/Entity/Player/PlayerController.cs:412-459 | an uncontrollable player is untouched, and so is a player away from any ladder (not climbing, not on a ladder, not on a ladder cell); climbing with no vertical input stops the body and pauses the animation; leaving the ladder cell drops the ladder; attaching snaps to the anchor, stops the body and climbs by vertical × speed × dt unless the ladder's top is covered; only that stop and attaching change the velocity; nothing else starts climbing or moves the player; the dismount direction is recorded on a jump while climbing; climbing implies being on a ladder cell, before and after |
| Ladder.ClimbingContinues | Assets/__Scripts/Entity/Player/PlayerController.cs:414-440 | on a ladder cell, a controllable player climbs after the step exactly when it was climbing or attaches: idling or being held off by the re-attach guard never ends a climb |
| Ladder.AnimationFollowsClimb | Assets/__Scripts/Entity/Player/PlayerController.cs:417-458 | the climb animation resumes exactly when attaching moves the player (top not covered), pauses when idle on a ladder, and is otherwise left as it was |
| Ladder.AnchorKeptOffLadder | Assets/__Scripts/Entity/Player/PlayerController.cs:479-497 | off a ladder cell the recorded ladder anchor is kept |
| Ladder.ClimbFromStatus | Assets/__Scripts/Entity/Player/PlayerController.cs:426-458 | without vertical input or a ladder cell nothing changes; the dismount direction is recorded when jumping while climbing; only position, velocity, animation, climbing and the dismount direction change |
| Movement.FlippedScale | Assets/__Scripts/Entity/Player/PlayerController.cs:297-307 | positive horizontal input makes the x scale -1, negative makes it 1, no input keeps it |
| Movement.MoveStep | Assets/__Scripts/Entity/Player/PlayerController.cs:287-294 | while climbing or uncontrollable nothing changes; otherwise the horizontal speed becomes input × speed with the vertical speed kept, and the player faces the direction of the input |
| Movement.SetControllableStep | Assets/__Scripts/Entity/Player/PlayerController.cs:583-595 | a dead player becomes uncontrollable whatever is asked; otherwise the flag is set as asked, and taking control away while not moving vertically also zeroes the horizontal speed |
| Movement.UncontrollableIgnoresInput | Assets/__Scripts/Entity/Player/PlayerController.cs:583-595 | once control is taken away, Move, Jump (forced or not) and ClimbLadder change nothing |
| Tick.DeadStaysUncontrollable | Assets/__Scripts/Entity/Player/PlayerController.cs:583-589 | through any interleaving of frames, landings, physics steps and SetControllable calls, a dead uncontrollable player stays uncontrollable, is never moved, never gains a jump and never starts climbing |
| Tick.DeadEvent | Assets/__Scripts/Entity/Player/PlayerController.cs:583-589 | a single frame, landing, physics step or SetControllable call on a dead uncontrollable player keeps it uncontrollable, unmoved, with no more jumps and not newly climbing |
| Landing.RunActions | Assets/__Scripts/Entity/Player/PlayerController.cs:256 | invoking the queued actions zeroes the velocity if a stop-motion action is among them and otherwise changes nothing |
| Landing.LandStep | Assets/__Scripts/Entity/Player/PlayerController.cs:244-259 | a non-floor collision changes nothing; a floor contact drains the landing list; with a pending buffer the count is reset and exactly one jump fires if the jump is allowed; without a queued stop the new state is exactly the forced jump (take-off speed, coyote sentinel, ladder drop, or the buffer re-set on refusal) from a cleared count; with a queued stop it is that jump (or no jump without a buffer) followed by a full stop, every other field as the jump left it; without a buffer or a stop only the list changes |
| SkillGate.FirstPressedReady | Assets/__Scripts/Entity/Player/PlayerController.cs:572-578 | the found slot is pressed and ready and every slot before it is not; none is found only when no slot is pressed and ready |
| SkillGate.LoopFired | Assets/__Scripts/Entity/Player/PlayerController.cs:572-578 | the loop plays at most one slot; when slot i is the first pressed-and-ready one, it plays exactly that slot if it is usable and nothing otherwise; nothing plays when no slot is pressed and ready |
| SkillGate.SkillsFired | Assets/__Scripts/Entity/Player/PlayerController.cs:560-579 | at most two slots play; the item plays first whenever its button is held and an item is owned, even while climbing; while climbing exactly the item gate's result plays; off the ladder the first pressed-and-ready slot plays after the item when it is usable, and only the item gate's result plays when no slot is pressed and ready |
| SkillGate.ItemAlsoPlaysInLoop | Assets/__Scripts/Entity/Player/PlayerController.cs:563-578 | with only the item button held and the item slot ready and usable, the loop plays the item even without an item, and a frame with an item plays it twice |
| Tick.PrepareStep | Assets/__Scripts/Entity/Player/PlayerController.cs:107-126 | both timers run down by dt; the collider is a trigger and gravity is 0 exactly while climbing, otherwise gravity is 3; MaxJumpCount loses the ground jump exactly when coyote time has run out |
| Tick.TickStep | Assets/__Scripts/Entity/Player/PlayerController.cs:101-149 | after a frame the fall speed is within the cap, the jump direction is the input's, the offset follows the coyote timer, trigger and zero gravity come only from climbing, at most one jump is added and only within the budget, climbing still implies a ladder cell, and control, facing and landing actions are unchanged |
| Tick.GroundRefillsBudget | Assets/__Scripts/Entity/Player/PlayerController.cs:121-126 | after a reset on the ground, a frame shorter than the grace time allows the full jump count again |
| Tick.DismountBlocksReattach | Assets/__Scripts/Entity/Player/PlayerController.cs:428-435 | jumping off a ladder leaves it, and the next frame does not put the player back on that ladder, whatever its input |
| Tick.DismountFrame | Assets/__Scripts/Entity/Player/PlayerController.cs:428-431 | the dismount frame leaves the ladder, remembers the ladder's anchor x, keeps the player in its column, and stores the dismount direction as the frame's direction |
| Tick.NoReattachAfterDismount | Assets/__Scripts/Entity/Player/PlayerController.cs:433-435 | with the stored direction equal to the dismount direction and the remembered anchor that of the player's column, no input re-attaches on the next frame |
| Tick.AttachFrameLagsPhysics | Assets/__Scripts/Entity/Player/PlayerController.cs:114-128 | the frame that attaches ends climbing with air gravity and a solid collider; the next frame's head switches to zero gravity and passthrough |
| Controller.PlayerController.constructor | Assets/__Scripts/Entity/Player/PlayerController.cs:93-99 | the controller starts with the map's ladder and floor layers, a fall cap of 20, no item, and the initial state |
| Controller.PlayerController.SetTilemaps | Assets/__Scripts/Entity/Player/PlayerController.cs:93-99 | a map change replaces the ladder and floor layers and keeps the class invariant |
| Controller.PlayerController.Update | Assets/__Scripts/Entity/Player/PlayerController.cs:101-149 | one frame leaves the state as TickStep prescribes, keeps the class invariant, and plays the slots SkillsFired prescribes |
| Controller.PlayerController.Prepare | Assets/__Scripts/Entity/Player/PlayerController.cs:107-126 | the state becomes PrepareStep of the old state |
| Controller.PlayerController.ClimbLadder | Assets/__Scripts/Entity/Player/PlayerController.cs:412-459 | the state becomes LadderStep of the old state |
| Controller.PlayerController.ClimbAfterStatus | Assets/__Scripts/Entity/Player/PlayerController.cs:426-458 | the state becomes ClimbFromStatus of the old state |
| Controller.PlayerController.Attach | Assets/__Scripts/Entity/Player/PlayerController.cs:433-458 | the state becomes AttachStep of the old state: unchanged while re-attaching is blocked; otherwise climbing, snapped to the ladder's x at the frame's starting height and stopped, then moved up or down by the climb unless the top is covered, in which case the climb movement and the animation resume are skipped |
| Controller.PlayerController.SetLadderStatus | Assets/__Scripts/Entity/Player/PlayerController.cs:479-497 | the state becomes SetLadderStatusStep of the old state |
| Controller.PlayerController.Jump | Assets/__Scripts/Entity/Player/PlayerController.cs:319-370 | the state becomes JumpStep of the old state |
| Controller.PlayerController.ResetJump | Assets/__Scripts/Entity/Player/PlayerController.cs:376-387 | the state becomes ResetJumpStep of the old state |
| Controller.PlayerController.ClampVelocity | Assets/__Scripts/Entity/Player/PlayerController.cs:535-540 | only the velocity changes, to its ClampFall |
| Controller.PlayerController.FixedUpdate | Assets/__Scripts/Entity/Player/PlayerController.cs:228-234 | the state becomes MoveStep of the old state, so climbing skips the move; the class invariant is kept |
| Controller.PlayerController.Move | Assets/__Scripts/Entity/Player/PlayerController.cs:287-294 | the state becomes MoveStep of the old state |
| Controller.PlayerController.FlipSprite | Assets/__Scripts/Entity/Player/PlayerController.cs:297-307 | only the x scale changes, to its FlippedScale |
| Controller.PlayerController.AddLandingAction | Assets/__Scripts/Entity/Player/PlayerController.cs:239-242 | the action is appended to the landing list, nothing else changes, and the class invariant is kept |
| Controller.PlayerController.InvokeLandingAction | Assets/__Scripts/Entity/Player/PlayerController.cs:256 | one queued action runs on the state |
| Controller.PlayerController.OnCollisionEnter2D | Assets/__Scripts/Entity/Player/PlayerController.cs:244-259 | the state becomes LandStep of the old state, the actions running in a loop in the order they were added; the class invariant is kept |
| Controller.PlayerController.SetControllable | Assets/__Scripts/Entity/Player/PlayerController.cs:583-595 | the state becomes SetControllableStep of the old state; the class invariant is kept |
| Controller.PlayerController.UseSkill | Assets/__Scripts/Entity/Player/PlayerController.cs:560-579 | the slots played by walking the enum are exactly SkillsFired |
| EnemyHits.WrappingIncrement | Assets/__Scripts/Entity/Enemy/EnemyBase.cs:53 | the increment of a `uint` wraps modulo 2^32, and is a plain +1 below the largest value |
| EnemyHits.RecordHit | Assets/__Scripts/Entity/Enemy/EnemyBase.cs:52-55 | the ID is added to the keys; a new ID starts at 0; a known ID counts up by one (mod 2^32); other IDs keep their counts |
| EnemyHits.TextIntensity | Assets/__Scripts/Entity/Enemy/EnemyBase.cs:46 | the intensity is at least 1, above 1 exactly for a critical hit, and CRITICAL_FONT_SIZE for a critical hit |
| EnemyHits.ReactionFor | Assets/__Scripts/Entity/Enemy/EnemyBase.cs:64-67 | a zero stun duration dazes; any other duration stuns for exactly that long |
| EnemyHits.RepeatsCountUp | Assets/__Scripts/Entity/Enemy/EnemyBase.cs:52-55 | n more hits with a known ID raise its count by exactly n while it does not wrap |
| EnemyHits.NthRepeatStacksUp | Assets/__Scripts/Entity/Enemy/EnemyBase.cs:52-58 | the (n+1)-th hit with a fresh ID finds the count n, so its text sits n steps of VERTICAL_OFFSET straight above the enemy |
| EnemyHits.OtherHitsKeepCount | Assets/__Scripts/Entity/Enemy/EnemyBase.cs:52-55 | hits with other IDs never change an ID's count |
| EnemyHits.EnemyBase.constructor | Assets/__Scripts/Entity/Enemy/EnemyBase.cs:39 | a new enemy has an empty attack-ID map |
| EnemyHits.EnemyBase.Attacked | Assets/__Scripts/Entity/Enemy/EnemyBase.cs:41-76 | without an ID the map is unchanged and the text is at the enemy; with one the map is RecordHit of the old map and the text is stacked by the new count; the intensity, reaction and knockback are as the hit prescribes; health drops by the damage; the enemy dies exactly when health reaches 0 or below |
| EnemyHits.EnemyBase.GetDamage | Assets/__Scripts/Entity/Enemy/EnemyBase.cs:93-100 | health drops by exactly the damage |

## Left out

- Input plumbing (`InputSystem` callbacks, the one-frame latches for button edges) is not modelled. Each frame's `InputValues` is a parameter.
- `CheckInteraction` and interactable objects are not modelled: they are scene queries outside the locomotion core.
- Animator calls other than the paused/running speed of the climb animation (`IsWalk`, `IsClimb`, `IsJump`) are not modelled: they have no effect on the controller's state.
- Tilemap transforms are taken as the identity, so `WorldToCell` and `CellToWorld` reduce to flooring and adding 0.5.
- Float rounding is not modelled: Unity's single-precision floats are modelled as reals, and `float.MaxValue` is the constant `FLOAT_MAX`.
- The ceiling raycast in `Jump` is a boolean parameter rather than a physics query.
- The skills' own behaviour (`Play`, cooldowns, resources) is not modelled. Readiness and `IUseable`-ness come from a function of the slot.
- The exceptions for a missing skill slot, or for an item skill that is not `IUseable`, are not modelled.
- SKILL_ORDER takes `Item` as the last member of `SkillTypes`, whose declaration is not part of this model.
- Physics integration between frames (gravity acting on the velocity, the rigidbody moving the position) is not modelled. Each operation's effect on the fields it writes is.
- Collisions other than the Floor-layer test are not modelled. The test is the boolean `onFloor`.
- The `_landingAction` multicast delegate is a sequence of actions. Its callbacks are either a stop-motion action or an opaque external one that changes nothing modelled, and a callback that throws is not modelled.
- EnemyHits.EnemyBase.Attacked: `Dead`, the knockback physics, the damage feedback, the HP-change event and the boss health bar are not modelled. Death and knockback are reported as flags.
- `ConvertDamageUnit`, the formatting of the damage text, is not modelled.
- The enemy's health is an unbounded integer. `EnemyStats` is not part of this model, so no integer width is imposed on it.
- The z coordinate of `transform.position` is not modelled: both classes move in the plane.
- `MapData` is not modelled beyond handing the controller a map's ladder and floor tile sets (`SetTilemaps`).
- The UI, settings and other scripts of the repository are not modelled.
