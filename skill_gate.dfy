/**
 * The specification of `PlayerController.UseSkill`: the item slot first, then, unless
 * climbing, the first slot in enum order whose button is held and which is ready.
 */
module SkillGate {
  import opened PlayerTypes
  import opened Optional

  /** What the controller reads of `_player.skills[slot]`: `IsReady`, and whether it is an `IUseable`. */
  datatype Skill = Skill(isReady: bool, isUseable: bool)

  /** The declaration order of `SkillTypes`, which `Tools.GetEnumValues` walks. */
  const SKILL_ORDER: seq<SkillType> := [Primary, Secondary, Utility, Ultimate, Passive, Item]

  /** The loop's test: the slot's button is held and the slot is ready. */
  predicate PressedAndReady(input: InputValues, skills: SkillType -> Skill, slot: SkillType)
  {
    IsSkillButtonPressed(input, slot) && skills(slot).isReady
  }

  /** The first index from `from` on whose slot is pressed and ready. */
  function FirstPressedReady(input: InputValues, skills: SkillType -> Skill, order: seq<SkillType>, from: nat): (r: Option<nat>)
    requires from <= |order|
    ensures r.Some? ==>
              && from <= r.value < |order|
              && PressedAndReady(input, skills, order[r.value])
              && forall j :: from <= j < r.value ==> !PressedAndReady(input, skills, order[j])
    ensures r.None? ==> forall j :: from <= j < |order| ==> !PressedAndReady(input, skills, order[j])
    decreases |order| - from
  {
    if from == |order| then Option.None
    else if PressedAndReady(input, skills, order[from]) then Option.Some(from)
    else FirstPressedReady(input, skills, order, from + 1)
  }

  /** The item slot fires when its button is held and the player owns an item. */
  function ItemFired(input: InputValues, hasItem: bool): seq<SkillType>
  {
    if input.itemSkill && hasItem then [Item] else []
  }

  /** Slot `i` is pressed and ready, and no slot before it is. */
  predicate FirstReadyAt(input: InputValues, skills: SkillType -> Skill, order: seq<SkillType>, i: int)
  {
    0 <= i < |order| && PressedAndReady(input, skills, order[i])
    && forall j :: 0 <= j < i ==> !PressedAndReady(input, skills, order[j])
  }

  /** The slot the loop plays: the first pressed-and-ready one, if it is an `IUseable`. */
  function LoopFired(input: InputValues, skills: SkillType -> Skill, order: seq<SkillType>): (fired: seq<SkillType>)
    ensures |fired| <= 1
    // the first pressed-and-ready slot does play, when it is usable
    ensures forall i :: FirstReadyAt(input, skills, order, i) ==>
              fired == if skills(order[i]).isUseable then [order[i]] else []
    ensures fired != [] ==>
              exists i :: 0 <= i < |order| && order[i] == fired[0]
                          && PressedAndReady(input, skills, order[i]) && skills(order[i]).isUseable
                          && forall j :: 0 <= j < i ==> !PressedAndReady(input, skills, order[j])
    ensures (forall i :: 0 <= i < |order| ==> !PressedAndReady(input, skills, order[i])) ==> fired == []
  {
    match FirstPressedReady(input, skills, order, 0)
    case None => []
    case Some(i) => if skills(order[i]).isUseable then [order[i]] else []
  }

  /** Every slot `UseSkill` plays in one tick, in order. */
  function SkillsFired(input: InputValues, hasItem: bool, climbing: bool,
                       skills: SkillType -> Skill, order: seq<SkillType>): (fired: seq<SkillType>)
    ensures |fired| <= 2
    // the item slot is checked first and regardless of the ladder
    ensures input.itemSkill && hasItem ==> fired != [] && fired[0] == Item
    // nothing but the item fires while climbing
    ensures climbing ==> forall k :: 0 <= k < |fired| ==> fired[k] == Item
    ensures climbing ==> fired == ItemFired(input, hasItem)
    // without the item, at most one slot fires: the first pressed-and-ready one
    ensures !(input.itemSkill && hasItem) && fired != [] ==>
              |fired| == 1 && exists i :: 0 <= i < |order| && order[i] == fired[0] && PressedAndReady(input, skills, order[i])
    // off the ladder, the first pressed-and-ready slot plays after the item, when it is usable
    ensures !climbing ==>
              forall i :: FirstReadyAt(input, skills, order, i) ==>
                fired == ItemFired(input, hasItem) + (if skills(order[i]).isUseable then [order[i]] else [])
    ensures !climbing && (forall i :: 0 <= i < |order| ==> !PressedAndReady(input, skills, order[i])) ==>
              fired == ItemFired(input, hasItem)
  {
    ItemFired(input, hasItem) + (if climbing then [] else LoopFired(input, skills, order))
  }

  /**
   * The item slot is also one of the enum values the loop walks: holding only the item
   * button plays the item from the loop even without an item, and twice with one.
   */
  lemma ItemAlsoPlaysInLoop(input: InputValues, hasItem: bool, skills: SkillType -> Skill)
    requires input.itemSkill
    requires !input.primarySkill && !input.secondarySkill && !input.utilitySkill
    requires !input.ultimateSkill && !input.specialSkill
    requires skills(Item).isReady && skills(Item).isUseable
    ensures LoopFired(input, skills, SKILL_ORDER) == [Item]
    ensures SkillsFired(input, hasItem, false, skills, SKILL_ORDER) == if hasItem then [Item, Item] else [Item]
  {
    assert FirstReadyAt(input, skills, SKILL_ORDER, 5);
  }
}
