/**
 * The hit bookkeeping of `EnemyBase`: the per-attack-ID stack counter that lifts the damage
 * text of repeated hits, the text intensity, the stun-or-daze choice, the health decrement
 * and the death test.
 */
module EnemyHits {
  import opened Geometry
  import opened Optional

  /** How far each repeat of an attack ID lifts its damage text. */
  const VERTICAL_OFFSET: real := 0.7
  /** Text intensity of a critical hit (a normal hit has intensity 1). */
  const CRITICAL_FONT_SIZE: real := 1.05
  /** 2^32: C#'s `uint` wraps modulo this. */
  const UINT32_LIMIT: int := 0x1_0000_0000

  /** C#'s `uint`, the key and value type of the attack-ID dictionary. */
  newtype uint32 = x: int | 0 <= x < 0x1_0000_0000

  /** What the enemy AI is told to do: `Daze()` or `Stun(duration)`. */
  datatype Reaction = Daze | Stun(duration: real)

  /** What one `Attacked` call shows and triggers besides its state changes. */
  datatype HitReport = HitReport(intensity: real, textPosition: Vec2, reaction: Reaction, knockback: bool, died: bool)

  /** `value++` on a `uint`: the unchecked increment, which wraps to 0 after the largest value. */
  function WrappingIncrement(v: uint32): (r: uint32)
    ensures r as int == (v as int + 1) % UINT32_LIMIT
    ensures v as int < UINT32_LIMIT - 1 ==> r as int == v as int + 1
  {
    if v as int == UINT32_LIMIT - 1 then 0 else v + 1
  }

  /** The dictionary update of `Attacked`: a new ID starts at 0, a known one counts up by one. */
  function RecordHit(ids: map<uint32, uint32>, id: uint32): (r: map<uint32, uint32>)
    ensures r.Keys == ids.Keys + {id}
    ensures id !in ids ==> r[id] == 0
    ensures id in ids ==> r[id] as int == (ids[id] as int + 1) % UINT32_LIMIT
    ensures forall k :: k in ids && k != id ==> r[k] == ids[k]
  {
    if id in ids then ids[id := WrappingIncrement(ids[id])] else ids[id := 0]
  }

  /** Where the damage text of a hit whose ID has been seen `count` times before is shown. */
  function StackedTextPosition(position: Vec2, count: uint32): Vec2
  {
    Vec2(position.x, position.y + VERTICAL_OFFSET * count as real)
  }

  /** The damage text's intensity: larger exactly for a critical hit. */
  function TextIntensity(isCritical: bool): (r: real)
    ensures r >= 1.0
    ensures r > 1.0 <==> isCritical
    ensures isCritical ==> r == CRITICAL_FONT_SIZE
  {
    if isCritical then CRITICAL_FONT_SIZE else 1.0
  }

  /** The stun-or-daze choice: a zero duration dazes, any other stuns for that long. */
  function ReactionFor(stunDuration: real): (r: Reaction)
    ensures r == Daze <==> stunDuration == 0.0
    ensures r.Stun? ==> r.duration == stunDuration
  {
    if stunDuration == 0.0 then Daze else Stun(stunDuration)
  }

  /** Several `Attacked` calls, each with its attack ID, in order. */
  function RecordHits(ids: map<uint32, uint32>, hits: seq<uint32>): map<uint32, uint32>
    decreases |hits|
  {
    if hits == [] then ids else RecordHits(RecordHit(ids, hits[0]), hits[1..])
  }

  /** `n` hits with the same attack ID. */
  function Repeat(id: uint32, n: nat): (hits: seq<uint32>)
    ensures |hits| == n && forall i :: 0 <= i < n ==> hits[i] == id
  {
    if n == 0 then [] else [id] + Repeat(id, n - 1)
  }

  /** Repeats of a known ID count up from its current value, one per hit, while they do not wrap. */
  lemma {:induction false} RepeatsCountUp(ids: map<uint32, uint32>, id: uint32, n: nat)
    requires id in ids && ids[id] as int + n < UINT32_LIMIT
    ensures id in RecordHits(ids, Repeat(id, n))
    ensures RecordHits(ids, Repeat(id, n))[id] as int == ids[id] as int + n
    decreases n
  {
    if n > 0 {
      var next := RecordHit(ids, id);
      assert Repeat(id, n)[1..] == Repeat(id, n - 1);
      RepeatsCountUp(next, id, n - 1);
    }
  }

  /**
   * The stacking promise: the (n+1)-th hit with a fresh attack ID finds the count `n`,
   * so its text sits `n` steps of `VERTICAL_OFFSET` straight above the enemy.
   */
  lemma NthRepeatStacksUp(ids: map<uint32, uint32>, id: uint32, n: nat, position: Vec2)
    requires id !in ids && n < UINT32_LIMIT
    ensures id in RecordHits(ids, Repeat(id, n + 1))
    ensures RecordHits(ids, Repeat(id, n + 1))[id] as int == n
    ensures StackedTextPosition(position, RecordHits(ids, Repeat(id, n + 1))[id])
            == Vec2(position.x, position.y + VERTICAL_OFFSET * n as real)
  {
    var first := RecordHit(ids, id);
    assert Repeat(id, n + 1)[1..] == Repeat(id, n);
    RepeatsCountUp(first, id, n);
  }

  /** Hits with other IDs never change an ID's count. */
  lemma {:induction false} OtherHitsKeepCount(ids: map<uint32, uint32>, hits: seq<uint32>, id: uint32)
    requires id in ids && id !in hits
    ensures id in RecordHits(ids, hits) && RecordHits(ids, hits)[id] == ids[id]
    decreases |hits|
  {
    if hits != [] {
      assert hits[0] != id;
      assert forall k :: k in hits[1..] ==> k in hits;
      OtherHitsKeepCount(RecordHit(ids, hits[0]), hits[1..], id);
    }
  }

  /** The part of `EnemyBase` that a hit changes or reads. */
  class EnemyBase {
    /** `_attackID`: how many times each attack ID has hit before, minus one. */
    var attackIds: map<uint32, uint32>
    /** `stats.Health`. */
    var health: int
    /** `stats.canKnockback`. */
    var canKnockback: bool
    /** `transform.position`, in the plane. */
    var position: Vec2

    constructor (startHealth: int, knockback: bool, at: Vec2)
      ensures attackIds == map[] && health == startHealth && canKnockback == knockback && position == at
    {
      attackIds, health, canKnockback, position := map[], startHealth, knockback, at;
    }

    /**
     * `Attacked`: the damage text's intensity and position (stacked by attack ID), the
     * enemy AI's reaction, the health loss, the knockback flag and the death test.
     */
    method Attacked(damage: int, isCritical: bool, stunDuration: real, attackId: Option<uint32>)
      returns (report: HitReport)
      modifies this`attackIds, this`health
      ensures attackId.None? ==> attackIds == old(attackIds) && report.textPosition == position
      ensures attackId.Some? ==>
                && attackIds == RecordHit(old(attackIds), attackId.value)
                && report.textPosition == StackedTextPosition(position, attackIds[attackId.value])
      ensures report.intensity == TextIntensity(isCritical)
      ensures report.reaction == ReactionFor(stunDuration)
      ensures health == old(health) - damage
      ensures report.knockback == canKnockback
      ensures report.died <==> health <= 0
    {
      var intensity := if isCritical then CRITICAL_FONT_SIZE else 1.0;
      var textPosition := position;
      if attackId.Some? {
        var id := attackId.value;
        if id in attackIds {
          attackIds := attackIds[id := WrappingIncrement(attackIds[id])];
        } else {
          attackIds := attackIds[id := 0];
        }
        textPosition := Vec2(position.x, position.y + VERTICAL_OFFSET * attackIds[id] as real);
      }
      var reaction := if stunDuration == 0.0 then Daze else Stun(stunDuration);
      GetDamage(damage);
      report := HitReport(intensity, textPosition, reaction, canKnockback, health <= 0);
    }

    /** `GetDamage`: health drops by exactly the damage. */
    method GetDamage(damage: int)
      modifies this`health
      ensures health == old(health) - damage
    {
      health := health - damage;
    }
  }
}
