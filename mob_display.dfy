/**
 * Sprite-frame selection for mobs (`update_mob_animation` in src/display/mob.rs,
 * over the `AnimationIndex` and `AnimationTimer` components of src/mob.rs).
 * A sprite sheet has one row of `max` frames per cardinal direction.
 */
module MobDisplay {
  import opened Wrappers
  import opened GridTransforms
  import opened Timers
  import opened Ecs

  const U16_LIMIT: int := 0x1_0000

  /** A Rust `u16`. */
  type U16 = v: int | 0 <= v < U16_LIMIT

  datatype AnimationIndex = AnimationIndex(current: U16, max: U16, moveOnly: bool)

  /** `AnimationIndex::new`. */
  function NewAnimationIndex(max: U16, moveOnly: bool): (r: AnimationIndex)
    ensures r.current == 0 && r.max == max && r.moveOnly == moveOnly
  {
    AnimationIndex(0, max, moveOnly)
  }

  /** `AnimationIndex::default`: four frames, animated only while moving. */
  const DEFAULT_ANIMATION_INDEX: AnimationIndex := NewAnimationIndex(4, true)

  /** `AnimationTimer::default` repeats every 0.1 s. */
  const ANIMATION_INTERVAL_MS: nat := 100

  /** The frame step does not divide by zero or overflow `u16`. */
  predicate NextFrameOk(a: AnimationIndex, justFinished: bool) {
    justFinished ==> a.max > 0 && a.current + 1 < U16_LIMIT
  }

  /**
   * When the animation timer has just finished, advance to the next frame,
   * wrapping from the last frame to the first.
   */
  function NextFrame(a: AnimationIndex, justFinished: bool): (r: AnimationIndex)
    requires NextFrameOk(a, justFinished)
    ensures r.max == a.max && r.moveOnly == a.moveOnly
    ensures !justFinished ==> r == a
    ensures justFinished ==> r.current < a.max
    ensures justFinished && a.current + 1 < a.max ==> r.current == a.current + 1
    ensures justFinished && a.current + 1 == a.max ==> r.current == 0
  {
    if justFinished then a.(current := (a.current + 1) % a.max) else a
  }

  /** The first frame of the direction's row. */
  function RowBase(dir: GridTransform, max: nat): nat {
    CardinalIndex(dir) * max
  }

  /** The mob shows its animation frame rather than the idle frame `base + 1`. */
  predicate Animating(moveCooldown: Timer, a: AnimationIndex) {
    moveCooldown.justFinished || !Finished(moveCooldown) || !a.moveOnly
  }

  /** The atlas index chosen for a mob. */
  function AtlasIndexFor(dir: GridTransform, moveCooldown: Timer, a: AnimationIndex): nat {
    var base := RowBase(dir, a.max);
    if Animating(moveCooldown, a) then base + a.current else base + 1
  }

  /**
   * The index lies in the direction's row when the frame is in range and the
   * row has the idle frame: it is the animation frame while the mob is moving
   * (or always animates), and the idle frame when a move-only mob stands still.
   */
  lemma AtlasIndexInRow(dir: GridTransform, moveCooldown: Timer, a: AnimationIndex)
    requires a.current < a.max && a.max >= 2
    ensures var base := CardinalIndex(dir) * a.max;
      var r := AtlasIndexFor(dir, moveCooldown, a);
      && base <= r < base + a.max
      && (Animating(moveCooldown, a) ==> r == base + a.current)
      && (!Animating(moveCooldown, a) ==> r == base + 1)
  {
  }

  /** The rows of the four directions do not overlap. */
  lemma RowsDisjoint(d1: GridTransform, d2: GridTransform, max: nat, i: nat, j: nat)
    requires i < max && j < max && CardinalIndex(d1) != CardinalIndex(d2)
    ensures RowBase(d1, max) + i != RowBase(d2, max) + j
  {
    var c1 := CardinalIndex(d1);
    var c2 := CardinalIndex(d2);
    if c1 < c2 {
      assert c1 * max + max <= c2 * max by {
        assert c1 + 1 <= c2;
        MultMonotone(c1 + 1, c2, max);
      }
    } else {
      assert c2 * max + max <= c1 * max by {
        assert c2 + 1 <= c1;
        MultMonotone(c2 + 1, c1, max);
      }
    }
  }

  lemma MultMonotone(a: nat, b: nat, m: nat)
    requires a <= b
    ensures a * m <= b * m
  {
    assert b * m == a * m + (b - a) * m;
  }

  /** One mob's frame update must not divide by zero or overflow; the animation timer repeats. */
  predicate AnimateOk(a: AnimationIndex, timer: Timer, delta: nat) {
    timer.duration > 0 && NextFrameOk(a, timer.elapsed + delta >= timer.duration)
  }

  /**
   * The three components `update_mob_animation` writes, for one mob: its
   * animation index, its animation timer, and its Sprite's texture-atlas index
   * (None for a sprite without an atlas).
   */
  datatype MobSprite = MobSprite(animation: AnimationIndex, timer: Timer, atlas: Option<nat>)

  /** The loop body of `update_mob_animation` for one mob: new frame, new timer, new atlas index if it has an atlas. */
  function AnimateOne(dir: GridTransform, moveCooldown: Timer, m: MobSprite, delta: nat): MobSprite
    requires AnimateOk(m.animation, m.timer, delta)
  {
    var ticked := RepeatingTick(m.timer, delta);
    var next := NextFrame(m.animation, ticked.justFinished);
    MobSprite(next, ticked, if m.atlas.Some? then Some(AtlasIndexFor(dir, moveCooldown, next)) else None)
  }

  /**
   * A frame in range stays in range, the frame advances exactly when the
   * animation timer wraps, and a sprite without an atlas gets none.
   */
  lemma AnimateOneKeepsFrameInRange(dir: GridTransform, moveCooldown: Timer, m: MobSprite, delta: nat)
    requires AnimateOk(m.animation, m.timer, delta) && m.animation.current < m.animation.max
    ensures var r := AnimateOne(dir, moveCooldown, m, delta);
      var a := m.animation;
      && r.animation.current < r.animation.max && r.animation.max == a.max
      && (r.animation.current != a.current <==> m.timer.elapsed + delta >= m.timer.duration && a.max > 1)
      && (r.atlas.None? <==> m.atlas.None?)
      && (r.atlas.Some? && a.max >= 2 ==> RowBase(dir, a.max) <= r.atlas.value < RowBase(dir, a.max) + a.max)
  {
    var r := AnimateOne(dir, moveCooldown, m, delta);
    if r.atlas.Some? && m.animation.max >= 2 {
      AtlasIndexInRow(dir, moveCooldown, r.animation);
    }
  }

  /** The components `update_mob_animation` reads and writes. */
  class MobAnimationWorld {
    const direction: map<Entity, GridTransform>
    const moveCooldown: map<Entity, Timer>
    var sprites: map<Entity, MobSprite>

    /** `e` is visited by the query. */
    predicate InQuery(e: Entity)
      reads this
    {
      e in direction && e in moveCooldown && e in sprites
    }

    ghost predicate AllAnimateOk(delta: nat)
      reads this
    {
      forall e :: InQuery(e) ==> AnimateOk(sprites[e].animation, sprites[e].timer, delta)
    }

    constructor (direction: map<Entity, GridTransform>, moveCooldown: map<Entity, Timer>, sprites: map<Entity, MobSprite>)
      ensures this.direction == direction && this.moveCooldown == moveCooldown && this.sprites == sprites
    {
      this.direction, this.moveCooldown, this.sprites := direction, moveCooldown, sprites;
    }

    /** `update_mob_animation`: every queried mob is updated as `AnimateOne` says; nothing else changes. */
    method UpdateMobAnimation(delta: nat)
      requires AllAnimateOk(delta)
      modifies this
      ensures sprites.Keys == old(sprites).Keys
      ensures forall e :: e in sprites ==>
        sprites[e] == if old(InQuery(e)) then AnimateOne(direction[e], moveCooldown[e], old(sprites)[e], delta) else old(sprites)[e]
    {
      ghost var s0 := sprites;
      var pending := set e | e in direction && e in moveCooldown && e in sprites;
      while pending != {}
        invariant pending <= s0.Keys && sprites.Keys == s0.Keys
        invariant forall e :: e in pending ==> e in direction && e in moveCooldown && sprites[e] == s0[e]
        invariant forall e :: e in s0 ==>
          sprites[e] == if e in direction && e in moveCooldown && e !in pending then AnimateOne(direction[e], moveCooldown[e], s0[e], delta) else s0[e]
        decreases pending
      {
        var e :| e in pending;
        AnimateEntity(e, delta);
        pending := pending - {e};
      }
    }

    /** The loop body for one mob. */
    method AnimateEntity(e: Entity, delta: nat)
      requires InQuery(e) && AnimateOk(sprites[e].animation, sprites[e].timer, delta)
      modifies this
      ensures sprites == old(sprites)[e := AnimateOne(direction[e], moveCooldown[e], old(sprites)[e], delta)]
    {
      var index := sprites[e].animation;
      var base := RowBase(direction[e], index.max);
      var timer := RepeatingTick(sprites[e].timer, delta);
      if timer.justFinished {
        index := index.(current := (index.current + 1) % index.max);
      }
      var atlas := sprites[e].atlas;
      if atlas.Some? {
        if moveCooldown[e].justFinished || !Finished(moveCooldown[e]) || !index.moveOnly {
          atlas := Some(base + index.current);
        } else {
          atlas := Some(base + 1);
        }
      }
      sprites := sprites[e := MobSprite(index, timer, atlas)];
    }
  }
}
