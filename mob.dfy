/**
 * Grid-world movement, interaction and line-of-sight (src/mob.rs).
 *
 * The engine's component storage becomes explicit maps from entity to component,
 * marker components become tag sets, event readers become input sequences and
 * event writers become output sequences. The systems themselves are the methods
 * of `MobWorld`; each is proved equal to a function over a value snapshot of the
 * world (`MobState`), and the rules the game depends on are lemmas about those
 * functions.
 */
module Mobs {
  import opened Wrappers
  import opened GridTransforms
  import opened Timers
  import opened GridIndexes
  import opened Ecs

  /** `MovementCooldown::default` lasts 0.4 s. */
  const MOVEMENT_COOLDOWN_MS: nat := 400
  /** `SightTriggerCooldown::default` lasts 2 s. */
  const SIGHT_COOLDOWN_MS: nat := 2000
  /** The sight scan looks at steps 1..=16. */
  const SIGHT_RANGE: nat := 16

  /** `TimerFinish::finish`: tick the timer by its full duration, twice. */
  function FinishTimer(t: Timer): (r: Timer)
    ensures Finished(r) && !r.justFinished
    ensures r.duration == t.duration
  {
    var d := t.duration;
    Tick(Tick(t, d), d)
  }

  /** `MovementCooldown::default`: already finished, so the first move is never held back. */
  function DefaultMovementCooldown(): (r: Timer)
    ensures Finished(r) && !r.justFinished
    ensures r.duration == MOVEMENT_COOLDOWN_MS && r.elapsed == MOVEMENT_COOLDOWN_MS
  {
    FinishTimer(OnceTimer(MOVEMENT_COOLDOWN_MS))
  }

  /** `SightTriggerCooldown::default`: a fresh 2 s one-shot timer. */
  function DefaultSightCooldown(): (r: Timer)
    ensures !Finished(r) && r.duration == SIGHT_COOLDOWN_MS
  {
    OnceTimer(SIGHT_COOLDOWN_MS)
  }

  /** `GridDirection::default` faces south. */
  const DEFAULT_DIRECTION: GridTransform := SOUTH

  datatype MobMoveEvent = MobMoveEvent(entity: Entity, movement: GridTransform)
  datatype MobInteractEvent = MobInteractEvent(entity: Entity)
  datatype TriggerOnMoveOntoEvent = TriggerOnMoveOntoEvent(moved: Entity, triggered: Entity)
  datatype TriggerEvent = TriggerEvent(triggering: Entity, triggered: Entity)

  /** Which entities carry which marker component; these systems only read them. */
  datatype Tags = Tags(
    mob: set<Entity>,
    blocksWalking: set<Entity>,
    triggerOnMoveOnto: set<Entity>,
    triggerOnInteract: set<Entity>,
    triggerOnSeePlayer: set<Entity>,
    blocksSight: set<Entity>,
    player: set<Entity>)

  /** The components and the resource these systems change. */
  datatype MobState = MobState(
    position: map<Entity, GridTransform>,
    lastPosition: map<Entity, GridTransform>,
    direction: map<Entity, GridTransform>,
    cooldown: map<Entity, Timer>,
    sightCooldown: map<Entity, Timer>,
    index: GridIndex)

  // ---------------------------------------------------------------------------
  // Trigger lists
  // ---------------------------------------------------------------------------

  /** One move-onto event, in occupant order, for each occupant that carries the tag. */
  function MoveOntoEvents(mover: Entity, occupants: seq<Entity>, tag: set<Entity>): (r: seq<TriggerOnMoveOntoEvent>)
    ensures forall ev :: ev in r <==> ev.moved == mover && ev.triggered in occupants && ev.triggered in tag
    ensures NoDuplicates(occupants) ==> forall i, j :: 0 <= i < j < |r| ==> r[i] != r[j]
    ensures |r| <= |occupants|
    decreases |occupants|
  {
    if occupants == [] then []
    else
      var n := |occupants| - 1;
      var front := occupants[..n];
      assert forall x :: x in occupants <==> x in front || x == occupants[n];
      assert NoDuplicates(occupants) ==> NoDuplicates(front) && occupants[n] !in front;
      MoveOntoEvents(mover, front, tag)
        + if occupants[n] in tag then [TriggerOnMoveOntoEvent(mover, occupants[n])] else []
  }

  /** The move-onto events follow the occupant order: those of a concatenation are the concatenated events. */
  lemma {:induction false} MoveOntoEventsAppend(mover: Entity, a: seq<Entity>, b: seq<Entity>, tag: set<Entity>)
    ensures MoveOntoEvents(mover, a + b, tag) == MoveOntoEvents(mover, a, tag) + MoveOntoEvents(mover, b, tag)
    decreases |b|
  {
    if b == [] {
      assert a + b == a;
    } else {
      var n := |b| - 1;
      assert (a + b)[..|a + b| - 1] == a + b[..n];
      assert (a + b)[|a + b| - 1] == b[n];
      MoveOntoEventsAppend(mover, a, b[..n], tag);
    }
  }

  /** A tagged occupant sends exactly one move-onto event and any other occupant none. */
  lemma MoveOntoEventsOfOne(mover: Entity, x: Entity, tag: set<Entity>)
    ensures MoveOntoEvents(mover, [x], tag) == if x in tag then [TriggerOnMoveOntoEvent(mover, x)] else []
  {
    assert [x][..0] == [];
  }

  /** One trigger event, in occupant order, for each occupant that carries the tag. */
  function TriggerEvents(triggering: Entity, occupants: seq<Entity>, tag: set<Entity>): (r: seq<TriggerEvent>)
    ensures forall ev :: ev in r <==> ev.triggering == triggering && ev.triggered in occupants && ev.triggered in tag
    ensures NoDuplicates(occupants) ==> forall i, j :: 0 <= i < j < |r| ==> r[i] != r[j]
    ensures |r| <= |occupants|
    decreases |occupants|
  {
    if occupants == [] then []
    else
      var n := |occupants| - 1;
      var front := occupants[..n];
      assert forall x :: x in occupants <==> x in front || x == occupants[n];
      assert NoDuplicates(occupants) ==> NoDuplicates(front) && occupants[n] !in front;
      TriggerEvents(triggering, front, tag)
        + if occupants[n] in tag then [TriggerEvent(triggering, occupants[n])] else []
  }

  /** The trigger events follow the occupant order: those of a concatenation are the concatenated events. */
  lemma {:induction false} TriggerEventsAppend(triggering: Entity, a: seq<Entity>, b: seq<Entity>, tag: set<Entity>)
    ensures TriggerEvents(triggering, a + b, tag) == TriggerEvents(triggering, a, tag) + TriggerEvents(triggering, b, tag)
    decreases |b|
  {
    if b == [] {
      assert a + b == a;
    } else {
      var n := |b| - 1;
      assert (a + b)[..|a + b| - 1] == a + b[..n];
      assert (a + b)[|a + b| - 1] == b[n];
      TriggerEventsAppend(triggering, a, b[..n], tag);
    }
  }

  /** A tagged occupant sends exactly one trigger event and any other occupant none. */
  lemma TriggerEventsOfOne(triggering: Entity, x: Entity, tag: set<Entity>)
    ensures TriggerEvents(triggering, [x], tag) == if x in tag then [TriggerEvent(triggering, x)] else []
  {
    assert [x][..0] == [];
  }

  // ---------------------------------------------------------------------------
  // move_mob
  // ---------------------------------------------------------------------------

  /** The entity matches `move_mob`'s query: a Mob with all four movement components. */
  predicate InMoveQuery(t: Tags, s: MobState, e: Entity) {
    e in t.mob && e in s.position && e in s.lastPosition && e in s.direction && e in s.cooldown
  }

  /** The entity is in the query and its cooldown has finished. */
  predicate Ready(t: Tags, s: MobState, e: Entity) {
    InMoveQuery(t, s, e) && Finished(s.cooldown[e])
  }

  /** The destination of a ready mob does not overflow (the source panics otherwise). */
  predicate CanStep(t: Tags, s: MobState, ev: MobMoveEvent) {
    Ready(t, s, ev.entity) ==> CanAdd(s.position[ev.entity], ev.movement)
  }

  function Destination(s: MobState, ev: MobMoveEvent): GridTransform
    requires ev.entity in s.position && CanAdd(s.position[ev.entity], ev.movement)
  {
    Add(s.position[ev.entity], ev.movement)
  }

  predicate AnyBlocksWalking(t: Tags, occupants: seq<Entity>) {
    exists i :: 0 <= i < |occupants| && occupants[i] in t.blocksWalking
  }

  /** The move goes ahead: the mob is ready and nothing on the destination blocks walking. */
  predicate Accepts(t: Tags, s: MobState, ev: MobMoveEvent)
    requires CanStep(t, s, ev)
  {
    Ready(t, s, ev.entity) && !AnyBlocksWalking(t, Get(s.index, Destination(s, ev)))
  }

  /**
   * One iteration of the event loop of `move_mob`: a ready mob turns to face the
   * movement; unless the destination holds a walk-blocker it then records its
   * last position, moves, restarts its cooldown, emits the move-onto triggers of
   * the destination's occupants (read before its own index update) and moves
   * itself in the index.
   */
  function StepMove(t: Tags, s: MobState, ev: MobMoveEvent): (r: (MobState, seq<TriggerOnMoveOntoEvent>))
    requires CanStep(t, s, ev)
    ensures r.0.position.Keys == s.position.Keys && r.0.lastPosition.Keys == s.lastPosition.Keys
    ensures r.0.direction.Keys == s.direction.Keys && r.0.cooldown.Keys == s.cooldown.Keys
    ensures r.0.sightCooldown == s.sightCooldown
    ensures forall x :: x != ev.entity && x in s.position ==> r.0.position[x] == s.position[x]
    ensures forall x :: x != ev.entity && x in s.lastPosition ==> r.0.lastPosition[x] == s.lastPosition[x]
    ensures forall x :: x != ev.entity && x in s.direction ==> r.0.direction[x] == s.direction[x]
    ensures forall x :: x != ev.entity && x in s.cooldown ==> r.0.cooldown[x] == s.cooldown[x]
    ensures forall o :: o in r.1 ==> o.moved == ev.entity && o.triggered in t.triggerOnMoveOnto
  {
    var e := ev.entity;
    if !Ready(t, s, e) then (s, [])
    else
      var dest := Destination(s, ev);
      var turned := s.(direction := s.direction[e := ev.movement]);
      var occupants := Get(s.index, dest);
      if AnyBlocksWalking(t, occupants) then (turned, [])
      else
        (turned.(lastPosition := s.lastPosition[e := s.position[e]],
                 position := s.position[e := dest],
                 cooldown := s.cooldown[e := Reset(s.cooldown[e])],
                 index := Update(s.index, e, dest)),
         MoveOntoEvents(e, occupants, t.triggerOnMoveOnto))
  }

  /** The rules of one move event, case by case. */
  lemma StepMoveCases(t: Tags, s: MobState, ev: MobMoveEvent)
    requires CanStep(t, s, ev)
    ensures !Ready(t, s, ev.entity) ==> StepMove(t, s, ev) == (s, [])
    ensures Ready(t, s, ev.entity) ==> StepMove(t, s, ev).0.direction[ev.entity] == ev.movement
    ensures Ready(t, s, ev.entity) && !Accepts(t, s, ev) ==>
      StepMove(t, s, ev) == (s.(direction := s.direction[ev.entity := ev.movement]), [])
    ensures Accepts(t, s, ev) ==>
      var r := StepMove(t, s, ev).0;
      && r.lastPosition[ev.entity] == s.position[ev.entity]
      && r.position[ev.entity] == Destination(s, ev)
      && r.cooldown[ev.entity] == Reset(s.cooldown[ev.entity])
      && r.index == Update(s.index, ev.entity, Destination(s, ev))
      && StepMove(t, s, ev).1 == MoveOntoEvents(ev.entity, Get(s.index, Destination(s, ev)), t.triggerOnMoveOnto)
  {
  }

  /** No event in the list overflows when it is processed. */
  ghost predicate MovesOk(t: Tags, s: MobState, events: seq<MobMoveEvent>)
    decreases |events|
  {
    events == [] || (CanStep(t, s, events[0]) && MovesOk(t, StepMove(t, s, events[0]).0, events[1..]))
  }

  /** The event loop of `move_mob`: every event in order, triggers concatenated. */
  function ProcessMoves(t: Tags, s: MobState, events: seq<MobMoveEvent>): (r: (MobState, seq<TriggerOnMoveOntoEvent>))
    requires MovesOk(t, s, events)
    ensures r.0.position.Keys == s.position.Keys && r.0.lastPosition.Keys == s.lastPosition.Keys
    ensures r.0.direction.Keys == s.direction.Keys && r.0.cooldown.Keys == s.cooldown.Keys
    ensures r.0.sightCooldown == s.sightCooldown
    ensures forall o :: o in r.1 ==> o.triggered in t.triggerOnMoveOnto
    ensures forall o :: o in r.1 ==> exists i :: 0 <= i < |events| && events[i].entity == o.moved
    decreases |events|
  {
    if events == [] then (s, [])
    else
      var step := StepMove(t, s, events[0]);
      var rest := ProcessMoves(t, step.0, events[1..]);
      assert forall o :: o in rest.1 ==> exists i :: 0 <= i < |events| && events[i].entity == o.moved by {
        forall o | o in rest.1
          ensures exists i :: 0 <= i < |events| && events[i].entity == o.moved
        {
          var i :| 0 <= i < |events[1..]| && events[1..][i].entity == o.moved;
          assert events[i + 1].entity == o.moved;
        }
      }
      (rest.0, step.1 + rest.1)
  }

  /** The first event, then the rest. */
  lemma ProcessMovesUnfold(t: Tags, s: MobState, events: seq<MobMoveEvent>)
    requires MovesOk(t, s, events) && events != []
    ensures CanStep(t, s, events[0]) && MovesOk(t, StepMove(t, s, events[0]).0, events[1..])
    ensures var step := StepMove(t, s, events[0]);
      && ProcessMoves(t, s, events).0 == ProcessMoves(t, step.0, events[1..]).0
      && ProcessMoves(t, s, events).1 == step.1 + ProcessMoves(t, step.0, events[1..]).1
  {
  }

  /** The second loop of `move_mob`: every mob in the query ticks its cooldown once. */
  function TickCooldowns(t: Tags, s: MobState, delta: nat): (r: MobState)
    ensures r.cooldown.Keys == s.cooldown.Keys
    ensures forall e :: e in s.cooldown ==>
      r.cooldown[e] == if InMoveQuery(t, s, e) then Tick(s.cooldown[e], delta) else s.cooldown[e]
    ensures r == s.(cooldown := r.cooldown)
  {
    s.(cooldown := map e | e in s.cooldown :: if InMoveQuery(t, s, e) then Tick(s.cooldown[e], delta) else s.cooldown[e])
  }

  /** A whole `move_mob` call. */
  function MoveMobOutcome(t: Tags, s: MobState, events: seq<MobMoveEvent>, delta: nat): (MobState, seq<TriggerOnMoveOntoEvent>)
    requires MovesOk(t, s, events)
  {
    var moved := ProcessMoves(t, s, events);
    (TickCooldowns(t, moved.0, delta), moved.1)
  }

  /**
   * The index agrees with the mobs: it satisfies its own invariant and every mob
   * of the query is listed on its own tile and on no other.
   */
  ghost predicate IndexConsistent(t: Tags, s: MobState) {
    && Wf(s.index)
    && forall e :: InMoveQuery(t, s, e) ==>
         && e in Get(s.index, s.position[e])
         && forall q :: q != s.position[e] ==> e !in Get(s.index, q)
  }

  lemma StepMovePreservesIndex(t: Tags, s: MobState, ev: MobMoveEvent)
    requires CanStep(t, s, ev) && IndexConsistent(t, s)
    ensures IndexConsistent(t, StepMove(t, s, ev).0)
  {
    if Accepts(t, s, ev) {
      var dest := Destination(s, ev);
      UpdateWf(s.index, ev.entity, dest);
      UpdateLocates(s.index, ev.entity, dest);
    }
  }

  /** Moving keeps the index consistent with the mobs' positions. */
  lemma {:induction false} ProcessMovesPreservesIndex(t: Tags, s: MobState, events: seq<MobMoveEvent>)
    requires MovesOk(t, s, events) && IndexConsistent(t, s)
    ensures IndexConsistent(t, ProcessMoves(t, s, events).0)
    decreases |events|
  {
    if events != [] {
      StepMovePreservesIndex(t, s, events[0]);
      ProcessMovesPreservesIndex(t, StepMove(t, s, events[0]).0, events[1..]);
    }
  }

  /** A whole `move_mob` call keeps the index consistent with the mobs' positions. */
  lemma MoveMobPreservesIndex(t: Tags, s: MobState, events: seq<MobMoveEvent>, delta: nat)
    requires MovesOk(t, s, events) && IndexConsistent(t, s)
    ensures IndexConsistent(t, MoveMobOutcome(t, s, events, delta).0)
  {
    ProcessMovesPreservesIndex(t, s, events);
  }

  /** Every mob cooldown has a positive duration, as the 0.4 s default does. */
  ghost predicate PositiveCooldowns(s: MobState) {
    forall e :: e in s.cooldown ==> s.cooldown[e].duration > 0
  }

  /** How many of the events move `e`. */
  function AcceptedMoves(t: Tags, s: MobState, events: seq<MobMoveEvent>, e: Entity): nat
    requires MovesOk(t, s, events)
    decreases |events|
  {
    if events == [] then 0
    else
      (if events[0].entity == e && Accepts(t, s, events[0]) then 1 else 0)
        + AcceptedMoves(t, StepMove(t, s, events[0]).0, events[1..], e)
  }

  /**
   * A mob that is not ready when the call starts keeps its position, last
   * position and facing, and causes no trigger.
   */
  lemma {:induction false} UnreadyMobUntouched(t: Tags, s: MobState, events: seq<MobMoveEvent>, e: Entity)
    requires MovesOk(t, s, events) && InMoveQuery(t, s, e) && !Ready(t, s, e)
    ensures var r := ProcessMoves(t, s, events);
      && r.0.position[e] == s.position[e]
      && r.0.lastPosition[e] == s.lastPosition[e]
      && r.0.direction[e] == s.direction[e]
      && r.0.cooldown[e] == s.cooldown[e]
      && forall o :: o in r.1 ==> o.moved != e
    ensures AcceptedMoves(t, s, events, e) == 0
    decreases |events|
  {
    if events != [] {
      var s1 := StepMove(t, s, events[0]).0;
      assert InMoveQuery(t, s1, e) && !Ready(t, s1, e);
      UnreadyMobUntouched(t, s1, events[1..], e);
    }
  }

  /** With positive cooldowns a mob moves at most once per `move_mob` call. */
  lemma {:induction false} AtMostOneMovePerCall(t: Tags, s: MobState, events: seq<MobMoveEvent>, e: Entity)
    requires MovesOk(t, s, events) && PositiveCooldowns(s)
    ensures AcceptedMoves(t, s, events, e) <= 1
    decreases |events|
  {
    if events != [] {
      var s1 := StepMove(t, s, events[0]).0;
      assert PositiveCooldowns(s1);
      if events[0].entity == e && Accepts(t, s, events[0]) {
        assert InMoveQuery(t, s1, e) && !Ready(t, s1, e);
        UnreadyMobUntouched(t, s1, events[1..], e);
      } else {
        AtMostOneMovePerCall(t, s1, events[1..], e);
      }
    }
  }

  /** Every ready mob still stands where it stood in `s0`. */
  ghost predicate ReadyMobsAtStart(t: Tags, s0: MobState, s: MobState) {
    forall e :: Ready(t, s, e) ==> e in s0.position && s.position[e] == s0.position[e]
  }

  lemma {:induction false} MovesOkFromStart(t: Tags, s0: MobState, s: MobState, events: seq<MobMoveEvent>)
    requires PositiveCooldowns(s) && ReadyMobsAtStart(t, s0, s)
    requires forall i :: 0 <= i < |events| && events[i].entity in s0.position ==>
      CanAdd(s0.position[events[i].entity], events[i].movement)
    ensures MovesOk(t, s, events)
    decreases |events|
  {
    if events != [] {
      var ev := events[0];
      assert CanStep(t, s, ev);
      var s1 := StepMove(t, s, ev).0;
      assert PositiveCooldowns(s1);
      assert ReadyMobsAtStart(t, s0, s1) by {
        forall x | x in s1.cooldown
          ensures Ready(t, s1, x) ==> x in s0.position && s1.position[x] == s0.position[x]
        {
          if x == ev.entity && Accepts(t, s, ev) {
            assert !Finished(s1.cooldown[x]);
          }
        }
      }
      forall i | 0 <= i < |events[1..]| && events[1..][i].entity in s0.position
        ensures CanAdd(s0.position[events[1..][i].entity], events[1..][i].movement)
      {
        assert events[1..][i] == events[i + 1];
      }
      MovesOkFromStart(t, s0, s1, events[1..]);
    }
  }

  /**
   * With positive cooldowns, a `move_mob` call cannot overflow as long as each
   * event's movement can be added to its mob's position at the start of the call.
   */
  lemma MovesOkWhenStepsFit(t: Tags, s: MobState, events: seq<MobMoveEvent>)
    requires PositiveCooldowns(s)
    requires forall i :: 0 <= i < |events| && events[i].entity in s.position ==>
      CanAdd(s.position[events[i].entity], events[i].movement)
    ensures MovesOk(t, s, events)
  {
    MovesOkFromStart(t, s, s, events);
  }

  // ---------------------------------------------------------------------------
  // mob_interact
  // ---------------------------------------------------------------------------

  /** The entity matches `mob_interact`'s query. */
  predicate InInteractQuery(t: Tags, s: MobState, e: Entity) {
    e in t.mob && e in s.position && e in s.direction && e in s.cooldown
  }

  predicate InteractReady(t: Tags, s: MobState, e: Entity) {
    InInteractQuery(t, s, e) && Finished(s.cooldown[e])
  }

  /** The tile in front of every ready interacting mob can be computed without overflow. */
  predicate InteractOk(t: Tags, s: MobState, events: seq<MobInteractEvent>) {
    forall i :: 0 <= i < |events| && InteractReady(t, s, events[i].entity) ==>
      CanAdd(s.position[events[i].entity], s.direction[events[i].entity])
  }

  /** The triggers of one interact event: the TriggerOnInteract occupants of the tile in front. */
  function InteractTriggers(t: Tags, s: MobState, ev: MobInteractEvent): (r: seq<TriggerEvent>)
    requires InteractReady(t, s, ev.entity) ==> CanAdd(s.position[ev.entity], s.direction[ev.entity])
    ensures !InteractReady(t, s, ev.entity) ==> r == []
  {
    var e := ev.entity;
    if InteractReady(t, s, e) then
      TriggerEvents(e, Get(s.index, Add(s.position[e], s.direction[e])), t.triggerOnInteract)
    else []
  }

  /** The events `mob_interact` sends for a list of interact events. */
  function InteractOutcome(t: Tags, s: MobState, events: seq<MobInteractEvent>): (r: seq<TriggerEvent>)
    requires InteractOk(t, s, events)
    decreases |events|
  {
    if events == [] then []
    else
      var n := |events| - 1;
      InteractOutcome(t, s, events[..n]) + InteractTriggers(t, s, events[n])
  }

  /**
   * `mob_interact` emits, for each ready interacting mob, one trigger per
   * TriggerOnInteract occupant of the tile it faces, and nothing else.
   */
  lemma {:induction false} InteractOutcomeMeaning(t: Tags, s: MobState, events: seq<MobInteractEvent>, ev: TriggerEvent)
    requires InteractOk(t, s, events)
    ensures ev in InteractOutcome(t, s, events) <==>
      exists i :: 0 <= i < |events| && events[i].entity == ev.triggering
        && InteractReady(t, s, ev.triggering)
        && ev.triggered in Get(s.index, Add(s.position[ev.triggering], s.direction[ev.triggering]))
        && ev.triggered in t.triggerOnInteract
    decreases |events|
  {
    if events != [] {
      var n := |events| - 1;
      InteractOutcomeMeaning(t, s, events[..n], ev);
      if ev in InteractOutcome(t, s, events) {
        if ev in InteractTriggers(t, s, events[n]) {
          assert events[n].entity == ev.triggering;
        } else {
          var i :| 0 <= i < |events[..n]| && events[..n][i].entity == ev.triggering;
          assert events[i].entity == ev.triggering;
        }
      } else {
        forall i | 0 <= i < |events| && events[i].entity == ev.triggering && InteractReady(t, s, ev.triggering)
          ensures ev.triggered !in Get(s.index, Add(s.position[ev.triggering], s.direction[ev.triggering]))
            || ev.triggered !in t.triggerOnInteract
        {
          if i < n {
            assert events[..n][i] == events[i];
          }
        }
      }
    }
  }

  // ---------------------------------------------------------------------------
  // trigger_on_see_player
  // ---------------------------------------------------------------------------

  /** What one tile shows the scan. */
  datatype Sighting = Clear | Blocked | Seen(player: Entity)

  /** The first occupant that blocks sight or is a player decides; blocking is checked first. */
  function ScanTile(t: Tags, occupants: seq<Entity>): (r: Sighting)
    ensures r.Seen? ==> r.player in occupants && r.player in t.player
    ensures r == Clear ==> forall x :: x in occupants ==> x !in t.blocksSight && x !in t.player
    decreases |occupants|
  {
    if occupants == [] then Clear
    else if occupants[0] in t.blocksSight then Blocked
    else if occupants[0] in t.player then Seen(occupants[0])
    else ScanTile(t, occupants[1..])
  }

  /**
   * Occupant `i` of the tile is the first one that blocks sight or is a player:
   * every occupant before it is neither.
   */
  ghost predicate DecidesTile(t: Tags, occupants: seq<Entity>, i: int) {
    && 0 <= i < |occupants|
    && (occupants[i] in t.blocksSight || occupants[i] in t.player)
    && forall j :: 0 <= j < i ==> occupants[j] !in t.blocksSight && occupants[j] !in t.player
  }

  /**
   * The first occupant that blocks sight or is a player decides the tile, and
   * blocking is checked before the player: the tile is blocked exactly when that
   * occupant blocks sight, and shows a player exactly when it is a player that
   * does not block sight.
   */
  lemma {:induction false} ScanTileFirstDecides(t: Tags, occupants: seq<Entity>)
    ensures ScanTile(t, occupants) == Clear <==> forall i :: 0 <= i < |occupants| ==> !DecidesTile(t, occupants, i)
    ensures ScanTile(t, occupants) == Blocked <==> exists i :: DecidesTile(t, occupants, i) && occupants[i] in t.blocksSight
    ensures forall p :: ScanTile(t, occupants) == Seen(p) <==>
      exists i :: DecidesTile(t, occupants, i) && occupants[i] == p && p !in t.blocksSight
    decreases |occupants|
  {
    if occupants != [] {
      var rest := occupants[1..];
      ScanTileFirstDecides(t, rest);
      if occupants[0] in t.blocksSight || occupants[0] in t.player {
        assert DecidesTile(t, occupants, 0);
        assert forall i :: DecidesTile(t, occupants, i) ==> i == 0;
      } else {
        assert forall i :: 0 < i < |occupants| ==> (DecidesTile(t, occupants, i) <==> DecidesTile(t, rest, i - 1));
        assert forall i :: 0 <= i < |rest| ==> (DecidesTile(t, rest, i) <==> DecidesTile(t, occupants, i + 1));
        assert !DecidesTile(t, occupants, 0);
      }
    }
  }

  /** Step `k` of the ray, `pos + dir.mult(k)`, can be computed without overflow. */
  predicate StepFits(pos: GridTransform, dir: GridTransform, k: int) {
    CanMult(dir, k) && CanAdd(pos, Mult(dir, k))
  }

  /** The tile `k` steps along the ray. */
  function RayTile(pos: GridTransform, dir: GridTransform, k: int): GridTransform
    requires StepFits(pos, dir, k)
  {
    Add(pos, Mult(dir, k))
  }

  /**
   * The scan from step `k` on computes no tile that overflows: every tile it
   * looks at, up to the first one that is not clear or the end of the range, fits.
   */
  predicate ScanFits(t: Tags, idx: GridIndex, pos: GridTransform, dir: GridTransform, k: nat)
    decreases SIGHT_RANGE + 1 - k
  {
    k > SIGHT_RANGE
      || (StepFits(pos, dir, k)
          && (ScanTile(t, Get(idx, RayTile(pos, dir, k))) != Clear || ScanFits(t, idx, pos, dir, k + 1)))
  }

  /** Every step from `k` up to, but not including, `j` fits and shows a clear tile. */
  ghost predicate ClearSteps(t: Tags, idx: GridIndex, pos: GridTransform, dir: GridTransform, k: int, j: int) {
    forall i :: k <= i < j ==> StepFits(pos, dir, i) && ScanTile(t, Get(idx, RayTile(pos, dir, i))) == Clear
  }

  /** The scan from step `k` on: the player seen first, or None if sight is blocked or the range runs out. */
  function ScanRay(t: Tags, idx: GridIndex, pos: GridTransform, dir: GridTransform, k: nat): Option<Entity>
    requires ScanFits(t, idx, pos, dir, k) && 1 <= k
    decreases SIGHT_RANGE + 1 - k
  {
    if k > SIGHT_RANGE then None
    else
      match ScanTile(t, Get(idx, RayTile(pos, dir, k)))
      case Blocked => None
      case Seen(p) => Some(p)
      case Clear => ScanRay(t, idx, pos, dir, k + 1)
  }

  /**
   * Clear tiles are passed over: over clear steps `k` up to `j`, the scan from
   * `k` fits exactly when the scan from `j` does, and then gives the same result.
   */
  lemma {:induction false} ScanRaySkipsClear(t: Tags, idx: GridIndex, pos: GridTransform, dir: GridTransform, k: nat, j: nat)
    requires 1 <= k <= j <= SIGHT_RANGE + 1 && ClearSteps(t, idx, pos, dir, k, j)
    ensures ScanFits(t, idx, pos, dir, k) <==> ScanFits(t, idx, pos, dir, j)
    ensures ScanFits(t, idx, pos, dir, k) ==> ScanRay(t, idx, pos, dir, k) == ScanRay(t, idx, pos, dir, j)
    decreases j - k
  {
    if k < j {
      assert StepFits(pos, dir, k) && ScanTile(t, Get(idx, RayTile(pos, dir, k))) == Clear;
      ScanRaySkipsClear(t, idx, pos, dir, k + 1, j);
    }
  }

  /** The scan reports player `p` only if some step `j` in 1..=16 shows `p` and every step before it is clear ... */
  lemma ScanRaySeesOnly(t: Tags, idx: GridIndex, pos: GridTransform, dir: GridTransform, p: Entity)
    requires ScanFits(t, idx, pos, dir, 1) && ScanRay(t, idx, pos, dir, 1) == Some(p)
    ensures exists j :: (1 <= j <= SIGHT_RANGE && StepFits(pos, dir, j) && ScanTile(t, Get(idx, RayTile(pos, dir, j))) == Seen(p)
      && ClearSteps(t, idx, pos, dir, 1, j))
  {
    var j := FirstUnclear(t, idx, pos, dir, 1);
    ScanRaySkipsClear(t, idx, pos, dir, 1, j);
    assert 1 <= j <= SIGHT_RANGE && ScanTile(t, Get(idx, RayTile(pos, dir, j))) == Seen(p);
  }

  /** ... and whenever such a step exists; the scan then computes no tile that overflows. */
  lemma ScanRaySeesIf(t: Tags, idx: GridIndex, pos: GridTransform, dir: GridTransform, p: Entity, j: nat)
    requires 1 <= j <= SIGHT_RANGE && StepFits(pos, dir, j)
    requires ScanTile(t, Get(idx, RayTile(pos, dir, j))) == Seen(p)
    requires ClearSteps(t, idx, pos, dir, 1, j)
    ensures ScanFits(t, idx, pos, dir, 1) && ScanRay(t, idx, pos, dir, 1) == Some(p)
  {
    assert ScanFits(t, idx, pos, dir, j);
    ScanRaySkipsClear(t, idx, pos, dir, 1, j);
  }

  /**
   * A sight blocker at step `j` with clear tiles before it hides everything
   * beyond, and the tiles beyond it are never computed.
   */
  lemma ScanRayBlocked(t: Tags, idx: GridIndex, pos: GridTransform, dir: GridTransform, j: nat)
    requires 1 <= j <= SIGHT_RANGE && StepFits(pos, dir, j)
    requires ScanTile(t, Get(idx, RayTile(pos, dir, j))) == Blocked
    requires ClearSteps(t, idx, pos, dir, 1, j)
    ensures ScanFits(t, idx, pos, dir, 1) && ScanRay(t, idx, pos, dir, 1) == None
  {
    assert ScanFits(t, idx, pos, dir, j);
    ScanRaySkipsClear(t, idx, pos, dir, 1, j);
  }

  /** A ray whose sixteen tiles all fit can be scanned whatever the tiles hold. */
  lemma {:induction false} WholeRayFits(t: Tags, idx: GridIndex, pos: GridTransform, dir: GridTransform, k: nat)
    requires 1 <= k && forall i :: k <= i <= SIGHT_RANGE ==> StepFits(pos, dir, i)
    ensures ScanFits(t, idx, pos, dir, k)
    decreases SIGHT_RANGE + 1 - k
  {
    if k <= SIGHT_RANGE {
      WholeRayFits(t, idx, pos, dir, k + 1);
    }
  }

  /** The first step at or after `k` that is not clear, or 17 if there is none. */
  function FirstUnclear(t: Tags, idx: GridIndex, pos: GridTransform, dir: GridTransform, k: nat): (j: nat)
    requires ScanFits(t, idx, pos, dir, k) && 1 <= k <= SIGHT_RANGE + 1
    ensures k <= j <= SIGHT_RANGE + 1
    ensures ClearSteps(t, idx, pos, dir, k, j)
    ensures j <= SIGHT_RANGE ==> StepFits(pos, dir, j) && ScanTile(t, Get(idx, RayTile(pos, dir, j))) != Clear
    decreases SIGHT_RANGE + 1 - k
  {
    if k > SIGHT_RANGE then k
    else if ScanTile(t, Get(idx, RayTile(pos, dir, k))) != Clear then k
    else FirstUnclear(t, idx, pos, dir, k + 1)
  }

  /** The entity matches the sight system's query. */
  predicate InSightQuery(t: Tags, s: MobState, e: Entity) {
    e in t.triggerOnSeePlayer && e in s.position && e in s.direction && e in s.sightCooldown
  }

  /** The entity can be scanned for without overflow once its cooldown lets it look. */
  predicate SightStepOk(t: Tags, s: MobState, e: Entity, delta: nat) {
    InSightQuery(t, s, e)
      && (Finished(Tick(s.sightCooldown[e], delta)) ==> ScanFits(t, s.index, s.position[e], s.direction[e], 1))
  }

  /**
   * One iteration of the loop of `trigger_on_see_player`: tick the entity's
   * sight cooldown; if it is still running, stop the whole loop (the `bool` is
   * false); otherwise scan and, on seeing a player, restart the cooldown and
   * emit `{triggering: player, triggered: entity}`.
   */
  function SightStep(t: Tags, s: MobState, e: Entity, delta: nat): (r: (MobState, seq<TriggerEvent>, bool))
    requires SightStepOk(t, s, e, delta)
    ensures r.0 == s.(sightCooldown := r.0.sightCooldown)
    ensures r.0.sightCooldown.Keys == s.sightCooldown.Keys
    ensures forall x :: x in s.sightCooldown && x != e ==> r.0.sightCooldown[x] == s.sightCooldown[x]
    ensures |r.1| <= 1 && forall o :: o in r.1 ==> o.triggered == e && o.triggering in t.player
  {
    var ticked := Tick(s.sightCooldown[e], delta);
    if !Finished(ticked) then (s.(sightCooldown := s.sightCooldown[e := ticked]), [], false)
    else
      match ScanRay(t, s.index, s.position[e], s.direction[e], 1)
      case None => (s.(sightCooldown := s.sightCooldown[e := ticked]), [], true)
      case Some(p) =>
        assert p in t.player by {
          var j := FirstUnclear(t, s.index, s.position[e], s.direction[e], 1);
          ScanRaySkipsClear(t, s.index, s.position[e], s.direction[e], 1, j);
        }
        (s.(sightCooldown := s.sightCooldown[e := Reset(ticked)]), [TriggerEvent(p, e)], true)
  }

  /**
   * The sight rule for one entity: the loop goes on exactly when the ticked
   * cooldown has finished; an event is sent exactly when it has and the ray
   * finds a player, and then it is the one event from that player to the entity
   * and the cooldown restarts; otherwise the cooldown stays ticked.
   */
  lemma SightStepRule(t: Tags, s: MobState, e: Entity, delta: nat)
    requires SightStepOk(t, s, e, delta)
    ensures var r := SightStep(t, s, e, delta);
      var ticked := Tick(s.sightCooldown[e], delta);
      && (r.2 <==> Finished(ticked))
      && (r.1 != [] <==> Finished(ticked) && ScanRay(t, s.index, s.position[e], s.direction[e], 1).Some?)
      && (r.1 != [] ==> r.1 == [TriggerEvent(ScanRay(t, s.index, s.position[e], s.direction[e], 1).value, e)]
                        && r.0.sightCooldown[e] == Reset(ticked))
      && (r.1 == [] ==> r.0.sightCooldown[e] == ticked)
  {
  }

  /** No entity the loop reaches overflows. */
  predicate SightOk(t: Tags, s: MobState, order: seq<Entity>, delta: nat)
    decreases |order|
  {
    order == [] ||
      (SightStepOk(t, s, order[0], delta)
        && var r := SightStep(t, s, order[0], delta);
        r.2 ==> SightOk(t, r.0, order[1..], delta))
  }

  predicate AllInSightQuery(t: Tags, s: MobState, order: seq<Entity>) {
    forall k :: 0 <= k < |order| ==> InSightQuery(t, s, order[k])
  }

  /** `order` is an iteration order of the sight query: each entity of the query once. */
  ghost predicate SightOrder(t: Tags, s: MobState, order: seq<Entity>) {
    NoDuplicates(order) && forall e :: e in order <==> InSightQuery(t, s, e)
  }

  /** A whole `trigger_on_see_player` call, over the query in iteration order `order`. */
  function SightOutcome(t: Tags, s: MobState, order: seq<Entity>, delta: nat): (r: (MobState, seq<TriggerEvent>))
    requires SightOk(t, s, order, delta)
    ensures r.0 == s.(sightCooldown := r.0.sightCooldown)
    ensures r.0.sightCooldown.Keys == s.sightCooldown.Keys
    decreases |order|
  {
    if order == [] then (s, [])
    else
      var step := SightStep(t, s, order[0], delta);
      if !step.2 then (step.0, step.1)
      else
        var rest := SightOutcome(t, step.0, order[1..], delta);
        (rest.0, step.1 + rest.1)
  }

  /** The scan touches only the sight cooldowns of the entities in `order`, and every event names one of them and a player. */
  lemma {:induction false} SightOutcomeFrame(t: Tags, s: MobState, order: seq<Entity>, delta: nat)
    requires SightOk(t, s, order, delta)
    ensures var r := SightOutcome(t, s, order, delta);
      && (forall x :: x in s.sightCooldown && x !in order ==> r.0.sightCooldown[x] == s.sightCooldown[x])
      && (forall o :: o in r.1 ==> o.triggered in order && o.triggering in t.player)
    decreases |order|
  {
    if order != [] {
      var step := SightStep(t, s, order[0], delta);
      if step.2 {
        SightOutcomeFrame(t, step.0, order[1..], delta);
        assert forall x :: x in order[1..] ==> x in order;
      }
    }
  }

  /** How many entities the loop ticks before it ends or breaks. */
  function SightReach(t: Tags, s: MobState, order: seq<Entity>, delta: nat): (n: nat)
    requires SightOk(t, s, order, delta)
    ensures n <= |order|
    decreases |order|
  {
    if order == [] then 0
    else
      var r := SightStep(t, s, order[0], delta);
      if !r.2 then 1 else 1 + SightReach(t, r.0, order[1..], delta)
  }

  /**
   * The loop's `break` on a running cooldown ends the whole scan: an entity
   * after the one that broke it keeps its sight cooldown and causes no event.
   */
  lemma {:induction false} SightUntouchedBeyondReach(t: Tags, s: MobState, order: seq<Entity>, delta: nat, k: nat)
    requires SightOk(t, s, order, delta) && NoDuplicates(order) && AllInSightQuery(t, s, order)
    requires SightReach(t, s, order, delta) <= k < |order|
    ensures SightOutcome(t, s, order, delta).0.sightCooldown[order[k]] == s.sightCooldown[order[k]]
    ensures forall o :: o in SightOutcome(t, s, order, delta).1 ==> o.triggered != order[k]
    decreases |order|
  {
    var e := order[0];
    var step := SightStep(t, s, e, delta);
    assert order[k] != e;
    if !step.2 {
      assert SightReach(t, s, order, delta) == 1;
      assert SightOutcome(t, s, order, delta) == (step.0, step.1);
    } else {
      var rest := order[1..];
      assert SightReach(t, s, order, delta) == 1 + SightReach(t, step.0, rest, delta);
      assert SightOutcome(t, s, order, delta).0 == SightOutcome(t, step.0, rest, delta).0;
      assert SightOutcome(t, s, order, delta).1 == step.1 + SightOutcome(t, step.0, rest, delta).1;
      assert rest[k - 1] == order[k];
      assert NoDuplicates(rest) && AllInSightQuery(t, step.0, rest);
      SightUntouchedBeyondReach(t, step.0, rest, delta, k - 1);
    }
  }

  /** Each entity of the query causes at most one sight event per call. */
  lemma {:induction false} SightEventsDistinct(t: Tags, s: MobState, order: seq<Entity>, delta: nat)
    requires SightOk(t, s, order, delta) && NoDuplicates(order)
    ensures DistinctTriggered(SightOutcome(t, s, order, delta).1)
    decreases |order|
  {
    if order != [] {
      var e := order[0];
      var step := SightStep(t, s, e, delta);
      if !step.2 {
        assert SightOutcome(t, s, order, delta).1 == step.1;
      } else {
        var rest := order[1..];
        assert NoDuplicates(rest) && e !in rest;
        SightEventsDistinct(t, step.0, rest, delta);
        var o1: seq<TriggerEvent> := step.1;
        var o2: seq<TriggerEvent> := SightOutcome(t, step.0, rest, delta).1;
        assert SightOutcome(t, s, order, delta).1 == o1 + o2;
        SightOutcomeFrame(t, step.0, rest, delta);
        assert forall o :: o in o2 ==> o.triggered != e;
        DistinctAppend(o1, o2, e);
      }
    }
  }

  /** No two events name the same triggered entity. */
  ghost predicate DistinctTriggered(out: seq<TriggerEvent>) {
    forall i, j :: 0 <= i < j < |out| ==> out[i].triggered != out[j].triggered
  }

  /** Appending events about other entities to at most one event about `e` keeps the names distinct. */
  lemma DistinctAppend(o1: seq<TriggerEvent>, o2: seq<TriggerEvent>, e: Entity)
    requires |o1| <= 1 && forall o :: o in o1 ==> o.triggered == e
    requires forall o :: o in o2 ==> o.triggered != e
    requires DistinctTriggered(o2)
    ensures DistinctTriggered(o1 + o2)
  {
    forall i, j | 0 <= i < j < |o1 + o2|
      ensures (o1 + o2)[i].triggered != (o1 + o2)[j].triggered
    {
      if i < |o1| {
        assert (o1 + o2)[i] == o1[i] && o1[i] in o1;
        assert (o1 + o2)[j] == o2[j - |o1|] && o2[j - |o1|] in o2;
      } else {
        assert (o1 + o2)[i] == o2[i - |o1|] && (o1 + o2)[j] == o2[j - |o1|];
      }
    }
  }

  /**
   * The sight rule for every entity the loop reaches: its cooldown is ticked;
   * when the ticked cooldown has finished and the ray from the entity finds a
   * player, exactly that player triggers it and the cooldown restarts;
   * otherwise there is no event for it and the cooldown stays ticked.
   */
  lemma {:induction false} SightCooldownOfReached(t: Tags, s: MobState, order: seq<Entity>, delta: nat, k: nat)
    requires SightOk(t, s, order, delta) && NoDuplicates(order) && AllInSightQuery(t, s, order)
    requires k < SightReach(t, s, order, delta)
    ensures Finished(Tick(s.sightCooldown[order[k]], delta)) ==> ScanFits(t, s.index, s.position[order[k]], s.direction[order[k]], 1)
    ensures var r := SightOutcome(t, s, order, delta);
      var e := order[k];
      var ticked := Tick(s.sightCooldown[e], delta);
      var sees := Finished(ticked) && ScanRay(t, s.index, s.position[e], s.direction[e], 1).Some?;
      && (forall o :: o in r.1 && o.triggered == e ==>
            Finished(ticked) && ScanRay(t, s.index, s.position[e], s.direction[e], 1) == Some(o.triggering))
      && (sees ==> TriggerEvent(ScanRay(t, s.index, s.position[e], s.direction[e], 1).value, e) in r.1)
      && r.0.sightCooldown[e] == (if sees then Reset(ticked) else ticked)
    decreases |order|
  {
    if k == 0 {
      SightCooldownOfFirst(t, s, order, delta);
    } else {
      var e := order[0];
      var step := SightStep(t, s, e, delta);
      var rest := order[1..];
      assert NoDuplicates(rest) && e !in rest;
      assert step.2;
      var r2 := SightOutcome(t, step.0, rest, delta);
      var r := SightOutcome(t, s, order, delta);
      assert r.0 == r2.0 && r.1 == step.1 + r2.1;
      assert rest[k - 1] == order[k] && order[k] != e;
      assert AllInSightQuery(t, step.0, rest);
      SightCooldownOfReached(t, step.0, rest, delta, k - 1);
      assert forall o :: o in step.1 ==> o.triggered != order[k];
    }
  }

  /** The first entity of the scan order: the case the recursion of SightCooldownOfReached bottoms out in. */
  lemma SightCooldownOfFirst(t: Tags, s: MobState, order: seq<Entity>, delta: nat)
    requires SightOk(t, s, order, delta) && NoDuplicates(order) && AllInSightQuery(t, s, order)
    requires 0 < SightReach(t, s, order, delta)
    ensures Finished(Tick(s.sightCooldown[order[0]], delta)) ==> ScanFits(t, s.index, s.position[order[0]], s.direction[order[0]], 1)
    ensures var r := SightOutcome(t, s, order, delta);
      var e := order[0];
      var ticked := Tick(s.sightCooldown[e], delta);
      var sees := Finished(ticked) && ScanRay(t, s.index, s.position[e], s.direction[e], 1).Some?;
      && (forall o :: o in r.1 && o.triggered == e ==>
            Finished(ticked) && ScanRay(t, s.index, s.position[e], s.direction[e], 1) == Some(o.triggering))
      && (sees ==> TriggerEvent(ScanRay(t, s.index, s.position[e], s.direction[e], 1).value, e) in r.1)
      && r.0.sightCooldown[e] == (if sees then Reset(ticked) else ticked)
  {
    var e := order[0];
    var step := SightStep(t, s, e, delta);
    var rest := order[1..];
    SightStepRule(t, s, e, delta);
    assert NoDuplicates(rest) && e !in rest;
    if !step.2 {
      assert SightOutcome(t, s, order, delta) == (step.0, step.1);
    } else {
      var r2 := SightOutcome(t, step.0, rest, delta);
      var r := SightOutcome(t, s, order, delta);
      assert r.0 == r2.0 && r.1 == step.1 + r2.1;
      SightOutcomeFrame(t, step.0, rest, delta);
      assert forall o :: o in r2.1 ==> o.triggered in rest;
      assert r2.0.sightCooldown[e] == step.0.sightCooldown[e];
    }
  }

  /** The cooldown loop of `move_mob` on the cooldown components: every mob of the query ticks once, in any order. */
  method TickAllCooldowns(t: Tags, s: MobState, delta: nat) returns (cds: map<Entity, Timer>)
    ensures cds == TickCooldowns(t, s, delta).cooldown
  {
    ghost var goal := TickCooldowns(t, s, delta).cooldown;
    cds := s.cooldown;
    var pending := set e | e in cds && InMoveQuery(t, s, e);
    ghost var q := pending;
    while pending != {}
      invariant pending <= q && cds.Keys == goal.Keys
      invariant forall e :: e in goal ==> cds[e] == if e in q && e !in pending then goal[e] else s.cooldown[e]
      decreases pending
    {
      var e :| e in pending;
      cds := cds[e := Tick(cds[e], delta)];
      pending := pending - {e};
    }
  }

  // ---------------------------------------------------------------------------
  // The world the three systems run on
  // ---------------------------------------------------------------------------

  /** The mob, player and trigger entities' components and the grid index resource. */
  class MobWorld {
    const tags: Tags
    var position: map<Entity, GridTransform>
    var lastPosition: map<Entity, GridTransform>
    var direction: map<Entity, GridTransform>
    var cooldown: map<Entity, Timer>
    var sightCooldown: map<Entity, Timer>
    var index: GridIndex

    function State(): MobState
      reads this
    {
      MobState(position, lastPosition, direction, cooldown, sightCooldown, index)
    }

    constructor (tags: Tags, s: MobState)
      ensures this.tags == tags && State() == s
    {
      this.tags := tags;
      position, lastPosition, direction := s.position, s.lastPosition, s.direction;
      cooldown, sightCooldown, index := s.cooldown, s.sightCooldown, s.index;
    }

    /** `move_mob`: process the move events in order, then tick every mob's cooldown once. */
    method MoveMob(events: seq<MobMoveEvent>, delta: nat) returns (triggers: seq<TriggerOnMoveOntoEvent>)
      requires MovesOk(tags, State(), events)
      modifies this
      ensures State() == MoveMobOutcome(tags, old(State()), events, delta).0
      ensures triggers == MoveMobOutcome(tags, old(State()), events, delta).1
    {
      triggers := ProcessAll(events);
      TickAll(delta);
    }

    /** The event loop of `move_mob`. */
    method ProcessAll(events: seq<MobMoveEvent>) returns (triggers: seq<TriggerOnMoveOntoEvent>)
      requires MovesOk(tags, State(), events)
      modifies this
      ensures State() == ProcessMoves(tags, old(State()), events).0
      ensures triggers == ProcessMoves(tags, old(State()), events).1
    {
      ghost var goal := ProcessMoves(tags, State(), events);
      triggers := [];
      var rest := events;
      while rest != []
        invariant MovesOk(tags, State(), rest)
        invariant goal.0 == ProcessMoves(tags, State(), rest).0
        invariant goal.1 == triggers + ProcessMoves(tags, State(), rest).1
        decreases |rest|
      {
        ProcessMovesUnfold(tags, State(), rest);
        ghost var before := triggers;
        var emitted := MoveOne(rest[0]);
        triggers := triggers + emitted;
        rest := rest[1..];
        assert before + (emitted + ProcessMoves(tags, State(), rest).1) == triggers + ProcessMoves(tags, State(), rest).1;
      }
    }

    /** The cooldown loop of `move_mob`: every mob of the query ticks once. */
    method TickAll(delta: nat)
      modifies this
      ensures State() == TickCooldowns(tags, old(State()), delta)
    {
      cooldown := TickAllCooldowns(tags, State(), delta);
    }

    /** One iteration of the event loop of `move_mob`. */
    method MoveOne(ev: MobMoveEvent) returns (emitted: seq<TriggerOnMoveOntoEvent>)
      requires CanStep(tags, State(), ev)
      modifies this
      ensures State() == StepMove(tags, old(State()), ev).0
      ensures emitted == StepMove(tags, old(State()), ev).1
    {
      emitted := [];
      var e := ev.entity;
      if e in tags.mob && e in position && e in lastPosition && e in direction && e in cooldown {
        if Finished(cooldown[e]) {
          var newPos := Add(position[e], ev.movement);
          direction := direction[e := ev.movement];
          var occupants := Get(index, newPos);
          if !AnyBlocksWalking(tags, occupants) {
            lastPosition := lastPosition[e := position[e]];
            position := position[e := newPos];
            cooldown := cooldown[e := Reset(cooldown[e])];
            emitted := CollectMoveOnto(e, occupants);
            index := Update(index, e, newPos);
          }
        }
      }
    }

    /** The occupant loop of `move_mob`: a move-onto event for each TriggerOnMoveOnto occupant. */
    method CollectMoveOnto(e: Entity, occupants: seq<Entity>) returns (emitted: seq<TriggerOnMoveOntoEvent>)
      ensures emitted == MoveOntoEvents(e, occupants, tags.triggerOnMoveOnto)
    {
      emitted := [];
      for j := 0 to |occupants|
        invariant emitted == MoveOntoEvents(e, occupants[..j], tags.triggerOnMoveOnto)
      {
        assert occupants[..j + 1][..j] == occupants[..j];
        if occupants[j] in tags.triggerOnMoveOnto {
          emitted := emitted + [TriggerOnMoveOntoEvent(e, occupants[j])];
        }
      }
      assert occupants[..|occupants|] == occupants;
    }

    /** `mob_interact`: changes nothing and returns the trigger events it would send. */
    method MobInteract(events: seq<MobInteractEvent>) returns (out: seq<TriggerEvent>)
      requires InteractOk(tags, State(), events)
      ensures out == InteractOutcome(tags, State(), events)
    {
      out := [];
      for i := 0 to |events|
        invariant out == InteractOutcome(tags, State(), events[..i])
      {
        assert events[..i + 1][..i] == events[..i];
        assert events[..i + 1][i] == events[i];
        var e := events[i].entity;
        var emitted: seq<TriggerEvent> := [];
        if e in tags.mob && e in position && e in direction && e in cooldown {
          if Finished(cooldown[e]) {
            var interactPos := Add(position[e], direction[e]);
            emitted := CollectInteract(e, Get(index, interactPos));
          }
        }
        assert emitted == InteractTriggers(tags, State(), events[i]);
        out := out + emitted;
      }
      assert events[..|events|] == events;
    }

    /** The occupant loop of `mob_interact`: a trigger event for each TriggerOnInteract occupant. */
    method CollectInteract(e: Entity, occupants: seq<Entity>) returns (emitted: seq<TriggerEvent>)
      ensures emitted == TriggerEvents(e, occupants, tags.triggerOnInteract)
    {
      emitted := [];
      for j := 0 to |occupants|
        invariant emitted == TriggerEvents(e, occupants[..j], tags.triggerOnInteract)
      {
        assert occupants[..j + 1][..j] == occupants[..j];
        if occupants[j] in tags.triggerOnInteract {
          emitted := emitted + [TriggerEvent(e, occupants[j])];
        }
      }
      assert occupants[..|occupants|] == occupants;
    }

    /**
     * `trigger_on_see_player` over the query in iteration order `order`: each
     * entity ticks its sight cooldown, a running cooldown breaks the loop, and
     * otherwise the ray is scanned tile by tile and occupant by occupant.
     */
    method TriggerOnSeePlayer(order: seq<Entity>, delta: nat) returns (out: seq<TriggerEvent>)
      requires SightOrder(tags, State(), order) && SightOk(tags, State(), order, delta)
      modifies this
      ensures State() == SightOutcome(tags, old(State()), order, delta).0
      ensures out == SightOutcome(tags, old(State()), order, delta).1
    {
      ghost var goal := SightOutcome(tags, State(), order, delta);
      out := [];
      var rest := order;
      assert out + goal.1 == goal.1;
      while rest != []
        invariant SightOk(tags, State(), rest, delta)
        invariant goal == (SightOutcome(tags, State(), rest, delta).0, out + SightOutcome(tags, State(), rest, delta).1)
        decreases |rest|
      {
        ghost var before := State();
        ghost var outBefore := out;
        var emitted, more := SightOne(rest[0], delta);
        out := out + emitted;
        if !more {
          assert SightOutcome(tags, before, rest, delta) == (State(), emitted);
          break;
        }
        ghost var after := SightOutcome(tags, State(), rest[1..], delta);
        assert SightOutcome(tags, before, rest, delta) == (after.0, emitted + after.1);
        assert outBefore + (emitted + after.1) == out + after.1;
        rest := rest[1..];
      }
    }

    /** One iteration of the loop of `trigger_on_see_player`; `more` is false where the source breaks. */
    method SightOne(e: Entity, delta: nat) returns (emitted: seq<TriggerEvent>, more: bool)
      requires SightStepOk(tags, State(), e, delta)
      modifies this
      ensures var r := SightStep(tags, old(State()), e, delta);
        State() == r.0 && emitted == r.1 && more == r.2
    {
      emitted := [];
      sightCooldown := sightCooldown[e := Tick(sightCooldown[e], delta)];
      if !Finished(sightCooldown[e]) {
        return emitted, false;
      }
      var found := ScanForPlayer(position[e], direction[e]);
      if found.Some? {
        sightCooldown := sightCooldown[e := Reset(sightCooldown[e])];
        emitted := [TriggerEvent(found.value, e)];
      }
      more := true;
    }

    /** The two inner loops of the sight scan: steps 1..=16, then the occupants of each tile. */
    method ScanForPlayer(pos: GridTransform, dir: GridTransform) returns (found: Option<Entity>)
      requires ScanFits(tags, index, pos, dir, 1)
      ensures found == ScanRay(tags, index, pos, dir, 1)
    {
      found := None;
      var step := 1;
      while step <= SIGHT_RANGE
        invariant 1 <= step <= SIGHT_RANGE + 1 && found == None
        invariant ScanFits(tags, index, pos, dir, step)
        invariant ScanRay(tags, index, pos, dir, 1) == ScanRay(tags, index, pos, dir, step)
      {
        var checkPos := Add(pos, Mult(dir, step));
        var occupants := Get(index, checkPos);
        var blocked := false;
        var j := 0;
        while j < |occupants|
          invariant 0 <= j <= |occupants| && found == None
          invariant ScanTile(tags, occupants) == ScanTile(tags, occupants[j..])
        {
          assert occupants[j..][0] == occupants[j] && occupants[j..][1..] == occupants[j + 1..];
          var occupant := occupants[j];
          if occupant in tags.blocksSight {
            blocked := true;
            break;
          }
          if occupant in tags.player {
            found := Some(occupant);
            break;
          }
          j := j + 1;
        }
        if blocked {
          assert ScanTile(tags, occupants) == Blocked;
          break;
        }
        if found.Some? {
          assert ScanTile(tags, occupants) == Seen(found.value);
          break;
        }
        assert occupants[|occupants|..] == [];
        step := step + 1;
      }
    }
  }
}
