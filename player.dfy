/**
 * The player entity and its cooldown-gated grid movement (src/player.rs).
 * There is no collision check: each player simply moves by the action.
 */
module Players {
  import opened Wrappers
  import opened GridTransforms
  import opened Timers
  import opened Ecs

  /** `PLAYER_SPEED` is 0.3 s. */
  const PLAYER_SPEED_MS: nat := 300

  /** `MovementCooldown::new`: a one-shot timer of `PLAYER_SPEED` that has not finished yet. */
  function NewMovementCooldown(): (r: Timer)
    ensures r.duration == PLAYER_SPEED_MS && !Finished(r) && !r.justFinished
  {
    OnceTimer(PLAYER_SPEED_MS)
  }

  /** The Player tag, the GridTransform and GridDirection components, and the MovementCooldown resource. */
  datatype PlayerState = PlayerState(players: set<Entity>, position: map<Entity, GridTransform>,
                                     direction: map<Entity, GridTransform>, cooldown: Timer)

  /** `e` is visited by `move_player`'s query. */
  predicate InPlayerQuery(s: PlayerState, e: Entity) {
    e in s.players && e in s.position && e in s.direction
  }

  /** `spawn_player` on a fresh entity. */
  function SpawnOutcome(s: PlayerState, e: Entity): PlayerState {
    s.(players := s.players + {e}, position := s.position[e := ZERO], direction := s.direction[e := SOUTH])
  }

  /** A spawned player stands at the origin facing south, and nobody else is affected. */
  lemma SpawnedPlayerStart(s: PlayerState, e: Entity)
    ensures var r := SpawnOutcome(s, e);
      && InPlayerQuery(r, e) && r.position[e] == ZERO && r.direction[e] == SOUTH
      && r.cooldown == s.cooldown
      && (forall x :: x in s.position && x != e ==> x in r.position && r.position[x] == s.position[x])
      && (forall x :: x in s.direction && x != e ==> x in r.direction && r.direction[x] == s.direction[x])
  {
  }

  /** Moving every queried player by `m` does not overflow. */
  predicate MoveFits(s: PlayerState, m: GridTransform) {
    forall e :: e in s.position && InPlayerQuery(s, e) ==> CanAdd(s.position[e], m)
  }

  /** Whether `move_player` takes the move. */
  predicate Moves(s: PlayerState, action: Option<GridTransform>) {
    action.Some? && Finished(s.cooldown)
  }

  predicate MoveOk(s: PlayerState, action: Option<GridTransform>) {
    Moves(s, action) ==> MoveFits(s, action.value)
  }

  /** Every queried player's position moved by `m`. */
  function MovedPositions(s: PlayerState, m: GridTransform): map<Entity, GridTransform>
    requires MoveFits(s, m)
  {
    map e | e in s.position :: if InPlayerQuery(s, e) then Add(s.position[e], m) else s.position[e]
  }

  /** Every queried player's direction set to `m`. */
  function TurnedDirections(s: PlayerState, m: GridTransform): map<Entity, GridTransform> {
    map e | e in s.direction :: if InPlayerQuery(s, e) then m else s.direction[e]
  }

  /** `move_player`. */
  function MovePlayerOutcome(s: PlayerState, action: Option<GridTransform>): PlayerState
    requires MoveOk(s, action)
  {
    if !Moves(s, action) then s
    else PlayerState(s.players, MovedPositions(s, action.value), TurnedDirections(s, action.value), Reset(s.cooldown))
  }

  /**
   * Without an action, or before the cooldown has finished, nothing changes. A
   * taken move shifts every player by the movement and turns it that way, leaves
   * every other entity alone, and restarts the cooldown even with no players.
   */
  lemma MovePlayerEffect(s: PlayerState, action: Option<GridTransform>)
    requires MoveOk(s, action)
    ensures !Moves(s, action) ==> MovePlayerOutcome(s, action) == s
    ensures Moves(s, action) ==>
      var r := MovePlayerOutcome(s, action);
      var m := action.value;
      && r.players == s.players && r.position.Keys == s.position.Keys && r.direction.Keys == s.direction.Keys
      && (forall e :: InPlayerQuery(s, e) ==> CanSub(r.position[e], s.position[e]) && Sub(r.position[e], s.position[e]) == m && r.direction[e] == m)
      && (forall e :: e in s.position && !InPlayerQuery(s, e) ==> r.position[e] == s.position[e])
      && (forall e :: e in s.direction && !InPlayerQuery(s, e) ==> r.direction[e] == s.direction[e])
      && r.cooldown == Reset(s.cooldown)
  {
  }

  /** With a positive cooldown, a second call before any tick does nothing: at most one step per cooldown. */
  lemma OneStepPerCooldown(s: PlayerState, action: Option<GridTransform>)
    requires MoveOk(s, action) && s.cooldown.duration > 0
    ensures MoveOk(MovePlayerOutcome(s, action), action)
    ensures MovePlayerOutcome(MovePlayerOutcome(s, action), action) == MovePlayerOutcome(s, action)
  {
  }

  /**
   * The player loop of `move_player`, visiting the queried players in any
   * order: each one's position moves by `movement` and it faces `movement`.
   */
  method MoveAllPlayers(s: PlayerState, movement: GridTransform) returns (pos: map<Entity, GridTransform>, dir: map<Entity, GridTransform>)
    requires MoveFits(s, movement)
    ensures pos == MovedPositions(s, movement)
    ensures dir == TurnedDirections(s, movement)
  {
    ghost var moved := MovedPositions(s, movement);
    ghost var turned := TurnedDirections(s, movement);
    pos, dir := s.position, s.direction;
    var pending := set e | e in s.players && e in pos && e in dir;
    ghost var q := pending;
    while pending != {}
      invariant pending <= q && pos.Keys == moved.Keys && dir.Keys == turned.Keys
      invariant forall e :: e in moved ==> pos[e] == if e in q && e !in pending then moved[e] else s.position[e]
      invariant forall e :: e in turned ==> dir[e] == if e in q && e !in pending then turned[e] else s.direction[e]
      decreases pending
    {
      var e :| e in pending;
      assert InPlayerQuery(s, e) && pos[e] == s.position[e];
      pos := pos[e := Add(pos[e], movement)];
      dir := dir[e := movement];
      pending := pending - {e};
    }
  }

  /** The player entities and the cooldown resource. */
  class PlayerWorld {
    var players: set<Entity>
    var position: map<Entity, GridTransform>
    var direction: map<Entity, GridTransform>
    var cooldown: Timer

    function State(): PlayerState
      reads this
    {
      PlayerState(players, position, direction, cooldown)
    }

    /** The world as the rest of the game left it, with the cooldown resource freshly initialised. */
    constructor (players: set<Entity>, position: map<Entity, GridTransform>, direction: map<Entity, GridTransform>)
      ensures State() == PlayerState(players, position, direction, NewMovementCooldown())
    {
      this.players, this.position, this.direction := players, position, direction;
      cooldown := NewMovementCooldown();
    }

    /** `spawn_player`; `e` is the new entity. */
    method SpawnPlayer(e: Entity)
      requires e !in players && e !in position && e !in direction
      modifies this
      ensures State() == SpawnOutcome(old(State()), e)
    {
      players := players + {e};
      position := position[e := ZERO];
      direction := direction[e := SOUTH];
    }

    /** `tick_movement_cooldown`. */
    method TickMovementCooldown(delta: nat)
      modifies this
      ensures State() == old(State()).(cooldown := Tick(old(cooldown), delta))
    {
      cooldown := Tick(cooldown, delta);
    }

    /** `move_player`. */
    method MovePlayer(action: Option<GridTransform>)
      requires MoveOk(State(), action)
      modifies this
      ensures State() == MovePlayerOutcome(old(State()), action)
    {
      if action.None? {
        return;
      }
      if Finished(cooldown) {
        position, direction := MoveAllPlayers(State(), action.value);
        cooldown := Reset(cooldown);
      }
    }
  }
}
