/**
 * The player's movement action (src/actions/mod.rs): the held direction keys
 * become at most one cardinal movement, a later check overriding an earlier one.
 */
module PlayerActions {
  import opened Wrappers
  import opened GridTransforms

  /** Which of the four movement controls are held this frame. */
  datatype HeldControls = HeldControls(up: bool, down: bool, left: bool, right: bool)

  /** The movement the keys select, read as a priority: Right, then Left, then Down, then Up. */
  function MovementFor(k: HeldControls): Option<GridTransform> {
    if k.right then Some(EAST)
    else if k.left then Some(WEST)
    else if k.down then Some(SOUTH)
    else if k.up then Some(NORTH)
    else None
  }

  /**
   * There is a movement exactly when some direction is held, it is always one
   * of the four unit steps, and opposite keys cancel to the later check: Up with
   * Down goes south, Left with Right goes east.
   */
  lemma MovementForMeaning(k: HeldControls)
    ensures MovementFor(k).None? <==> !k.up && !k.down && !k.left && !k.right
    ensures MovementFor(k).Some? ==> IsCardinal(MovementFor(k).value) && MovementFor(k).value != ZERO
    ensures k.up && k.down && !k.left && !k.right ==> MovementFor(k) == Some(SOUTH)
    ensures k.left && k.right ==> MovementFor(k) == Some(EAST)
  {
  }

  /** The `Actions` resource. */
  class Actions {
    var playerMovement: Option<GridTransform>

    constructor ()
      ensures playerMovement == None
    {
      playerMovement := None;
    }

    /** `set_movement_actions`: successive checks overwrite a local movement, ZERO meaning none. */
    method SetMovementActions(k: HeldControls)
      modifies this
      ensures playerMovement == MovementFor(k)
    {
      var movement := ZERO;
      if k.up { movement := NORTH; }
      if k.down { movement := SOUTH; }
      if k.left { movement := WEST; }
      if k.right { movement := EAST; }
      if movement != ZERO {
        playerMovement := Some(movement);
      } else {
        playerMovement := None;
      }
    }
  }
}
