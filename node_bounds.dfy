/**
 * The running min/max of the grid positions of graph nodes
 * (src/display/node_bounds.rs).
 */
module NodeBounds {
  import opened GridTransforms

  /** The four fields of `BoundsTracker`, as a value. */
  datatype Extent = Extent(minX: I16, maxX: I16, minY: I16, maxY: I16)

  /** `BoundsTracker::default`: every field is 0. */
  const DEFAULT_EXTENT: Extent := Extent(0, 0, 0, 0)

  function MinI16(a: I16, b: I16): I16 { if a <= b then a else b }
  function MaxI16(a: I16, b: I16): I16 { if a >= b then a else b }

  /** `BoundsTracker::update`. */
  function UpdateExtent(b: Extent, x: I16, y: I16): (r: Extent)
    ensures r.minX <= x <= r.maxX && r.minY <= y <= r.maxY
    ensures r.minX <= b.minX && b.maxX <= r.maxX && r.minY <= b.minY && b.maxY <= r.maxY
  {
    Extent(MinI16(b.minX, x), MaxI16(b.maxX, x), MinI16(b.minY, y), MaxI16(b.maxY, y))
  }

  /** Repeating an update changes nothing. */
  lemma UpdateIdempotent(b: Extent, x: I16, y: I16)
    ensures UpdateExtent(UpdateExtent(b, x, y), x, y) == UpdateExtent(b, x, y)
  {
  }

  /** The updates of `update_bounds`, in query order. */
  function UpdateAll(b: Extent, ps: seq<GridTransform>): Extent
    decreases |ps|
  {
    if ps == [] then b
    else
      var p := ps[|ps| - 1];
      UpdateExtent(UpdateAll(b, ps[..|ps| - 1]), p.x, p.y)
  }

  /**
   * After any updates every position lies inside, the minimums have not grown
   * and the maximums have not shrunk, and each edge is either the starting one
   * or the coordinate of some update.
   */
  lemma {:induction false} UpdateAllBounds(b: Extent, ps: seq<GridTransform>)
    ensures var r := UpdateAll(b, ps);
      && (forall p :: p in ps ==> r.minX <= p.x <= r.maxX && r.minY <= p.y <= r.maxY)
      && r.minX <= b.minX && b.maxX <= r.maxX && r.minY <= b.minY && b.maxY <= r.maxY
      && (r.minX == b.minX || exists p :: p in ps && p.x == r.minX)
      && (r.maxX == b.maxX || exists p :: p in ps && p.x == r.maxX)
      && (r.minY == b.minY || exists p :: p in ps && p.y == r.minY)
      && (r.maxY == b.maxY || exists p :: p in ps && p.y == r.maxY)
    decreases |ps|
  {
    if ps != [] {
      var n := |ps| - 1;
      UpdateAllBounds(b, ps[..n]);
      assert forall p :: p in ps <==> p in ps[..n] || p == ps[n];
    }
  }

  /**
   * Updates are idempotent and their order does not matter: any two sequences
   * of the same positions give the same bounds.
   */
  lemma UpdateAllOrderIndependent(b: Extent, ps: seq<GridTransform>, qs: seq<GridTransform>)
    requires forall p :: p in ps <==> p in qs
    ensures UpdateAll(b, ps) == UpdateAll(b, qs)
  {
    UpdateAllBounds(b, ps);
    UpdateAllBounds(b, qs);
  }

  /** Starting from the default, the origin stays inside whatever is added. */
  lemma DefaultKeepsOrigin(ps: seq<GridTransform>)
    ensures var r := UpdateAll(DEFAULT_EXTENT, ps);
      r.minX <= 0 <= r.maxX && r.minY <= 0 <= r.maxY
  {
    UpdateAllBounds(DEFAULT_EXTENT, ps);
  }

  /** The `BoundsTracker` resource. */
  class BoundsTracker {
    var minX: I16
    var maxX: I16
    var minY: I16
    var maxY: I16

    function Value(): Extent
      reads this
    {
      Extent(minX, maxX, minY, maxY)
    }

    constructor ()
      ensures Value() == DEFAULT_EXTENT
    {
      minX, maxX, minY, maxY := 0, 0, 0, 0;
    }

    /** `update`: widen each field to the new coordinate. */
    method Update(x: I16, y: I16)
      modifies this
      ensures Value() == UpdateExtent(old(Value()), x, y)
    {
      minX := MinI16(minX, x);
      maxX := MaxI16(maxX, x);
      minY := MinI16(minY, y);
      maxY := MaxI16(maxY, y);
    }

    /** `update_bounds`: one `update` per changed node, in query order. */
    method UpdateBounds(changed: seq<GridTransform>)
      modifies this
      ensures Value() == UpdateAll(old(Value()), changed)
    {
      for i := 0 to |changed|
        invariant Value() == UpdateAll(old(Value()), changed[..i])
      {
        assert changed[..i + 1][..i] == changed[..i];
        Update(changed[i].x, changed[i].y);
      }
      assert changed[..|changed|] == changed;
    }
  }
}
