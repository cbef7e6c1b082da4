/**
 * Menu grid navigation (src/menu.rs): the bounding box of a menu's elements,
 * the element index kept up to date when elements move, the cursor that steps
 * along a direction to the next element, and the interact rule that turns the
 * element under the cursor into a trigger event.
 */
module Menus {
  import opened Wrappers
  import opened GridTransforms
  import opened Timers
  import opened Ecs
  import opened Controls
  import Mobs

  /** `MenuMovementCooldown::default` lasts 0.1 s. */
  const MENU_COOLDOWN_MS: nat := 100

  // ---------------------------------------------------------------------------
  // GridBounds
  // ---------------------------------------------------------------------------

  datatype GridBounds = GridBounds(minX: I16, maxX: I16, minY: I16, maxY: I16)

  /** The bounds a box gets when none of its children is an element. */
  const ZERO_BOUNDS: GridBounds := GridBounds(0, 0, 0, 0)

  function MinI16(a: I16, b: I16): I16 { if a <= b then a else b }
  function MaxI16(a: I16, b: I16): I16 { if a >= b then a else b }

  /** `GridBounds::includes`. */
  predicate Includes(b: GridBounds, p: GridTransform) {
    b.minX <= p.x <= b.maxX && b.minY <= p.y <= b.maxY
  }

  /** Every position `inner` includes, `outer` includes too. */
  predicate Within(inner: GridBounds, outer: GridBounds) {
    outer.minX <= inner.minX && inner.maxX <= outer.maxX && outer.minY <= inner.minY && inner.maxY <= outer.maxY
  }

  /** `GridBounds::from_position`: the box holding exactly one position. */
  function FromPosition(p: GridTransform): (r: GridBounds)
    ensures forall q :: Includes(r, q) <==> q == p
  {
    GridBounds(p.x, p.x, p.y, p.y)
  }

  /**
   * `GridBounds::add_position`: grow the box to include `p`. The result is the
   * smallest box including both the old box and `p`.
   */
  function AddPosition(b: GridBounds, p: GridTransform): (r: GridBounds)
    ensures Includes(r, p)
    ensures forall q :: Includes(b, q) ==> Includes(r, q)
    ensures Includes(b, p) ==> r == b
    ensures forall g :: Includes(g, p) && Within(b, g) ==> Within(r, g)
  {
    GridBounds(MinI16(b.minX, p.x), MaxI16(b.maxX, p.x), MinI16(b.minY, p.y), MaxI16(b.maxY, p.y))
  }

  // ---------------------------------------------------------------------------
  // The element index
  // ---------------------------------------------------------------------------

  datatype MenuBox = MenuBox(elementsIndex: map<GridTransform, Entity>, gridBounds: GridBounds)

  datatype MenuCursor = MenuCursor(menuFocus: Entity, menuGridPosition: GridTransform)

  /** No entity is listed under two positions. */
  ghost predicate Injective(m: map<GridTransform, Entity>) {
    forall k1, k2 :: k1 in m && k2 in m && m[k1] == m[k2] ==> k1 == k2
  }

  /**
   * The index with `e` moved to `p`: its old entry is gone, and whatever was
   * listed at `p` before is overwritten.
   */
  function IndexElement(m: map<GridTransform, Entity>, e: Entity, p: GridTransform): (r: map<GridTransform, Entity>)
    ensures p in r && r[p] == e
    ensures forall k :: k in r && k != p ==> k in m && r[k] == m[k] && m[k] != e
    ensures forall k :: k in m && k != p && m[k] != e ==> k in r && r[k] == m[k]
  {
    (map k | k in m && m[k] != e :: m[k])[p := e]
  }

  /** Moving an element keeps every element listed at most once. */
  lemma IndexElementKeepsInjective(m: map<GridTransform, Entity>, e: Entity, p: GridTransform)
    requires Injective(m)
    ensures Injective(IndexElement(m, e, p))
  {
  }

  /**
   * While every element is listed at most once, the key the source finds for `e`
   * is its only one, so removing that key is removing every entry of `e`.
   */
  lemma RemovingTheOnlyKey(m: map<GridTransform, Entity>, e: Entity, k0: GridTransform, p: GridTransform)
    requires Injective(m) && k0 in m && m[k0] == e
    ensures IndexElement(m, e, p) == (m - {k0})[p := e]
  {
    var r := IndexElement(m, e, p);
    var s := (m - {k0})[p := e];
    assert forall k :: k in r <==> k in s;
    assert forall k :: k in r ==> r[k] == s[k];
  }

  /** The element's bounds as the child loop of the rebuild folds them, in child order. */
  function FoldBounds(acc: Option<GridBounds>, elements: map<Entity, GridTransform>, kids: seq<Entity>): (r: Option<GridBounds>)
    decreases |kids|
  {
    if kids == [] then acc
    else
      var c := kids[0];
      var next :=
        if c !in elements then acc
        else if acc.Some? then Some(AddPosition(acc.value, elements[c]))
        else Some(FromPosition(elements[c]));
      FoldBounds(next, elements, kids[1..])
  }

  /** The rebuilt bounds of one box, 0..0 when no child is an element. */
  function RebuiltBounds(elements: map<Entity, GridTransform>, kids: seq<Entity>): GridBounds {
    match FoldBounds(None, elements, kids)
    case Some(b) => b
    case None => ZERO_BOUNDS
  }

  /** The fold includes the start and every element child, and each edge comes from one of them. */
  lemma {:induction false} FoldBoundsTight(acc: Option<GridBounds>, elements: map<Entity, GridTransform>, kids: seq<Entity>)
    ensures var r := FoldBounds(acc, elements, kids);
      && (r.None? <==> acc.None? && forall c :: c in kids ==> c !in elements)
      && (r.Some? && acc.Some? ==> Within(acc.value, r.value))
      && (r.Some? ==> forall c :: c in kids && c in elements ==> Includes(r.value, elements[c]))
      && (r.Some? ==> (acc.Some? && r.value.minX == acc.value.minX) || exists c :: c in kids && c in elements && elements[c].x == r.value.minX)
      && (r.Some? ==> (acc.Some? && r.value.maxX == acc.value.maxX) || exists c :: c in kids && c in elements && elements[c].x == r.value.maxX)
      && (r.Some? ==> (acc.Some? && r.value.minY == acc.value.minY) || exists c :: c in kids && c in elements && elements[c].y == r.value.minY)
      && (r.Some? ==> (acc.Some? && r.value.maxY == acc.value.maxY) || exists c :: c in kids && c in elements && elements[c].y == r.value.maxY)
    decreases |kids|
  {
    if kids != [] {
      var c := kids[0];
      var next :=
        if c !in elements then acc
        else if acc.Some? then Some(AddPosition(acc.value, elements[c]))
        else Some(FromPosition(elements[c]));
      FoldBoundsTight(next, elements, kids[1..]);
      assert forall x :: x in kids <==> x == c || x in kids[1..];
    }
  }

  /**
   * After the rebuild a box's bounds are the tightest box around its element
   * children: each of them is included, each edge lies on one of them, and any
   * box including all of them includes the rebuilt one. With no element child
   * the bounds are 0..0.
   */
  lemma RebuiltBoundsTightest(elements: map<Entity, GridTransform>, kids: seq<Entity>)
    ensures (forall c :: c in kids ==> c !in elements) ==> RebuiltBounds(elements, kids) == ZERO_BOUNDS
    ensures var r := RebuiltBounds(elements, kids);
      (exists c :: c in kids && c in elements) ==>
        && (forall c :: c in kids && c in elements ==> Includes(r, elements[c]))
        && (forall g :: (forall c :: c in kids && c in elements ==> Includes(g, elements[c])) ==> Within(r, g))
  {
    FoldBoundsTight(None, elements, kids);
  }

  /** The box the changed element `e` belongs to, if its parent is a menu box with children. */
  function BoxOf(parent: map<Entity, Entity>, children: map<Entity, seq<Entity>>, elements: map<Entity, GridTransform>,
                 boxes: map<Entity, MenuBox>, e: Entity): Option<Entity>
  {
    if e in parent && e in elements && parent[e] in boxes && parent[e] in children then Some(parent[e]) else None
  }

  /** Re-index one changed element in its box, if it has one. */
  function IndexStep(parent: map<Entity, Entity>, children: map<Entity, seq<Entity>>, elements: map<Entity, GridTransform>,
                     boxes: map<Entity, MenuBox>, e: Entity): (r: map<Entity, MenuBox>)
    ensures r.Keys == boxes.Keys
    ensures forall b :: b in boxes ==> r[b].gridBounds == boxes[b].gridBounds
    ensures forall b :: b in boxes && BoxOf(parent, children, elements, boxes, e) != Some(b) ==> r[b] == boxes[b]
    ensures BoxOf(parent, children, elements, boxes, e).Some? ==>
      var b := BoxOf(parent, children, elements, boxes, e).value;
      r[b].elementsIndex == IndexElement(boxes[b].elementsIndex, e, elements[e])
    ensures (forall b :: b in boxes ==> Injective(boxes[b].elementsIndex)) ==> forall b :: b in r ==> Injective(r[b].elementsIndex)
  {
    match BoxOf(parent, children, elements, boxes, e)
    case Some(b) =>
      assert Injective(boxes[b].elementsIndex) ==> Injective(IndexElement(boxes[b].elementsIndex, e, elements[e])) by {
        if Injective(boxes[b].elementsIndex) {
          IndexElementKeepsInjective(boxes[b].elementsIndex, e, elements[e]);
        }
      }
      boxes[b := boxes[b].(elementsIndex := IndexElement(boxes[b].elementsIndex, e, elements[e]))]
    case None => boxes
  }

  /**
   * The first pass of `update_menu_grid_index`: re-index every changed element
   * and add its box to the boxes collected so far, `acc`.
   */
  function IndexPass(parent: map<Entity, Entity>, children: map<Entity, seq<Entity>>, elements: map<Entity, GridTransform>,
                     boxes: map<Entity, MenuBox>, acc: set<Entity>, changed: seq<Entity>): (r: (map<Entity, MenuBox>, set<Entity>))
    ensures r.0.Keys == boxes.Keys
    decreases |changed|
  {
    if changed == [] then (boxes, acc)
    else
      var e := changed[0];
      var found := BoxOf(parent, children, elements, boxes, e);
      IndexPass(parent, children, elements, IndexStep(parent, children, elements, boxes, e),
                acc + (if found.Some? then {found.value} else {}), changed[1..])
  }

  /** The first pass keeps the boxes and their bounds, collects nothing outside them and changes only collected boxes. */
  lemma {:induction false} IndexPassFrame(parent: map<Entity, Entity>, children: map<Entity, seq<Entity>>,
                                          elements: map<Entity, GridTransform>, boxes: map<Entity, MenuBox>,
                                          acc: set<Entity>, changed: seq<Entity>)
    ensures var r := IndexPass(parent, children, elements, boxes, acc, changed);
      && r.0.Keys == boxes.Keys && acc <= r.1 && r.1 <= acc + boxes.Keys
      && (forall b :: b in boxes ==> r.0[b].gridBounds == boxes[b].gridBounds)
      && (forall b :: b in boxes && b !in r.1 ==> r.0[b] == boxes[b])
    decreases |changed|
  {
    if changed != [] {
      var e := changed[0];
      var found := BoxOf(parent, children, elements, boxes, e);
      IndexPassFrame(parent, children, elements, IndexStep(parent, children, elements, boxes, e),
                     acc + (if found.Some? then {found.value} else {}), changed[1..]);
    }
  }

  /** The first pass collects the box of every changed element that has one. */
  lemma {:induction false} IndexPassCollects(parent: map<Entity, Entity>, children: map<Entity, seq<Entity>>,
                                             elements: map<Entity, GridTransform>, boxes: map<Entity, MenuBox>,
                                             acc: set<Entity>, changed: seq<Entity>)
    ensures var r := IndexPass(parent, children, elements, boxes, acc, changed);
      forall e :: e in changed && BoxOf(parent, children, elements, boxes, e).Some? ==>
        BoxOf(parent, children, elements, boxes, e).value in r.1
    decreases |changed|
  {
    if changed != [] {
      var e := changed[0];
      var found := BoxOf(parent, children, elements, boxes, e);
      var next := IndexStep(parent, children, elements, boxes, e);
      var acc' := acc + (if found.Some? then {found.value} else {});
      IndexPassCollects(parent, children, elements, next, acc', changed[1..]);
      IndexPassFrame(parent, children, elements, next, acc', changed[1..]);
      assert forall x :: x in changed ==> x == e || x in changed[1..];
      assert forall x :: BoxOf(parent, children, elements, next, x) == BoxOf(parent, children, elements, boxes, x);
    }
  }

  /** The first pass keeps every index injective. */
  lemma {:induction false} IndexPassInjective(parent: map<Entity, Entity>, children: map<Entity, seq<Entity>>,
                                              elements: map<Entity, GridTransform>, boxes: map<Entity, MenuBox>,
                                              acc: set<Entity>, changed: seq<Entity>)
    requires forall b :: b in boxes ==> Injective(boxes[b].elementsIndex)
    ensures var r := IndexPass(parent, children, elements, boxes, acc, changed);
      forall b :: b in r.0 ==> Injective(r.0[b].elementsIndex)
    decreases |changed|
  {
    if changed != [] {
      var e := changed[0];
      var found := BoxOf(parent, children, elements, boxes, e);
      var next := IndexStep(parent, children, elements, boxes, e);
      var acc' := acc + (if found.Some? then {found.value} else {});
      assert forall b :: b in next ==> Injective(next[b].elementsIndex);
      IndexPassInjective(parent, children, elements, next, acc', changed[1..]);
      assert IndexPass(parent, children, elements, boxes, acc, changed) == IndexPass(parent, children, elements, next, acc', changed[1..]);
    }
  }

  /** The second pass: every collected box gets the rebuilt bounds of its children. */
  function BoundsPass(children: map<Entity, seq<Entity>>, elements: map<Entity, GridTransform>,
                      boxes: map<Entity, MenuBox>, updated: set<Entity>): map<Entity, MenuBox>
  {
    map b | b in boxes :: if b in updated && b in children then boxes[b].(gridBounds := RebuiltBounds(elements, children[b])) else boxes[b]
  }

  /** A whole `update_menu_grid_index` call. */
  function UpdateMenuGridIndexOutcome(parent: map<Entity, Entity>, children: map<Entity, seq<Entity>>,
                                      elements: map<Entity, GridTransform>, boxes: map<Entity, MenuBox>,
                                      changed: seq<Entity>): map<Entity, MenuBox>
  {
    var first := IndexPass(parent, children, elements, boxes, {}, changed);
    BoundsPass(children, elements, first.0, first.1)
  }

  /**
   * After `update_menu_grid_index` the same boxes exist and the box of every
   * changed element has the tightest bounds around its element children.
   */
  lemma UpdateMenuGridIndexRebuilds(parent: map<Entity, Entity>, children: map<Entity, seq<Entity>>,
                                    elements: map<Entity, GridTransform>, boxes: map<Entity, MenuBox>,
                                    changed: seq<Entity>)
    ensures var r := UpdateMenuGridIndexOutcome(parent, children, elements, boxes, changed);
      && r.Keys == boxes.Keys
      && (forall e :: e in changed && BoxOf(parent, children, elements, boxes, e).Some? ==>
            var b := BoxOf(parent, children, elements, boxes, e).value;
            r[b].gridBounds == RebuiltBounds(elements, children[b]))
  {
    IndexPassFrame(parent, children, elements, boxes, {}, changed);
    IndexPassCollects(parent, children, elements, boxes, {}, changed);
  }

  /** A box none of the changed elements belongs to is left exactly as it was. */
  lemma UpdateMenuGridIndexUntouched(parent: map<Entity, Entity>, children: map<Entity, seq<Entity>>,
                                     elements: map<Entity, GridTransform>, boxes: map<Entity, MenuBox>,
                                     changed: seq<Entity>, b: Entity)
    requires b in boxes && forall e :: e in changed ==> BoxOf(parent, children, elements, boxes, e) != Some(b)
    ensures var r := UpdateMenuGridIndexOutcome(parent, children, elements, boxes, changed);
      b in r && r[b] == boxes[b]
  {
    IndexPassFrame(parent, children, elements, boxes, {}, changed);
    IndexPassCollectsOnlyBoxesOf(parent, children, elements, boxes, {}, changed, b);
  }

  /** Every index still lists each element at most once. */
  lemma UpdateMenuGridIndexKeepsInjective(parent: map<Entity, Entity>, children: map<Entity, seq<Entity>>,
                                          elements: map<Entity, GridTransform>, boxes: map<Entity, MenuBox>,
                                          changed: seq<Entity>)
    requires forall b :: b in boxes ==> Injective(boxes[b].elementsIndex)
    ensures var r := UpdateMenuGridIndexOutcome(parent, children, elements, boxes, changed);
      forall b :: b in r ==> Injective(r[b].elementsIndex)
  {
    IndexPassFrame(parent, children, elements, boxes, {}, changed);
    IndexPassInjective(parent, children, elements, boxes, {}, changed);
  }

  /**
   * After `update_menu_grid_index` the box of each changed element lists it under
   * its new position and no other key; the entry there is that element unless a
   * later changed element of the same box has the same position.
   */
  lemma UpdateMenuGridIndexPlaces(parent: map<Entity, Entity>, children: map<Entity, seq<Entity>>,
                                  elements: map<Entity, GridTransform>, boxes: map<Entity, MenuBox>,
                                  changed: seq<Entity>)
    ensures var r := UpdateMenuGridIndexOutcome(parent, children, elements, boxes, changed);
      forall i :: 0 <= i < |changed| && BoxOf(parent, children, elements, boxes, changed[i]).Some? ==>
        var e := changed[i];
        var b := BoxOf(parent, children, elements, boxes, e).value;
        var idx := r[b].elementsIndex;
        && (forall k :: k in idx && idx[k] == e ==> k == elements[e])
        && elements[e] in idx
        && (idx[elements[e]] == e || ChangedAt(parent, children, elements, boxes, changed[i + 1..], b, elements[e]))
  {
    forall i | 0 <= i < |changed| && BoxOf(parent, children, elements, boxes, changed[i]).Some? {
      IndexPassPlaces(parent, children, elements, boxes, {}, changed, i);
    }
  }

  /**
   * Afterwards every entry of a box's index is an old one or a changed element of
   * the box under its new position, and an entry whose element did not change
   * is still there unless a changed element of the box took its position.
   */
  lemma UpdateMenuGridIndexEntries(parent: map<Entity, Entity>, children: map<Entity, seq<Entity>>,
                                   elements: map<Entity, GridTransform>, boxes: map<Entity, MenuBox>,
                                   changed: seq<Entity>, b: Entity)
    requires b in boxes
    ensures var idx := UpdateMenuGridIndexOutcome(parent, children, elements, boxes, changed)[b].elementsIndex;
      var before := boxes[b].elementsIndex;
      && (forall k :: k in idx ==>
            (k in before && idx[k] == before[k])
            || (idx[k] in changed && BoxOf(parent, children, elements, boxes, idx[k]) == Some(b) && elements[idx[k]] == k))
      && (forall k :: k in before && before[k] !in changed ==>
            k in idx && (idx[k] == before[k] || ChangedAt(parent, children, elements, boxes, changed, b, k)))
  {
    IndexPassEntries(parent, children, elements, boxes, {}, changed, b);
    forall k | k in boxes[b].elementsIndex && boxes[b].elementsIndex[k] !in changed {
      IndexPassKeepsEntry(parent, children, elements, boxes, {}, changed, b, k);
    }
  }

  /** Some changed element belongs to box `b` and has the new position `k`. */
  ghost predicate ChangedAt(parent: map<Entity, Entity>, children: map<Entity, seq<Entity>>, elements: map<Entity, GridTransform>,
                            boxes: map<Entity, MenuBox>, changed: seq<Entity>, b: Entity, k: GridTransform)
  {
    exists x :: x in changed && BoxOf(parent, children, elements, boxes, x) == Some(b) && elements[x] == k
  }

  /** An element listed in box `b` at its own position only stays so through the first pass. */
  lemma {:induction false} IndexPassKeepsOwnKey(parent: map<Entity, Entity>, children: map<Entity, seq<Entity>>,
                                                elements: map<Entity, GridTransform>, boxes: map<Entity, MenuBox>,
                                                acc: set<Entity>, changed: seq<Entity>, b: Entity, e: Entity)
    requires b in boxes && e in elements
    requires forall k :: k in boxes[b].elementsIndex && boxes[b].elementsIndex[k] == e ==> k == elements[e]
    ensures var idx := IndexPass(parent, children, elements, boxes, acc, changed).0[b].elementsIndex;
      forall k :: k in idx && idx[k] == e ==> k == elements[e]
    decreases |changed|
  {
    if changed != [] {
      var x := changed[0];
      var found := BoxOf(parent, children, elements, boxes, x);
      var next := IndexStep(parent, children, elements, boxes, x);
      var acc' := acc + (if found.Some? then {found.value} else {});
      forall k | k in next[b].elementsIndex && next[b].elementsIndex[k] == e
        ensures k == elements[e]
      {
        if found == Some(b) && k != elements[x] {
          assert boxes[b].elementsIndex[k] == e;
        }
      }
      IndexPassKeepsOwnKey(parent, children, elements, next, acc', changed[1..], b, e);
      assert IndexPass(parent, children, elements, boxes, acc, changed) == IndexPass(parent, children, elements, next, acc', changed[1..]);
    }
  }

  /**
   * An entry at `k` survives the first pass, either as it was or overwritten by a
   * changed element of the box whose new position is `k`, as long as its own
   * element, if changed, moves to `k` again.
   */
  lemma {:induction false} IndexPassKeepsEntry(parent: map<Entity, Entity>, children: map<Entity, seq<Entity>>,
                                               elements: map<Entity, GridTransform>, boxes: map<Entity, MenuBox>,
                                               acc: set<Entity>, changed: seq<Entity>, b: Entity, k: GridTransform)
    requires b in boxes && k in boxes[b].elementsIndex
    requires var v := boxes[b].elementsIndex[k];
      v in changed && BoxOf(parent, children, elements, boxes, v) == Some(b) ==> elements[v] == k
    ensures var idx := IndexPass(parent, children, elements, boxes, acc, changed).0[b].elementsIndex;
      k in idx && (idx[k] == boxes[b].elementsIndex[k] || ChangedAt(parent, children, elements, boxes, changed, b, k))
    decreases |changed|
  {
    if changed != [] {
      var x := changed[0];
      var rest := changed[1..];
      var found := BoxOf(parent, children, elements, boxes, x);
      var next := IndexStep(parent, children, elements, boxes, x);
      var acc' := acc + (if found.Some? then {found.value} else {});
      assert forall y :: BoxOf(parent, children, elements, next, y) == BoxOf(parent, children, elements, boxes, y);
      assert forall y :: y in rest ==> y in changed;
      var v := boxes[b].elementsIndex[k];
      if found == Some(b) && elements[x] == k {
        assert next[b].elementsIndex[k] == x;
        IndexPassKeepsEntry(parent, children, elements, next, acc', rest, b, k);
      } else {
        assert next[b].elementsIndex[k] == v;
        IndexPassKeepsEntry(parent, children, elements, next, acc', rest, b, k);
      }
      var idx := IndexPass(parent, children, elements, next, acc', rest).0[b].elementsIndex;
      if ChangedAt(parent, children, elements, next, rest, b, k) {
        var y :| y in rest && BoxOf(parent, children, elements, next, y) == Some(b) && elements[y] == k;
        assert y in changed;
      }
    }
  }

  /** Every entry after the first pass is an old one, or a changed element of the box under its new position. */
  lemma {:induction false} IndexPassEntries(parent: map<Entity, Entity>, children: map<Entity, seq<Entity>>,
                                            elements: map<Entity, GridTransform>, boxes: map<Entity, MenuBox>,
                                            acc: set<Entity>, changed: seq<Entity>, b: Entity)
    requires b in boxes
    ensures var idx := IndexPass(parent, children, elements, boxes, acc, changed).0[b].elementsIndex;
      forall k :: k in idx ==>
        (k in boxes[b].elementsIndex && idx[k] == boxes[b].elementsIndex[k])
        || (idx[k] in changed && BoxOf(parent, children, elements, boxes, idx[k]) == Some(b) && elements[idx[k]] == k)
    decreases |changed|
  {
    if changed != [] {
      var x := changed[0];
      var rest := changed[1..];
      var found := BoxOf(parent, children, elements, boxes, x);
      var next := IndexStep(parent, children, elements, boxes, x);
      var acc' := acc + (if found.Some? then {found.value} else {});
      assert forall y :: BoxOf(parent, children, elements, next, y) == BoxOf(parent, children, elements, boxes, y);
      assert forall y :: y in rest ==> y in changed;
      IndexPassEntries(parent, children, elements, next, acc', rest, b);
    }
  }

  /**
   * The first pass re-indexes the changed element `changed[i]`: in its box it is
   * listed under no key but its new position, and the entry there is that
   * element unless a later changed element of the same box has the same position.
   */
  lemma {:induction false} IndexPassPlaces(parent: map<Entity, Entity>, children: map<Entity, seq<Entity>>,
                                           elements: map<Entity, GridTransform>, boxes: map<Entity, MenuBox>,
                                           acc: set<Entity>, changed: seq<Entity>, i: nat)
    requires i < |changed| && BoxOf(parent, children, elements, boxes, changed[i]).Some?
    ensures var e := changed[i];
      var b := BoxOf(parent, children, elements, boxes, e).value;
      var idx := IndexPass(parent, children, elements, boxes, acc, changed).0[b].elementsIndex;
      && (forall k :: k in idx && idx[k] == e ==> k == elements[e])
      && elements[e] in idx
      && (idx[elements[e]] == e || ChangedAt(parent, children, elements, boxes, changed[i + 1..], b, elements[e]))
    decreases |changed|
  {
    var x := changed[0];
    var rest := changed[1..];
    var found := BoxOf(parent, children, elements, boxes, x);
    var next := IndexStep(parent, children, elements, boxes, x);
    var acc' := acc + (if found.Some? then {found.value} else {});
    assert forall y :: BoxOf(parent, children, elements, next, y) == BoxOf(parent, children, elements, boxes, y);
    if i == 0 {
      var b := found.value;
      IndexPassKeepsOwnKey(parent, children, elements, next, acc', rest, b, x);
      IndexPassKeepsEntry(parent, children, elements, next, acc', rest, b, elements[x]);
    } else {
      assert rest[i - 1] == changed[i] && rest[i..] == changed[i + 1..];
      IndexPassPlaces(parent, children, elements, next, acc', rest, i - 1);
    }
  }

  /** A box is collected only if one of the changed elements belongs to it. */
  lemma {:induction false} IndexPassCollectsOnlyBoxesOf(parent: map<Entity, Entity>, children: map<Entity, seq<Entity>>,
                                                       elements: map<Entity, GridTransform>, boxes: map<Entity, MenuBox>,
                                                       acc: set<Entity>, changed: seq<Entity>, b: Entity)
    requires b !in acc
    requires forall e :: e in changed ==> BoxOf(parent, children, elements, boxes, e) != Some(b)
    ensures b !in IndexPass(parent, children, elements, boxes, acc, changed).1
    decreases |changed|
  {
    if changed != [] {
      var e := changed[0];
      var next := IndexStep(parent, children, elements, boxes, e);
      forall x | x in changed[1..]
        ensures BoxOf(parent, children, elements, next, x) != Some(b)
      {
        assert x in changed;
      }
      var found := BoxOf(parent, children, elements, boxes, e);
      IndexPassCollectsOnlyBoxesOf(parent, children, elements, next, acc + (if found.Some? then {found.value} else {}), changed[1..], b);
    }
  }

  // ---------------------------------------------------------------------------
  // Cursor movement
  // ---------------------------------------------------------------------------

  /** The movement of a control; Interact has none (the source's `continue`). */
  function MovementOf(c: GameControl): (r: Option<GridTransform>)
    ensures r.Some? <==> c != Interact
    ensures r.Some? ==> IsCardinal(r.value)
  {
    match c
    case Up => Some(NORTH)
    case Down => Some(SOUTH)
    case Left => Some(WEST)
    case Right => Some(EAST)
    case Interact => None
  }

  /** How many more steps along `m` stay inside the bounds. */
  function Room(b: GridBounds, p: GridTransform, m: GridTransform): int
    requires IsCardinal(m)
  {
    if m == EAST then b.maxX - p.x
    else if m == WEST then p.x - b.minX
    else if m == NORTH then b.maxY - p.y
    else p.y - b.minY
  }

  /** The stepping loop, from the candidate `q` on, never overflows. */
  ghost predicate WalkOk(box: MenuBox, q: GridTransform, m: GridTransform)
    requires IsCardinal(m)
    decreases if Includes(box.gridBounds, q) then Room(box.gridBounds, q, m) + 1 else 0
  {
    Includes(box.gridBounds, q) && q !in box.elementsIndex ==> CanAdd(q, m) && WalkOk(box, Add(q, m), m)
  }

  /** Where the stepping loop of `menu_move_control` stops: out of bounds, or on an element. */
  function Walk(box: MenuBox, q: GridTransform, m: GridTransform): (r: GridTransform)
    requires IsCardinal(m) && WalkOk(box, q, m)
    ensures !Includes(box.gridBounds, r) || r in box.elementsIndex
    decreases if Includes(box.gridBounds, q) then Room(box.gridBounds, q, m) + 1 else 0
  {
    if Includes(box.gridBounds, q) && q !in box.elementsIndex then Walk(box, Add(q, m), m) else q
  }

  /** `x` lies on the line through `p` along `m`. */
  predicate OnLine(p: GridTransform, x: GridTransform, m: GridTransform)
    requires IsCardinal(m)
  {
    if m.x == 0 then x.x == p.x else x.y == p.y
  }

  /** How many steps along `m` lead from `p` to `x`. */
  function Ahead(p: GridTransform, x: GridTransform, m: GridTransform): int
    requires IsCardinal(m)
  {
    if m == EAST then x.x - p.x
    else if m == WEST then p.x - x.x
    else if m == NORTH then x.y - p.y
    else p.y - x.y
  }

  /** Every position strictly between `p` and the `n`-th step from it is in bounds and holds no element. */
  ghost predicate ClearBefore(box: MenuBox, p: GridTransform, m: GridTransform, n: int)
    requires IsCardinal(m)
  {
    forall x :: OnLine(p, x, m) && 1 <= Ahead(p, x, m) < n ==> Includes(box.gridBounds, x) && x !in box.elementsIndex
  }

  lemma {:induction false} WalkScans(box: MenuBox, p: GridTransform, q: GridTransform, m: GridTransform)
    requires IsCardinal(m) && WalkOk(box, q, m)
    requires OnLine(p, q, m) && Ahead(p, q, m) >= 1 && ClearBefore(box, p, m, Ahead(p, q, m))
    ensures var r := Walk(box, q, m);
      OnLine(p, r, m) && Ahead(p, r, m) >= Ahead(p, q, m) && ClearBefore(box, p, m, Ahead(p, r, m))
    decreases if Includes(box.gridBounds, q) then Room(box.gridBounds, q, m) + 1 else 0
  {
    if Includes(box.gridBounds, q) && q !in box.elementsIndex {
      var q' := Add(q, m);
      assert Ahead(p, q', m) == Ahead(p, q, m) + 1;
      assert forall x :: OnLine(p, x, m) && Ahead(p, x, m) == Ahead(p, q, m) ==> x == q;
      WalkScans(box, p, q', m);
    }
  }

  /** The cursor's walk starting one step ahead of it never overflows. */
  ghost predicate CursorOk(boxes: map<Entity, MenuBox>, cursor: MenuCursor, m: GridTransform)
    requires IsCardinal(m)
  {
    cursor.menuFocus in boxes ==>
      CanAdd(cursor.menuGridPosition, m) && WalkOk(boxes[cursor.menuFocus], Add(cursor.menuGridPosition, m), m)
  }

  /** Where one cursor moves for movement `m`, or None if it stays. */
  function CursorTarget(boxes: map<Entity, MenuBox>, cursor: MenuCursor, m: GridTransform): Option<GridTransform>
    requires IsCardinal(m) && CursorOk(boxes, cursor, m)
  {
    if cursor.menuFocus !in boxes then None
    else
      var box := boxes[cursor.menuFocus];
      var next := Walk(box, Add(cursor.menuGridPosition, m), m);
      if Includes(box.gridBounds, next) && next in box.elementsIndex then Some(next) else None
  }

  /**
   * A cursor either stays or moves to the first element along the direction: the
   * target is in bounds and holds an element, it lies ahead on the cursor's line,
   * and every position strictly between is in bounds but empty. When it stays
   * (and its box exists), the walk left the bounds with no element on the way.
   */
  lemma CursorTargetIsFirstElement(boxes: map<Entity, MenuBox>, cursor: MenuCursor, m: GridTransform)
    requires IsCardinal(m) && CursorOk(boxes, cursor, m)
    ensures var t := CursorTarget(boxes, cursor, m);
      var p := cursor.menuGridPosition;
      t.Some? ==>
        var box := boxes[cursor.menuFocus];
        && Includes(box.gridBounds, t.value) && t.value in box.elementsIndex
        && OnLine(p, t.value, m) && Ahead(p, t.value, m) >= 1
        && ClearBefore(box, p, m, Ahead(p, t.value, m))
    ensures var t := CursorTarget(boxes, cursor, m);
      var p := cursor.menuGridPosition;
      t.None? && cursor.menuFocus in boxes ==>
        var box := boxes[cursor.menuFocus];
        var r := Walk(box, Add(p, m), m);
        && !Includes(box.gridBounds, r)
        && OnLine(p, r, m) && Ahead(p, r, m) >= 1
        && ClearBefore(box, p, m, Ahead(p, r, m))
  {
    if cursor.menuFocus in boxes {
      var box := boxes[cursor.menuFocus];
      var p := cursor.menuGridPosition;
      WalkScans(box, p, Add(p, m), m);
    }
  }

  /** Every cursor can take its walk for movement `m`. */
  ghost predicate CursorsOk(boxes: map<Entity, MenuBox>, cursors: map<Entity, MenuCursor>, m: GridTransform)
    requires IsCardinal(m)
  {
    forall c :: c in cursors ==> CursorOk(boxes, cursors[c], m)
  }

  /** One cursor after movement `m`: it keeps its box, and it moves to its target, which is never where it stands, or stays. */
  function MovedCursor(boxes: map<Entity, MenuBox>, cursor: MenuCursor, m: GridTransform): (r: MenuCursor)
    requires IsCardinal(m) && CursorOk(boxes, cursor, m)
    ensures r.menuFocus == cursor.menuFocus
    ensures CursorTarget(boxes, cursor, m).None? ==> r == cursor
    ensures CursorTarget(boxes, cursor, m).Some? ==>
      r.menuGridPosition == CursorTarget(boxes, cursor, m).value && r.menuGridPosition != cursor.menuGridPosition
  {
    CursorTargetIsFirstElement(boxes, cursor, m);
    match CursorTarget(boxes, cursor, m)
    case Some(p) => cursor.(menuGridPosition := p)
    case None => cursor
  }

  /**
   * One movement event applied to every cursor: each cursor becomes its moved
   * cursor, and the cooldown restarts exactly when some cursor changed position.
   */
  function MoveCursors(boxes: map<Entity, MenuBox>, cursors: map<Entity, MenuCursor>, cooldown: Timer, m: GridTransform): (r: (map<Entity, MenuCursor>, Timer))
    requires IsCardinal(m) && CursorsOk(boxes, cursors, m)
    ensures r.0.Keys == cursors.Keys
    ensures forall c :: c in cursors ==> r.0[c] == MovedCursor(boxes, cursors[c], m)
    ensures r.1 == if exists c :: c in cursors && r.0[c] != cursors[c] then Reset(cooldown) else cooldown
  {
    var moved := map c | c in cursors :: MovedCursor(boxes, cursors[c], m);
    assert (exists c :: c in cursors && CursorTarget(boxes, cursors[c], m).Some?) <==>
           (exists c :: c in cursors && moved[c] != cursors[c]);
    (moved, if exists c :: c in cursors && CursorTarget(boxes, cursors[c], m).Some? then Reset(cooldown) else cooldown)
  }

  /** The events `menu_move_control` acts on. */
  predicate IsMenuMove(ev: GameControlEvent) {
    IsJustPressed(ev) && IsMovement(ev)
  }

  /** No menu move in the list overflows. */
  ghost predicate MenuMovesOk(boxes: map<Entity, MenuBox>, cursors: map<Entity, MenuCursor>, events: seq<GameControlEvent>)
    decreases |events|
  {
    events == [] ||
      var ev := events[0];
      if IsMenuMove(ev) then
        var m := MovementOf(ev.control).value;
        CursorsOk(boxes, cursors, m) && MenuMovesOk(boxes, MoveCursors(boxes, cursors, OnceTimer(0), m).0, events[1..])
      else MenuMovesOk(boxes, cursors, events[1..])
  }

  /** Some newly pressed movement of the list moves some cursor to a new position. */
  ghost predicate AnyCursorMoves(boxes: map<Entity, MenuBox>, cursors: map<Entity, MenuCursor>, events: seq<GameControlEvent>)
    requires MenuMovesOk(boxes, cursors, events)
    decreases |events|
  {
    events != [] &&
      var ev := events[0];
      if IsMenuMove(ev) then
        var next := MoveCursors(boxes, cursors, OnceTimer(0), MovementOf(ev.control).value).0;
        next != cursors || AnyCursorMoves(boxes, next, events[1..])
      else AnyCursorMoves(boxes, cursors, events[1..])
  }

  /** The event loop of `menu_move_control`: the cooldown restarts exactly when some event moves some cursor. */
  function MenuMoves(boxes: map<Entity, MenuBox>, cursors: map<Entity, MenuCursor>, cooldown: Timer, events: seq<GameControlEvent>): (r: (map<Entity, MenuCursor>, Timer))
    requires MenuMovesOk(boxes, cursors, events)
    ensures r.0.Keys == cursors.Keys
    ensures r.1 == cooldown || r.1 == Reset(cooldown)
    ensures r.1 == if AnyCursorMoves(boxes, cursors, events) then Reset(cooldown) else cooldown
    decreases |events|
  {
    if events == [] then (cursors, cooldown)
    else
      var ev := events[0];
      if IsMenuMove(ev) then
        var m := MovementOf(ev.control).value;
        var step := MoveCursors(boxes, cursors, cooldown, m);
        assert step.0 == MoveCursors(boxes, cursors, OnceTimer(0), m).0;
        var rest := MenuMoves(boxes, step.0, step.1, events[1..]);
        assert Reset(Reset(cooldown)) == Reset(cooldown);
        rest
      else MenuMoves(boxes, cursors, cooldown, events[1..])
  }

  /** A whole `menu_move_control` call: tick the cooldown first, then process the events. */
  function MenuMoveOutcome(boxes: map<Entity, MenuBox>, cursors: map<Entity, MenuCursor>, cooldown: Timer,
                           events: seq<GameControlEvent>, delta: nat): (map<Entity, MenuCursor>, Timer)
    requires MenuMovesOk(boxes, cursors, events)
  {
    MenuMoves(boxes, cursors, Tick(cooldown, delta), events)
  }

  /** Events that are not newly pressed movements change nothing. */
  lemma {:induction false} MenuMovesIgnoresOthers(boxes: map<Entity, MenuBox>, cursors: map<Entity, MenuCursor>, cooldown: Timer, events: seq<GameControlEvent>)
    requires forall i :: 0 <= i < |events| ==> !IsMenuMove(events[i])
    ensures MenuMovesOk(boxes, cursors, events)
    ensures MenuMoves(boxes, cursors, cooldown, events) == (cursors, cooldown)
    decreases |events|
  {
    if events != [] {
      assert !IsMenuMove(events[0]);
      forall i | 0 <= i < |events[1..]|
        ensures !IsMenuMove(events[1..][i])
      {
        assert events[1..][i] == events[i + 1];
      }
      MenuMovesIgnoresOthers(boxes, cursors, cooldown, events[1..]);
    }
  }

  /**
   * The cooldown restarts only on an actual move: if no event moves a cursor,
   * the cursors and the cooldown are untouched; if any cursor ends up elsewhere,
   * some event moved one and the cooldown was restarted.
   */
  lemma {:induction false} MenuCooldownResetOnMove(boxes: map<Entity, MenuBox>, cursors: map<Entity, MenuCursor>, cooldown: Timer, events: seq<GameControlEvent>)
    requires MenuMovesOk(boxes, cursors, events)
    ensures !AnyCursorMoves(boxes, cursors, events) ==> MenuMoves(boxes, cursors, cooldown, events) == (cursors, cooldown)
    ensures MenuMoves(boxes, cursors, cooldown, events).0 != cursors ==>
      AnyCursorMoves(boxes, cursors, events) && MenuMoves(boxes, cursors, cooldown, events).1 == Reset(cooldown)
    decreases |events|
  {
    if events != [] {
      var ev := events[0];
      if IsMenuMove(ev) {
        var m := MovementOf(ev.control).value;
        var step := MoveCursors(boxes, cursors, cooldown, m);
        assert step.0 == MoveCursors(boxes, cursors, OnceTimer(0), m).0;
        MenuCooldownResetOnMove(boxes, step.0, step.1, events[1..]);
      } else {
        MenuCooldownResetOnMove(boxes, cursors, cooldown, events[1..]);
      }
    }
  }

  // ---------------------------------------------------------------------------
  // Interact
  // ---------------------------------------------------------------------------

  /** `order` is an iteration order of the cursor query: each cursor once. */
  ghost predicate CursorOrder(cursors: map<Entity, MenuCursor>, order: seq<Entity>) {
    (forall i, j :: 0 <= i < j < |order| ==> order[i] != order[j]) && forall c :: c in order <==> c in cursors
  }

  /** The element under a cursor, if its box lists one there. */
  function CursorElement(boxes: map<Entity, MenuBox>, cursor: MenuCursor): Option<Entity> {
    if cursor.menuFocus in boxes && cursor.menuGridPosition in boxes[cursor.menuFocus].elementsIndex
    then Some(boxes[cursor.menuFocus].elementsIndex[cursor.menuGridPosition])
    else None
  }

  /** The cursor loop of `menu_interact_control`, over the cursors in iteration order. */
  function CursorTriggers(boxes: map<Entity, MenuBox>, cursors: map<Entity, MenuCursor>, tagged: set<Entity>, order: seq<Entity>): (r: seq<Mobs.TriggerEvent>)
    requires forall i :: 0 <= i < |order| ==> order[i] in cursors
    decreases |order|
  {
    if order == [] then []
    else
      var n := |order| - 1;
      var c := order[n];
      var found := CursorElement(boxes, cursors[c]);
      CursorTriggers(boxes, cursors, tagged, order[..n])
        + if found.Some? && found.value in tagged then [Mobs.TriggerEvent(c, found.value)] else []
  }

  /** A whole `menu_interact_control` call. */
  function MenuInteractOutcome(boxes: map<Entity, MenuBox>, cursors: map<Entity, MenuCursor>, tagged: set<Entity>,
                               events: seq<GameControlEvent>, stateChanged: bool, order: seq<Entity>): seq<Mobs.TriggerEvent>
    requires forall i :: 0 <= i < |order| ==> order[i] in cursors
  {
    if HasJustPressedInteract(events) && !stateChanged then CursorTriggers(boxes, cursors, tagged, order) else []
  }

  /**
   * `menu_interact_control` sends a trigger from a cursor to an element exactly
   * when Interact was newly pressed, the state did not just change, and the
   * element is under that cursor and carries TriggerOnMenuInteract.
   */
  lemma {:induction false} MenuInteractMeaning(boxes: map<Entity, MenuBox>, cursors: map<Entity, MenuCursor>, tagged: set<Entity>,
                                             events: seq<GameControlEvent>, stateChanged: bool, order: seq<Entity>, ev: Mobs.TriggerEvent)
    requires forall i :: 0 <= i < |order| ==> order[i] in cursors
    ensures ev in MenuInteractOutcome(boxes, cursors, tagged, events, stateChanged, order) <==>
      && HasJustPressedInteract(events) && !stateChanged
      && ev.triggering in order
      && CursorElement(boxes, cursors[ev.triggering]) == Some(ev.triggered)
      && ev.triggered in tagged
  {
    if HasJustPressedInteract(events) && !stateChanged {
      CursorTriggersMeaning(boxes, cursors, tagged, order, ev);
    }
  }

  lemma {:induction false} CursorTriggersMeaning(boxes: map<Entity, MenuBox>, cursors: map<Entity, MenuCursor>, tagged: set<Entity>,
                                               order: seq<Entity>, ev: Mobs.TriggerEvent)
    requires forall i :: 0 <= i < |order| ==> order[i] in cursors
    ensures ev in CursorTriggers(boxes, cursors, tagged, order) <==>
      && ev.triggering in order
      && CursorElement(boxes, cursors[ev.triggering]) == Some(ev.triggered)
      && ev.triggered in tagged
    decreases |order|
  {
    if order != [] {
      var n := |order| - 1;
      CursorTriggersMeaning(boxes, cursors, tagged, order[..n], ev);
      assert forall x :: x in order <==> x in order[..n] || x == order[n];
    }
  }

  // ---------------------------------------------------------------------------
  // The world the menu systems run on
  // ---------------------------------------------------------------------------

  class MenuWorld {
    /** The `Parent` of each entity, the `Children` of each, and each MenuElement's grid position. */
    const parent: map<Entity, Entity>
    const children: map<Entity, seq<Entity>>
    const elements: map<Entity, GridTransform>
    /** The entities carrying TriggerOnMenuInteract. */
    const tagged: set<Entity>
    var boxes: map<Entity, MenuBox>
    var cursors: map<Entity, MenuCursor>
    var cooldown: Timer

    /** The cooldown resource starts as a fresh 0.1 s one-shot timer. */
    constructor (parent: map<Entity, Entity>, children: map<Entity, seq<Entity>>, elements: map<Entity, GridTransform>,
                 tagged: set<Entity>, boxes: map<Entity, MenuBox>, cursors: map<Entity, MenuCursor>)
      ensures this.parent == parent && this.children == children && this.elements == elements && this.tagged == tagged
      ensures this.boxes == boxes && this.cursors == cursors && cooldown == OnceTimer(MENU_COOLDOWN_MS)
    {
      this.parent, this.children, this.elements, this.tagged := parent, children, elements, tagged;
      this.boxes, this.cursors := boxes, cursors;
      cooldown := OnceTimer(MENU_COOLDOWN_MS);
    }

    /** Every box lists each element at most once. */
    ghost predicate IndexesInjective()
      reads this
    {
      forall b :: b in boxes ==> Injective(boxes[b].elementsIndex)
    }

    /** `update_menu_grid_index`, over the changed elements in query order. */
    method UpdateMenuGridIndex(changed: seq<Entity>)
      requires IndexesInjective()
      modifies this
      ensures boxes == UpdateMenuGridIndexOutcome(parent, children, elements, old(boxes), changed)
      ensures cursors == old(cursors) && cooldown == old(cooldown)
      ensures IndexesInjective()
    {
      var bx := boxes;
      var updated: set<Entity> := {};
      ghost var goal := IndexPass(parent, children, elements, bx, updated, changed);
      var rest := changed;
      while rest != []
        invariant unchanged(this)
        invariant forall b :: b in bx ==> Injective(bx[b].elementsIndex)
        invariant goal == IndexPass(parent, children, elements, bx, updated, rest)
        decreases |rest|
      {
        var e := rest[0];
        var found := BoxOf(parent, children, elements, bx, e);
        ghost var here: set<Entity> := if found.Some? then {found.value} else {};
        assert IndexPass(parent, children, elements, bx, updated, rest)
          == IndexPass(parent, children, elements, IndexStep(parent, children, elements, bx, e), updated + here, rest[1..]);
        bx := IndexOne(bx, e);
        if found.Some? {
          updated := updated + {found.value};
        } else {
          assert updated + here == updated;
        }
        rest := rest[1..];
      }
      IndexPassInjective(parent, children, elements, old(boxes), {}, changed);
      boxes := bx;
      RebuildAll(updated);
    }

    /** The body of the first loop: move one changed element's entry in its box's index. */
    method IndexOne(bx: map<Entity, MenuBox>, e: Entity) returns (r: map<Entity, MenuBox>)
      requires forall b :: b in bx ==> Injective(bx[b].elementsIndex)
      ensures r == IndexStep(parent, children, elements, bx, e)
    {
      r := bx;
      if e in parent && e in elements && parent[e] in bx && parent[e] in children {
        var b := parent[e];
        var idx := bx[b].elementsIndex;
        ghost var before := idx;
        if k :| k in idx && idx[k] == e {
          RemovingTheOnlyKey(idx, e, k, elements[e]);
          idx := idx - {k};
        } else {
          assert IndexElement(before, e, elements[e]) == idx[elements[e] := e];
        }
        idx := idx[elements[e] := e];
        r := bx[b := bx[b].(elementsIndex := idx)];
      }
    }

    /** The second pass of `update_menu_grid_index`. */
    method RebuildAll(updated: set<Entity>)
      modifies this
      ensures boxes == BoundsPass(children, elements, old(boxes), updated)
      ensures cursors == old(cursors) && cooldown == old(cooldown)
      ensures forall b :: b in boxes ==> boxes[b].elementsIndex == old(boxes)[b].elementsIndex
    {
      ghost var b1 := boxes;
      var pending := updated;
      while pending != {}
        invariant pending <= updated && boxes.Keys == b1.Keys
        invariant cursors == old(cursors) && cooldown == old(cooldown)
        invariant forall b :: b in b1 ==>
          boxes[b] == if b in updated && b !in pending && b in children then b1[b].(gridBounds := RebuiltBounds(elements, children[b])) else b1[b]
        decreases pending
      {
        var b :| b in pending;
        if b in children && b in boxes {
          var bounds := ChildBounds(children[b]);
          boxes := boxes[b := boxes[b].(gridBounds := bounds)];
        }
        pending := pending - {b};
      }
    }

    /** The child loop of the rebuild: fold the element children's positions into a box, 0..0 if there are none. */
    method ChildBounds(kids: seq<Entity>) returns (bounds: GridBounds)
      ensures bounds == RebuiltBounds(elements, kids)
    {
      var maybeBounds: Option<GridBounds> := None;
      for j := 0 to |kids|
        invariant FoldBounds(None, elements, kids) == FoldBounds(maybeBounds, elements, kids[j..])
      {
        assert kids[j..][0] == kids[j] && kids[j..][1..] == kids[j + 1..];
        var child := kids[j];
        if child in elements {
          if maybeBounds.Some? {
            maybeBounds := Some(AddPosition(maybeBounds.value, elements[child]));
          } else {
            maybeBounds := Some(FromPosition(elements[child]));
          }
        }
      }
      assert kids[|kids|..] == [];
      bounds := match maybeBounds case Some(b) => b case None => ZERO_BOUNDS;
    }

    /** `menu_move_control`: tick the cooldown, then move the cursors for each newly pressed movement. */
    method MenuMoveControl(events: seq<GameControlEvent>, delta: nat)
      requires MenuMovesOk(boxes, cursors, events)
      modifies this
      ensures (cursors, cooldown) == MenuMoveOutcome(old(boxes), old(cursors), old(cooldown), events, delta)
      ensures boxes == old(boxes)
    {
      cooldown := Tick(cooldown, delta);
      var i := 0;
      assert events[0..] == events;
      while i < |events|
        invariant 0 <= i <= |events| && boxes == old(boxes)
        invariant MenuMovesOk(boxes, cursors, events[i..])
        invariant MenuMoveOutcome(old(boxes), old(cursors), old(cooldown), events, delta) == MenuMoves(boxes, cursors, cooldown, events[i..])
      {
        assert events[i..][0] == events[i] && events[i..][1..] == events[i + 1..];
        var ev := events[i];
        if IsJustPressed(ev) && IsMovement(ev) {
          var movement := MovementOf(ev.control);
          if movement.Some? {
            assert MoveCursors(boxes, cursors, cooldown, movement.value).0 == MoveCursors(boxes, cursors, OnceTimer(0), movement.value).0;
            StepCursors(movement.value);
          }
        }
        i := i + 1;
      }
      assert events[|events|..] == [];
    }

    /** The cursor loop for one movement. */
    method StepCursors(m: GridTransform)
      requires IsCardinal(m) && CursorsOk(boxes, cursors, m)
      modifies this
      ensures (cursors, cooldown) == MoveCursors(old(boxes), old(cursors), old(cooldown), m)
      ensures boxes == old(boxes)
    {
      ghost var c0 := cursors;
      ghost var t0 := cooldown;
      var cs, cd := cursors, cooldown;
      var moved := false;
      var pending := cs.Keys;
      while pending != {}
        invariant unchanged(this)
        invariant pending <= c0.Keys && cs.Keys == c0.Keys
        invariant forall c :: c in c0 ==> cs[c] == if c in pending then c0[c] else MovedCursor(boxes, c0[c], m)
        invariant moved <==> exists c :: c in c0 && c !in pending && CursorTarget(boxes, c0[c], m).Some?
        invariant cd == if moved then Reset(t0) else t0
        decreases pending
      {
        var c :| c in pending;
        assert cs[c] == c0[c];
        var target := WalkCursor(cs[c], m);
        if target.Some? {
          cs := cs[c := cs[c].(menuGridPosition := target.value)];
          cd := Reset(cd);
          moved := true;
        }
        pending := pending - {c};
      }
      assert cs == MoveCursors(boxes, c0, t0, m).0;
      cursors, cooldown := cs, cd;
    }

    /** The stepping loop for one cursor: walk until out of bounds or onto an element. */
    method WalkCursor(cursor: MenuCursor, m: GridTransform) returns (target: Option<GridTransform>)
      requires IsCardinal(m) && CursorOk(boxes, cursor, m)
      ensures target == CursorTarget(boxes, cursor, m)
    {
      target := None;
      if cursor.menuFocus in boxes {
        var box := boxes[cursor.menuFocus];
        var nextPos := Add(cursor.menuGridPosition, m);
        ghost var start := nextPos;
        while Includes(box.gridBounds, nextPos) && nextPos !in box.elementsIndex
          invariant WalkOk(box, nextPos, m) && Walk(box, nextPos, m) == Walk(box, start, m)
          decreases if Includes(box.gridBounds, nextPos) then Room(box.gridBounds, nextPos, m) + 1 else 0
        {
          nextPos := Add(nextPos, m);
        }
        if Includes(box.gridBounds, nextPos) && nextPos in box.elementsIndex {
          target := Some(nextPos);
        }
      }
    }

    /** `menu_interact_control`, over the cursors in iteration order; changes nothing. */
    method MenuInteractControl(events: seq<GameControlEvent>, stateChanged: bool, order: seq<Entity>) returns (out: seq<Mobs.TriggerEvent>, unread: seq<GameControlEvent>)
      requires CursorOrder(cursors, order)
      requires forall i :: 0 <= i < |order| ==> order[i] in cursors
      ensures out == MenuInteractOutcome(boxes, cursors, tagged, events, stateChanged, order)
      ensures unread == UnreadAfterInteract(events)
    {
      out := [];
      var found := false;
      var i := 0;
      while i < |events| && !found
        invariant 0 <= i <= |events|
        invariant found ==> HasJustPressedInteract(events)
        invariant !found ==> forall j :: 0 <= j < i ==> !(IsJustPressed(events[j]) && events[j].control == Interact)
        invariant found ==> FirstJustPressedInteract(events) == Some(i - 1)
      {
        if IsJustPressed(events[i]) && events[i].control == Interact {
          found := true;
        }
        i := i + 1;
      }
      unread := if found then events[i..] else [];
      if !found || stateChanged {
        return;
      }
      for k := 0 to |order|
        invariant out == CursorTriggers(boxes, cursors, tagged, order[..k])
      {
        assert order[..k + 1][..k] == order[..k];
        var c := order[k];
        var cursor := cursors[c];
        if cursor.menuFocus in boxes {
          var box := boxes[cursor.menuFocus];
          if cursor.menuGridPosition in box.elementsIndex {
            var element := box.elementsIndex[cursor.menuGridPosition];
            if element in tagged {
              out := out + [Mobs.TriggerEvent(c, element)];
            }
          }
        }
      }
      assert order[..|order|] == order;
    }
  }
}
