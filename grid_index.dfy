/**
 * The spatial index `GridIndex` that the mob systems query and update
 * (src/mob.rs:199, 213, 250, 292). Its definition is not part of the modelled
 * files; it is modelled abstractly as a map from tiles to the ordered list of
 * entities on them, in which a miss reads as the empty list and `update(e, p)`
 * moves `e` into the bucket of `p`.
 */
module GridIndexes {
  import opened GridTransforms
  import opened Ecs

  datatype GridIndex = GridIndex(buckets: map<GridTransform, seq<Entity>>)

  const EMPTY_INDEX: GridIndex := GridIndex(map[])

  /** `GridIndex::get`: the occupants of `p`, empty for an unindexed tile. */
  function Get(idx: GridIndex, p: GridTransform): (r: seq<Entity>)
    ensures p !in idx.buckets ==> r == []
  {
    if p in idx.buckets then idx.buckets[p] else []
  }

  predicate NoDuplicates(s: seq<Entity>) {
    forall i, j :: 0 <= i < j < |s| ==> s[i] != s[j]
  }

  /** `s` with every occurrence of `e` removed, order kept. */
  function Without(s: seq<Entity>, e: Entity): (r: seq<Entity>)
    ensures forall x :: x in r <==> x in s && x != e
    ensures NoDuplicates(s) ==> NoDuplicates(r)
  {
    if s == [] then []
    else
      var rest := Without(s[1..], e);
      if s[0] == e then rest
      else
        ConsNoDuplicates(s, rest);
        [s[0]] + rest
  }

  /** Putting in front of `rest` the head of a duplicate-free `s` whose tail covers `rest` keeps it duplicate-free. */
  lemma ConsNoDuplicates(s: seq<Entity>, rest: seq<Entity>)
    requires s != [] && forall x :: x in rest ==> x in s[1..]
    requires NoDuplicates(s) ==> NoDuplicates(rest)
    ensures NoDuplicates(s) ==> NoDuplicates([s[0]] + rest)
  {
    if NoDuplicates(s) {
      assert forall k :: 0 <= k < |s[1..]| ==> s[1..][k] == s[k + 1];
      assert s[0] !in s[1..];
      forall i, j | 0 <= i < j < |[s[0]] + rest|
        ensures ([s[0]] + rest)[i] != ([s[0]] + rest)[j]
      {
        if i == 0 {
          assert ([s[0]] + rest)[j] == rest[j - 1];
        } else {
          assert ([s[0]] + rest)[i] == rest[i - 1] && ([s[0]] + rest)[j] == rest[j - 1];
        }
      }
    }
  }

  /**
   * `GridIndex::update(e, p)`: `e` leaves whatever bucket held it (a bucket left
   * empty disappears) and is appended to the bucket of `p`.
   */
  function Update(idx: GridIndex, e: Entity, p: GridTransform): GridIndex {
    var cleaned := map q | q in idx.buckets && Without(idx.buckets[q], e) != [] :: Without(idx.buckets[q], e);
    GridIndex(cleaned[p := Without(Get(idx, p), e) + [e]])
  }

  /**
   * The index's own invariant: no bucket is kept empty, no bucket lists an
   * entity twice, and no entity is in two buckets.
   */
  ghost predicate Wf(idx: GridIndex) {
    && (forall p :: p in idx.buckets ==> idx.buckets[p] != [] && NoDuplicates(idx.buckets[p]))
    && (forall p, q, e :: p in idx.buckets && q in idx.buckets && e in idx.buckets[p] && e in idx.buckets[q] ==> p == q)
  }

  lemma EmptyIndexWf()
    ensures Wf(EMPTY_INDEX)
    ensures forall p :: Get(EMPTY_INDEX, p) == []
  {
  }

  lemma {:induction false} WithoutAbsent(s: seq<Entity>, e: Entity)
    requires e !in s
    ensures Without(s, e) == s
  {
    if s != [] {
      WithoutAbsent(s[1..], e);
    }
  }

  lemma {:induction false} WithoutAppended(s: seq<Entity>, e: Entity)
    ensures Without(s + [e], e) == Without(s, e)
  {
    if s == [] {
      assert Without([e], e) == [] + Without([], e);
    } else {
      assert (s + [e])[1..] == s[1..] + [e];
      WithoutAppended(s[1..], e);
    }
  }

  /** What `get` sees after `update(e, p)`: `e` last in the bucket of `p` and gone from every other. */
  lemma UpdateGet(idx: GridIndex, e: Entity, p: GridTransform, q: GridTransform)
    ensures Get(Update(idx, e, p), q) == if q == p then Without(Get(idx, p), e) + [e] else Without(Get(idx, q), e)
  {
  }

  /** After `update(e, p)`, `e` is on `p` and on no other tile; other entities stay where they were. */
  lemma UpdateLocates(idx: GridIndex, e: Entity, p: GridTransform)
    ensures e in Get(Update(idx, e, p), p)
    ensures forall q :: q != p ==> e !in Get(Update(idx, e, p), q)
    ensures forall q, x :: x != e ==> (x in Get(Update(idx, e, p), q) <==> x in Get(idx, q))
  {
    forall q, x | x != e
      ensures x in Get(Update(idx, e, p), q) <==> x in Get(idx, q)
    {
      UpdateGet(idx, e, p, q);
    }
    forall q | q != p
      ensures e !in Get(Update(idx, e, p), q)
    {
      UpdateGet(idx, e, p, q);
    }
  }

  /** `update` keeps the index's invariant. */
  lemma UpdateWf(idx: GridIndex, e: Entity, p: GridTransform)
    requires Wf(idx)
    ensures Wf(Update(idx, e, p))
  {
    var r := Update(idx, e, p);
    forall q | q in r.buckets
      ensures r.buckets[q] != [] && NoDuplicates(r.buckets[q])
    {
      UpdateGet(idx, e, p, q);
      if q == p {
        var w := Without(Get(idx, p), e);
        assert e !in w;
        assert NoDuplicates(w + [e]) by {
          forall i, j | 0 <= i < j < |w + [e]|
            ensures (w + [e])[i] != (w + [e])[j]
          {
            if j == |w| {
              assert (w + [e])[i] == w[i];
            } else {
              assert (w + [e])[i] == w[i] && (w + [e])[j] == w[j];
            }
          }
        }
      }
    }
    forall q1, q2, x | q1 in r.buckets && q2 in r.buckets && x in r.buckets[q1] && x in r.buckets[q2]
      ensures q1 == q2
    {
      UpdateGet(idx, e, p, q1);
      UpdateGet(idx, e, p, q2);
      if x == e {
        assert q1 == p && q2 == p;
      } else {
        assert x in Get(idx, q1) && x in Get(idx, q2);
      }
    }
  }

  /** Updating an entity to the same tile twice is the same as once. */
  lemma UpdateIdempotent(idx: GridIndex, e: Entity, p: GridTransform)
    ensures Update(Update(idx, e, p), e, p) == Update(idx, e, p)
  {
    var r1 := Update(idx, e, p);
    var r2 := Update(r1, e, p);
    forall q
      ensures Get(r2, q) == Get(r1, q)
    {
      UpdateGet(r1, e, p, q);
      UpdateGet(idx, e, p, q);
      if q == p {
        WithoutAppended(Without(Get(idx, p), e), e);
        WithoutAbsent(Without(Get(idx, p), e), e);
      } else {
        WithoutAbsent(Without(Get(idx, q), e), e);
      }
    }
    assert r2.buckets.Keys == r1.buckets.Keys by {
      forall q | q in r1.buckets
        ensures q in r2.buckets
      {
        if q != p {
          WithoutAbsent(r1.buckets[q], e);
        }
      }
    }
    assert r2.buckets == r1.buckets by {
      forall q | q in r1.buckets
        ensures r2.buckets[q] == r1.buckets[q]
      {
        assert Get(r2, q) == Get(r1, q);
      }
    }
  }
}
