/**
 * Connections between two tiles and the diagonal-crossing test
 * (src/graph/connection.rs). `Connection::new(a, b)` is the datatype
 * constructor `Connection(a, b)`, which stores both ends unchanged.
 */
module Connections {
  import opened GridTransforms

  datatype Connection = Connection(a: GridTransform, b: GridTransform)

  /** Computing the direction `b - a` does not overflow. */
  predicate HasDirection(c: Connection) {
    CanSub(c.b, c.a)
  }

  predicate IsDiagonal(c: Connection)
    requires HasDirection(c)
  {
    var dir := Sub(c.b, c.a);
    dir.x != 0 && dir.y != 0
  }

  /**
   * `Connection::crosses`: a diagonal connection is crossed by the connection
   * between the two corner tiles it passes between, in either orientation;
   * a horizontal, vertical or zero-length connection crosses nothing.
   */
  function Crosses(c: Connection, other: Connection): bool
    requires HasDirection(c)
  {
    var dir := Sub(c.b, c.a);
    if dir.x != 0 && dir.y != 0 then
      var intermediateX := GridTransform(c.a.x + dir.x, c.a.y);
      var intermediateY := GridTransform(c.a.x, c.a.y + dir.y);
      other == Connection(intermediateX, intermediateY)
        || other == Connection(intermediateY, intermediateX)
    else
      false
  }

  /** The connection between the two corners a diagonal connection cuts between. */
  function CornerConnection(c: Connection): Connection {
    Connection(GridTransform(c.b.x, c.a.y), GridTransform(c.a.x, c.b.y))
  }

  function Reverse(c: Connection): Connection {
    Connection(c.b, c.a)
  }

  /** A diagonal connection crosses exactly the corner connection and its reverse, and those two differ. */
  lemma CrossesExactly(c: Connection, d: Connection)
    requires HasDirection(c)
    ensures Crosses(c, d) <==> IsDiagonal(c) && (d == CornerConnection(c) || d == Reverse(CornerConnection(c)))
    ensures IsDiagonal(c) ==> CornerConnection(c) != Reverse(CornerConnection(c))
  {
  }

  /** A connection with a zero component in its direction crosses nothing. */
  lemma StraightCrossesNothing(c: Connection, d: Connection)
    requires HasDirection(c)
    requires c.a.x == c.b.x || c.a.y == c.b.y
    ensures !Crosses(c, d)
  {
  }

  /** No connection crosses itself. */
  lemma CrossesIrreflexive(c: Connection)
    requires HasDirection(c)
    ensures !Crosses(c, c)
  {
  }

  /** Crossing is symmetric. */
  lemma CrossesSymmetric(c: Connection, d: Connection)
    requires HasDirection(c) && HasDirection(d)
    ensures Crosses(c, d) == Crosses(d, c)
  {
    CrossesExactly(c, d);
    CrossesExactly(d, c);
  }

  /** Reversing a connection does not change what it crosses. */
  lemma CrossesReversal(c: Connection, d: Connection)
    requires HasDirection(c) && HasDirection(Reverse(c))
    ensures Crosses(Reverse(c), d) == Crosses(c, d)
  {
    CrossesExactly(c, d);
    CrossesExactly(Reverse(c), d);
  }
}
