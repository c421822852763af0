/**
 * A wall between two grid cells (src/mlap_prog/Wall.java): an unordered
 * pair, compared by Object.equals, and membership in a list of walls as
 * ArrayList.contains decides it.
 */
module Walls {
  import opened Cells

  /** The two cells a wall separates, in the order they were given. */
  datatype Wall = Wall(c1: Pos, c2: Pos)
  {
    function GetFirstCell(): Pos
    {
      c1
    }

    function GetSecondCell(): Pos
    {
      c2
    }
  }

  /** The argument of equals(Object): either a Wall or any other object. */
  datatype Object = WallObject(wall: Wall) | NonWall

  /** Wall.equals as written: the other object is a Wall whose cells match
      this wall's cells in the same or in the swapped order.  The source
      compares cells by identity; one Cell exists per coordinate, so
      comparing coordinates is the same test. */
  predicate Equals(w: Wall, o: Object)
  {
    match o
    case WallObject(v) =>
      (v.GetFirstCell() == w.c1 && v.GetSecondCell() == w.c2) ||
      (v.GetFirstCell() == w.c2 && v.GetSecondCell() == w.c1)
    case NonWall => false
  }

  /** The getters hand back the constructor's arguments. */
  lemma GettersReturnArguments(a: Pos, b: Pos)
    ensures Wall(a, b).GetFirstCell() == a && Wall(a, b).GetSecondCell() == b
  {
  }

  /** Two walls are equal exactly when they separate the same set of cells. */
  lemma EqualsIsSameCellSet(w: Wall, v: Wall)
    ensures Equals(w, WallObject(v)) <==> {w.c1, w.c2} == {v.c1, v.c2}
  {
    if {w.c1, w.c2} == {v.c1, v.c2} {
      assert v.c1 in {w.c1, w.c2} && v.c2 in {w.c1, w.c2};
      assert w.c1 in {v.c1, v.c2} && w.c2 in {v.c1, v.c2};
    }
  }

  /** The order in which the cells are given does not matter. */
  lemma EqualsOrderIndependent(a: Pos, b: Pos)
    ensures Equals(Wall(a, b), WallObject(Wall(b, a)))
    ensures Equals(Wall(b, a), WallObject(Wall(a, b)))
  {
  }

  lemma EqualsReflexive(w: Wall)
    ensures Equals(w, WallObject(w))
  {
  }

  lemma EqualsSymmetric(w: Wall, v: Wall)
    ensures Equals(w, WallObject(v)) <==> Equals(v, WallObject(w))
  {
  }

  lemma EqualsTransitive(u: Wall, v: Wall, w: Wall)
    requires Equals(u, WallObject(v)) && Equals(v, WallObject(w))
    ensures Equals(u, WallObject(w))
  {
    EqualsIsSameCellSet(u, v);
    EqualsIsSameCellSet(v, w);
    EqualsIsSameCellSet(u, w);
  }

  /** No wall equals an object that is not a wall. */
  lemma NeverEqualsNonWall(w: Wall)
    ensures !Equals(w, NonWall)
  {
  }

  /** ArrayList.contains(w): some element e of the list has w.equals(e),
      tried from the front. */
  function Contains(walls: seq<Wall>, w: Wall): (r: bool)
    ensures r <==> exists i :: 0 <= i < |walls| && Equals(w, WallObject(walls[i]))
  {
    if walls == [] then false
    else Equals(w, WallObject(walls[0])) || Contains(walls[1..], w)
  }

  /** Whether a wall is in the list depends only on the pair of cells, not on
      their order. */
  lemma ContainsOrderIndependent(walls: seq<Wall>, a: Pos, b: Pos)
    ensures Contains(walls, Wall(a, b)) <==> Contains(walls, Wall(b, a))
  {
    if Contains(walls, Wall(a, b)) {
      var i :| 0 <= i < |walls| && Equals(Wall(a, b), WallObject(walls[i]));
      assert Equals(Wall(b, a), WallObject(walls[i]));
    }
    if Contains(walls, Wall(b, a)) {
      var i :| 0 <= i < |walls| && Equals(Wall(b, a), WallObject(walls[i]));
      assert Equals(Wall(a, b), WallObject(walls[i]));
    }
  }
}
