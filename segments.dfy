/** The snake's body as the game stores it: two parallel coordinate
    sequences xs and ys, segment i at (xs[i], ys[i]), the head at index 0 and
    the first n entries making up the body. These functions say what the
    scanning and shifting loops of the game compute. */
module Segments {
  import opened Board

  /** c coincides with one of the first n segments: the test of the
      food-spawning loop. */
  predicate OnSnake(xs: seq<int>, ys: seq<int>, n: int, c: Point)
    requires 0 <= n <= |xs| && n <= |ys|
  {
    exists i :: 0 <= i < n && xs[i] == c.x && ys[i] == c.y
  }

  /** A board cell that none of the first n segments covers. */
  predicate FreeCell(xs: seq<int>, ys: seq<int>, n: int, c: Point)
    requires 0 <= n <= |xs| && n <= |ys|
  {
    OnGrid(c) && !OnSnake(xs, ys, n, c)
  }

  /** There is a free cell for the food, and, when an obstacle is due as
      well, a second one: the food may take either, so the obstacle's loop
      ends whatever the food's loop drew exactly when two free cells exist. */
  ghost predicate Room(xs: seq<int>, ys: seq<int>, n: int, obstacleDue: bool)
    requires 0 <= n <= |xs| && n <= |ys|
  {
    if obstacleDue then
      exists c, d :: c != d && FreeCell(xs, ys, n, c) && FreeCell(xs, ys, n, d)
    else
      exists c :: FreeCell(xs, ys, n, c)
  }

  /** Room for the food alone follows from room for food and obstacle. */
  lemma RoomHasFreeCell(xs: seq<int>, ys: seq<int>, n: int, obstacleDue: bool)
    requires 0 <= n <= |xs| && n <= |ys|
    requires Room(xs, ys, n, obstacleDue)
    ensures exists c :: FreeCell(xs, ys, n, c)
  {
    if obstacleDue {
      var c, d :| c != d && FreeCell(xs, ys, n, c) && FreeCell(xs, ys, n, d);
      assert FreeCell(xs, ys, n, c);
    }
  }

  /** The head shares its cell with one of the segments 1..n. Index n is
      included, as in the collision loop. */
  predicate HitsBody(xs: seq<int>, ys: seq<int>, n: int)
    requires 0 <= n < |xs| && n < |ys|
  {
    exists i :: 1 <= i <= n && xs[i] == xs[0] && ys[i] == ys[0]
  }

  /** The first n segments sit on pairwise different cells. */
  ghost predicate Distinct(xs: seq<int>, ys: seq<int>, n: int)
    requires 0 <= n <= |xs| && n <= |ys|
  {
    forall i, j :: 0 <= i < j < n ==> xs[i] != xs[j] || ys[i] != ys[j]
  }

  /** The first n segments all sit on cells of the board. */
  ghost predicate AllOnGrid(xs: seq<int>, ys: seq<int>, n: int)
    requires 0 <= n <= |xs| && n <= |ys|
  {
    forall i :: 0 <= i < n ==> OnGrid(Point(xs[i], ys[i]))
  }

  /** One coordinate sequence after a move: entries 1..n take the value of
      their predecessor, entry 0 takes the new head coordinate h, and the
      entries above n keep theirs. */
  function Shift(a: seq<int>, n: int, h: int): (r: seq<int>)
    requires 0 <= n < |a|
    ensures |r| == |a|
    ensures r[0] == h
    ensures forall i :: 1 <= i <= n ==> r[i] == a[i - 1]
    ensures forall i :: n < i < |a| ==> r[i] == a[i]
  {
    seq(|a|, i requires 0 <= i < |a| => if i == 0 then h else if i <= n then a[i - 1] else a[i])
  }

  /** After a move, a cell is covered by the first n + 1 segments exactly
      when it is the new head or was covered by the first n before. */
  lemma ShiftOnSnake(xs: seq<int>, ys: seq<int>, n: int, h: Point, c: Point)
    requires 0 <= n < |xs| && n < |ys|
    ensures OnSnake(Shift(xs, n, h.x), Shift(ys, n, h.y), n + 1, c)
        <==> c == h || OnSnake(xs, ys, n, c)
  {
    var sx, sy := Shift(xs, n, h.x), Shift(ys, n, h.y);
    if OnSnake(sx, sy, n + 1, c) {
      var i :| 0 <= i < n + 1 && sx[i] == c.x && sy[i] == c.y;
      if i > 0 {
        assert xs[i - 1] == c.x && ys[i - 1] == c.y;
      }
    }
    if c == h {
      assert sx[0] == c.x && sy[0] == c.y;
    } else if OnSnake(xs, ys, n, c) {
      var i :| 0 <= i < n && xs[i] == c.x && ys[i] == c.y;
      assert sx[i + 1] == c.x && sy[i + 1] == c.y;
    }
  }

  /** A move that does not run the head into its body keeps a body of
      distinct board cells distinct and on the board; the body is then m
      segments long, one more than before if it grew on the same tick. */
  lemma ShiftKeepsSnake(xs: seq<int>, ys: seq<int>, n: int, h: Point, m: int)
    requires 0 <= n <= m <= n + 1 && m < |xs| && m < |ys|
    requires Distinct(xs, ys, n) && AllOnGrid(xs, ys, n) && OnGrid(h)
    requires !HitsBody(Shift(xs, n, h.x), Shift(ys, n, h.y), m)
    ensures Distinct(Shift(xs, n, h.x), Shift(ys, n, h.y), m)
    ensures AllOnGrid(Shift(xs, n, h.x), Shift(ys, n, h.y), m)
  {
    var sx, sy := Shift(xs, n, h.x), Shift(ys, n, h.y);
    forall i, j | 0 <= i < j < m
      ensures sx[i] != sx[j] || sy[i] != sy[j]
    {
      if i == 0 {
        assert sx[j] == xs[j - 1] && sy[j] == ys[j - 1];
      } else {
        assert sx[i] == xs[i - 1] && sx[j] == xs[j - 1];
        assert sy[i] == ys[i - 1] && sy[j] == ys[j - 1];
      }
    }
    forall i | 0 <= i < m
      ensures OnGrid(Point(sx[i], sy[i]))
    {
      if i > 0 {
        assert sx[i] == xs[i - 1] && sy[i] == ys[i - 1];
      }
    }
  }

  /** The snake a new game starts with, three cells of row 100 heading
      right, is a body of distinct board cells. */
  lemma StartingSnake(xs: seq<int>, ys: seq<int>)
    requires 3 <= |xs| && 3 <= |ys|
    requires xs[0] == 100 && xs[1] == 50 && xs[2] == 0
    requires ys[0] == 100 && ys[1] == 100 && ys[2] == 100
    ensures Distinct(xs, ys, 3) && AllOnGrid(xs, ys, 3)
  {
  }

  /** Because the collision loop also looks at index n, stepping the head
      onto the cell the tail has just left counts as running into the body. */
  lemma VacatedTailIsCollision(xs: seq<int>, ys: seq<int>, n: int)
    requires 1 <= n < |xs| && n < |ys|
    ensures HitsBody(Shift(xs, n, xs[n - 1]), Shift(ys, n, ys[n - 1]), n)
  {
    assert Shift(xs, n, xs[n - 1])[n] == xs[n - 1];
    assert Shift(ys, n, ys[n - 1])[n] == ys[n - 1];
  }

  /** On a tick where the snake grows from n to n + 1, the collision loop
      starts at slot n + 1, which no move of the current game has written:
      a head that lands on the cell that slot still holds, from the array
      initialisers or an earlier game, counts as running into the body. */
  lemma GrownSlotIsCollision(xs: seq<int>, ys: seq<int>, n: int, h: Point)
    requires 0 <= n && n + 1 < |xs| && n + 1 < |ys|
    requires h == Point(xs[n + 1], ys[n + 1])
    ensures HitsBody(Shift(xs, n, h.x), Shift(ys, n, h.y), n + 1)
  {
    assert Shift(xs, n, h.x)[n + 1] == xs[n + 1];
    assert Shift(ys, n, h.y)[n + 1] == ys[n + 1];
  }
}
