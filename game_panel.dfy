/** The state machine of the snake game panel: the segment arrays, the
    counters, the heading, the food and the obstacles, and the operations
    that the Start and Replay buttons, the timer and the keyboard trigger. */
module SnakeGame {
  import opened Board
  import opened Segments

  class GamePanel {
    /** Segment coordinates, head at index 0; sized for a snake covering the board. */
    const x: array<int>
    const y: array<int>
    /** Length of the snake. */
    var bodyParts: int
    /** Score of the current game. */
    var foodEaten: int
    var foodX: int
    var foodY: int
    var direction: Direction
    /** True while the game loop moves the snake. */
    var running: bool
    var gameState: Phase
    /** Best score of the session. */
    var highScore: int
    var obstacles: seq<Point>

    /** What every operation, even half-way through a tick, relies on. */
    ghost predicate Shape()
      reads this
    {
      x.Length == TOTAL_UNITS && y.Length == TOTAL_UNITS && x != y &&
      3 <= bodyParts <= TOTAL_UNITS && 0 <= foodEaten && 0 <= highScore
    }

    /** The invariant kept between events. While the snake runs and has not
        filled the arrays, its segments are distinct cells of the board. */
    ghost predicate Valid()
      reads this, x, y
    {
      Shape() &&
      OnGrid(Point(foodX, foodY)) &&
      (forall o :: o in obstacles ==> OnGrid(o)) &&
      (running ==> gameState == Active) &&
      (!running ==> foodEaten <= highScore) &&
      (running && bodyParts < TOTAL_UNITS ==>
         Distinct(x[..], y[..], bodyParts) && AllOnGrid(x[..], y[..], bodyParts))
    }

    ghost function Head(): (r: Point)
      reads this, x, y
      requires Shape()
    {
      Point(x[0], y[0])
    }

    /** Where the head goes on the next move. */
    ghost function NextHead(): (r: Point)
      reads this, x, y
      requires Shape()
    {
      Advance(Head(), direction)
    }

    /** The coordinate sequences as the next move leaves them. */
    ghost function MovedX(): (r: seq<int>)
      reads this, x, y
      requires Shape() && bodyParts < TOTAL_UNITS
    {
      Shift(x[..], bodyParts, NextHead().x)
    }

    ghost function MovedY(): (r: seq<int>)
      reads this, x, y
      requires Shape() && bodyParts < TOTAL_UNITS
    {
      Shift(y[..], bodyParts, NextHead().y)
    }

    /** A cell the food-spawning loop accepts. */
    ghost predicate FoodFits(c: Point)
      reads this, x, y
      requires Shape()
    {
      FreeCell(x[..], y[..], bodyParts, c)
    }

    /** A cell the obstacle-spawning loop accepts. Its food test sits inside
        the loop over the segments, so it applies because bodyParts > 0;
        earlier obstacles are not looked at. */
    ghost predicate ObstacleFits(c: Point)
      reads this, x, y
      requires Shape()
    {
      FoodFits(c) && c != Point(foodX, foodY)
    }

    /** The head is on a body segment (index bodyParts included), off the
        board or on an obstacle. */
    ghost predicate Collides()
      reads this, x, y
      requires Shape() && bodyParts < TOTAL_UNITS
    {
      HitsBody(x[..], y[..], bodyParts) || OutsideBoard(Head()) || Head() in obstacles
    }

    /** The spawning loops of the coming tick can end: if the moved head
        lands on the food, the grown snake leaves room for new food and, on
        an even score, for an obstacle. */
    ghost predicate TickRoom()
      reads this, x, y
      requires Shape()
    {
      running && bodyParts < TOTAL_UNITS && NextHead() == Point(foodX, foodY) ==>
        Room(MovedX(), MovedY(), bodyParts + 1, (foodEaten + 1) % 2 == 0)
    }

    /** The outcome of checkFood from a state with length parts0, score
        eaten0, food at food0 and obstacles obstacles0, given whether the
        head was on the food. */
    ghost predicate Fed(ate: bool, parts0: int, eaten0: int, food0: Point, obstacles0: seq<Point>)
      reads this, x, y
      requires Shape()
    {
      if ate then
        bodyParts == parts0 + 1 && foodEaten == eaten0 + 1 &&
        FoodFits(Point(foodX, foodY)) &&
        if foodEaten % 2 == 0 then
          |obstacles| == |obstacles0| + 1 &&
          obstacles[..|obstacles0|] == obstacles0 &&
          ObstacleFits(obstacles[|obstacles0|])
        else
          obstacles == obstacles0
      else
        bodyParts == parts0 && foodEaten == eaten0 &&
        Point(foodX, foodY) == food0 && obstacles == obstacles0
    }

    /** The outcome of checkCollisions from a state with running flag
        running0 and high score best0. It fails on x[bodyParts] when the
        snake fills the arrays, before changing anything. */
    ghost predicate CollisionsChecked(outOfBounds: bool, running0: bool, best0: int)
      reads this, x, y
      requires Shape()
    {
      outOfBounds == (bodyParts == TOTAL_UNITS) &&
      if outOfBounds then
        running == running0 && highScore == best0
      else
        running == (running0 && !Collides()) &&
        highScore == if running then best0 else Max(best0, foodEaten)
    }

    /** The state startGame leaves: a fresh three-segment snake heading
        right in row 100, food checked against the snake of the previous
        game, no obstacles, the high score kept. */
    twostate predicate Restarted()
      reads this, x, y
    {
      gameState == Active && running &&
      3 <= |old(x[..])| && 3 <= |old(y[..])| &&
      bodyParts == 3 && foodEaten == 0 && direction == Right && obstacles == [] &&
      x[..] == old(x[..])[0 := 100][1 := 50][2 := 0] &&
      y[..] == old(y[..])[0 := 100][1 := 100][2 := 100] &&
      0 <= old(bodyParts) <= |old(x[..])| && old(bodyParts) <= |old(y[..])| &&
      FreeCell(old(x[..]), old(y[..]), old(bodyParts), Point(foodX, foodY)) &&
      highScore == old(highScore)
    }

    /** The field initialisers: the welcome screen before any game. */
    constructor ()
      ensures Valid() && fresh(x) && fresh(y)
      ensures forall i :: 0 <= i < TOTAL_UNITS ==> x[i] == 0 && y[i] == 0
      ensures bodyParts == 3 && foodEaten == 0 && foodX == 0 && foodY == 0
      ensures direction == Right && !running && gameState == Welcome
      ensures highScore == 0 && obstacles == []
    {
      x := new int[TOTAL_UNITS](_ => 0);
      y := new int[TOTAL_UNITS](_ => 0);
      bodyParts := 3;
      foodEaten := 0;
      foodX, foodY := 0, 0;
      direction := Right;
      running := false;
      gameState := Welcome;
      highScore := 0;
      obstacles := [];
    }

    /** Places the food on a cell that none of the first bodyParts segments
        covers; the rejection loop's random draws become a choice among the
        cells it would accept. */
    method SpawnFood()
      requires Shape()
      requires exists c :: FoodFits(c)
      modifies this`foodX, this`foodY
      ensures Shape()
      ensures FoodFits(Point(foodX, foodY))
    {
      ghost var c :| FoodFits(c);
      OnGridIsGridCell(c);
      var col: int, row: int :| 0 <= col < GRID_SIZE && 0 <= row < GRID_SIZE &&
        !OnSnake(x[..], y[..], bodyParts, GridCell(col, row));
      var cell := GridCell(col, row);
      foodX, foodY := cell.x, cell.y;
      assert Point(foodX, foodY) == cell;
    }

    /** Adds one obstacle on a cell clear of the snake and of the food. */
    method SpawnObstacle()
      requires Shape()
      requires exists c :: ObstacleFits(c)
      modifies this`obstacles
      ensures Shape()
      ensures |obstacles| == |old(obstacles)| + 1
      ensures obstacles[..|old(obstacles)|] == old(obstacles)
      ensures ObstacleFits(obstacles[|old(obstacles)|])
    {
      ghost var c :| ObstacleFits(c);
      OnGridIsGridCell(c);
      var col: int, row: int :| 0 <= col < GRID_SIZE && 0 <= row < GRID_SIZE &&
        !(OnSnake(x[..], y[..], bodyParts, GridCell(col, row)) ||
          GridCell(col, row) == Point(foodX, foodY));
      var cell := GridCell(col, row);
      obstacles := obstacles + [cell];
      assert obstacles[|old(obstacles)|] == cell;
    }

    /** Resets the game and starts it. The food is spawned before the snake
        is reset, so it is checked against the previous game's snake. */
    method StartGame()
      requires Valid()
      requires exists c :: FoodFits(c)
      modifies this`gameState, this`running, this`foodX, this`foodY, this`bodyParts,
               this`foodEaten, this`direction, this`obstacles, x, y
      ensures Valid() && Restarted()
    {
      ghost var c :| FoodFits(c);
      ghost var x0, y0, n0 := x[..], y[..], bodyParts;
      gameState := Active;
      running := true;
      assert FoodFits(c);
      SpawnFood();
      assert FreeCell(x0, y0, n0, Point(foodX, foodY));
      bodyParts := 3;
      foodEaten := 0;
      direction := Right;
      obstacles := [];
      ResetSnake();
      assert x[..] == x0[0 := 100][1 := 50][2 := 0];
      assert y[..] == y0[0 := 100][1 := 100][2 := 100];
      StartingSnake(x[..], y[..]);
    }

    /** The loop of startGame that lays out the three segments of a new
        snake in row 100, from x = 100 leftwards. */
    method ResetSnake()
      requires Shape() && bodyParts == 3
      modifies x, y
      ensures x[..] == old(x[..])[0 := 100][1 := 50][2 := 0]
      ensures y[..] == old(y[..])[0 := 100][1 := 100][2 := 100]
    {
      var i := 0;
      while i < bodyParts
        invariant 0 <= i <= bodyParts
        invariant forall k :: 0 <= k < i ==> x[k] == 100 - k * UNIT_SIZE && y[k] == 100
        invariant forall k :: i <= k < x.Length ==> x[k] == old(x[k]) && y[k] == old(y[k])
      {
        x[i] := 100 - i * UNIT_SIZE;
        y[i] := 100;
        i := i + 1;
      }
    }

    /** The Replay button: stops the timer and starts a new game. */
    method ReplayGame()
      requires Valid()
      requires exists c :: FoodFits(c)
      modifies this`gameState, this`running, this`foodX, this`foodY, this`bodyParts,
               this`foodEaten, this`direction, this`obstacles, x, y
      ensures Valid() && Restarted()
    {
      StartGame();
    }

    /** Shifts every segment into its predecessor's slot, slot bodyParts
        included, then steps the head one cell along the heading. When the
        snake fills the arrays, writing x[bodyParts] fails and nothing moves. */
    method Move() returns (outOfBounds: bool)
      requires Shape()
      modifies x, y
      ensures outOfBounds == (bodyParts == TOTAL_UNITS)
      ensures outOfBounds ==> unchanged(x, y)
      ensures !outOfBounds ==> x[..] == old(MovedX()) && y[..] == old(MovedY())
    {
      if bodyParts >= x.Length {
        return true;
      }
      outOfBounds := false;
      ghost var h := NextHead();
      var i := bodyParts;
      while i > 0
        invariant 0 <= i <= bodyParts
        invariant forall k :: 0 <= k <= i ==> x[k] == old(x[k]) && y[k] == old(y[k])
        invariant forall k :: i < k <= bodyParts ==> x[k] == old(x[k - 1]) && y[k] == old(y[k - 1])
        invariant forall k :: bodyParts < k < x.Length ==> x[k] == old(x[k]) && y[k] == old(y[k])
      {
        x[i] := x[i - 1];
        y[i] := y[i - 1];
        i := i - 1;
      }
      match direction
      case Up => y[0] := y[0] - UNIT_SIZE;
      case Down => y[0] := y[0] + UNIT_SIZE;
      case Right => x[0] := x[0] + UNIT_SIZE;
      case Left => x[0] := x[0] - UNIT_SIZE;
      assert x[..] == Shift(old(x[..]), bodyParts, h.x);
      assert y[..] == Shift(old(y[..]), bodyParts, h.y);
    }

    /** The first loop of checkCollisions: does the head share a cell with
        a segment at index 1..bodyParts? */
    method HeadHitsBody() returns (hit: bool)
      requires Shape() && bodyParts < TOTAL_UNITS
      ensures hit == HitsBody(x[..], y[..], bodyParts)
    {
      hit := false;
      var i := bodyParts;
      while i > 0
        invariant 0 <= i <= bodyParts
        invariant forall k :: i < k <= bodyParts ==> !(x[k] == x[0] && y[k] == y[0])
      {
        if x[0] == x[i] && y[0] == y[i] {
          hit := true;
          break;
        }
        i := i - 1;
      }
    }

    /** The last loop of checkCollisions: is the head on an obstacle? */
    method HeadHitsObstacle() returns (hit: bool)
      requires Shape()
      ensures hit == (Head() in obstacles)
    {
      hit := false;
      var i := 0;
      while i < |obstacles|
        invariant 0 <= i <= |obstacles|
        invariant Head() !in obstacles[..i]
      {
        if x[0] == obstacles[i].x && y[0] == obstacles[i].y {
          hit := true;
          break;
        }
        i := i + 1;
      }
    }

    /** Stops the game when the head hits its body, a wall or an obstacle,
        and then records the score if it beats the high score. */
    method CheckCollisions() returns (outOfBounds: bool)
      requires Shape()
      modifies this`running, this`highScore
      ensures Shape() && CollisionsChecked(outOfBounds, old(running), old(highScore))
    {
      if bodyParts >= x.Length {
        return true;
      }
      outOfBounds := false;
      var hit := HeadHitsBody();
      if hit {
        running := false;
      }
      if x[0] < 0 || x[0] >= BOARD_SIZE || y[0] < 0 || y[0] >= BOARD_SIZE {
        running := false;
      }
      hit := HeadHitsObstacle();
      if hit {
        running := false;
      }
      if !running {
        if foodEaten > highScore {
          highScore := foodEaten;
        }
      }
    }

    /** When the head is on the food: grow, score, respawn the food, and
        on every even score add an obstacle. Its one caller runs it after a
        move that succeeded, so bodyParts is below the array length. */
    method CheckFood()
      requires Shape() && bodyParts < TOTAL_UNITS
      requires Head() == Point(foodX, foodY) ==>
                 Room(x[..], y[..], bodyParts + 1, (foodEaten + 1) % 2 == 0)
      modifies this`bodyParts, this`foodEaten, this`foodX, this`foodY, this`obstacles
      ensures Shape()
      ensures Fed(old(Head() == Point(foodX, foodY)), old(bodyParts), old(foodEaten),
                  old(Point(foodX, foodY)), old(obstacles))
    {
      if x[0] == foodX && y[0] == foodY {
        ghost var xs, ys := x[..], y[..];
        ghost var due := (foodEaten + 1) % 2 == 0;
        assert Room(xs, ys, bodyParts + 1, due);
        bodyParts := bodyParts + 1;
        foodEaten := foodEaten + 1;
        if foodEaten % 2 == 0 {
          assert due;
          ghost var c, d :| c != d && FreeCell(xs, ys, bodyParts, c) && FreeCell(xs, ys, bodyParts, d);
          assert FoodFits(c);
          SpawnFood();
          assert ObstacleFits(c) || ObstacleFits(d);
          SpawnObstacle();
        } else {
          RoomHasFreeCell(xs, ys, bodyParts, due);
          ghost var c :| FreeCell(xs, ys, bodyParts, c);
          assert FoodFits(c);
          SpawnFood();
        }
      }
    }

    /** One timer tick: move, eat, collide, all only while running. The
        result reports the out-of-bounds failure of move or of the
        collision check once the snake fills the arrays. */
    method ActionPerformed() returns (outOfBounds: bool)
      requires Valid() && TickRoom()
      modifies this`bodyParts, this`foodEaten, this`foodX, this`foodY, this`obstacles,
               this`running, this`highScore, x, y
      ensures Valid()
      ensures direction == old(direction) && gameState == old(gameState)
      ensures highScore >= old(highScore)
      ensures !old(running) ==> !outOfBounds && unchanged(this, x, y)
      ensures old(running) && old(bodyParts) == TOTAL_UNITS ==> outOfBounds && unchanged(this, x, y)
      ensures old(running) && old(bodyParts) < TOTAL_UNITS ==>
                x[..] == old(MovedX()) && y[..] == old(MovedY()) &&
                Fed(old(NextHead() == Point(foodX, foodY)), old(bodyParts), old(foodEaten),
                    old(Point(foodX, foodY)), old(obstacles)) &&
                CollisionsChecked(outOfBounds, true, old(highScore))
    {
      outOfBounds := false;
      if running {
        outOfBounds := Tick();
      }
    }

    /** The body of the tick while the game runs. */
    method Tick() returns (outOfBounds: bool)
      requires Valid() && TickRoom() && running
      modifies this`bodyParts, this`foodEaten, this`foodX, this`foodY, this`obstacles,
               this`running, this`highScore, x, y
      ensures Valid()
      ensures highScore >= old(highScore)
      ensures old(bodyParts) == TOTAL_UNITS ==> outOfBounds && unchanged(this, x, y)
      ensures old(bodyParts) < TOTAL_UNITS ==>
                x[..] == old(MovedX()) && y[..] == old(MovedY()) &&
                Fed(old(NextHead() == Point(foodX, foodY)), old(bodyParts), old(foodEaten),
                    old(Point(foodX, foodY)), old(obstacles)) &&
                CollisionsChecked(outOfBounds, true, old(highScore))
    {
      ghost var x0, y0, n, h := x[..], y[..], bodyParts, NextHead();
      ghost var food, obstacles0 := Point(foodX, foodY), obstacles;
      outOfBounds := Move();
      if outOfBounds {
        return;
      }
      assert x[..] == Shift(x0, n, h.x) && y[..] == Shift(y0, n, h.y);
      assert Head() == h;
      CheckFood();
      assert OnGrid(Point(foodX, foodY));
      assert forall o :: o in obstacles ==> OnGrid(o) by {
        if |obstacles| != |obstacles0| {
          assert obstacles == obstacles0 + [obstacles[|obstacles0|]];
        }
      }
      outOfBounds := CheckCollisions();
      if running && !outOfBounds {
        assert Aligned(Point(x0[0], y0[0]));
        assert OnGrid(h);
        ShiftKeepsSnake(x0, y0, n, h, bodyParts);
      }
    }

    /** An arrow key turns the snake, unless it asks for a reversal. Any
        phase accepts it and it takes effect at once. */
    method KeyPressed(k: Key)
      requires Valid()
      modifies this`direction
      ensures Valid()
      ensures direction == NextDirection(old(direction), k)
    {
      match k
      case VkLeft => if direction != Right { direction := Left; }
      case VkRight => if direction != Left { direction := Right; }
      case VkUp => if direction != Down { direction := Up; }
      case VkDown => if direction != Up { direction := Down; }
      case OtherKey =>
    }

    /** The one state change made while painting: an active game that has
        stopped running turns into the game-over screen. */
    method PaintComponent()
      requires Valid()
      modifies this`gameState
      ensures Valid()
      ensures gameState == if old(gameState) == Active && !running then GameOver else old(gameState)
    {
      if gameState == Active && !running {
        gameState := GameOver;
      }
    }
  }
}
