/** The board of the snake game: its pixel geometry, the four headings of
    the snake, the arrow keys and the three screens of the game. */
module Board {

  /** Side of one grid cell, in pixels. */
  const UNIT_SIZE: int := 50

  /** Side of the square board, in pixels. */
  const BOARD_SIZE: int := 950

  /** Number of cells along one side of the board (19). */
  const GRID_SIZE: int := BOARD_SIZE / UNIT_SIZE

  /** Number of cells on the board (361): the length of the segment arrays. */
  const TOTAL_UNITS: int := (BOARD_SIZE * BOARD_SIZE) / (UNIT_SIZE * UNIT_SIZE)

  /** A pixel position, as java.awt.Point holds it. */
  datatype Point = Point(x: int, y: int)

  /** The heading of the snake: 'R', 'U', 'D' or 'L' in the game. */
  datatype Direction = Right | Up | Down | Left

  /** The key codes the game reacts to, and every other key. */
  datatype Key = VkLeft | VkRight | VkUp | VkDown | OtherKey

  /** The screen being shown: "welcome", "active" or "gameOver". */
  datatype Phase = Welcome | Active | GameOver

  function Max(a: int, b: int): (m: int)
    ensures m >= a && m >= b && (m == a || m == b)
  {
    if a > b then a else b
  }

  function Abs(a: int): (r: int)
  {
    if a < 0 then -a else a
  }

  /** The heading that points back the way the snake came. */
  function Opposite(d: Direction): (r: Direction)
    ensures r != d
  {
    match d
    case Right => Left
    case Left => Right
    case Up => Down
    case Down => Up
  }

  /** The heading an arrow key asks for. */
  function KeyDirection(k: Key): (r: Direction)
    requires k != OtherKey
  {
    match k
    case VkLeft => Left
    case VkRight => Right
    case VkUp => Up
    case VkDown => Down
  }

  /** The heading after a key press: an arrow key turns the snake unless it
      asks for the reverse of the current heading; any other key does nothing. */
  function NextDirection(d: Direction, k: Key): (r: Direction)
    ensures r != Opposite(d)
    ensures k == OtherKey ==> r == d
    ensures k != OtherKey && KeyDirection(k) == Opposite(d) ==> r == d
    ensures k != OtherKey && KeyDirection(k) != Opposite(d) ==> r == KeyDirection(k)
  {
    match k
    case VkLeft => if d != Right then Left else d
    case VkRight => if d != Left then Right else d
    case VkUp => if d != Down then Up else d
    case VkDown => if d != Up then Down else d
    case OtherKey => d
  }

  /** A position whose coordinates are both multiples of the cell size. */
  predicate Aligned(p: Point)
  {
    p.x % UNIT_SIZE == 0 && p.y % UNIT_SIZE == 0
  }

  /** The wall test of the collision check: a position off the board. */
  predicate OutsideBoard(p: Point)
  {
    p.x < 0 || p.x >= BOARD_SIZE || p.y < 0 || p.y >= BOARD_SIZE
  }

  /** The top-left corner of a cell of the board. */
  predicate OnGrid(p: Point)
  {
    !OutsideBoard(p) && Aligned(p)
  }

  /** The corner of the cell in a column and a row: what one draw of the
      spawning loops yields. */
  function GridCell(col: int, row: int): (c: Point)
    requires 0 <= col < GRID_SIZE && 0 <= row < GRID_SIZE
    ensures OnGrid(c)
  {
    Point(col * UNIT_SIZE, row * UNIT_SIZE)
  }

  /** Every cell of the board is one that the spawning loops can draw. */
  lemma OnGridIsGridCell(c: Point)
    requires OnGrid(c)
    ensures 0 <= c.x / UNIT_SIZE < GRID_SIZE && 0 <= c.y / UNIT_SIZE < GRID_SIZE
    ensures GridCell(c.x / UNIT_SIZE, c.y / UNIT_SIZE) == c
  {
  }

  /** The position of the head after one step: one cell along the heading,
      with y growing downwards as on the screen. */
  function Advance(p: Point, d: Direction): (q: Point)
    ensures (q.x == p.x) != (q.y == p.y)
    ensures Abs(q.x - p.x) + Abs(q.y - p.y) == UNIT_SIZE
    ensures d == Right ==> q.x > p.x
    ensures d == Left ==> q.x < p.x
    ensures d == Up ==> q.y < p.y
    ensures d == Down ==> q.y > p.y
    ensures Aligned(p) ==> Aligned(q)
  {
    match d
    case Up => Point(p.x, p.y - UNIT_SIZE)
    case Down => Point(p.x, p.y + UNIT_SIZE)
    case Right => Point(p.x + UNIT_SIZE, p.y)
    case Left => Point(p.x - UNIT_SIZE, p.y)
  }
}
