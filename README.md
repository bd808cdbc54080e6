# Snake game panel: a Dafny model of the game state

This project models the state machine of the snake game's `GamePanel`. The
snake is kept as two parallel integer arrays `x` and `y` of 361 slots, with
the head at index 0 and the first `bodyParts` slots forming the body. The
panel also holds:

- the score `foodEaten` and the session's `highScore`;
- the food position;
- the list of obstacles;
- a heading (`'R' 'U' 'D' 'L'`);
- the `running` flag of the game loop;
- the screen being shown (`welcome`, `active`, `gameOver`).

The operations are the ones the Start and Replay buttons, the timer and the
keyboard trigger:

- `startGame` / `replayGame`;
- one timer tick (`actionPerformed`: `move`, `checkFood`, `checkCollisions`);
- a key press;
- the one state change made while painting, which turns a stopped active game into the game-over screen.

Coordinates are pixels, as in the game. A cell is 50 pixels and the board
is 950 pixels square, so the grid is 19 by 19 and the arrays hold 361
segments.

The project has three modules:

- `Board` (`board.dfy`): the geometry, headings, keys and screens, the key-to-heading rule and the step of the head.
- `Segments` (`segments.dfy`): functions over the coordinate sequences. They say what the game's loops compute: the cells a body covers, the shift of a move and the collision test. Lemmas there relate them.
- `SnakeGame` (`game_panel.dfy`): the class `GamePanel`, whose fields and methods mirror the Java class.
  - The methods update the arrays and fields in place.
  - Each method's `ensures` ties the new state to the specification functions.
  - `Valid()` is the invariant kept between events. While the snake runs, its segments stay distinct board cells: the body never overlaps itself until a collision ends the game.

Behaviour reproduced as the code has it:

- `checkCollisions` compares the head with every slot from 1 to `bodyParts`, slot `bodyParts` included, which is one slot past the body.
  - On a tick where the snake does not grow, `move` has copied the old tail into that slot. Stepping into the cell the tail has just left therefore ends the game (`Segments.VacatedTailIsCollision`).
  - On a tick where `checkFood` grows the snake from n to n + 1, the loop starts at slot n + 1, which no move of the current game has written. In the first game it still holds (0,0) from the array initialisers, so eating food on (0,0) ends that game. After a restart it holds whatever an earlier game left there: a segment of that game, or still (0,0) if no earlier game moved with n + 1 segments (`Segments.GrownSlotIsCollision`).
- When `bodyParts` reaches 361, `x[bodyParts]` is outside the arrays, and Java throws `ArrayIndexOutOfBoundsException`. The throw comes from `move` when the tick starts with 361 segments, or from `checkCollisions` when `checkFood` has just grown the snake from 360 to 361. The model reports it as the `outOfBounds` result. The failing method changes nothing; the changes made earlier in the tick stay. A game is not expected to get there: growing to 361 segments would first call `spawnFood` with the body covering every cell, and that loop never ends. The `outOfBounds` branches over-approximate a state the game does not reach; the model does not prove that it is unreachable.
- `startGame` spawns the food before it resets the snake, so the first food is only checked against the previous game's snake.
- The food is never checked against the obstacles. A new obstacle is not checked against earlier obstacles. Its food test sits inside the loop over the segments, so it only applies because the snake is never empty.

Other behaviour of the code worth knowing:

- Start and Replay work from every screen.
- A key press changes the heading on every screen, immediately.
- The switch to the game-over screen happens when the panel is painted, not in the tick.
- An obstacle comes with every even score, not after 7 points as one comment of the source says.
- When the board has no free cell, the spawning loops never end. The model has no policy for a full grid; it asks for the room instead.

## Model

| member | source | states |
|---|---|---|
| Board.NextDirection | GamePanel.java:363-380 | the new heading is never the reverse of the old one; any other key keeps it; an arrow key asking for the reverse keeps it; any other arrow key sets it to that key's heading |
| Board.Advance | GamePanel.java:259-274 | the head moves exactly one cell (50 pixels) along the heading, in the heading's sense, changing one coordinate only, and stays grid-aligned |
| Board.GridCell | GamePanel.java:200-203 | every column and row drawn by the spawning loops gives an aligned position inside the board |
| Board.OnGridIsGridCell | GamePanel.java:200-203 | every aligned position inside the board is one the spawning loops can draw |
| Segments.Shift | GamePanel.java:253-257 | after a move, slots 1..n hold the old slots 0..n-1, slot 0 holds the new head, and the slots above n keep their values |
| Segments.ShiftOnSnake | GamePanel.java:253-257 | after a move the first n + 1 slots cover a cell exactly when it is the new head or was covered by the first n slots before |
| Segments.RoomHasFreeCell | GamePanel.java:321-327 | when there is room for the food and an obstacle, there is a free cell for the food: the food loop on a growing tick can end |
| Segments.ShiftKeepsSnake | GamePanel.java:281-287 | a move, with or without growth, whose head does not hit the body keeps a body of distinct board cells distinct and on the board |
| Segments.VacatedTailIsCollision | GamePanel.java:253-257 | because slot bodyParts keeps the old tail and the collision loop reads it, stepping onto the cell the tail has just left counts as a collision |
| Segments.GrownSlotIsCollision | GamePanel.java:281-287 | on a tick that grows the snake from n to n + 1, the collision loop also reads slot n + 1, which the move did not write; a head landing on the cell that slot holds counts as a collision |
| Segments.StartingSnake | GamePanel.java:81-85 | the three segments of a new game lie on distinct board cells |
| SnakeGame.GamePanel.constructor | GamePanel.java:11-35 | the field initialisers: zeroed 361-slot arrays, length 3, score 0, heading right, not running, welcome screen, high score 0, no obstacles |
| SnakeGame.GamePanel.SpawnFood | GamePanel.java:195-217 | the food lands on an aligned cell inside the board that none of the first bodyParts segments covers; nothing else changes |
| SnakeGame.GamePanel.SpawnObstacle | GamePanel.java:220-247 | exactly one obstacle is appended, on an aligned board cell clear of the first bodyParts segments and of the food; earlier obstacles are unchanged |
| SnakeGame.GamePanel.StartGame | GamePanel.java:65-98 | active screen, running, length 3, score 0, heading right, no obstacles, segments (100,100), (50,100), (0,100), the other slots unchanged, food clear of the previous game's snake, high score unchanged, invariant kept |
| SnakeGame.GamePanel.ResetSnake | GamePanel.java:81-85 | the loop writes the three starting segments into slots 0..2 and no other slot |
| SnakeGame.GamePanel.ReplayGame | GamePanel.java:101-111 | the same outcome as StartGame |
| SnakeGame.GamePanel.Move | GamePanel.java:250-275 | with bodyParts below 361, the arrays become the shift of the old ones with the head stepped along the heading; at 361 the write fails and nothing moves |
| SnakeGame.GamePanel.HeadHitsBody | GamePanel.java:281-287 | true exactly when the head equals some segment at index 1..bodyParts |
| SnakeGame.GamePanel.HeadHitsObstacle | GamePanel.java:296-303 | true exactly when the head position is in the obstacle list |
| SnakeGame.GamePanel.CheckCollisions | GamePanel.java:278-314 | running is cleared exactly when the head hits the body (index bodyParts included), leaves the board or hits an obstacle; a stopped game's high score becomes the maximum of the old high score and the score; at 361 it fails before changing anything |
| SnakeGame.GamePanel.CheckFood | GamePanel.java:317-329 | head on food: length and score rise by one, new food on a free cell, and exactly one obstacle is appended when the new score is even; otherwise nothing changes |
| SnakeGame.GamePanel.ActionPerformed | GamePanel.java:350-359 | when not running nothing changes; otherwise move, checkFood and checkCollisions in that order, with their outcomes; heading and screen are unchanged, the high score never decreases and the invariant is kept |
| SnakeGame.GamePanel.Tick | GamePanel.java:352-357 | the running branch of the tick: the moved arrays, the food outcome and the collision outcome, the high score not decreasing and the invariant kept |
| SnakeGame.GamePanel.KeyPressed | GamePanel.java:363-380 | the heading becomes NextDirection of the old heading and the key, on any screen; nothing else changes |
| SnakeGame.GamePanel.PaintComponent | GamePanel.java:120-131 | an active game that is not running turns into the game-over screen; every other screen stays |

None of the operations lowers the high score:

- `StartGame`, `ReplayGame`, `KeyPressed` and `PaintComponent` leave it unchanged.
- `ActionPerformed` ensures it does not decrease.

So it never decreases over any sequence of these events.

## Left out

- Drawing and layout: the welcome, game and game-over screens, fonts, colours, buttons and their layout, and the Swing setup in the constructor. They do not change game state.
- `GameBoard.java`: it only creates the window. GameBoard.java is not part of this model.
- The `javax.swing.Timer` and every `repaint()` call, including the one inside the food loop. The timer only starts and stops the callbacks, so it reduces to the `running` flag and calls of `ActionPerformed`.
- `Math.random()` and its floating-point scaling. Each draw becomes a nondeterministic choice of a column and a row in 0..18. The uniformity of the draws and the termination of the rejection loops are not modelled.
  - Instead, `SpawnFood`, `SpawnObstacle` and `StartGame` require that a cell the loop accepts exists.
  - `ActionPerformed` requires `TickRoom()`: if the moved head lands on the food, the grown snake leaves one free cell, or two when an obstacle is also due. The food may take either cell, so the obstacle loop ends for every choice of the food exactly when two free cells exist.
- `keyReleased` and `keyTyped`: empty in the source.
- The 32-bit range of Java's `int`. `foodEaten` and `highScore` would need more than 2^31 meals to wrap, and the coordinates stay within a few cells of the board. The model uses unbounded integers.
- CheckFood: requires bodyParts below 361. Its only caller runs it after a move that succeeded, which guarantees this. The case where it would itself index past the arrays is not modelled.
- Valid: the segments are only stated distinct and on the board while the snake runs with fewer than 361 segments. The frozen state after the out-of-bounds failure is not covered, because showing it distinct would need a counting argument over the 361 cells.
- ActionPerformed: the exception thrown at 361 segments is reported as a result. The failing method changes nothing; the changes made earlier in the tick stay. The game's behaviour after that exception, with the timer still firing, is outside the model.
