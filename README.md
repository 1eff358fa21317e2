# Snake game core, modelled in Dafny

A model of the game-state machine of a single-player snake game on a fixed
20 by 20 board (`src/main.rs`). A snake is a head-first sequence of cells; the
game also holds the current direction, one food cell, a score and a game-over
flag. Two operations drive it: a tick (`update`), which moves the head one
cell in the current direction, ends the game on a wall or self collision, and
either grows the snake onto the food (score plus one, new food drawn at
random) or moves it; and a direction request (`change_direction`), which
ignores the exact reversal of the current direction and accepts anything
else.

Files:

- `board.dfy`, module `Board`: the board size, `Direction`, `Point`, the
  reversal test and `Step`, the head's one-cell move with the wall check made
  before any coordinate changes (so unsigned coordinates never underflow).
- `rules.dfy`, module `Rules`: the game state as a value, the invariant
  `WellFormed` (non-empty snake of distinct, contiguous, on-board cells; food on
  the board and off the snake; `score + 1 == |snake|`), the food choice, the
  tick `Tick` and the direction change `Turn` as functions, and the lemmas
  about them.
- `game.dfy`, module `Game`: the class `SnakeGame` with the source's five
  fields; its methods update the fields in place and are proved to follow
  `Tick` and `Turn`, and to keep `Valid()` (which is `WellFormed` of the fields).

The random generator is a parameter: a tick receives `draws`, the sequence of
cells the generator would yield, each on the board. `GenerateFood` is the
source's rejection loop over that sequence and keeps the first cell that is not
on the snake. When the tick eats the food, the caller must supply a sequence
that contains a free cell; this is the condition under which the source's loop
ends (with a real generator it ends with probability one while a free cell
exists).

Self collision is tested against the whole body before the move, so the tail
cell that is about to be vacated still counts as occupied, as in the source.

The reversal guard compares a request with the current direction, not with the
direction of the last move. One request between two ticks can never aim the
head at the segment behind it (`Rules.SingleTurnAvoidsNeck`), but two requests
can (`Rules.TwoTurnsReachNeck`: moving right, "up" then "left" are both
accepted, and the next tick ends the game by self collision). The model keeps
this behaviour as written.

## Model

| member | source | states |
|---|---|---|
| `Board.Step` | src/main.rs:48-79 | the head's move is refused exactly on the four wall cases (y=0 Up, y=H-1 Down, x=0 Left, x=W-1 Right); otherwise it is the orthogonal neighbour offset by the direction's unit step, adjacent to the old head, and on the board when the old head was |
| `Board.IsReversal` | src/main.rs:113-118 | the four-pair reversal test holds exactly when the request is the opposite direction |
| `Board.StepBackIsOpposite` | src/main.rs:48-79 | a step followed by a step straight back to the start is possible only with the opposite direction |
| `Rules.Initial` | src/main.rs:30-41 | the initial state (snake [(10,10)], Right, food (5,5), score 0, not over) satisfies the game invariant |
| `Rules.FirstFree` | src/main.rs:98-109 | the accepted sample is free of the snake and every earlier sample lies on the snake |
| `Rules.Tick` | src/main.rs:43-96 | a finished game is left unchanged; the game ends exactly on a wall or self collision (against the pre-move body), which sets only the flag, and a tick without a collision leaves it live; a live tick moves the head one step in the current direction, and eating grows the snake to [food] + old snake with score +1 and new food on the board and off the snake, while not eating gives [new head] + old snake without its last cell with length, score and food unchanged |
| `Rules.TickPreservesWellFormed` | src/main.rs:82-95 | every tick keeps the snake non-empty, on the board, pairwise distinct and contiguous, the food on the board and off the snake, and score + 1 equal to the length |
| `Rules.Turn` | src/main.rs:112-121 | the exact opposite of the current direction leaves the state unchanged; any other request, the current direction included, sets the direction and nothing else |
| `Rules.TurnPreservesWellFormed` | src/main.rs:112-121 | a direction request keeps the game invariant |
| `Rules.SingleTurnAvoidsNeck` | src/main.rs:112-121 | after a live tick, one request never aims the head at the second segment |
| `Rules.TwoTurnsReachNeck` | src/main.rs:112-121 | two requests between ticks can reverse the snake: moving Right, Up then Left is accepted and the next tick ends the game |
| `Rules.FirstTickMovesRight` | src/main.rs:87-95 | from the initial state a tick moves the snake to [(11,10)] with nothing else changed |
| `Rules.EatingGrows` | src/main.rs:88-91 | snake [(3,2)] heading Right with food at (4,2) becomes [(4,2),(3,2)], score 1, still live, new food off both cells |
| `Rules.RightWallEnds` | src/main.rs:72-76 | a head at x=19 heading Right ends the game with nothing else changed |
| `Game.SnakeGame.constructor` | src/main.rs:30-41 | a new game holds the initial state and is valid |
| `Game.SnakeGame.Update` | src/main.rs:43-96 | the fields after a tick are `Tick` of the fields before; validity is kept; a finished game is not changed |
| `Game.SnakeGame.GenerateFood` | src/main.rs:98-109 | the rejection loop stores the first sample not on the snake, which is on the board and off the snake |
| `Game.SnakeGame.ChangeDirection` | src/main.rs:112-121 | the fields after a request are `Turn` of the fields before; validity is kept |

## Left out

- The egui front end (`SnakeApp`, its frame update, rendering, buttons, the repaint delay) and `main`: presentation and window plumbing. Restart is constructing a new `SnakeGame`, which is the constructor.
- The random number generator: replaced by the `draws` parameter, a finite sequence of on-board samples. The model does not state that the rejection loop terminates for a real generator; it requires the samples to contain a free cell whenever food is eaten, where the source would otherwise loop forever.
- Game.SnakeGame.Update: requires `Samples(draws)` (every sample on the board) on every tick, which is what the generator's range guarantees, though only a tick that eats reads the samples.
- Score is an unbounded natural; the source's `usize` could in principle wrap. The invariant `score + 1 == |snake|` bounds it by the number of snake cells, but the model does not prove that a distinct on-board snake has at most 400 cells.
- Vec::insert and Vec::pop are modelled on a `seq` (prepend, drop the last element); the in-place shifting they do is not modelled.
