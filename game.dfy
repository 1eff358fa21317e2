/** The game object: its fields are updated in place by a tick and by a
    direction request, each proved to follow the rules in module Rules. */
module Game {
  import opened Board
  import opened Rules

  class SnakeGame {
    var snake: seq<Point>
    var direction: Direction
    var food: Point
    var score: nat
    var gameOver: bool

    /** The fields as a value of the rules. */
    function State(): GameState
      reads this
    {
      GameState(snake, direction, food, score, gameOver)
    }

    /** The object invariant: the state is one a game can reach. */
    predicate Valid()
      reads this
    {
      WellFormed(State())
    }

    /** A new game: one segment at (10, 10) heading right, food at (5, 5). */
    constructor ()
      ensures State() == Initial()
      ensures Valid()
    {
      snake := [Point(10, 10)];
      direction := Right;
      food := Point(5, 5);
      score := 0;
      gameOver := false;
    }

    /** One tick; draws are the samples the random generator yields, in order. */
    method Update(draws: seq<Point>)
      requires CanTick(State(), draws)
      modifies this
      ensures State() == Tick(old(State()), draws)
      ensures old(Valid()) ==> Valid()
      ensures old(gameOver) ==> unchanged(this)
    {
      ghost var before := State();
      if gameOver {
        return;
      }
      var next := Step(snake[0], direction);
      if next.None? {
        gameOver := true;
        return;
      }
      var newHead := next.value;
      if newHead in snake {
        gameOver := true;
        return;
      }
      if newHead == food {
        snake := [newHead] + snake;
        score := score + 1;
        GenerateFood(draws);
      } else {
        snake := [newHead] + snake;
        snake := snake[..|snake| - 1];
        assert snake == [newHead] + before.snake[..|before.snake| - 1];
      }
      if WellFormed(before) {
        TickPreservesWellFormed(before, draws);
      }
    }

    /** The rejection loop: skip samples that lie on the snake and keep the first
        one that does not. */
    method GenerateFood(draws: seq<Point>)
      requires Samples(draws) && HasFreeDraw(draws, snake)
      modifies this`food
      ensures food == draws[FirstFree(draws, snake)]
      ensures InBounds(food) && food !in snake
    {
      ghost var k := FirstFree(draws, snake);
      var i := 0;
      while draws[i] in snake
        invariant 0 <= i <= k
        decreases k - i
      {
        i := i + 1;
      }
      food := draws[i];
    }

    /** A direction request: the exact reversal is ignored, anything else accepted. */
    method ChangeDirection(requested: Direction)
      modifies this`direction
      ensures State() == Turn(old(State()), requested)
      ensures old(Valid()) ==> Valid()
    {
      if IsReversal(direction, requested) {
        return;
      }
      direction := requested;
    }
  }
}
