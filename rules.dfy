/** The rules of the snake game as values: the state of one game, the tick, the
    direction change and the food choice, with the invariant every reachable
    state keeps. The class in module Game is proved to follow these functions. */
module Rules {
  import opened Board

  /** Snake (head first), current direction, food cell, score and the game-over flag. */
  datatype GameState = GameState(
    snake: seq<Point>,
    direction: Direction,
    food: Point,
    score: nat,
    gameOver: bool)

  /** No cell occurs twice. */
  predicate Distinct(s: seq<Point>) {
    forall i, j :: 0 <= i < j < |s| ==> s[i] != s[j]
  }

  /** Each segment is one orthogonal step from the next. */
  predicate Contiguous(s: seq<Point>) {
    forall i :: 0 <= i < |s| - 1 ==> Adjacent(s[i], s[i + 1])
  }

  predicate AllInBounds(s: seq<Point>) {
    forall i :: 0 <= i < |s| ==> InBounds(s[i])
  }

  /** The invariant of every state a game reaches: a non-empty snake of distinct,
      contiguous cells on the board, food on the board and off the snake, and one
      point of score per segment grown. */
  predicate WellFormed(g: GameState) {
    && |g.snake| >= 1
    && AllInBounds(g.snake)
    && Distinct(g.snake)
    && Contiguous(g.snake)
    && InBounds(g.food)
    && g.food !in g.snake
    && g.score + 1 == |g.snake|
  }

  /** The state a new game starts in. */
  function Initial(): (g: GameState)
    ensures WellFormed(g)
    ensures |g.snake| == 1 && g.score == 0 && !g.gameOver
  {
    GameState([Point(10, 10)], Right, Point(5, 5), 0, false)
  }

  // ---------------------------------------------------------------------------
  // Food placement. The random generator is a stream of samples; the rejection
  // loop keeps the first sample that is not on the snake.

  /** What the generator yields: every sample is a cell of the board. */
  predicate Samples(draws: seq<Point>) {
    forall i :: 0 <= i < |draws| ==> InBounds(draws[i])
  }

  /** The stream eventually yields a cell that is not on the body. */
  predicate HasFreeDraw(draws: seq<Point>, body: seq<Point>) {
    exists i :: 0 <= i < |draws| && draws[i] !in body
  }

  /** The index of the sample the rejection loop accepts. */
  function FirstFree(draws: seq<Point>, body: seq<Point>): (k: nat)
    requires HasFreeDraw(draws, body)
    ensures k < |draws| && draws[k] !in body
    ensures forall j :: 0 <= j < k ==> draws[j] in body
    decreases |draws|
  {
    if draws[0] !in body then 0
    else
      assert HasFreeDraw(draws[1..], body) by {
        var i :| 0 <= i < |draws| && draws[i] !in body;
        assert i > 0 && draws[1..][i - 1] == draws[i];
      }
      var k := FirstFree(draws[1..], body);
      assert forall j :: 1 <= j < k + 1 ==> draws[j] == draws[1..][j - 1];
      1 + k
  }

  // ---------------------------------------------------------------------------
  // One tick.

  /** The cell the head would move to, or None on a wall collision. */
  function NextHead(g: GameState): Option<Point>
    requires |g.snake| >= 1
  {
    Step(g.snake[0], g.direction)
  }

  /** The tick eats the food (the only case in which new food is drawn). */
  predicate Eats(g: GameState)
    requires |g.snake| >= 1
  {
    !g.gameOver && NextHead(g) == Some(g.food) && g.food !in g.snake
  }

  /** What a tick asks of the generator: in-range samples, and a free cell among
      them whenever food is eaten; otherwise the rejection loop never ends. */
  predicate CanTick(g: GameState, draws: seq<Point>) {
    && |g.snake| >= 1
    && Samples(draws)
    && (Eats(g) ==> HasFreeDraw(draws, [g.food] + g.snake))
  }

  /** One tick of the game. The checks come in this order: a finished game does
      nothing; then the wall test, made before any coordinate changes, ends the
      game; then a head on the body as it was before the move ends it; then the
      snake either grows onto the food (score up, new food) or moves. */
  function Tick(g: GameState, draws: seq<Point>): (r: GameState)
    requires CanTick(g, draws)
    ensures |r.snake| >= 1
    ensures g.gameOver ==> r == g
    ensures r.gameOver && !g.gameOver ==> r == g.(gameOver := true)
    ensures r.gameOver <==> g.gameOver || NextHead(g).None? || NextHead(g).value in g.snake
    ensures !r.gameOver ==>
              && NextHead(g) == Some(r.snake[0])
              && r.direction == g.direction
              && (if Eats(g) then
                    && r.snake == [g.food] + g.snake
                    && |r.snake| == |g.snake| + 1
                    && r.score == g.score + 1
                    && InBounds(r.food) && r.food !in r.snake
                  else
                    && r.snake == [r.snake[0]] + g.snake[..|g.snake| - 1]
                    && |r.snake| == |g.snake|
                    && r.score == g.score
                    && r.food == g.food)
  {
    if g.gameOver then g
    else match NextHead(g)
      case None => g.(gameOver := true)
      case Some(head) =>
        if head in g.snake then g.(gameOver := true)
        else if head == g.food then
          var grown := [head] + g.snake;
          g.(snake := grown, score := g.score + 1, food := draws[FirstFree(draws, grown)])
        else
          g.(snake := [head] + g.snake[..|g.snake| - 1])
  }

  /** Every tick keeps the invariant: cells stay on the board, distinct and
      contiguous, and the food stays on the board and off the snake. */
  lemma TickPreservesWellFormed(g: GameState, draws: seq<Point>)
    requires WellFormed(g) && CanTick(g, draws)
    ensures WellFormed(Tick(g, draws))
  {
  }

  // ---------------------------------------------------------------------------
  // The direction change.

  /** A direction request: ignored when it is the exact opposite of the current
      direction, accepted otherwise (also when it equals the current one). */
  function Turn(g: GameState, requested: Direction): (r: GameState)
    ensures requested == Opposite(g.direction) ==> r == g
    ensures requested != Opposite(g.direction) ==> r == g.(direction := requested)
  {
    if IsReversal(g.direction, requested) then g else g.(direction := requested)
  }

  /** A direction change keeps the invariant (it touches only the direction). */
  lemma TurnPreservesWellFormed(g: GameState, requested: Direction)
    ensures WellFormed(g) ==> WellFormed(Turn(g, requested))
  {
  }

  /** What the reversal guard achieves: after a tick that moved the snake, a
      single direction request never aims the head at the segment behind it. */
  lemma SingleTurnAvoidsNeck(g: GameState, draws: seq<Point>, requested: Direction)
    requires WellFormed(g) && CanTick(g, draws)
    requires !Tick(g, draws).gameOver && |Tick(g, draws).snake| >= 2
    ensures NextHead(Turn(Tick(g, draws), requested)) != Some(Tick(g, draws).snake[1])
  {
  }

  /** The guard compares against the current direction, not the last move: two
      requests between ticks (Up, then Left, while moving Right) turn the snake
      back onto its own neck, and the next tick ends the game. */
  lemma TwoTurnsReachNeck()
    ensures var g := GameState([Point(11, 10), Point(10, 10)], Right, Point(5, 5), 1, false);
            var t := Turn(Turn(g, Up), Left);
            && WellFormed(g)
            && t.direction == Left
            && Tick(t, []) == t.(gameOver := true)
  {
  }

  // ---------------------------------------------------------------------------
  // Scenarios on the 20 by 20 board.

  /** From the initial state one tick moves the head right without growing. */
  lemma FirstTickMovesRight()
    ensures Tick(Initial(), []) == Initial().(snake := [Point(11, 10)])
  {
  }

  /** A head next to the food grows onto it, scores, and draws food off the snake. */
  lemma EatingGrows(draws: seq<Point>)
    requires Samples(draws) && HasFreeDraw(draws, [Point(4, 2), Point(3, 2)])
    ensures var g := GameState([Point(3, 2)], Right, Point(4, 2), 0, false);
            var r := Tick(g, draws);
            && r.snake == [Point(4, 2), Point(3, 2)]
            && r.score == 1 && !r.gameOver
            && r.food != Point(4, 2) && r.food != Point(3, 2)
  {
  }

  /** A head on the right wall moving right ends the game and changes nothing else. */
  lemma RightWallEnds()
    ensures var g := GameState([Point(19, 2)], Right, Point(4, 2), 0, false);
            Tick(g, []) == g.(gameOver := true)
  {
  }
}
