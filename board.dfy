/** The board of the snake game: its fixed size, cells, directions and the
    one-cell move of the snake's head, with the wall check done before any
    coordinate is changed. */
module Board {

  /** The board is fixed at 20 by 20 cells. */
  const BoardWidth: nat := 20
  const BoardHeight: nat := 20

  datatype Option<+T> = None | Some(value: T)

  datatype Direction = Up | Down | Left | Right

  /** A cell; coordinates are unsigned, so they are naturals here. Row 0 is the top row. */
  datatype Point = Point(x: nat, y: nat)

  predicate InBounds(p: Point) {
    p.x < BoardWidth && p.y < BoardHeight
  }

  /** Whether an integer pair lies on the board; used to state a move without unsigned arithmetic. */
  predicate OnBoard(x: int, y: int) {
    0 <= x < BoardWidth && 0 <= y < BoardHeight
  }

  /** The column offset of one step in direction d. */
  function DeltaX(d: Direction): int {
    match d
    case Left => -1
    case Right => 1
    case _ => 0
  }

  /** The row offset of one step in direction d (Up decreases the row). */
  function DeltaY(d: Direction): int {
    match d
    case Up => -1
    case Down => 1
    case _ => 0
  }

  /** The direction whose step cancels a step in direction d. */
  function Opposite(d: Direction): (o: Direction)
    ensures DeltaX(o) == -DeltaX(d) && DeltaY(o) == -DeltaY(d)
    ensures o != d
  {
    match d
    case Up => Down
    case Down => Up
    case Left => Right
    case Right => Left
  }

  /** The reversal test of change_direction, written as the four pairs it lists. */
  predicate IsReversal(current: Direction, requested: Direction)
    ensures IsReversal(current, requested) <==> requested == Opposite(current)
  {
    (current == Up && requested == Down)
    || (current == Down && requested == Up)
    || (current == Left && requested == Right)
    || (current == Right && requested == Left)
  }

  /** Two cells that differ by exactly one orthogonal step. */
  predicate Adjacent(p: Point, q: Point) {
    (p.x == q.x && (p.y + 1 == q.y || q.y + 1 == p.y))
    || (p.y == q.y && (p.x + 1 == q.x || q.x + 1 == p.x))
  }

  /** The head's move for one tick: None when the head is on the wall it is moving
      towards (the game ends), otherwise the neighbouring cell. The wall test
      compares against 0 or the last index before the coordinate is changed. */
  function Step(p: Point, d: Direction): (r: Option<Point>)
    ensures r.None? <==>
              (d == Up && p.y == 0) || (d == Down && p.y == BoardHeight - 1)
              || (d == Left && p.x == 0) || (d == Right && p.x == BoardWidth - 1)
    ensures InBounds(p) ==> (r.Some? <==> OnBoard(p.x + DeltaX(d), p.y + DeltaY(d)))
    ensures r.Some? ==> r.value.x == p.x + DeltaX(d) && r.value.y == p.y + DeltaY(d)
    ensures r.Some? ==> Adjacent(p, r.value)
    ensures r.Some? && InBounds(p) ==> InBounds(r.value)
  {
    match d
    case Up => if p.y == 0 then None else Some(p.(y := p.y - 1))
    case Down => if p.y == BoardHeight - 1 then None else Some(p.(y := p.y + 1))
    case Left => if p.x == 0 then None else Some(p.(x := p.x - 1))
    case Right => if p.x == BoardWidth - 1 then None else Some(p.(x := p.x + 1))
  }

  /** Only the opposite direction can bring a step straight back to where it started. */
  lemma StepBackIsOpposite(p: Point, d: Direction, e: Direction)
    requires Step(p, d).Some?
    requires Step(Step(p, d).value, e) == Some(p)
    ensures e == Opposite(d)
  {
  }
}
