/** Fixed dimensions of the play field, the ball, the paddle and the brick wall,
    and the position of each brick. After the game is started the canvas is
    800 x 600, so every quantity of the game is an integer. */
module Layout {

  const Width: int := 800
  const Height: int := 600

  const BallRadius: int := 10
  /** Magnitude of both velocity components at every serve. */
  const Speed: int := 5

  const PaddleWidth: int := 100
  const PaddleSpeed: int := 8

  const StartLives: int := 4

  const BrickRowCount: int := 5
  const BrickColumnCount: int := 9
  const BrickWidth: int := 75
  const BrickHeight: int := 20
  const BrickPadding: int := 10
  const BrickOffsetTop: int := 60
  const BrickOffsetLeft: int := 30
  const BrickCount: int := BrickRowCount * BrickColumnCount

  /** Where the ball and the paddle are put at a serve. Both divisions are exact. */
  const StartBallX: int := Width / 2
  const StartBallY: int := Height - 30
  const StartPaddleX: int := (Width - PaddleWidth) / 2

  predicate ValidCell(c: int, r: int) {
    0 <= c < BrickColumnCount && 0 <= r < BrickRowCount
  }

  /** Left edge of every brick of column `c`. */
  function BrickX(c: int): int {
    c * (BrickWidth + BrickPadding) + BrickOffsetLeft
  }

  /** Top edge of every brick of row `r`. */
  function BrickY(r: int): int {
    r * (BrickHeight + BrickPadding) + BrickOffsetTop
  }

  /** The point (x, y) lies strictly inside the rectangle of brick (c, r). */
  predicate InBrick(c: int, r: int, x: int, y: int) {
    && BrickX(c) < x < BrickX(c) + BrickWidth
    && BrickY(r) < y < BrickY(r) + BrickHeight
  }

  /** Every brick of the wall lies on the canvas, and the next column (row)
      starts one padding after this one ends. */
  lemma WallOnCanvas(c: int, r: int)
    requires ValidCell(c, r)
    ensures 0 < BrickX(c) && BrickX(c) + BrickWidth < Width
    ensures 0 < BrickY(r) && BrickY(r) + BrickHeight < Height
    ensures BrickX(c + 1) == BrickX(c) + BrickWidth + BrickPadding
    ensures BrickY(r + 1) == BrickY(r) + BrickHeight + BrickPadding
  {
  }

  /** The x-range of a column excludes every other column: the padding keeps them apart. */
  lemma ColumnsDisjoint(c: int, x: int, y: int)
    ensures BrickX(c) < x < BrickX(c) + BrickWidth ==>
              forall i, j :: i != c ==> !InBrick(i, j, x, y)
  {
  }

  /** Within one column, a height lies inside at most one brick. */
  lemma RowsDisjoint(c: int, r: int, x: int, y: int)
    ensures InBrick(c, r, x, y) ==> forall j :: j != r ==> !InBrick(c, j, x, y)
  {
  }

  /** Every point inside a brick lies strictly between the wall's left edge and
      the right edge of its last column, and between its top edge and the bottom
      edge of its last row (30 < x < 785, 60 < y < 200). */
  lemma BrickArea(c: int, r: int, x: int, y: int)
    requires ValidCell(c, r) && InBrick(c, r, x, y)
    ensures BrickOffsetLeft < x < BrickX(BrickColumnCount - 1) + BrickWidth
    ensures BrickOffsetTop < y < BrickY(BrickRowCount - 1) + BrickHeight
  {
  }
}
