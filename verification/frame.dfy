/** One frame of the game loop (`draw` without its rendering): brick
    collisions, ball movement, the wall, top and bottom rules, and the paddle. */
module Frame {
  import opened Layout
  import opened Bricks
  import opened State

  /** Brick (c, r) is standing and the ball's centre is strictly inside it. */
  predicate Hits(g: Game, c: int, r: int)
    requires ValidCell(c, r)
  {
    g.bricks[c][r] && InBrick(c, r, g.ballX, g.ballY)
  }

  /** Some standing brick among columns `c..` contains the ball's centre. */
  ghost predicate HitFrom(g: Game, c: int) {
    exists i, j :: ValidCell(i, j) && c <= i && Hits(g, i, j)
  }

  /** Only the fields a brick collision writes differ between `g` and `h`. */
  predicate OnlyCollisionFields(g: Game, h: Game) {
    h == g.(score := h.score, vy := h.vy, bricks := h.bricks, outcome := h.outcome)
  }

  /** Score plus standing bricks: the quantity every frame preserves. */
  function Accounted(g: Game): int {
    g.score + CountActive(g.bricks)
  }

  /** The body of the collision scan for brick (c, r). */
  function HitBrick(g: Game, c: int, r: int): (h: Game)
    requires ValidCell(c, r)
    ensures OnlyCollisionFields(g, h)
    ensures Hits(g, c, r) ==> h.score == g.score + 1 && h.vy == -g.vy && !h.bricks[c][r]
    ensures !Hits(g, c, r) ==> h == g
    ensures forall i, j :: ValidCell(i, j) && (i != c || j != r) ==> h.bricks[i][j] == g.bricks[i][j]
    ensures Accounted(h) == Accounted(g)
    ensures h.outcome == (if Hits(g, c, r) && h.score == BrickCount then Won else g.outcome)
  {
    if Hits(g, c, r) then
      var score := g.score + 1;
      g.(vy := -g.vy, bricks := Destroy(g.bricks, c, r), score := score,
         outcome := if score == BrickCount then Won else g.outcome)
    else g
  }

  /** The inner loop of the scan: rows `r..` of column `c`, top to bottom. */
  function ScanColumn(g: Game, c: int, r: int): (h: Game)
    requires 0 <= c < BrickColumnCount && 0 <= r <= BrickRowCount
    decreases BrickRowCount - r
    ensures OnlyCollisionFields(g, h)
    ensures forall i, j :: ValidCell(i, j) ==>
              h.bricks[i][j] == (g.bricks[i][j] && !(i == c && r <= j && InBrick(i, j, g.ballX, g.ballY)))
    ensures Accounted(h) == Accounted(g)
    ensures (forall j :: r <= j < BrickRowCount ==> !Hits(g, c, j)) ==> h == g
    ensures (exists j :: r <= j < BrickRowCount && Hits(g, c, j)) ==> h != g
    ensures h == g || (h.score == g.score + 1 && h.vy == -g.vy && BrickX(c) < g.ballX < BrickX(c) + BrickWidth)
    ensures h.outcome == (if h.score == g.score + 1 == BrickCount then Won else g.outcome)
  {
    if r == BrickRowCount then g
    else if Hits(g, c, r) then
      // the ball lies in no other row, so the rest of the column is untouched
      var hit := HitBrick(g, c, r);
      RowsDisjoint(c, r, g.ballX, g.ballY);
      assert forall j :: r < j < BrickRowCount ==> !Hits(hit, c, j);
      ScanColumn(hit, c, r + 1)
    else
      assert HitBrick(g, c, r) == g;
      ScanColumn(HitBrick(g, c, r), c, r + 1)
  }

  /** The outer loop of the scan: columns `c..`, left to right. */
  function ScanGrid(g: Game, c: int): (h: Game)
    requires 0 <= c <= BrickColumnCount
    decreases BrickColumnCount - c
    ensures OnlyCollisionFields(g, h)
    ensures forall i, j :: ValidCell(i, j) ==>
              h.bricks[i][j] == (g.bricks[i][j] && !(c <= i && InBrick(i, j, g.ballX, g.ballY)))
    ensures forall i, j :: ValidCell(i, j) && h.bricks[i][j] ==> g.bricks[i][j]
    ensures Accounted(h) == Accounted(g)
    ensures h.score == g.score || h.score == g.score + 1
    ensures !HitFrom(g, c) ==> h == g
    ensures HitFrom(g, c) ==> h.score == g.score + 1 && h.vy == -g.vy
    ensures h.outcome == (if h.score == g.score + 1 == BrickCount then Won else g.outcome)
  {
    if c == BrickColumnCount then g
    else
      ColumnsDisjoint(c, g.ballX, g.ballY);
      ScanGrid(ScanColumn(g, c, 0), c + 1)
  }

  /** `collisionDetection`: every standing brick that holds the ball's centre
      is destroyed; since the bricks do not overlap that is at most one brick,
      and a hit adds one point and reverses the vertical velocity. */
  function CollisionDetection(g: Game): (h: Game)
    ensures OnlyCollisionFields(g, h)
    ensures forall c, r :: ValidCell(c, r) ==>
              h.bricks[c][r] == (g.bricks[c][r] && !InBrick(c, r, g.ballX, g.ballY))
    ensures forall c, r :: ValidCell(c, r) && h.bricks[c][r] ==> g.bricks[c][r]
    ensures Accounted(h) == Accounted(g)
    ensures h.score == g.score || h.score == g.score + 1
    ensures !HitFrom(g, 0) ==> h == g
    ensures HitFrom(g, 0) ==> h.score == g.score + 1 && h.vy == -g.vy
    ensures h.outcome == Won <==> g.outcome == Won || (HitFrom(g, 0) && g.score + 1 == BrickCount)
  {
    ScanGrid(g, 0)
  }

  /** The ball's next position would leave [BallRadius, Width - BallRadius]. */
  predicate LeavesSides(g: Game) {
    g.ballX + g.vx > Width - BallRadius || g.ballX + g.vx < BallRadius
  }

  /** The ball's next position would go above BallRadius. */
  predicate LeavesTop(g: Game) {
    g.ballY + g.vy < BallRadius
  }

  /** The ball's next position would go below Height - BallRadius, the top rule not applying. */
  predicate LeavesBottom(g: Game) {
    !LeavesTop(g) && g.ballY + g.vy > Height - BallRadius
  }

  /** The ball's centre is strictly above the paddle's span. */
  predicate OverPaddle(g: Game) {
    g.paddleX < g.ballX < g.paddleX + PaddleWidth
  }

  /** The ball reaches the bottom edge and misses the paddle. */
  predicate Misses(g: Game) {
    LeavesBottom(g) && !OverPaddle(g)
  }

  /** The ball advances by exactly one step of its velocity; nothing else changes. */
  function MoveBall(g: Game): (h: Game)
    ensures h == g.(ballX := h.ballX, ballY := h.ballY)
    ensures h.ballX - g.ballX == g.vx && h.ballY - g.ballY == g.vy
  {
    g.(ballX := g.ballX + g.vx, ballY := g.ballY + g.vy)
  }

  /** The side-wall rule, applied to the moved ball. */
  function WallBounce(g: Game): (h: Game)
    ensures h == g.(vx := h.vx)
    ensures LeavesSides(g) ==> h.vx == -g.vx
    ensures !LeavesSides(g) ==> h.vx == g.vx
  {
    if LeavesSides(g) then g.(vx := -g.vx) else g
  }

  /** The top rule, and else the bottom rule: a bounce off the paddle, or a
      lost life followed by a serve, or the end of the game. */
  function VerticalRule(g: Game): (h: Game)
    ensures h.score == g.score && h.bricks == g.bricks
    ensures h.rightPressed == g.rightPressed && h.leftPressed == g.leftPressed
    ensures h.gameRunning == g.gameRunning && h.gamePaused == g.gamePaused && h.menu == g.menu
    ensures !Misses(g) ==> h == g.(vy := h.vy)
    ensures !Misses(g) && (LeavesTop(g) || LeavesBottom(g)) ==> h.vy == -g.vy
    ensures !LeavesTop(g) && !LeavesBottom(g) ==> h == g
    ensures Misses(g) ==> h.lives == g.lives - 1
    ensures Misses(g) && g.lives <= 1 ==> h.outcome == Lost && h == g.(lives := h.lives, outcome := h.outcome)
    ensures Misses(g) && g.lives > 1 ==> AtServe(h) && h.outcome == g.outcome
  {
    if LeavesTop(g) then g.(vy := -g.vy)
    else if LeavesBottom(g) then
      if OverPaddle(g) then g.(vy := -g.vy)
      else
        var missed := g.(lives := g.lives - 1);
        if missed.lives <= 0 then missed.(outcome := Lost) else Serve(missed)
    else g
  }

  /** Paddle movement: right has priority over left; each direction is
      refused only once the paddle is at or past its edge, with no clamping. */
  function MovePaddle(g: Game): (h: Game)
    ensures h == g.(paddleX := h.paddleX)
    ensures h.paddleX == g.paddleX + PaddleSpeed <==> g.rightPressed && g.paddleX < Width - PaddleWidth
    ensures h.paddleX == g.paddleX - PaddleSpeed <==>
              !(g.rightPressed && g.paddleX < Width - PaddleWidth) && g.leftPressed && g.paddleX > 0
    ensures h.paddleX == g.paddleX || h.paddleX == g.paddleX + PaddleSpeed || h.paddleX == g.paddleX - PaddleSpeed
  {
    if g.rightPressed && g.paddleX < Width - PaddleWidth then g.(paddleX := g.paddleX + PaddleSpeed)
    else if g.leftPressed && g.paddleX > 0 then g.(paddleX := g.paddleX - PaddleSpeed)
    else g
  }

  /** What a frame does once the brick scan has not ended the game: movement,
      the wall rules, and the paddle unless the game was just lost. */
  function AfterScan(s: Game): (h: Game)
    ensures h.score == s.score && h.bricks == s.bricks
    ensures s.lives - 1 <= h.lives <= s.lives
    ensures h.rightPressed == s.rightPressed && h.leftPressed == s.leftPressed
    ensures h.gameRunning == s.gameRunning && h.gamePaused == s.gamePaused && h.menu == s.menu
    ensures s.outcome == InPlay && h.outcome == Lost ==> h.lives <= 0
    ensures h.outcome == s.outcome || h.outcome == Lost
  {
    var v := VerticalRule(WallBounce(MoveBall(s)));
    if v.outcome == Lost then v else MovePaddle(v)
  }

  /** One call of `draw`, without its rendering. */
  function Tick(g: Game): (h: Game)
    ensures !g.gameRunning || g.gamePaused || g.outcome != InPlay ==> h == g
    ensures Accounted(h) == Accounted(g)
    ensures g.score <= h.score <= g.score + 1
    ensures g.lives - 1 <= h.lives <= g.lives
    ensures forall c, r :: ValidCell(c, r) && h.bricks[c][r] ==> g.bricks[c][r]
    ensures h.rightPressed == g.rightPressed && h.leftPressed == g.leftPressed
    ensures h.gameRunning == g.gameRunning && h.gamePaused == g.gamePaused && h.menu == g.menu
    ensures g.outcome == InPlay && h.outcome == Won ==> h.score == BrickCount
    ensures g.outcome == InPlay && h.outcome == Lost ==> h.lives <= 0
  {
    if !g.gameRunning || g.gamePaused || g.outcome != InPlay then g
    else
      var scanned := CollisionDetection(g);
      if scanned.outcome == Won then scanned else AfterScan(scanned)
  }
}
