/** The game's global variables gathered into one immutable record, and the
    operations of the source that only assign some of them: the serve, the
    full reset, and the three menu switches. */
module State {
  import opened Layout
  import opened Bricks

  /** `Won` and `Lost` stand for the "YOU WIN!" / "GAME OVER" alert followed by
      a page reload: the session is over and no further frame of it runs. */
  datatype Outcome = InPlay | Won | Lost

  /** Which menu overlay is shown; it decides which buttons can be clicked. */
  datatype Menu = StartMenu | PauseMenu | Hidden

  datatype Game = Game(
    score: int,
    lives: int,
    ballX: int,
    ballY: int,
    vx: int,
    vy: int,
    paddleX: int,
    rightPressed: bool,
    leftPressed: bool,
    gameRunning: bool,
    gamePaused: bool,
    menu: Menu,
    bricks: Grid,
    outcome: Outcome)

  /** Ball and paddle are where a serve puts them, ball moving up and to the right. */
  predicate AtServe(g: Game) {
    && g.ballX == StartBallX && g.ballY == StartBallY
    && g.vx == Speed && g.vy == -Speed
    && g.paddleX == StartPaddleX
  }

  /** Only the ball and the paddle differ between `g` and `h`. */
  predicate OnlyBallAndPaddle(g: Game, h: Game) {
    h == g.(ballX := h.ballX, ballY := h.ballY, vx := h.vx, vy := h.vy, paddleX := h.paddleX)
  }

  /** Re-centres ball and paddle and relaunches the ball; used by the reset
      and after a lost life. */
  function Serve(g: Game): (h: Game)
    ensures AtServe(h)
    ensures OnlyBallAndPaddle(g, h)
  {
    g.(ballX := StartBallX, ballY := StartBallY, vx := Speed, vy := -Speed, paddleX := StartPaddleX)
  }

  /** `resetGame`: new score and lives plus a serve; the brick wall is left as it is. */
  function ResetGame(g: Game): (h: Game)
    ensures AtServe(h)
    ensures h.score == 0 && h.lives == StartLives
    ensures h.bricks == g.bricks
    ensures h == Serve(g).(score := h.score, lives := h.lives)
  {
    Serve(g).(score := 0, lives := StartLives)
  }

  /** `showStartMenu`: the start menu appears and the loop stops. */
  function ShowStartMenu(g: Game): (h: Game)
    ensures !h.gameRunning && h.menu == StartMenu
    ensures h == g.(gameRunning := h.gameRunning, menu := h.menu)
  {
    g.(gameRunning := false, menu := StartMenu)
  }

  /** `showPauseMenu`: the pause menu appears and the loop stops. */
  function ShowPauseMenu(g: Game): (h: Game)
    ensures !h.gameRunning && h.menu == PauseMenu
    ensures h == g.(gameRunning := h.gameRunning, menu := h.menu)
  {
    g.(gameRunning := false, menu := PauseMenu)
  }

  /** `hideMenu`: the menu disappears and the loop may run. */
  function HideMenu(g: Game): (h: Game)
    ensures h.gameRunning && h.menu == Hidden
    ensures h == g.(gameRunning := h.gameRunning, menu := h.menu)
  {
    g.(gameRunning := true, menu := Hidden)
  }

  /** The state once the page script has run: a full wall, no key held, the
      start menu shown (which stops the loop), and then `resetGame`. */
  function PageLoad(): (g: Game)
    ensures forall c, r :: ValidCell(c, r) ==> g.bricks[c][r]
    ensures AtServe(g) && g.score == 0 && g.lives == StartLives
    ensures !g.gameRunning && !g.gamePaused && g.menu == StartMenu
    ensures !g.rightPressed && !g.leftPressed && g.outcome == InPlay
  {
    var loaded := Game(0, StartLives, StartBallX, StartBallY, Speed, -Speed, StartPaddleX,
                       false, false, false, false, Hidden, Full(), InPlay);
    ResetGame(ShowStartMenu(loaded))
  }
}
