/** Keyboard handlers and the two menu buttons that start or continue play.
    A key is the `key` string of the browser's keyboard event. */
module Input {
  import opened Layout
  import opened Bricks
  import opened State
  import opened Frame

  predicate IsRightKey(key: string) {
    key == "Right" || key == "ArrowRight"
  }

  predicate IsLeftKey(key: string) {
    key == "Left" || key == "ArrowLeft"
  }

  predicate IsPauseKey(key: string) {
    key == " " || key == "Spacebar"
  }

  /** `keyDownHandler`. The pause key only acts while the loop is running;
      pausing shows the pause menu, which stops the loop, and unpausing hides
      the menu and runs a frame at once, exactly as the resume button does. */
  function KeyDown(g: Game, key: string): (h: Game)
    ensures IsRightKey(key) ==> h == g.(rightPressed := true)
    ensures IsLeftKey(key) ==> h == g.(leftPressed := true)
    ensures !IsRightKey(key) && !IsLeftKey(key) && !IsPauseKey(key) ==> h == g
    ensures IsPauseKey(key) && !g.gameRunning ==> h == g
    ensures IsPauseKey(key) && g.gameRunning && !g.gamePaused ==>
              h.gamePaused && !h.gameRunning && h.menu == PauseMenu &&
              h == g.(gamePaused := h.gamePaused, gameRunning := h.gameRunning, menu := h.menu)
    ensures IsPauseKey(key) && g.gameRunning && g.gamePaused ==>
              && !h.gamePaused && h.gameRunning && h.menu == Hidden
              && h == ResumeGame(g)
  {
    if IsRightKey(key) then g.(rightPressed := true)
    else if IsLeftKey(key) then g.(leftPressed := true)
    else if IsPauseKey(key) then
      if g.gameRunning then
        var toggled := g.(gamePaused := !g.gamePaused);
        if toggled.gamePaused then ShowPauseMenu(toggled) else Tick(HideMenu(toggled))
      else g
    else g
  }

  /** `keyUpHandler`: releasing a movement key clears its flag; nothing else. */
  function KeyUp(g: Game, key: string): (h: Game)
    ensures IsRightKey(key) ==> h == g.(rightPressed := false)
    ensures IsLeftKey(key) ==> h == g.(leftPressed := false)
    ensures !IsRightKey(key) && !IsLeftKey(key) ==> h == g
  {
    if IsRightKey(key) then g.(rightPressed := false)
    else if IsLeftKey(key) then g.(leftPressed := false)
    else g
  }

  /** `startGame`: hide the menu, reset, and run the first frame. From a serve
      that frame can neither hit a brick nor reach an edge, so it only moves the
      ball one step up and to the right. */
  function StartGame(g: Game): (h: Game)
    ensures h.gameRunning && h.menu == Hidden && h.gamePaused == g.gamePaused
    ensures h.score == 0 && h.lives == StartLives && h.bricks == g.bricks
    ensures g.outcome == InPlay && !g.gamePaused ==>
              && h.ballX == StartBallX + Speed && h.ballY == StartBallY - Speed
              && h.vx == Speed && h.vy == -Speed && h.outcome == InPlay
  {
    var served := ResetGame(HideMenu(g));
    if g.outcome == InPlay && !g.gamePaused then FirstFrame(served); Tick(served)
    else Tick(served)
  }

  /** `resumeGame`: hide the menu, clear the pause flag, and run a frame. */
  function ResumeGame(g: Game): (h: Game)
    ensures h.gameRunning && !h.gamePaused && h.menu == Hidden
    ensures h.score >= g.score && h.lives <= g.lives
  {
    Tick(HideMenu(g).(gamePaused := false))
  }

  /** No brick holds the ball at its serve position. */
  lemma ServeMissesBricks(g: Game)
    requires AtServe(g)
    ensures !HitFrom(g, 0)
  {
    forall i, j | ValidCell(i, j) ensures !Hits(g, i, j) {
      if InBrick(i, j, g.ballX, g.ballY) {
        BrickArea(i, j, g.ballX, g.ballY);
      }
    }
  }

  /** The frame right after a serve only moves the ball and the paddle. */
  lemma FirstFrame(g: Game)
    requires AtServe(g) && g.gameRunning && !g.gamePaused && g.outcome == InPlay
    ensures Tick(g) == MovePaddle(MoveBall(g))
  {
    ServeMissesBricks(g);
    var m := MoveBall(g);
    assert !LeavesSides(m) && !LeavesTop(m) && !LeavesBottom(m);
  }

  /** Either menu stops the loop, so frames change nothing while it is shown;
      hiding the pause menu of a game that was running restores that game. */
  lemma MenusStopTheLoop(g: Game)
    ensures Tick(ShowPauseMenu(g)) == ShowPauseMenu(g)
    ensures Tick(ShowStartMenu(g)) == ShowStartMenu(g)
    ensures g.gameRunning && g.menu == Hidden ==> HideMenu(ShowPauseMenu(g)) == g
  {
  }

  /** Releasing a movement key after pressing it is the same as releasing it. */
  lemma PressRelease(g: Game, key: string)
    requires IsRightKey(key) || IsLeftKey(key)
    ensures KeyUp(KeyDown(g, key), key) == KeyUp(g, key)
    ensures !g.rightPressed && !g.leftPressed ==> KeyUp(KeyDown(g, key), key) == g
  {
  }

  /** Pressing a running game's pause key and then clicking resume runs exactly
      the frame the game would have run without the pause. */
  lemma PauseThenResume(g: Game, key: string)
    requires IsPauseKey(key)
    requires g.gameRunning && !g.gamePaused && g.menu == Hidden
    ensures ResumeGame(KeyDown(g, key)) == Tick(g)
  {
  }

  /** Once the pause key has paused the game, the loop is stopped: frames and
      further presses of the pause key change nothing. */
  lemma PauseFreezes(g: Game, key: string)
    requires IsPauseKey(key)
    requires g.gameRunning && !g.gamePaused
    ensures Tick(KeyDown(g, key)) == KeyDown(g, key)
    ensures KeyDown(KeyDown(g, key), key) == KeyDown(g, key)
  {
  }
}
