/** The invariant every state reachable from the loaded page satisfies, and
    its preservation by each operation. */
module Invariant {
  import opened Layout
  import opened Bricks
  import opened State
  import opened Frame
  import opened Input

  /** A velocity component has the serve's magnitude. */
  predicate UnitSpeed(v: int) {
    v == Speed || v == -Speed
  }

  /** The ball's centre is at least one radius away from every edge of the field. */
  predicate InField(x: int, y: int) {
    BallRadius <= x <= Width - BallRadius && BallRadius <= y <= Height - BallRadius
  }

  /** The paddle is never more than one step past either edge, and it stays on
      the lattice of its centred position and its step. */
  predicate PaddleOnTrack(p: int) {
    -PaddleSpeed < p < Width - PaddleWidth + PaddleSpeed && p % PaddleSpeed == StartPaddleX % PaddleSpeed
  }

  predicate Inv(g: Game) {
    // score accounting
    && 0 <= g.score
    && Accounted(g) == BrickCount
    && (g.outcome == Won <==> g.score == BrickCount)
    // lives
    && 0 <= g.lives <= StartLives
    && (g.outcome == Lost <==> g.lives == 0)
    // ball and paddle
    && UnitSpeed(g.vx) && UnitSpeed(g.vy)
    && InField(g.ballX, g.ballY)
    && (g.outcome != Lost ==> InField(g.ballX + g.vx, g.ballY + g.vy))
    && PaddleOnTrack(g.paddleX)
    // run state and menus
    && (g.gameRunning <==> g.menu == Hidden)
    && (g.gamePaused <==> g.menu == PauseMenu)
    && (g.menu == StartMenu ==> g.score == 0 && g.lives == StartLives && g.outcome == InPlay)
  }

  /** The paddle stays within [-2, 702]: it overshoots either edge by at most 2. */
  lemma PaddleBounds(p: int)
    requires PaddleOnTrack(p)
    ensures -2 <= p <= Width - PaddleWidth + 2
  {
  }

  /** A running game is never paused: pausing shows the pause menu, which stops
      the loop. So the pause key's unpausing branch cannot be reached, and the
      pause key of a running game always pauses it. */
  lemma UnpauseUnreachable(g: Game, key: string)
    requires Inv(g)
    ensures !(g.gameRunning && g.gamePaused)
    ensures IsPauseKey(key) && g.gameRunning ==> KeyDown(g, key).gamePaused && KeyDown(g, key).menu == PauseMenu
  {
  }

  /** The loaded page satisfies the invariant. */
  lemma InitialInv()
    ensures Inv(PageLoad())
  {
  }

  /** A won game has no brick left standing, and a game with no brick left
      standing is won. */
  lemma WonIffCleared(g: Game)
    requires Inv(g)
    ensures g.outcome == Won <==> forall c, r :: ValidCell(c, r) ==> !g.bricks[c][r]
  {
    EmptyGrid(g.bricks);
  }

  /** The brick scan keeps the invariant: a hit happens only in the brick band,
      far from the top and bottom edges, so reversing `vy` there is harmless. */
  lemma CollisionKeepsInv(g: Game)
    requires Inv(g) && g.outcome == InPlay && g.gameRunning
    ensures Inv(CollisionDetection(g))
  {
    var s := CollisionDetection(g);
    if HitFrom(g, 0) {
      var i, j :| ValidCell(i, j) && Hits(g, i, j);
      BrickArea(i, j, g.ballX, g.ballY);
      assert s.ballX == g.ballX && s.ballY == g.ballY && s.vx == g.vx;
      assert InField(s.ballX + s.vx, s.ballY + s.vy);
      assert s.score == g.score + 1 <= BrickCount;
      assert s.lives == g.lives && s.paddleX == g.paddleX && s.menu == g.menu;
      assert s.gameRunning == g.gameRunning && s.gamePaused == g.gamePaused;
    }
  }

  /** Movement, walls, bottom edge and paddle keep the invariant of a game in play. */
  lemma AfterScanKeepsInv(s: Game)
    requires Inv(s) && s.outcome == InPlay && s.gameRunning
    ensures Inv(AfterScan(s))
  {
    var m := MoveBall(s);
    assert InField(m.ballX, m.ballY);
    var w := WallBounce(m);
    assert BallRadius <= w.ballX + w.vx <= Width - BallRadius;
    var v := VerticalRule(w);
    if Misses(w) {
      assert v.lives == s.lives - 1;
    } else {
      assert InField(v.ballX + v.vx, v.ballY + v.vy);
    }
    if v.outcome != Lost {
      var h := MovePaddle(v);
      assert PaddleOnTrack(h.paddleX);
    }
  }

  /** A frame keeps the invariant. */
  lemma TickKeepsInv(g: Game)
    requires Inv(g)
    ensures Inv(Tick(g))
  {
    if g.gameRunning && !g.gamePaused && g.outcome == InPlay {
      CollisionKeepsInv(g);
      var s := CollisionDetection(g);
      if s.outcome != Won {
        AfterScanKeepsInv(s);
      }
    }
  }

  lemma KeyDownKeepsInv(g: Game, key: string)
    requires Inv(g)
    ensures Inv(KeyDown(g, key))
  {
    if IsPauseKey(key) && !IsRightKey(key) && !IsLeftKey(key) && g.gameRunning && g.gamePaused {
      TickKeepsInv(HideMenu(g.(gamePaused := false)));
    }
  }

  lemma KeyUpKeepsInv(g: Game, key: string)
    requires Inv(g)
    ensures Inv(KeyUp(g, key))
  {
  }

  /** Starting from the start menu keeps the invariant: the start menu is only
      shown while the wall is complete, which `resetGame` relies on. */
  lemma StartGameKeepsInv(g: Game)
    requires Inv(g) && g.menu == StartMenu
    ensures Inv(StartGame(g))
  {
    var served := ResetGame(HideMenu(g));
    assert Inv(served);
    TickKeepsInv(served);
  }

  lemma ResumeGameKeepsInv(g: Game)
    requires Inv(g)
    ensures Inv(ResumeGame(g))
  {
    TickKeepsInv(HideMenu(g).(gamePaused := false));
  }
}
