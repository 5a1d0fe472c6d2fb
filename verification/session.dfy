/** A session as a sequence of events: animation frames, key presses and
    releases, and clicks on the start and resume buttons. The buttons can only
    be clicked while their menu is shown. */
module Session {
  import opened Layout
  import opened Bricks
  import opened State
  import opened Frame
  import opened Input
  import opened Invariant

  datatype Event =
    | NextFrame
    | Press(key: string)
    | Release(key: string)
    | ClickStart
    | ClickResume

  /** The start button is shown only by the start menu, the resume button only
      by the pause menu; frames and keys can always arrive. */
  predicate Enabled(g: Game, e: Event) {
    match e
    case ClickStart => g.menu == StartMenu
    case ClickResume => g.menu == PauseMenu
    case _ => true
  }

  function Step(g: Game, e: Event): Game {
    match e
    case NextFrame => Tick(g)
    case Press(key) => KeyDown(g, key)
    case Release(key) => KeyUp(g, key)
    case ClickStart => StartGame(g)
    case ClickResume => ResumeGame(g)
  }

  /** Every event of `es` is enabled when it arrives. */
  predicate EnabledRun(g: Game, es: seq<Event>)
    decreases |es|
  {
    |es| == 0 || (Enabled(g, es[0]) && EnabledRun(Step(g, es[0]), es[1..]))
  }

  function Run(g: Game, es: seq<Event>): Game
    decreases |es|
  {
    if |es| == 0 then g else Run(Step(g, es[0]), es[1..])
  }

  ghost predicate Reachable(g: Game) {
    exists es :: EnabledRun(PageLoad(), es) && Run(PageLoad(), es) == g
  }

  lemma StepKeepsInv(g: Game, e: Event)
    requires Inv(g) && Enabled(g, e)
    ensures Inv(Step(g, e))
  {
    match e
    case NextFrame => TickKeepsInv(g);
    case Press(key) => KeyDownKeepsInv(g, key);
    case Release(key) => KeyUpKeepsInv(g, key);
    case ClickStart => StartGameKeepsInv(g);
    case ClickResume => ResumeGameKeepsInv(g);
  }

  lemma {:induction false} RunKeepsInv(g: Game, es: seq<Event>)
    requires Inv(g) && EnabledRun(g, es)
    ensures Inv(Run(g, es))
    decreases |es|
  {
    if |es| > 0 {
      StepKeepsInv(g, es[0]);
      RunKeepsInv(Step(g, es[0]), es[1..]);
    }
  }

  /** Every state a session can reach satisfies the invariant: score plus
      standing bricks is 45, both speeds are 5, the ball stays in the field,
      the paddle on its track, and the game is won exactly at 45 points and
      lost exactly at 0 lives. */
  lemma ReachableInv(g: Game)
    requires Reachable(g)
    ensures Inv(g)
  {
    var es :| EnabledRun(PageLoad(), es) && Run(PageLoad(), es) == g;
    InitialInv();
    RunKeepsInv(PageLoad(), es);
  }

  /** From `g` to `h` the score rises by at most one and only by destroying
      a brick, lives fall by at most one, and a destroyed brick stays destroyed. */
  ghost predicate Progress(g: Game, h: Game) {
    && g.score <= h.score <= g.score + 1
    && h.score - g.score == CountActive(g.bricks) - CountActive(h.bricks)
    && g.lives - 1 <= h.lives <= g.lives
    && forall c, r :: ValidCell(c, r) && !g.bricks[c][r] ==> !h.bricks[c][r]
  }

  lemma TickProgress(g: Game)
    ensures Progress(g, Tick(g))
  {
  }

  lemma KeyDownProgress(g: Game, key: string)
    ensures Progress(g, KeyDown(g, key))
  {
    if IsPauseKey(key) && !IsRightKey(key) && !IsLeftKey(key) && g.gameRunning && g.gamePaused {
      TickProgress(HideMenu(g.(gamePaused := false)));
    }
  }

  lemma KeyUpProgress(g: Game, key: string)
    ensures Progress(g, KeyUp(g, key))
  {
  }

  lemma ResumeProgress(g: Game)
    ensures Progress(g, ResumeGame(g))
  {
    TickProgress(HideMenu(g).(gamePaused := false));
  }

  lemma StartProgress(g: Game)
    requires Inv(g) && g.menu == StartMenu
    ensures Progress(g, StartGame(g))
  {
    var h := StartGame(g);
    assert h.bricks == g.bricks && h.score == g.score && h.lives == g.lives;
  }

  lemma StepProgress(g: Game, e: Event)
    requires Inv(g) && Enabled(g, e)
    ensures Progress(g, Step(g, e))
  {
    match e
    case NextFrame => TickProgress(g);
    case Press(key) => KeyDownProgress(g, key);
    case Release(key) => KeyUpProgress(g, key);
    case ClickStart => StartProgress(g);
    case ClickResume => ResumeProgress(g);
  }

  /** `h` has the same outcome, score, lives, bricks and ball position as `g`. */
  predicate SameResult(g: Game, h: Game) {
    && h.outcome == g.outcome && h.score == g.score && h.lives == g.lives
    && h.bricks == g.bricks && h.ballX == g.ballX && h.ballY == g.ballY
  }

  lemma KeyDownFinished(g: Game, key: string)
    requires Inv(g) && g.outcome != InPlay
    ensures SameResult(g, KeyDown(g, key))
  {
    if IsPauseKey(key) && !IsRightKey(key) && !IsLeftKey(key) && g.gameRunning {
      assert !g.gamePaused;
    }
  }

  lemma ResumeFinished(g: Game)
    requires g.outcome != InPlay
    ensures SameResult(g, ResumeGame(g))
  {
  }

  /** A finished session stays finished: no event changes its outcome, score,
      lives, bricks or ball. */
  lemma FinishedIsFinal(g: Game, e: Event)
    requires Inv(g) && Enabled(g, e) && g.outcome != InPlay
    ensures SameResult(g, Step(g, e))
  {
    match e
    case NextFrame =>
    case Press(key) => KeyDownFinished(g, key);
    case Release(key) =>
    case ClickStart =>
    case ClickResume => ResumeFinished(g);
  }

  /** A ball two steps above the bottom edge, moving down and to the right. */
  function NearBottom(x: int, bricks: Grid): (g: Game)
    ensures g.ballY + g.vy == Height - BallRadius
  {
    Game(0, 2, x, 585, Speed, Speed, StartPaddleX, false, false, true, false, Hidden, bricks, InPlay)
  }

  /** Far below the wall, the brick scan changes nothing. */
  lemma BelowWallNoHit(g: Game)
    requires g.ballY >= BrickY(BrickRowCount - 1) + BrickHeight
    ensures CollisionDetection(g) == g
  {
    forall i, j | ValidCell(i, j) ensures !Hits(g, i, j) {
      if InBrick(i, j, g.ballX, g.ballY) { BrickArea(i, j, g.ballX, g.ballY); }
    }
  }

  /** With the paddle centred, a ball that lands over it bounces back up. */
  lemma PaddleBounce(bricks: Grid)
    ensures Tick(NearBottom(400, bricks)).vy == -Speed
    ensures Tick(NearBottom(400, bricks)).lives == 2
    ensures Tick(NearBottom(400, bricks)).ballY == 590
  {
    var g := NearBottom(400, bricks);
    BelowWallNoHit(g);
    var w := WallBounce(MoveBall(g));
    assert w.ballX == 405 && w.ballY == 590 && w.vx == Speed;
    assert LeavesBottom(w) && OverPaddle(w);
    assert VerticalRule(w) == w.(vy := -Speed);
  }

  /** With the paddle centred, a ball that lands beside it costs a life and is served again. */
  lemma PaddleMiss(bricks: Grid)
    ensures Tick(NearBottom(200, bricks)).lives == 1
    ensures AtServe(Tick(NearBottom(200, bricks)))
    ensures Tick(NearBottom(200, bricks)).outcome == InPlay
  {
    var g := NearBottom(200, bricks);
    BelowWallNoHit(g);
    var w := WallBounce(MoveBall(g));
    assert w.ballX == 205 && w.ballY == 590 && w.vx == Speed;
    assert Misses(w);
    var v := VerticalRule(w);
    assert AtServe(v) && v.lives == 1 && v.outcome == InPlay;
    assert MovePaddle(v) == v;
  }
}
