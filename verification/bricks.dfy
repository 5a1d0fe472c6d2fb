/** The brick wall: `BrickColumnCount` columns of `BrickRowCount` statuses each,
    indexed `g[c][r]` like the source's `bricks[c][r]`. `true` is status 1 (the
    brick is still standing), `false` is status 0 (destroyed). Brick positions
    are not stored: they are a function of (c, r), see `Layout.BrickX`. */
module Bricks {
  import opened Layout

  predicate IsGrid(g: seq<seq<bool>>) {
    |g| == BrickColumnCount && forall c :: 0 <= c < |g| ==> |g[c]| == BrickRowCount
  }

  type Grid = g: seq<seq<bool>> | IsGrid(g)
    witness seq(BrickColumnCount, _ => seq(BrickRowCount, _ => true))

  /** Number of standing bricks in one column. */
  function CountColumn(col: seq<bool>): (n: nat)
    ensures n <= |col|
    ensures n == 0 <==> forall r :: 0 <= r < |col| ==> !col[r]
    ensures n == |col| <==> forall r :: 0 <= r < |col| ==> col[r]
  {
    if |col| == 0 then 0
    else
      assert forall r :: 1 <= r < |col| ==> col[r] == col[1..][r - 1];
      (if col[0] then 1 else 0) + CountColumn(col[1..])
  }

  /** Number of standing bricks in a list of columns. */
  function CountActive(cols: seq<seq<bool>>): (n: nat)
    ensures (forall c :: 0 <= c < |cols| ==> |cols[c]| <= BrickRowCount) ==>
              n <= BrickRowCount * |cols|
    ensures n == 0 <==> forall c :: 0 <= c < |cols| ==> CountColumn(cols[c]) == 0
  {
    if |cols| == 0 then 0
    else
      assert forall c :: 1 <= c < |cols| ==> cols[c] == cols[1..][c - 1];
      CountColumn(cols[0]) + CountActive(cols[1..])
  }

  /** The wall as it is built once, when the page loads: every brick standing. */
  function Full(): (g: Grid)
    ensures forall c, r :: ValidCell(c, r) ==> g[c][r]
    ensures CountActive(g) == BrickCount
  {
    var g: Grid := seq(BrickColumnCount, _ => seq(BrickRowCount, _ => true));
    FullCount(g, BrickColumnCount);
    g
  }

  /** Sets the status of brick (c, r) to 0. */
  function Destroy(g: Grid, c: int, r: int): (h: Grid)
    requires ValidCell(c, r)
    ensures !h[c][r]
    ensures forall i, j :: ValidCell(i, j) && (i != c || j != r) ==> h[i][j] == g[i][j]
    ensures CountActive(h) == CountActive(g) - (if g[c][r] then 1 else 0)
  {
    ClearColumnCount(g[c], r);
    ReplaceColumnCount(g, c, g[c][r := false]);
    g[c := g[c][r := false]]
  }

  /** A grid is empty exactly when no brick is standing. */
  lemma EmptyGrid(g: Grid)
    ensures CountActive(g) == 0 <==> forall c, r :: ValidCell(c, r) ==> !g[c][r]
  {
    if CountActive(g) == 0 {
      forall c, r | ValidCell(c, r) ensures !g[c][r] {
        assert CountColumn(g[c]) == 0;
      }
    } else {
      var c :| 0 <= c < |g| && CountColumn(g[c]) != 0;
      var r :| 0 <= r < |g[c]| && g[c][r];
      assert ValidCell(c, r);
    }
  }

  /** A grid never holds more than `BrickCount` standing bricks. */
  lemma AtMostBrickCount(g: Grid)
    ensures CountActive(g) <= BrickCount
  {
  }

  lemma {:induction false} FullCount(g: seq<seq<bool>>, n: nat)
    requires |g| == n
    requires forall c :: 0 <= c < n ==> |g[c]| == BrickRowCount
    requires forall c, r :: 0 <= c < n && 0 <= r < BrickRowCount ==> g[c][r]
    ensures CountActive(g) == BrickRowCount * n
  {
    if n > 0 {
      assert CountColumn(g[0]) == BrickRowCount;
      FullCount(g[1..], n - 1);
    }
  }

  /** Clearing one cell of a column removes one standing brick if it was standing. */
  lemma {:induction false} ClearColumnCount(col: seq<bool>, r: int)
    requires 0 <= r < |col|
    ensures CountColumn(col[r := false]) == CountColumn(col) - (if col[r] then 1 else 0)
  {
    if r == 0 {
      assert col[r := false][1..] == col[1..];
    } else {
      ClearColumnCount(col[1..], r - 1);
      assert col[r := false][1..] == col[1..][r - 1 := false];
    }
  }

  /** Replacing one column changes the total by the difference of the column counts. */
  lemma {:induction false} ReplaceColumnCount(cols: seq<seq<bool>>, c: int, col: seq<bool>)
    requires 0 <= c < |cols|
    ensures CountActive(cols[c := col]) == CountActive(cols) - CountColumn(cols[c]) + CountColumn(col)
  {
    if c == 0 {
      assert cols[c := col][1..] == cols[1..];
    } else {
      ReplaceColumnCount(cols[1..], c - 1, col);
      assert cols[c := col][1..] == cols[1..][c - 1 := col];
    }
  }
}
