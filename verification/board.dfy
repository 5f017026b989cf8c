/** The 4x4 board of the 2048 game: the quarter turn, the move to the left
    over every row, the four directions built from them, and the test for a
    board on which some move is still possible. */
module Board {
  import opened RowMerge

  /** The board is always 4 by 4. */
  const N := 4

  type Grid = seq<seq<Cell>>

  /** The four moves the keyboard can ask for. */
  datatype Direction = Left | Right | Up | Down

  predicate IsBoard(b: Grid)
  {
    |b| == N && forall r :: 0 <= r < N ==> |b[r]| == N
  }

  predicate InGrid(r: int, c: int)
  {
    0 <= r < N && 0 <= c < N
  }

  /** Every tile holds a power of two of at least 2. */
  predicate TilesValid(b: Grid)
  {
    forall r :: 0 <= r < |b| ==> RowTilesValid(b[r])
  }

  function EmptyBoard(): Grid
  {
    seq(N, _ => seq(N, _ => Empty))
  }

  /** The board turned a quarter clockwise: the cell at (i, j) moves to (j, N - 1 - i). */
  function Rotated(b: Grid): (r: Grid)
    requires IsBoard(b)
    ensures IsBoard(r)
    ensures forall i, j :: InGrid(i, j) ==> r[j][N - 1 - i] == b[i][j]
  {
    seq(N, row requires 0 <= row < N => seq(N, col requires 0 <= col < N => b[N - 1 - col][row]))
  }

  /** Every row replaced by its merged row. */
  function MoveLeftBoard(b: Grid): (r: Grid)
    ensures |r| == |b|
    ensures IsBoard(b) ==> IsBoard(r)
  {
    seq(|b|, k requires 0 <= k < |b| => MergedRow(b[k]))
  }

  /** What a move to the left adds to the score: the gains of all rows. */
  function BoardGain(b: Grid): int
  {
    if b == [] then 0 else BoardGain(b[..|b| - 1]) + Gain(Values(b[|b| - 1]))
  }

  /** The gain of the first `i + 1` rows extends that of the first `i` by the
      gain of row `i`. */
  lemma BoardGainPrefix(b: Grid, i: int)
    requires 0 <= i < |b|
    ensures BoardGain(b[..i + 1]) == BoardGain(b[..i]) + Gain(Values(b[i]))
  {
    assert b[..i + 1][..i] == b[..i];
  }

  /** The board after a move in direction `d`, built exactly as the game builds
      it: quarter turns, a move to the left, and the turns that complete four. */
  function Shifted(d: Direction, b: Grid): Grid
    requires IsBoard(b)
  {
    match d
    case Left => MoveLeftBoard(b)
    case Right => Rotated(Rotated(MoveLeftBoard(Rotated(Rotated(b)))))
    case Up => Rotated(MoveLeftBoard(Rotated(Rotated(Rotated(b)))))
    case Down => Rotated(Rotated(Rotated(MoveLeftBoard(Rotated(b)))))
  }

  /** What a move in direction `d` adds to the score. */
  function ShiftGain(d: Direction, b: Grid): int
    requires IsBoard(b)
  {
    match d
    case Left => BoardGain(b)
    case Right => BoardGain(Rotated(Rotated(b)))
    case Up => BoardGain(Rotated(Rotated(Rotated(b))))
    case Down => BoardGain(Rotated(b))
  }

  function Column(b: Grid, c: int): seq<Cell>
    requires IsBoard(b) && 0 <= c < N
  {
    seq(N, r requires 0 <= r < N => b[r][c])
  }

  function Reverse<T>(s: seq<T>): seq<T>
  {
    seq(|s|, k requires 0 <= k < |s| => s[|s| - 1 - k])
  }

  /** The k-th line a move in direction `d` works along: a row for Left and
      Right, a column (top to bottom) for Up and Down. */
  function Line(d: Direction, b: Grid, k: int): seq<Cell>
    requires IsBoard(b) && 0 <= k < N
  {
    if d.Left? || d.Right? then b[k] else Column(b, k)
  }

  /** A line merged toward the side `d` names: toward its start for Left and
      Up, toward its end for Right and Down. */
  function MergedToward(d: Direction, line: seq<Cell>): seq<Cell>
  {
    if d.Left? || d.Up? then MergedRow(line) else Reverse(MergedRow(Reverse(line)))
  }

  /** A line read from the side a move in direction `d` merges toward. */
  function Oriented(d: Direction, line: seq<Cell>): seq<Cell>
  {
    if d.Left? || d.Up? then line else Reverse(line)
  }

  /** The gains of the first `n` lines of a move in direction `d`, each line
      read toward the side the move merges toward. */
  function LinesGain(d: Direction, b: Grid, n: int): int
    requires IsBoard(b) && 0 <= n <= N
  {
    if n == 0 then 0 else LinesGain(d, b, n - 1) + Gain(Values(Oriented(d, Line(d, b, n - 1))))
  }

  /** The cell at (r, c) is empty or equals the cell above it or to its left. */
  predicate OpenAt(b: Grid, r: int, c: int)
    requires IsBoard(b) && InGrid(r, c)
  {
    b[r][c].Empty? || (r > 0 && b[r][c] == b[r - 1][c]) || (c > 0 && b[r][c] == b[r][c - 1])
  }

  /** The test `can_move` performs. */
  ghost predicate Movable(b: Grid)
    requires IsBoard(b)
  {
    exists r, c :: InGrid(r, c) && OpenAt(b, r, c)
  }

  ghost predicate HasEmpty(b: Grid)
    requires IsBoard(b)
  {
    exists r, c :: InGrid(r, c) && b[r][c].Empty?
  }

  predicate Adjacent(r: int, c: int, r2: int, c2: int)
  {
    (r == r2 && (c2 == c + 1 || c == c2 + 1)) || (c == c2 && (r2 == r + 1 || r == r2 + 1))
  }

  /** Two horizontally or vertically adjacent tiles hold the same value. */
  ghost predicate HasEqualNeighbours(b: Grid)
    requires IsBoard(b)
  {
    exists r, c, r2, c2 ::
      InGrid(r, c) && InGrid(r2, c2) && Adjacent(r, c, r2, c2) && b[r][c].Tile? && b[r][c] == b[r2][c2]
  }

  /** `after` is `before` with one of its empty cells turned into a 2, or
      `before` itself when no cell is empty. */
  ghost predicate Spawned(before: Grid, after: Grid)
    requires IsBoard(before)
  {
    if HasEmpty(before) then
      exists r, c :: InGrid(r, c) && before[r][c].Empty? && after == before[r := before[r][c := Tile(2)]]
    else
      after == before
  }

  lemma RotatedTwiceAt(x: Grid)
    requires IsBoard(x)
    ensures forall r, c :: InGrid(r, c) ==> Rotated(Rotated(x))[r][c] == x[N - 1 - r][N - 1 - c]
  {
    forall r, c | InGrid(r, c) ensures Rotated(Rotated(x))[r][c] == x[N - 1 - r][N - 1 - c] {
      assert Rotated(Rotated(x))[r][c] == Rotated(x)[N - 1 - c][r];
    }
  }

  lemma RotatedThriceAt(x: Grid)
    requires IsBoard(x)
    ensures forall r, c :: InGrid(r, c) ==> Rotated(Rotated(Rotated(x)))[r][c] == x[c][N - 1 - r]
  {
    RotatedTwiceAt(x);
    forall r, c | InGrid(r, c) ensures Rotated(Rotated(Rotated(x)))[r][c] == x[c][N - 1 - r] {
      assert Rotated(Rotated(Rotated(x)))[r][c] == Rotated(Rotated(x))[N - 1 - c][r];
    }
  }

  /** Four quarter turns give back the board they started from. */
  lemma RotateFourTimes(b: Grid)
    requires IsBoard(b)
    ensures Rotated(Rotated(Rotated(Rotated(b)))) == b
  {
    var r2 := Rotated(Rotated(b));
    RotatedTwiceAt(b);
    RotatedTwiceAt(r2);
    var r4 := Rotated(Rotated(r2));
    forall r | 0 <= r < N ensures r4[r] == b[r] {
      forall c | 0 <= c < N ensures r4[r][c] == b[r][c] {
        assert r4[r][c] == r2[N - 1 - r][N - 1 - c];
      }
    }
  }

  lemma {:induction false} BoardGainNonNegative(b: Grid)
    requires TilesValid(b)
    ensures BoardGain(b) >= 0
  {
    if b != [] {
      var init := b[..|b| - 1];
      assert TilesValid(init) by {
        forall r | 0 <= r < |init| ensures RowTilesValid(init[r]) {
          assert init[r] == b[r];
        }
      }
      BoardGainNonNegative(init);
      MergedRowKeepsTiles(b[|b| - 1]);
    }
  }

  lemma RotatedKeepsTiles(b: Grid)
    requires IsBoard(b) && TilesValid(b)
    ensures TilesValid(Rotated(b))
  {
    var x := Rotated(b);
    forall r | 0 <= r < N ensures RowTilesValid(x[r]) {
      forall c | 0 <= c < N && x[r][c].Tile? ensures IsTileValue(x[r][c].value) {
        assert x[r][c] == b[N - 1 - c][r];
        assert RowTilesValid(b[N - 1 - c]);
      }
    }
  }

  /** Whether merging changes one of the first `i` rows of `b`. */
  predicate SomeRowMerges(b: Grid, i: nat)
    requires i <= |b|
  {
    i > 0 && (SomeRowMerges(b, i - 1) || MergedRow(b[i - 1]) != b[i - 1])
  }

  lemma {:induction false} SomeRowMergesIff(b: Grid, i: nat)
    requires i <= |b|
    ensures SomeRowMerges(b, i) <==> exists k :: 0 <= k < i && MergedRow(b[k]) != b[k]
  {
    if i > 0 {
      SomeRowMergesIff(b, i - 1);
    }
  }

  /** A board whose every row is the merged row of `start` is the move to the
      left, and it differs from `start` exactly when some row merged into a
      different row. */
  lemma RowwiseMoveLeft(start: Grid, b: Grid)
    requires |start| == |b| == N
    requires forall k :: 0 <= k < N ==> b[k] == MergedRow(start[k])
    ensures b == MoveLeftBoard(start)
    ensures SomeRowMerges(start, N) <==> b != start
  {
    SomeRowMergesIff(start, N);
    if !SomeRowMerges(start, N) {
      assert forall k :: 0 <= k < N ==> b[k] == start[k];
    }
  }

  lemma MoveLeftKeepsTiles(b: Grid)
    requires TilesValid(b)
    ensures TilesValid(MoveLeftBoard(b))
  {
    forall r | 0 <= r < |b| ensures RowTilesValid(MoveLeftBoard(b)[r]) {
      MergedRowKeepsTiles(b[r]);
    }
  }

  /** On a board whose tiles are powers of two, every direction leaves only
      such tiles and adds a non-negative amount to the score. */
  lemma ShiftKeepsTiles(d: Direction, b: Grid)
    requires IsBoard(b) && TilesValid(b)
    ensures IsBoard(Shifted(d, b)) && TilesValid(Shifted(d, b))
    ensures ShiftGain(d, b) >= 0
  {
    var r1 := Rotated(b);
    RotatedKeepsTiles(b);
    var r2 := Rotated(r1);
    RotatedKeepsTiles(r1);
    var r3 := Rotated(r2);
    RotatedKeepsTiles(r2);
    match d
    case Left =>
      MoveLeftKeepsTiles(b);
      BoardGainNonNegative(b);
    case Right =>
      var m := MoveLeftBoard(r2);
      MoveLeftKeepsTiles(r2);
      RotatedKeepsTiles(m);
      RotatedKeepsTiles(Rotated(m));
      BoardGainNonNegative(r2);
    case Up =>
      var m := MoveLeftBoard(r3);
      MoveLeftKeepsTiles(r3);
      RotatedKeepsTiles(m);
      BoardGainNonNegative(r3);
    case Down =>
      var m := MoveLeftBoard(r1);
      MoveLeftKeepsTiles(r1);
      RotatedKeepsTiles(m);
      RotatedKeepsTiles(Rotated(m));
      RotatedKeepsTiles(Rotated(Rotated(m)));
      BoardGainNonNegative(r1);
  }

  lemma ShiftRightSlidesRows(b: Grid)
    requires IsBoard(b)
    ensures IsBoard(Shifted(Right, b))
    ensures forall k :: 0 <= k < N ==> Shifted(Right, b)[k] == Reverse(MergedRow(Reverse(b[k])))
  {
    var r2 := Rotated(Rotated(b));
    TurnedRows(b);
    var m := MoveLeftBoard(r2);
    var x := Rotated(Rotated(m));
    RotatedTwiceAt(m);
    forall k | 0 <= k < N ensures x[k] == Reverse(MergedRow(Reverse(b[k]))) {
      forall c | 0 <= c < N ensures x[k][c] == Reverse(MergedRow(Reverse(b[k])))[c] {
        assert x[k][c] == m[N - 1 - k][N - 1 - c];
        assert m[N - 1 - k] == MergedRow(Reverse(b[k]));
      }
    }
  }

  lemma ShiftUpSlidesColumns(b: Grid)
    requires IsBoard(b)
    ensures IsBoard(Shifted(Up, b))
    ensures forall k :: 0 <= k < N ==> Column(Shifted(Up, b), k) == MergedRow(Column(b, k))
  {
    var r3 := Rotated(Rotated(Rotated(b)));
    TurnedRows(b);
    var m := MoveLeftBoard(r3);
    var x := Rotated(m);
    forall k | 0 <= k < N ensures Column(x, k) == MergedRow(Column(b, k)) {
      forall r | 0 <= r < N ensures Column(x, k)[r] == MergedRow(Column(b, k))[r] {
        assert x[r][k] == m[N - 1 - k][r];
        assert m[N - 1 - k] == MergedRow(Column(b, k));
      }
    }
  }

  lemma ShiftDownSlidesColumns(b: Grid)
    requires IsBoard(b)
    ensures IsBoard(Shifted(Down, b))
    ensures forall k :: 0 <= k < N ==> Column(Shifted(Down, b), k) == Reverse(MergedRow(Reverse(Column(b, k))))
  {
    var r1 := Rotated(b);
    TurnedRows(b);
    var m := MoveLeftBoard(r1);
    var x := Rotated(Rotated(Rotated(m)));
    RotatedThriceAt(m);
    forall k | 0 <= k < N ensures Column(x, k) == Reverse(MergedRow(Reverse(Column(b, k)))) {
      forall r | 0 <= r < N ensures Column(x, k)[r] == Reverse(MergedRow(Reverse(Column(b, k))))[r] {
        assert x[r][k] == m[k][N - 1 - r];
        assert m[k] == MergedRow(Reverse(Column(b, k)));
      }
    }
  }

  /** The rotations around the one move to the left make every direction
      merge every line toward its own side, and leave the board in its
      original orientation: Right merges each row rightwards, Up each column
      upwards, Down each column downwards. */
  lemma ShiftedSlidesEveryLine(d: Direction, b: Grid)
    requires IsBoard(b)
    ensures IsBoard(Shifted(d, b))
    ensures forall k :: 0 <= k < N ==> Line(d, Shifted(d, b), k) == MergedToward(d, Line(d, b, k))
  {
    match d
    case Left =>
    case Right => ShiftRightSlidesRows(b);
    case Up => ShiftUpSlidesColumns(b);
    case Down => ShiftDownSlidesColumns(b);
  }

  /** The rows of the turned boards are lines of the original: one turn
      gives the columns read bottom to top, two the rows reversed and in
      reverse order, three the columns in reverse order. */
  lemma TurnedRows(b: Grid)
    requires IsBoard(b)
    ensures forall r :: 0 <= r < N ==> Rotated(b)[r] == Reverse(Column(b, r))
    ensures forall r :: 0 <= r < N ==> Rotated(Rotated(b))[r] == Reverse(b[N - 1 - r])
    ensures forall r :: 0 <= r < N ==> Rotated(Rotated(Rotated(b)))[r] == Column(b, N - 1 - r)
  {
    var r1 := Rotated(b);
    var r2 := Rotated(r1);
    var r3 := Rotated(r2);
    RotatedTwiceAt(b);
    RotatedThriceAt(b);
    forall r | 0 <= r < N ensures r1[r] == Reverse(Column(b, r)) {
      forall c | 0 <= c < N ensures r1[r][c] == Reverse(Column(b, r))[c] {
        assert r1[r][c] == b[N - 1 - c][r];
      }
    }
    forall r | 0 <= r < N ensures r2[r] == Reverse(b[N - 1 - r]) {
      forall c | 0 <= c < N ensures r2[r][c] == Reverse(b[N - 1 - r])[c] {
        assert r2[r][c] == b[N - 1 - r][N - 1 - c];
      }
    }
    forall r | 0 <= r < N ensures r3[r] == Column(b, N - 1 - r) {
      forall c | 0 <= c < N ensures r3[r][c] == Column(b, N - 1 - r)[c] {
        assert r3[r][c] == b[c][N - 1 - r];
      }
    }
  }

  /** The gain of a move to the left is the sum of its four rows' gains. */
  lemma BoardGainOfRows(x: Grid)
    requires |x| == N
    ensures BoardGain(x) == Gain(Values(x[0])) + Gain(Values(x[1])) + Gain(Values(x[2])) + Gain(Values(x[3]))
  {
    assert x[..0] == [] && x[..4] == x;
    BoardGainPrefix(x, 0);
    BoardGainPrefix(x, 1);
    BoardGainPrefix(x, 2);
    BoardGainPrefix(x, 3);
  }

  lemma LinesGainOfLines(d: Direction, b: Grid)
    requires IsBoard(b)
    ensures LinesGain(d, b, N) == Gain(Values(Oriented(d, Line(d, b, 0)))) + Gain(Values(Oriented(d, Line(d, b, 1))))
                                  + Gain(Values(Oriented(d, Line(d, b, 2)))) + Gain(Values(Oriented(d, Line(d, b, 3))))
  {
    assert LinesGain(d, b, 1) == Gain(Values(Oriented(d, Line(d, b, 0))));
    assert LinesGain(d, b, 2) == LinesGain(d, b, 1) + Gain(Values(Oriented(d, Line(d, b, 1))));
    assert LinesGain(d, b, 3) == LinesGain(d, b, 2) + Gain(Values(Oriented(d, Line(d, b, 2))));
  }

  /** What a move adds to the score, without the turns: the sum over the
      direction's lines of the gain of each line read from the side it
      merges toward (rows right to left for Right, columns top to bottom
      for Up, bottom to top for Down). */
  lemma ShiftGainByLines(d: Direction, b: Grid)
    requires IsBoard(b)
    ensures ShiftGain(d, b) == LinesGain(d, b, N)
  {
    TurnedRows(b);
    LinesGainOfLines(d, b);
    match d
    case Left =>
      BoardGainOfRows(b);
    case Right =>
      var r2 := Rotated(Rotated(b));
      BoardGainOfRows(r2);
      assert r2[0] == Reverse(b[3]) && r2[1] == Reverse(b[2]) && r2[2] == Reverse(b[1]) && r2[3] == Reverse(b[0]);
    case Up =>
      BoardGainOfRows(Rotated(Rotated(Rotated(b))));
    case Down =>
      BoardGainOfRows(Rotated(b));
  }

  /** `can_move` looks only at the neighbours above and to the left, and
      that is enough: it holds exactly when some cell is empty or some two
      adjacent tiles, in any direction, are equal. */
  lemma MovableIff(b: Grid)
    requires IsBoard(b)
    ensures Movable(b) <==> HasEmpty(b) || HasEqualNeighbours(b)
  {
    if Movable(b) {
      var r, c :| InGrid(r, c) && OpenAt(b, r, c);
      if b[r][c].Empty? {
        assert HasEmpty(b);
      } else if r > 0 && b[r][c] == b[r - 1][c] {
        assert Adjacent(r, c, r - 1, c);
      } else {
        assert Adjacent(r, c, r, c - 1);
      }
    }
    if HasEmpty(b) {
      var r, c :| InGrid(r, c) && b[r][c].Empty?;
      assert OpenAt(b, r, c);
    }
    if HasEqualNeighbours(b) {
      var r, c, r2, c2 :|
        InGrid(r, c) && InGrid(r2, c2) && Adjacent(r, c, r2, c2) && b[r][c].Tile? && b[r][c] == b[r2][c2];
      if r2 == r + 1 || c2 == c + 1 {
        assert OpenAt(b, r2, c2);
      } else {
        assert OpenAt(b, r, c);
      }
    }
  }

  lemma ReverseKeepsFullDistinct(line: seq<Cell>)
    requires forall k :: 0 <= k < |line| ==> line[k].Tile?
    requires NoEqualNeighbours(line)
    ensures forall k :: 0 <= k < |Reverse(line)| ==> Reverse(line)[k].Tile?
    ensures NoEqualNeighbours(Reverse(line))
  {
    var rev := Reverse(line);
    forall k | 0 < k < |rev| ensures rev[k - 1] != rev[k] {
      assert rev[k - 1] == line[|line| - k] && rev[k] == line[|line| - k - 1];
    }
  }

  lemma ReverseReverse<T>(s: seq<T>)
    ensures Reverse(Reverse(s)) == s
  {
  }

  /** Along any line of a board `can_move` rejects, the move in either
      direction leaves the line as it is. */
  lemma StuckLineUnchanged(d: Direction, b: Grid, k: int)
    requires IsBoard(b) && !Movable(b) && 0 <= k < N
    ensures MergedToward(d, Line(d, b, k)) == Line(d, b, k)
  {
    var line := Line(d, b, k);
    forall i | 0 <= i < N ensures line[i].Tile? {
      if d.Left? || d.Right? { assert !OpenAt(b, k, i); } else { assert !OpenAt(b, i, k); }
    }
    forall i | 0 < i < N ensures line[i - 1] != line[i] {
      if d.Left? || d.Right? { assert !OpenAt(b, k, i); } else { assert !OpenAt(b, i, k); }
    }
    if d.Left? || d.Up? {
      FullRowUnchanged(line);
    } else {
      ReverseKeepsFullDistinct(line);
      FullRowUnchanged(Reverse(line));
      ReverseReverse(line);
    }
  }

  /** On a board `can_move` rejects, no direction changes anything. */
  lemma StuckBoardUnchanged(d: Direction, b: Grid)
    requires IsBoard(b) && !Movable(b)
    ensures Shifted(d, b) == b
  {
    var x := Shifted(d, b);
    ShiftedSlidesEveryLine(d, b);
    forall k | 0 <= k < N ensures Line(d, x, k) == Line(d, b, k) {
      StuckLineUnchanged(d, b, k);
    }
    forall r | 0 <= r < N ensures x[r] == b[r] {
      if d.Left? || d.Right? {
        assert Line(d, x, r) == Line(d, b, r);
      } else {
        forall c | 0 <= c < N ensures x[r][c] == b[r][c] {
          assert Line(d, x, c) == Line(d, b, c);
          assert Column(x, c)[r] == x[r][c];
        }
      }
    }
  }

  lemma {:induction false} UnchangedRowsScoreNothing(x: Grid)
    requires forall k :: 0 <= k < |x| ==> MergedRow(x[k]) == x[k]
    ensures BoardGain(x) == 0
  {
    if x != [] {
      var init := x[..|x| - 1];
      assert forall k :: 0 <= k < |init| ==> init[k] == x[k];
      UnchangedRowsScoreNothing(init);
      MergedRowUnchangedIff(x[|x| - 1]);
      NoMergeNoGain(Values(x[|x| - 1]));
    }
  }

  /** A move that leaves the board as it was adds nothing to the score,
      whatever integers the board holds. */
  lemma UnchangedMoveScoresNothing(d: Direction, b: Grid)
    requires IsBoard(b) && Shifted(d, b) == b
    ensures ShiftGain(d, b) == 0
  {
    var r1 := Rotated(b);
    var r2 := Rotated(r1);
    var r3 := Rotated(r2);
    var m := match d
      case Left => MoveLeftBoard(b)
      case Right => MoveLeftBoard(r2)
      case Up => MoveLeftBoard(r3)
      case Down => MoveLeftBoard(r1);
    RotateFourTimes(m);
    match d
    case Left =>
      UnchangedRowsScoreNothing(b);
    case Right =>
      assert Rotated(Rotated(m)) == b;
      assert m == r2;
      UnchangedRowsScoreNothing(r2);
    case Up =>
      assert Rotated(m) == b;
      assert m == Rotated(Rotated(Rotated(Rotated(m))));
      assert m == r3;
      UnchangedRowsScoreNothing(r3);
    case Down =>
      assert Rotated(Rotated(Rotated(m))) == b;
      assert m == r1;
      UnchangedRowsScoreNothing(r1);
  }

  /** On a board `can_move` rejects, no direction changes the board or the score. */
  lemma StuckBoardScoresNothing(d: Direction, b: Grid)
    requires IsBoard(b) && !Movable(b)
    ensures Shifted(d, b) == b && ShiftGain(d, b) == 0
  {
    StuckBoardUnchanged(d, b);
    UnchangedMoveScoresNothing(d, b);
  }

  /** Once no move is left, a further move in any direction changes neither
      the board nor the score, places no tile, and leaves the board stuck; so
      the end-of-game test fails again and the same final score is recorded
      once more. */
  lemma StuckMoveRepeats(d: Direction, b: Grid, after: Grid)
    requires IsBoard(b) && !Movable(b) && Spawned(Shifted(d, b), after)
    ensures after == b && ShiftGain(d, b) == 0 && !Movable(after)
  {
    StuckBoardScoresNothing(d, b);
  }
}
