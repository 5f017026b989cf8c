/** The game itself: `GameLogic`, which owns the board and the score and
    changes them in place, and the part of `GameView` that drives it — the
    direction dispatch of a move and the best-score ledger. */
module Game {
  import opened RowMerge
  import opened Board
  import opened Ledger

  /** The board and the score, changed in place by every operation. */
  class GameLogic {
    var board: Grid
    var score: int

    ghost predicate Valid()
      reads this
    {
      IsBoard(board)
    }

    /** A new game: an empty board and a score of 0. */
    constructor ()
      ensures Valid() && board == EmptyBoard() && score == 0
    {
      board := EmptyBoard();
      score := 0;
    }

    /** Clears the board and the score; no tile is placed. */
    method Reset()
      modifies this
      ensures Valid() && board == EmptyBoard() && score == 0
    {
      board := EmptyBoard();
      score := 0;
    }

    /** Writes a 2 into one empty cell, chosen freely among all of them (the
        random choice), or does nothing when the board is full. */
    method PlaceNewTile()
      requires Valid()
      modifies this`board
      ensures Valid()
      ensures Spawned(old(board), board)
      ensures TilesValid(old(board)) ==> TilesValid(board)
    {
      var emptySpots: seq<(int, int)> := [];
      for i := 0 to N
        invariant forall p :: p in emptySpots <==> InGrid(p.0, p.1) && p.0 < i && board[p.0][p.1].Empty?
      {
        for j := 0 to N
          invariant forall p :: p in emptySpots <==>
            InGrid(p.0, p.1) && (p.0 < i || (p.0 == i && p.1 < j)) && board[p.0][p.1].Empty?
        {
          if board[i][j].Empty? {
            emptySpots := emptySpots + [(i, j)];
          }
        }
      }
      if HasEmpty(board) {
        var r, c :| InGrid(r, c) && board[r][c].Empty?;
        assert (r, c) in emptySpots;
      }
      if emptySpots != [] {
        assert emptySpots[0] in emptySpots;
        var pos :| pos in emptySpots;
        board := board[pos.0 := board[pos.0][pos.1 := Tile(2)]];
        assert TilesValid(old(board)) ==> TilesValid(board) by {
          if TilesValid(old(board)) {
            forall r | 0 <= r < N ensures RowTilesValid(board[r]) {
              assert RowTilesValid(old(board)[r]);
            }
          }
        }
      }
    }

    /** `merge_row`: the merged row, with the merged values added to the score. */
    method MergeRow(row: seq<Cell>) returns (merged: seq<Cell>)
      modifies this`score
      ensures merged == MergedRow(row)
      ensures score == old(score) + Gain(Values(row))
    {
      var temp := Values(row);
      var result: seq<int> := [];
      var i := 0;
      while i < |temp|
        invariant 0 <= i <= |temp|
        invariant result + Merged(temp[i..]) == Merged(temp)
        invariant score + Gain(temp[i..]) == old(score) + Gain(temp)
      {
        if i + 1 < |temp| && temp[i] == temp[i + 1] {
          MergeStepPair(temp, i);
          assert (result + [temp[i] * 2]) + Merged(temp[i + 2..]) == result + Merged(temp[i..]);
          result := result + [temp[i] * 2];
          score := score + temp[i] * 2;
          i := i + 2;
        } else {
          MergeStepSingle(temp, i);
          assert (result + [temp[i]]) + Merged(temp[i + 1..]) == result + Merged(temp[i..]);
          result := result + [temp[i]];
          i := i + 1;
        }
      }
      assert result == Merged(temp);
      merged := Tiles(result) + Blanks(|row| - |result|);
    }

    /** Merges every row to the left and reports whether any row changed. */
    method MoveLeft() returns (changed: bool)
      requires Valid()
      modifies this
      ensures Valid()
      ensures board == MoveLeftBoard(old(board))
      ensures score == old(score) + BoardGain(old(board))
      ensures changed <==> board != old(board)
      ensures TilesValid(old(board)) ==> TilesValid(board) && score >= old(score)
    {
      ghost var start := board;
      changed := false;
      for i := 0 to N
        invariant |board| == N
        invariant forall k :: 0 <= k < i ==> board[k] == MergedRow(start[k])
        invariant forall k :: i <= k < N ==> board[k] == start[k]
        invariant score == old(score) + BoardGain(start[..i])
        invariant changed == SomeRowMerges(start, i)
      {
        var oldRow := board[i];
        ghost var rows := board;
        var newRow := MergeRow(oldRow);
        assert board == rows;
        BoardGainPrefix(start, i);
        if oldRow != newRow {
          changed := true;
        }
        board := board[i := newRow];
      }
      assert start[..N] == start;
      RowwiseMoveLeft(start, board);
      if TilesValid(start) {
        MoveLeftKeepsTiles(start);
        BoardGainNonNegative(start);
      }
    }

    /** Turns the board a quarter clockwise into a new grid. */
    method Rotate()
      requires Valid()
      modifies this`board
      ensures Valid()
      ensures board == Rotated(old(board))
    {
      var n := |board|;
      var rotated: Grid := seq(n, _ => seq(n, _ => Empty));
      for i := 0 to n
        invariant |rotated| == n && forall r :: 0 <= r < n ==> |rotated[r]| == n
        invariant forall a, c :: 0 <= a < i && 0 <= c < n ==> rotated[c][n - 1 - a] == board[a][c]
      {
        for j := 0 to n
          invariant |rotated| == n && forall r :: 0 <= r < n ==> |rotated[r]| == n
          invariant forall a, c :: 0 <= a < i && 0 <= c < n ==> rotated[c][n - 1 - a] == board[a][c]
          invariant forall c :: 0 <= c < j ==> rotated[c][n - 1 - i] == board[i][c]
        {
          rotated := rotated[j := rotated[j][n - 1 - i := board[i][j]]];
        }
      }
      forall r | 0 <= r < n ensures rotated[r] == Rotated(board)[r] {
        forall c | 0 <= c < n ensures rotated[r][c] == Rotated(board)[r][c] {
          assert rotated[r][n - 1 - (n - 1 - c)] == board[n - 1 - c][r];
        }
      }
      board := rotated;
    }

    /** `can_move`: some cell is empty or equals the cell above it or to its left. */
    method CanMove() returns (can: bool)
      requires Valid()
      ensures can == Movable(board)
    {
      for i := 0 to N
        invariant forall r, c :: 0 <= r < i && 0 <= c < N ==> !OpenAt(board, r, c)
      {
        for j := 0 to N
          invariant forall r, c :: 0 <= r < i && 0 <= c < N ==> !OpenAt(board, r, c)
          invariant forall c :: 0 <= c < j ==> !OpenAt(board, i, c)
        {
          if board[i][j].Empty? {
            assert OpenAt(board, i, j);
            return true;
          }
          if (i > 0 && board[i][j] == board[i - 1][j]) || (j > 0 && board[i][j] == board[i][j - 1]) {
            assert OpenAt(board, i, j);
            return true;
          }
        }
      }
      return false;
    }
  }

  /** What the score file holds when the view starts: no file, content that
      cannot be read as a list of scores, or the stored list. */
  datatype ScoreFile = Missing | Unreadable | Stored(scores: seq<int>)

  /** The logic-facing part of `GameView`: it drives a `GameLogic` and keeps
      the best scores. */
  class GameView {
    const logic: GameLogic
    var bestScores: seq<int>

    ghost predicate Valid()
      reads this, logic
    {
      logic.Valid() && IsLedger(bestScores)
    }

    constructor (logic: GameLogic)
      requires logic.Valid()
      ensures Valid() && this.logic == logic && bestScores == []
    {
      this.logic := logic;
      bestScores := [];
    }

    /** Building the view as the game does: the fields are set, then the
        score file is loaded. Unreadable content raises out of the
        construction, so no view comes into being; that is `null` here. */
    static method Open(logic: GameLogic, file: ScoreFile) returns (view: GameView?)
      requires logic.Valid()
      ensures view == null <==> file.Unreadable?
      ensures view != null ==> fresh(view) && view.Valid() && view.logic == logic
      ensures view != null ==> view.bestScores == if file.Stored? then Normalized(file.scores) else []
    {
      var v := new GameView(logic);
      var raised := v.LoadBestScores(file);
      view := if raised then null else v;
    }

    /** A missing file keeps the current list; a stored list is sorted highest
        first and cut to five; unreadable content raises, leaving the list as
        it was. */
    method LoadBestScores(file: ScoreFile) returns (raised: bool)
      modifies this`bestScores
      ensures raised <==> file.Unreadable?
      ensures bestScores == if file.Stored? then Normalized(file.scores) else old(bestScores)
      ensures IsLedger(old(bestScores)) ==> IsLedger(bestScores)
    {
      match file
      case Missing =>
        raised := false;
      case Unreadable =>
        raised := true;
      case Stored(scores) =>
        bestScores := Top(SortDescending(scores));
        raised := false;
    }

    /** Records the final score: appended, sorted highest first and cut to
        five entries; a score of at most 0 is not recorded. */
    method SaveResult()
      modifies this`bestScores
      ensures bestScores == Record(old(bestScores), logic.score)
      ensures IsLedger(old(bestScores)) ==> IsLedger(bestScores)
    {
      var currentScore := logic.score;
      if currentScore > 0 {
        bestScores := bestScores + [currentScore];
        bestScores := SortDescending(bestScores);
        bestScores := Top(bestScores);
      }
    }

    /** The direction dispatch of a move: the quarter turns around one move
        to the left that the direction calls for. */
    method Slide(d: Direction)
      requires logic.Valid()
      modifies logic
      ensures logic.Valid()
      ensures logic.board == Shifted(d, old(logic.board))
      ensures logic.score == old(logic.score) + ShiftGain(d, old(logic.board))
    {
      match d {
        case Left =>
          var _ := logic.MoveLeft();
        case Right =>
          MoveRight();
        case Up =>
          MoveUp();
        case Down =>
          MoveDown();
      }
    }

    /** Two turns, a move to the left, two turns. */
    method MoveRight()
      requires logic.Valid()
      modifies logic
      ensures logic.Valid()
      ensures logic.board == Shifted(Right, old(logic.board))
      ensures logic.score == old(logic.score) + ShiftGain(Right, old(logic.board))
    {
      logic.Rotate();
      logic.Rotate();
      var _ := logic.MoveLeft();
      logic.Rotate();
      logic.Rotate();
    }

    /** Three turns, a move to the left, one turn. */
    method MoveUp()
      requires logic.Valid()
      modifies logic
      ensures logic.Valid()
      ensures logic.board == Shifted(Up, old(logic.board))
      ensures logic.score == old(logic.score) + ShiftGain(Up, old(logic.board))
    {
      logic.Rotate();
      logic.Rotate();
      logic.Rotate();
      var _ := logic.MoveLeft();
      logic.Rotate();
    }

    /** One turn, a move to the left, three turns. */
    method MoveDown()
      requires logic.Valid()
      modifies logic
      ensures logic.Valid()
      ensures logic.board == Shifted(Down, old(logic.board))
      ensures logic.score == old(logic.score) + ShiftGain(Down, old(logic.board))
    {
      logic.Rotate();
      var _ := logic.MoveLeft();
      logic.Rotate();
      logic.Rotate();
      logic.Rotate();
    }

    /** The end of a move: a new tile whether or not the board changed, then
        the end-of-game test, which records the score when no move is left. */
    method FinishMove()
      requires Valid()
      modifies this`bestScores, logic`board
      ensures Valid()
      ensures Spawned(old(logic.board), logic.board)
      ensures TilesValid(old(logic.board)) ==> TilesValid(logic.board)
      ensures bestScores == if Movable(logic.board) then old(bestScores) else Record(old(bestScores), logic.score)
    {
      logic.PlaceNewTile();
      var canMove := logic.CanMove();
      if !canMove {
        SaveResult();
      }
    }

    /** One move: the direction's turns and move to the left, then the end of
        the move. */
    method OnMove(d: Direction)
      requires Valid()
      modifies this`bestScores, logic
      ensures Valid()
      ensures Spawned(Shifted(d, old(logic.board)), logic.board)
      ensures logic.score == old(logic.score) + ShiftGain(d, old(logic.board))
      ensures TilesValid(old(logic.board)) ==> TilesValid(logic.board) && logic.score >= old(logic.score)
      ensures bestScores == if Movable(logic.board) then old(bestScores) else Record(old(bestScores), logic.score)
    {
      if TilesValid(logic.board) {
        ShiftKeepsTiles(d, logic.board);
      }
      Slide(d);
      FinishMove();
    }

    /** "New game": the logic is reset; the best scores stay. */
    method ResetGame()
      requires Valid()
      modifies logic
      ensures Valid() && logic.board == EmptyBoard() && logic.score == 0
    {
      logic.Reset();
    }
  }
}
