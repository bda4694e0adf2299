/** The board state (src/gomoku/board/board.py). */
module Boards {
  import opened Wrappers
  import opened Grids
  import opened Players
  import WinCheck
  import Formatter
  import Coordinates

  /** The symbol `display` shows on an empty cell: a middle dot. */
  const EmptySymbol: string := "\U{00B7}"

  /** An entry of `move_history`: the tuple (row, col, player). */
  datatype Entry = Entry(row: int, col: int, player: PlayerType)

  /** Number of non-zero cells in a row. */
  function CountRow(row: seq<int>): nat {
    if |row| == 0 then 0 else (if row[0] != 0 then 1 else 0) + CountRow(row[1..])
  }

  /** Number of non-zero cells in a list of rows. */
  function CountRows(rows: seq<seq<int>>): nat {
    if |rows| == 0 then 0 else CountRow(rows[0]) + CountRows(rows[1..])
  }

  /** Number of stones on the grid. */
  function StoneCount(g: Grid): nat {
    CountRows(g)
  }

  lemma {:induction false} CountRowUpdate(row: seq<int>, c: int, v: int)
    requires 0 <= c < |row|
    ensures CountRow(row[c := v]) ==
      CountRow(row) - (if row[c] != 0 then 1 else 0) + (if v != 0 then 1 else 0)
  {
    if c > 0 {
      assert row[c := v][1..] == row[1..][c - 1 := v];
      CountRowUpdate(row[1..], c - 1, v);
    } else {
      assert row[c := v][1..] == row[1..];
    }
  }

  lemma {:induction false} CountRowsUpdate(rows: seq<seq<int>>, r: int, newRow: seq<int>)
    requires 0 <= r < |rows|
    ensures CountRows(rows[r := newRow]) == CountRows(rows) - CountRow(rows[r]) + CountRow(newRow)
  {
    if r > 0 {
      assert rows[r := newRow][1..] == rows[1..][r - 1 := newRow];
      CountRowsUpdate(rows[1..], r - 1, newRow);
    } else {
      assert rows[r := newRow][1..] == rows[1..];
    }
  }

  /** Putting a stone on an empty cell adds exactly one stone. */
  lemma StoneCountPlace(g: Grid, r: int, c: int, v: int)
    requires InBounds(r, c) && g[r][c] == 0 && (v == 1 || v == 2)
    ensures StoneCount(Place(g, r, c, v)) == StoneCount(g) + 1
  {
    CountRowUpdate(g[r], c, v);
    CountRowsUpdate(g, r, g[r][c := v]);
  }

  lemma {:induction false} CountRowZero(row: seq<int>)
    requires forall k :: 0 <= k < |row| ==> row[k] == 0
    ensures CountRow(row) == 0
  {
    if |row| > 0 {
      CountRowZero(row[1..]);
    }
  }

  lemma {:induction false} CountRowsZero(rows: seq<seq<int>>)
    requires forall k, j :: 0 <= k < |rows| && 0 <= j < |rows[k]| ==> rows[k][j] == 0
    ensures CountRows(rows) == 0
  {
    if |rows| > 0 {
      CountRowZero(rows[0]);
      CountRowsZero(rows[1..]);
    }
  }

  /** The empty grid holds no stones. */
  lemma EmptyGridHasNoStones()
    ensures StoneCount(EmptyGrid()) == 0
  {
    CountRowsZero(EmptyGrid());
  }

  class Board {
    /** `self.board`: the N x N numpy array, updated in place. */
    const grid: array2<int>
    /** `self.current_player`: the side to move. */
    var currentPlayer: PlayerType
    /** `self.move_history`. */
    var moveHistory: seq<Entry>

    ghost predicate Valid()
      reads grid
    {
      grid.Length0 == N && grid.Length1 == N &&
      forall i, j :: 0 <= i < N && 0 <= j < N ==> IsCell(grid[i, j])
    }

    /** The grid as a value (`self.board.tolist()`). */
    function Cells(): (g: Grid)
      requires Valid()
      reads grid
      ensures forall i, j :: InBounds(i, j) ==> g[i][j] == grid[i, j]
    {
      var rows := seq(N, i requires 0 <= i < N reads grid => seq(N, j requires 0 <= j < N reads grid => grid[i, j]));
      assert forall i :: 0 <= i < N ==> |rows[i]| == N && forall j :: 0 <= j < N ==> rows[i][j] == grid[i, j];
      rows
    }

    /**
     * Under `make_move` alone the history records exactly the stones on the
     * board, and Black moves exactly when an even number have been played.
     */
    ghost predicate Consistent()
      requires Valid()
      reads this, grid
    {
      |moveHistory| == StoneCount(Cells()) &&
      (currentPlayer == Black <==> |moveHistory| % 2 == 0)
    }

    /** `Board()`: every cell 0, empty history, Black to move. */
    constructor ()
      ensures Valid() && fresh(grid)
      ensures Cells() == EmptyGrid()
      ensures moveHistory == [] && currentPlayer == Black
      ensures Consistent()
    {
      grid := new int[N, N]((i, j) => 0);
      currentPlayer := Black;
      moveHistory := [];
      new;
      CellsAre(EmptyGrid());
      InitialConsistent();
    }

    /** The initial position is consistent: no stones, no history, Black to move. */
    lemma InitialConsistent()
      requires Valid() && Cells() == EmptyGrid()
      requires moveHistory == [] && currentPlayer == Black
      ensures Consistent()
    {
      EmptyGridHasNoStones();
    }

    /** The grid is determined cell by cell. */
    lemma CellsAre(h: Grid)
      requires Valid()
      requires forall i, j :: InBounds(i, j) ==> grid[i, j] == h[i][j]
      ensures Cells() == h
    {
      var g := Cells();
      assert forall i :: 0 <= i < N ==> g[i] == h[i];
    }

    /** `is_valid_move`: on the board and empty. */
    predicate IsValidMove(row: int, col: int): (v: bool)
      requires Valid()
      reads grid
      ensures v <==> InBounds(row, col) && GetPieceAt(row, col).None?
    {
      0 <= row < N && 0 <= col < N && grid[row, col] == 0
    }

    /**
     * `make_move`: an invalid move changes nothing and returns false; a valid
     * one writes the mover's value, appends (row, col, mover) to the history
     * and passes the turn, and nothing else.
     */
    method MakeMove(row: int, col: int) returns (ok: bool)
      requires Valid()
      modifies this, grid
      ensures Valid()
      ensures ok == old(IsValidMove(row, col))
      ensures ok ==> InBounds(row, col)
      ensures ok ==> Cells() == Place(old(Cells()), row, col, old(currentPlayer).Value())
      ensures ok ==> moveHistory == old(moveHistory) + [Entry(row, col, old(currentPlayer))]
      ensures ok ==> currentPlayer == old(currentPlayer).Opponent()
      ensures !ok ==> Cells() == old(Cells()) && moveHistory == old(moveHistory) && currentPlayer == old(currentPlayer)
      ensures old(Consistent()) ==> Consistent()
    {
      if !IsValidMove(row, col) {
        return false;
      }
      ghost var before := Cells();
      grid[row, col] := currentPlayer.Value();
      CellsAre(Place(before, row, col, old(currentPlayer).Value()));
      moveHistory := moveHistory + [Entry(row, col, currentPlayer)];
      currentPlayer := currentPlayer.Opponent();
      StoneCountPlace(before, row, col, old(currentPlayer).Value());
      return true;
    }

    /** `get_piece_at`: None on an empty cell, else the player whose value it holds. */
    function GetPieceAt(row: int, col: int): (p: Option<PlayerType>)
      requires Valid() && InBounds(row, col)
      reads grid
      ensures p.None? <==> grid[row, col] == 0
      ensures p.Some? ==> p.value.Value() == grid[row, col]
    {
      FromValue(grid[row, col])
    }

    /**
     * `check_win`: false on an empty cell; otherwise the win checker's verdict
     * for the owner of the cell. The board is only read.
     */
    method CheckWin(row: int, col: int) returns (win: bool)
      requires Valid() && InBounds(row, col)
      ensures win <==> grid[row, col] != 0 && WinCheck.Wins(Cells(), row, col, grid[row, col])
    {
      var player := GetPieceAt(row, col);
      if player.None? {
        return false;
      }
      win := WinCheck.CheckWin(Cells(), row, col, player.value.Value());
    }

    /**
     * `get_valid_moves`: the comprehension over all cells, which lists the
     * on-board empty cells, each once, row by row.
     */
    function GetValidMoves(): (moves: seq<Move>)
      requires Valid()
      reads grid
      ensures forall m :: m in moves <==> InBounds(m.0, m.1) && Cells()[m.0][m.1] == 0
      ensures RowMajorSorted(moves)
    {
      var g := Cells();
      AllCellsExact(g);
      EmptyCellsIn(g, 0, |g|, 0, |g|)
    }

    /**
     * `display`: the header line, then one line per row, joined by newlines.
     */
    method Display() returns (text: string)
      requires Valid()
      ensures text == Formatter.Render(Cells(), EmptySymbol)
    {
      var header := Formatter.Header();
      var rows := DisplayRows();
      var result := [header] + rows;
      text := Formatter.Join("\n", result);
      Formatter.RenderIs(Cells(), EmptySymbol, result);
    }

    /** The row loop of `display`: the lines of rows 0..N-1 in order. */
    method DisplayRows() returns (rows: seq<string>)
      requires Valid()
      ensures rows == Formatter.RowLines(Cells(), EmptySymbol)
    {
      ghost var g := Cells();
      rows := [];
      var i := 0;
      while i < N
        invariant 0 <= i <= N
        invariant rows == Formatter.RowLines(g, EmptySymbol)[..i]
      {
        var line := DisplayRow(i);
        Formatter.RowLinesNext(g, EmptySymbol, i);
        rows := rows + [line];
        i := i + 1;
      }
      Formatter.RowLinesAll(g, EmptySymbol);
    }

    /**
     * One pass of the row loop of `display`: a list holding the row's label
     * padded to width two, then one symbol per cell (a middle dot on an
     * empty cell), joined by spaces.
     */
    method DisplayRow(i: int) returns (line: string)
      requires Valid() && 0 <= i < N
      ensures line == Formatter.RowLine(Cells(), i, EmptySymbol)
    {
      ghost var g := Cells();
      var row := [Formatter.Pad2(Formatter.Coord(i))];
      var j := 0;
      while j < N
        invariant 0 <= j <= N
        invariant row == [Formatter.Pad2(Formatter.Coord(i))] + Formatter.Symbols(g, i, EmptySymbol)[..j]
      {
        var piece := GetPieceAt(i, j);
        var symbol := if piece.Some? then piece.value.Symbol() else EmptySymbol;
        Formatter.SymbolsNext(g, i, EmptySymbol, j);
        row := row + [symbol];
        j := j + 1;
      }
      Formatter.SymbolsAll(g, i, EmptySymbol);
      line := Formatter.Join(" ", row);
    }

    /** `parse_coordinate`: the board's own copy of the coordinate table, read case-insensitively. */
    function ParseCoordinate(coord: string): (r: Option<int>)
      ensures r.Some? <==> Coordinates.IsValidCoordinate(coord)
      ensures r.Some? ==> 0 <= r.value < N
    {
      Coordinates.ToIndex(coord)
    }

    /** `format_coordinate`: the reverse table. */
    function FormatCoordinate(index: int): (r: Option<string>)
      ensures r.Some? <==> 0 <= index < N
      ensures r.Some? ==> |r.value| == 1
    {
      Coordinates.ToCoordinate(index)
    }
  }

  /** `get_valid_moves` lists exactly the cells `is_valid_move` accepts, each once, row by row. */
  lemma ValidMovesExact(b: Board)
    requires b.Valid()
    ensures forall m :: m in b.GetValidMoves() <==> b.IsValidMove(m.0, m.1)
    ensures RowMajorSorted(b.GetValidMoves())
  {
    AllCellsExact(b.Cells());
    forall m: Move
      ensures m in b.GetValidMoves() <==> b.IsValidMove(m.0, m.1)
    {
      EmptyCellIsValidMove(b, m);
    }
  }

  lemma EmptyCellIsValidMove(b: Board, m: Move)
    requires b.Valid()
    ensures b.IsValidMove(m.0, m.1) <==> InBounds(m.0, m.1) && b.Cells()[m.0][m.1] == 0
  {
  }

  /**
   * The board's coordinate tables round-trip: `format_coordinate` succeeds
   * exactly on 0..14 and `parse_coordinate` undoes it; a string that
   * `parse_coordinate` accepts is formatted back as its lower-case form.
   */
  lemma BoardCoordinateRoundTrip(b: Board, s: string, i: int)
    ensures b.FormatCoordinate(i).Some? <==> 0 <= i < N
    ensures 0 <= i < N ==> b.ParseCoordinate(b.FormatCoordinate(i).value) == Some(i)
    ensures b.ParseCoordinate(s).Some? ==> b.FormatCoordinate(b.ParseCoordinate(s).value) == Some(Coordinates.Lower(s))
  {
    Coordinates.IndexRoundTrip(i);
    Coordinates.ValidCoordinateIff(s);
    if b.ParseCoordinate(s).Some? {
      Coordinates.CoordinateRoundTrip(s);
    }
  }

  /** Moving twice on the same cell fails the second time (tests/test_board.py). */
  method SameCellTwice() returns (first: bool, cell: int, second: bool)
    ensures first && cell != 0 && !second
  {
    var b := new Board();
    first := b.MakeMove(7, 7);
    cell := b.grid[7, 7];
    second := b.MakeMove(7, 7);
  }
}
