/**
 * The formatter object of src/gomoku/utils/formatter.py: it renders the
 * board it was given, reading each cell through `get_piece_at`.
 */
module BoardFormatters {
  import opened Wrappers
  import opened Grids
  import opened Boards
  import Formatter

  class BoardFormatter {
    /** The board to render. */
    const board: Board

    /** `BoardFormatter(board)`. */
    constructor (board: Board)
      ensures this.board == board
    {
      this.board := board;
    }

    /**
     * `format_board`: the header line, then one line per row, joined by
     * newlines; an empty cell shows as `Formatter.FormatterEmpty`.
     */
    method FormatBoard() returns (text: string)
      requires board.Valid()
      ensures text == Formatter.Render(board.Cells(), Formatter.FormatterEmpty)
    {
      var header := Formatter.Header();
      var rows := FormatRows();
      var result := [header] + rows;
      text := Formatter.Join("\n", result);
      Formatter.RenderIs(board.Cells(), Formatter.FormatterEmpty, result);
    }

    /** The row loop of `format_board`: the lines of rows 0..N-1 in order. */
    method FormatRows() returns (rows: seq<string>)
      requires board.Valid()
      ensures rows == Formatter.RowLines(board.Cells(), Formatter.FormatterEmpty)
    {
      ghost var g := board.Cells();
      rows := [];
      var i := 0;
      while i < N
        invariant 0 <= i <= N
        invariant rows == Formatter.RowLines(g, Formatter.FormatterEmpty)[..i]
      {
        var line := FormatRow(i);
        Formatter.RowLinesNext(g, Formatter.FormatterEmpty, i);
        rows := rows + [line];
        i := i + 1;
      }
      Formatter.RowLinesAll(g, Formatter.FormatterEmpty);
    }

    /**
     * One pass of the row loop of `format_board`: the row's label padded to
     * width two, then each cell's symbol, joined by spaces.
     */
    method FormatRow(i: int) returns (line: string)
      requires board.Valid() && 0 <= i < N
      ensures line == Formatter.RowLine(board.Cells(), i, Formatter.FormatterEmpty)
    {
      ghost var g := board.Cells();
      var row := [Formatter.Pad2(Formatter.Coord(i))];
      var j := 0;
      while j < N
        invariant 0 <= j <= N
        invariant row == [Formatter.Pad2(Formatter.Coord(i))] + Formatter.Symbols(g, i, Formatter.FormatterEmpty)[..j]
      {
        var piece := board.GetPieceAt(i, j);
        var symbol := if piece.Some? then piece.value.Symbol() else Formatter.FormatterEmpty;
        Formatter.SymbolsNext(g, i, Formatter.FormatterEmpty, j);
        row := row + [symbol];
        j := j + 1;
      }
      Formatter.SymbolsAll(g, i, Formatter.FormatterEmpty);
      line := Formatter.Join(" ", row);
    }
  }
}
