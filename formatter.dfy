/**
 * Board-to-text rendering (src/gomoku/utils/formatter.py, and `Board.display`
 * in src/gomoku/board/board.py, which differs only in the empty-cell symbol).
 */
module Formatter {
  import opened Wrappers
  import opened Grids
  import opened Players
  import opened Coordinates

  /** `sep.join(parts)`. */
  function Join(sep: string, parts: seq<string>): string {
    if |parts| == 0 then ""
    else if |parts| == 1 then parts[0]
    else parts[0] + sep + Join(sep, parts[1..])
  }

  /** `s.split(c)` for a one-character separator. */
  function Split(s: string, c: char): (r: seq<string>)
    ensures |r| >= 1
  {
    if |s| == 0 then [""]
    else
      var rest := Split(s[1..], c);
      if s[0] == c then [""] + rest else [[s[0]] + rest[0]] + rest[1..]
  }

  /** Splitting a piece free of the separator, followed by a tail. */
  lemma {:induction false} SplitPrefix(a: string, t: string, c: char)
    requires c !in a
    ensures Split(a + t, c) == [a + Split(t, c)[0]] + Split(t, c)[1..]
  {
    var st := Split(t, c);
    if a != [] {
      assert (a + t)[1..] == a[1..] + t;
      SplitPrefix(a[1..], t, c);
      assert [a[0]] + (a[1..] + st[0]) == a + st[0];
    } else {
      assert a + t == t;
      assert a + st[0] == st[0];
      assert st == [st[0]] + st[1..];
    }
  }

  /** Splitting a join on the same one-character separator gives the parts back. */
  lemma {:induction false} SplitJoin(parts: seq<string>, c: char)
    requires |parts| >= 1
    requires forall k :: 0 <= k < |parts| ==> c !in parts[k]
    ensures Split(Join([c], parts), c) == parts
  {
    if |parts| == 1 {
      SplitPrefix(parts[0], "", c);
      assert parts[0] + "" == parts[0];
    } else {
      var rest := Join([c], parts[1..]);
      SplitJoin(parts[1..], c);
      assert Join([c], parts) == parts[0] + ([c] + rest);
      SplitPrefix(parts[0], [c] + rest, c);
      assert ([c] + rest)[1..] == rest;
      assert Split([c] + rest, c) == [""] + Split(rest, c);
      assert parts[0] + "" == parts[0];
      assert parts == [parts[0]] + parts[1..];
    }
  }

  /** A join of separator-free parts with a separator free of c does not contain c. */
  lemma {:induction false} JoinFree(sep: string, parts: seq<string>, c: char)
    requires c !in sep
    requires forall k :: 0 <= k < |parts| ==> c !in parts[k]
    ensures c !in Join(sep, parts)
  {
    if |parts| > 1 {
      JoinFree(sep, parts[1..], c);
    }
  }

  /** The coordinate label of index i. */
  function Coord(i: int): (s: string)
    requires 0 <= i < N
    ensures ToCoordinate(i) == Some(s)
    ensures s == Keys[i] && |s| == 1
  {
    TablesAgree();
    ReverseHexMap[i]
  }

  /** `f'{s:2}'`: left-aligned in a field of width two. */
  function Pad2(s: string): (r: string)
    ensures |s| < 2 ==> |r| == 2 && r[..|s|] == s && forall k :: |s| <= k < 2 ==> r[k] == ' '
    ensures |s| >= 2 ==> r == s
  {
    if |s| >= 2 then s else s + seq(2 - |s|, _ => ' ')
  }

  /** `piece.symbol if piece else empty`, where `piece` is `get_piece_at`. */
  function CellSymbol(x: int, empty: string): string
    requires IsCell(x)
  {
    if x == 0 then empty else FromValue(x).value.Symbol()
  }

  /** The column labels. */
  function Labels(): seq<string> {
    seq(N, i requires 0 <= i < N => Coord(i))
  }

  /** The header line. */
  function Header(): string {
    "   " + Join(" ", Labels())
  }

  /** The symbols of row i. */
  function Symbols(g: Grid, i: int, empty: string): seq<string>
    requires 0 <= i < N
  {
    seq(N, j requires 0 <= j < N => CellSymbol(g[i][j], empty))
  }

  /** Row i: its label padded to width two, then one symbol per cell, joined by spaces. */
  function RowLine(g: Grid, i: int, empty: string): string
    requires 0 <= i < N
  {
    Join(" ", [Pad2(Coord(i))] + Symbols(g, i, empty))
  }

  /** The N row lines, top to bottom. */
  function RowLines(g: Grid, empty: string): seq<string> {
    seq(N, i requires 0 <= i < N => RowLine(g, i, empty))
  }

  /** The header and the N rows. */
  function Lines(g: Grid, empty: string): seq<string> {
    [Header()] + RowLines(g, empty)
  }

  /** The rendering shared by `display` and `format_board`. */
  function Render(g: Grid, empty: string): string {
    Join("\n", Lines(g, empty))
  }

  /** The symbol `format_board` shows on an empty cell: the two characters U+00C2 U+00B7. */
  const FormatterEmpty: string := "\U{00C2}\U{00B7}"

  /** `format_move`: None where a coordinate lookup raises KeyError. */
  function FormatMove(row: int, col: int): (r: Option<string>)
    ensures r.Some? <==> InBounds(row, col)
    ensures r.Some? ==> |r.value| == 3 && r.value[1] == ' '
  {
    match (ToCoordinate(row), ToCoordinate(col))
    case (Some(r), Some(c)) => Some(r + " " + c)
    case _ => None
  }

  /** The row loop's list grows by the symbol of cell (i, j). */
  lemma SymbolsNext(g: Grid, i: int, empty: string, j: int)
    requires 0 <= i < N && 0 <= j < N
    ensures Symbols(g, i, empty)[..j + 1] == Symbols(g, i, empty)[..j] + [CellSymbol(g[i][j], empty)]
  {
  }

  /** After the last column the row loop's list holds every symbol of the row. */
  lemma SymbolsAll(g: Grid, i: int, empty: string)
    requires 0 <= i < N
    ensures Symbols(g, i, empty)[..N] == Symbols(g, i, empty)
  {
  }

  /** The row loop's list of lines grows by row i. */
  lemma RowLinesNext(g: Grid, empty: string, i: int)
    requires 0 <= i < N
    ensures RowLines(g, empty)[..i + 1] == RowLines(g, empty)[..i] + [RowLine(g, i, empty)]
  {
  }

  /** After the last row the row loop's list holds every row line. */
  lemma RowLinesAll(g: Grid, empty: string)
    ensures RowLines(g, empty)[..N] == RowLines(g, empty)
  {
  }

  /** Joining the header and the row lines by newlines is the rendering. */
  lemma RenderIs(g: Grid, empty: string, lines: seq<string>)
    requires lines == [Header()] + RowLines(g, empty)
    ensures Join("\n", lines) == Render(g, empty)
  {
  }

  /** The header is three spaces, then the labels 1..9, a..f separated by single spaces. */
  lemma HeaderShape()
    ensures Header()[..3] == "   "
    ensures Split(Header()[3..], ' ') == Labels()
    ensures forall i :: 0 <= i < N ==> Labels()[i] == Keys[i]
  {
    var ls := Labels();
    LabelsAreKeys();
    SplitJoin(ls, ' ');
    assert Header()[3..] == Join(" ", ls);
  }

  /** The labels are the coordinate keys, each a single character other than a space. */
  lemma LabelsAreKeys()
    ensures |Labels()| == N
    ensures forall i :: 0 <= i < N ==> Labels()[i] == Keys[i]
    ensures forall k :: 0 <= k < |Labels()| ==> ' ' !in Labels()[k]
  {
    var ls := Labels();
    forall k | 0 <= k < |ls| ensures ' ' !in ls[k] {
      assert ls[k] == Keys[k];
    }
  }

  /** Row i is its label, two spaces (padding and separator), then the row's symbols separated by spaces. */
  lemma RowShape(g: Grid, i: int, empty: string)
    requires 0 <= i < N
    requires ' ' !in empty
    ensures RowLine(g, i, empty)[..3] == Coord(i) + "  "
    ensures Split(RowLine(g, i, empty)[3..], ' ') == Symbols(g, i, empty)
    ensures forall j :: 0 <= j < N ==>
      Symbols(g, i, empty)[j] == (if g[i][j] == 0 then empty else if g[i][j] == 1 then Black.Symbol() else White.Symbol())
  {
    var syms := Symbols(g, i, empty);
    var padded := Pad2(Coord(i));
    assert padded == Coord(i) + " ";
    assert RowLine(g, i, empty) == padded + " " + Join(" ", syms) by {
      assert ([padded] + syms)[1..] == syms;
    }
    assert forall k :: 0 <= k < |syms| ==> ' ' !in syms[k] by {
      forall k | 0 <= k < |syms| ensures ' ' !in syms[k] {
        assert syms[k] == CellSymbol(g[i][k], empty);
      }
    }
    SplitJoin(syms, ' ');
    assert RowLine(g, i, empty)[3..] == Join(" ", syms);
  }

  lemma HeaderHasNoNewline()
    ensures '\n' !in Header()
  {
    var labels := Labels();
    forall m | 0 <= m < |labels| ensures '\n' !in labels[m] {
      assert labels[m] == Keys[m];
    }
    JoinFree(" ", labels, '\n');
  }

  lemma RowHasNoNewline(g: Grid, i: int, empty: string)
    requires 0 <= i < N
    requires '\n' !in empty
    ensures '\n' !in RowLine(g, i, empty)
  {
    var parts := [Pad2(Coord(i))] + Symbols(g, i, empty);
    forall m | 0 <= m < |parts| ensures '\n' !in parts[m] {
      if m > 0 {
        assert parts[m] == CellSymbol(g[i][m - 1], empty);
      } else {
        assert Coord(i) == Keys[i];
      }
    }
    JoinFree(" ", parts, '\n');
  }

  /** The header, then row i as line i + 1. */
  lemma LinesShape(g: Grid, empty: string)
    ensures |Lines(g, empty)| == N + 1 && Lines(g, empty)[0] == Header()
    ensures forall i :: 0 <= i < N ==> Lines(g, empty)[i + 1] == RowLine(g, i, empty)
  {
    var rows := seq(N, i requires 0 <= i < N => RowLine(g, i, empty));
    assert Lines(g, empty) == [Header()] + rows;
  }

  /** No line contains a newline when the empty-cell symbol does not. */
  lemma LinesHaveNoNewline(g: Grid, empty: string)
    requires '\n' !in empty
    ensures forall k :: 0 <= k < |Lines(g, empty)| ==> '\n' !in Lines(g, empty)[k]
  {
    var ls := Lines(g, empty);
    LinesShape(g, empty);
    HeaderHasNoNewline();
    forall k | 0 <= k < |ls| ensures '\n' !in ls[k] {
      if k > 0 {
        RowHasNoNewline(g, k - 1, empty);
      }
    }
  }

  /** The rendering has N + 1 lines: the header, then row i on line i + 1. */
  lemma RenderLines(g: Grid, empty: string)
    requires '\n' !in empty
    ensures |Split(Render(g, empty), '\n')| == N + 1
    ensures Split(Render(g, empty), '\n')[0] == Header()
    ensures forall i :: 0 <= i < N ==> Split(Render(g, empty), '\n')[i + 1] == RowLine(g, i, empty)
  {
    LinesShape(g, empty);
    LinesHaveNoNewline(g, empty);
    SplitJoin(Lines(g, empty), '\n');
  }

  /**
   * `format_move` succeeds exactly for on-board cells, and the console's
   * reading of the text (split on the space, then `parse_coordinate`) gives the cell back.
   */
  lemma FormatMoveRoundTrip(row: int, col: int)
    ensures FormatMove(row, col).Some? <==> InBounds(row, col)
    ensures InBounds(row, col) ==>
      var s := FormatMove(row, col).value;
      |s| == 3 && s == Coord(row) + " " + Coord(col) &&
      |Split(s, ' ')| == 2 && ToIndex(Split(s, ' ')[0]) == Some(row) && ToIndex(Split(s, ' ')[1]) == Some(col)
  {
    IndexRoundTrip(row);
    IndexRoundTrip(col);
    if InBounds(row, col) {
      var s := FormatMove(row, col).value;
      assert Coord(row) == Keys[row] && Coord(col) == Keys[col];
      assert s == Join(" ", [Coord(row), Coord(col)]);
      SplitJoin([Coord(row), Coord(col)], ' ');
    }
  }
}
