/**
 * The textual dump of a board (`impl Display for Board`): every cell is
 * written as its glyph followed by one space, every row is followed by a
 * newline.
 */
module Display {
  import opened Boards
  import Arith

  // ---------------------------------------------------------------------
  // Decimal numerals (`format!("{x}")` on an unsigned integer)
  // ---------------------------------------------------------------------

  predicate IsDigit(ch: char)
  {
    '0' <= ch <= '9'
  }

  function DigitChar(d: nat): (ch: char)
    requires d < 10
    ensures IsDigit(ch)
  {
    ('0' as int + d) as char
  }

  /** The decimal numeral of `n`, most significant digit first, without leading zeros. */
  function Decimal(n: nat): (s: string)
    ensures |s| >= 1
    ensures forall i | 0 <= i < |s| :: IsDigit(s[i])
    ensures |s| == 1 <==> n < 10
    ensures s[0] == '0' ==> n == 0
    decreases n
  {
    if n < 10 then [DigitChar(n)] else Decimal(n / 10) + [DigitChar(n % 10)]
  }

  /** The number a string of decimal digits denotes. */
  function DecimalValue(s: string): nat
    requires forall i | 0 <= i < |s| :: IsDigit(s[i])
  {
    if s == [] then 0
    else
      var last := s[|s| - 1];
      assert IsDigit(last);
      DecimalValue(s[..|s| - 1]) * 10 + (last as int - '0' as int)
  }

  /** Reading a numeral back gives the number it was written from. */
  lemma {:induction false} DecimalRoundTrip(n: nat)
    ensures DecimalValue(Decimal(n)) == n
    decreases n
  {
    if n >= 10 {
      var s := Decimal(n);
      DecimalRoundTrip(n / 10);
      assert s[..|s| - 1] == Decimal(n / 10);
    }
  }

  // ---------------------------------------------------------------------
  // Glyphs, rows and the whole grid
  // ---------------------------------------------------------------------

  /** The glyph of one cell: blank, the mine count, `X` or `-`. */
  function Glyph(c: CellState): (g: string)
    ensures |g| >= 1
    ensures forall i | 0 <= i < |g| :: g[i] != '\n'
  {
    match c
    case Empty => " "
    case Danger(x) => Decimal(x)
    case Bomb => "X"
    case Unknown => "-"
  }

  /** A cell whose glyph is a single character (a `Danger` count below ten, or any other state). */
  predicate SingleGlyph(c: CellState)
  {
    c.Danger? ==> c.n < 10
  }

  predicate AllSingleGlyph(states: seq<seq<CellState>>)
  {
    forall r, c | 0 <= r < |states| && 0 <= c < |states[r]| :: SingleGlyph(states[r][c])
  }

  /** The output for one row, without its newline. */
  function RenderRow(row: seq<CellState>): string
  {
    if row == [] then "" else Glyph(row[0]) + " " + RenderRow(row[1..])
  }

  /** The output for the whole grid. */
  function Render(states: seq<seq<CellState>>): string
  {
    if states == [] then "" else RenderRow(states[0]) + "\n" + Render(states[1..])
  }

  /**
   * `Display::fmt`: the nested loops over rows and cells, appending to the
   * output buffer one glyph-and-space at a time and a newline after each row.
   */
  method Fmt(board: Board) returns (out: string)
    ensures out == Render(board.states)
  {
    var states := board.states;
    out := "";
    var i := 0;
    while i < |states|
      invariant 0 <= i <= |states|
      invariant out == Render(states[..i])
    {
      var row := states[i];
      ghost var before := out;
      var j := 0;
      while j < |row|
        invariant 0 <= j <= |row|
        invariant out == before + RenderRow(row[..j])
      {
        AppendCell(before, row, j);
        out := out + Glyph(row[j]) + " ";
        j := j + 1;
      }
      AppendLine(states, i);
      out := out + "\n";
      i := i + 1;
    }
    assert states[..i] == states;
  }

  /** One step of the inner loop of `Fmt`: writing cell `j` extends the row's output by one glyph and a space. */
  lemma {:induction false} AppendCell(before: string, row: seq<CellState>, j: nat)
    requires j < |row|
    ensures before + RenderRow(row[..j]) + Glyph(row[j]) + " " == before + RenderRow(row[..j + 1])
  {
    RowSnoc(row, j);
    ConcatAssoc(before, RenderRow(row[..j]), Glyph(row[j]), " ");
  }

  lemma {:induction false} RowSnoc(row: seq<CellState>, j: nat)
    requires j < |row|
    ensures RenderRow(row[..j + 1]) == RenderRow(row[..j]) + Glyph(row[j]) + " "
  {
    var cell := [row[j]];
    assert RenderRow(cell) == Glyph(row[j]) + " " + RenderRow([]);
    RowConcat(row[..j], cell);
    assert row[..j] + cell == row[..j + 1];
  }

  lemma {:induction false} ConcatAssoc(p: string, x: string, g: string, s: string)
    ensures p + x + g + s == p + (x + g + s)
  {
  }

  /** One step of the outer loop of `Fmt`: the newline after row `i` completes the output of the first `i + 1` rows. */
  lemma {:induction false} AppendLine(states: seq<seq<CellState>>, i: nat)
    requires i < |states|
    ensures Render(states[..i]) + RenderRow(states[i][..|states[i]|]) + "\n" == Render(states[..i + 1])
  {
    RenderConcat(states[..i], [states[i]]);
    assert states[..i] + [states[i]] == states[..i + 1];
    assert states[i][..|states[i]|] == states[i];
  }

  // ---------------------------------------------------------------------
  // Properties of the rendering
  // ---------------------------------------------------------------------

  /** Rendering a row distributes over concatenation of cells. */
  lemma {:induction false} RowConcat(a: seq<CellState>, b: seq<CellState>)
    ensures RenderRow(a + b) == RenderRow(a) + RenderRow(b)
  {
    if a != [] {
      RowConcat(a[1..], b);
      assert (a + b)[1..] == a[1..] + b;
    } else {
      assert a + b == b;
    }
  }

  /** Rendering distributes over concatenation of rows. */
  lemma {:induction false} RenderConcat(a: seq<seq<CellState>>, b: seq<seq<CellState>>)
    ensures Render(a + b) == Render(a) + Render(b)
  {
    if a != [] {
      RenderConcat(a[1..], b);
      assert (a + b)[1..] == a[1..] + b;
    } else {
      assert a + b == b;
    }
  }

  /** Line `i` of the output is produced by row `i` alone, between the lines of the rows before and after it. */
  lemma {:induction false} LineOfRow(states: seq<seq<CellState>>, i: nat)
    requires i < |states|
    ensures Render(states) == Render(states[..i]) + (RenderRow(states[i]) + "\n") + Render(states[i + 1..])
  {
    assert states == states[..i] + [states[i]] + states[i + 1..];
    RenderConcat(states[..i] + [states[i]], states[i + 1..]);
    RenderConcat(states[..i], [states[i]]);
  }

  /** The output is empty exactly for the empty grid, and otherwise ends in a newline. */
  lemma {:induction false} RenderEnd(states: seq<seq<CellState>>)
    ensures Render(states) == "" <==> states == []
    ensures states != [] ==> Render(states)[|Render(states)| - 1] == '\n'
  {
    if states != [] {
      var n := |states| - 1;
      LineOfRow(states, n);
      assert states[n + 1..] == [];
    }
  }

  /** The number of occurrences of `ch` in `s`. */
  function Occurrences(s: string, ch: char): nat
  {
    if s == [] then 0 else (if s[0] == ch then 1 else 0) + Occurrences(s[1..], ch)
  }

  lemma {:induction false} OccurrencesConcat(a: string, b: string, ch: char)
    ensures Occurrences(a + b, ch) == Occurrences(a, ch) + Occurrences(b, ch)
  {
    if a != [] {
      OccurrencesConcat(a[1..], b, ch);
      assert (a + b)[1..] == a[1..] + b;
    } else {
      assert a + b == b;
    }
  }

  /** A row's output holds no newline. */
  lemma {:induction false} RowHasNoNewline(row: seq<CellState>)
    ensures Occurrences(RenderRow(row), '\n') == 0
  {
    if row != [] {
      var g := Glyph(row[0]);
      RowHasNoNewline(row[1..]);
      GlyphHasNoNewline(g);
      OccurrencesConcat(g, " ", '\n');
      OccurrencesConcat(g + " ", RenderRow(row[1..]), '\n');
    }
  }

  lemma {:induction false} GlyphHasNoNewline(g: string)
    requires forall i | 0 <= i < |g| :: g[i] != '\n'
    ensures Occurrences(g, '\n') == 0
  {
    if g != [] {
      GlyphHasNoNewline(g[1..]);
    }
  }

  /** Each row is terminated by exactly one newline: the output holds as many newlines as the grid has rows. */
  lemma {:induction false} NewlineCount(states: seq<seq<CellState>>)
    ensures Occurrences(Render(states), '\n') == |states|
  {
    if states != [] {
      NewlineCount(states[1..]);
      RowHasNoNewline(states[0]);
      OccurrencesConcat(RenderRow(states[0]), "\n", '\n');
      OccurrencesConcat(RenderRow(states[0]) + "\n", Render(states[1..]), '\n');
    }
  }

  /** With single-character glyphs, a row of `n` cells renders to `2 n` characters. */
  lemma {:induction false} RowLength(row: seq<CellState>)
    requires forall c | 0 <= c < |row| :: SingleGlyph(row[c])
    ensures |RenderRow(row)| == 2 * |row|
  {
    if row != [] {
      RowLength(row[1..]);
    }
  }

  /** With single-character glyphs, a grid of `rows` rows of `cols` cells renders to `rows (2 cols + 1)` characters. */
  lemma {:induction false} RenderLength(states: seq<seq<CellState>>, cols: nat)
    requires IsRectangular(states, cols) && AllSingleGlyph(states)
    ensures |Render(states)| == |states| * (2 * cols + 1)
  {
    if states != [] {
      RowLength(states[0]);
      RenderLength(states[1..], cols);
    }
  }

  /** With single-character glyphs, character `2 j` of a row's output is cell `j`'s glyph and character `2 j + 1` a space. */
  lemma {:induction false} RowAt(row: seq<CellState>, j: nat)
    requires forall c | 0 <= c < |row| :: SingleGlyph(row[c])
    requires j < |row|
    ensures |RenderRow(row)| == 2 * |row|
    ensures RenderRow(row)[2 * j] == Glyph(row[j])[0]
    ensures RenderRow(row)[2 * j + 1] == ' '
  {
    RowLength(row);
    if j > 0 {
      RowAt(row[1..], j - 1);
    }
  }

  lemma {:induction false} CharInMiddle(p: string, m: string, q: string, k: nat)
    requires k < |m|
    ensures (p + m + q)[|p| + k] == m[k]
  {
  }

  /** The offset at which line `i` starts when every line is `2 cols + 1` characters long. */
  function LineStart(i: nat, cols: nat): nat
  {
    i * (2 * cols + 1)
  }

  lemma {:induction false} PrefixLength(states: seq<seq<CellState>>, cols: nat, i: nat)
    requires IsRectangular(states, cols) && AllSingleGlyph(states)
    requires i <= |states|
    ensures |Render(states[..i])| == LineStart(i, cols)
  {
    RenderLength(states[..i], cols);
  }

  /**
   * The exact layout of a rectangular grid with single-character glyphs:
   * cell (i, j) is at offset `i (2 cols + 1) + 2 j`, followed by a space,
   * and row `i` ends with a newline at offset `i (2 cols + 1) + 2 cols`.
   */
  lemma {:induction false} RenderAt(states: seq<seq<CellState>>, cols: nat, i: nat, j: nat)
    requires IsRectangular(states, cols) && AllSingleGlyph(states)
    requires i < |states| && j <= cols
    ensures LineStart(i, cols) + 2 * cols < |Render(states)|
    ensures j < cols ==> Render(states)[LineStart(i, cols) + 2 * j] == Glyph(states[i][j])[0]
    ensures j < cols ==> Render(states)[LineStart(i, cols) + 2 * j + 1] == ' '
    ensures Render(states)[LineStart(i, cols) + 2 * cols] == '\n'
  {
    RenderLength(states, cols);
    var prefix := Render(states[..i]);
    var line := RenderRow(states[i]) + "\n";
    var rest := Render(states[i + 1..]);
    LineOfRow(states, i);
    PrefixLength(states, cols, i);
    RowLength(states[i]);
    assert |line| == 2 * cols + 1;
    assert |Render(states)| == |prefix| + |line| + |rest|;
    if j < cols {
      RowAt(states[i], j);
      CharInMiddle(prefix, line, rest, 2 * j);
      CharInMiddle(prefix, line, rest, 2 * j + 1);
    }
    CharInMiddle(prefix, line, rest, 2 * cols);
  }

  /** Distinct cell states have distinct glyphs, so each cell's text identifies its state. */
  lemma {:induction false} GlyphInjective(a: CellState, b: CellState)
    requires Glyph(a) == Glyph(b)
    ensures a == b
  {
    if a.Danger? && b.Danger? {
      DecimalRoundTrip(a.n);
      DecimalRoundTrip(b.n);
    }
  }

  // ---------------------------------------------------------------------
  // Concrete outputs
  // ---------------------------------------------------------------------

  /** An all-`Unknown` rectangular grid renders as `- ` for every cell and a newline after every row. */
  lemma {:induction false} UnknownGridRender(states: seq<seq<CellState>>, cols: nat, k: nat)
    requires IsRectangular(states, cols) && AllUnknown(states)
    requires k < |states| * (2 * cols + 1)
    ensures |Render(states)| == |states| * (2 * cols + 1)
    ensures Render(states)[k] ==
      (var w := 2 * cols + 1; if k % w == w - 1 then '\n' else if k % w % 2 == 1 then ' ' else '-')
  {
    RenderLength(states, cols);
    var i, m := Arith.Decompose(k, |states|, 2 * cols + 1);
    var j := m / 2;
    assert m == 2 * j + m % 2;
    RenderAt(states, cols, i, j);
    if m == 2 * cols {
      assert k == LineStart(i, cols) + 2 * cols;
    } else if m % 2 == 1 {
      assert k == LineStart(i, cols) + 2 * j + 1;
    } else {
      assert k == LineStart(i, cols) + 2 * j;
      assert states[i][j] == Unknown;
    }
  }

  /** A freshly constructed board renders as `- ` for every cell and a newline after every row. */
  lemma {:induction false} FreshBoardRender(options: BoardOptions, drawn: seq<Position>, k: nat)
    requires k < options.numRows * (2 * options.numCols + 1)
    ensures |Render(NewBoard(options, drawn).states)| == options.numRows * (2 * options.numCols + 1)
    ensures Render(NewBoard(options, drawn).states)[k] ==
      (var w := 2 * options.numCols + 1;
       if k % w == w - 1 then '\n' else if k % w % 2 == 1 then ' ' else '-')
  {
    UnknownGridRender(NewBoard(options, drawn).states, options.numCols, k);
  }

  /** The grid of the unit test for the display (lib/src/board.rs, `test_display`). */
  function DisplayTestGrid(): seq<seq<CellState>>
  {
    [ [Danger(1), Danger(2), Danger(2), Danger(1), Empty],
      [Danger(1), Bomb, Unknown, Danger(1), Empty],
      [Danger(1), Danger(2), Danger(2), Danger(1), Empty],
      [Empty, Empty, Empty, Empty, Empty],
      [Empty, Empty, Empty, Empty, Empty] ]
  }

  /** The output for a row of five cells, cell by cell. */
  lemma {:induction false} RowOfFive(a: CellState, b: CellState, c: CellState, d: CellState, e: CellState)
    ensures RenderRow([a, b, c, d, e]) ==
      Glyph(a) + " " + (Glyph(b) + " " + (Glyph(c) + " " + (Glyph(d) + " " + (Glyph(e) + " " + ""))))
  {
    assert [a, b, c, d, e][1..] == [b, c, d, e];
    assert [b, c, d, e][1..] == [c, d, e];
    assert [c, d, e][1..] == [d, e];
    assert [d, e][1..] == [e];
    assert RenderRow([e]) == Glyph(e) + " " + "";
    assert RenderRow([d, e]) == Glyph(d) + " " + RenderRow([e]);
    assert RenderRow([c, d, e]) == Glyph(c) + " " + RenderRow([d, e]);
    assert RenderRow([b, c, d, e]) == Glyph(b) + " " + RenderRow([c, d, e]);
  }

  lemma {:induction false} DisplayTestRow0()
    ensures RenderRow([Danger(1), Danger(2), Danger(2), Danger(1), Empty]) == "1 2 2 1   "
  {
    RowOfFive(Danger(1), Danger(2), Danger(2), Danger(1), Empty);
    assert Glyph(Danger(1)) == "1" && Glyph(Danger(2)) == "2";
  }

  lemma {:induction false} DisplayTestRow1()
    ensures RenderRow([Danger(1), Bomb, Unknown, Danger(1), Empty]) == "1 X - 1   "
  {
    RowOfFive(Danger(1), Bomb, Unknown, Danger(1), Empty);
    assert Glyph(Danger(1)) == "1";
  }

  lemma {:induction false} DisplayTestRow3()
    ensures RenderRow([Empty, Empty, Empty, Empty, Empty]) == "          "
  {
    RowOfFive(Empty, Empty, Empty, Empty, Empty);
  }

  lemma {:induction false} DisplayTest()
    ensures Render(DisplayTestGrid()) ==
      "1 2 2 1   \n" +
      "1 X - 1   \n" +
      "1 2 2 1   \n" +
      "          \n" +
      "          \n"
  {
    var g := DisplayTestGrid();
    DisplayTestRow0();
    DisplayTestRow1();
    DisplayTestRow3();
    assert g[1..] == [g[1], g[2], g[3], g[4]];
    assert g[1..][1..] == [g[2], g[3], g[4]];
    assert g[1..][1..][1..] == [g[3], g[4]];
    assert g[1..][1..][1..][1..] == [g[4]];
  }
}
