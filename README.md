# Minesweeper board, display and fresh-board ranking

A Dafny model of the core of a small Minesweeper library written in Rust:

- **The board** (`lib/src/board.rs`, module `Boards` in `board.dfy`): the closed
  variant `CellState` (`Empty | Unknown | Bomb | Danger(n)` with an 8-bit
  count), `Position` (declared column first, built row first by
  `Position::new`), `BoardOptions`, and `Board` as a grid
  `seq<seq<CellState>>` plus a list of mine positions. `Board::new` builds a
  `num_rows × num_cols` grid of `Unknown` cells with no mines when the mine
  probability is exactly `0.0`.
- **The textual dump** (`impl Display for Board`, module `Display` in
  `display.dfy`): each cell becomes its glyph and one space (blank for
  `Empty`, the decimal count for `Danger`, `X` for `Bomb`, `-` for
  `Unknown`), each row is followed by a newline. `Render` is the pure
  specification; `Fmt` is the imperative nested loop that appends to the
  output buffer cell by cell and row by row, proved equal to `Render`.
- **The ranking assistant** (`lib/src/solver.rs`, module `Solver` in
  `solver.dfy`): `rank_positions` on a board whose every cell is `Unknown`
  lists every cell in row-major order with the equal probability
  `1 / (rows · cols)`; on any other board the source panics, which the model
  returns as `Failure(Unimplemented)`. A board with no rows passes the
  all-`Unknown` test vacuously and then panics on `states[0]`, returned as
  `Failure(IndexOutOfBounds)`. The ranking is a function of the board, so the
  board is only read.

`wrappers.dfy` holds the `Result` type and `arith.dfy` a few facts about
Euclidean division used by the layout and row-major lemmas.

The model follows the Rust code: the mine positions are a list (`Vec<Position>`), not a set; `Danger` carries
any 8-bit value, not only 1 to 8, so its numeral may have up to three digits;
the ranking lists every cell of the board, and its probability uses the length
of row 0 as the column count; a board without rows makes the ranking fail.

## Model

| member | source | states |
|---|---|---|
| `Boards.NewPosition` | lib/src/board.rs:27-31 | the first argument becomes the `row` field and the second the `col` field, although `col` is declared first |
| `Boards.NewBoard` | lib/src/board.rs:34-43 | exactly `num_rows` rows, each of `num_cols` cells, every cell `Unknown`; probability `0.0` gives an empty mine list, any other probability the drawn layout |
| `Display.Decimal` | lib/src/board.rs:69 | the numeral of a count is non-empty, all digits, a single digit exactly when the count is below ten, and has no leading zero |
| `Display.DecimalRoundTrip` | lib/src/board.rs:69 | reading the numeral of `n` back as a decimal number gives `n` |
| `Display.Glyph` | lib/src/board.rs:67-72 | every glyph is at least one character and holds no newline |
| `Display.GlyphInjective` | lib/src/board.rs:67-72 | two cell states with the same glyph are the same state |
| `Display.Fmt` | lib/src/board.rs:60-80 | the nested loops that append glyph-and-space per cell and a newline per row produce exactly `Render` of the grid |
| `Display.RowConcat` | lib/src/board.rs:63-75 | a row's output distributes over concatenation of cells |
| `Display.RenderConcat` | lib/src/board.rs:62-77 | `Render(a + b) == Render(a) + Render(b)` |
| `Display.LineOfRow` | lib/src/board.rs:62-77 | the output is the lines of the rows before `i`, then row `i`'s cells and a newline, then the lines of the rows after `i`: line `i` depends on row `i` only |
| `Display.RenderEnd` | lib/src/board.rs:62-77 | the output is empty exactly for a grid with no rows, and otherwise ends in a newline |
| `Display.NewlineCount` | lib/src/board.rs:62-77 | the output holds exactly as many newlines as the grid has rows |
| `Display.RowLength` | lib/src/board.rs:63-75 | with single-digit counts, a row of `n` cells renders to `2 n` characters |
| `Display.RenderLength` | lib/src/board.rs:62-77 | with single-digit counts, a `rows × cols` grid renders to `rows (2 cols + 1)` characters |
| `Display.RowAt` | lib/src/board.rs:63-75 | with single-digit counts, character `2 j` of a row's output is cell `j`'s glyph and character `2 j + 1` is a space |
| `Display.RenderAt` | lib/src/board.rs:62-77 | with single-digit counts, cell `(i, j)` is at offset `i (2 cols + 1) + 2 j` followed by a space, and row `i` ends with a newline at `i (2 cols + 1) + 2 cols` |
| `Display.UnknownGridRender` | lib/src/board.rs:62-77 | an all-`Unknown` rectangular grid renders character `k` as newline, space or `-` according to `k mod (2 cols + 1)` |
| `Display.FreshBoardRender` | lib/src/board.rs:36 | a board from `Board::new` renders to `rows (2 cols + 1)` characters, `- ` per cell and a newline per row |
| `Display.DisplayTest` | lib/src/board.rs:113-137 | the 5 × 5 grid of the display test renders to exactly the asserted text |
| `Solver.NewPositionBombProbability` | lib/src/solver.rs:8-15 | the entry holds the given position and probability |
| `Solver.EqualProbability` | lib/src/solver.rs:23 | the quotient is finite exactly when `rows · cols > 0`, and it is then the reciprocal of `rows · cols`, in `(0, 1]` |
| `Solver.RowEntries` | lib/src/solver.rs:29-34 | the inner `enumerate`/`map` over one row: one entry per cell of the row, entry `c` at position `(row, c)` with the shared probability |
| `Solver.RankPositions` | lib/src/solver.rs:17-39 | returns normally exactly when every cell is `Unknown` and there is at least one row; a non-`Unknown` cell gives `Unimplemented`, no rows gives `IndexOutOfBounds` |
| `Solver.EntriesLength` | lib/src/solver.rs:24-36 | the flattened list has one entry per cell: its length is the sum of the row lengths |
| `Solver.EntriesProbability` | lib/src/solver.rs:30-33 | every entry carries the same probability |
| `Solver.EntriesInGrid` | lib/src/solver.rs:27-35 | every entry names a cell that exists in the grid |
| `Solver.EntriesDistinct` | lib/src/solver.rs:27-35 | no two entries name the same cell |
| `Solver.EntriesCover` | lib/src/solver.rs:27-35 | cell `(r, c)` is the entry at index `cells before row r + c` |
| `Solver.EntriesRowMajor` | lib/src/solver.rs:27-35 | on a rectangular grid the list has `rows · cols` entries and entry `k` is cell `(k / cols, k % cols)` |
| `Solver.RankLength` | lib/src/solver.rs:18-36 | on an all-`Unknown` board with a row, the result has the sum of the row lengths as length |
| `Solver.RankRowMajor` | lib/src/solver.rs:18-36 | on an all-`Unknown` rectangular board with a row, the result has `rows · cols` entries and entry `k` is cell `(k / cols, k % cols)` with probability `1 / (rows · cols)` |
| `Solver.RankCoversEachCellOnce` | lib/src/solver.rs:27-35 | on an all-`Unknown` board every cell is named by some entry, no cell by two entries, and every entry names a cell |
| `Solver.RankUniformProbability` | lib/src/solver.rs:23-33 | every entry carries the probability computed from `states.len()` and `states[0].len()`, which is `1 / (rows · cols)` when that product is positive |
| `Solver.RankNoColumns` | lib/src/solver.rs:28-29 | a board with rows but no columns ranks to an empty list |
| `Solver.RankNewBoard` | lib/src/solver.rs:17-39 | a board from `Board::new` with no rows fails on `states[0]`; with rows it ranks `rows · cols` entries in row-major order with the equal probability |
| `Solver.FreshBoardRankingTest` | lib/src/solver.rs:47-60 | a fresh 3 × 3 board ranks nine cells, each with probability `1/9` |

## Left out

- `generate_random_bomb_positions` (lib/src/board.rs:45-57) draws a random number per cell; randomness is outside the model, so `NewBoard` receives the drawn mine list as its parameter `drawn` and keeps it whenever the probability is not `0.0`. That function's row range over `num_cols` is therefore not modelled either.
- Floating point: `bomb_probability` is a `real` compared exactly with `0.0`, and the ranking's `1.0 / (rows · cols)` is the exact rational reciprocal (or positive infinity, as `f64` gives for a zero divisor); `f64` rounding is not modelled.
- `usize`: grid sizes and coordinates are unbounded naturals; the model does not bound them by `usize::MAX`.
- The `Formatter`: `Fmt` returns the text it builds instead of writing into a `Formatter`, and the `unwrap` of each write's result, which can only fail when the formatter itself fails, is not modelled.
- `PartialEq` for `CellState` and the `HashSet` in the ranking test come from a different version of the board file; the model uses datatype equality and a list of positions.
- `to_cell_state_grid` (lib/src/board.rs:103-111) is a test fixture builder; the display test's grid is written out as `DisplayTestGrid`.
- Revealing cells and enumerating neighbours are not part of these source files and are not modelled.
- `Solver.RankPositions`: the two panics are returned as `Failure` values with distinct causes; the panic messages themselves are not modelled.
