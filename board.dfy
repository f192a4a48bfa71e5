/**
 * The board of a Minesweeper game: the cell states, grid positions, the
 * construction options and the construction of a fresh board.
 */
module Boards {

  /** An unsigned 8-bit integer, the payload type of `Danger`. */
  type U8 = x: int | 0 <= x < 256

  /** The state of one cell of the grid. */
  datatype CellState = Empty | Unknown | Bomb | Danger(n: U8)

  /**
   * A grid coordinate. The fields are declared column first; the
   * constructor function `NewPosition` takes the row first.
   */
  datatype Position = Position(col: nat, row: nat)

  /** The grid (indexed by row, then column) and the list of mine positions. */
  datatype Board = Board(states: seq<seq<CellState>>, bombPositions: seq<Position>)

  /** Construction options: the grid dimensions and the chance of a mine per cell. */
  datatype BoardOptions = BoardOptions(numRows: nat, numCols: nat, bombProbability: real)

  /** `Position::new(row, col)`: the first argument is the row, the second the column. */
  function NewPosition(row: nat, col: nat): (p: Position)
    ensures p.row == row && p.col == col
  {
    Position(col, row)
  }

  /** Every cell of the grid is `Unknown`. */
  predicate AllUnknown(states: seq<seq<CellState>>)
  {
    forall r, c | 0 <= r < |states| && 0 <= c < |states[r]| :: states[r][c] == Unknown
  }

  /** Every row of the grid has exactly `cols` cells. */
  predicate IsRectangular(states: seq<seq<CellState>>, cols: nat)
  {
    forall r | 0 <= r < |states| :: |states[r]| == cols
  }

  /** One row of `n` cells, all `Unknown`. */
  function UnknownRow(n: nat): (row: seq<CellState>)
    ensures |row| == n
    ensures forall c | 0 <= c < n :: row[c] == Unknown
  {
    seq(n, _ => Unknown)
  }

  /**
   * `Board::new`. The random mine layout that the source draws when the
   * probability is not zero is passed in as `drawn`; when the probability is
   * exactly zero no mine is placed, whatever `drawn` holds.
   */
  function NewBoard(options: BoardOptions, drawn: seq<Position>): (b: Board)
    ensures |b.states| == options.numRows
    ensures IsRectangular(b.states, options.numCols)
    ensures AllUnknown(b.states)
    ensures options.bombProbability == 0.0 ==> b.bombPositions == []
    ensures options.bombProbability != 0.0 ==> b.bombPositions == drawn
  {
    Board(seq(options.numRows, _ => UnknownRow(options.numCols)),
          if options.bombProbability == 0.0 then [] else drawn)
  }
}
