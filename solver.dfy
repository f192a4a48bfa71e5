/**
 * The probability-ranking assistant (`rank_positions`). Only the fresh
 * board, on which no cell has been revealed, is handled; every other board
 * makes the source stop with `panic!("unimplemented")`.
 */
module Solver {
  import opened Boards
  import opened Wrappers
  import Arith

  /**
   * The value of the source's `1.0 / (rows as f64 * cols as f64)`: the exact
   * reciprocal when the product is positive, and floating-point positive
   * infinity when it is zero (division by zero does not trap on `f64`).
   */
  datatype Probability = Finite(value: real) | PosInfinity

  /** A position paired with its estimated chance of holding a mine. */
  datatype PositionBombProbability = PositionBombProbability(position: Position, probability: Probability)

  /** Why `rank_positions` does not return normally. */
  datatype RankError =
    | Unimplemented     // some cell is not `Unknown`: `panic!("unimplemented")`
    | IndexOutOfBounds  // the grid has no rows: `board.states[0]` panics

  /** `PositionBombProbability::new`. */
  function NewPositionBombProbability(position: Position, probability: Probability): (e: PositionBombProbability)
    ensures e.position == position && e.probability == probability
  {
    PositionBombProbability(position, probability)
  }

  /** `1.0 / (rows * cols)`, the chance shared by every cell of a fresh board. */
  function EqualProbability(rows: nat, cols: nat): (p: Probability)
    ensures p.Finite? <==> rows * cols > 0
    ensures p.Finite? ==> p.value * (rows * cols) as real == 1.0 && 0.0 < p.value <= 1.0
  {
    if rows * cols == 0 then PosInfinity else Finite(1.0 / (rows * cols) as real)
  }

  /** The number of cells of a (possibly ragged) grid: the sum of its row lengths. */
  function TotalCells(states: seq<seq<CellState>>): nat
  {
    if states == [] then 0 else TotalCells(states[..|states| - 1]) + |states[|states| - 1]|
  }

  /** The entries for row `row`, which has `width` cells: columns `0 .. width` in order. */
  function RowEntries(row: nat, width: nat, p: Probability): (es: seq<PositionBombProbability>)
    ensures |es| == width
    ensures forall c | 0 <= c < width :: es[c] == NewPositionBombProbability(NewPosition(row, c), p)
  {
    seq(width, c requires 0 <= c => NewPositionBombProbability(NewPosition(row, c), p))
  }

  /**
   * The `enumerate` / `flat_map` chain: for every row, in order, one entry
   * per cell of that row, each carrying `p`.
   */
  function Entries(states: seq<seq<CellState>>, p: Probability): seq<PositionBombProbability>
  {
    if states == [] then []
    else Entries(states[..|states| - 1], p) + RowEntries(|states| - 1, |states[|states| - 1]|, p)
  }

  /** `rank_positions`. */
  function RankPositions(board: Board): (r: Result<seq<PositionBombProbability>, RankError>)
    ensures r.Success? <==> AllUnknown(board.states) && |board.states| > 0
    ensures !AllUnknown(board.states) ==> r == Failure(Unimplemented)
    ensures |board.states| == 0 ==> r == Failure(IndexOutOfBounds)
  {
    var states := board.states;
    if !AllUnknown(states) then Failure(Unimplemented)
    else if |states| == 0 then Failure(IndexOutOfBounds)
    else Success(Entries(states, EqualProbability(|states|, |states[0]|)))
  }

  // ---------------------------------------------------------------------
  // Properties of the entries
  // ---------------------------------------------------------------------

  /** One entry per cell. */
  lemma {:induction false} EntriesLength(states: seq<seq<CellState>>, p: Probability)
    ensures |Entries(states, p)| == TotalCells(states)
  {
    if states != [] {
      EntriesLength(states[..|states| - 1], p);
    }
  }

  /** A grid of `rows` rows of `cols` cells has `rows cols` cells. */
  lemma {:induction false} RectangularTotal(states: seq<seq<CellState>>, cols: nat)
    requires IsRectangular(states, cols)
    ensures TotalCells(states) == |states| * cols
  {
    if states != [] {
      var n := |states| - 1;
      RectangularTotal(states[..n], cols);
      assert |states| * cols == n * cols + cols;
    }
  }

  /** Every entry carries the same probability. */
  lemma {:induction false} EntriesProbability(states: seq<seq<CellState>>, p: Probability, k: nat)
    requires k < |Entries(states, p)|
    ensures Entries(states, p)[k].probability == p
  {
    var n := |states| - 1;
    var prefix := Entries(states[..n], p);
    if k < |prefix| {
      EntriesProbability(states[..n], p, k);
    }
  }

  /** Every entry names a cell of the grid. */
  lemma {:induction false} EntriesInGrid(states: seq<seq<CellState>>, p: Probability, k: nat)
    requires k < |Entries(states, p)|
    ensures Entries(states, p)[k].position.row < |states|
    ensures Entries(states, p)[k].position.col < |states[Entries(states, p)[k].position.row]|
  {
    var n := |states| - 1;
    var prefix := Entries(states[..n], p);
    if k < |prefix| {
      EntriesInGrid(states[..n], p, k);
    }
  }

  /** No cell is named twice. */
  lemma {:induction false} EntriesDistinct(states: seq<seq<CellState>>, p: Probability, k1: nat, k2: nat)
    requires k1 < k2 < |Entries(states, p)|
    ensures Entries(states, p)[k1].position != Entries(states, p)[k2].position
  {
    var n := |states| - 1;
    var prefix := Entries(states[..n], p);
    if k2 < |prefix| {
      EntriesDistinct(states[..n], p, k1, k2);
    } else if k1 < |prefix| {
      EntriesInGrid(states[..n], p, k1);
    }
  }

  /** The cells of the rows before `r` are counted by `TotalCells(states[..r])`, which leaves room for row `r`. */
  lemma {:induction false} PrefixCells(states: seq<seq<CellState>>, r: nat)
    requires r < |states|
    ensures TotalCells(states[..r]) + |states[r]| <= TotalCells(states)
  {
    var n := |states| - 1;
    assert states[..n + 1] == states;
    if r < n {
      PrefixCells(states[..n], r);
      assert states[..n][..r] == states[..r];
      assert states[..n][r] == states[r];
    } else {
      assert states[..r] == states[..n];
    }
  }

  /** Cell (r, c) is the entry at index `TotalCells(states[..r]) + c`. */
  lemma {:induction false} EntriesCover(states: seq<seq<CellState>>, p: Probability, r: nat, c: nat)
    requires r < |states| && c < |states[r]|
    ensures TotalCells(states[..r]) + c < |Entries(states, p)|
    ensures Entries(states, p)[TotalCells(states[..r]) + c] ==
      NewPositionBombProbability(NewPosition(r, c), p)
  {
    var n := |states| - 1;
    var prefix := Entries(states[..n], p);
    EntriesLength(states, p);
    EntriesLength(states[..n], p);
    PrefixCells(states, r);
    if r < n {
      EntriesCover(states[..n], p, r, c);
      assert states[..n][..r] == states[..r];
      PrefixCells(states[..n], r);
    } else {
      assert states[..r] == states[..n];
    }
  }

  /** On a rectangular grid, entry `k` is cell `(k / cols, k % cols)`: row-major order. */
  lemma {:induction false} EntriesRowMajor(states: seq<seq<CellState>>, cols: nat, p: Probability, k: nat)
    requires IsRectangular(states, cols)
    requires k < |states| * cols
    ensures |Entries(states, p)| == |states| * cols
    ensures Entries(states, p)[k] == NewPositionBombProbability(NewPosition(k / cols, k % cols), p)
  {
    var n := |states| - 1;
    var prefix := Entries(states[..n], p);
    EntriesLength(states, p);
    RectangularTotal(states, cols);
    EntriesLength(states[..n], p);
    RectangularTotal(states[..n], cols);
    assert |states| * cols == n * cols + cols;
    if k < |prefix| {
      EntriesRowMajor(states[..n], cols, p, k);
    } else {
      var c := k - n * cols;
      Arith.DivModOf(n, c, cols);
    }
  }

  // ---------------------------------------------------------------------
  // Properties of rank_positions
  // ---------------------------------------------------------------------

  /** On an all-`Unknown` board with at least one row there is one entry per cell. */
  lemma {:induction false} RankLength(board: Board)
    requires AllUnknown(board.states) && |board.states| > 0
    ensures RankPositions(board).Success?
    ensures |RankPositions(board).value| == TotalCells(board.states)
  {
    var states := board.states;
    EntriesLength(states, EqualProbability(|states|, |states[0]|));
  }

  /**
   * On an all-`Unknown` rectangular board with at least one row the result
   * has `rows cols` entries, entry `k` is cell `(k / cols, k % cols)`, and each
   * carries `1 / (rows cols)`.
   */
  lemma {:induction false} RankRowMajor(board: Board, cols: nat, k: nat)
    requires AllUnknown(board.states) && |board.states| > 0 && IsRectangular(board.states, cols)
    requires k < |board.states| * cols
    ensures RankPositions(board).Success?
    ensures |RankPositions(board).value| == |board.states| * cols
    ensures RankPositions(board).value[k] ==
      NewPositionBombProbability(NewPosition(k / cols, k % cols), EqualProbability(|board.states|, cols))
  {
    var states := board.states;
    assert |states[0]| == cols;
    EntriesRowMajor(states, cols, EqualProbability(|states|, cols), k);
  }

  /** Every cell of an all-`Unknown` board is named by exactly one entry, and every entry names a cell. */
  lemma {:induction false} RankCoversEachCellOnce(board: Board, r: nat, c: nat)
    requires AllUnknown(board.states) && |board.states| > 0
    requires r < |board.states| && c < |board.states[r]|
    ensures RankPositions(board).Success?
    ensures var es := RankPositions(board).value;
      exists k :: 0 <= k < |es| && es[k].position == NewPosition(r, c)
    ensures var es := RankPositions(board).value;
      forall k1, k2 | 0 <= k1 < |es| && 0 <= k2 < |es| && es[k1].position == es[k2].position :: k1 == k2
    ensures var es := RankPositions(board).value;
      forall k | 0 <= k < |es| ::
        es[k].position.row < |board.states| && es[k].position.col < |board.states[es[k].position.row]|
  {
    var states := board.states;
    var p := EqualProbability(|states|, |states[0]|);
    var es := Entries(states, p);
    EntriesCover(states, p, r, c);
    var k := TotalCells(states[..r]) + c;
    assert es[k].position == NewPosition(r, c);
    forall k1, k2 | 0 <= k1 < |es| && 0 <= k2 < |es| && es[k1].position == es[k2].position
      ensures k1 == k2
    {
      if k1 < k2 {
        EntriesDistinct(states, p, k1, k2);
      } else if k2 < k1 {
        EntriesDistinct(states, p, k2, k1);
      }
    }
    forall k | 0 <= k < |es|
      ensures es[k].position.row < |states| && es[k].position.col < |states[es[k].position.row]|
    {
      EntriesInGrid(states, p, k);
    }
  }

  /**
   * Every entry carries the probability computed from the number of rows
   * and the length of row 0; when that product is positive it is its
   * reciprocal.
   */
  lemma {:induction false} RankUniformProbability(board: Board, k: nat)
    requires RankPositions(board).Success? && k < |RankPositions(board).value|
    ensures RankPositions(board).value[k].probability == EqualProbability(|board.states|, |board.states[0]|)
    ensures |board.states| * |board.states[0]| > 0 ==>
      RankPositions(board).value[k].probability == Finite(1.0 / (|board.states| * |board.states[0]|) as real)
  {
    var states := board.states;
    EntriesProbability(states, EqualProbability(|states|, |states[0]|), k);
  }

  /** A board with at least one row whose rows are all empty ranks to an empty list. */
  lemma {:induction false} RankNoColumns(board: Board)
    requires |board.states| > 0 && IsRectangular(board.states, 0)
    ensures RankPositions(board) == Success([])
  {
    var states := board.states;
    EntriesLength(states, EqualProbability(|states|, 0));
    RectangularTotal(states, 0);
  }

  /**
   * A freshly constructed board with at least one row ranks every cell in
   * row-major order with probability `1 / (rows cols)`; one with no rows
   * makes the ranking fail on `states[0]`.
   */
  lemma {:induction false} RankNewBoard(options: BoardOptions, drawn: seq<Position>, k: nat)
    ensures options.numRows == 0 ==> RankPositions(NewBoard(options, drawn)) == Failure(IndexOutOfBounds)
    ensures options.numRows > 0 ==> RankPositions(NewBoard(options, drawn)).Success?
    ensures options.numRows > 0 ==>
      |RankPositions(NewBoard(options, drawn)).value| == options.numRows * options.numCols
    ensures options.numRows > 0 && k < options.numRows * options.numCols ==>
      RankPositions(NewBoard(options, drawn)).value[k] ==
        NewPositionBombProbability(NewPosition(k / options.numCols, k % options.numCols),
                                   EqualProbability(options.numRows, options.numCols))
  {
    var board := NewBoard(options, drawn);
    if options.numRows > 0 {
      var states := board.states;
      EntriesLength(states, EqualProbability(|states|, options.numCols));
      RectangularTotal(states, options.numCols);
      if k < options.numRows * options.numCols {
        RankRowMajor(board, options.numCols, k);
      }
    }
  }

  /** The unit test for the ranking (lib/src/solver.rs, `test_fresh_board_ranking`): a fresh 3 by 3 board. */
  lemma {:induction false} FreshBoardRankingTest(k: nat)
    requires k < 9
    ensures var board := Board(seq(3, _ => seq(3, _ => Unknown)), []);
      RankPositions(board).Success? && |RankPositions(board).value| == 9 &&
      RankPositions(board).value[k].probability == Finite(1.0 / 9.0)
  {
    var board := Board(seq(3, _ => seq(3, _ => Unknown)), []);
    assert IsRectangular(board.states, 3);
    RankRowMajor(board, 3, k);
  }
}
