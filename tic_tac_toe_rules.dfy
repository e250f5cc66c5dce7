/**
 * The rules of noughts and crosses as values: the lines calc_result
 * checks, in the order it checks them, the verdict it reaches, and the
 * move get_operation proposes.
 */
module TicTacToeRules {
  import opened Siv3D

  /** The content of one board cell. */
  datatype Cell = None | Circle | Cross

  /** One move: put `cellType` into the cell at `pos` (`x` the column, `y` the row). */
  datatype Operation = Operation(pos: Point, cellType: Cell)

  /** The event code under which an Operation travels between the two players. */
  const OperationCode: uint8 := 67

  /** A well-formed non-empty n x n board, as initialize builds it for n >= 1. */
  predicate Square(g: Grid<Cell>) {
    g.Valid() && g.width == g.height && g.height >= 1
  }

  // ---------------------------------------------------------------------
  // Lines
  // ---------------------------------------------------------------------

  /** Row y, read left to right: `grid_[y][i]`. */
  function Row(g: Grid<Cell>, y: nat): (line: seq<Cell>)
    requires g.Valid() && y < g.height
    ensures |line| == g.width && forall i | 0 <= i < g.width :: line[i] == g.At(y, i)
  {
    g.rows[y]
  }

  /** Column x, read top to bottom: `grid_[i][x]`. */
  function Column(g: Grid<Cell>, x: nat): (line: seq<Cell>)
    requires g.Valid() && x < g.width
    ensures |line| == g.height && forall i | 0 <= i < g.height :: line[i] == g.At(i, x)
  {
    seq(g.height, i requires 0 <= i < g.height => g.At(i, x))
  }

  /** The main diagonal from the top left: `grid_[i][i]`. */
  function Diagonal(g: Grid<Cell>): (line: seq<Cell>)
    requires Square(g)
    ensures |line| == g.height && forall i | 0 <= i < g.height :: line[i] == g.At(i, i)
  {
    seq(g.height, i requires 0 <= i < g.height => g.At(i, i))
  }

  /** The anti-diagonal from the bottom left: `grid_[h - 1 - i][i]`. */
  function AntiDiagonal(g: Grid<Cell>): (line: seq<Cell>)
    requires Square(g)
    ensures |line| == g.height && forall i | 0 <= i < g.height :: line[i] == g.At(g.height - 1 - i, i)
  {
    seq(g.height, i requires 0 <= i < g.height => g.At(g.height - 1 - i, i))
  }

  function Rows(g: Grid<Cell>, m: nat): (lines: seq<seq<Cell>>)
    requires g.Valid() && m <= g.height
    ensures |lines| == m && forall y | 0 <= y < m :: lines[y] == Row(g, y)
  {
    if m == 0 then [] else Rows(g, m - 1) + [Row(g, m - 1)]
  }

  function Columns(g: Grid<Cell>, m: nat): (lines: seq<seq<Cell>>)
    requires g.Valid() && m <= g.width
    ensures |lines| == m && forall x | 0 <= x < m :: lines[x] == Column(g, x)
  {
    if m == 0 then [] else Columns(g, m - 1) + [Column(g, m - 1)]
  }

  /**
   * The lines of an n x n board in the order calc_result checks them:
   * the n rows from the top, the n columns from the left, the main
   * diagonal, the anti-diagonal.
   */
  function Lines(g: Grid<Cell>): (lines: seq<seq<Cell>>)
    requires Square(g)
    ensures |lines| == 2 * g.height + 2
    ensures forall y | 0 <= y < g.height :: lines[y] == Row(g, y)
    ensures forall x | 0 <= x < g.width :: lines[g.height + x] == Column(g, x)
    ensures lines[2 * g.height] == Diagonal(g) && lines[2 * g.height + 1] == AntiDiagonal(g)
    ensures forall k | 0 <= k < |lines| :: |lines[k]| == g.height
  {
    Rows(g, g.height) + Columns(g, g.width) + [Diagonal(g), AntiDiagonal(g)]
  }

  // ---------------------------------------------------------------------
  // check_line and the scan
  // ---------------------------------------------------------------------

  /**
   * check_line: the symbol s exactly when every cell of the line is s and
   * s is not None; nothing otherwise.
   */
  function LineWinner(line: seq<Cell>): (r: Optional<Cell>)
    requires |line| >= 1
    ensures forall s :: r == Some(s) <==> s != None && forall i | 0 <= i < |line| :: line[i] == s
    ensures r != Some(None)
  {
    if line[0] != None && forall i | 0 <= i < |line| :: line[i] == line[0] then Some(line[0]) else Nothing
  }

  /** No line among the first k has a winner. */
  predicate NoWinBefore(lines: seq<seq<Cell>>, k: nat)
    requires k <= |lines| && forall j | 0 <= j < |lines| :: |lines[j]| >= 1
  {
    forall j | 0 <= j < k :: LineWinner(lines[j]) == Nothing
  }

  /**
   * The winner of the first line, in order, that has one; nothing when no
   * line has a winner.
   */
  function FirstWin(lines: seq<seq<Cell>>): (r: Optional<Cell>)
    requires forall j | 0 <= j < |lines| :: |lines[j]| >= 1
    ensures r == Nothing ==> NoWinBefore(lines, |lines|)
    ensures r.Some? ==> exists k | 0 <= k < |lines| :: LineWinner(lines[k]) == r && NoWinBefore(lines, k)
  {
    if |lines| == 0 then Nothing
    else if LineWinner(lines[0]).Some? then LineWinner(lines[0])
    else
      var r := FirstWin(lines[1..]);
      assert forall j | 0 <= j < |lines| - 1 :: lines[1..][j] == lines[j + 1];
      r
  }

  /** Every cell of the board is taken. */
  predicate Full(g: Grid<Cell>)
    requires g.Valid()
  {
    forall y, x | 0 <= y < g.height && 0 <= x < g.width :: g.At(y, x) != None
  }

  /**
   * What calc_result concludes about a board: the symbol of the first
   * winning line in scan order; None, a draw, when no line wins and the
   * board is full; nothing, leaving `winner` as it was, otherwise.
   */
  function Verdict(g: Grid<Cell>): Optional<Cell>
    requires Square(g)
  {
    var w := FirstWin(Lines(g));
    if w.Some? then w else if Full(g) then Some(None) else Nothing
  }

  // ---------------------------------------------------------------------
  // Properties of the scan
  // ---------------------------------------------------------------------

  /**
   * FirstWin picks the first winning line: it yields s exactly when some
   * line has winner s and every line before it has none.
   */
  lemma {:induction false} FirstWinIsFirst(lines: seq<seq<Cell>>, s: Cell)
    requires forall j | 0 <= j < |lines| :: |lines[j]| >= 1
    ensures FirstWin(lines) == Some(s) <==>
              exists k | 0 <= k < |lines| :: LineWinner(lines[k]) == Some(s) && NoWinBefore(lines, k)
  {
    if exists k | 0 <= k < |lines| :: LineWinner(lines[k]) == Some(s) && NoWinBefore(lines, k) {
      var k :| 0 <= k < |lines| && LineWinner(lines[k]) == Some(s) && NoWinBefore(lines, k);
      var r := FirstWin(lines);
      assert r.Some?;
      var k' :| 0 <= k' < |lines| && LineWinner(lines[k']) == r && NoWinBefore(lines, k');
      if k' < k {
        assert LineWinner(lines[k']) == Nothing;
      } else if k < k' {
        assert LineWinner(lines[k]) == Nothing;
      }
    }
  }

  /** One more line without a winner extends NoWinBefore by one. */
  lemma NoWinExtend(lines: seq<seq<Cell>>, k: nat)
    requires k < |lines| && forall j | 0 <= j < |lines| :: |lines[j]| >= 1
    requires NoWinBefore(lines, k) && LineWinner(lines[k]) == Nothing
    ensures NoWinBefore(lines, k + 1)
  {
  }

  /** A winning line with no winning line before it is the one FirstWin picks. */
  lemma FirstWinAt(lines: seq<seq<Cell>>, k: nat)
    requires k < |lines| && forall j | 0 <= j < |lines| :: |lines[j]| >= 1
    requires NoWinBefore(lines, k) && LineWinner(lines[k]).Some?
    ensures FirstWin(lines) == LineWinner(lines[k])
  {
    FirstWinIsFirst(lines, LineWinner(lines[k]).value);
  }

  /** With no winning line at all, FirstWin finds nothing. */
  lemma FirstWinNone(lines: seq<seq<Cell>>)
    requires forall j | 0 <= j < |lines| :: |lines[j]| >= 1
    requires NoWinBefore(lines, |lines|)
    ensures FirstWin(lines) == Nothing
  {
  }

  /**
   * A player wins the board exactly when some line in scan order is all
   * theirs and no earlier line is all someone's.
   */
  lemma VerdictWin(g: Grid<Cell>, s: Cell)
    requires Square(g) && s != None
    ensures Verdict(g) == Some(s) <==>
              exists k | 0 <= k < |Lines(g)| :: LineWinner(Lines(g)[k]) == Some(s) && NoWinBefore(Lines(g), k)
  {
    FirstWinIsFirst(Lines(g), s);
  }

  /** The board is a draw exactly when it is full and no line is all one symbol. */
  lemma VerdictDraw(g: Grid<Cell>)
    requires Square(g)
    ensures Verdict(g) == Some(None) <==> Full(g) && NoWinBefore(Lines(g), |Lines(g)|)
  {
    FirstWinIsFirst(Lines(g), None);
  }

  /** calc_result leaves `winner` alone exactly when no line wins and some cell is empty. */
  lemma VerdictUndecided(g: Grid<Cell>)
    requires Square(g)
    ensures Verdict(g) == Nothing <==> !Full(g) && NoWinBefore(Lines(g), |Lines(g)|)
  {
  }

  /** A line filled with one symbol decides the game for a player, never as a draw. */
  lemma {:induction false} FullLineDecides(g: Grid<Cell>, k: nat, s: Cell)
    requires Square(g) && k < |Lines(g)| && s != None
    requires forall i | 0 <= i < g.height :: Lines(g)[k][i] == s
    ensures Verdict(g).Some? && Verdict(g).value != None
  {
    var lines := Lines(g);
    assert LineWinner(lines[k]) == Some(s);
  }

  /** A line with two different cells has no winner. */
  lemma Mixed(line: seq<Cell>, i: nat, j: nat)
    requires i < |line| && j < |line| && line[i] != line[j]
    ensures LineWinner(line) == Nothing
  {
  }

  /** A board none of whose rows and columns has a winner has no winning line before the diagonals. */
  lemma NoRowOrColumnWins(g: Grid<Cell>)
    requires Square(g)
    requires forall y | 0 <= y < g.height :: LineWinner(Row(g, y)) == Nothing
    requires forall x | 0 <= x < g.width :: LineWinner(Column(g, x)) == Nothing
    ensures NoWinBefore(Lines(g), 2 * g.height)
  {
    var lines := Lines(g);
    forall k | 0 <= k < 2 * g.height
      ensures LineWinner(lines[k]) == Nothing
    {
      if k < g.height {
        assert lines[k] == Row(g, k);
      } else {
        assert lines[k] == Column(g, k - g.height);
      }
    }
  }

  /** A board none of whose rows, columns or diagonals has a winner has no winning line. */
  lemma NoLineWins(g: Grid<Cell>)
    requires Square(g)
    requires forall y | 0 <= y < g.height :: LineWinner(Row(g, y)) == Nothing
    requires forall x | 0 <= x < g.width :: LineWinner(Column(g, x)) == Nothing
    requires LineWinner(Diagonal(g)) == Nothing && LineWinner(AntiDiagonal(g)) == Nothing
    ensures NoWinBefore(Lines(g), |Lines(g)|)
  {
    NoRowOrColumnWins(g);
  }

  /**
   * A main diagonal filled with one symbol wins for that symbol when no
   * row and no column is filled with one symbol.
   */
  lemma DiagonalWins(g: Grid<Cell>, s: Cell)
    requires Square(g) && s != None
    requires forall i | 0 <= i < g.height :: g.At(i, i) == s
    requires forall y | 0 <= y < g.height :: LineWinner(Row(g, y)) == Nothing
    requires forall x | 0 <= x < g.width :: LineWinner(Column(g, x)) == Nothing
    ensures Verdict(g) == Some(s)
  {
    var lines := Lines(g);
    NoRowOrColumnWins(g);
    assert LineWinner(lines[2 * g.height]) == Some(s);
    FirstWinIsFirst(lines, s);
  }

  /** A board none of whose rows holds None is full. */
  lemma FullByRows(g: Grid<Cell>)
    requires g.Valid() && forall y | 0 <= y < g.height :: None !in g.rows[y]
    ensures Full(g)
  {
  }

  /** Circle on the main diagonal of a 3 x 3 board, and no full row or column. */
  const DiagonalBoard: Grid<Cell> :=
    Grid(3, 3, [[Circle, Cross, None], [None, Circle, Cross], [Cross, None, Circle]])

  /** The worked example: DiagonalBoard is won by Circle. */
  lemma CircleDiagonalWins()
    ensures Square(DiagonalBoard) && Verdict(DiagonalBoard) == Some(Circle)
  {
    var g := DiagonalBoard;
    forall y | 0 <= y < 3
      ensures LineWinner(Row(g, y)) == Nothing
    {
      if y == 0 { Mixed(Row(g, 0), 0, 1); }
      else if y == 1 { Mixed(Row(g, 1), 0, 1); }
      else { Mixed(Row(g, 2), 0, 1); }
    }
    forall x | 0 <= x < 3
      ensures LineWinner(Column(g, x)) == Nothing
    {
      if x == 0 { Mixed(Column(g, 0), 0, 1); }
      else if x == 1 { Mixed(Column(g, 1), 0, 1); }
      else { Mixed(Column(g, 2), 0, 1); }
    }
    forall i | 0 <= i < 3
      ensures g.At(i, i) == Circle
    {
      if i == 0 { } else if i == 1 { } else { }
    }
    DiagonalWins(g, Circle);
  }

  /**
   * Scan order decides between two winning lines: on a 2 x 2 board whose
   * top row is Circle and bottom row Cross, the top row is checked first.
   */
  lemma UpperRowFirst()
    ensures var g := Grid(2, 2, [[Circle, Circle], [Cross, Cross]]);
      Square(g) && Verdict(g) == Some(Circle)
  {
    var g := Grid(2, 2, [[Circle, Circle], [Cross, Cross]]);
    var lines := Lines(g);
    assert LineWinner(lines[0]) == Some(Circle);
    assert NoWinBefore(lines, 0);
    FirstWinIsFirst(lines, Circle);
  }

  /** A full 3 x 3 board with no line of one symbol. */
  const DrawnBoard: Grid<Cell> :=
    Grid(3, 3, [[Circle, Cross, Circle], [Circle, Cross, Cross], [Cross, Circle, Circle]])

  /** DrawnBoard is a draw. */
  lemma FullBoardDraw()
    ensures Square(DrawnBoard) && Verdict(DrawnBoard) == Some(None)
  {
    DrawnBoardFull();
    DrawnBoardHasNoLine();
    VerdictDraw(DrawnBoard);
  }

  lemma DrawnBoardFull()
    ensures Square(DrawnBoard) && Full(DrawnBoard)
  {
    var g := DrawnBoard;
    assert None !in g.rows[0] && None !in g.rows[1] && None !in g.rows[2];
    FullByRows(g);
  }

  lemma DrawnBoardHasNoLine()
    ensures Square(DrawnBoard) && NoWinBefore(Lines(DrawnBoard), |Lines(DrawnBoard)|)
  {
    var g := DrawnBoard;
    forall y | 0 <= y < 3
      ensures LineWinner(Row(g, y)) == Nothing
    {
      if y == 0 { Mixed(Row(g, 0), 0, 1); }
      else if y == 1 { Mixed(Row(g, 1), 0, 1); }
      else { Mixed(Row(g, 2), 0, 1); }
    }
    forall x | 0 <= x < 3
      ensures LineWinner(Column(g, x)) == Nothing
    {
      if x == 0 { Mixed(Column(g, 0), 0, 2); }
      else if x == 1 { Mixed(Column(g, 1), 0, 2); }
      else { Mixed(Column(g, 2), 0, 1); }
    }
    Mixed(Diagonal(g), 0, 1);
    Mixed(AntiDiagonal(g), 0, 2);
    NoLineWins(g);
  }

  // ---------------------------------------------------------------------
  // get_operation: which cell the local player proposes
  // ---------------------------------------------------------------------

  /** The cell at `p` exists and is empty. */
  predicate FreeCell(g: Grid<Cell>, p: Point)
    requires g.Valid()
  {
    g.InBounds(p) && g.At(p.y, p.x) == None
  }

  /** get_operation scans rows from the top and each row from the left. */
  predicate ScannedBefore(a: Point, b: Point) {
    a.y < b.y || (a.y == b.y && a.x < b.x)
  }

  /**
   * What get_operation may return when `clicked` holds the cells clicked
   * this frame: nothing unless the game is started, it is the local turn
   * and the game is not finished; otherwise the first clicked empty cell
   * in scan order with the local symbol, or nothing when no clicked cell
   * is empty.
   */
  predicate IsProposal(g: Grid<Cell>, symbol: Cell, isStarted: bool, isTurn: bool, isFinished: bool,
                       clicked: set<Point>, r: Optional<Operation>)
    requires g.Valid()
  {
    if !(isStarted && isTurn && !isFinished) then r == Nothing
    else match r
      case Nothing => forall p | p in clicked :: !FreeCell(g, p)
      case Some(op) =>
        && op.cellType == symbol && op.pos in clicked && FreeCell(g, op.pos)
        && forall p | p in clicked && FreeCell(g, p) :: !ScannedBefore(p, op.pos)
  }

  /** The scan order decides between any two distinct cells, so a proposal is unique. */
  lemma ProposalIsUnique(g: Grid<Cell>, symbol: Cell, isStarted: bool, isTurn: bool, isFinished: bool,
                         clicked: set<Point>, r1: Optional<Operation>, r2: Optional<Operation>)
    requires g.Valid()
    requires IsProposal(g, symbol, isStarted, isTurn, isFinished, clicked, r1)
    requires IsProposal(g, symbol, isStarted, isTurn, isFinished, clicked, r2)
    ensures r1 == r2
  {
    if r1.Some? && r2.Some? {
      assert !ScannedBefore(r1.value.pos, r2.value.pos) && !ScannedBefore(r2.value.pos, r1.value.pos);
    }
  }

  /**
   * A full board, which a drawn board is, has no empty cell to propose, even
   * though calc_result leaves the game unfinished.
   */
  lemma FullBoardNoProposal(g: Grid<Cell>, symbol: Cell, isStarted: bool, isTurn: bool, isFinished: bool,
                            clicked: set<Point>, r: Optional<Operation>)
    requires g.Valid() && Full(g)
    requires IsProposal(g, symbol, isStarted, isTurn, isFinished, clicked, r)
    ensures r == Nothing
  {
  }
}
