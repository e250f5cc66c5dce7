/**
 * `TicTacToe::Game`: the noughts-and-crosses board as an object whose
 * methods write cells, the turn flag and the winner in place. The result
 * evaluation is proved to agree with TicTacToeRules.Verdict.
 */
module TicTacToe {
  import opened Siv3D
  import opened TicTacToeRules

  /**
   * check_line: the first cell of the line if it is not None and every
   * other cell equals it; nothing otherwise. `line` holds the cells the
   * lambda's `get_cell` reads, `count` of them.
   */
  method CheckLine(line: seq<Cell>) returns (r: Optional<Cell>)
    requires |line| >= 1
    ensures r == LineWinner(line)
  {
    var first := line[0];
    if first == None {
      return Nothing;
    }
    var i := 1;
    while i < |line|
      invariant 1 <= i <= |line|
      invariant forall j | 0 <= j < i :: line[j] == first
    {
      if line[i] != first {
        return Nothing;
      }
      i := i + 1;
    }
    return Some(first);
  }

  /**
   * The line checks of calc_result: check_line on every row, then every
   * column, then the main diagonal, then the anti-diagonal, stopping at
   * the first line filled with one symbol and giving that symbol.
   */
  method CheckLines(g: Grid<Cell>) returns (w: Optional<Cell>)
    requires Square(g)
    ensures w == FirstWin(Lines(g))
  {
    w := CheckRows(g);
    if w.Some? {
      return;
    }
    w := CheckColumns(g);
    if w.Some? {
      return;
    }
    ghost var lines := Lines(g);
    var diagonal := CheckLine(Diagonal(g));
    if diagonal.Some? {
      FirstWinAt(lines, 2 * g.height);
      return diagonal;
    }
    NoWinExtend(lines, 2 * g.height);
    var antiDiagonal := CheckLine(AntiDiagonal(g));
    if antiDiagonal.Some? {
      FirstWinAt(lines, 2 * g.height + 1);
      return antiDiagonal;
    }
    NoWinExtend(lines, 2 * g.height + 1);
    FirstWinNone(lines);
    return Nothing;
  }

  /** The row loop of calc_result: the first row filled with one symbol, top to bottom. */
  method CheckRows(g: Grid<Cell>) returns (w: Optional<Cell>)
    requires Square(g)
    ensures w.Some? ==> w == FirstWin(Lines(g))
    ensures w == Nothing ==> NoWinBefore(Lines(g), g.height)
  {
    ghost var lines := Lines(g);
    var y := 0;
    while y < g.height
      invariant 0 <= y <= g.height && NoWinBefore(lines, y)
    {
      var result := CheckLine(Row(g, y));
      if result.Some? {
        FirstWinAt(lines, y);
        return result;
      }
      NoWinExtend(lines, y);
      y := y + 1;
    }
    return Nothing;
  }

  /**
   * The column loop of calc_result, run when no row is won: the first
   * column filled with one symbol, left to right.
   */
  method CheckColumns(g: Grid<Cell>) returns (w: Optional<Cell>)
    requires Square(g) && NoWinBefore(Lines(g), g.height)
    ensures w.Some? ==> w == FirstWin(Lines(g))
    ensures w == Nothing ==> NoWinBefore(Lines(g), 2 * g.height)
  {
    ghost var lines := Lines(g);
    var x := 0;
    while x < g.width
      invariant 0 <= x <= g.width && NoWinBefore(lines, g.height + x)
    {
      var result := CheckLine(Column(g, x));
      if result.Some? {
        FirstWinAt(lines, g.height + x);
        return result;
      }
      NoWinExtend(lines, g.height + x);
      x := x + 1;
    }
    return Nothing;
  }

  /**
   * The draw check of calc_result: scans the board row by row and stops
   * at the first empty cell; true when it finds none.
   */
  method CheckFull(g: Grid<Cell>) returns (full: bool)
    requires g.Valid()
    ensures full == Full(g)
  {
    var y := 0;
    while y < g.height
      invariant 0 <= y <= g.height
      invariant forall yy, x | 0 <= yy < y && 0 <= x < g.width :: g.At(yy, x) != None
    {
      var x := 0;
      while x < g.width
        invariant 0 <= x <= g.width
        invariant forall xx | 0 <= xx < x :: g.At(y, xx) != None
      {
        if g.At(y, x) == None {
          return false;
        }
        x := x + 1;
      }
      y := y + 1;
    }
    return true;
  }

  class Game {
    var grid: Grid<Cell>
    var playerSymbol: Cell
    var isStarted: bool
    var isTurn: bool
    var isFinished: bool
    var winner: Optional<Cell>

    /** Game(): an empty board, no symbol, every flag false, no winner. */
    constructor ()
      ensures grid == Cleared() && playerSymbol == None
      ensures !isStarted && !isTurn && !isFinished && winner == Nothing
    {
      grid := Cleared();
      playerSymbol := None;
      isStarted, isTurn, isFinished := false, false, false;
      winner := Nothing;
    }

    /**
     * Game(grid_size, player_symbol): the default members, then
     * initialize. Because initialize leaves is_turn alone, the new game is
     * nobody's turn, whatever the symbol.
     */
    constructor WithBoard(n: nat, symbol: Cell)
      ensures grid == Filled(n, n, None) && playerSymbol == symbol
      ensures isStarted && !isTurn && !isFinished && winner == Nothing
    {
      grid := Cleared();
      playerSymbol := None;
      isStarted, isTurn, isFinished := false, false, false;
      winner := Nothing;
      new;
      Initialize(n, symbol);
    }

    /**
     * initialize: an n x n board of empty cells, the local symbol, and the
     * game started. The turn flag, the finished flag and the winner are
     * declared again as locals, which shadow the members: the members keep
     * their values.
     */
    method Initialize(n: nat, symbol: Cell)
      modifies this
      ensures grid == Filled(n, n, None) && playerSymbol == symbol && isStarted
      ensures isTurn == old(isTurn) && isFinished == old(isFinished) && winner == old(winner)
    {
      grid := Filled(n, n, None);
      playerSymbol := symbol;
      isStarted := true;
      var isTurn := playerSymbol == Circle;
      var isFinished := false;
      var winner: Optional<Cell> := Nothing;
    }

    /**
     * operate: writes the operation's symbol into its cell without checking
     * the cell, gives the turn to this player exactly when the symbol is
     * the opponent's, runs calc_result and returns the winner member.
     */
    method Operate(op: Operation) returns (r: Optional<Cell>)
      requires Square(grid) && grid.InBounds(op.pos)
      modifies this`grid, this`isTurn, this`winner
      ensures grid == old(grid).Updated(op.pos.y, op.pos.x, op.cellType)
      ensures isTurn == (playerSymbol != op.cellType)
      ensures Verdict(grid) == Nothing ==> winner == old(winner)
      ensures Verdict(grid) != Nothing ==> winner == Verdict(grid)
      ensures r == winner
      ensures playerSymbol == old(playerSymbol) && isStarted == old(isStarted) && isFinished == old(isFinished)
    {
      WriteCell(op);
      CalcResult();
      r := winner;
    }

    /** The first two steps of operate: the cell write and the turn flag. */
    method WriteCell(op: Operation)
      requires Square(grid) && grid.InBounds(op.pos)
      modifies this`grid, this`isTurn
      ensures Square(grid) && grid == old(grid).Updated(op.pos.y, op.pos.x, op.cellType)
      ensures isTurn == (playerSymbol != op.cellType)
    {
      grid := grid.Updated(op.pos.y, op.pos.x, op.cellType);
      isTurn := playerSymbol != op.cellType;
    }

    /**
     * calc_result: the winner member becomes the verdict of the board's
     * lines; when the board has none (no line won and an empty cell is
     * left) the winner is left as it was. is_finished is never set.
     */
    method CalcResult()
      requires Square(grid)
      modifies this`winner
      ensures Verdict(grid) == Nothing ==> winner == old(winner)
      ensures Verdict(grid) != Nothing ==> winner == Verdict(grid)
    {
      var lineWinner := CheckLines(grid);
      if lineWinner.Some? {
        winner := lineWinner;
        return;
      }
      var full := CheckFull(grid);
      if full {
        winner := Some(None);
      }
    }

    /**
     * get_operation, given the set of cells clicked this frame: see
     * IsProposal.
     */
    method GetOperation(clicked: set<Point>) returns (r: Optional<Operation>)
      requires grid.Valid()
      ensures IsProposal(grid, playerSymbol, isStarted, isTurn, isFinished, clicked, r)
    {
      if !(isStarted && isTurn && !isFinished) {
        return Nothing;
      }
      var h := 0;
      while h < grid.height
        invariant 0 <= h <= grid.height
        invariant forall p | p in clicked && FreeCell(grid, p) :: p.y >= h
      {
        var w := 0;
        while w < grid.width
          invariant 0 <= w <= grid.width
          invariant forall p | p in clicked && FreeCell(grid, p) :: p.y > h || (p.y == h && p.x >= w)
        {
          if Point(w, h) in clicked && grid.At(h, w) == None {
            return Some(Operation(Point(w, h), playerSymbol));
          }
          w := w + 1;
        }
        h := h + 1;
      }
      return Nothing;
    }
  }
}
