/**
 * The rules of the line game (dots and boxes) as values: the game state,
 * what one edge placement does to it, and what is proved about that.
 * The class DotsAndBoxes.Game runs the same steps in place and is proved
 * to agree with `Operate` here.
 */
module DotsAndBoxesRules {
  import opened Siv3D

  /** The colour of a drawn edge and of a box's owner; None is "not yet". */
  datatype LineColor = None | Red | Blue

  /** Which edge of the cell at `pos` an operation draws. */
  datatype LineDirection = Top | Left

  /** One move: the edge (`dir` of the cell at `pos`) and the mover's colour. */
  datatype Operation = Operation(pos: Point, dir: LineDirection, lineColor: LineColor)

  /** The event code under which an Operation travels between the two players. */
  const OperationCode: uint8 := 42

  /** Everything `DotsAndBoxes::Game` keeps about one game. */
  datatype State = State(
    gridSize: Size,
    horizontalLines: Grid<LineColor>,
    verticalLines: Grid<LineColor>,
    boxOwners: Grid<LineColor>,
    scores: map<LineColor, int>,
    playerColor: LineColor,
    isStarted: bool,
    isTurn: bool,
    isFinished: bool,
    winner: Optional<LineColor>)

  // ---------------------------------------------------------------------
  // Board geometry
  // ---------------------------------------------------------------------

  /**
   * For `size` cells of x columns and y rows: (y+1) rows of x horizontal
   * edges and y rows of (x+1) vertical edges.
   */
  predicate LinesShaped(size: Size, horizontal: Grid<LineColor>, vertical: Grid<LineColor>) {
    && horizontal.Valid() && horizontal.width == size.x && horizontal.height == size.y + 1
    && vertical.Valid() && vertical.width == size.x + 1 && vertical.height == size.y
  }

  predicate BoxesShaped(size: Size, boxes: Grid<LineColor>) {
    boxes.Valid() && boxes.width == size.x && boxes.height == size.y
  }

  /** All four edges around the box in row y, column x are drawn. */
  predicate Closed(size: Size, horizontal: Grid<LineColor>, vertical: Grid<LineColor>, y: nat, x: nat)
    requires LinesShaped(size, horizontal, vertical) && y < size.y && x < size.x
  {
    && horizontal.At(y, x) != None && horizontal.At(y + 1, x) != None
    && vertical.At(y, x) != None && vertical.At(y, x + 1) != None
  }

  /** The box is closed and nobody owns it yet: the scan in operate_ claims it. */
  predicate Claimable(size: Size, horizontal: Grid<LineColor>, vertical: Grid<LineColor>,
                      boxes: Grid<LineColor>, y: nat, x: nat)
    requires LinesShaped(size, horizontal, vertical) && BoxesShaped(size, boxes)
    requires y < size.y && x < size.x
  {
    boxes.At(y, x) == None && Closed(size, horizontal, vertical, y, x)
  }

  /** Number of claimable boxes among the first n of row y. */
  function ClaimRowCount(size: Size, horizontal: Grid<LineColor>, vertical: Grid<LineColor>,
                         boxes: Grid<LineColor>, y: nat, n: nat): nat
    requires LinesShaped(size, horizontal, vertical) && BoxesShaped(size, boxes)
    requires y < size.y && n <= size.x
  {
    if n == 0 then 0
    else ClaimRowCount(size, horizontal, vertical, boxes, y, n - 1)
         + (if Claimable(size, horizontal, vertical, boxes, y, n - 1) then 1 else 0)
  }

  /** The row count grows by one exactly at a claimable box. */
  lemma ClaimRowCountNext(size: Size, horizontal: Grid<LineColor>, vertical: Grid<LineColor>,
                          boxes: Grid<LineColor>, y: nat, n: nat)
    requires LinesShaped(size, horizontal, vertical) && BoxesShaped(size, boxes)
    requires y < size.y && n < size.x
    ensures ClaimRowCount(size, horizontal, vertical, boxes, y, n + 1) ==
            ClaimRowCount(size, horizontal, vertical, boxes, y, n)
            + (if Claimable(size, horizontal, vertical, boxes, y, n) then 1 else 0)
  {
  }

  /** Number of claimable boxes in the first m rows. */
  function ClaimCountUpTo(size: Size, horizontal: Grid<LineColor>, vertical: Grid<LineColor>,
                          boxes: Grid<LineColor>, m: nat): nat
    requires LinesShaped(size, horizontal, vertical) && BoxesShaped(size, boxes)
    requires m <= size.y
  {
    if m == 0 then 0
    else ClaimCountUpTo(size, horizontal, vertical, boxes, m - 1)
         + ClaimRowCount(size, horizontal, vertical, boxes, m - 1, size.x)
  }

  function ClaimCount(size: Size, horizontal: Grid<LineColor>, vertical: Grid<LineColor>,
                      boxes: Grid<LineColor>): nat
    requires LinesShaped(size, horizontal, vertical) && BoxesShaped(size, boxes)
  {
    ClaimCountUpTo(size, horizontal, vertical, boxes, size.y)
  }

  /**
   * The owner of the box in row yy, column xx once the row-major scan of
   * operate_ has passed every box before row y, column x: claimed by
   * `color` if it was claimable, as it was otherwise.
   */
  function ScannedOwner(size: Size, horizontal: Grid<LineColor>, vertical: Grid<LineColor>,
                        boxes: Grid<LineColor>, color: LineColor, y: nat, x: nat, yy: int, xx: int): LineColor
    requires LinesShaped(size, horizontal, vertical) && BoxesShaped(size, boxes)
  {
    if !(0 <= yy < size.y && 0 <= xx < size.x) then None
    else if (yy < y || (yy == y && xx < x)) && Claimable(size, horizontal, vertical, boxes, yy, xx) then color
    else boxes.At(yy, xx)
  }

  /** The box grid part way through the scan, before row y, column x. */
  function ClaimedPrefix(size: Size, horizontal: Grid<LineColor>, vertical: Grid<LineColor>,
                         boxes: Grid<LineColor>, color: LineColor, y: nat, x: nat): (g: Grid<LineColor>)
    requires LinesShaped(size, horizontal, vertical) && BoxesShaped(size, boxes)
    ensures BoxesShaped(size, g)
    ensures forall yy, xx | 0 <= yy < size.y && 0 <= xx < size.x ::
              g.At(yy, xx) ==
                if (yy < y || (yy == y && xx < x)) && Claimable(size, horizontal, vertical, boxes, yy, xx)
                then color else boxes.At(yy, xx)
  {
    Grid(size.x, size.y,
      seq(size.y, yy => seq(size.x, xx => ScannedOwner(size, horizontal, vertical, boxes, color, y, x, yy, xx))))
  }

  /** The box grid after the whole scan: every claimable box given to `color`. */
  function Claimed(size: Size, horizontal: Grid<LineColor>, vertical: Grid<LineColor>,
                   boxes: Grid<LineColor>, color: LineColor): (g: Grid<LineColor>)
    requires LinesShaped(size, horizontal, vertical) && BoxesShaped(size, boxes)
    ensures BoxesShaped(size, g)
    ensures forall y, x | 0 <= y < size.y && 0 <= x < size.x ::
              g.At(y, x) == if Claimable(size, horizontal, vertical, boxes, y, x) then color else boxes.At(y, x)
  {
    ClaimedPrefix(size, horizontal, vertical, boxes, color, size.y, 0)
  }

  /** Before the scan nothing has changed. */
  lemma ClaimedPrefixStart(size: Size, horizontal: Grid<LineColor>, vertical: Grid<LineColor>,
                           boxes: Grid<LineColor>, color: LineColor)
    requires LinesShaped(size, horizontal, vertical) && BoxesShaped(size, boxes)
    ensures ClaimedPrefix(size, horizontal, vertical, boxes, color, 0, 0) == boxes
  {
    GridExtensionality(ClaimedPrefix(size, horizontal, vertical, boxes, color, 0, 0), boxes);
  }

  /** One step of the scan: the box at (y, x) is still untouched, and is claimed iff claimable. */
  lemma ClaimedPrefixStep(size: Size, horizontal: Grid<LineColor>, vertical: Grid<LineColor>,
                          boxes: Grid<LineColor>, color: LineColor, y: nat, x: nat)
    requires LinesShaped(size, horizontal, vertical) && BoxesShaped(size, boxes)
    requires y < size.y && x < size.x
    ensures ClaimedPrefix(size, horizontal, vertical, boxes, color, y, x).At(y, x) == boxes.At(y, x)
    ensures ClaimedPrefix(size, horizontal, vertical, boxes, color, y, x + 1) ==
              if Claimable(size, horizontal, vertical, boxes, y, x)
              then ClaimedPrefix(size, horizontal, vertical, boxes, color, y, x).Updated(y, x, color)
              else ClaimedPrefix(size, horizontal, vertical, boxes, color, y, x)
  {
    var g := ClaimedPrefix(size, horizontal, vertical, boxes, color, y, x);
    var h := ClaimedPrefix(size, horizontal, vertical, boxes, color, y, x + 1);
    if Claimable(size, horizontal, vertical, boxes, y, x) {
      GridExtensionality(h, g.Updated(y, x, color));
    } else {
      GridExtensionality(h, g);
    }
  }

  /**
   * One iteration of the scan at row y, column x that claims the box: it is
   * unowned with four drawn edges, and claiming it takes the scanned grid,
   * the claim count and the credited scores one box further.
   */
  lemma ScanClaim(size: Size, horizontal: Grid<LineColor>, vertical: Grid<LineColor>,
                  boxes: Grid<LineColor>, scores: map<LineColor, int>, color: LineColor, y: nat, x: nat,
                  owners: Grid<LineColor>, credited: map<LineColor, int>, claimed: nat)
    requires LinesShaped(size, horizontal, vertical) && BoxesShaped(size, boxes)
    requires y < size.y && x < size.x
    requires owners == ClaimedPrefix(size, horizontal, vertical, boxes, color, y, x)
    requires credited == Credit(scores, color, claimed)
    requires && owners.At(y, x) == None
             && horizontal.At(y, x) != None && horizontal.At(y + 1, x) != None
             && vertical.At(y, x) != None && vertical.At(y, x + 1) != None
    ensures owners.Updated(y, x, color) == ClaimedPrefix(size, horizontal, vertical, boxes, color, y, x + 1)
    ensures ClaimRowCount(size, horizontal, vertical, boxes, y, x + 1)
            == ClaimRowCount(size, horizontal, vertical, boxes, y, x) + 1
    ensures credited[color := ScoreOf(credited, color) + 1] == Credit(scores, color, claimed + 1)
  {
    ClaimedPrefixStep(size, horizontal, vertical, boxes, color, y, x);
    ClaimRowCountNext(size, horizontal, vertical, boxes, y, x);
    CreditStep(scores, color, claimed);
  }

  /**
   * One iteration of the scan that passes the box by: it is owned or has an
   * undrawn edge, and the scanned grid and the claim count move on unchanged.
   */
  lemma ScanSkip(size: Size, horizontal: Grid<LineColor>, vertical: Grid<LineColor>,
                 boxes: Grid<LineColor>, color: LineColor, y: nat, x: nat,
                 owners: Grid<LineColor>)
    requires LinesShaped(size, horizontal, vertical) && BoxesShaped(size, boxes)
    requires y < size.y && x < size.x
    requires owners == ClaimedPrefix(size, horizontal, vertical, boxes, color, y, x)
    requires || owners.At(y, x) != None
             || horizontal.At(y, x) == None || horizontal.At(y + 1, x) == None
             || vertical.At(y, x) == None || vertical.At(y, x + 1) == None
    ensures owners == ClaimedPrefix(size, horizontal, vertical, boxes, color, y, x + 1)
    ensures ClaimRowCount(size, horizontal, vertical, boxes, y, x + 1)
            == ClaimRowCount(size, horizontal, vertical, boxes, y, x)
  {
    ClaimedPrefixStep(size, horizontal, vertical, boxes, color, y, x);
    ClaimRowCountNext(size, horizontal, vertical, boxes, y, x);
  }

  /** The end of one row is the start of the next. */
  lemma ClaimedPrefixNextRow(size: Size, horizontal: Grid<LineColor>, vertical: Grid<LineColor>,
                             boxes: Grid<LineColor>, color: LineColor, y: nat)
    requires LinesShaped(size, horizontal, vertical) && BoxesShaped(size, boxes)
    requires y < size.y
    ensures ClaimedPrefix(size, horizontal, vertical, boxes, color, y, size.x) ==
            ClaimedPrefix(size, horizontal, vertical, boxes, color, y + 1, 0)
  {
    GridExtensionality(ClaimedPrefix(size, horizontal, vertical, boxes, color, y, size.x),
                       ClaimedPrefix(size, horizontal, vertical, boxes, color, y + 1, 0));
  }

  // ---------------------------------------------------------------------
  // Counting cells of a colour
  // ---------------------------------------------------------------------

  /** Cells equal to c among the first n of row y. */
  function RowCount(g: Grid<LineColor>, c: LineColor, y: nat, n: nat): nat
    requires g.Valid() && y < g.height && n <= g.width
  {
    if n == 0 then 0 else RowCount(g, c, y, n - 1) + (if g.At(y, n - 1) == c then 1 else 0)
  }

  /** Cells equal to c in the first m rows. */
  function CountUpTo(g: Grid<LineColor>, c: LineColor, m: nat): nat
    requires g.Valid() && m <= g.height
  {
    if m == 0 then 0 else CountUpTo(g, c, m - 1) + RowCount(g, c, m - 1, g.width)
  }

  /** Number of cells of g equal to c. */
  function Count(g: Grid<LineColor>, c: LineColor): nat
    requires g.Valid()
  {
    CountUpTo(g, c, g.height)
  }

  // ---------------------------------------------------------------------
  // The state and its invariant
  // ---------------------------------------------------------------------

  /** scores_[c], reading an absent key as 0 like HashTable::operator[]. */
  function ScoreOf(scores: map<LineColor, int>, c: LineColor): int {
    if c in scores then scores[c] else 0
  }

  /**
   * The score table after `scores_[c]++` has run k times: c gains k points
   * (an absent c counts from 0), every other colour keeps its score, and c
   * becomes a key once it has been incremented.
   */
  function Credit(scores: map<LineColor, int>, c: LineColor, k: nat): (r: map<LineColor, int>)
    ensures ScoreOf(r, c) == ScoreOf(scores, c) + k
    ensures forall c' | c' != c :: ScoreOf(r, c') == ScoreOf(scores, c')
    ensures r.Keys == if k == 0 then scores.Keys else scores.Keys + {c}
  {
    if k == 0 then scores else scores[c := ScoreOf(scores, c) + k]
  }

  /** One more `scores_[c]++` after k of them is k + 1 of them. */
  lemma CreditStep(scores: map<LineColor, int>, c: LineColor, k: nat)
    ensures Credit(scores, c, k)[c := ScoreOf(Credit(scores, c, k), c) + 1] == Credit(scores, c, k + 1)
  {
    if k > 0 {
      var m := Credit(scores, c, k);
      assert m[c := ScoreOf(m, c) + 1] == scores[c := ScoreOf(scores, c) + k + 1];
    }
  }

  /** The colour calc_result_ names as winner: the higher score, None on a tie. */
  function Leader(scores: map<LineColor, int>): (r: LineColor)
    requires Red in scores && Blue in scores
    ensures r == Red <==> scores[Red] > scores[Blue]
    ensures r == Blue <==> scores[Red] < scores[Blue]
    ensures r == None <==> scores[Red] == scores[Blue]
  {
    if scores[Red] > scores[Blue] then Red
    else if scores[Red] < scores[Blue] then Blue
    else None
  }

  /**
   * What operate_ and calc_result_ need: the grids are well formed and,
   * while a game runs, have their sizes and both scores exist.
   */
  predicate WellFormed(s: State) {
    && s.horizontalLines.Valid() && s.verticalLines.Valid() && s.boxOwners.Valid()
    && (s.isStarted ==>
          && LinesShaped(s.gridSize, s.horizontalLines, s.verticalLines)
          && BoxesShaped(s.gridSize, s.boxOwners)
          && Red in s.scores && Blue in s.scores)
  }

  /**
   * What holds of every state the game can reach. While a game runs the
   * grids have their sizes, each score is the number of boxes that colour
   * owns, a box is owned exactly when its four edges are drawn, and the
   * game is finished exactly when it has a winner (a colour or None for a
   * draw), which requires every box owned.
   */
  predicate Inv(s: State) {
    && WellFormed(s)
    && if s.isStarted then
         && s.scores.Keys == {Red, Blue}
         && s.scores[Red] == Count(s.boxOwners, Red)
         && s.scores[Blue] == Count(s.boxOwners, Blue)
         && (forall y, x | 0 <= y < s.gridSize.y && 0 <= x < s.gridSize.x ::
               s.boxOwners.At(y, x) != None <==> Closed(s.gridSize, s.horizontalLines, s.verticalLines, y, x))
         && (s.isFinished ==> Count(s.boxOwners, None) == 0 && s.winner == Some(Leader(s.scores)))
         && (!s.isFinished ==> s.winner == Nothing)
       else
         !s.isFinished && s.winner == Nothing && s.scores.Keys <= {Red, Blue}
  }

  // ---------------------------------------------------------------------
  // operate_ and calc_result_
  // ---------------------------------------------------------------------

  /** The edge `dir` of the cell at `pos` exists and is not drawn yet. */
  predicate FreeEdge(s: State, dir: LineDirection, pos: Point)
    requires s.horizontalLines.Valid() && s.verticalLines.Valid()
  {
    match dir
    case Top => s.horizontalLines.InBounds(pos) && s.horizontalLines.At(pos.y, pos.x) == None
    case Left => s.verticalLines.InBounds(pos) && s.verticalLines.At(pos.y, pos.x) == None
  }

  /** operate_ goes past its early returns. */
  predicate Accepts(s: State, op: Operation)
    requires s.horizontalLines.Valid() && s.verticalLines.Valid()
  {
    s.isStarted && !s.isFinished && FreeEdge(s, op.dir, op.pos)
  }

  /**
   * The state with the operation's edge set to its colour: only the edge
   * grid its direction names changes, keeping its shape, and only at the
   * operation's position.
   */
  function Drawn(s: State, op: Operation): (t: State)
    requires s.horizontalLines.Valid() && s.verticalLines.Valid() && FreeEdge(s, op.dir, op.pos)
    ensures t == s.(horizontalLines := t.horizontalLines, verticalLines := t.verticalLines)
    ensures op.dir == Top ==>
      && t.verticalLines == s.verticalLines
      && t.horizontalLines.Valid() && t.horizontalLines.width == s.horizontalLines.width
      && t.horizontalLines.height == s.horizontalLines.height
      && t.horizontalLines.At(op.pos.y, op.pos.x) == op.lineColor
      && forall y, x | 0 <= y < s.horizontalLines.height && 0 <= x < s.horizontalLines.width && (y, x) != (op.pos.y, op.pos.x) ::
           t.horizontalLines.At(y, x) == s.horizontalLines.At(y, x)
    ensures op.dir == Left ==>
      && t.horizontalLines == s.horizontalLines
      && t.verticalLines.Valid() && t.verticalLines.width == s.verticalLines.width
      && t.verticalLines.height == s.verticalLines.height
      && t.verticalLines.At(op.pos.y, op.pos.x) == op.lineColor
      && forall y, x | 0 <= y < s.verticalLines.height && 0 <= x < s.verticalLines.width && (y, x) != (op.pos.y, op.pos.x) ::
           t.verticalLines.At(y, x) == s.verticalLines.At(y, x)
  {
    match op.dir
    case Top => s.(horizontalLines := s.horizontalLines.Updated(op.pos.y, op.pos.x, op.lineColor))
    case Left => s.(verticalLines := s.verticalLines.Updated(op.pos.y, op.pos.x, op.lineColor))
  }

  /**
   * calc_result_: once the two scores add up to the number of boxes, the
   * game is finished with the leader (None on a tie) as winner; otherwise
   * nothing changes. Only the finished flag and the winner ever change.
   */
  function CalcResult(s: State): (t: State)
    requires Red in s.scores && Blue in s.scores
    ensures t == s.(isFinished := t.isFinished, winner := t.winner)
    ensures t.isFinished <==> s.isFinished || s.scores[Red] + s.scores[Blue] == s.gridSize.Area()
    ensures s.scores[Red] + s.scores[Blue] == s.gridSize.Area() ==> t.winner == Some(Leader(s.scores))
    ensures s.scores[Red] + s.scores[Blue] != s.gridSize.Area() ==> t == s
  {
    if s.scores[Red] + s.scores[Blue] == s.gridSize.Area() then
      s.(isFinished := true, winner := Some(Leader(s.scores)))
    else s
  }

  /**
   * operate_: draw the edge, give every newly closed box to the mover,
   * keep the turn if a box was taken and pass it otherwise, then
   * calc_result_.
   */
  function Operate(s: State, op: Operation): (t: State)
    requires WellFormed(s)
    ensures WellFormed(t) && t.gridSize == s.gridSize && t.isStarted == s.isStarted
  {
    if !Accepts(s, op) then s
    else CalcResult(Scored(Drawn(s, op), op.lineColor))
  }

  /**
   * The middle of operate_ on a state whose edge is already drawn: every
   * claimable box goes to `color` with one point each, and the turn
   * passes unless a box was taken.
   */
  function Scored(d: State, color: LineColor): (t: State)
    requires LinesShaped(d.gridSize, d.horizontalLines, d.verticalLines) && BoxesShaped(d.gridSize, d.boxOwners)
    ensures t == d.(boxOwners := t.boxOwners, scores := t.scores, isTurn := t.isTurn)
    ensures BoxesShaped(d.gridSize, t.boxOwners)
    ensures var k := ClaimCount(d.gridSize, d.horizontalLines, d.verticalLines, d.boxOwners);
      && ScoreOf(t.scores, color) == ScoreOf(d.scores, color) + k
      && (forall c | c != color :: ScoreOf(t.scores, c) == ScoreOf(d.scores, c))
      && (t.isTurn == d.isTurn <==> k > 0)
  {
    var k := ClaimCount(d.gridSize, d.horizontalLines, d.verticalLines, d.boxOwners);
    d.(boxOwners := Claimed(d.gridSize, d.horizontalLines, d.verticalLines, d.boxOwners, color),
       scores := Credit(d.scores, color, k),
       isTurn := if k > 0 then d.isTurn else !d.isTurn)
  }

  // ---------------------------------------------------------------------
  // get_operation_: which edge the local player proposes
  // ---------------------------------------------------------------------

  /** An edge's clickable line: edge `dir` of the cell at `pos`. */
  datatype Edge = Edge(dir: LineDirection, pos: Point)

  /**
   * get_operation_ scans all horizontal edges before the vertical ones,
   * each grid row by row from the top and each row from the left.
   */
  predicate ScannedBefore(a: Edge, b: Edge) {
    || (a.dir == Top && b.dir == Left)
    || (a.dir == b.dir && (a.pos.y < b.pos.y || (a.pos.y == b.pos.y && a.pos.x < b.pos.x)))
  }

  /**
   * What get_operation_ may return when `clicked` holds the edges whose
   * line was clicked this frame: nothing unless the game runs and it is
   * the local turn; otherwise the first free clicked edge in scan order,
   * in the local player's colour, or nothing when no clicked edge is free.
   */
  predicate IsProposal(s: State, clicked: set<Edge>, r: Optional<Operation>)
    requires WellFormed(s)
  {
    if !(s.isStarted && s.isTurn && !s.isFinished) then r == Nothing
    else match r
      case Nothing => forall e | e in clicked :: !FreeEdge(s, e.dir, e.pos)
      case Some(op) =>
        && op.lineColor == s.playerColor
        && Edge(op.dir, op.pos) in clicked
        && FreeEdge(s, op.dir, op.pos)
        && forall e | e in clicked && FreeEdge(s, e.dir, e.pos) :: !ScannedBefore(e, Edge(op.dir, op.pos))
  }

  /** The scan order decides between any two distinct edges, so a proposal is unique. */
  lemma ProposalIsUnique(s: State, clicked: set<Edge>, r1: Optional<Operation>, r2: Optional<Operation>)
    requires WellFormed(s) && IsProposal(s, clicked, r1) && IsProposal(s, clicked, r2)
    ensures r1 == r2
  {
    if r1.Some? && r2.Some? {
      var e1, e2 := Edge(r1.value.dir, r1.value.pos), Edge(r2.value.dir, r2.value.pos);
      assert !ScannedBefore(e1, e2) && !ScannedBefore(e2, e1);
    }
  }

  /** operate_ accepts every operation get_operation_ proposes. */
  lemma ProposalIsAccepted(s: State, clicked: set<Edge>, op: Operation)
    requires WellFormed(s) && IsProposal(s, clicked, Some(op))
    ensures Accepts(s, op) && op.lineColor == s.playerColor
  {
  }

  // ---------------------------------------------------------------------
  // Counting lemmas
  // ---------------------------------------------------------------------

  /** Every cell has one of the three colours, so the three counts cover the grid. */
  lemma {:induction false} CountPartition(g: Grid<LineColor>)
    requires g.Valid()
    ensures Count(g, None) + Count(g, Red) + Count(g, Blue) == g.width * g.height
  {
    CountPartitionUpTo(g, g.height);
  }

  lemma {:induction false} CountPartitionUpTo(g: Grid<LineColor>, m: nat)
    requires g.Valid() && m <= g.height
    ensures CountUpTo(g, None, m) + CountUpTo(g, Red, m) + CountUpTo(g, Blue, m) == g.width * m
  {
    if m > 0 {
      CountPartitionUpTo(g, m - 1);
      RowPartition(g, m - 1, g.width);
      assert g.width * m == g.width * (m - 1) + g.width;
    }
  }

  lemma {:induction false} RowPartition(g: Grid<LineColor>, y: nat, n: nat)
    requires g.Valid() && y < g.height && n <= g.width
    ensures RowCount(g, None, y, n) + RowCount(g, Red, y, n) + RowCount(g, Blue, y, n) == n
  {
    if n > 0 {
      RowPartition(g, y, n - 1);
    }
  }

  /** A colour is absent from the grid exactly when its count is zero. */
  lemma {:induction false} CountZero(g: Grid<LineColor>, c: LineColor)
    requires g.Valid()
    ensures Count(g, c) == 0 <==> forall y, x | 0 <= y < g.height && 0 <= x < g.width :: g.At(y, x) != c
  {
    CountZeroUpTo(g, c, g.height);
  }

  lemma {:induction false} CountZeroUpTo(g: Grid<LineColor>, c: LineColor, m: nat)
    requires g.Valid() && m <= g.height
    ensures CountUpTo(g, c, m) == 0 <==> forall y, x | 0 <= y < m && 0 <= x < g.width :: g.At(y, x) != c
  {
    if m > 0 {
      CountZeroUpTo(g, c, m - 1);
      RowZero(g, c, m - 1, g.width);
    }
  }

  lemma {:induction false} RowZero(g: Grid<LineColor>, c: LineColor, y: nat, n: nat)
    requires g.Valid() && y < g.height && n <= g.width
    ensures RowCount(g, c, y, n) == 0 <==> forall x | 0 <= x < n :: g.At(y, x) != c
  {
    if n > 0 {
      RowZero(g, c, y, n - 1);
    }
  }

  /** With no claimable box the claim count is zero. */
  lemma {:induction false} ClaimCountZero(size: Size, horizontal: Grid<LineColor>, vertical: Grid<LineColor>,
                                          boxes: Grid<LineColor>)
    requires LinesShaped(size, horizontal, vertical) && BoxesShaped(size, boxes)
    requires forall y, x | 0 <= y < size.y && 0 <= x < size.x :: !Claimable(size, horizontal, vertical, boxes, y, x)
    ensures ClaimCount(size, horizontal, vertical, boxes) == 0
  {
    ClaimCountUpToZero(size, horizontal, vertical, boxes, size.y);
  }

  /** The first m rows count no claim exactly when none of their boxes is claimable. */
  lemma {:induction false} ClaimCountUpToZero(size: Size, horizontal: Grid<LineColor>, vertical: Grid<LineColor>,
                                              boxes: Grid<LineColor>, m: nat)
    requires LinesShaped(size, horizontal, vertical) && BoxesShaped(size, boxes) && m <= size.y
    ensures ClaimCountUpTo(size, horizontal, vertical, boxes, m) == 0 <==>
            forall y, x | 0 <= y < m && 0 <= x < size.x :: !Claimable(size, horizontal, vertical, boxes, y, x)
  {
    if m > 0 {
      ClaimCountUpToZero(size, horizontal, vertical, boxes, m - 1);
      ClaimRowZero(size, horizontal, vertical, boxes, m - 1, size.x);
    }
  }

  /** The first n boxes of row y count no claim exactly when none of them is claimable. */
  lemma {:induction false} ClaimRowZero(size: Size, horizontal: Grid<LineColor>, vertical: Grid<LineColor>,
                                        boxes: Grid<LineColor>, y: nat, n: nat)
    requires LinesShaped(size, horizontal, vertical) && BoxesShaped(size, boxes)
    requires y < size.y && n <= size.x
    ensures ClaimRowCount(size, horizontal, vertical, boxes, y, n) == 0 <==>
            forall x | 0 <= x < n :: !Claimable(size, horizontal, vertical, boxes, y, x)
  {
    if n > 0 {
      ClaimRowZero(size, horizontal, vertical, boxes, y, n - 1);
    }
  }

  /**
   * Claiming moves k boxes from None to `color`: counted per colour, the
   * claimed grid plus the k boxes that left None equals the old grid plus
   * the k boxes that went to `color`.
   */
  lemma {:induction false} CountClaimed(size: Size, horizontal: Grid<LineColor>, vertical: Grid<LineColor>,
                                        boxes: Grid<LineColor>, color: LineColor, c: LineColor)
    requires LinesShaped(size, horizontal, vertical) && BoxesShaped(size, boxes)
    ensures
      var k := ClaimCount(size, horizontal, vertical, boxes);
      Count(Claimed(size, horizontal, vertical, boxes, color), c) + (if c == None then k else 0)
      == Count(boxes, c) + (if c == color then k else 0)
  {
    CountUpToClaimed(size, horizontal, vertical, boxes, color, c, size.y);
  }

  /** CountClaimed for the first m rows. */
  lemma {:induction false} CountUpToClaimed(size: Size, horizontal: Grid<LineColor>, vertical: Grid<LineColor>,
                                            boxes: Grid<LineColor>, color: LineColor, c: LineColor, m: nat)
    requires LinesShaped(size, horizontal, vertical) && BoxesShaped(size, boxes) && m <= size.y
    ensures
      var k := ClaimCountUpTo(size, horizontal, vertical, boxes, m);
      CountUpTo(Claimed(size, horizontal, vertical, boxes, color), c, m) + (if c == None then k else 0)
      == CountUpTo(boxes, c, m) + (if c == color then k else 0)
  {
    if m > 0 {
      CountUpToClaimed(size, horizontal, vertical, boxes, color, c, m - 1);
      RowCountClaimed(size, horizontal, vertical, boxes, color, c, m - 1, size.x);
    }
  }

  /** CountClaimed for the first n boxes of row y. */
  lemma {:induction false} RowCountClaimed(size: Size, horizontal: Grid<LineColor>, vertical: Grid<LineColor>,
                                           boxes: Grid<LineColor>, color: LineColor, c: LineColor, y: nat, n: nat)
    requires LinesShaped(size, horizontal, vertical) && BoxesShaped(size, boxes) && y < size.y && n <= size.x
    ensures
      var k := ClaimRowCount(size, horizontal, vertical, boxes, y, n);
      RowCount(Claimed(size, horizontal, vertical, boxes, color), c, y, n) + (if c == None then k else 0)
      == RowCount(boxes, c, y, n) + (if c == color then k else 0)
  {
    if n > 0 {
      RowCountClaimed(size, horizontal, vertical, boxes, color, c, y, n - 1);
    }
  }

  // ---------------------------------------------------------------------
  // Properties of operate_
  // ---------------------------------------------------------------------

  /**
   * An accepted operate_ in three parts: the edge is drawn, the closed
   * unowned boxes go to the mover with one point each, and the turn passes
   * unless a box was taken.
   */
  lemma OperateSteps(s: State, op: Operation)
    requires WellFormed(s) && Accepts(s, op)
    ensures var d := Drawn(s, op);
      var k := ClaimCount(s.gridSize, d.horizontalLines, d.verticalLines, s.boxOwners);
      var t := Operate(s, op);
      && d.gridSize == s.gridSize && d.boxOwners == s.boxOwners && d.scores == s.scores
      && LinesShaped(s.gridSize, d.horizontalLines, d.verticalLines)
      && t.horizontalLines == d.horizontalLines && t.verticalLines == d.verticalLines
      && t.boxOwners == Claimed(s.gridSize, d.horizontalLines, d.verticalLines, s.boxOwners, op.lineColor)
      && t.scores == Credit(s.scores, op.lineColor, k)
      && t.isTurn == (if k > 0 then s.isTurn else !s.isTurn)
  {
  }

  /**
   * operate_ changes nothing when the game is not running, the edge is
   * outside its grid, or the edge is already drawn.
   */
  lemma OperateNoOp(s: State, op: Operation)
    requires Inv(s)
    requires || !s.isStarted || s.isFinished
             || (op.dir == Top && !s.horizontalLines.InBounds(op.pos))
             || (op.dir == Left && !s.verticalLines.InBounds(op.pos))
             || (op.dir == Top && s.horizontalLines.At(op.pos.y, op.pos.x) != None)
             || (op.dir == Left && s.verticalLines.At(op.pos.y, op.pos.x) != None)
    ensures Operate(s, op) == s
  {
  }

  /**
   * An accepted operation writes exactly one edge: the target edge of the
   * grid its direction names becomes the mover's colour; every other edge
   * keeps its value.
   */
  lemma OperateDrawsOneEdge(s: State, op: Operation)
    requires Inv(s) && Accepts(s, op)
    ensures var t := Operate(s, op);
      && LinesShaped(t.gridSize, t.horizontalLines, t.verticalLines)
      && t.gridSize == s.gridSize
      && (op.dir == Top ==>
            && t.horizontalLines.At(op.pos.y, op.pos.x) == op.lineColor
            && (forall y, x | 0 <= y <= s.gridSize.y && 0 <= x < s.gridSize.x && (y != op.pos.y || x != op.pos.x) ::
                  t.horizontalLines.At(y, x) == s.horizontalLines.At(y, x))
            && t.verticalLines == s.verticalLines)
      && (op.dir == Left ==>
            && t.verticalLines.At(op.pos.y, op.pos.x) == op.lineColor
            && (forall y, x | 0 <= y < s.gridSize.y && 0 <= x <= s.gridSize.x && (y != op.pos.y || x != op.pos.x) ::
                  t.verticalLines.At(y, x) == s.verticalLines.At(y, x))
            && t.horizontalLines == s.horizontalLines)
  {
  }

  /**
   * An accepted operation gives a box to the mover exactly when the box
   * had no owner and its four edges are now drawn; an owned box keeps its
   * owner.
   */
  lemma OperateClaimsBoxes(s: State, op: Operation)
    requires Inv(s) && Accepts(s, op)
    ensures var t := Operate(s, op);
      && BoxesShaped(s.gridSize, t.boxOwners)
      && LinesShaped(s.gridSize, t.horizontalLines, t.verticalLines)
      && forall y, x | 0 <= y < s.gridSize.y && 0 <= x < s.gridSize.x ::
           && (s.boxOwners.At(y, x) != None ==> t.boxOwners.At(y, x) == s.boxOwners.At(y, x))
           && (s.boxOwners.At(y, x) == None ==>
                 t.boxOwners.At(y, x) ==
                   if Closed(s.gridSize, t.horizontalLines, t.verticalLines, y, x) then op.lineColor else None)
  {
  }

  /** Drawn edges, owned boxes and scores never go back. */
  lemma OperateMonotone(s: State, op: Operation)
    requires Inv(s)
    ensures var t := Operate(s, op);
      && t.gridSize == s.gridSize && t.isStarted == s.isStarted
      && (s.isStarted ==>
            && LinesShaped(s.gridSize, t.horizontalLines, t.verticalLines)
            && BoxesShaped(s.gridSize, t.boxOwners)
            && (forall y, x | 0 <= y <= s.gridSize.y && 0 <= x < s.gridSize.x && s.horizontalLines.At(y, x) != None ::
                  t.horizontalLines.At(y, x) == s.horizontalLines.At(y, x))
            && (forall y, x | 0 <= y < s.gridSize.y && 0 <= x <= s.gridSize.x && s.verticalLines.At(y, x) != None ::
                  t.verticalLines.At(y, x) == s.verticalLines.At(y, x))
            && (forall y, x | 0 <= y < s.gridSize.y && 0 <= x < s.gridSize.x && s.boxOwners.At(y, x) != None ::
                  t.boxOwners.At(y, x) == s.boxOwners.At(y, x))
            && t.scores.Keys == s.scores.Keys
            && t.scores[Red] >= s.scores[Red] && t.scores[Blue] >= s.scores[Blue])
  {
    if Accepts(s, op) {
      OperatePreservesInv(s, op);
      OperateSteps(s, op);
      DrawnKeepsEdges(s, op);
    }
  }

  /** Drawing a free edge keeps every edge already drawn. */
  lemma DrawnKeepsEdges(s: State, op: Operation)
    requires WellFormed(s) && Accepts(s, op)
    ensures var d := Drawn(s, op);
      && LinesShaped(s.gridSize, d.horizontalLines, d.verticalLines)
      && (forall y, x | 0 <= y <= s.gridSize.y && 0 <= x < s.gridSize.x && s.horizontalLines.At(y, x) != None ::
            d.horizontalLines.At(y, x) == s.horizontalLines.At(y, x))
      && (forall y, x | 0 <= y < s.gridSize.y && 0 <= x <= s.gridSize.x && s.verticalLines.At(y, x) != None ::
            d.verticalLines.At(y, x) == s.verticalLines.At(y, x))
  {
  }

  /** Every box is owned exactly when its four edges are drawn. */
  predicate Settled(size: Size, horizontal: Grid<LineColor>, vertical: Grid<LineColor>, boxes: Grid<LineColor>)
    requires LinesShaped(size, horizontal, vertical) && BoxesShaped(size, boxes)
  {
    forall y, x | 0 <= y < size.y && 0 <= x < size.x ::
      boxes.At(y, x) != None <==> Closed(size, horizontal, vertical, y, x)
  }

  /**
   * Drawing an edge keeps every drawn edge, so a closed box stays closed;
   * drawing the colour None changes no edge, so no box closes.
   */
  lemma DrawnClosed(s: State, op: Operation)
    requires Inv(s) && Accepts(s, op)
    ensures var d := Drawn(s, op);
      && LinesShaped(s.gridSize, d.horizontalLines, d.verticalLines)
      && (forall y, x | 0 <= y < s.gridSize.y && 0 <= x < s.gridSize.x ::
            && (Closed(s.gridSize, s.horizontalLines, s.verticalLines, y, x) ==>
                  Closed(s.gridSize, d.horizontalLines, d.verticalLines, y, x))
            && (op.lineColor == None && Closed(s.gridSize, d.horizontalLines, d.verticalLines, y, x) ==>
                  Closed(s.gridSize, s.horizontalLines, s.verticalLines, y, x)))
  {
  }

  /**
   * If owned and closed boxes agree before the claim scan, and no edge was
   * erased, they agree after it; a scan that claims with None claims nothing.
   */
  lemma {:induction false} ClaimSettles(size: Size, horizontal0: Grid<LineColor>, vertical0: Grid<LineColor>,
                                        horizontal: Grid<LineColor>, vertical: Grid<LineColor>,
                                        boxes: Grid<LineColor>, color: LineColor)
    requires LinesShaped(size, horizontal0, vertical0) && LinesShaped(size, horizontal, vertical)
    requires BoxesShaped(size, boxes) && Settled(size, horizontal0, vertical0, boxes)
    requires forall y, x | 0 <= y < size.y && 0 <= x < size.x ::
               && (Closed(size, horizontal0, vertical0, y, x) ==> Closed(size, horizontal, vertical, y, x))
               && (color == None && Closed(size, horizontal, vertical, y, x) ==> Closed(size, horizontal0, vertical0, y, x))
    ensures color == None ==> ClaimCount(size, horizontal, vertical, boxes) == 0
    ensures Settled(size, horizontal, vertical, Claimed(size, horizontal, vertical, boxes, color))
  {
    var g := Claimed(size, horizontal, vertical, boxes, color);
    if color == None {
      forall y, x | 0 <= y < size.y && 0 <= x < size.x
        ensures !Claimable(size, horizontal, vertical, boxes, y, x)
      {
      }
      ClaimCountZero(size, horizontal, vertical, boxes);
    }
    forall y, x | 0 <= y < size.y && 0 <= x < size.x
      ensures g.At(y, x) != None <==> Closed(size, horizontal, vertical, y, x)
    {
    }
  }

  /**
   * On a running, unfinished game whose scores count the owned boxes, the
   * scan and calc_result_ keep the invariant, provided the scan leaves
   * owned and closed boxes in agreement and a None-coloured scan claims
   * nothing.
   */
  lemma {:induction false} ScoredInv(d: State, c: LineColor)
    requires d.isStarted && !d.isFinished && d.winner == Nothing
    requires d.horizontalLines.Valid() && d.verticalLines.Valid()
    requires LinesShaped(d.gridSize, d.horizontalLines, d.verticalLines) && BoxesShaped(d.gridSize, d.boxOwners)
    requires d.scores.Keys == {Red, Blue}
    requires d.scores[Red] == Count(d.boxOwners, Red) && d.scores[Blue] == Count(d.boxOwners, Blue)
    requires c == None ==> ClaimCount(d.gridSize, d.horizontalLines, d.verticalLines, d.boxOwners) == 0
    requires Settled(d.gridSize, d.horizontalLines, d.verticalLines,
                     Claimed(d.gridSize, d.horizontalLines, d.verticalLines, d.boxOwners, c))
    ensures Inv(CalcResult(Scored(d, c)))
  {
    var size, hz, vt, b := d.gridSize, d.horizontalLines, d.verticalLines, d.boxOwners;
    var nb := Claimed(size, hz, vt, b, c);
    var u := Scored(d, c);
    if c == None {
      assert nb == b by {
        GridExtensionality(nb, b);
      }
      assert u.scores == d.scores;
    } else {
      CountClaimed(size, hz, vt, b, c, Red);
      CountClaimed(size, hz, vt, b, c, Blue);
    }
    assert u.scores[Red] == Count(nb, Red) && u.scores[Blue] == Count(nb, Blue);
    CountPartition(nb);
    CountZero(nb, None);
    InvAfterCalcResult(u);
  }

  /** Zeroing Red and Blue in a table with no other colour gives the fresh table. */
  lemma ZeroedScores(scores: map<LineColor, int>)
    requires scores.Keys <= {Red, Blue}
    ensures scores[Red := 0][Blue := 0] == map[Red := 0, Blue := 0]
  {
  }

  /** A running game on an empty board with both scores zero satisfies the invariant. */
  lemma EmptyBoardInv(s: State)
    requires s.isStarted && !s.isFinished && s.winner == Nothing
    requires s.horizontalLines == Filled(s.gridSize.x, s.gridSize.y + 1, None)
    requires s.verticalLines == Filled(s.gridSize.x + 1, s.gridSize.y, None)
    requires s.boxOwners == Filled(s.gridSize.x, s.gridSize.y, None)
    requires s.scores == map[Red := 0, Blue := 0]
    ensures Inv(s)
  {
    CountZero(s.boxOwners, Red);
    CountZero(s.boxOwners, Blue);
    forall y, x | 0 <= y < s.gridSize.y && 0 <= x < s.gridSize.x
      ensures s.boxOwners.At(y, x) == None && !Closed(s.gridSize, s.horizontalLines, s.verticalLines, y, x)
    {
      assert s.horizontalLines.At(y, x) == None;
    }
  }

  /** The invariant holds after every operate_. */
  lemma {:induction false} OperatePreservesInv(s: State, op: Operation)
    requires Inv(s)
    ensures Inv(Operate(s, op))
  {
    if Accepts(s, op) {
      var d := Drawn(s, op);
      DrawnClosed(s, op);
      ClaimSettles(s.gridSize, s.horizontalLines, s.verticalLines, d.horizontalLines, d.verticalLines,
                   s.boxOwners, op.lineColor);
      ScoredInv(d, op.lineColor);
    }
  }

  /** calc_result_ on a running game whose counts and boxes agree yields a state satisfying Inv. */
  lemma InvAfterCalcResult(u: State)
    requires u.horizontalLines.Valid() && u.verticalLines.Valid()
    requires u.isStarted && !u.isFinished && u.winner == Nothing
    requires LinesShaped(u.gridSize, u.horizontalLines, u.verticalLines) && BoxesShaped(u.gridSize, u.boxOwners)
    requires u.scores.Keys == {Red, Blue}
    requires u.scores[Red] == Count(u.boxOwners, Red) && u.scores[Blue] == Count(u.boxOwners, Blue)
    requires Settled(u.gridSize, u.horizontalLines, u.verticalLines, u.boxOwners)
    requires Count(u.boxOwners, None) + Count(u.boxOwners, Red) + Count(u.boxOwners, Blue) == u.gridSize.Area()
    ensures Inv(CalcResult(u))
  {
  }

  /** The two scores always add up to the number of owned boxes, at most the number of boxes. */
  lemma ScoresCountOwnedBoxes(s: State)
    requires Inv(s) && s.isStarted
    ensures s.scores[Red] + s.scores[Blue] == s.gridSize.Area() - Count(s.boxOwners, None)
    ensures s.scores[Red] + s.scores[Blue] <= s.gridSize.Area()
  {
    CountPartition(s.boxOwners);
  }

  /**
   * After an accepted operation the turn stays with the same player
   * exactly when some box changed from unowned to owned, and passes otherwise.
   */
  lemma OperateTurnRule(s: State, op: Operation)
    requires Inv(s) && Accepts(s, op)
    ensures var t := Operate(s, op);
      && BoxesShaped(s.gridSize, t.boxOwners)
      && (t.isTurn == s.isTurn <==> Count(t.boxOwners, None) < Count(s.boxOwners, None))
      && (t.isTurn == !s.isTurn <==> Count(t.boxOwners, None) == Count(s.boxOwners, None))
  {
    var d := Drawn(s, op);
    OperateSteps(s, op);
    DrawnClosed(s, op);
    ClaimSettles(s.gridSize, s.horizontalLines, s.verticalLines, d.horizontalLines, d.verticalLines,
                 s.boxOwners, op.lineColor);
    CountClaimed(s.gridSize, d.horizontalLines, d.verticalLines, s.boxOwners, op.lineColor, None);
  }

  /**
   * After an accepted operation the game is finished exactly when every
   * box has an owner; then the winner is Red if Red scored more, Blue if
   * Blue scored more, and None (a draw) on equal scores.
   */
  lemma OperateEndOfGame(s: State, op: Operation)
    requires Inv(s) && Accepts(s, op)
    ensures var t := Operate(s, op);
      && BoxesShaped(s.gridSize, t.boxOwners) && t.scores.Keys == {Red, Blue}
      && (t.isFinished <==> forall y, x | 0 <= y < s.gridSize.y && 0 <= x < s.gridSize.x :: t.boxOwners.At(y, x) != None)
      && (t.isFinished <==> t.scores[Red] + t.scores[Blue] == s.gridSize.Area())
      && (t.isFinished ==>
            && (t.winner == Some(Red) <==> t.scores[Red] > t.scores[Blue])
            && (t.winner == Some(Blue) <==> t.scores[Red] < t.scores[Blue])
            && (t.winner == Some(None) <==> t.scores[Red] == t.scores[Blue]))
      && (!t.isFinished ==> t.winner == Nothing)
  {
    var t := Operate(s, op);
    OperatePreservesInv(s, op);
    CountPartition(t.boxOwners);
    CountZero(t.boxOwners, None);
  }

  /**
   * Delivering the same operation twice leaves the state it left after the
   * first delivery. An operation carrying the colour None is excluded:
   * operate_ accepts it without marking the edge, and passes the turn again
   * on each delivery.
   */
  lemma OperateTwiceIsOnce(s: State, op: Operation)
    requires Inv(s) && op.lineColor != None
    ensures Inv(Operate(s, op))
    ensures Operate(Operate(s, op), op) == Operate(s, op)
  {
    OperatePreservesInv(s, op);
    if Accepts(s, op) {
      OperateDrawsOneEdge(s, op);
      assert !FreeEdge(Operate(s, op), op.dir, op.pos);
    }
  }

  // ---------------------------------------------------------------------
  // A worked example: one box closed by Red on a 2 x 2 board
  // ---------------------------------------------------------------------

  /** A running game with a box that is not closed is not finished. */
  lemma OpenBoxKeepsGameRunning(s: State, y: nat, x: nat)
    requires Inv(s) && s.isStarted && y < s.gridSize.y && x < s.gridSize.x
    requires !Closed(s.gridSize, s.horizontalLines, s.verticalLines, y, x)
    ensures !s.isFinished
  {
    CountZero(s.boxOwners, None);
  }

  /** The state after applying each operation of `ops` in order. */
  function Play(s: State, ops: seq<Operation>): (t: State)
    requires WellFormed(s)
    ensures WellFormed(t) && t.gridSize == s.gridSize && t.isStarted == s.isStarted
    decreases |ops|
  {
    if ops == [] then s else Play(Operate(s, ops[0]), ops[1..])
  }

  /** Every sequence of operations keeps the invariant. */
  lemma {:induction false} PlayPreservesInv(s: State, ops: seq<Operation>)
    requires Inv(s)
    ensures Inv(Play(s, ops))
    decreases |ops|
  {
    if ops != [] {
      OperatePreservesInv(s, ops[0]);
      PlayPreservesInv(Operate(s, ops[0]), ops[1..]);
    }
  }

  /**
   * On an empty running 2 x 2 board, Red drawing the four edges of the
   * top-left box gives Red that box and one point; the other boxes stay
   * unowned and the game goes on. The first three edges close nothing and
   * each passes the turn; the fourth closes the box and keeps it.
   */
  lemma OneBoxForRed(s0: State)
    requires Inv(s0) && s0.isStarted && s0.gridSize == Size(2, 2)
    requires forall y, x | 0 <= y <= 2 && 0 <= x < 2 :: s0.horizontalLines.At(y, x) == None
    requires forall y, x | 0 <= y < 2 && 0 <= x <= 2 :: s0.verticalLines.At(y, x) == None
    ensures
      var s4 := Play(s0, [Operation(Point(0, 0), Top, Red), Operation(Point(0, 1), Top, Red),
                          Operation(Point(0, 0), Left, Red), Operation(Point(1, 0), Left, Red)]);
      && s4.scores == map[Red := 1, Blue := 0]
      && s4.boxOwners.At(0, 0) == Red && s4.boxOwners.At(0, 1) == None
      && s4.boxOwners.At(1, 0) == None && s4.boxOwners.At(1, 1) == None
      && !s4.isFinished && s4.winner == Nothing
      && s4.isTurn == !s0.isTurn
  {
    var a, b, c, d := Operation(Point(0, 0), Top, Red), Operation(Point(0, 1), Top, Red),
                      Operation(Point(0, 0), Left, Red), Operation(Point(1, 0), Left, Red);
    assert EachBoxOpen(s0);
    var s1 := StepOpen(s0, a);
    var s2 := StepOpen(s1, b);
    var s3 := StepOpen(s2, c);
    var s4 := StepClosesTopLeft(s3, d);
    PlayFour(s0, a, b, c, d);
  }

  lemma PlayFour(s: State, a: Operation, b: Operation, c: Operation, d: Operation)
    requires WellFormed(s)
    ensures Play(s, [a, b, c, d]) == Operate(Operate(Operate(Operate(s, a), b), c), d)
  {
    var ops := [a, b, c, d];
    var s1 := Operate(s, a);
    var s2 := Operate(s1, b);
    var s3 := Operate(s2, c);
    assert ops[1..] == [b, c, d] && ops[1..][1..] == [c, d] && ops[1..][1..][1..] == [d];
    assert Play(s3, [d]) == Play(Operate(s3, d), []);
    assert Play(s2, [c, d]) == Play(s3, [d]);
    assert Play(s1, [b, c, d]) == Play(s2, [c, d]);
    assert Play(s, ops) == Play(s1, [b, c, d]);
  }

  /** The last step of the worked example: the right edge closes box (0, 0) for Red. */
  lemma StepClosesTopLeft(s3: State, d: Operation) returns (s4: State)
    requires Inv(s3) && s3.isStarted && !s3.isFinished && s3.gridSize == Size(2, 2)
    requires d == Operation(Point(1, 0), Left, Red)
    requires s3.horizontalLines.At(0, 0) == Red && s3.horizontalLines.At(1, 0) == Red
    requires s3.verticalLines.At(0, 0) == Red && EachBoxOpen(s3)
    requires s3.horizontalLines.At(1, 1) == None
    requires forall y, x | 0 <= y < 2 && 0 <= x < 2 :: s3.boxOwners.At(y, x) == None
    ensures s4 == Operate(s3, d)
    ensures s4.scores == map[Red := 1, Blue := 0]
    ensures s4.boxOwners.At(0, 0) == Red && s4.boxOwners.At(0, 1) == None
    ensures s4.boxOwners.At(1, 0) == None && s4.boxOwners.At(1, 1) == None
    ensures !s4.isFinished && s4.winner == Nothing
    ensures s4.isTurn == s3.isTurn
  {
    var size := Size(2, 2);
    assert Accepts(s3, d);
    s4 := Operate(s3, d);
    OperatePreservesInv(s3, d);
    OperateDrawsOneEdge(s3, d);
    OperateClaimsBoxes(s3, d);
    assert Closed(size, s4.horizontalLines, s4.verticalLines, 0, 0);
    assert s4.boxOwners.At(0, 0) == Red;
    assert s4.horizontalLines.At(2, 1) == None && s4.horizontalLines.At(1, 1) == None;
    assert s4.verticalLines.At(1, 0) == None && s4.verticalLines.At(0, 2) == None;
    OpenBoxKeepsGameRunning(s4, 1, 1);
    assert !Closed(size, s4.horizontalLines, s4.verticalLines, 0, 1);
    assert !Closed(size, s4.horizontalLines, s4.verticalLines, 1, 0);
    CountOneRed(s4.boxOwners);
    CountZero(s3.boxOwners, Red);
    CountZero(s3.boxOwners, Blue);
    CountPartition(s3.boxOwners);
    OperateTurnRule(s3, d);
  }

  /** A 2 x 2 box grid whose only owned box is Red's top-left one. */
  lemma CountOneRed(g: Grid<LineColor>)
    requires g.Valid() && g.width == 2 && g.height == 2
    requires g.At(0, 0) == Red && g.At(0, 1) == None && g.At(1, 0) == None && g.At(1, 1) == None
    ensures Count(g, Red) == 1 && Count(g, Blue) == 0 && Count(g, None) == 3
  {
    forall c: LineColor, y: nat | y < 2
      ensures RowCount(g, c, y, 2) == (if g.At(y, 0) == c then 1 else 0) + (if g.At(y, 1) == c then 1 else 0)
    {
      assert RowCount(g, c, y, 1) == RowCount(g, c, y, 0) + (if g.At(y, 0) == c then 1 else 0);
    }
    assert CountUpTo(g, Red, 1) == CountUpTo(g, Red, 0) + RowCount(g, Red, 0, 2);
    assert CountUpTo(g, Blue, 1) == CountUpTo(g, Blue, 0) + RowCount(g, Blue, 0, 2);
    assert CountUpTo(g, None, 1) == CountUpTo(g, None, 0) + RowCount(g, None, 0, 2);
  }

  /**
   * On the 2 x 2 board of the worked example: each box misses one edge,
   * the right edge of (0, 0) and (0, 1), the left edge of (1, 0), the
   * bottom edge of (1, 1).
   */
  predicate EachBoxOpen(s: State)
    requires WellFormed(s) && s.isStarted && s.gridSize == Size(2, 2)
  {
    && s.verticalLines.At(0, 1) == None && s.verticalLines.At(0, 2) == None
    && s.verticalLines.At(1, 0) == None && s.horizontalLines.At(2, 1) == None
  }

  /** The operation draws none of the edges EachBoxOpen names. */
  predicate KeepsBoxesOpen(op: Operation) {
    && (op.dir == Left ==> op.pos != Point(1, 0) && op.pos != Point(2, 0) && op.pos != Point(0, 1))
    && (op.dir == Top ==> op.pos != Point(1, 2))
  }

  /**
   * One step of the worked example: a free edge that leaves every box
   * open is drawn, nothing is claimed and the turn passes.
   */
  lemma StepOpen(s: State, op: Operation) returns (t: State)
    requires Inv(s) && s.isStarted && s.gridSize == Size(2, 2) && Accepts(s, op)
    requires op.lineColor == Red && EachBoxOpen(s) && KeepsBoxesOpen(op)
    ensures t == Operate(s, op) && Inv(t) && t.isStarted && !t.isFinished && t.gridSize == s.gridSize
    ensures EachBoxOpen(t)
    ensures t.isTurn == !s.isTurn
    ensures op.dir == Top ==> t.horizontalLines.At(op.pos.y, op.pos.x) == Red
    ensures op.dir == Left ==> t.verticalLines.At(op.pos.y, op.pos.x) == Red
    ensures forall y, x | 0 <= y <= 2 && 0 <= x < 2 && (op.dir != Top || y != op.pos.y || x != op.pos.x) ::
              t.horizontalLines.At(y, x) == s.horizontalLines.At(y, x)
    ensures forall y, x | 0 <= y < 2 && 0 <= x <= 2 && (op.dir != Left || y != op.pos.y || x != op.pos.x) ::
              t.verticalLines.At(y, x) == s.verticalLines.At(y, x)
    ensures forall y, x | 0 <= y < 2 && 0 <= x < 2 :: t.boxOwners.At(y, x) == None
  {
    t := Operate(s, op);
    OperatePreservesInv(s, op);
    OperateDrawsOneEdge(s, op);
    assert EachBoxOpen(t);
    OpenBoxKeepsGameRunning(t, 1, 1);
    OpenBoxesUnowned(s);
    OpenBoxesUnowned(t);
    GridExtensionality(t.boxOwners, s.boxOwners);
    OperateTurnRule(s, op);
  }

  /** On the worked example's board with every box missing an edge, no box is owned. */
  lemma OpenBoxesUnowned(s: State)
    requires Inv(s) && s.isStarted && s.gridSize == Size(2, 2) && EachBoxOpen(s)
    ensures forall y, x | 0 <= y < 2 && 0 <= x < 2 :: s.boxOwners.At(y, x) == None
  {
    assert !Closed(s.gridSize, s.horizontalLines, s.verticalLines, 0, 0);
    assert !Closed(s.gridSize, s.horizontalLines, s.verticalLines, 0, 1);
    assert !Closed(s.gridSize, s.horizontalLines, s.verticalLines, 1, 0);
    assert !Closed(s.gridSize, s.horizontalLines, s.verticalLines, 1, 1);
  }
}
