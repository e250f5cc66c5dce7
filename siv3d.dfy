/**
 * The few Siv3D value types the two games build on: a 2D integer point,
 * a non-negative size, an optional value, the 8-bit event code, and the
 * row-major Grid<T> container that holds every board.
 */
module Siv3D {

  /** An 8-bit unsigned integer, the type of a custom event code. */
  newtype uint8 = x: int | 0 <= x < 256

  /** Siv3D's Optional<T>; `Nothing` is the library's `none`. */
  datatype Optional<+T> = Nothing | Some(value: T)

  /** A 2D integer position; `x` is the column, `y` the row. */
  datatype Point = Point(x: int, y: int)

  /** A board size in cells: `x` columns by `y` rows. */
  datatype Size = Size(x: nat, y: nat) {
    /** Number of cells of a grid of this size. */
    function Area(): nat { x * y }
  }

  /**
   * A width-by-height grid stored row by row, read and written as
   * `At(y, x)` like Siv3D's `Grid::at(y, x)`.
   */
  datatype Grid<T> = Grid(width: nat, height: nat, rows: seq<seq<T>>) {

    /** Every one of the `height` rows holds exactly `width` cells. */
    predicate Valid() {
      |rows| == height && forall y | 0 <= y < |rows| :: |rows[y]| == width
    }

    /** Grid::inBounds: the point names a cell of the grid. */
    predicate InBounds(p: Point) {
      0 <= p.x < width && 0 <= p.y < height
    }

    function At(y: nat, x: nat): T
      requires Valid() && y < height && x < width
    {
      rows[y][x]
    }

    /** The grid after `at(y, x) = v`. */
    function Updated(y: nat, x: nat, v: T): (g: Grid<T>)
      requires Valid() && y < height && x < width
      ensures g.Valid() && g.width == width && g.height == height
      ensures g.At(y, x) == v
      ensures forall yy, xx | 0 <= yy < height && 0 <= xx < width && (yy != y || xx != x) ::
                g.At(yy, xx) == At(yy, xx)
    {
      Grid(width, height, rows[y := rows[y][x := v]])
    }
  }

  /** n copies of v. */
  function Repeat<T>(n: nat, v: T): (s: seq<T>)
    ensures |s| == n && forall i | 0 <= i < n :: s[i] == v
  {
    if n == 0 then [] else Repeat(n - 1, v) + [v]
  }

  /** Grid::assign(width, height, v): a fresh grid with every cell `v`. */
  function Filled<T>(width: nat, height: nat, v: T): (g: Grid<T>)
    ensures g.Valid() && g.width == width && g.height == height
    ensures forall y, x | 0 <= y < height && 0 <= x < width :: g.At(y, x) == v
  {
    Grid(width, height, Repeat(height, Repeat(width, v)))
  }

  /** Grid::clear(): the empty grid. */
  function Cleared<T>(): (g: Grid<T>)
    ensures g.Valid() && g.width == 0 && g.height == 0
  {
    Grid(0, 0, [])
  }

  /** Two well-formed grids with the same shape and the same cells are equal. */
  lemma {:induction false} GridExtensionality<T>(g: Grid<T>, h: Grid<T>)
    requires g.Valid() && h.Valid() && g.width == h.width && g.height == h.height
    requires forall y, x | 0 <= y < g.height && 0 <= x < g.width :: g.At(y, x) == h.At(y, x)
    ensures g == h
  {
    forall y | 0 <= y < g.height
      ensures g.rows[y] == h.rows[y]
    {
      assert forall x | 0 <= x < g.width :: g.rows[y][x] == g.At(y, x) == h.At(y, x);
    }
  }
}
