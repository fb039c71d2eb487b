/** The 5x5 inequality puzzle: a grid of cells (0 is an empty cell) and a
    relation for every pair of orthogonally adjacent cells, decoded from the
    two-line text encoding and printed back as a row-major digit string. */
module Inequality {
  import opened Constraints
  import opened LineFormat

  datatype Coordinate = Coordinate(row: int, column: int)

  predicate InBounds(a: Coordinate)
  {
    0 <= a.row < Size && 0 <= a.column < Size
  }

  /** Exactly one step apart along a shared row or a shared column. */
  predicate Adjacent(a: Coordinate, b: Coordinate)
  {
    var dr := a.row - b.row;
    var dc := a.column - b.column;
    (dr == 0 && (dc == 1 || dc == -1)) || (dc == 0 && (dr == 1 || dr == -1))
  }

  /** Fills a fresh grid from line 1: the cell at (row, column) is the digit
      at index row * Size + column. */
  method DecodeGridArray(line1: string) returns (g: array2<int>)
    requires |line1| >= GridLength
    ensures fresh(g) && g.Length0 == Size && g.Length1 == Size
    ensures forall r, c :: 0 <= r < Size && 0 <= c < Size ==> g[r, c] == Digit(line1[r * Size + c])
  {
    g := new int[Size, Size];
    for row := 0 to Size
      invariant forall r, c :: 0 <= r < row && 0 <= c < Size ==> g[r, c] == Digit(line1[r * Size + c])
    {
      for column := 0 to Size
        invariant forall r, c :: 0 <= r < row && 0 <= c < Size ==> g[r, c] == Digit(line1[r * Size + c])
        invariant forall c :: 0 <= c < column ==> g[row, c] == Digit(line1[row * Size + c])
      {
        g[row, column] := Digit(line1[row * Size + column]);
      }
    }
  }

  /** Fills a fresh Size x Gaps table of relations from the symbols of line 2
      that start at index `start`, i * Gaps + j being the offset of entry
      (i, j). */
  method DecodeConstraintArray(line2: string, start: int) returns (t: array2<Constraint>)
    requires 0 <= start && start + HorizontalLength <= |line2|
    ensures fresh(t) && t.Length0 == Size && t.Length1 == Gaps
    ensures forall i, j :: 0 <= i < Size && 0 <= j < Gaps ==> t[i, j] == ConstraintFor(line2[start + i * Gaps + j])
  {
    t := new Constraint[Size, Gaps];
    for i := 0 to Size
      invariant forall i', j :: 0 <= i' < i && 0 <= j < Gaps ==> t[i', j] == ConstraintFor(line2[start + i' * Gaps + j])
    {
      for j := 0 to Gaps
        invariant forall i', j' :: 0 <= i' < i && 0 <= j' < Gaps ==> t[i', j'] == ConstraintFor(line2[start + i' * Gaps + j'])
        invariant forall j' :: 0 <= j' < j ==> t[i, j'] == ConstraintFor(line2[start + i * Gaps + j'])
      {
        t[i, j] := ConstraintFor(line2[start + i * Gaps + j]);
      }
    }
  }

  class Puzzle {
    /** horizontal[row, gap] relates (row, gap) to (row, gap + 1). */
    var horizontal: array2<Constraint>
    /** vertical[column, gap] relates (gap, column) to (gap + 1, column). */
    var vertical: array2<Constraint>
    /** grid[row, column] is the cell value; 0 is an empty cell. */
    var grid: array2<int>

    ghost predicate Valid()
      reads this
    {
      && grid.Length0 == Size && grid.Length1 == Size
      && horizontal.Length0 == Size && horizontal.Length1 == Gaps
      && vertical.Length0 == Size && vertical.Length1 == Gaps
    }

    /** The grid in row-major order. */
    ghost function Cells(): (cells: seq<int>)
      reads this, grid
      requires Valid()
      ensures |cells| == GridLength
    {
      var g := grid;
      seq(GridLength, k requires 0 <= k < GridLength reads g => g[k / Size, k % Size])
    }

    /** The relation stored for one slot of line 2. */
    ghost function Stored(s: Slot): (c: Constraint)
      reads this, horizontal, vertical
      requires Valid() && ValidSlot(s)
    {
      match s
      case Horizontal(r, g) => horizontal[r, g]
      case Vertical(c, g) => vertical[c, g]
    }

    /** Decodes a puzzle from its two lines: the grid from the first
        GridLength characters of line 1, the relations from the first
        ConstraintsLength characters of line 2. */
    constructor (line1: string, line2: string)
      requires |line1| >= GridLength && |line2| >= ConstraintsLength
      ensures Valid() && fresh(grid) && fresh(horizontal) && fresh(vertical)
      ensures forall r, c :: 0 <= r < Size && 0 <= c < Size ==> grid[r, c] == Digit(line1[r * Size + c])
      ensures forall r, g :: 0 <= r < Size && 0 <= g < Gaps ==> horizontal[r, g] == ConstraintFor(line2[r * Gaps + g])
      ensures forall c, g :: 0 <= c < Size && 0 <= g < Gaps ==> vertical[c, g] == ConstraintFor(line2[HorizontalLength + c * Gaps + g])
      ensures Cells() == DecodeGrid(line1)
      ensures forall s :: ValidSlot(s) ==> Stored(s) == ConstraintFor(line2[Position(s)])
    {
      var g := DecodeGridArray(line1);
      var h := DecodeConstraintArray(line2, 0);
      var v := DecodeConstraintArray(line2, HorizontalLength);
      grid, horizontal, vertical := g, h, v;
      new;
      forall k | 0 <= k < GridLength
        ensures Cells()[k] == DecodeGrid(line1)[k]
      {
        assert k == (k / Size) * Size + k % Size;
      }
    }

    /** Makes an independent copy, as passing a Puzzle by value does. */
    constructor Copy(p: Puzzle)
      requires p.Valid()
      ensures Valid() && fresh(grid) && fresh(horizontal) && fresh(vertical)
      ensures forall r, c :: 0 <= r < Size && 0 <= c < Size ==> grid[r, c] == p.grid[r, c]
      ensures forall r, g :: 0 <= r < Size && 0 <= g < Gaps ==> horizontal[r, g] == p.horizontal[r, g]
      ensures forall c, g :: 0 <= c < Size && 0 <= g < Gaps ==> vertical[c, g] == p.vertical[c, g]
    {
      var g, h, v := p.grid, p.horizontal, p.vertical;
      grid := new int[Size, Size]((r, c) reads g requires 0 <= r < Size && 0 <= c < Size => g[r, c]);
      horizontal := new Constraint[Size, Gaps]((r, c) reads h requires 0 <= r < Size && 0 <= c < Gaps => h[r, c]);
      vertical := new Constraint[Size, Gaps]((r, c) reads v requires 0 <= r < Size && 0 <= c < Gaps => v[r, c]);
    }

    /** The relation "value(a) ? value(b)": None unless both cells are on
        the board and adjacent, the stored relation when b is right of or
        below a, and its opposite when b is left of or above a. */
    function GetConstraintFor(a: Coordinate, b: Coordinate): (r: Constraint)
      reads this, horizontal, vertical
      requires Valid()
      ensures !(InBounds(a) && InBounds(b) && Adjacent(a, b)) ==> r == None
      ensures InBounds(a) && InBounds(b) && a.row == b.row && b.column == a.column + 1 ==>
                r == Stored(Horizontal(a.row, a.column))
      ensures InBounds(a) && InBounds(b) && a.row == b.row && b.column + 1 == a.column ==>
                r == Opposite(Stored(Horizontal(a.row, b.column)))
      ensures InBounds(a) && InBounds(b) && a.column == b.column && b.row == a.row + 1 ==>
                r == Stored(Vertical(a.column, a.row))
      ensures InBounds(a) && InBounds(b) && a.column == b.column && b.row + 1 == a.row ==>
                r == Opposite(Stored(Vertical(a.column, b.row)))
    {
      if !(InBounds(a) && InBounds(b)) then
        None
      else if a.row == b.row then
        if a.column + 1 == b.column then horizontal[a.row, a.column]
        else if a.column - 1 == b.column then Opposite(horizontal[a.row, a.column - 1])
        else None
      else if a.column == b.column then
        if a.row + 1 == b.row then vertical[a.column, a.row]
        else if a.row - 1 == b.row then Opposite(vertical[a.column, a.row - 1])
        else None
      else
        None
    }

    /** Querying a pair in the other order gives the opposite relation. */
    lemma GetConstraintForSymmetric(a: Coordinate, b: Coordinate)
      requires Valid()
      ensures GetConstraintFor(a, b) == Opposite(GetConstraintFor(b, a))
    {
    }

    /** So a pair of values satisfies the relation of (a, b) exactly when,
        swapped, it satisfies the relation of (b, a). */
    lemma GetConstraintForAgrees(a: Coordinate, b: Coordinate, x: int, y: int)
      requires Valid()
      ensures Holds(GetConstraintFor(a, b), x, y) <==> Holds(GetConstraintFor(b, a), y, x)
    {
    }

    /** Prints the grid row by row, one digit per cell. */
    method ToString() returns (s: string)
      requires Valid()
      requires OneDigitCells(Cells())
      ensures s == Serialise(Cells())
    {
      ghost var cells := Cells();
      s := [];
      for row := 0 to Size
        invariant |s| == row * Size
        invariant forall k :: 0 <= k < |s| ==> s[k] == DigitChar(cells[k])
      {
        for column := 0 to Size
          invariant |s| == row * Size + column
          invariant forall k :: 0 <= k < |s| ==> s[k] == DigitChar(cells[k])
        {
          assert cells[row * Size + column] == grid[row, column];
          s := s + [DigitChar(grid[row, column])];
        }
      }
    }

    /** Row `r` holds the digit `d` somewhere. */
    ghost predicate RowHas(r: int, d: int)
      reads this, grid
      requires Valid() && 0 <= r < Size
    {
      exists c :: 0 <= c < Size && grid[r, c] == d
    }

    /** Column `c` holds the digit `d` somewhere. */
    ghost predicate ColumnHas(c: int, d: int)
      reads this, grid
      requires Valid() && 0 <= c < Size
    {
      exists r :: 0 <= r < Size && grid[r, c] == d
    }

    /** A row holding each of the digits 1 to Size has no other value in
        any of its Size cells. */
    lemma RowOfDigitsFilled(r: int)
      requires Valid() && 0 <= r < Size
      requires forall d :: 1 <= d <= Size ==> RowHas(r, d)
      ensures forall c :: 0 <= c < Size ==> 1 <= grid[r, c] <= Size
    {
      forall c | 0 <= c < Size
        ensures 1 <= grid[r, c] <= Size
      {
        if !(1 <= grid[r, c] <= Size) {
          assert RowHas(r, 1) && RowHas(r, 2) && RowHas(r, 3) && RowHas(r, 4) && RowHas(r, 5);
          var c1 :| 0 <= c1 < Size && grid[r, c1] == 1;
          var c2 :| 0 <= c2 < Size && grid[r, c2] == 2;
          var c3 :| 0 <= c3 < Size && grid[r, c3] == 3;
          var c4 :| 0 <= c4 < Size && grid[r, c4] == 4;
          var c5 :| 0 <= c5 < Size && grid[r, c5] == 5;
          assert false;
        }
      }
    }

    /** When every row holds each digit, every cell holds a digit. */
    lemma RowsOfDigitsFilled()
      requires Valid()
      ensures (forall r, d :: 0 <= r < Size && 1 <= d <= Size ==> RowHas(r, d)) ==>
                forall r, c :: 0 <= r < Size && 0 <= c < Size ==> 1 <= grid[r, c] <= Size
    {
      if forall r, d :: 0 <= r < Size && 1 <= d <= Size ==> RowHas(r, d) {
        forall r, c | 0 <= r < Size && 0 <= c < Size
          ensures 1 <= grid[r, c] <= Size
        {
          RowOfDigitsFilled(r);
        }
      }
    }

    /** The rules the puzzle states: every row and every column contains
        each of the digits 1 to Size, and every relation holds between the
        values of its two cells. A solution therefore has no empty cell. */
    ghost predicate IsSolution()
      reads this, grid, horizontal, vertical
      requires Valid()
      ensures IsSolution() ==> forall r, c :: 0 <= r < Size && 0 <= c < Size ==> 1 <= grid[r, c] <= Size
    {
      RowsOfDigitsFilled();
      && (forall r, d :: 0 <= r < Size && 1 <= d <= Size ==> RowHas(r, d))
      && (forall c, d :: 0 <= c < Size && 1 <= d <= Size ==> ColumnHas(c, d))
      && (forall a, b :: InBounds(a) && InBounds(b) ==>
            Holds(GetConstraintFor(a, b), grid[a.row, a.column], grid[b.row, b.column]))
    }
  }

  /** The solver as the program has it: the puzzle comes back unchanged (as
      a copy), so the result is a solution exactly when the input already
      was one. */
  method Solve(puzzle: Puzzle) returns (solved: Puzzle)
    requires puzzle.Valid()
    ensures fresh(solved) && solved.Valid()
    ensures fresh(solved.grid) && fresh(solved.horizontal) && fresh(solved.vertical)
    ensures solved.Cells() == puzzle.Cells()
    ensures forall s :: ValidSlot(s) ==> solved.Stored(s) == puzzle.Stored(s)
    ensures solved.IsSolution() <==> puzzle.IsSolution()
  {
    solved := new Puzzle.Copy(puzzle);
    SameContentsSameSolution(puzzle, solved);
  }

  /** Decoding a puzzle whose grid line is all digits and printing it
      gives back the grid line. */
  method DecodePrintRoundTrip(line1: string, line2: string) returns (s: string)
    requires |line1| >= GridLength && |line2| >= ConstraintsLength
    requires forall k :: 0 <= k < GridLength ==> IsDigit(line1[k])
    ensures s == line1[..GridLength]
  {
    var p := new Puzzle(line1, line2);
    SerialiseDecodeGrid(line1);
    s := p.ToString();
  }

  /** Two puzzles with equal cells and equal relations agree on every query
      and on being solved. */
  lemma SameContentsSameSolution(p: Puzzle, q: Puzzle)
    requires p.Valid() && q.Valid()
    requires forall r, c :: 0 <= r < Size && 0 <= c < Size ==> q.grid[r, c] == p.grid[r, c]
    requires forall r, g :: 0 <= r < Size && 0 <= g < Gaps ==> q.horizontal[r, g] == p.horizontal[r, g]
    requires forall c, g :: 0 <= c < Size && 0 <= g < Gaps ==> q.vertical[c, g] == p.vertical[c, g]
    ensures q.Cells() == p.Cells()
    ensures forall s :: ValidSlot(s) ==> q.Stored(s) == p.Stored(s)
    ensures forall a, b :: q.GetConstraintFor(a, b) == p.GetConstraintFor(a, b)
    ensures q.IsSolution() <==> p.IsSolution()
  {
    forall r, d | 0 <= r < Size
      ensures q.RowHas(r, d) <==> p.RowHas(r, d)
    {
    }
    forall c, d | 0 <= c < Size
      ensures q.ColumnHas(c, d) <==> p.ColumnHas(c, d)
    {
    }
  }
}
