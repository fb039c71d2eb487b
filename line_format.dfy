/** The two-line text encoding of a puzzle: line 1 holds the grid, one digit
    per cell in row-major order; line 2 holds the horizontal constraint
    symbols followed by the vertical ones. */
module LineFormat {

  /** Rows and columns of the grid. */
  const Size: int := 5
  /** Gaps between neighbouring cells along one row or one column. */
  const Gaps: int := Size - 1
  /** Characters of line 1 that are read. */
  const GridLength: int := Size * Size
  /** Characters of line 2 taken by the horizontal constraints. */
  const HorizontalLength: int := Size * Gaps
  /** Characters of line 2 that are read: horizontal then vertical. */
  const ConstraintsLength: int := 2 * HorizontalLength

  predicate IsDigit(ch: char)
  {
    '0' <= ch <= '9'
  }

  /** The cell value of a grid character: its distance from '0'. */
  function Digit(ch: char): int
  {
    ch as int - '0' as int
  }

  /** The character that prints a one-digit cell value. */
  function DigitChar(d: int): (ch: char)
    requires 0 <= d <= 9
    ensures IsDigit(ch) && Digit(ch) == d
  {
    ('0' as int + d) as char
  }

  /** The grid line decoded into cell values, row-major: a cell holds a
      one-digit value exactly when its character is a digit. */
  function DecodeGrid(line1: string): (cells: seq<int>)
    requires |line1| >= GridLength
    ensures |cells| == GridLength
    ensures forall k :: 0 <= k < GridLength ==> (IsDigit(line1[k]) <==> 0 <= cells[k] <= 9)
  {
    seq(GridLength, k requires 0 <= k < GridLength => Digit(line1[k]))
  }

  /** A line holding only '0' to '5' decodes to cells that are empty (0) or
      hold a digit 1 to 5. */
  lemma DecodeGridInRange(line1: string)
    requires |line1| >= GridLength
    requires forall k :: 0 <= k < GridLength ==> '0' <= line1[k] <= '5'
    ensures forall k :: 0 <= k < GridLength ==> 0 <= DecodeGrid(line1)[k] <= 5
  {
  }

  predicate OneDigitCells(cells: seq<int>)
  {
    forall k :: 0 <= k < |cells| ==> 0 <= cells[k] <= 9
  }

  /** The cells printed one after another, each as its single digit. */
  function Serialise(cells: seq<int>): (s: string)
    requires OneDigitCells(cells)
    ensures |s| == |cells|
    ensures forall k :: 0 <= k < |s| ==> IsDigit(s[k]) && Digit(s[k]) == cells[k]
  {
    if cells == [] then [] else [DigitChar(cells[0])] + Serialise(cells[1..])
  }

  /** Decoding a grid line of digits and printing the cells gives back the
      first GridLength characters of the line. */
  lemma SerialiseDecodeGrid(line1: string)
    requires |line1| >= GridLength
    requires forall k :: 0 <= k < GridLength ==> IsDigit(line1[k])
    ensures OneDigitCells(DecodeGrid(line1))
    ensures Serialise(DecodeGrid(line1)) == line1[..GridLength]
  {
  }

  /** Printing GridLength one-digit cells and decoding the text gives back
      the cells. */
  lemma DecodeGridSerialise(cells: seq<int>)
    requires |cells| == GridLength && OneDigitCells(cells)
    ensures DecodeGrid(Serialise(cells)) == cells
  {
  }

  /** One position of line 2: the gap right of (row, gap) in a row, or the
      gap below (gap, column) in a column. Vertical gaps are stored
      column-major. */
  datatype Slot = Horizontal(row: int, gap: int) | Vertical(column: int, gap: int)

  predicate ValidSlot(s: Slot)
  {
    match s
    case Horizontal(r, g) => 0 <= r < Size && 0 <= g < Gaps
    case Vertical(c, g) => 0 <= c < Size && 0 <= g < Gaps
  }

  /** The index of line 2 that the decoder reads for a slot. */
  function Position(s: Slot): int
  {
    match s
    case Horizontal(r, g) => r * Gaps + g
    case Vertical(c, g) => HorizontalLength + c * Gaps + g
  }

  /** The slot whose symbol sits at index `k` of line 2. */
  function SlotAt(k: int): (s: Slot)
    requires 0 <= k < ConstraintsLength
    ensures ValidSlot(s) && Position(s) == k
  {
    if k < HorizontalLength then Horizontal(k / Gaps, k % Gaps)
    else Vertical((k - HorizontalLength) / Gaps, (k - HorizontalLength) % Gaps)
  }

  /** Every slot is read from one index inside line 2 and no two slots
      share an index: with `SlotAt`, the decoder reads each of the
      ConstraintsLength positions exactly once. */
  lemma SlotAtPosition(s: Slot)
    requires ValidSlot(s)
    ensures 0 <= Position(s) < ConstraintsLength
    ensures SlotAt(Position(s)) == s
  {
  }

  /** Distinct valid slots read distinct positions. */
  lemma PositionInjective(s: Slot, t: Slot)
    requires ValidSlot(s) && ValidSlot(t) && Position(s) == Position(t)
    ensures s == t
  {
  }
}
