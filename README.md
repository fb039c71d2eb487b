# Inequality puzzle: data layer

A model of the data layer of a 5x5 inequality puzzle (a Latin square in
which some pairs of orthogonally adjacent cells are also tied by `<` or `>`).
The program reads a puzzle as two strings, keeps it in fixed-size arrays,
answers "how are these two cells related?" queries, and prints the grid back
as a row-major digit string. Its solver is a stub that returns the puzzle it
was given.

- `constraints.dfy`, module `Constraints`: the `Constraint` enumeration
  (`Greater`, `Less`, `None`), its reversal `Opposite`, the symbol decoder
  `ConstraintFor`, and `Holds`, the meaning of a relation on two values.
- `line_format.dfy`, module `LineFormat`: the size constants, the text
  encoding of line 1 (`DecodeGrid`, `Serialise`) and the layout of line 2 as
  40 `Slot`s: 20 horizontal ones (row, gap), row-major, then 20 vertical ones
  (column, gap), column-major.
- `puzzle.dfy`, module `Inequality`: `Coordinate`, the `Puzzle` class with
  its three `array2` fields filled in place by nested loops, the adjacency
  lookup `GetConstraintFor`, the printer `ToString`, the identity solver
  `Solve`, and `IsSolution`, the puzzle's rules written as a predicate for
  reference.

The vertical relations are stored as `vertical[column, gap]`, because that
is how the lookup reads them (Inequality/Inequality/main.cpp:122, 124). The
decoding loop names its indices `row` and `column` (lines 96-99), but it
fills the same table. So the second half of line 2 is column-major. The
program's solver is a stub: `solve` returns its argument
(Inequality/Inequality/main.cpp:144-146), and the model follows the code.

## Model

| member | source | states |
|---|---|---|
| `Constraints.Opposite` | Inequality/Inequality/main.cpp:33-43 | the result is `None` exactly when the input is, and a strict relation is turned into the other strict relation |
| `Constraints.OppositeInvolution` | Inequality/Inequality/main.cpp:33-43 | reversing a relation twice gives it back |
| `Constraints.OppositeSwapsOperands` | Inequality/Inequality/main.cpp:29-43 | `Opposite(c)` holds of (y, x) exactly when `c` holds of (x, y) |
| `Constraints.ConstraintFor` | Inequality/Inequality/main.cpp:59-69 | `'<'` decodes to `Less`, `'>'` to `Greater`, and `'|'` and every other character to `None`, each as an if-and-only-if |
| `Constraints.ConstraintForSymbol` | Inequality/Inequality/main.cpp:59-69 | each relation's symbol decodes back to that relation |
| `LineFormat.DigitChar` | Inequality/Inequality/main.cpp:137 | a value 0..9 prints as one digit character that decodes back to the value |
| `LineFormat.DecodeGrid` | Inequality/Inequality/main.cpp:80-84 | line 1 decodes to 25 cells, and a cell holds a one-digit value exactly when its character is a digit |
| `LineFormat.DecodeGridInRange` | Inequality/Inequality/main.cpp:80-84 | when line 1 holds only `'0'` to `'5'`, every decoded cell is in 0..5 |
| `LineFormat.Serialise` | Inequality/Inequality/main.cpp:133-141 | printing one-digit cells gives one digit character per cell, in order, each decoding to its cell |
| `LineFormat.SerialiseDecodeGrid` | Inequality/Inequality/main.cpp:80-84 | decoding a line of digits and printing the cells gives back the first 25 characters of the line |
| `LineFormat.DecodeGridSerialise` | Inequality/Inequality/main.cpp:133-141 | printing 25 one-digit cells and decoding the text gives back the cells |
| `LineFormat.SlotAt` | Inequality/Inequality/main.cpp:86-101 | every index 0..39 of line 2 is the position the decoder reads for some valid slot |
| `LineFormat.SlotAtPosition` | Inequality/Inequality/main.cpp:86-101 | every valid slot is read from an index inside 0..39, and `SlotAt` recovers the slot from it |
| `LineFormat.PositionInjective` | Inequality/Inequality/main.cpp:86-101 | no two valid slots read the same index, so each of the 40 positions is read exactly once |
| `Inequality.DecodeGridArray` | Inequality/Inequality/main.cpp:80-84 | the loops leave `grid[r, c]` equal to `line1[r * 5 + c] - '0'` for every cell |
| `Inequality.DecodeConstraintArray` | Inequality/Inequality/main.cpp:86-101 | the loops leave entry (i, j) equal to the decoded symbol at `start + i * 4 + j` |
| `Inequality.Puzzle.constructor` | Inequality/Inequality/main.cpp:75-102 | the grid is line 1 decoded row-major; `horizontal[r, g]` is the symbol at `r * 4 + g` and `vertical[c, g]` the symbol at `20 + c * 4 + g`; every slot holds the symbol at its position |
| `Inequality.Puzzle.Copy` | Inequality/Inequality/main.cpp:144-146 | the copy has fresh arrays holding the same cells and relations |
| `Inequality.Puzzle.GetConstraintFor` | Inequality/Inequality/main.cpp:104-131 | `None` unless both cells are on the board and adjacent; the stored relation when the second cell is right of or below the first; its opposite when left of or above; every array read is in bounds |
| `Inequality.Puzzle.GetConstraintForSymmetric` | Inequality/Inequality/main.cpp:112-127 | for all coordinates, querying (a, b) gives the opposite of querying (b, a) |
| `Inequality.Puzzle.GetConstraintForAgrees` | Inequality/Inequality/main.cpp:104-131 | values satisfy the relation of (a, b) exactly when, swapped, they satisfy the relation of (b, a) |
| `Inequality.Puzzle.ToString` | Inequality/Inequality/main.cpp:133-141 | the loops produce the row-major printing of the grid, one digit per cell |
| `Inequality.Puzzle.RowOfDigitsFilled` | Inequality/Inequality/main.cpp:8-9 | a row holding each of the digits 1 to 5 has a digit 1 to 5 in every one of its cells |
| `Inequality.Puzzle.RowsOfDigitsFilled` | Inequality/Inequality/main.cpp:8-9 | when every row holds each digit, every cell of the grid holds a digit 1 to 5 |
| `Inequality.Puzzle.IsSolution` | Inequality/Inequality/main.cpp:8-11 | the three rules as a predicate (each row and each column holds the digits 1 to 5, every relation holds); any solution has no empty cell |
| `Inequality.DecodePrintRoundTrip` | Inequality/Inequality/main.cpp:80-141 | decoding a puzzle whose grid line is all digits and printing it gives back exactly the first 25 characters of the grid line |
| `Inequality.SameContentsSameSolution` | Inequality/Inequality/main.cpp:144-146 | two puzzles with equal cells and relations answer every query alike and are solutions together, which is what a by-value copy preserves |
| `Inequality.Solve` | Inequality/Inequality/main.cpp:144-146 | the result is a fresh puzzle with its own fresh arrays (an independent copy) holding the same cells and relations, so it is a solution exactly when the input already was |

## Left out

- The `main` driver: opening `tests/NN.in` and `tests/NN.out`, reading the expected answer and printing the verdict. It is file and console I/O.
- The `is >> line1 >> line2` tokenisation. The constructor takes the two strings and requires at least 25 and 40 characters. Input shorter than 24 or 39 characters is read out of bounds in the program. A line exactly one character short reads the string's terminating NUL (cell value -48, or no constraint), which is not modelled.
- Inequality.Puzzle.ToString: requires every cell to be 0..9, because printing of negative or multi-digit integers is not modelled.
- Inequality.Puzzle.constructor: characters are Dafny characters. `line1[k] - '0'` is their code minus 48, so bytes above 127 read as a negative signed `char` are not modelled.
- A search-based solver: the program has none. `IsSolution` states the puzzle's rules for reference only, and nothing claims `Solve` establishes it.
