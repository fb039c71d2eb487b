/** The relation an inequality puzzle may place between two orthogonally
    adjacent cells, and the one-character symbols that encode it. */
module Constraints {

  /** Read as "value(first) ? value(second)" for an ordered pair of cells:
      `Greater` is `>`, `Less` is `<`, `None` is no constraint. */
  datatype Constraint = Greater | Less | None

  /** Whether the values `x` and `y`, in that order, satisfy `c`. */
  predicate Holds(c: Constraint, x: int, y: int)
  {
    match c
    case Greater => x > y
    case Less => x < y
    case None => true
  }

  /** The same relation seen from the other cell: Greater and Less swap,
      None stays None. */
  function Opposite(c: Constraint): (r: Constraint)
    ensures r.None? <==> c.None?
    ensures !c.None? ==> r != c
  {
    match c
    case Greater => Less
    case Less => Greater
    case None => c
  }

  /** Reversing twice gives back the original relation. */
  lemma OppositeInvolution(c: Constraint)
    ensures Opposite(Opposite(c)) == c
  {
  }

  /** `Opposite(c)` says about (y, x) exactly what `c` says about (x, y). */
  lemma OppositeSwapsOperands(c: Constraint, x: int, y: int)
    ensures Holds(Opposite(c), y, x) <==> Holds(c, x, y)
  {
  }

  /** Decodes one symbol of the constraint line: '<' and '>' are the two
      strict relations, '|' and every other character mean no constraint. */
  function ConstraintFor(ch: char): (r: Constraint)
    ensures r == Less <==> ch == '<'
    ensures r == Greater <==> ch == '>'
    ensures r == None <==> ch != '<' && ch != '>'
  {
    match ch
    case '<' => Less
    case '>' => Greater
    case _ => None
  }

  /** The canonical symbol of a relation, as the puzzle files write it. */
  function Symbol(c: Constraint): (ch: char)
  {
    match c
    case Less => '<'
    case Greater => '>'
    case None => '|'
  }

  /** Every relation survives being written as its symbol and read back. */
  lemma ConstraintForSymbol(c: Constraint)
    ensures ConstraintFor(Symbol(c)) == c
  {
  }
}
