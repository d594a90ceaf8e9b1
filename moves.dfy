/** A move of the checkers engine: where a piece starts, where it lands and,
    for a capture, which cell holds the piece it jumps over. The value -1 in
    the captured-cell coordinates means "no capture", as in the original record. */
module Moves {

  datatype MovePos = MovePos(x: int, y: int, x2: int, y2: int, xb: int, yb: int)

  /** The four-argument constructor: a move without a capture. The datatype's
      own constructor MovePos(x, y, x2, y2, xb, yb) is the six-argument one. */
  function Simple(x: int, y: int, x2: int, y2: int): (m: MovePos)
    ensures !IsCapture(m) && m.yb == -1
    ensures m.x == x && m.y == y && m.x2 == x2 && m.y2 == y2
  {
    MovePos(x, y, x2, y2, -1, -1)
  }

  /** A move captures exactly when its captured-cell row is not the sentinel. */
  predicate IsCapture(m: MovePos) {
    m.xb != -1
  }

  /** operator== : moves are equal when their endpoints agree. */
  predicate Same(a: MovePos, b: MovePos) {
    a.x == b.x && a.y == b.y && a.x2 == b.x2 && a.y2 == b.y2
  }

  /** operator!= */
  predicate Differs(a: MovePos, b: MovePos) {
    !Same(a, b)
  }

  /** Equality ignores the captured cell: two moves are Same exactly when they
      become identical once the captured cell of one is copied into the other. */
  lemma SameIgnoresCapturedCell(a: MovePos, b: MovePos)
    ensures Same(a, b) <==> a.(xb := b.xb, yb := b.yb) == b
    ensures Differs(a, b) <==> !Same(a, b)
  {
  }

  /** Same is an equivalence relation. */
  lemma SameIsEquivalence(a: MovePos, b: MovePos, c: MovePos)
    ensures Same(a, a)
    ensures Same(a, b) ==> Same(b, a)
    ensures Same(a, b) && Same(b, c) ==> Same(a, c)
  {
  }
}
