// The work budget one element's tessellation may spend. A null budget is unlimited.
module GeoBudget {

  class Budget {
    var left: int
    const size: int

    constructor (n: int)
      ensures left == n && size == n
    {
      left, size := n, n;
    }
  }

  ghost predicate Exhausted(b: Budget?)
    reads b
  {
    b != null && b.left < 0
  }

  /** Takes `n` units off, even past nothing left, and tells whether anything is overdrawn. */
  method Spend(b: Budget?, n: int) returns (ok: bool)
    modifies b
    ensures b != null ==> b.left == old(b.left) - n
    ensures ok == !Exhausted(b)
  {
    if b == null {
      return true;
    }
    b.left := b.left - n;
    ok := b.left >= 0;
  }
}
