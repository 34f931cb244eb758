/** Products of reals, one algebraic step at a time. */
module Products {

  function Product(a: real, b: real): real { a * b }

  lemma Units(b: real)
    ensures Product(0.0, b) == 0.0 && Product(1.0, b) == b
  {
  }

  lemma Difference(x: real, y: real, b: real)
    ensures Product(x - y, b) == Product(x, b) - Product(y, b)
  {
  }

  lemma Quotient(a: real, n: real)
    requires n > 0.0
    ensures Product(a / n, n) == a
  {
  }

  lemma Monotone(x: real, y: real, b: real)
    requires x <= y && b >= 0.0
    ensures Product(x, b) <= Product(y, b)
  {
  }

  /** Values that are close stay close when scaled. */
  lemma Within(x: real, y: real, e: real, b: real)
    requires -e <= x - y <= e && b >= 0.0
    ensures -Product(e, b) <= Product(x, b) - Product(y, b) <= Product(e, b)
  {
  }
}
