/** Facts about products that the other modules share. */
module Arithmetic {

  lemma TimesMonotone(c: int, k: int, n: int)
    requires c >= 0 && k <= n
    ensures c * k <= c * n
  {
  }

  lemma TimesPredecessor(c: int, n: int)
    ensures c * (n - 1) == c * n - c
  {
  }

  lemma TimesSuccessor(c: int, n: int)
    ensures c * (n + 1) == c * n + c
  {
  }
}
