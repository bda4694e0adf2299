/**
 * The alpha-beta bounds of src/gomoku/ai/search.py: integers extended with
 * `float('-inf')` and `float('inf')`, under the usual order.
 */
module ExtInts {
  datatype ExtInt = NegInf | Fin(n: int) | PosInf

  /** `a <= b`. */
  predicate Le(a: ExtInt, b: ExtInt) {
    a.NegInf? || b.PosInf? || (a.Fin? && b.Fin? && a.n <= b.n)
  }

  /** `a < b`. */
  predicate Lt(a: ExtInt, b: ExtInt) {
    !Le(b, a)
  }

  /** Python's `max(a, b)`. */
  function MaxE(a: ExtInt, b: ExtInt): (r: ExtInt)
    ensures Le(a, r) && Le(b, r)
    ensures r == a || r == b
  {
    if Le(a, b) then b else a
  }

  /** Python's `min(a, b)`. */
  function MinE(a: ExtInt, b: ExtInt): (r: ExtInt)
    ensures Le(r, a) && Le(r, b)
    ensures r == a || r == b
  {
    if Le(a, b) then a else b
  }
}
