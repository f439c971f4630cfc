/** Arithmetic shared by the solvers. */
module Numbers {

  /** The distance between two integers on the number line. */
  function AbsDiff(a: int, b: int): (r: nat)
    ensures r == 0 <==> a == b
    ensures r == a - b || r == b - a
  {
    if a < b then b - a else a - b
  }
}
