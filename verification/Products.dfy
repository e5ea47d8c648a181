/** Multiplication is monotone. */
module Products {
  lemma ProductGrows(a: int, b: int, n: int)
    requires a <= b && n >= 0
    ensures a * n <= b * n
  {}
}
