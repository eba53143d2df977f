/** The crate's `Spiral` enum: one of the three iterators. */
module Spirals {
  import Euclidean
  import Manhattan
  import Chebyshev

  datatype Spiral =
    | Euclidean(euclidean: Euclidean.EuclideanIterator)
    | Manhattan(manhattan: Manhattan.ManhattanIterator)
    | Chebyshev(chebyshev: Chebyshev.ChebyshevIterator)
}
