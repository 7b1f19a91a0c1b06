/** Numbers in the order of float64 without NaN, and the intervals of numeric patterns. */
module Numbers {

  datatype Num = NegInf | Finite(r: real) | PosInf

  predicate Less(a: Num, b: Num) {
    match (a, b)
    case (Finite(x), Finite(y)) => x < y
    case (NegInf, _) => b != NegInf
    case (Finite(_), _) => b == PosInf
    case (PosInf, _) => false
  }

  predicate AtMost(a: Num, b: Num) {
    !Less(b, a)
  }

  datatype Interval = Interval(lo: Num, hi: Num, loOpen: bool, hiOpen: bool) {
    predicate Contains(x: Num) {
      && (Less(lo, x) || (lo == x && !loOpen))
      && (Less(x, hi) || (x == hi && !hiOpen))
    }
  }
}
