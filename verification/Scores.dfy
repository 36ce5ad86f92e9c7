/** Search scores: the program's numbers are integers together with -Infinity and Infinity. */
module Scores {

  datatype Score = NegInf | Fin(value: int) | PosInf

  predicate Le(a: Score, b: Score) {
    a.NegInf? || b.PosInf? || (a.Fin? && b.Fin? && a.value <= b.value)
  }

  predicate Lt(a: Score, b: Score) {
    !Le(b, a)
  }

  function Max(a: Score, b: Score): Score {
    if Le(a, b) then b else a
  }

  function Min(a: Score, b: Score): Score {
    if Le(a, b) then a else b
  }

  function Neg(a: Score): Score {
    match a
    case NegInf => PosInf
    case PosInf => NegInf
    case Fin(v) => Fin(-v)
  }
}
