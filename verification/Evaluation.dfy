/** The heuristic of www/static/main.js:830-896. */
module Evaluation {
  import opened Board

  /** How many of the three cells of line i hold p. */
  function OnLine(s: seq<Mark>, i: nat, p: Mark): nat
    requires |s| == 9 && i < LINE_COUNT
  {
    (if s[Line(i).0] == p then 1 else 0) + (if s[Line(i).1] == p then 1 else 0) + (if s[Line(i).2] == p then 1 else 0)
  }

  /** A line counts for a player only when the opponent has nothing on it. */
  function LineScore(s: seq<Mark>, i: nat, weight: int): int
    requires |s| == 9 && i < LINE_COUNT
  {
    if OnLine(s, i, O) > 0 && OnLine(s, i, X) == 0 then OnLine(s, i, O) * weight
    else if OnLine(s, i, X) > 0 && OnLine(s, i, O) == 0 then -(OnLine(s, i, X) * weight)
    else 0
  }

  /** The sum over the first n lines. */
  function LinesScore(s: seq<Mark>, n: nat, weight: int): int
    requires |s| == 9 && n <= LINE_COUNT
  {
    if n == 0 then 0 else LinesScore(s, n - 1, weight) + LineScore(s, n - 1, weight)
  }

  function BoardScore(s: State, b: nat): int
    requires Shaped(s) && b < 9
  {
    if s.status[b] == O then 100
    else if s.status[b] == X then -100
    else if s.status[b] == Blank then LinesScore(s.board[b], LINE_COUNT, 10)
    else 0
  }

  /** The sum over the first n small boards. */
  function BoardsScore(s: State, n: nat): int
    requires Shaped(s) && n <= 9
  {
    if n == 0 then 0 else BoardsScore(s, n - 1) + BoardScore(s, n - 1)
  }

  function Evaluate(s: State): int
    requires Shaped(s)
  {
    BoardsScore(s, 9) + LinesScore(s.status, LINE_COUNT, 25) * 10
  }
}
