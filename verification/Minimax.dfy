/** The search of www/static/main.js:706-784 as functions of an immutable position: the plain
    game value, and the fail-soft alpha-beta search that the program runs. */
module Minimax {
  import opened Board
  import opened Scores
  import opened Evaluation

  function Mover(maximizing: bool): Mark {
    if maximizing then O else X
  }

  ghost predicate Playable(s: State, moves: seq<Move>) {
    Shaped(s) && forall i :: 0 <= i < |moves| ==> Free(s, moves[i])
  }

  function TerminalScore(result: Mark): Score {
    if result == X then Fin(-1000) else if result == O then Fin(1000) else Fin(0)
  }

  // ----- Unpruned minimax

  /** Plain minimax. The depth is any integer: the program tests `depth === 0`, so a negative
      depth searches to the end of the game. */
  function Value(s: State, depth: int, maximizing: bool): Score
    requires Shaped(s)
    decreases Blanks(s), 1, 0
  {
    if depth == 0 then Fin(Evaluate(s))
    else if TerminalResult(s.status) != Blank then TerminalScore(TerminalResult(s.status))
    else Best(s, ValidMoves(s), depth, maximizing)
  }

  /** The value of the best of the given moves for the side to move. */
  function Best(s: State, moves: seq<Move>, depth: int, maximizing: bool): Score
    requires Playable(s, moves)
    decreases Blanks(s), 0, |moves|
  {
    if moves == [] then if maximizing then NegInf else PosInf
    else
      PlayFillsOneCell(s, moves[0], Mover(maximizing));
      var first := Value(Play(s, moves[0], Mover(maximizing)), depth - 1, !maximizing);
      var rest := Best(s, moves[1..], depth, maximizing);
      if maximizing then Max(first, rest) else Min(first, rest)
  }

  // ----- Alpha-beta

  /** `minimax`: the pruned search. */
  function AlphaBeta(s: State, depth: int, alpha: Score, beta: Score, maximizing: bool): Score
    requires Shaped(s)
    decreases Blanks(s), 1, 0
  {
    if depth == 0 then Fin(Evaluate(s))
    else if TerminalResult(s.status) != Blank then TerminalScore(TerminalResult(s.status))
    else if maximizing then ScanMax(s, ValidMoves(s), depth, alpha, beta, NegInf)
    else ScanMin(s, ValidMoves(s), depth, alpha, beta, PosInf)
  }

  /** The maximizing loop from its current move on; `best` is `maxScore`. */
  function ScanMax(s: State, moves: seq<Move>, depth: int, alpha: Score, beta: Score, best: Score): Score
    requires Playable(s, moves)
    decreases Blanks(s), 0, |moves|
  {
    if moves == [] then best
    else
      PlayFillsOneCell(s, moves[0], O);
      var score := AlphaBeta(Play(s, moves[0], O), depth - 1, alpha, beta, false);
      if Le(beta, Max(alpha, score)) then Max(best, score)
      else ScanMax(s, moves[1..], depth, Max(alpha, score), beta, Max(best, score))
  }

  /** The minimizing loop from its current move on; `best` is `minScore`. */
  function ScanMin(s: State, moves: seq<Move>, depth: int, alpha: Score, beta: Score, best: Score): Score
    requires Playable(s, moves)
    decreases Blanks(s), 0, |moves|
  {
    if moves == [] then best
    else
      PlayFillsOneCell(s, moves[0], X);
      var score := AlphaBeta(Play(s, moves[0], X), depth - 1, alpha, beta, true);
      if Le(Min(beta, score), alpha) then Min(best, score)
      else ScanMin(s, moves[1..], depth, alpha, Min(beta, score), Min(best, score))
  }

  // ----- Pruning is exact

  /** r answers v as far as the window goes: it bounds v from above unless r is at least beta,
      and from below unless r is at most alpha. */
  predicate Answers(r: Score, v: Score, alpha: Score, beta: Score) {
    (Lt(r, beta) ==> Le(v, r)) && (Lt(alpha, r) ==> Le(r, v))
  }

  lemma {:induction false} AlphaBetaExact(s: State, depth: int, alpha: Score, beta: Score, maximizing: bool)
    requires Shaped(s) && Lt(alpha, beta)
    ensures Answers(AlphaBeta(s, depth, alpha, beta, maximizing), Value(s, depth, maximizing), alpha, beta)
    decreases Blanks(s), 1, 0
  {
    if depth != 0 && TerminalResult(s.status) == Blank {
      if maximizing {
        ScanMaxExact(s, ValidMoves(s), depth, alpha, alpha, beta, NegInf, NegInf);
      } else {
        ScanMinExact(s, ValidMoves(s), depth, alpha, beta, beta, PosInf, PosInf);
      }
    }
  }

  /** One turn of the maximizing loop: a cut-off answers for the whole list, whatever the rest
      is worth, and otherwise the loop's bounds carry over. */
  lemma MaxStep(low: Score, alpha: Score, beta: Score, best: Score, value: Score, score: Score, v: Score, rest: Score)
    requires alpha == Max(low, best) && Lt(alpha, beta)
    requires Le(value, best) && (Lt(low, best) ==> Le(best, value))
    requires Answers(score, v, alpha, beta)
    ensures Le(beta, Max(alpha, score)) ==> Answers(Max(best, score), Max(value, Max(v, rest)), low, beta)
    ensures !Le(beta, Max(alpha, score)) ==>
              && Max(alpha, score) == Max(low, Max(best, score))
              && Le(Max(value, v), Max(best, score))
              && (Lt(low, Max(best, score)) ==> Le(Max(best, score), Max(value, v)))
    ensures Max(value, Max(v, rest)) == Max(Max(value, v), rest)
  {
  }

  lemma MinStep(alpha: Score, beta: Score, high: Score, best: Score, value: Score, score: Score, v: Score, rest: Score)
    requires beta == Min(high, best) && Lt(alpha, beta)
    requires Le(best, value) && (Lt(best, high) ==> Le(value, best))
    requires Answers(score, v, alpha, beta)
    ensures Le(Min(beta, score), alpha) ==> Answers(Min(best, score), Min(value, Min(v, rest)), alpha, high)
    ensures !Le(Min(beta, score), alpha) ==>
              && Min(beta, score) == Min(high, Min(best, score))
              && Le(Min(best, score), Min(value, v))
              && (Lt(Min(best, score), high) ==> Le(Min(value, v), Min(best, score)))
    ensures Min(value, Min(v, rest)) == Min(Min(value, v), rest)
  {
  }

  /** `best` is what the loop has found in the moves already tried and `value` their true
      maximum; `low` is the alpha the node was entered with. */
  lemma {:induction false} ScanMaxExact(s: State, moves: seq<Move>, depth: int,
                                        low: Score, alpha: Score, beta: Score, best: Score, value: Score)
    requires Playable(s, moves)
    requires alpha == Max(low, best) && Lt(alpha, beta)
    requires Le(value, best) && (Lt(low, best) ==> Le(best, value))
    ensures Answers(ScanMax(s, moves, depth, alpha, beta, best), Max(value, Best(s, moves, depth, true)), low, beta)
    decreases Blanks(s), 0, |moves|
  {
    if moves != [] {
      PlayFillsOneCell(s, moves[0], O);
      var t := Play(s, moves[0], O);
      AlphaBetaExact(t, depth - 1, alpha, beta, false);
      var score, v := AlphaBeta(t, depth - 1, alpha, beta, false), Value(t, depth - 1, false);
      MaxStep(low, alpha, beta, best, value, score, v, Best(s, moves[1..], depth, true));
      if !Le(beta, Max(alpha, score)) {
        ScanMaxExact(s, moves[1..], depth, low, Max(alpha, score), beta, Max(best, score), Max(value, v));
      }
    }
  }

  lemma {:induction false} ScanMinExact(s: State, moves: seq<Move>, depth: int,
                                        alpha: Score, beta: Score, high: Score, best: Score, value: Score)
    requires Playable(s, moves)
    requires beta == Min(high, best) && Lt(alpha, beta)
    requires Le(best, value) && (Lt(best, high) ==> Le(value, best))
    ensures Answers(ScanMin(s, moves, depth, alpha, beta, best), Min(value, Best(s, moves, depth, false)), alpha, high)
    decreases Blanks(s), 0, |moves|
  {
    if moves != [] {
      PlayFillsOneCell(s, moves[0], X);
      var t := Play(s, moves[0], X);
      AlphaBetaExact(t, depth - 1, alpha, beta, true);
      var score, v := AlphaBeta(t, depth - 1, alpha, beta, true), Value(t, depth - 1, true);
      MinStep(alpha, beta, high, best, value, score, v, Best(s, moves[1..], depth, false));
      if !Le(Min(beta, score), alpha) {
        ScanMinExact(s, moves[1..], depth, alpha, Min(beta, score), high, Min(best, score), Min(value, v));
      }
    }
  }

  /** Under the full window the pruned search returns the minimax value, in every position. */
  lemma FullWindowIsExact(s: State, depth: int, maximizing: bool)
    requires Shaped(s)
    ensures AlphaBeta(s, depth, NegInf, PosInf, maximizing) == Value(s, depth, maximizing)
  {
    AlphaBetaExact(s, depth, NegInf, PosInf, maximizing);
  }
}
