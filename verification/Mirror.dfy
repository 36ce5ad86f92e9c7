/** Exchanging X and O everywhere turns the search upside down. */
module Mirror {
  import opened Board
  import opened Scores
  import opened Evaluation
  import opened Minimax

  function Flip(row: seq<Mark>): (flipped: seq<Mark>)
    ensures |flipped| == |row|
    ensures forall i :: 0 <= i < |row| ==> flipped[i] == Opponent(row[i])
  {
    seq(|row|, i requires 0 <= i < |row| => Opponent(row[i]))
  }

  function Flipped(s: State): (t: State)
    requires Shaped(s)
    ensures Shaped(t)
  {
    State(seq(9, b requires 0 <= b < 9 => Flip(s.board[b])), Flip(s.status), s.next)
  }

  // ----- The rules

  lemma {:induction false} FlippedOwner(row: seq<Mark>, i: nat)
    requires |row| == 9 && i <= LINE_COUNT
    ensures FirstOwner(Flip(row), i) == Opponent(FirstOwner(row, i))
    decreases LINE_COUNT - i
  {
    if i < LINE_COUNT {
      FlippedOwner(row, i + 1);
    }
  }

  lemma FlippedFull(row: seq<Mark>)
    ensures Blank in Flip(row) <==> Blank in row
  {
    if Blank in row {
      var i :| 0 <= i < |row| && row[i] == Blank;
      assert Flip(row)[i] == Blank;
    }
  }

  lemma FlippedTerminal(s: State)
    requires Shaped(s)
    ensures TerminalResult(Flipped(s).status) == Opponent(TerminalResult(s.status))
  {
    FlippedOwner(s.status, 0);
    FlippedFull(s.status);
  }

  lemma FlippedPlay(s: State, m: Move, p: Mark)
    requires Shaped(s) && Free(s, m) && IsPlayer(p)
    ensures Play(Flipped(s), m, Opponent(p)) == Flipped(Play(s, m, p))
  {
    var row := s.board[m.board][m.cell := p];
    assert Flip(s.board[m.board])[m.cell := Opponent(p)] == Flip(row);
    FlippedOwner(row, 0);
    FlippedFull(row);
    var status := s.status[m.board := SmallResult(row, s.status[m.board])];
    assert Flip(s.status)[m.board := SmallResult(Flip(row), Flip(s.status)[m.board])] == Flip(status);
    assert Play(Flipped(s), m, Opponent(p)).board == Flipped(Play(s, m, p)).board;
  }

  lemma {:induction false} FlippedOpenBoards(s: State, n: nat)
    requires Shaped(s) && n <= 9
    ensures OpenBoards(Flipped(s), n) == OpenBoards(s, n)
  {
    if n > 0 {
      FlippedOpenBoards(s, n - 1);
    }
  }

  lemma {:induction false} FlippedCellMoves(s: State, b: nat, n: nat)
    requires Shaped(s) && b < 9 && n <= 9
    ensures CellMoves(Flipped(s), b, n) == CellMoves(s, b, n)
  {
    if n > 0 {
      FlippedCellMoves(s, b, n - 1);
    }
  }

  lemma {:induction false} FlippedMovesOn(s: State, boards: seq<nat>, n: nat)
    requires Shaped(s) && n <= |boards| && forall i :: 0 <= i < |boards| ==> boards[i] < 9
    ensures MovesOn(Flipped(s), boards, n) == MovesOn(s, boards, n)
  {
    if n > 0 {
      FlippedCellMoves(s, boards[n - 1], 9);
      FlippedMovesOn(s, boards, n - 1);
    }
  }

  lemma FlippedMoves(s: State)
    requires Shaped(s)
    ensures ValidMoves(Flipped(s)) == ValidMoves(s)
  {
    FlippedOpenBoards(s, 9);
    assert BoardsToCheck(Flipped(s)) == BoardsToCheck(s);
    FlippedMovesOn(s, BoardsToCheck(s), |BoardsToCheck(s)|);
  }

  // ----- The heuristic

  lemma {:induction false} FlippedLines(row: seq<Mark>, n: nat, weight: int)
    requires |row| == 9 && n <= LINE_COUNT
    ensures LinesScore(Flip(row), n, weight) == -LinesScore(row, n, weight)
  {
    if n > 0 {
      FlippedLines(row, n - 1, weight);
    }
  }

  lemma {:induction false} FlippedBoards(s: State, n: nat)
    requires Shaped(s) && n <= 9
    ensures BoardsScore(Flipped(s), n) == -BoardsScore(s, n)
  {
    if n > 0 {
      FlippedBoards(s, n - 1);
      FlippedLines(s.board[n - 1], LINE_COUNT, 10);
    }
  }

  lemma FlippedEvaluation(s: State)
    requires Shaped(s)
    ensures Evaluate(Flipped(s)) == -Evaluate(s)
  {
    FlippedBoards(s, 9);
    FlippedLines(s.status, LINE_COUNT, 25);
  }

  // ----- The search

  lemma {:induction false} FlippedSearch(s: State, depth: int, alpha: Score, beta: Score, maximizing: bool)
    requires Shaped(s)
    ensures AlphaBeta(Flipped(s), depth, Neg(beta), Neg(alpha), !maximizing)
         == Neg(AlphaBeta(s, depth, alpha, beta, maximizing))
    decreases Blanks(s), 1, 0
  {
    if depth == 0 {
      FlippedEvaluation(s);
    } else if TerminalResult(s.status) != Blank {
      FlippedTerminal(s);
    } else {
      FlippedTerminal(s);
      FlippedMoves(s);
      if maximizing {
        FlippedScanMax(s, ValidMoves(s), depth, alpha, beta, NegInf);
      } else {
        FlippedScanMin(s, ValidMoves(s), depth, alpha, beta, PosInf);
      }
    }
  }

  lemma NegExchangesMaxMin(a: Score, b: Score)
    ensures Neg(Max(a, b)) == Min(Neg(a), Neg(b)) && Neg(Min(a, b)) == Max(Neg(a), Neg(b))
    ensures Le(a, b) <==> Le(Neg(b), Neg(a))
  {
  }

  lemma {:induction false} FlippedScanMax(s: State, moves: seq<Move>, depth: int,
                                          alpha: Score, beta: Score, best: Score)
    requires Playable(s, moves)
    ensures Playable(Flipped(s), moves)
    ensures ScanMin(Flipped(s), moves, depth, Neg(beta), Neg(alpha), Neg(best))
         == Neg(ScanMax(s, moves, depth, alpha, beta, best))
    decreases Blanks(s), 0, |moves|
  {
    if moves != [] {
      PlayFillsOneCell(s, moves[0], O);
      FlippedPlay(s, moves[0], O);
      FlippedSearch(Play(s, moves[0], O), depth - 1, alpha, beta, false);
      var score := AlphaBeta(Play(s, moves[0], O), depth - 1, alpha, beta, false);
      NegExchangesMaxMin(alpha, score);
      NegExchangesMaxMin(best, score);
      NegExchangesMaxMin(beta, Max(alpha, score));
      FlippedScanMax(s, moves[1..], depth, Max(alpha, score), beta, Max(best, score));
    }
  }

  lemma {:induction false} FlippedScanMin(s: State, moves: seq<Move>, depth: int,
                                          alpha: Score, beta: Score, best: Score)
    requires Playable(s, moves)
    ensures Playable(Flipped(s), moves)
    ensures ScanMax(Flipped(s), moves, depth, Neg(beta), Neg(alpha), Neg(best))
         == Neg(ScanMin(s, moves, depth, alpha, beta, best))
    decreases Blanks(s), 0, |moves|
  {
    if moves != [] {
      PlayFillsOneCell(s, moves[0], X);
      FlippedPlay(s, moves[0], X);
      FlippedSearch(Play(s, moves[0], X), depth - 1, alpha, beta, true);
      var score := AlphaBeta(Play(s, moves[0], X), depth - 1, alpha, beta, true);
      NegExchangesMaxMin(beta, score);
      NegExchangesMaxMin(best, score);
      NegExchangesMaxMin(Min(beta, score), alpha);
      FlippedScanMin(s, moves[1..], depth, alpha, Min(beta, score), Min(best, score));
    }
  }
}
