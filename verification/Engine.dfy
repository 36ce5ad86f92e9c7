/** The program itself: one mutable game state whose arrays the search overwrites and restores
    (www/static/main.js). Every method is proved against the functions of Board, Minimax, Choice
    and Sessions. */
module Engine {
  import opened Board
  import opened Rules
  import opened Scores
  import opened Evaluation
  import opened Minimax
  import opened Choice
  import opened Sessions
  import opened Wrappers

  ghost function Row(board: array2<Mark>, b: nat): (row: seq<Mark>)
    requires board.Length0 == 9 && board.Length1 == 9 && b < 9
    reads board
  {
    seq(9, c requires 0 <= c < 9 && b < board.Length0 && board.Length1 == 9 reads board => board[b, c])
  }

  ghost function Cells(board: array2<Mark>): (rows: seq<seq<Mark>>)
    requires board.Length0 == 9 && board.Length1 == 9
    reads board
  {
    seq(9, b requires 0 <= b < 9 && board.Length0 == 9 && board.Length1 == 9 reads board => Row(board, b))
  }

  class GameState {
    var board: array2<Mark>
    var smallBoardStatus: array<Mark>
    var nextBoard: int
    var currentPlayer: Mark
    var gameStatus: Phase
    var firstPlayer: Mark
    var difficulty: int
    var humanWins: nat
    var agentWins: nat
    var draws: nat
    var humanMoves: nat
    var agentMoves: nat
    ghost var starter: Mark

    // ----- Abstraction

    ghost predicate Ready()
      reads `board, `smallBoardStatus, `nextBoard, board, smallBoardStatus
    {
      && board.Length0 == 9 && board.Length1 == 9 && smallBoardStatus.Length == 9
      && -1 <= nextBoard < 9
      && (forall b, c :: 0 <= b < 9 && 0 <= c < 9 ==> board[b, c] != Draw)
    }

    /** The immutable position that the arrays hold. */
    ghost function Position(): (s: State)
      requires Ready()
      reads `board, `smallBoardStatus, `nextBoard, board, smallBoardStatus
      ensures Shaped(s)
    {
      State(Cells(board), smallBoardStatus[..], nextBoard)
    }

    ghost function Game(): Session
      requires Ready()
      reads this, board, smallBoardStatus
    {
      Session(Position(), gameStatus, currentPlayer, firstPlayer, difficulty,
                      humanWins, agentWins, draws, humanMoves, agentMoves, starter)
    }

    /** The test of `isValidMove` on the arrays, the game status aside. */
    ghost predicate Accepts(b: nat, c: nat)
      requires Ready() && b < 9 && c < 9
      reads `board, `smallBoardStatus, `nextBoard, board, smallBoardStatus
    {
      board[b, c] == Blank && smallBoardStatus[b] == Blank && (nextBoard == -1 || nextBoard == b)
    }

    /** The moves accepted after a move in this cell: the free cells of the open boards, but of the
        board that the cell points to only, if that board is open. */
    ghost predicate SentTo(cell: nat)
      requires Ready() && cell < 9
      reads `board, `smallBoardStatus, `nextBoard, board, smallBoardStatus
    {
      forall b, c :: 0 <= b < 9 && 0 <= c < 9 ==>
        (Accepts(b, c) <==>
           board[b, c] == Blank && smallBoardStatus[b] == Blank && (smallBoardStatus[cell] != Blank || b == cell))
    }

    /** What a move has made of position s, from the arrays: the cell, the status of its board, all
        else unchanged, and the moves that are accepted next. */
    ghost predicate Follows(s: State, m: Move, p: Mark)
      requires Ready() && Shaped(s) && m.board < 9 && m.cell < 9
      reads `board, `smallBoardStatus, `nextBoard, board, smallBoardStatus
    {
      && (forall b, c :: 0 <= b < 9 && 0 <= c < 9 ==>
            board[b, c] == if b == m.board && c == m.cell then p else s.board[b][c])
      && (forall b :: 0 <= b < 9 && b != m.board ==> smallBoardStatus[b] == s.status[b])
      && (OneWinner(Row(board, m.board)) ==>
            smallBoardStatus[m.board] == Verdict(Row(board, m.board), s.status[m.board]))
      && SentTo(m.cell)
    }

    lemma PlayFollows(s: State, m: Move, p: Mark)
      requires Shaped(s) && m.board < 9 && m.cell < 9 && IsPlayer(p) && Ready() && Position() == Play(s, m, p)
      ensures Follows(s, m, p)
    {
      assert forall b, c :: 0 <= b < 9 && 0 <= c < 9 ==> board[b, c] == Position().board[b][c];
      assert Position().board[m.board] == Row(board, m.board);
      if OneWinner(Row(board, m.board)) {
        SmallResultIs(Row(board, m.board), s.status[m.board]);
      }
    }

    // ----- Reading the position

    method IsValidMove(largeBoardIndex: nat, smallCellIndex: nat) returns (ok: bool)
      requires Ready() && largeBoardIndex < 9 && smallCellIndex < 9
      ensures ok <==> gameStatus == Ongoing && Allowed(Position(), Move(largeBoardIndex, smallCellIndex))
      ensures ok <==> gameStatus == Ongoing && Accepts(largeBoardIndex, smallCellIndex)
    {
      if gameStatus != Ongoing {
        return false;
      }
      if board[largeBoardIndex, smallCellIndex] != Blank {
        return false;
      }
      if smallBoardStatus[largeBoardIndex] != Blank {
        return false;
      }
      if nextBoard != -1 && nextBoard != largeBoardIndex {
        return false;
      }
      return true;
    }

    method CheckTerminalState() returns (result: Mark)
      requires Ready()
      ensures result == TerminalResult(Position().status)
      ensures OneWinner(smallBoardStatus[..]) ==> result == Verdict(smallBoardStatus[..], Blank)
    {
      if OneWinner(smallBoardStatus[..]) {
        TerminalResultIs(smallBoardStatus[..]);
      }
      ghost var status := smallBoardStatus[..];
      for i := 0 to LINE_COUNT
        invariant FirstOwner(status, 0) == FirstOwner(status, i)
      {
        var (a, b, c) := Line(i);
        if && smallBoardStatus[a] != Blank && smallBoardStatus[a] != Draw
           && smallBoardStatus[a] == smallBoardStatus[b] && smallBoardStatus[a] == smallBoardStatus[c] {
          return smallBoardStatus[a];
        }
      }
      var full := true;
      for i := 0 to 9
        invariant full <==> Blank !in status[..i]
      {
        full := full && smallBoardStatus[i] != Blank;
        assert status[..i + 1] == status[..i] + [status[i]];
      }
      assert status[..9] == status;
      return if full then Draw else Blank;
    }

    method OpenBoardIndices() returns (boards: seq<nat>)
      requires Ready()
      ensures boards == OpenBoards(Position(), 9)
    {
      boards := [];
      for i := 0 to 9
        invariant boards == OpenBoards(Position(), i)
      {
        if smallBoardStatus[i] == Blank {
          boards := boards + [i];
        }
      }
    }

    method GetAllValidMoves() returns (moves: seq<Move>)
      requires Ready()
      ensures moves == ValidMoves(Position())
    {
      var boardsToCheck: seq<nat>;
      if nextBoard == -1 {
        boardsToCheck := OpenBoardIndices();
      } else if smallBoardStatus[nextBoard] == Blank {
        boardsToCheck := [nextBoard];
      } else {
        boardsToCheck := OpenBoardIndices();
      }
      ghost var s := Position();
      moves := [];
      for i := 0 to |boardsToCheck|
        invariant moves == MovesOn(s, boardsToCheck, i)
      {
        moves := AppendFreeCells(moves, boardsToCheck[i]);
      }
    }

    /** The inner loop of the move generator. */
    method AppendFreeCells(before: seq<Move>, boardIndex: nat) returns (moves: seq<Move>)
      requires Ready() && boardIndex < 9
      ensures moves == before + CellMoves(Position(), boardIndex, 9)
    {
      moves := before;
      for cellIndex := 0 to 9
        invariant moves == before + CellMoves(Position(), boardIndex, cellIndex)
      {
        if board[boardIndex, cellIndex] == Blank {
          moves := moves + [Move(boardIndex, cellIndex)];
        }
      }
    }

    // ----- The heuristic

    method EvaluateSmallBoard(boardIndex: nat) returns (score: int)
      requires Ready() && boardIndex < 9
      ensures score == LinesScore(Position().board[boardIndex], LINE_COUNT, 10)
    {
      ghost var row := Row(board, boardIndex);
      score := 0;
      for i := 0 to LINE_COUNT
        invariant score == LinesScore(row, i, 10)
      {
        var (a, b, c) := Line(i);
        var lineValues := [board[boardIndex, a], board[boardIndex, b], board[boardIndex, c]];
        score := AddLine(score, lineValues, 10, row, i);
      }
    }

    method EvaluateLargeBoard() returns (score: int)
      requires Ready()
      ensures score == LinesScore(Position().status, LINE_COUNT, 25)
    {
      ghost var status := smallBoardStatus[..];
      score := 0;
      for i := 0 to LINE_COUNT
        invariant score == LinesScore(status, i, 25)
      {
        var (a, b, c) := Line(i);
        var lineValues := [smallBoardStatus[a], smallBoardStatus[b], smallBoardStatus[c]];
        score := AddLine(score, lineValues, 25, status, i);
      }
    }

    method EvaluateBoard() returns (score: int)
      requires Ready()
      ensures score == Evaluate(Position())
    {
      score := 0;
      for i := 0 to 9
        invariant score == BoardsScore(Position(), i)
      {
        if smallBoardStatus[i] == O {
          score := score + 100;
        } else if smallBoardStatus[i] == X {
          score := score - 100;
        } else if smallBoardStatus[i] == Blank {
          var boardScore := EvaluateSmallBoard(i);
          score := score + boardScore;
        }
      }
      var largeBoardScore := EvaluateLargeBoard();
      score := score + largeBoardScore * 10;
    }

    // ----- Changing the position

    method CheckSmallBoardWin(boardIndex: nat)
      requires Ready() && boardIndex < 9
      modifies smallBoardStatus
      ensures Ready()
      ensures smallBoardStatus[..] == old(smallBoardStatus[..])[boardIndex :=
                SmallResult(Row(board, boardIndex), old(smallBoardStatus[boardIndex]))]
      ensures OneWinner(Row(board, boardIndex)) ==>
                smallBoardStatus[boardIndex] == Verdict(Row(board, boardIndex), old(smallBoardStatus[boardIndex]))
    {
      if OneWinner(Row(board, boardIndex)) {
        SmallResultIs(Row(board, boardIndex), smallBoardStatus[boardIndex]);
      }
      ghost var row := Row(board, boardIndex);
      for i := 0 to LINE_COUNT
        invariant FirstOwner(row, 0) == FirstOwner(row, i)
      {
        var (a, b, c) := Line(i);
        if && board[boardIndex, a] != Blank
           && board[boardIndex, a] == board[boardIndex, b] && board[boardIndex, a] == board[boardIndex, c] {
          smallBoardStatus[boardIndex] := board[boardIndex, a];
          return;
        }
      }
      var full := true;
      for c := 0 to 9
        invariant full <==> Blank !in row[..c]
      {
        full := full && board[boardIndex, c] != Blank;
        assert row[..c + 1] == row[..c] + [row[c]];
      }
      assert row[..9] == row;
      if full {
        smallBoardStatus[boardIndex] := Draw;
      }
    }

    /** The statements that `makeMove` and the search share: the cell, the status of its board,
        and the board the opponent is sent to. */
    method Place(m: Move, player: Mark)
      requires Ready() && m.board < 9 && m.cell < 9 && IsPlayer(player)
      modifies this`nextBoard, board, smallBoardStatus
      ensures Ready() && Position() == Play(old(Position()), m, player)
    {
      ghost var s := Position();
      board[m.board, m.cell] := player;
      assert Row(board, m.board) == s.board[m.board][m.cell := player];
      assert forall b :: 0 <= b < 9 && b != m.board ==> Row(board, b) == s.board[b];
      assert smallBoardStatus[..] == s.status;
      assert Ready();
      ghost var t := Play(s, m, player);
      CheckSmallBoardWin(m.board);
      assert Row(board, m.board) == s.board[m.board][m.cell := player];
      assert t.status == s.status[m.board := SmallResult(s.board[m.board][m.cell := player], s.status[m.board])];
      assert smallBoardStatus[..] == t.status;
      nextBoard := m.cell;
      if smallBoardStatus[nextBoard] != Blank {
        nextBoard := -1;
      }
      assert Position().board == t.board by {
        forall b | 0 <= b < 9 ensures Row(board, b) == t.board[b] {
        }
      }
    }

    /** `JSON.parse(JSON.stringify(gameState.board))` and `[...gameState.smallBoardStatus]`. */
    method Snapshot() returns (tempBoard: array2<Mark>, tempSmallBoardStatus: array<Mark>)
      requires Ready()
      ensures fresh(tempBoard) && tempBoard.Length0 == 9 && tempBoard.Length1 == 9
      ensures fresh(tempSmallBoardStatus) && tempSmallBoardStatus[..] == smallBoardStatus[..]
      ensures Cells(tempBoard) == Cells(board)
    {
      tempBoard := new Mark[9, 9]((b, c) requires 0 <= b < 9 && 0 <= c < 9 && board.Length0 == 9 && board.Length1 == 9
                                         reads this, board => board[b, c]);
      tempSmallBoardStatus := new Mark[9](i requires 0 <= i < 9 && smallBoardStatus.Length == 9
                                            reads this, smallBoardStatus => smallBoardStatus[i]);
      assert forall b :: 0 <= b < 9 ==> Row(tempBoard, b) == Row(board, b);
    }

    // ----- The search

    method Restore(tempBoard: array2<Mark>, tempSmallBoardStatus: array<Mark>, tempNextBoard: int, ghost s: State)
      requires tempBoard.Length0 == 9 && tempBoard.Length1 == 9 && Shaped(s)
      requires Cells(tempBoard) == s.board && tempSmallBoardStatus[..] == s.status && tempNextBoard == s.next
      modifies this`board, this`smallBoardStatus, this`nextBoard
      ensures board == tempBoard && smallBoardStatus == tempSmallBoardStatus
      ensures Ready() && Position() == s
    {
      board := tempBoard;
      smallBoardStatus := tempSmallBoardStatus;
      nextBoard := tempNextBoard;
      assert forall b, c :: 0 <= b < 9 && 0 <= c < 9 ==> board[b, c] == Cells(board)[b][c];
    }

    /** One turn of a search loop: play the move, search what it leads to, and put the saved
        board, statuses and next board back. */
    method TryMove(move: Move, depth: int, alpha: Score, beta: Score, isMaximizing: bool) returns (score: Score)
      requires Ready() && Free(Position(), move)
      modifies this`board, this`smallBoardStatus, this`nextBoard, board, smallBoardStatus
      ensures Ready() && Position() == old(Position())
      ensures board == old(board) || fresh(board)
      ensures smallBoardStatus == old(smallBoardStatus) || fresh(smallBoardStatus)
      ensures score == AlphaBeta(Play(old(Position()), move, Mover(isMaximizing)),
                                 depth - 1, alpha, beta, !isMaximizing)
      decreases Blanks(Position()), 0
    {
      ghost var s := Position();
      PlayFillsOneCell(s, move, Mover(isMaximizing));
      var tempBoard, tempSmallBoardStatus := Snapshot();
      var tempNextBoard := nextBoard;
      Place(move, Mover(isMaximizing));
      score := Minimax(depth - 1, alpha, beta, !isMaximizing);
      Restore(tempBoard, tempSmallBoardStatus, tempNextBoard, s);
    }

    /** Pruned search in place. It returns what AlphaBeta says of the position it started from,
        and leaves the position as it found it, though every ply overwrites it. */
    method Minimax(depth: int, alpha0: Score, beta0: Score, isMaximizing: bool) returns (score: Score)
      requires Ready()
      modifies this`board, this`smallBoardStatus, this`nextBoard, board, smallBoardStatus
      ensures Ready() && Position() == old(Position())
      ensures board == old(board) || fresh(board)
      ensures smallBoardStatus == old(smallBoardStatus) || fresh(smallBoardStatus)
      ensures score == AlphaBeta(old(Position()), depth, alpha0, beta0, isMaximizing)
      decreases Blanks(Position()), 2
    {
      if depth == 0 {
        var value := EvaluateBoard();
        return Fin(value);
      }
      var gameResult := CheckTerminalState();
      if gameResult != Blank {
        if gameResult == X {
          return Fin(-1000);
        }
        if gameResult == O {
          return Fin(1000);
        }
        return Fin(0);
      }
      if isMaximizing {
        score := Maximize(depth, alpha0, beta0);
      } else {
        score := Minimize(depth, alpha0, beta0);
      }
    }

    /** The branch of `minimax` for the agent. */
    method Maximize(depth: int, alpha0: Score, beta: Score) returns (maxScore: Score)
      requires Ready()
      modifies this`board, this`smallBoardStatus, this`nextBoard, board, smallBoardStatus
      ensures Ready() && Position() == old(Position())
      ensures board == old(board) || fresh(board)
      ensures smallBoardStatus == old(smallBoardStatus) || fresh(smallBoardStatus)
      ensures maxScore == ScanMax(old(Position()), ValidMoves(old(Position())), depth, alpha0, beta, NegInf)
      decreases Blanks(Position()), 1
    {
      ghost var s := Position();
      var alpha := alpha0;
      maxScore := NegInf;
      var validMoves := GetAllValidMoves();
      ghost var answer := ScanMax(s, validMoves, depth, alpha, beta, maxScore);
      for i := 0 to |validMoves|
        invariant Ready() && Position() == s
        invariant board == old(board) || fresh(board)
        invariant smallBoardStatus == old(smallBoardStatus) || fresh(smallBoardStatus)
        invariant answer == ScanMax(s, validMoves[i..], depth, alpha, beta, maxScore)
      {
        var score := TryMove(validMoves[i], depth, alpha, beta, true);
        assert validMoves[i..][1..] == validMoves[i + 1..];
        maxScore := Max(maxScore, score);
        alpha := Max(alpha, score);
        if Le(beta, alpha) {
          break;
        }
      }
    }

    /** The branch of `minimax` for the human. */
    method Minimize(depth: int, alpha: Score, beta0: Score) returns (minScore: Score)
      requires Ready()
      modifies this`board, this`smallBoardStatus, this`nextBoard, board, smallBoardStatus
      ensures Ready() && Position() == old(Position())
      ensures board == old(board) || fresh(board)
      ensures smallBoardStatus == old(smallBoardStatus) || fresh(smallBoardStatus)
      ensures minScore == ScanMin(old(Position()), ValidMoves(old(Position())), depth, alpha, beta0, PosInf)
      decreases Blanks(Position()), 1
    {
      ghost var s := Position();
      var beta := beta0;
      minScore := PosInf;
      var validMoves := GetAllValidMoves();
      ghost var answer := ScanMin(s, validMoves, depth, alpha, beta, minScore);
      for i := 0 to |validMoves|
        invariant Ready() && Position() == s
        invariant board == old(board) || fresh(board)
        invariant smallBoardStatus == old(smallBoardStatus) || fresh(smallBoardStatus)
        invariant answer == ScanMin(s, validMoves[i..], depth, alpha, beta, minScore)
      {
        var score := TryMove(validMoves[i], depth, alpha, beta, false);
        assert validMoves[i..][1..] == validMoves[i + 1..];
        minScore := Min(minScore, score);
        beta := Min(beta, score);
        if Le(beta, alpha) {
          break;
        }
      }
    }

    /** The full-window search of one listed move. */
    method ScoreMove(validMoves: seq<Move>, i: nat, depth: int) returns (score: Score)
      requires Ready() && Playable(Position(), validMoves) && i < |validMoves|
      modifies this`board, this`smallBoardStatus, this`nextBoard, board, smallBoardStatus
      ensures Ready() && Position() == old(Position())
      ensures board == old(board) || fresh(board)
      ensures smallBoardStatus == old(smallBoardStatus) || fresh(smallBoardStatus)
      ensures score == Worths(old(Position()), validMoves, depth)[i]
    {
      SearchFindsWorth(Position(), validMoves, i, depth);
      score := TryMove(validMoves[i], depth, NegInf, PosInf, true);
    }

    /** One turn of the agent's loop over the listed moves: score the i-th and keep the better of
        it and the best so far. */
    method ConsiderMove(validMoves: seq<Move>, i: nat, depth: int, bestScore: Score, bestMove: Option<Move>)
      returns (newScore: Score, newMove: Option<Move>)
      requires Ready() && Playable(Position(), validMoves) && i < |validMoves|
      modifies this`board, this`smallBoardStatus, this`nextBoard, this`gameStatus, board, smallBoardStatus
      ensures Ready() && Position() == old(Position()) && gameStatus == old(gameStatus)
      ensures board == old(board) || fresh(board)
      ensures smallBoardStatus == old(smallBoardStatus) || fresh(smallBoardStatus)
      ensures var score := Worths(old(Position()), validMoves, depth)[i];
              (newScore, newMove)
              == if Lt(bestScore, score) then (score, Some(validMoves[i])) else (bestScore, bestMove)
    {
      var tempGameStatus := gameStatus;
      var score := ScoreMove(validMoves, i, depth);
      gameStatus := tempGameStatus;
      if Lt(bestScore, score) {
        return score, Some(validMoves[i]);
      }
      return bestScore, bestMove;
    }

    /** The agent's loop over the listed moves. */
    method PickBest(validMoves: seq<Move>, depth: int, ghost w: seq<Score>) returns (bestMove: Option<Move>)
      requires Ready() && Playable(Position(), validMoves) && w == Worths(Position(), validMoves, depth)
      modifies this`board, this`smallBoardStatus, this`nextBoard, this`gameStatus, board, smallBoardStatus
      ensures Ready() && Position() == old(Position()) && gameStatus == old(gameStatus)
      ensures board == old(board) || fresh(board)
      ensures smallBoardStatus == old(smallBoardStatus) || fresh(smallBoardStatus)
      ensures bestMove == Leading(validMoves, w, |validMoves|)
    {
      ghost var s := Position();
      var bestScore := NegInf;
      bestMove := None;
      for i := 0 to |validMoves|
        invariant Ready() && Position() == s && gameStatus == old(gameStatus)
        invariant board == old(board) || fresh(board)
        invariant smallBoardStatus == old(smallBoardStatus) || fresh(smallBoardStatus)
        invariant bestScore == Leader(w, i).0 && bestMove == Leading(validMoves, w, i)
      {
        bestScore, bestMove := ConsiderMove(validMoves, i, depth, bestScore, bestMove);
      }
    }

    /** The agent's move. The search runs pruned, yet the move is the one Chosen picks by
        unpruned values; the position and the game status end as they began. */
    method GetBestMove(depth: int) returns (bestMove: Option<Move>)
      requires Ready()
      modifies this`board, this`smallBoardStatus, this`nextBoard, this`gameStatus, board, smallBoardStatus
      ensures Ready() && Position() == old(Position()) && gameStatus == old(gameStatus)
      ensures board == old(board) || fresh(board)
      ensures smallBoardStatus == old(smallBoardStatus) || fresh(smallBoardStatus)
      ensures bestMove == Chosen(old(Position()), depth)
    {
      var validMoves := GetAllValidMoves();
      bestMove := PickBest(validMoves, depth, Worths(Position(), validMoves, depth));
    }

    // ----- Play

    /** `setupInitialBoard` on page load. */
    constructor ()
      ensures Ready() && Game() == Opening()
      ensures fresh(board) && fresh(smallBoardStatus)
    {
      board := new Mark[9, 9]((b, c) => Blank);
      smallBoardStatus := new Mark[9](i => Blank);
      nextBoard, currentPlayer, gameStatus := -1, X, NotStarted;
      firstPlayer, difficulty, starter := X, 4, X;
      humanWins, agentWins, draws := 0, 0, 0;
      humanMoves, agentMoves := 0, 0;
      new;
      EmptyPosition();
    }

    lemma EmptyPosition()
      requires Ready() && nextBoard == -1
      requires forall b, c :: 0 <= b < 9 && 0 <= c < 9 ==> board[b, c] == Blank
      requires forall i :: 0 <= i < 9 ==> smallBoardStatus[i] == Blank
      ensures Position() == EmptyState()
    {
      forall b | 0 <= b < 9 ensures Row(board, b) == EmptyState().board[b] {
      }
      assert Position().board == EmptyState().board;
      assert Position().status == EmptyState().status;
    }

    /** Fresh, empty boards and a free choice of the first board. */
    method ClearBoards()
      modifies this`board, this`smallBoardStatus, this`nextBoard
      ensures Ready() && Position() == EmptyState()
      ensures fresh(board) && fresh(smallBoardStatus)
    {
      board := new Mark[9, 9]((b, c) => Blank);
      smallBoardStatus := new Mark[9](i => Blank);
      nextBoard := -1;
      EmptyPosition();
    }

    method InitGame()
      requires Ready()
      modifies this
      ensures Ready() && Game() == Started(old(Game()))
      ensures Position() == EmptyState() && gameStatus == Ongoing
      ensures currentPlayer == if old(firstPlayer) == X then X else O
      ensures fresh(board) && fresh(smallBoardStatus)
    {
      ClearBoards();
      gameStatus := Ongoing;
      humanMoves := 0;
      agentMoves := 0;
      if firstPlayer == X {
        currentPlayer := X;
      } else {
        currentPlayer := O;
      }
      starter := currentPlayer;
    }

    method CheckGameOver()
      requires Ready()
      modifies this`gameStatus, this`humanWins, this`agentWins, this`draws
      ensures Ready() && Game() == Judged(old(Game()))
    {
      ghost var status := smallBoardStatus[..];
      for i := 0 to LINE_COUNT
        invariant FirstOwner(status, 0) == FirstOwner(status, i)
        invariant Game() == old(Game())
      {
        var (a, b, c) := Line(i);
        if && smallBoardStatus[a] != Blank && smallBoardStatus[a] != Draw
           && smallBoardStatus[a] == smallBoardStatus[b] && smallBoardStatus[a] == smallBoardStatus[c] {
          gameStatus := Finished(smallBoardStatus[a]);
          if smallBoardStatus[a] == X {
            humanWins := humanWins + 1;
          } else {
            agentWins := agentWins + 1;
          }
          return;
        }
      }
      var full := true;
      for i := 0 to 9
        invariant full <==> Blank !in status[..i]
      {
        full := full && smallBoardStatus[i] != Blank;
        assert status[..i + 1] == status[..i] + [status[i]];
      }
      assert status[..9] == status;
      if full {
        gameStatus := Finished(Draw);
        draws := draws + 1;
      }
    }

    /** The move counters of `addRecentMove`. */
    method CountMove(player: Mark)
      requires Ready() && IsPlayer(player)
      modifies this`humanMoves, this`agentMoves
      ensures Ready() && Game() == old(Game()).(
                humanMoves := old(humanMoves) + (if player == X then 1 else 0),
                agentMoves := old(agentMoves) + (if player == O then 1 else 0))
    {
      if player == X {
        humanMoves := humanMoves + 1;
      } else {
        agentMoves := agentMoves + 1;
      }
    }

    method MakeMove(largeBoardIndex: nat, smallCellIndex: nat, player: Mark)
      requires Ready() && largeBoardIndex < 9 && smallCellIndex < 9 && IsPlayer(player)
      modifies this, board, smallBoardStatus
      ensures Ready() && board == old(board) && smallBoardStatus == old(smallBoardStatus)
      ensures Game() == Moved(old(Game()), Move(largeBoardIndex, smallCellIndex), player)
      ensures Follows(old(Position()), Move(largeBoardIndex, smallCellIndex), player)
    {
      ghost var s := Position();
      Place(Move(largeBoardIndex, smallCellIndex), player);
      PlayFollows(s, Move(largeBoardIndex, smallCellIndex), player);
      CountMove(player);
      CheckGameOver();
    }

    /** A move and, while the game goes on, the change of turn. */
    method TakeTurn(largeBoardIndex: nat, smallCellIndex: nat, player: Mark)
      requires Ready() && largeBoardIndex < 9 && smallCellIndex < 9 && IsPlayer(player)
      modifies this, board, smallBoardStatus
      ensures Ready() && board == old(board) && smallBoardStatus == old(smallBoardStatus)
      ensures Game() == TurnTaken(old(Game()), Move(largeBoardIndex, smallCellIndex), player)
      ensures Follows(old(Position()), Move(largeBoardIndex, smallCellIndex), player)
    {
      MakeMove(largeBoardIndex, smallCellIndex, player);
      if gameStatus == Ongoing {
        currentPlayer := Opponent(player);
      }
    }

    method HandleCellClick(largeBoardIndex: nat, smallCellIndex: nat)
      requires Ready() && largeBoardIndex < 9 && smallCellIndex < 9
      modifies this, board, smallBoardStatus
      ensures Ready() && board == old(board) && smallBoardStatus == old(smallBoardStatus)
      ensures Game() == Clicked(old(Game()), Move(largeBoardIndex, smallCellIndex))
      ensures var taken := old(gameStatus == Ongoing && currentPlayer == X && Accepts(largeBoardIndex, smallCellIndex));
              && (!taken ==> Game() == old(Game()))
              && (taken ==> Follows(old(Position()), Move(largeBoardIndex, smallCellIndex), X))
    {
      if gameStatus != Ongoing || currentPlayer != X {
        return;
      }
      var ok := IsValidMove(largeBoardIndex, smallCellIndex);
      if !ok {
        return;
      }
      TakeTurn(largeBoardIndex, smallCellIndex, X);
    }

    /** The queued agent callback. */
    method MakeAIMove()
      requires Ready()
      modifies this, board, smallBoardStatus
      ensures Ready() && Game() == AgentMoved(old(Game()))
      ensures old(Consistent(Position()) && TerminalResult(Position().status) == Blank) ==>
                PlayedBest(old(Position()), old(difficulty), Position())
      ensures board == old(board) || fresh(board)
      ensures smallBoardStatus == old(smallBoardStatus) || fresh(smallBoardStatus)
    {
      AgentPlaysBest(Game());
      var move := GetBestMove(difficulty);
      if move.Some? {
        TakeTurn(move.value.board, move.value.cell, O);
      }
    }
  }

  /** The score with one line added: the i-th line of s, whose values are given. */
  method AddLine(score: int, lineValues: seq<Mark>, weight: int, ghost s: seq<Mark>, ghost i: nat) returns (sum: int)
    requires |s| == 9 && i < LINE_COUNT && lineValues == [s[Line(i).0], s[Line(i).1], s[Line(i).2]]
    ensures sum == score + LineScore(s, i, weight)
  {
    var countO := CountIn(lineValues, O);
    var countX := CountIn(lineValues, X);
    assert countO == OnLine(s, i, O) && countX == OnLine(s, i, X);
    sum := score;
    if countO > 0 && countX == 0 {
      sum := score + countO * weight;
    } else if countX > 0 && countO == 0 {
      sum := score - countX * weight;
    }
  }

  /** `values.filter(v => v === p).length`. */
  method CountIn(values: seq<Mark>, p: Mark) returns (n: nat)
    ensures n == multiset(values)[p]
  {
    n := 0;
    for i := 0 to |values|
      invariant n == multiset(values[..i])[p]
    {
      assert values[..i + 1] == values[..i] + [values[i]];
      if values[i] == p {
        n := n + 1;
      }
    }
    assert values[..|values|] == values;
  }
}
