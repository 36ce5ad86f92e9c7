/** What one move keeps, and what the move generator lists. */
module Rules {
  import opened Board

  // ----- Three in a row, by the geometry of the board

  ghost predicate FullRow(s: seq<Mark>, p: Mark, r: nat)
    requires |s| == 9 && r < 3
  {
    s[3 * r] == p && s[3 * r + 1] == p && s[3 * r + 2] == p
  }

  ghost predicate FullColumn(s: seq<Mark>, p: Mark, c: nat)
    requires |s| == 9 && c < 3
  {
    s[c] == p && s[c + 3] == p && s[c + 6] == p
  }

  /** Player p has a row, a column or a diagonal. */
  ghost predicate ThreeInARow(s: seq<Mark>, p: Mark)
    requires |s| == 9
  {
    || (exists r :: 0 <= r < 3 && FullRow(s, p, r))
    || (exists c :: 0 <= c < 3 && FullColumn(s, p, c))
    || (s[0] == p && s[4] == p && s[8] == p)
    || (s[2] == p && s[4] == p && s[6] == p)
  }

  /** The winning lines are the rows, the columns and the diagonals. */
  lemma LinesAreRowsColumnsDiagonals(s: seq<Mark>, p: Mark)
    requires |s| == 9
    ensures HasLine(s, p) <==> ThreeInARow(s, p)
  {
    forall i | 0 <= i < LINE_COUNT && Owns(s, p, i) ensures ThreeInARow(s, p) {
      assert i < 3 ==> FullRow(s, p, i);
      assert 3 <= i < 6 ==> FullColumn(s, p, i - 3);
    }
    assert forall k :: 0 <= k < 3 && FullRow(s, p, k) ==> Owns(s, p, k);
    assert forall k :: 0 <= k < 3 && FullColumn(s, p, k) ==> Owns(s, p, k + 3);
    assert s[0] == p && s[4] == p && s[8] == p ==> Owns(s, p, 6);
    assert s[2] == p && s[4] == p && s[6] == p ==> Owns(s, p, 7);
  }

  ghost predicate OneWinner(s: seq<Mark>)
    requires |s| == 9
  {
    !(ThreeInARow(s, X) && ThreeInARow(s, O))
  }

  /** What nine cells, or nine statuses, come to: the mark of the player with three in a row, a draw
      when none is blank, and otherwise what it was before. */
  ghost function Verdict(s: seq<Mark>, before: Mark): Mark
    requires |s| == 9
  {
    if ThreeInARow(s, X) then X
    else if ThreeInARow(s, O) then O
    else if forall i :: 0 <= i < 9 ==> s[i] != Blank then Draw
    else before
  }

  /** The status that a board is left with. */
  lemma SmallResultIs(row: seq<Mark>, before: Mark)
    requires |row| == 9 && OneWinner(row)
    ensures SmallResult(row, before) == Verdict(row, before)
  {
    LinesAreRowsColumnsDiagonals(row, X);
    LinesAreRowsColumnsDiagonals(row, O);
    FirstOwnerIsLineHolder(row);
  }

  /** The result of a game. */
  lemma TerminalResultIs(status: seq<Mark>)
    requires |status| == 9 && OneWinner(status)
    ensures TerminalResult(status) == Verdict(status, Blank)
  {
    LinesAreRowsColumnsDiagonals(status, X);
    LinesAreRowsColumnsDiagonals(status, O);
    FirstOwnerIsLineHolder(status);
  }

  // ----- Statuses

  lemma FirstOwnerIsLineHolder(s: seq<Mark>)
    requires |s| == 9
    ensures FirstOwner(s, 0) == Blank <==> !HasLine(s, X) && !HasLine(s, O)
    ensures FirstOwner(s, 0) != Blank ==> IsPlayer(FirstOwner(s, 0)) && HasLine(s, FirstOwner(s, 0))
  {
    FirstOwnerFindsLine(s, 0);
  }

  /** Setting one cell to p gives the opponent no line. */
  lemma NoLineForOpponent(row: seq<Mark>, c: nat, p: Mark, q: Mark)
    requires |row| == 9 && c < 9 && p != q && !HasLine(row, q)
    ensures !HasLine(row[c := p], q)
  {
    if HasLine(row[c := p], q) {
      var i :| 0 <= i < LINE_COUNT && Owns(row[c := p], q, i);
      assert Owns(row, q, i);
    }
  }

  /** `checkSmallBoardWin` after a move on an open board restores agreement, and a line found
      is the mover's. */
  lemma SettledAfterMove(row: seq<Mark>, c: nat, p: Mark)
    requires |row| == 9 && c < 9 && IsPlayer(p)
    requires Settled(row, Blank)
    ensures Settled(row[c := p], SmallResult(row[c := p], Blank))
    ensures SmallResult(row[c := p], Blank) in {Blank, p, Draw}
  {
    NoLineForOpponent(row, c, p, Opponent(p));
    FirstOwnerIsLineHolder(row[c := p]);
  }

  /** A legal move keeps every cached status right and the forced board open. */
  lemma PlayKeepsConsistent(s: State, m: Move, p: Mark)
    requires Consistent(s) && Allowed(s, m) && IsPlayer(p)
    ensures Consistent(Play(s, m, p))
  {
    SettledAfterMove(s.board[m.board], m.cell, p);
  }

  /** Only the mover can complete a line of small boards. */
  lemma OnlyMoverWins(s: State, m: Move, p: Mark)
    requires Consistent(s) && Allowed(s, m) && IsPlayer(p)
    requires TerminalResult(s.status) == Blank
    ensures TerminalResult(Play(s, m, p).status) in {Blank, p, Draw}
  {
    SettledAfterMove(s.board[m.board], m.cell, p);
    FirstOwnerIsLineHolder(s.status);
    var mark := SmallResult(s.board[m.board][m.cell := p], Blank);
    NoLineForOpponent(s.status, m.board, mark, Opponent(p));
    FirstOwnerIsLineHolder(s.status[m.board := mark]);
  }

  /** After a legal move in a game that is not over, the opponent has no three boards in a row: the
      result is the verdict on the statuses. */
  lemma PlayedResult(s: State, m: Move, p: Mark)
    requires Consistent(s) && Allowed(s, m) && IsPlayer(p) && TerminalResult(s.status) == Blank
    ensures var status := Play(s, m, p).status;
            !ThreeInARow(status, Opponent(p)) && TerminalResult(status) == Verdict(status, Blank)
  {
    var t := Play(s, m, p);
    FirstOwnerIsLineHolder(s.status);
    SettledAfterMove(s.board[m.board], m.cell, p);
    NoLineForOpponent(s.status, m.board, t.status[m.board], Opponent(p));
    LinesAreRowsColumnsDiagonals(t.status, Opponent(p));
    TerminalResultIs(t.status);
  }

  // ----- One move

  /** The cells, the statuses and the reply a move allows, with nothing said of the next board:
      the one cell is the mover's; the status of its board is settled anew, and no other changes;
      the opponent may take any free cell of an open board, but of the board that the cell points
      to only, if that is open. */
  lemma PlayedMove(s: State, m: Move, p: Mark)
    requires Consistent(s) && Allowed(s, m) && IsPlayer(p)
    ensures var t := Play(s, m, p);
            && (forall b, c :: 0 <= b < 9 && 0 <= c < 9 ==>
                  t.board[b][c] == if b == m.board && c == m.cell then p else s.board[b][c])
            && (forall b :: 0 <= b < 9 && b != m.board ==> t.status[b] == s.status[b])
            && !ThreeInARow(t.board[m.board], Opponent(p))
            && t.status[m.board] == Verdict(t.board[m.board], Blank)
            && (forall q :: Allowed(t, q) <==> Reply(t, m, q))
  {
    NoLineForOpponent(s.board[m.board], m.cell, p, Opponent(p));
    LinesAreRowsColumnsDiagonals(Play(s, m, p).board[m.board], Opponent(p));
    SmallResultIs(Play(s, m, p).board[m.board], Blank);
    forall q ensures Allowed(Play(s, m, p), q) <==> Reply(Play(s, m, p), m, q) {
      RepliesTo(s, m, p, q);
    }
  }

  /** Move q, after m has been played, takes a free cell of an open board, where m points if that
      board is open. */
  predicate Reply(t: State, m: Move, q: Move)
    requires Shaped(t) && m.cell < 9
  {
    && q.board < 9 && q.cell < 9
    && t.board[q.board][q.cell] == Blank && t.status[q.board] == Blank
    && (t.status[m.cell] != Blank || q.board == m.cell)
  }

  lemma RepliesTo(s: State, m: Move, p: Mark, q: Move)
    requires Shaped(s) && m.board < 9 && m.cell < 9 && IsPlayer(p)
    ensures Allowed(Play(s, m, p), q) <==> Reply(Play(s, m, p), m, q)
  {
  }

  lemma EmptyStateIsConsistent()
    ensures Consistent(EmptyState()) && TerminalResult(EmptyState().status) == Blank
    ensures Blanks(EmptyState()) == 81
    ensures Count(EmptyState().board, X) == 0 && Count(EmptyState().board, O) == 0
  {
    EmptyRowIsOpen(EmptyRow());
    EmptyCounts();
  }

  /** The first move is free. */
  lemma FirstMoveIsFree(m: Move)
    ensures Allowed(EmptyState(), m) <==> m.board < 9 && m.cell < 9
  {
  }

  lemma EmptyRowIsOpen(row: seq<Mark>)
    requires |row| == 9 && forall i :: 0 <= i < 9 ==> row[i] == Blank
    ensures Settled(row, Blank) && TerminalResult(row) == Blank
  {
    FirstOwnerIsLineHolder(row);
    assert row[0] == Blank;
  }

  lemma EmptyCounts()
    ensures Blanks(EmptyState()) == 81
    ensures Count(EmptyState().board, X) == 0 && Count(EmptyState().board, O) == 0
  {
    BlankRow(9);
    RepeatedRow(9, Blank);
    RepeatedRow(9, X);
    RepeatedRow(9, O);
  }

  lemma {:induction false} BlankRow(n: nat)
    ensures multiset(seq(n, _ => Blank)) == multiset{}[Blank := n]
  {
    if n > 0 {
      BlankRow(n - 1);
      assert seq(n, _ => Blank) == seq(n - 1, _ => Blank) + [Blank];
    }
  }

  lemma {:induction false} RepeatedRow(n: nat, p: Mark)
    ensures Count(seq(n, _ => EmptyRow()), p) == n * multiset(EmptyRow())[p]
  {
    if n > 0 {
      RepeatedRow(n - 1, p);
      var board := seq(n, _ => EmptyRow());
      assert board[1..] == seq(n - 1, _ => EmptyRow());
    }
  }

  // ----- The move list

  lemma {:induction false} OpenBoardsComplete(s: State, n: nat, x: nat)
    requires Shaped(s) && n <= 9
    ensures x in OpenBoards(s, n) <==> x < n && s.status[x] == Blank
  {
    if n > 0 {
      OpenBoardsComplete(s, n - 1, x);
    }
  }

  lemma {:induction false} CellMovesComplete(s: State, b: nat, n: nat, m: Move)
    requires Shaped(s) && b < 9 && n <= 9
    ensures m in CellMoves(s, b, n) <==> m.board == b && m.cell < n && s.board[b][m.cell] == Blank
  {
    if n > 0 {
      CellMovesComplete(s, b, n - 1, m);
      var here := if s.board[b][n - 1] == Blank then [Move(b, n - 1)] else [];
      assert m in here <==> m == Move(b, n - 1) && s.board[b][n - 1] == Blank;
    }
  }

  lemma {:induction false} MovesOnComplete(s: State, boards: seq<nat>, n: nat, m: Move)
    requires Shaped(s) && n <= |boards| && forall i :: 0 <= i < |boards| ==> boards[i] < 9
    ensures m in MovesOn(s, boards, n) <==> m.board in boards[..n] && Free(s, m)
  {
    if n > 0 {
      var before, here := MovesOn(s, boards, n - 1), CellMoves(s, boards[n - 1], 9);
      assert m in here <==> m.board == boards[n - 1] && Free(s, m) by {
        CellMovesComplete(s, boards[n - 1], 9, m);
      }
      MovesOnComplete(s, boards, n - 1, m);
      assert MovesOn(s, boards, n) == before + here;
      assert boards[..n] == boards[..n - 1] + [boards[n - 1]];
    }
  }

  /** In every position that occurs in play the generated list is exactly the set of moves
      the click handler accepts. */
  lemma MoveListMatchesValidation(s: State, m: Move)
    requires Shaped(s) && (s.next == -1 || s.status[s.next] == Blank)
    ensures m in ValidMoves(s) <==> Allowed(s, m)
  {
    var boards := BoardsToCheck(s);
    MovesOnComplete(s, boards, |boards|, m);
    assert boards[..|boards|] == boards;
    OpenBoardsComplete(s, 9, m.board);
  }

  /** A free cell of an open board, whatever the forced board. */
  predicate IsOpenCell(s: State, m: Move)
    requires Shaped(s)
  {
    Free(s, m) && s.status[m.board] == Blank
  }

  /** The two disagree exactly when the forced board is closed and some open board has a free
      cell: the generator then offers every open board, the click handler none. */
  lemma MoveListMatchesValidationExactly(s: State)
    requires Shaped(s)
    ensures (forall m :: m in ValidMoves(s) <==> Allowed(s, m))
       <==> s.next == -1 || s.status[s.next] == Blank || !exists m :: IsOpenCell(s, m)
  {
    if s.next == -1 || s.status[s.next] == Blank {
      forall m ensures m in ValidMoves(s) <==> Allowed(s, m) {
        MoveListMatchesValidation(s, m);
      }
    } else {
      forall m ensures !Allowed(s, m) && (m in ValidMoves(s) <==> IsOpenCell(s, m)) {
        ClosedForcedBoardListsAll(s, m);
      }
    }
  }

  lemma ClosedForcedBoardListsAll(s: State, m: Move)
    requires Shaped(s) && s.next != -1 && s.status[s.next] != Blank
    ensures m in ValidMoves(s) <==> IsOpenCell(s, m)
  {
    var boards := BoardsToCheck(s);
    MovesOnComplete(s, boards, |boards|, m);
    assert boards[..|boards|] == boards;
    OpenBoardsComplete(s, 9, m.board);
  }

  /** Moves are listed by board and then by cell, so no move is listed twice. */
  ghost predicate Ordered(moves: seq<Move>) {
    forall i, j :: 0 <= i < j < |moves| ==> Rank(moves[i]) < Rank(moves[j])
  }

  function Rank(m: Move): nat {
    9 * m.board + m.cell
  }

  lemma {:induction false} CellMovesOrdered(s: State, b: nat, n: nat)
    requires Shaped(s) && b < 9 && n <= 9
    ensures Ordered(CellMoves(s, b, n))
  {
    if n > 0 {
      CellMovesOrdered(s, b, n - 1);
    }
  }

  lemma {:induction false} MovesOnOrdered(s: State, boards: seq<nat>, n: nat)
    requires Shaped(s) && n <= |boards| && forall i :: 0 <= i < |boards| ==> boards[i] < 9
    requires forall i, j :: 0 <= i < j < |boards| ==> boards[i] < boards[j]
    ensures Ordered(MovesOn(s, boards, n))
  {
    if n > 0 {
      CellMovesOrdered(s, boards[n - 1], 9);
      MovesOnOrdered(s, boards, n - 1);
      var before, here := MovesOn(s, boards, n - 1), CellMoves(s, boards[n - 1], 9);
      forall i, j | 0 <= i < |before| && 0 <= j < |here| ensures Rank(before[i]) < Rank(here[j]) {
        assert before[i] in before;
        MovesOnComplete(s, boards, n - 1, before[i]);
      }
    }
  }

  lemma {:induction false} OpenBoardsOrdered(s: State, n: nat)
    requires Shaped(s) && n <= 9
    ensures forall i, j :: 0 <= i < j < |OpenBoards(s, n)| ==> OpenBoards(s, n)[i] < OpenBoards(s, n)[j]
  {
    if n > 0 {
      OpenBoardsOrdered(s, n - 1);
    }
  }

  lemma ValidMovesOrdered(s: State)
    requires Shaped(s)
    ensures Ordered(ValidMoves(s))
  {
    OpenBoardsOrdered(s, 9);
    MovesOnOrdered(s, BoardsToCheck(s), |BoardsToCheck(s)|);
  }

  /** An open position always has a move. */
  lemma NeverStuck(s: State)
    requires Consistent(s) && TerminalResult(s.status) == Blank
    ensures ValidMoves(s) != []
  {
    var b := OpenBoard(s);
    if s.next != -1 {
      b := s.next;
    }
    assert Settled(s.board[b], s.status[b]);
    var c :| 0 <= c < 9 && s.board[b][c] == Blank;
    MoveListMatchesValidation(s, Move(b, c));
  }

  lemma OpenBoard(s: State) returns (b: nat)
    requires Shaped(s) && TerminalResult(s.status) == Blank
    ensures b < 9 && s.status[b] == Blank
  {
    FirstOwnerIsLineHolder(s.status);
    b :| b < 9 && s.status[b] == Blank;
  }
}
