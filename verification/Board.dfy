/** The two-level board of www/static/main.js as immutable values: nine small boards of nine
    cells, the cached status of each small board, and the board the next move is sent to. */
module Board {

  /** The strings '', 'X', 'O' and 'D' that the program stores in cells and statuses. */
  datatype Mark = Blank | X | O | Draw

  datatype Move = Move(board: nat, cell: nat)

  /** `next` is -1 when the player may choose any open board. */
  datatype State = State(board: seq<seq<Mark>>, status: seq<Mark>, next: int)

  predicate IsPlayer(p: Mark) {
    p == X || p == O
  }

  function Opponent(p: Mark): Mark {
    if p == X then O else if p == O then X else p
  }

  // ----- Lines

  const LINE_COUNT := 8

  /** The i-th entry of `winningLines`. */
  function Line(i: nat): (line: (nat, nat, nat))
    requires i < LINE_COUNT
    ensures line.0 < line.1 < line.2 < 9
  {
    if i == 0 then (0, 1, 2) else if i == 1 then (3, 4, 5) else if i == 2 then (6, 7, 8)
    else if i == 3 then (0, 3, 6) else if i == 4 then (1, 4, 7) else if i == 5 then (2, 5, 8)
    else if i == 6 then (0, 4, 8) else (2, 4, 6)
  }

  /** Player p holds the whole i-th line of s. */
  predicate Owns(s: seq<Mark>, p: Mark, i: nat)
    requires |s| == 9 && i < LINE_COUNT
  {
    s[Line(i).0] == p && s[Line(i).1] == p && s[Line(i).2] == p
  }

  predicate HasLine(s: seq<Mark>, p: Mark)
    requires |s| == 9
  {
    exists i :: 0 <= i < LINE_COUNT && Owns(s, p, i)
  }

  /** The owner of the first complete line from the i-th on, Blank when there is none. */
  function FirstOwner(s: seq<Mark>, i: nat): (owner: Mark)
    requires |s| == 9 && i <= LINE_COUNT
    decreases LINE_COUNT - i, s
  {
    if i == LINE_COUNT then Blank
    else if IsPlayer(s[Line(i).0]) && Owns(s, s[Line(i).0], i) then s[Line(i).0]
    else FirstOwner(s, i + 1)
  }

  /** A complete line is found exactly when a player has one, and the owner found has one. */
  lemma {:induction false} FirstOwnerFindsLine(s: seq<Mark>, i: nat)
    requires |s| == 9 && i <= LINE_COUNT
    ensures FirstOwner(s, i) in {Blank, X, O}
    ensures FirstOwner(s, i) == Blank
       <==> forall k, p :: i <= k < LINE_COUNT && IsPlayer(p) ==> !Owns(s, p, k)
    ensures FirstOwner(s, i) != Blank
        ==> exists k :: i <= k < LINE_COUNT && Owns(s, FirstOwner(s, i), k)
    decreases LINE_COUNT - i, s
  {
    if i < LINE_COUNT {
      FirstOwnerFindsLine(s, i + 1);
      if IsPlayer(s[Line(i).0]) && Owns(s, s[Line(i).0], i) {
        assert Owns(s, FirstOwner(s, i), i);
      } else {
        assert forall p :: IsPlayer(p) ==> !Owns(s, p, i);
        assert FirstOwner(s, i) == FirstOwner(s, i + 1);
      }
    }
  }

  // ----- Statuses

  /** What `checkSmallBoardWin` leaves as the status of a small board. */
  function SmallResult(row: seq<Mark>, before: Mark): Mark
    requires |row| == 9
  {
    if FirstOwner(row, 0) != Blank then FirstOwner(row, 0)
    else if Blank !in row then Draw
    else before
  }

  /** What `checkTerminalState` returns, with Blank for null. */
  function TerminalResult(status: seq<Mark>): Mark
    requires |status| == 9
  {
    if FirstOwner(status, 0) != Blank then FirstOwner(status, 0)
    else if Blank !in status then Draw
    else Blank
  }

  /** The status a small board ought to have, said without any search order. */
  ghost predicate Settled(row: seq<Mark>, status: Mark)
    requires |row| == 9
  {
    && (status == X <==> HasLine(row, X))
    && (status == O <==> HasLine(row, O))
    && (status == Draw <==> Blank !in row && !HasLine(row, X) && !HasLine(row, O))
  }

  // ----- States

  ghost predicate Shaped(s: State) {
    && |s.board| == 9 && |s.status| == 9 && -1 <= s.next < 9
    && (forall b :: 0 <= b < 9 ==> |s.board[b]| == 9)
    && (forall b, c :: 0 <= b < 9 && 0 <= c < 9 ==> s.board[b][c] != Draw)
  }

  /** What every run keeps: the cached statuses agree with the cells, and the board the next
      move is sent to, if any, is open. */
  ghost predicate Consistent(s: State) {
    && Shaped(s)
    && (forall b :: 0 <= b < 9 ==> Settled(s.board[b], s.status[b]))
    && (s.next == -1 || s.status[s.next] == Blank)
  }

  function EmptyRow(): seq<Mark> {
    seq(9, _ => Blank)
  }

  function EmptyState(): State {
    State(seq(9, _ => EmptyRow()), EmptyRow(), -1)
  }

  /** The position after player p takes cell m: cell, cached status and next board. */
  function Play(s: State, m: Move, p: Mark): (t: State)
    requires Shaped(s) && m.board < 9 && m.cell < 9 && IsPlayer(p)
    ensures Shaped(t)
  {
    var row := s.board[m.board][m.cell := p];
    var status := s.status[m.board := SmallResult(row, s.status[m.board])];
    State(s.board[m.board := row], status, if status[m.cell] != Blank then -1 else m.cell)
  }

  // ----- Moves

  /** The test of `isValidMove`, the game status aside. */
  predicate Allowed(s: State, m: Move)
    requires Shaped(s)
  {
    && m.board < 9 && m.cell < 9
    && s.board[m.board][m.cell] == Blank
    && s.status[m.board] == Blank
    && (s.next == -1 || s.next == m.board)
  }

  /** The open boards among the first n, in order. */
  function OpenBoards(s: State, n: nat): (boards: seq<nat>)
    requires Shaped(s) && n <= 9
    ensures forall i :: 0 <= i < |boards| ==> boards[i] < n
  {
    if n == 0 then []
    else OpenBoards(s, n - 1) + (if s.status[n - 1] == Blank then [n - 1] else [])
  }

  function BoardsToCheck(s: State): (boards: seq<nat>)
    requires Shaped(s)
    ensures forall i :: 0 <= i < |boards| ==> boards[i] < 9
  {
    if s.next == -1 || s.status[s.next] != Blank then OpenBoards(s, 9) else [s.next]
  }

  /** The free cells among the first n of small board b, in order. */
  function CellMoves(s: State, b: nat, n: nat): (moves: seq<Move>)
    requires Shaped(s) && b < 9 && n <= 9
    ensures forall i :: 0 <= i < |moves| ==>
              moves[i].board == b && moves[i].cell < n && s.board[b][moves[i].cell] == Blank
  {
    if n == 0 then []
    else CellMoves(s, b, n - 1) + (if s.board[b][n - 1] == Blank then [Move(b, n - 1)] else [])
  }

  /** The free cells of the first n of the given boards. */
  function MovesOn(s: State, boards: seq<nat>, n: nat): (moves: seq<Move>)
    requires Shaped(s) && n <= |boards| && forall i :: 0 <= i < |boards| ==> boards[i] < 9
    ensures forall i :: 0 <= i < |moves| ==> Free(s, moves[i])
  {
    if n == 0 then [] else MovesOn(s, boards, n - 1) + CellMoves(s, boards[n - 1], 9)
  }

  predicate Free(s: State, m: Move)
    requires Shaped(s)
  {
    m.board < 9 && m.cell < 9 && s.board[m.board][m.cell] == Blank
  }

  /** The list `getAllValidMoves` builds. */
  function ValidMoves(s: State): (moves: seq<Move>)
    requires Shaped(s)
    ensures forall i :: 0 <= i < |moves| ==> Free(s, moves[i])
  {
    MovesOn(s, BoardsToCheck(s), |BoardsToCheck(s)|)
  }

  // ----- Counting cells

  /** How many cells hold mark p. */
  function Count(board: seq<seq<Mark>>, p: Mark): nat {
    if board == [] then 0 else multiset(board[0])[p] + Count(board[1..], p)
  }

  function Blanks(s: State): nat {
    Count(s.board, Blank)
  }

  lemma {:induction false} CountAfterUpdate(board: seq<seq<Mark>>, b: nat, c: nat, p: Mark, q: Mark)
    requires b < |board| && c < |board[b]| && board[b][c] == Blank && p != Blank
    ensures Count(board[b := board[b][c := p]], q)
         == Count(board, q) + (if q == p then 1 else 0) - (if q == Blank then 1 else 0)
  {
    var after := board[b := board[b][c := p]];
    if b == 0 {
      assert after[1..] == board[1..];
    } else {
      assert after[1..] == board[1..][b - 1 := board[1..][b - 1][c := p]];
      CountAfterUpdate(board[1..], b - 1, c, p, q);
    }
  }

  lemma PlayFillsOneCell(s: State, m: Move, p: Mark)
    requires Shaped(s) && Free(s, m) && IsPlayer(p)
    ensures Blanks(Play(s, m, p)) == Blanks(s) - 1
    ensures Count(Play(s, m, p).board, p) == Count(s.board, p) + 1
    ensures Count(Play(s, m, p).board, Opponent(p)) == Count(s.board, Opponent(p))
  {
    CountAfterUpdate(s.board, m.board, m.cell, p, Blank);
    CountAfterUpdate(s.board, m.board, m.cell, p, p);
    CountAfterUpdate(s.board, m.board, m.cell, p, Opponent(p));
  }
}
