/** What the agent of depth 2, the easy one, chooses where it has to play in one board: the two marks
    that follow, one in that board and one in the board it sends X to, decide. */
module EasyAgent {
  import opened Board
  import opened Rules
  import opened Evaluation
  import opened Heuristic
  import opened Choice
  import opened Horizon
  import opened Wrappers

  // ----- Rows that stay open

  /** A mark of p in cell c of an open row makes no line when no line through c has two already. */
  lemma StaysOpen(row: seq<Mark>, c: nat, p: Mark, free: nat)
    requires |row| == 9 && c < 9 && free < 9 && free != c && row[free] == Blank && row[c] == Blank
    requires Settled(row, Blank) && IsPlayer(p) && !Threat(row, c, p)
    ensures SmallResult(row[c := p], Blank) == Blank
  {
    var after := row[c := p];
    SettledAfterMove(row, c, p);
    assert after[free] == Blank;
    forall i | 0 <= i < LINE_COUNT ensures !Owns(after, p, i) {
      assert OnTheLine(i, c) ==> OnLine(row, i, p) != 2;
      assert !Owns(row, p, i);
    }
  }

  /** A line completed closes the board. */
  lemma Closes(row: seq<Mark>, c: nat, p: Mark, i: nat)
    requires |row| == 9 && c < 9 && IsPlayer(p) && Settled(row, Blank)
    requires i < LINE_COUNT && Owns(row[c := p], p, i)
    ensures SmallResult(row[c := p], Blank) == p
  {
    SettledAfterMove(row, c, p);
    assert HasLine(row[c := p], p);
  }

  /** No line has two marks of p. */
  predicate Scattered(row: seq<Mark>, p: Mark)
    requires |row| == 9
  {
    forall i :: 0 <= i < LINE_COUNT ==> OnLine(row, i, p) <= 1
  }

  lemma ScatteredIsOpen(row: seq<Mark>, free: nat)
    requires |row| == 9 && Scattered(row, X) && Scattered(row, O) && free < 9 && row[free] == Blank
    ensures Settled(row, Blank)
  {
    forall i, p | 0 <= i < LINE_COUNT && IsPlayer(p) ensures !Owns(row, p, i) {
      assert OnLine(row, i, p) <= 1;
    }
  }

  /** A line with two marks of p has one of the other player too. */
  predicate Contested(row: seq<Mark>, p: Mark)
    requires |row| == 9 && IsPlayer(p)
  {
    forall i :: 0 <= i < LINE_COUNT ==> OnLine(row, i, p) <= 1 || OnLine(row, i, Opponent(p)) > 0
  }

  predicate NoThreats(row: seq<Mark>, p: Mark)
    requires |row| == 9
  {
    forall k :: 0 <= k < 9 && row[k] == Blank ==> !Threat(row, k, p)
  }

  lemma ContestedIsSafe(row: seq<Mark>)
    requires |row| == 9 && Contested(row, X)
    ensures NoThreats(row, X)
  {
  }

  function LinesAt(c: nat): int {
    if c == 4 then 4 else if c % 2 == 0 then 3 else 2
  }

  lemma LiveAtMost(row: seq<Mark>)
    requires |row| == 9
    ensures forall c :: 0 <= c < 9 ==> LiveThrough(row, c, LINE_COUNT) <= LinesAt(c)
  {
    forall c | 0 <= c < 9 ensures LiveThrough(row, c, LINE_COUNT) <= LinesAt(c) {
      LinesThroughCell(c);
      LiveThroughAtMost(row, c, LINE_COUNT);
    }
  }

  lemma AllLive(row: seq<Mark>, c: nat)
    requires |row| == 9 && c < 9
    requires forall i :: 0 <= i < LINE_COUNT && OnTheLine(i, c) ==> Live(row, i)
    ensures LiveThrough(row, c, LINE_COUNT) == LinesAt(c)
  {
    LinesThroughCell(c);
    LiveThroughAtMost(row, c, LINE_COUNT);
  }

  lemma {:induction false} SomeDead(row: seq<Mark>, c: nat, n: nat, i: nat)
    requires |row| == 9 && n <= LINE_COUNT && i < n && OnTheLine(i, c) && !Live(row, i)
    ensures LiveThrough(row, c, n) < Through(c, n)
  {
    LiveThroughAtMost(row, c, n - 1);
    if i < n - 1 {
      SomeDead(row, c, n - 1, i);
    }
  }

  /** Every answer in the target leaves it open and takes at most k from its tally. */
  ghost predicate Gentle(row: seq<Mark>, k: nat)
    requires |row| == 9
  {
    forall x :: 0 <= x < 9 && row[x] == Blank ==>
      SmallResult(row[x := X], Blank) == Blank && Tally(row[x := X]) >= Tally(row) - k
  }

  lemma ScatteredIsGentle(row: seq<Mark>, k: nat, a: nat, b: nat)
    requires |row| == 9 && Scattered(row, X) && Scattered(row, O)
    requires a < b < 9 && row[a] == Blank && row[b] == Blank
    requires forall x :: 0 <= x < 9 && row[x] == Blank ==> LiveThrough(row, x, LINE_COUNT) <= k
    ensures Gentle(row, k)
  {
    ScatteredIsOpen(row, a);
    forall x | 0 <= x < 9 && row[x] == Blank
      ensures SmallResult(row[x := X], Blank) == Blank && Tally(row[x := X]) >= Tally(row) - k
    {
      TallyMarked(row, x, X);
      StaysOpen(row, x, X, if x == a then b else a);
    }
  }

  // ----- A move into an open board

  /** The position after a move that leaves all boards open, into an open board. */
  function Put(s: State, m: Move, p: Mark): State
    requires m.board < |s.board| && m.cell < |s.board[m.board]|
  {
    State(s.board[m.board := s.board[m.board][m.cell := p]], s.status, m.cell)
  }

  lemma QuietPlay(s: State, m: Move, p: Mark)
    requires Shaped(s) && Free(s, m) && IsPlayer(p) && Quiet(s, m, p) && s.status[m.cell] == Blank
    ensures Play(s, m, p) == Put(s, m, p)
  {
    EvaluateAfterQuiet(s, m, p);
  }

  /** The row in which X answers move m. */
  function Target(s: State, m: Move): (row: seq<Mark>)
    requires Shaped(s) && m.board < 9 && m.cell < 9
    ensures |row| == 9
  {
    Put(s, m, O).board[m.cell]
  }

  /** The agent has to play in board b, and can do so without closing it. */
  ghost predicate OpenMove(s: State, m: Move) {
    && Consistent(s) && s.next == m.board && m.cell < 9 && m.board < 9
    && s.board[m.board][m.cell] == Blank && s.status[m.board] == Blank && s.status[m.cell] == Blank
    && SmallResult(s.board[m.board][m.cell := O], Blank) == Blank
  }

  lemma OpenMoveIs(s: State, m: Move)
    requires OpenMove(s, m)
    ensures Allowed(s, m) && Quiet(s, m, O) && Play(s, m, O) == Put(s, m, O)
    ensures ResultOf(s, m) == TerminalResult(s.status)
    ensures Evaluate(Put(s, m, O))
         == Evaluate(s) + 10 * (Tally(s.board[m.board][m.cell := O]) - Tally(s.board[m.board]))
  {
    EvaluateAfterQuiet(s, m, O);
    QuietPlay(s, m, O);
  }

  /** X answers in cell x, where n live lines run through. */
  lemma Answered(s: State, m: Move, x: nat, n: nat, v: int)
    requires OpenMove(s, m) && !Threat(s.board[m.board], m.cell, X)
    requires x < 9 && Target(s, m)[x] == Blank && SmallResult(Target(s, m)[x := X], Blank) == Blank
    requires Tally(Target(s, m)[x := X]) <= Tally(Target(s, m)) - n
    requires Evaluate(s) + 10 * (Through(m.cell, LINE_COUNT) - n) <= v
    ensures Refuted(s, m, v)
  {
    var t := Put(s, m, O);
    OpenMoveIs(s, m);
    TallyMarked(s.board[m.board], m.cell, O);
    LiveThroughAtMost(s.board[m.board], m.cell, LINE_COUNT);
    EvaluateAfterQuiet(t, Move(m.cell, x), X);
    assert Allowed(t, Move(m.cell, x));
  }

  /** X has the board to itself, with no two marks in line, and the centre is free. */
  predicate Bare(row: seq<Mark>) {
    |row| == 9 && O !in row && row[4] == Blank && row[8] == Blank && Scattered(row, X)
  }

  /** In such a board X answers in the centre. */
  lemma AnsweredAtCentre(s: State, m: Move, v: int)
    requires OpenMove(s, m) && !Threat(s.board[m.board], m.cell, X)
    requires m.cell != m.board && Bare(s.board[m.cell])
    requires Evaluate(s) + 10 * (Through(m.cell, LINE_COUNT) - 4) <= v
    ensures Refuted(s, m, v)
  {
    var row := s.board[m.cell];
    assert Settled(row, s.status[m.cell]);
    assert forall i :: 0 <= i < LINE_COUNT ==> Live(row, i);
    TallyMarked(row, 4, X);
    LiveThroughAtMost(row, 4, LINE_COUNT);
    LinesThroughCell(4);
    StaysOpen(row, 4, X, 8);
    Answered(s, m, 4, 4, v);
  }

  lemma Held(s: State, m: Move, n: nat, k: nat)
    requires OpenMove(s, m) && Gentle(Target(s, m), k)
    requires LiveThrough(s.board[m.board], m.cell, LINE_COUNT) >= n
    ensures !Refuted(s, m, Evaluate(s) + 10 * (n - k) - 1)
  {
    var t := Put(s, m, O);
    OpenMoveIs(s, m);
    TallyMarked(s.board[m.board], m.cell, O);
    forall x | Allowed(t, x) ensures Evaluate(Play(t, x, X)) >= Evaluate(s) + 10 * (n - k) {
      EvaluateAfterQuiet(t, x, X);
    }
  }

  // ----- A forced board

  ghost predicate GoesOn(s: State) {
    Consistent(s) && TerminalResult(s.status) == Blank
  }

  /** Every free cell of the board to play in, except perhaps c, takes a mark of O without closing
      the board. */
  ghost predicate OthersOpen(s: State, c: nat) {
    && GoesOn(s) && 0 <= s.next < 9
    && forall k :: 0 <= k < 9 && k != c && s.board[s.next][k] == Blank ==> OpenMove(s, Move(s.next, k))
  }

  lemma SafeIsOpen(s: State, a: nat, b: nat, c: nat)
    requires GoesOn(s) && 0 <= s.next < 9
    requires a < b < 9 && s.board[s.next][a] == Blank && s.board[s.next][b] == Blank
    requires forall k :: 0 <= k < 9 && s.board[s.next][k] == Blank && k != c ==>
               s.status[k] == Blank && !Threat(s.board[s.next], k, O)
    ensures OthersOpen(s, c)
  {
    forall k | 0 <= k < 9 && k != c && s.board[s.next][k] == Blank ensures OpenMove(s, Move(s.next, k)) {
      StaysOpen(s.board[s.next], k, O, if k == a then b else a);
    }
  }

  /** The free cells of the board to play in, but for cell c and a special one, send X into a
      bare board, where the centre takes at least as much as d more than the move brings, and more
      than that before c. */
  predicate OthersPlain(s: State, c: nat, d: int, special: nat)
    requires Shaped(s) && 0 <= s.next < 9
  {
    forall k :: 0 <= k < 9 && k != c && s.board[s.next][k] == Blank && k != special ==>
      k != s.next && Bare(s.board[k]) && LinesAt(k) - 4 <= if k < c then d - 1 else d
  }

  /** X can hold every move but cell c to d, and those before it to less. */
  ghost predicate OthersHeld(s: State, c: nat, d: int)
    requires Shaped(s) && 0 <= s.next
  {
    forall q :: Allowed(s, q) && q != Move(s.next, c) ==>
      && q.board == s.next && ResultOf(s, q) == Blank
      && Refuted(s, q, Evaluate(s) + 10 * d - if q.cell < c then 1 else 0)
  }

  lemma PlainOthersHeld(s: State, c: nat, d: int, special: nat)
    requires OthersOpen(s, c) && NoThreats(s.board[s.next], X) && OthersPlain(s, c, d, special)
    requires special < 9 ==> OpenMove(s, Move(s.next, special))
    requires special < 9 ==> Refuted(s, Move(s.next, special), Evaluate(s) + 10 * d - if special < c then 1 else 0)
    ensures OthersHeld(s, c, d)
  {
    forall q | Allowed(s, q) && q != Move(s.next, c)
      ensures q.board == s.next && ResultOf(s, q) == Blank
      ensures Refuted(s, q, Evaluate(s) + 10 * d - if q.cell < c then 1 else 0)
    {
      OpenMoveIs(s, q);
      LinesThroughCell(q.cell);
      if q.cell != special {
        AnsweredAtCentre(s, q, Evaluate(s) + 10 * d - if q.cell < c then 1 else 0);
      }
    }
  }

  /** Cell c is chosen when X cannot hold it to less than d, and can hold the others. */
  lemma ChosenAmong(s: State, c: nat, d: int)
    requires GoesOn(s) && 0 <= s.next && Allowed(s, Move(s.next, c)) && ResultOf(s, Move(s.next, c)) == Blank
    requires !Refuted(s, Move(s.next, c), Evaluate(s) + 10 * d - 1)
    requires OthersHeld(s, c, d)
    ensures Chosen(s, 2) == Some(Move(s.next, c))
  {
    PreferredIsChosen(s, Move(s.next, c), Evaluate(s) + 10 * d);
  }

  /** A row in which no mark of O closes the board. */
  predicate Early(row: seq<Mark>) {
    |row| == 9 && row[0] == Blank && row[1] == Blank && Scattered(row, O) && Contested(row, X)
  }

  lemma EarlyIsOpen(s: State, c: nat)
    requires GoesOn(s) && 0 <= s.next < 9 && Early(s.board[s.next]) && c < 9 && s.board[s.next][c] == Blank
    requires s.status == EmptyRow()
    ensures OthersOpen(s, c) && OpenMove(s, Move(s.next, c)) && NoThreats(s.board[s.next], X)
  {
    SafeIsOpen(s, 0, 1, 9);
    ContestedIsSafe(s.board[s.next]);
  }

  /** In an early row cell c, with n live lines through it, sends X where an answer takes at most k,
      and X can hold the other moves. */
  ghost predicate EarlyChoice(s: State, c: nat, n: nat, k: nat, special: nat) {
    && GoesOn(s) && 0 <= s.next < 9 && s.status == EmptyRow()
    && Early(s.board[s.next]) && c < 9 && s.board[s.next][c] == Blank
    && LiveThrough(s.board[s.next], c, LINE_COUNT) >= n && Gentle(Target(s, Move(s.next, c)), k)
    && OthersPlain(s, c, n - k, special)
    && (special < 9 ==>
          special != c && s.board[s.next][special] == Blank
          && Refuted(s, Move(s.next, special), Evaluate(s) + 10 * (n - k) - if special < c then 1 else 0))
  }

  lemma EarlyHeld(s: State, c: nat, n: nat, k: nat, special: nat)
    requires EarlyChoice(s, c, n, k, special)
    ensures Allowed(s, Move(s.next, c)) && ResultOf(s, Move(s.next, c)) == Blank
    ensures !Refuted(s, Move(s.next, c), Evaluate(s) + 10 * (n - k) - 1)
  {
    EarlyIsOpen(s, c);
    OpenMoveIs(s, Move(s.next, c));
    Held(s, Move(s.next, c), n, k);
  }

  lemma EarlyOthersHeld(s: State, c: nat, n: nat, k: nat, special: nat)
    requires EarlyChoice(s, c, n, k, special)
    ensures OthersHeld(s, c, n - k)
  {
    EarlyIsOpen(s, c);
    PlainOthersHeld(s, c, n - k, special);
  }

  /** Such a cell is chosen. */
  lemma ChosenEarly(s: State, c: nat, n: nat, k: nat, special: nat)
    requires EarlyChoice(s, c, n, k, special)
    ensures Chosen(s, 2) == Some(Move(s.next, c))
  {
    EarlyHeld(s, c, n, k, special);
    EarlyOthersHeld(s, c, n, k, special);
    ChosenAmong(s, c, n - k);
  }
}
