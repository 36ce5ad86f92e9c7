/** A game against the easy agent in which it has a win at once and declines it. The human begins;
    every move of the agent is the one that `getBestMove` chooses at depth 2. */
module DeclinedWin {
  import opened Board
  import opened Rules
  import opened Evaluation
  import opened Heuristic
  import opened Choice
  import opened Horizon
  import opened EasyAgent
  import opened Wrappers
  import Sessions

  // ----- Reached positions

  predicate Waiting(s: Sessions.Session, p: State) {
    s.pos == p && Sessions.AgentPending(s) && s.difficulty == 2
  }

  /** A run from page load leads to p, with the easy agent to move. */
  ghost predicate Reached(p: State) {
    exists run :: Sessions.IsRun(Sessions.Opening(), run) && Waiting(Sessions.After(Sessions.Opening(), run), p)
  }

  lemma {:induction false} RunExtends(s: Sessions.Session, run: seq<Sessions.Event>, e: Sessions.Event)
    requires Shaped(s.pos) && Sessions.IsRun(s, run) && Sessions.Enabled(Sessions.After(s, run), e)
    ensures Sessions.IsRun(s, run + [e])
    ensures Sessions.After(s, run + [e]) == Sessions.Step(Sessions.After(s, run), e)
    decreases |run|
  {
    if run == [] {
      assert (run + [e])[1..] == [];
    } else {
      assert (run + [e])[1..] == run[1..] + [e];
      RunExtends(Sessions.Step(s, run[0]), run[1..], e);
    }
  }

  lemma ReachedIsConsistent(p: State)
    requires Reached(p)
    ensures Consistent(p) && TerminalResult(p.status) == Blank
  {
    var run :| Sessions.IsRun(Sessions.Opening(), run) && Waiting(Sessions.After(Sessions.Opening(), run), p);
    Sessions.ReachableIsSound(run);
  }

  lemma TwoSteps(s: Sessions.Session, m: Move, x: Move)
    requires Shaped(s.pos) && Waiting(s, s.pos) && Chosen(s.pos, 2) == Some(m)
    requires Allowed(s.pos, m) && ResultOf(s.pos, m) == Blank
    requires Allowed(Play(s.pos, m, O), x) && TerminalResult(Play(Play(s.pos, m, O), x, X).status) == Blank
    ensures var t := Sessions.Step(s, Sessions.AgentTurn);
            t.phase == Sessions.Ongoing && t.turn == X && t.pos == Play(s.pos, m, O)
            && Waiting(Sessions.Step(t, Sessions.Click(x)), Play(Play(s.pos, m, O), x, X))
  {
  }

  /** The agent plays m and the human replies x. */
  lemma ReachedNext(p: State, m: Move, x: Move)
    requires Reached(p) && Chosen(p, 2) == Some(m)
    requires Allowed(p, m) && ResultOf(p, m) == Blank
    requires Allowed(Play(p, m, O), x) && TerminalResult(Play(Play(p, m, O), x, X).status) == Blank
    ensures Reached(Play(Play(p, m, O), x, X))
  {
    var start := Sessions.Opening();
    var run :| Sessions.IsRun(start, run) && Waiting(Sessions.After(start, run), p);
    TwoSteps(Sessions.After(start, run), m, x);
    RunExtends(start, run, Sessions.AgentTurn);
    RunExtends(start, run + [Sessions.AgentTurn], Sessions.Click(x));
  }

  // ----- The positions of the game, with the agent to move

  function MarkOf(c: char): Mark {
    if c == 'X' then X else if c == 'O' then O else Blank
  }

  function Row(text: string): (row: seq<Mark>)
    requires |text| == 9
    ensures |row| == 9 && forall i :: 0 <= i < 9 ==> row[i] == MarkOf(text[i])
  {
    seq(9, i requires 0 <= i < 9 => MarkOf(text[i]))
  }

  const NONE := "........."

  /** The boards that are played on, the statuses and the next board. */
  ghost predicate Shows(s: State, b0: string, b1: string, b2: string, b4: string, b6: string, b8: string,
                        status: string, next: int)
    requires |b0| == |b1| == |b2| == |b4| == |b6| == |b8| == |status| == 9
  {
    && |s.board| == 9
    && s.board[0] == Row(b0) && s.board[1] == Row(b1) && s.board[2] == Row(b2)
    && s.board[4] == Row(b4) && s.board[6] == Row(b6) && s.board[8] == Row(b8)
    && s.board[3] == s.board[5] == s.board[7] == Row(NONE)
    && s.status == Row(status) && s.next == next
  }

  ghost predicate At1(s: State) {
    Shows(s, NONE, NONE, "......X..", NONE, NONE, NONE, NONE, 6)
  }

  ghost predicate At2(s: State) {
    Shows(s, NONE, NONE, "......X..", "......X..", "....O....", NONE, NONE, 6)
  }

  ghost predicate At3(s: State) {
    Shows(s, "..X......", NONE, "......X..", "......X..", "O...O....", NONE, NONE, 2)
  }

  ghost predicate At4(s: State) {
    Shows(s, "..X......", NONE, "..O.X.X..", "......X..", "O...O....", NONE, NONE, 4)
  }

  ghost predicate At5(s: State) {
    Shows(s, "..X......", NONE, "..O.X.X..", "..X.O.X..", "O...O....", NONE, NONE, 2)
  }

  ghost predicate At6(s: State) {
    Shows(s, "..X.X....", NONE, "O.O.X.X..", "..X.O.X..", "O...O....", NONE, NONE, 4)
  }

  ghost predicate At7(s: State) {
    Shows(s, "..X.X....", NONE, "O.O.X.X..", "..X.O.X.O", "O...O....", "..X......", NONE, 2)
  }

  ghost predicate At8(s: State) {
    Shows(s, "..X.X....", "....X....", "OOO.X.X..", "..X.O.X.O", "O...O....", "..X......", "..O......", 4)
  }

  ghost predicate At9(s: State) {
    Shows(s, "..X.X.X..", "....X....", "OOO.X.X..", "O.X.O.X.O", "O...O....", "..X......", "X.O.O....", 6)
  }

  // ----- Rows

  lemma NothingThere()
    ensures Row(NONE) == EmptyRow()
  {
  }

  lemma EmptyIsGentle()
    ensures Gentle(Row(NONE), 4)
  {
    LiveAtMost(Row(NONE));
    ScatteredIsGentle(Row(NONE), 4, 0, 1);
  }

  lemma CornerIsGentle()
    ensures Gentle(Row("..X......"), 4)
  {
    LiveAtMost(Row("..X......"));
    ScatteredIsGentle(Row("..X......"), 4, 0, 1);
  }

  lemma OwnCornerIsGentle()
    ensures Gentle(Row("......X..")[2 := O], 3)
  {
    var row := Row("......X..")[2 := O];
    LiveAtMost(row);
    LinesThroughCell(4);
    SomeDead(row, 4, LINE_COUNT, 7);
    ScatteredIsGentle(row, 3, 0, 1);
  }

  lemma OwnCentreIsGentle()
    ensures Gentle(Row("......X..")[4 := O], 3)
  {
    LiveAtMost(Row("......X..")[4 := O]);
    ScatteredIsGentle(Row("......X..")[4 := O], 3, 0, 1);
  }

  // The cell chosen in each early row, with its live lines.

  lemma Early1()
    ensures Early(Row(NONE)) && LiveThrough(Row(NONE), 4, LINE_COUNT) == 4
  {
    AllLive(Row(NONE), 4);
  }

  lemma Early2()
    ensures Early(Row("....O....")) && LiveThrough(Row("....O...."), 0, LINE_COUNT) == 3
  {
  }

  lemma Early3()
    ensures Early(Row("......X..")) && LiveThrough(Row("......X.."), 2, LINE_COUNT) == 3
  {
  }

  lemma Early4()
    ensures Early(Row("......X..")) && LiveThrough(Row("......X.."), 4, LINE_COUNT) == 4
  {
  }

  lemma Early5()
    ensures Early(Row("..O.X.X..")) && LiveThrough(Row("..O.X.X.."), 0, LINE_COUNT) == 3
  {
  }

  lemma Early6()
    ensures Early(Row("..X.O.X..")) && LiveThrough(Row("..X.O.X.."), 8, LINE_COUNT) == 3
  {
  }

  // The moves after which X answers in the centre of a bare board.

  lemma Plain1(s: State)
    requires Shaped(s) && At1(s)
    ensures OthersPlain(s, 4, 0, 6)
  {
  }

  lemma Plain2(s: State)
    requires Shaped(s) && At2(s)
    ensures OthersPlain(s, 0, -1, 6)
  {
  }

  lemma Plain3(s: State)
    requires Shaped(s) && At3(s)
    ensures OthersPlain(s, 2, 0, 9)
  {
  }

  lemma Plain4(s: State)
    requires Shaped(s) && At4(s)
    ensures OthersPlain(s, 4, 1, 2)
  {
  }

  lemma Plain5(s: State)
    requires Shaped(s) && At5(s)
    ensures OthersPlain(s, 0, -1, 9)
  {
  }

  lemma Plain6(s: State)
    requires Shaped(s) && At6(s)
    ensures OthersPlain(s, 8, -1, 0)
  {
  }

  lemma Plain7(s: State)
    requires Shaped(s) && At7(s)
    ensures OthersPlain(s, 1, 50, 9)
  {
  }

  lemma Plain8(s: State)
    requires Shaped(s) && At8(s)
    ensures OthersPlain(s, 0, 1, 1)
  {
  }

  // ----- Moves that X answers otherwise than in the centre of a bare board

  lemma Special1(s: State)
    requires OpenMove(s, Move(6, 6)) && s.board[6] == Row(NONE)
    ensures Refuted(s, Move(6, 6), Evaluate(s) - 10)
  {
    var row := Row(NONE)[6 := O];
    ScatteredIsOpen(row, 0);
    StaysOpen(row, 4, X, 0);
    AllLive(row, 4);
    TallyMarked(row, 4, X);
    LinesThroughCell(6);
    Answered(s, Move(6, 6), 4, 4, Evaluate(s) - 10);
  }

  lemma Special2(s: State)
    requires OpenMove(s, Move(6, 6)) && s.board[6] == Row("....O....")
    ensures Refuted(s, Move(6, 6), Evaluate(s) - 10)
  {
    var before, row := Row("....O...."), Row("....O....")[6 := O];
    SettledAfterMove(before, 6, O);
    StaysOpen(row, 2, X, 0);
    AllLive(row, 2);
    assert OnLine(row, 7, O) == 2;
    TallyMarked(row, 2, X);
    LinesThroughCell(6);
    Answered(s, Move(6, 6), 2, 4, Evaluate(s) - 10);
  }

  lemma Special4(s: State)
    requires OpenMove(s, Move(4, 2)) && s.board[4] == Row("......X..") && s.board[2] == Row("..O.X.X..")
    ensures Refuted(s, Move(4, 2), Evaluate(s))
  {
    assert Settled(Row("..O.X.X.."), s.status[2]);
    Answer4(Row("..O.X.X.."));
    ContestedIsSafe(s.board[4]);
    LinesThroughCell(2);
    Answered(s, Move(4, 2), 0, 3, Evaluate(s));
  }

  lemma Answer4(row: seq<Mark>)
    requires row == Row("..O.X.X..") && Settled(row, Blank)
    ensures SmallResult(row[0 := X], Blank) == Blank && Tally(row[0 := X]) <= Tally(row) - 3
  {
    ContestedIsSafe(row);
    StaysOpen(row, 0, X, 1);
    AllLive(row, 0);
    TallyMarked(row, 0, X);
  }

  /** X answers by winning board 0. */
  lemma Special6(s: State)
    requires OpenMove(s, Move(4, 0)) && s.board[0] == Row("..X.X....") && s.status == Row(NONE)
    ensures Refuted(s, Move(4, 0), Evaluate(s) - 11)
  {
    var t := Put(s, Move(4, 0), O);
    OpenMoveIs(s, Move(4, 0));
    TallyMarked(s.board[4], 0, O);
    Answer6(t);
    assert Allowed(t, Move(0, 6));
  }

  lemma Answer6(t: State)
    requires Shaped(t) && Settled(t.board[0], Blank) && t.board[0] == Row("..X.X....") && t.status == Row(NONE)
    ensures Evaluate(Play(t, Move(0, 6), X)) <= Evaluate(t) - 610
  {
    Closes(t.board[0], 6, X, 7);
    EvaluateAfterWinning(t, Move(0, 6), X);
    TallyBound(t.board[0]);
    AllLive(t.status, 0);
  }

  /** In board 1 the centre is taken, and X answers in a corner. */
  lemma Special8(s: State)
    requires OpenMove(s, Move(4, 1)) && s.board[4] == Row("..X.O.X.O") && s.board[1] == Row("....X....")
    ensures Refuted(s, Move(4, 1), Evaluate(s) + 10)
  {
    assert Settled(Row("....X...."), s.status[1]);
    Answer8(Row("....X...."));
    ContestedIsSafe(s.board[4]);
    LinesThroughCell(1);
    Answered(s, Move(4, 1), 0, 3, Evaluate(s) + 10);
  }

  lemma Answer8(row: seq<Mark>)
    requires row == Row("....X....") && Settled(row, Blank)
    ensures SmallResult(row[0 := X], Blank) == Blank && Tally(row[0 := X]) <= Tally(row) - 3
  {
    StaysOpen(row, 0, X, 1);
    AllLive(row, 0);
    TallyMarked(row, 0, X);
  }

  // ----- The agent takes board 2 and board 4

  /** The agent takes board 2: only cell 1 completes a line. */
  lemma Open7(s: State)
    requires GoesOn(s) && s.next == 2 && s.board[2] == Row("O.O.X.X..") && s.status == Row(NONE)
    ensures OthersOpen(s, 1) && NoThreats(s.board[2], X)
  {
    ContestedIsSafe(s.board[2]);
    OneThreat7(s.board[2]);
    SafeIsOpen(s, 3, 5, 1);
  }

  lemma OneThreat7(row: seq<Mark>)
    requires row == Row("O.O.X.X..")
    ensures forall k :: 0 <= k < 9 && row[k] == Blank && k != 1 ==> !Threat(row, k, O)
  {
  }

  lemma Others7(s: State)
    requires GoesOn(s) && At7(s)
    ensures OthersHeld(s, 1, 50)
  {
    Open7(s);
    Plain7(s);
    PlainOthersHeld(s, 1, 50, 9);
  }

  /** A game in which no line of boards is complete goes on. */
  lemma NoOwner(status: seq<Mark>, b: nat)
    requires |status| == 9 && b < 9 && status[b] == Blank
    requires forall i :: 0 <= i < LINE_COUNT ==> OnLine(status, i, O) <= 2 && OnLine(status, i, X) <= 2
    ensures TerminalResult(status) == Blank
  {
    FirstOwnerIsLineHolder(status);
    assert forall i, p :: 0 <= i < LINE_COUNT && IsPlayer(p) && Owns(status, p, i) ==> OnLine(status, i, p) == 3;
  }

  lemma Taken7(s: State)
    requires GoesOn(s) && s.next == 2 && s.board[2] == Row("O.O.X.X..") && s.status == Row(NONE)
    ensures Allowed(s, Move(2, 1)) && ResultOf(s, Move(2, 1)) == Blank
    ensures var t := Play(s, Move(2, 1), O);
            t.next == 1 && t.status == s.status[2 := O] && Evaluate(t) >= Evaluate(s) + 610
  {
    assert Settled(s.board[2], s.status[2]);
    Closes(s.board[2], 1, O, 0);
    EvaluateAfterWinning(s, Move(2, 1), O);
    AllLive(s.status, 2);
    TallyBound(s.board[2]);
    NoOwner(s.status[2 := O], 0);
  }

  lemma Held7(s: State)
    requires GoesOn(s) && At7(s)
    ensures Allowed(s, Move(2, 1)) && ResultOf(s, Move(2, 1)) == Blank
    ensures !Refuted(s, Move(2, 1), Evaluate(s) + 499)
  {
    Taken7(s);
    var t, row := Play(s, Move(2, 1), O), Row(NONE);
    EmptyIsGentle();
    forall x | Allowed(t, x) ensures Evaluate(Play(t, x, X)) >= Evaluate(t) - 40 {
      assert t.board[x.board] == row;
      EvaluateAfterQuiet(t, x, X);
    }
  }

  lemma Choice7(s: State)
    requires GoesOn(s) && At7(s)
    ensures Chosen(s, 2) == Some(Move(2, 1))
  {
    Others7(s);
    Held7(s);
    ChosenAmong(s, 1, 50);
  }

  /** The agent takes board 4: only cell 0 completes a line. */
  lemma Open8(s: State)
    requires GoesOn(s) && s.next == 4 && s.board[4] == Row("..X.O.X.O") && s.status == Row("..O......")
    ensures OthersOpen(s, 0) && NoThreats(s.board[4], X)
  {
    ContestedIsSafe(s.board[4]);
    OneThreat8(s.board[4]);
    SafeIsOpen(s, 1, 3, 0);
  }

  lemma OneThreat8(row: seq<Mark>)
    requires row == Row("..X.O.X.O")
    ensures forall k :: 0 <= k < 9 && row[k] == Blank && k != 0 ==> !Threat(row, k, O)
  {
  }

  lemma Others8(s: State)
    requires GoesOn(s) && At8(s)
    ensures OthersHeld(s, 0, 1)
  {
    Open8(s);
    Plain8(s);
    Special8(s);
    PlainOthersHeld(s, 0, 1, 1);
  }

  lemma Taken8(s: State)
    requires GoesOn(s) && s.next == 4 && s.board[4] == Row("..X.O.X.O") && s.status == Row("..O......")
    ensures Allowed(s, Move(4, 0)) && ResultOf(s, Move(4, 0)) == Blank
    ensures var t := Play(s, Move(4, 0), O);
            t.next == 0 && t.status == s.status[4 := O] && Evaluate(t) >= Evaluate(s) + 860
  {
    assert Settled(s.board[4], s.status[4]);
    Closes(s.board[4], 0, O, 6);
    EvaluateAfterWinning(s, Move(4, 0), O);
    AllLive(s.status, 4);
    TallyBound(s.board[4]);
    NoOwner(s.status[4 := O], 0);
  }

  /** X wins board 0 in return, which costs the agent no more than it has just won. */
  lemma Answer9(t: State)
    requires Consistent(t) && t.next == 0
    requires t.board[0] == Row("..X.X....") && t.status == Row("..O......")[4 := O]
    ensures Allowed(t, Move(0, 6)) && Play(t, Move(0, 6), X).status == t.status[0 := X]
    ensures Evaluate(Play(t, Move(0, 6), X)) >= Evaluate(t) - 850
    ensures SmallResult(t.board[0][6 := X], Blank) == X
  {
    assert Settled(t.board[0], t.status[0]);
    Closes(t.board[0], 6, X, 7);
    EvaluateAfterWinning(t, Move(0, 6), X);
    AllLive(t.status, 0);
    TallyBound(t.board[0]);
  }

  lemma OtherAnswers9(t: State, x: Move)
    requires Consistent(t) && t.next == 0 && t.board[0] == Row("..X.X....") && Allowed(t, x) && x.cell != 6
    ensures Evaluate(Play(t, x, X)) >= Evaluate(t) - 80
  {
    var row := t.board[0];
    assert Settled(row, t.status[0]);
    assert !Threat(row, x.cell, X);
    StaysOpen(row, x.cell, X, if x.cell == 0 then 1 else 0);
    EvaluateAfterQuiet(t, x, X);
    TallyMarked(row, x.cell, X);
  }

  lemma Held8(s: State)
    requires GoesOn(s) && At8(s)
    ensures Allowed(s, Move(4, 0)) && ResultOf(s, Move(4, 0)) == Blank
    ensures !Refuted(s, Move(4, 0), Evaluate(s) + 9)
  {
    Taken8(s);
    var t := Play(s, Move(4, 0), O);
    PlayKeepsConsistent(s, Move(4, 0), O);
    forall x | Allowed(t, x) ensures Evaluate(Play(t, x, X)) >= Evaluate(t) - 850 {
      if x.cell == 6 {
        assert x == Move(0, 6);
        Answer9(t);
      } else {
        OtherAnswers9(t, x);
      }
    }
  }

  lemma Choice8(s: State)
    requires GoesOn(s) && At8(s)
    ensures Chosen(s, 2) == Some(Move(4, 0))
  {
    Others8(s);
    Held8(s);
    ChosenAmong(s, 0, 1);
  }

  // ----- Turns: what the agent plays in each position, and the human's answer

  /** The agent plays m, and the human answers in cell x, without a board being closed. */
  lemma Turn(s: State, m: Move, x: nat) returns (t: State)
    requires Reached(s) && OpenMove(s, m) && Chosen(s, 2) == Some(m)
    requires x < 9 && s.status[x] == Blank && Target(s, m)[x] == Blank
    requires SmallResult(Target(s, m)[x := X], Blank) == Blank
    ensures Reached(t) && t == Put(Put(s, m, O), Move(m.cell, x), X)
  {
    ReachedIsConsistent(s);
    OpenMoveIs(s, m);
    QuietPlay(Put(s, m, O), Move(m.cell, x), X);
    t := Put(Put(s, m, O), Move(m.cell, x), X);
    ReachedNext(s, m, Move(m.cell, x));
  }

  /** The same, when cell c is chosen in an early row. */
  lemma EarlyTurn(s: State, c: nat, n: nat, k: nat, special: nat, x: nat) returns (t: State)
    requires Reached(s) && EarlyChoice(s, c, n, k, special)
    requires x < 9 && Target(s, Move(s.next, c))[x] == Blank
    ensures Reached(t) && t == Put(Put(s, Move(s.next, c), O), Move(c, x), X)
  {
    ChosenEarly(s, c, n, k, special);
    EarlyIsOpen(s, c);
    t := Turn(s, Move(s.next, c), x);
  }

  lemma Rows2(s: State, t: State)
    requires Shaped(s) && At1(s) && t == Put(Put(s, Move(6, 4), O), Move(4, 6), X)
    ensures At2(t)
  {
  }

  lemma Game2(s: State) returns (t: State)
    requires Reached(s) && At1(s)
    ensures Reached(t) && At2(t)
  {
    ReachedIsConsistent(s);
    NothingThere();
    Early1();
    EmptyIsGentle();
    Plain1(s);
    EarlyIsOpen(s, 6);
    Special1(s);
    t := EarlyTurn(s, 4, 4, 4, 6, 6);
    Rows2(s, t);
  }

  lemma Rows3(s: State, t: State)
    requires Shaped(s) && At2(s) && t == Put(Put(s, Move(6, 0), O), Move(0, 2), X)
    ensures At3(t)
  {
  }

  lemma Game3(s: State) returns (t: State)
    requires Reached(s) && At2(s)
    ensures Reached(t) && At3(t)
  {
    ReachedIsConsistent(s);
    NothingThere();
    Early2();
    EmptyIsGentle();
    Plain2(s);
    EarlyIsOpen(s, 6);
    Special2(s);
    t := EarlyTurn(s, 0, 3, 4, 6, 2);
    Rows3(s, t);
  }

  lemma Rows4(s: State, t: State)
    requires Shaped(s) && At3(s) && t == Put(Put(s, Move(2, 2), O), Move(2, 4), X)
    ensures At4(t)
  {
  }

  lemma Game4(s: State) returns (t: State)
    requires Reached(s) && At3(s)
    ensures Reached(t) && At4(t)
  {
    ReachedIsConsistent(s);
    NothingThere();
    Early3();
    OwnCornerIsGentle();
    Plain3(s);
    t := EarlyTurn(s, 2, 3, 3, 9, 4);
    Rows4(s, t);
  }

  lemma Rows5(s: State, t: State)
    requires Shaped(s) && At4(s) && t == Put(Put(s, Move(4, 4), O), Move(4, 2), X)
    ensures At5(t)
  {
  }

  lemma Game5(s: State) returns (t: State)
    requires Reached(s) && At4(s)
    ensures Reached(t) && At5(t)
  {
    ReachedIsConsistent(s);
    NothingThere();
    Early4();
    OwnCentreIsGentle();
    Plain4(s);
    EarlyIsOpen(s, 2);
    Special4(s);
    t := EarlyTurn(s, 4, 4, 3, 2, 2);
    Rows5(s, t);
  }

  lemma Rows6(s: State, t: State)
    requires Shaped(s) && At5(s) && t == Put(Put(s, Move(2, 0), O), Move(0, 4), X)
    ensures At6(t)
  {
  }

  lemma Game6(s: State) returns (t: State)
    requires Reached(s) && At5(s)
    ensures Reached(t) && At6(t)
  {
    ReachedIsConsistent(s);
    NothingThere();
    Early5();
    CornerIsGentle();
    Plain5(s);
    t := EarlyTurn(s, 0, 3, 4, 9, 4);
    Rows6(s, t);
  }

  lemma Rows7(s: State, t: State)
    requires Shaped(s) && At6(s) && t == Put(Put(s, Move(4, 8), O), Move(8, 2), X)
    ensures At7(t)
  {
  }

  lemma Game7(s: State) returns (t: State)
    requires Reached(s) && At6(s)
    ensures Reached(t) && At7(t)
  {
    ReachedIsConsistent(s);
    NothingThere();
    Early6();
    EmptyIsGentle();
    Plain6(s);
    EarlyIsOpen(s, 0);
    Special6(s);
    t := EarlyTurn(s, 8, 3, 4, 0, 2);
    Rows7(s, t);
  }

  lemma Answer7(s: State)
    requires GoesOn(s) && At7(s)
    ensures var t := Play(s, Move(2, 1), O);
            && Allowed(t, Move(1, 4)) && Play(t, Move(1, 4), X) == Put(t, Move(1, 4), X)
  {
    Taken7(s);
    var t, row := Play(s, Move(2, 1), O), Row(NONE);
    assert t.board[1] == row && Settled(s.board[1], s.status[1]);
    StaysOpen(row, 4, X, 0);
    QuietPlay(t, Move(1, 4), X);
  }

  lemma Rows8(s: State, t: State)
    requires Shaped(s) && At7(s)
    requires t.board == s.board[2 := s.board[2][1 := O]][1 := s.board[1][4 := X]]
    requires t.status == s.status[2 := O] && t.next == 4
    ensures At8(t)
  {
  }

  lemma Game8(s: State) returns (t: State)
    requires Reached(s) && At7(s)
    ensures Reached(t) && At8(t)
  {
    ReachedIsConsistent(s);
    Choice7(s);
    Taken7(s);
    Answer7(s);
    t := Play(Play(s, Move(2, 1), O), Move(1, 4), X);
    ReachedNext(s, Move(2, 1), Move(1, 4));
    Rows8(s, t);
  }

  lemma Rows9(s: State, t: State)
    requires Shaped(s) && At8(s)
    requires t.board == s.board[4 := s.board[4][0 := O]][0 := s.board[0][6 := X]]
    requires t.status == s.status[4 := O][0 := X] && t.next == 6
    ensures At9(t)
  {
  }

  lemma Answered8(s: State) returns (t: State)
    requires GoesOn(s) && At8(s)
    ensures Allowed(s, Move(4, 0)) && ResultOf(s, Move(4, 0)) == Blank
    ensures Allowed(Play(s, Move(4, 0), O), Move(0, 6)) && t == Play(Play(s, Move(4, 0), O), Move(0, 6), X)
    ensures TerminalResult(t.status) == Blank && At9(t)
  {
    Taken8(s);
    PlayKeepsConsistent(s, Move(4, 0), O);
    Answer9(Play(s, Move(4, 0), O));
    t := Play(Play(s, Move(4, 0), O), Move(0, 6), X);
    NoOwner(t.status, 1);
    Rows9(s, t);
  }

  lemma Game9(s: State) returns (t: State)
    requires Reached(s) && At8(s)
    ensures Reached(t) && At9(t)
  {
    ReachedIsConsistent(s);
    Choice8(s);
    t := Answered8(s);
    ReachedNext(s, Move(4, 0), Move(0, 6));
  }

  lemma FirstIsQuiet()
    ensures Consistent(EmptyState()) && TerminalResult(EmptyState().status) == Blank
    ensures Quiet(EmptyState(), Move(2, 6), X)
  {
    EmptyStateIsConsistent();
    StaysOpen(EmptyRow(), 6, X, 0);
  }

  lemma FirstMove()
    ensures Allowed(EmptyState(), Move(2, 6))
    ensures Play(EmptyState(), Move(2, 6), X) == Put(EmptyState(), Move(2, 6), X)
    ensures TerminalResult(Put(EmptyState(), Move(2, 6), X).status) == Blank
  {
    FirstIsQuiet();
    QuietPlay(EmptyState(), Move(2, 6), X);
  }

  lemma Rows1(t: State)
    requires t == Put(EmptyState(), Move(2, 6), X)
    ensures At1(t)
  {
    NothingThere();
    assert EmptyRow()[6 := X] == Row("......X..");
  }

  /** The human chooses the easy level, starts and begins in board 2. */
  lemma Game1() returns (t: State)
    ensures Reached(t) && At1(t)
  {
    FirstMove();
    t := Put(EmptyState(), Move(2, 6), X);
    var start := Sessions.Opening();
    var r1 := [] + [Sessions.ChooseDifficulty(2)];
    RunExtends(start, [], Sessions.ChooseDifficulty(2));
    RunExtends(start, r1, Sessions.Restart);
    RunExtends(start, r1 + [Sessions.Restart], Sessions.Click(Move(2, 6)));
    assert Waiting(Sessions.After(start, r1 + [Sessions.Restart] + [Sessions.Click(Move(2, 6))]), t);
    Rows1(t);
  }

  /** X26 O64 X46 O60 X02 O22 X24 O44 X42 O20 X04 O48 X82 O21 X14 O40 X06, board before cell. */
  lemma WholeGame() returns (t: State)
    ensures Reached(t) && At9(t)
  {
    t := Game1();
    t := Game2(t);
    t := Game3(t);
    t := Game4(t);
    t := Game5(t);
    t := Game6(t);
    t := Game7(t);
    t := Game8(t);
    t := Game9(t);
  }

  // ----- The declined win

  /** A mark that stops no threat, where all lines are live. */
  lemma TallyStep(row: seq<Mark>, c: nat, p: Mark)
    requires |row| == 9 && c < 9 && row[c] == Blank && IsPlayer(p)
    requires forall i :: 0 <= i < LINE_COUNT && OnTheLine(i, c) ==>
               Live(row, i) && OnLine(row, i, Opponent(p)) <= 1
    ensures Tally(row[c := p]) == Tally(row) + if p == O then LinesAt(c) else -LinesAt(c)
  {
    AllLive(row, c);
    TallyMarked(row, c, p);
  }

  lemma TallyOfNone()
    ensures Tally(Row(NONE)) == 0
  {
    TallyBound(Row(NONE));
    TallyWithoutX(Row(NONE), 9, 0);
  }

  lemma TallyOfCentre()
    ensures Tally(Row("....X....")) == -4
  {
    TallyOfNone();
    TallyStep(Row(NONE), 4, X);
    assert Row(NONE)[4 := X] == Row("....X....");
  }

  lemma TallyOfCorner()
    ensures Tally(Row("..X......")) == -3
  {
    TallyOfNone();
    TallyStep(Row(NONE), 2, X);
    assert Row(NONE)[2 := X] == Row("..X......");
  }

  lemma TallyOfTwo()
    ensures Tally(Row("O...O....")) == 7
  {
    var one := Row(NONE)[4 := O];
    TallyOfNone();
    TallyStep(Row(NONE), 4, O);
    TallyStep(one, 0, O);
    assert one[0 := O] == Row("O...O....");
  }

  lemma TallyOfThree()
    ensures Tally(Row("X.O.O....")) == 4
  {
    var one := Row(NONE)[2 := O];
    var two := one[4 := O];
    TallyOfNone();
    TallyStep(Row(NONE), 2, O);
    TallyStep(one, 4, O);
    TallyStep(two, 0, X);
    assert two[0 := X] == Row("X.O.O....");
  }

  lemma StatusesWritten()
    ensures Row("X.O.O....") == [X, Blank, O, Blank, O, Blank, Blank, Blank, Blank]
  {
  }

  lemma LeadNext(status: seq<Mark>, n: nat)
    requires n + 3 <= |status|
    ensures Lead(status, n + 3) == Lead(status, n) + Sign(status[n]) + Sign(status[n + 1]) + Sign(status[n + 2])
    ensures Lead(status, 0) == 0
  {
    assert Lead(status, n + 1) == Lead(status, n) + Sign(status[n]);
    assert Lead(status, n + 2) == Lead(status, n + 1) + Sign(status[n + 1]);
  }

  lemma Sums(s: State, status: seq<Mark>)
    requires Shaped(s) && s.status == status == [X, Blank, O, Blank, O, Blank, Blank, Blank, Blank]
    requires Tally(s.board[1]) == -4 && Tally(s.board[6]) == 7 && Tally(s.board[8]) == -3
    requires Tally(s.board[3]) == Tally(s.board[5]) == Tally(s.board[7]) == 0
    ensures Lead(status, 9) == 1 && OpenTally(s, 9) == 0
  {
    LeadNext(status, 0);
    LeadNext(status, 3);
    LeadNext(status, 6);
    assert OpenTally(s, 1) == 0 && OpenTally(s, 3) == -4 && OpenTally(s, 5) == -4 && OpenTally(s, 7) == 3;
  }

  lemma Evaluate9(s: State)
    requires Shaped(s) && At9(s)
    ensures Evaluate(s) == 1100
  {
    TallyOfNone();
    TallyOfCentre();
    TallyOfCorner();
    TallyOfTwo();
    TallyOfThree();
    StatusesWritten();
    Sums(s, s.status);
    EvaluateByCells(s);
  }

  lemma WinAtHand(s: State)
    requires GoesOn(s) && At9(s)
    ensures Allowed(s, Move(6, 8)) && ResultOf(s, Move(6, 8)) == O
  {
    var status := s.status[6 := O];
    assert Settled(s.board[6], s.status[6]);
    Closes(s.board[6], 8, O, 6);
    FirstOwnerIsLineHolder(status);
    assert Owns(status, O, 7) && !HasLine(status, X);
  }

  lemma PlayOn(s: State)
    requires GoesOn(s) && At9(s)
    ensures Allowed(s, Move(6, 1)) && Quiet(s, Move(6, 1), O) && RepliesQuiet(s, Move(6, 1))
  {
    var m, t := Move(6, 1), Put(s, Move(6, 1), O);
    assert Settled(s.board[6], s.status[6]) && Settled(s.board[1], s.status[1]);
    StaysOpen(s.board[6], 1, O, 2);
    QuietPlay(s, m, O);
    forall x | Allowed(t, x) ensures Quiet(t, x, X) {
      assert !Threat(s.board[1], x.cell, X);
      StaysOpen(s.board[1], x.cell, X, if x.cell == 0 then 1 else 0);
    }
  }

  /** The easy agent is to move, has a win at once, and goes on playing. */
  ghost predicate DeclinesWin(s: Sessions.Session)
    requires Shaped(s.pos)
  {
    && Sessions.AgentPending(s) && s.difficulty == 2
    && (exists m :: Allowed(s.pos, m) && ResultOf(s.pos, m) == O)
    && Sessions.Step(s, Sessions.AgentTurn).phase == Sessions.Ongoing
  }

  lemma DeclinesAt(s: Sessions.Session)
    requires Shaped(s.pos) && GoesOn(s.pos) && At9(s.pos) && Waiting(s, s.pos)
    ensures DeclinesWin(s) && Evaluate(s.pos) == 1100
  {
    WinAtHand(s.pos);
    PlayOn(s.pos);
    Evaluate9(s.pos);
    EasyAgentPlaysOn(s.pos, Move(6, 1));
  }

  /** A run from page load leads to such a position, and the heuristic there is above the score of
      a won game. */
  lemma EasyAgentDeclinesWin()
    ensures exists run :: Sessions.IsRun(Sessions.Opening(), run)
                       && DeclinesWin(Sessions.After(Sessions.Opening(), run))
                       && Evaluate(Sessions.After(Sessions.Opening(), run).pos) == 1100
  {
    var p := WholeGame();
    ReachedIsConsistent(p);
    var run :| Sessions.IsRun(Sessions.Opening(), run) && Waiting(Sessions.After(Sessions.Opening(), run), p);
    DeclinesAt(Sessions.After(Sessions.Opening(), run));
  }
}
