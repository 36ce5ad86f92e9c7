/** What the heuristic of www/static/main.js rewards. */
module Heuristic {
  import opened Board
  import opened Evaluation

  predicate OnTheLine(i: nat, c: nat)
    requires i < LINE_COUNT
  {
    c == Line(i).0 || c == Line(i).1 || c == Line(i).2
  }

  /** A line on which only one player, or nobody, has a cell. */
  predicate Live(row: seq<Mark>, i: nat)
    requires |row| == 9 && i < LINE_COUNT
  {
    OnLine(row, i, O) == 0 || OnLine(row, i, X) == 0
  }

  /** Taking a free cell never lowers the score of a line, and raises exactly the live lines
      through the cell. */
  lemma LineRises(row: seq<Mark>, c: nat, i: nat, weight: int)
    requires |row| == 9 && c < 9 && row[c] == Blank && i < LINE_COUNT && weight > 0
    ensures LineScore(row[c := O], i, weight) >= LineScore(row, i, weight)
    ensures LineScore(row[c := O], i, weight) > LineScore(row, i, weight) <==> OnTheLine(i, c) && Live(row, i)
  {
    var after := row[c := O];
    if OnTheLine(i, c) {
      assert OnLine(after, i, O) == OnLine(row, i, O) + 1 && OnLine(after, i, X) == OnLine(row, i, X);
    } else {
      assert OnLine(after, i, O) == OnLine(row, i, O) && OnLine(after, i, X) == OnLine(row, i, X);
    }
  }

  lemma {:induction false} LinesRise(row: seq<Mark>, c: nat, n: nat, weight: int)
    requires |row| == 9 && c < 9 && row[c] == Blank && n <= LINE_COUNT && weight > 0
    ensures LinesScore(row[c := O], n, weight) >= LinesScore(row, n, weight)
    ensures LinesScore(row[c := O], n, weight) > LinesScore(row, n, weight)
       <==> exists i :: 0 <= i < n && OnTheLine(i, c) && Live(row, i)
  {
    if n > 0 {
      LinesRise(row, c, n - 1, weight);
      LineRises(row, c, n - 1, weight);
    }
  }

  lemma {:induction false} OtherBoardsScoreTheSame(s: State, t: State, b: nat, n: nat)
    requires Shaped(s) && Shaped(t) && b < 9 && n <= 9
    requires forall k :: 0 <= k < 9 && k != b ==> s.board[k] == t.board[k] && s.status[k] == t.status[k]
    ensures BoardsScore(t, n) - BoardsScore(s, n) == if b < n then BoardScore(t, b) - BoardScore(s, b) else 0
  {
    if n > 0 {
      OtherBoardsScoreTheSame(s, t, b, n - 1);
    }
  }

  /** A move of the agent that leaves its small board open never lowers the heuristic, and raises
      it exactly when some line through the cell is live. */
  lemma AgentMoveRaisesHeuristic(s: State, m: Move)
    requires Shaped(s) && Allowed(s, m) && Play(s, m, O).status == s.status
    ensures Evaluate(Play(s, m, O)) >= Evaluate(s)
    ensures Evaluate(Play(s, m, O)) > Evaluate(s)
       <==> exists i :: 0 <= i < LINE_COUNT && OnTheLine(i, m.cell) && Live(s.board[m.board], i)
  {
    LinesRise(s.board[m.board], m.cell, LINE_COUNT, 10);
    OtherBoardsScoreTheSame(s, Play(s, m, O), m.board, 9);
  }

  // ----- The heuristic counted by cells instead of by lines

  function Sign(p: Mark): int {
    if p == O then 1 else if p == X then -1 else 0
  }

  /** How many of the first n lines are live and run through cell c. */
  function LiveThrough(row: seq<Mark>, c: nat, n: nat): (count: nat)
    requires |row| == 9 && n <= LINE_COUNT
    ensures count <= n
  {
    if n == 0 then 0
    else LiveThrough(row, c, n - 1) + (if OnTheLine(n - 1, c) && Live(row, n - 1) then 1 else 0)
  }

  /** The first m cells, each counted once for every live line through it. */
  function TallyOf(row: seq<Mark>, n: nat, m: nat): int
    requires |row| == 9 && n <= LINE_COUNT && m <= 9
  {
    if m == 0 then 0 else TallyOf(row, n, m - 1) + Sign(row[m - 1]) * LiveThrough(row, m - 1, n)
  }

  function Tally(row: seq<Mark>): int
    requires |row| == 9
  {
    TallyOf(row, LINE_COUNT, 9)
  }

  /** The signs of those of the first m cells that lie on line i. */
  function SignsOn(row: seq<Mark>, i: nat, m: nat): int
    requires |row| == 9 && i < LINE_COUNT && m <= 9
  {
    if m == 0 then 0 else SignsOn(row, i, m - 1) + (if OnTheLine(i, m - 1) then Sign(row[m - 1]) else 0)
  }

  lemma {:induction false} SignsOnThree(row: seq<Mark>, i: nat, m: nat)
    requires |row| == 9 && i < LINE_COUNT && m <= 9
    ensures SignsOn(row, i, m) == (if Line(i).0 < m then Sign(row[Line(i).0]) else 0)
                                + (if Line(i).1 < m then Sign(row[Line(i).1]) else 0)
                                + (if Line(i).2 < m then Sign(row[Line(i).2]) else 0)
  {
    if m > 0 {
      SignsOnThree(row, i, m - 1);
    }
  }

  lemma LineBySigns(row: seq<Mark>, i: nat, weight: int)
    requires |row| == 9 && i < LINE_COUNT
    ensures LineScore(row, i, weight) == if Live(row, i) then SignsOn(row, i, 9) * weight else 0
  {
    SignsOnThree(row, i, 9);
  }

  /** One more line adds its cells. */
  lemma {:induction false} TallyOfMore(row: seq<Mark>, n: nat, m: nat)
    requires |row| == 9 && n < LINE_COUNT && m <= 9
    ensures TallyOf(row, n + 1, m) == TallyOf(row, n, m) + if Live(row, n) then SignsOn(row, n, m) else 0
  {
    if m > 0 {
      TallyOfMore(row, n, m - 1);
    }
  }

  lemma {:induction false} TallyOfNoLines(row: seq<Mark>, m: nat)
    requires |row| == 9 && m <= 9
    ensures TallyOf(row, 0, m) == 0
  {
    if m > 0 {
      TallyOfNoLines(row, m - 1);
    }
  }

  lemma Distribute(a: int, b: int, weight: int)
    ensures (a + b) * weight == a * weight + b * weight
  {
  }

  /** The sum over lines is the sum over cells. */
  lemma {:induction false} LinesByCells(row: seq<Mark>, n: nat, weight: int)
    requires |row| == 9 && n <= LINE_COUNT
    ensures LinesScore(row, n, weight) == TallyOf(row, n, 9) * weight
  {
    if n == 0 {
      TallyOfNoLines(row, 9);
    } else {
      LinesByCells(row, n - 1, weight);
      LineBySigns(row, n - 1, weight);
      TallyOfMore(row, n - 1, 9);
      Distribute(TallyOf(row, n - 1, 9), if Live(row, n - 1) then SignsOn(row, n - 1, 9) else 0, weight);
    }
  }

  /** The boards O owns less those X owns, of the first n. */
  function Lead(status: seq<Mark>, n: nat): int
    requires n <= |status|
  {
    if n == 0 then 0 else Lead(status, n - 1) + Sign(status[n - 1])
  }

  /** The tallies of the open boards among the first n. */
  function OpenTally(s: State, n: nat): int
    requires Shaped(s) && n <= 9
  {
    if n == 0 then 0 else OpenTally(s, n - 1) + if s.status[n - 1] == Blank then Tally(s.board[n - 1]) else 0
  }

  lemma {:induction false} BoardsByCells(s: State, n: nat)
    requires Shaped(s) && n <= 9
    ensures BoardsScore(s, n) == 100 * Lead(s.status, n) + 10 * OpenTally(s, n)
  {
    if n > 0 {
      BoardsByCells(s, n - 1);
      LinesByCells(s.board[n - 1], LINE_COUNT, 10);
    }
  }

  /** The heuristic in full: 100 for each board of the lead, 10 for each live line through each
      mark in an open board, and 250 for each live line of boards through each owned board. */
  lemma EvaluateByCells(s: State)
    requires Shaped(s)
    ensures Evaluate(s) == 100 * Lead(s.status, 9) + 10 * OpenTally(s, 9) + 250 * Tally(s.status)
    ensures -1000 <= Evaluate(s) <= 1000
       <==> -100 <= 10 * Lead(s.status, 9) + OpenTally(s, 9) + 25 * Tally(s.status) <= 100
  {
    BoardsByCells(s, 9);
    LinesByCells(s.status, LINE_COUNT, 25);
  }

  // ----- Bounds

  /** How many of the first n lines run through cell c. */
  function Through(c: nat, n: nat): nat
    requires n <= LINE_COUNT
  {
    if n == 0 then 0 else Through(c, n - 1) + (if OnTheLine(n - 1, c) then 1 else 0)
  }

  /** Four lines run through the centre, three through a corner and two through any other cell. */
  lemma LinesThroughCell(c: nat)
    requires c < 9
    ensures Through(c, LINE_COUNT) == if c == 4 then 4 else if c % 2 == 0 then 3 else 2
  {
    assert Through(c, 6) == 2;
  }

  lemma {:induction false} LiveThroughAtMost(row: seq<Mark>, c: nat, n: nat)
    requires |row| == 9 && n <= LINE_COUNT
    ensures LiveThrough(row, c, n) <= Through(c, n)
    ensures (forall i :: 0 <= i < n && OnTheLine(i, c) ==> Live(row, i)) ==>
              LiveThrough(row, c, n) == Through(c, n)
  {
    if n > 0 {
      LiveThroughAtMost(row, c, n - 1);
    }
  }

  /** Without a mark of X no tally is negative, and each mark counts its lines. */
  lemma {:induction false} TallyWithoutX(row: seq<Mark>, m: nat, c: nat)
    requires |row| == 9 && X !in row && m <= 9 && c < 9
    ensures TallyOf(row, LINE_COUNT, m) >= if c < m && row[c] == O then LiveThrough(row, c, LINE_COUNT) else 0
  {
    if m > 0 {
      TallyWithoutX(row, m - 1, c);
    }
  }

  lemma CentreCountsFour(row: seq<Mark>)
    requires |row| == 9 && X !in row && row[4] == O
    ensures Tally(row) >= 4
  {
    TallyWithoutX(row, 9, 4);
    LiveThroughAtMost(row, 4, LINE_COUNT);
    LinesThroughCell(4);
  }

  lemma {:induction false} LeadWithoutX(status: seq<Mark>, n: nat, b: nat)
    requires X !in status && n <= |status| && b < |status| && status[b] == O
    ensures Lead(status, n) >= if b < n then 1 else 0
  {
    if n > 0 {
      LeadWithoutX(status, n - 1, b);
    }
  }

  /** The centre board outweighs a won game, which scores 1000, unless the open boards take more
      than a tenth of it back. */
  lemma CentreOutweighsAWin(s: State)
    requires Shaped(s) && X !in s.status && s.status[4] == O
    ensures Evaluate(s) >= 1100 + 10 * OpenTally(s, 9)
  {
    EvaluateByCells(s);
    CentreCountsFour(s.status);
    LeadWithoutX(s.status, 9, 4);
  }

  // ----- One move

  /** A move changes the score of its own board and of the statuses, and nothing else. */
  lemma EvaluateAfter(s: State, m: Move, p: Mark)
    requires Shaped(s) && Free(s, m) && IsPlayer(p)
    ensures var t := Play(s, m, p);
            Evaluate(t) - Evaluate(s)
            == BoardScore(t, m.board) - BoardScore(s, m.board) + 250 * (Tally(t.status) - Tally(s.status))
  {
    var t := Play(s, m, p);
    OtherBoardsScoreTheSame(s, t, m.board, 9);
    LinesByCells(s.status, LINE_COUNT, 25);
    LinesByCells(t.status, LINE_COUNT, 25);
  }

  /** A move that leaves its board open. */
  predicate Quiet(s: State, m: Move, p: Mark)
    requires Shaped(s) && Free(s, m) && IsPlayer(p)
  {
    s.status[m.board] == Blank && SmallResult(s.board[m.board][m.cell := p], Blank) == Blank
  }

  lemma EvaluateAfterQuiet(s: State, m: Move, p: Mark)
    requires Shaped(s) && Free(s, m) && IsPlayer(p) && Quiet(s, m, p)
    ensures Play(s, m, p).status == s.status
    ensures Evaluate(Play(s, m, p))
         == Evaluate(s) + 10 * (Tally(s.board[m.board][m.cell := p]) - Tally(s.board[m.board]))
  {
    EvaluateAfter(s, m, p);
    LinesByCells(s.board[m.board], LINE_COUNT, 10);
    LinesByCells(s.board[m.board][m.cell := p], LINE_COUNT, 10);
  }

  /** A line with two marks of p alone waits for a third in cell c. */
  predicate Threat(row: seq<Mark>, c: nat, p: Mark)
    requires |row| == 9 && c < 9
  {
    exists i :: 0 <= i < LINE_COUNT && OnTheLine(i, c) && OnLine(row, i, p) == 2
  }

  /** What a mark of p in cell c makes of a line: nothing of a dead one or one elsewhere, and of a
      live line through c one, or as many as it has marks of the opponent. */
  lemma LineMarked(row: seq<Mark>, c: nat, p: Mark, i: nat)
    requires |row| == 9 && c < 9 && row[c] == Blank && IsPlayer(p) && i < LINE_COUNT
    ensures Sign(p) * (LineScore(row[c := p], i, 1) - LineScore(row, i, 1))
         == if !OnTheLine(i, c) || !Live(row, i) then 0
            else if OnLine(row, i, Opponent(p)) == 2 then 2
            else 1
  {
    var after := row[c := p];
    if OnTheLine(i, c) {
      assert OnLine(after, i, p) == OnLine(row, i, p) + 1;
      assert OnLine(after, i, Opponent(p)) == OnLine(row, i, Opponent(p));
    } else {
      assert OnLine(after, i, O) == OnLine(row, i, O) && OnLine(after, i, X) == OnLine(row, i, X);
    }
  }

  /** How many of the first n lines are threats of p in cell c. */
  function ThreatsThrough(row: seq<Mark>, c: nat, p: Mark, n: nat): nat
    requires |row| == 9 && n <= LINE_COUNT
  {
    if n == 0 then 0
    else ThreatsThrough(row, c, p, n - 1) + (if OnTheLine(n - 1, c) && OnLine(row, n - 1, p) == 2 then 1 else 0)
  }

  lemma {:induction false} ThreatsAreLive(row: seq<Mark>, c: nat, p: Mark, n: nat)
    requires |row| == 9 && c < 9 && row[c] == Blank && IsPlayer(p) && n <= LINE_COUNT
    ensures ThreatsThrough(row, c, p, n) <= LiveThrough(row, c, n)
    ensures ThreatsThrough(row, c, p, n) > 0
       <==> exists i :: 0 <= i < n && OnTheLine(i, c) && OnLine(row, i, p) == 2
  {
    if n > 0 {
      ThreatsAreLive(row, c, p, n - 1);
    }
  }

  lemma {:induction false} LinesMarked(row: seq<Mark>, c: nat, p: Mark, n: nat)
    requires |row| == 9 && c < 9 && row[c] == Blank && IsPlayer(p) && n <= LINE_COUNT
    ensures Sign(p) * (LinesScore(row[c := p], n, 1) - LinesScore(row, n, 1))
         == LiveThrough(row, c, n) + ThreatsThrough(row, c, Opponent(p), n)
  {
    if n > 0 {
      LinesMarked(row, c, p, n - 1);
      LineMarked(row, c, p, n - 1);
    }
  }

  lemma MarkedLines(row: seq<Mark>, c: nat, p: Mark)
    requires |row| == 9 && c < 9 && row[c] == Blank && IsPlayer(p)
    ensures Sign(p) * (Tally(row[c := p]) - Tally(row))
         == LiveThrough(row, c, LINE_COUNT) + ThreatsThrough(row, c, Opponent(p), LINE_COUNT)
  {
    LinesMarked(row, c, p, LINE_COUNT);
    LinesByCells(row, LINE_COUNT, 1);
    LinesByCells(row[c := p], LINE_COUNT, 1);
  }

  /** A mark counts once for every live line through its cell, and once more for every threat that
      it stops. */
  lemma TallyMarked(row: seq<Mark>, c: nat, p: Mark)
    requires |row| == 9 && c < 9 && row[c] == Blank && IsPlayer(p)
    ensures var change, lines := Sign(p) * (Tally(row[c := p]) - Tally(row)), LiveThrough(row, c, LINE_COUNT);
            && change == lines + ThreatsThrough(row, c, Opponent(p), LINE_COUNT)
            && lines <= change <= 8
            && (change == lines <==> !Threat(row, c, Opponent(p)))
  {
    MarkedLines(row, c, p);
    ThreatsAreLive(row, c, Opponent(p), LINE_COUNT);
    LinesThroughCell(c);
    LiveThroughAtMost(row, c, LINE_COUNT);
  }

  // ----- A move that closes a board

  lemma {:induction false} LinesBound(row: seq<Mark>, n: nat)
    requires |row| == 9 && n <= LINE_COUNT
    ensures -3 * n <= LinesScore(row, n, 1) <= 3 * n
    ensures O !in row ==> LinesScore(row, n, 1) <= 0
  {
    if n > 0 {
      LinesBound(row, n - 1);
    }
  }

  lemma TallyBound(row: seq<Mark>)
    requires |row| == 9
    ensures -24 <= Tally(row) <= 24
    ensures O !in row ==> Tally(row) <= 0
  {
    LinesBound(row, LINE_COUNT);
    LinesByCells(row, LINE_COUNT, 1);
  }

  /** A board won scores 100 instead of its tally, and counts among the statuses as a mark does in
      a row. */
  lemma EvaluateAfterWinning(s: State, m: Move, p: Mark)
    requires Shaped(s) && Free(s, m) && IsPlayer(p) && s.status[m.board] == Blank
    requires SmallResult(s.board[m.board][m.cell := p], Blank) == p
    ensures var t, lines := Play(s, m, p), LiveThrough(s.status, m.board, LINE_COUNT);
            && t.status == s.status[m.board := p]
            && Sign(p) * (Evaluate(t) - Evaluate(s)) >= 100 - 10 * Sign(p) * Tally(s.board[m.board]) + 250 * lines
            && (!Threat(s.status, m.board, Opponent(p)) ==>
                  Evaluate(t) - Evaluate(s) == Sign(p) * (100 + 250 * lines) - 10 * Tally(s.board[m.board]))
  {
    EvaluateAfter(s, m, p);
    TallyMarked(s.status, m.board, p);
    LinesByCells(s.board[m.board], LINE_COUNT, 10);
  }
}
