/** The heuristic against the scores of finished games: when an agent that searches a few moves
    ahead takes a win it has at once, and when it does not. */
module Horizon {
  import opened Board
  import opened Rules
  import opened Scores
  import opened Evaluation
  import opened Heuristic
  import opened Minimax
  import opened Choice
  import opened Wrappers

  /** The game's result, Blank for none, after move m of the agent. */
  function ResultOf(s: State, m: Move): Mark
    requires Shaped(s) && Free(s, m)
  {
    TerminalResult(Play(s, m, O).status)
  }

  /** The k-th listed move is the first that wins at once. */
  ghost predicate FirstWin(s: State, k: nat)
    requires Shaped(s)
  {
    && k < |ValidMoves(s)| && ResultOf(s, ValidMoves(s)[k]) == O
    && forall i :: 0 <= i < k ==> ResultOf(s, ValidMoves(s)[i]) != O
  }

  /** No score is above v, and none of the first k as much. */
  predicate NothingAbove(w: seq<Score>, v: Score, k: nat)
    requires k <= |w|
  {
    (forall i :: 0 <= i < |w| ==> Le(w[i], v)) && (forall i :: 0 <= i < k ==> Lt(w[i], v))
  }

  /** An agent that looks at least one move beyond its own takes the win it has at once exactly
      when no listed move is worth more than a won game and none before the first win as much;
      it then takes the first. */
  lemma WinTakenExactly(s: State, depth: int, k: nat)
    requires Consistent(s) && TerminalResult(s.status) == Blank && depth != 0 && depth != 1
    requires FirstWin(s, k)
    ensures Chosen(s, depth).Some?
    ensures ResultOf(s, Chosen(s, depth).value) == O <==> NothingAbove(Worths(s, ValidMoves(s), depth), Fin(1000), k)
    ensures ResultOf(s, Chosen(s, depth).value) == O ==> Chosen(s, depth).value == ValidMoves(s)[k]
  {
    var w := Worths(s, ValidMoves(s), depth);
    var j := ChosenAt(s, depth);
    WinsAreWorth(s, depth, j);
    WinsAreWorth(s, depth, k);
    FirstMaximumIs(w, j, k);
  }

  lemma ChosenAt(s: State, depth: int) returns (k: nat)
    requires Consistent(s) && TerminalResult(s.status) == Blank
    ensures FirstMaximum(Worths(s, ValidMoves(s), depth), k)
    ensures Chosen(s, depth) == Some(ValidMoves(s)[k])
  {
    ChosenIsOptimal(s, depth);
    k :| FirstMaximum(Worths(s, ValidMoves(s), depth), k) && Chosen(s, depth).value == ValidMoves(s)[k];
  }

  lemma WinsAreWorth(s: State, depth: int, i: nat)
    requires Shaped(s) && i < |ValidMoves(s)| && depth != 1
    ensures ResultOf(s, ValidMoves(s)[i]) == O ==> Worths(s, ValidMoves(s), depth)[i] == Fin(1000)
  {
    WorthAt(s, ValidMoves(s), depth, i);
  }

  lemma FirstMaximumIs(w: seq<Score>, j: nat, k: nat)
    requires FirstMaximum(w, j) && k < |w| && w[k].Fin?
    ensures NothingAbove(w, w[k], k) <==> j == k
    ensures k < j ==> w[j] != w[k]
  {
    assert j < k && w[j] == w[k] ==> !NothingAbove(w, w[k], k);
  }

  // ----- Two moves ahead

  /** Against move m of the agent X has a reply after which the heuristic is at most v. */
  ghost predicate Refuted(s: State, m: Move, v: int)
    requires Shaped(s) && Free(s, m)
  {
    exists x :: Allowed(Play(s, m, O), x) && Evaluate(Play(Play(s, m, O), x, X)) <= v
  }

  lemma {:induction false} WorstReply(t: State, moves: seq<Move>, v: int)
    requires Playable(t, moves)
    ensures Le(Best(t, moves, 1, false), Fin(v))
       <==> exists i :: 0 <= i < |moves| && Evaluate(Play(t, moves[i], X)) <= v
    decreases |moves|
  {
    if moves != [] {
      var rest := moves[1..];
      WorstReply(t, rest, v);
      assert forall i :: 0 <= i < |rest| ==> rest[i] == moves[i + 1];
      assert forall i :: 0 < i < |moves| ==> moves[i] == rest[i - 1];
    }
  }

  /** To an agent that searches two moves ahead, a move that does not end the game is worth at most
      v exactly when it is so refuted, and one that ends it is worth the result. */
  lemma WorthTwoAhead(s: State, m: Move, v: int)
    requires Consistent(s) && Allowed(s, m)
    ensures ResultOf(s, m) == Blank ==> (Le(Value(Play(s, m, O), 1, false), Fin(v)) <==> Refuted(s, m, v))
    ensures ResultOf(s, m) != Blank ==> Value(Play(s, m, O), 1, false) == TerminalScore(ResultOf(s, m))
  {
    var t := Play(s, m, O);
    if ResultOf(s, m) == Blank {
      PlayKeepsConsistent(s, m, O);
      WorstReply(t, ValidMoves(t), v);
      RepliesAreListed(t, v);
    }
  }

  lemma RepliesAreListed(t: State, v: int)
    requires Consistent(t)
    ensures (exists i :: 0 <= i < |ValidMoves(t)| && Evaluate(Play(t, ValidMoves(t)[i], X)) <= v)
       <==> exists x :: Allowed(t, x) && Evaluate(Play(t, x, X)) <= v
  {
    AllAllowed(t);
    if x :| Allowed(t, x) && Evaluate(Play(t, x, X)) <= v {
      MoveListMatchesValidation(t, x);
    }
  }

  /** What listed move i is worth to that agent. */
  lemma WorthInList(s: State, i: nat, v: int)
    requires Consistent(s) && i < |ValidMoves(s)|
    ensures var m, w := ValidMoves(s)[i], Worths(s, ValidMoves(s), 2)[i];
            && Allowed(s, m)
            && (ResultOf(s, m) == Blank ==> (Le(w, Fin(v)) <==> Refuted(s, m, v)))
            && (ResultOf(s, m) != Blank ==> w == TerminalScore(ResultOf(s, m)))
  {
    AllAllowed(s);
    WorthAt(s, ValidMoves(s), 2, i);
    assert Allowed(s, ValidMoves(s)[i]);
    WorthTwoAhead(s, ValidMoves(s)[i], v);
  }

  lemma BelowIsAtMost(w: Score, v: int)
    requires w.Fin?
    ensures Lt(w, Fin(v)) <==> Le(w, Fin(v - 1))
  {
  }

  /** At the easy level, two moves ahead, the agent takes the win it has at once exactly when X can
      answer every listed move that does not end the game so that the heuristic is at most that of
      a won game, or below it where the move stands before the win. */
  lemma EasyAgentTakesWin(s: State, k: nat)
    requires Consistent(s) && TerminalResult(s.status) == Blank && FirstWin(s, k)
    ensures Chosen(s, 2).Some?
    ensures ResultOf(s, Chosen(s, 2).value) == O
       <==> forall i :: 0 <= i < |ValidMoves(s)| && ResultOf(s, ValidMoves(s)[i]) == Blank ==>
              Refuted(s, ValidMoves(s)[i], if i < k then 999 else 1000)
  {
    var moves, w := ValidMoves(s), Worths(s, ValidMoves(s), 2);
    WinTakenExactly(s, 2, k);
    forall i | 0 <= i < |moves|
      ensures (Le(w[i], Fin(1000)) && (i < k ==> Lt(w[i], Fin(1000))))
         <==> (ResultOf(s, moves[i]) == Blank ==> Refuted(s, moves[i], if i < k then 999 else 1000))
    {
      WorthBound(s, i, k);
    }
  }

  lemma WorthBound(s: State, i: nat, k: nat)
    requires Consistent(s) && TerminalResult(s.status) == Blank && FirstWin(s, k) && i < |ValidMoves(s)|
    ensures var m, w := ValidMoves(s)[i], Worths(s, ValidMoves(s), 2)[i];
            (Le(w, Fin(1000)) && (i < k ==> Lt(w, Fin(1000))))
            <==> (ResultOf(s, m) == Blank ==> Refuted(s, m, if i < k then 999 else 1000))
  {
    var m, w := ValidMoves(s)[i], Worths(s, ValidMoves(s), 2)[i];
    WorthInList(s, i, if i < k then 999 else 1000);
    WorthIsFinite(s, i);
    BelowIsAtMost(w, 1000);
    OnlyMoverWins(s, m, O);
  }

  lemma WorthIsFinite(s: State, i: nat)
    requires Consistent(s) && i < |ValidMoves(s)|
    ensures Worths(s, ValidMoves(s), 2)[i].Fin?
  {
    AllAllowed(s);
    assert Allowed(s, ValidMoves(s)[i]);
    WorthAt(s, ValidMoves(s), 2, i);
    PlayKeepsConsistent(s, ValidMoves(s)[i], O);
    ValueIsFinite(Play(s, ValidMoves(s)[i], O), 1, false);
  }

  /** The move that agent plays: one that X cannot hold below v, while every other is held to v, or
      below it where it stands before. */
  ghost predicate Preferred(s: State, m: Move, v: int)
    requires Shaped(s) && Allowed(s, m)
  {
    && ResultOf(s, m) == Blank && !Refuted(s, m, v - 1)
    && forall q :: Allowed(s, q) && q != m ==>
         ResultOf(s, q) == Blank && Refuted(s, q, if Rank(q) < Rank(m) then v - 1 else v)
  }

  lemma PreferredIsChosen(s: State, m: Move, v: int)
    requires Consistent(s) && TerminalResult(s.status) == Blank && Allowed(s, m) && Preferred(s, m, v)
    ensures Chosen(s, 2) == Some(m)
  {
    var moves, w := ValidMoves(s), Worths(s, ValidMoves(s), 2);
    var k := ChosenAt(s, 2);
    var j := IndexOf(s, m);
    if k != j {
      ValidMovesOrdered(s);
      assert Rank(moves[k]) < Rank(m) <==> k < j;
      WorthInList(s, j, v - 1);
      WorthInList(s, k, if k < j then v - 1 else v);
      WorthIsFinite(s, j);
      WorthIsFinite(s, k);
    }
  }

  lemma IndexOf(s: State, m: Move) returns (i: nat)
    requires Consistent(s) && Allowed(s, m)
    ensures i < |ValidMoves(s)| && ValidMoves(s)[i] == m
  {
    MoveListMatchesValidation(s, m);
    i :| 0 <= i < |ValidMoves(s)| && ValidMoves(s)[i] == m;
  }

  // ----- Where it plays on

  /** Every reply to m leaves its board open. */
  ghost predicate RepliesQuiet(s: State, m: Move)
    requires Shaped(s) && Free(s, m)
  {
    forall x :: Allowed(Play(s, m, O), x) ==> Quiet(Play(s, m, O), x, X)
  }

  lemma QuietRepliesStayHigh(s: State, m: Move)
    requires Consistent(s) && Allowed(s, m) && Quiet(s, m, O) && RepliesQuiet(s, m)
    ensures !Refuted(s, m, Evaluate(s) - 81)
  {
    var t := Play(s, m, O);
    EvaluateAfterQuiet(s, m, O);
    TallyMarked(s.board[m.board], m.cell, O);
    forall x | Allowed(t, x) ensures Evaluate(Play(t, x, X)) >= Evaluate(s) - 80 {
      EvaluateAfterQuiet(t, x, X);
      TallyMarked(t.board[x.board], x.cell, X);
    }
  }

  /** Where the heuristic is above 1080 and a move, with every reply to it, leaves all boards open,
      the easy agent does not end the game, even if it could win at once. */
  lemma EasyAgentPlaysOn(s: State, m: Move)
    requires Consistent(s) && TerminalResult(s.status) == Blank && Evaluate(s) > 1080
    requires Allowed(s, m) && Quiet(s, m, O) && RepliesQuiet(s, m)
    ensures Chosen(s, 2).Some? && ResultOf(s, Chosen(s, 2).value) == Blank
  {
    EvaluateAfterQuiet(s, m, O);
    QuietRepliesStayHigh(s, m);
    var i := IndexOf(s, m);
    var k := ChosenAt(s, 2);
    WorthInList(s, i, Evaluate(s) - 81);
    WorthInList(s, k, 1000);
    WorthIsFinite(s, i);
    MaximumIsHigh(Worths(s, ValidMoves(s), 2), i, k, Evaluate(s) - 81);
  }

  lemma MaximumIsHigh(w: seq<Score>, i: nat, k: nat, v: int)
    requires FirstMaximum(w, k) && i < |w| && !Le(w[i], Fin(v))
    ensures !Le(w[k], Fin(v))
  {
  }
}
