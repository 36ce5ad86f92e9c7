/** The agent's choice (www/static/main.js:670-704) and what a deep enough search means. */
module Choice {
  import opened Board
  import opened Rules
  import opened Scores
  import opened Minimax
  import opened Wrappers

  /** What each listed move is worth to the agent: the unpruned values of the successors. */
  function Worths(s: State, moves: seq<Move>, depth: int): (w: seq<Score>)
    requires Playable(s, moves)
    ensures |w| == |moves|
    decreases |moves|
  {
    if moves == [] then []
    else [Value(Play(s, moves[0], O), depth - 1, false)] + Worths(s, moves[1..], depth)
  }

  lemma {:induction false} WorthAt(s: State, moves: seq<Move>, depth: int, i: nat)
    requires Playable(s, moves) && i < |moves|
    ensures Worths(s, moves, depth)[i] == Value(Play(s, moves[i], O), depth - 1, false)
    decreases |moves|
  {
    if i > 0 {
      WorthAt(s, moves[1..], depth, i - 1);
    }
  }

  /** The full-window search of a successor finds what the move is worth. */
  lemma SearchFindsWorth(s: State, moves: seq<Move>, i: nat, depth: int)
    requires Playable(s, moves) && i < |moves|
    ensures AlphaBeta(Play(s, moves[i], O), depth - 1, NegInf, PosInf, false) == Worths(s, moves, depth)[i]
  {
    FullWindowIsExact(Play(s, moves[i], O), depth - 1, false);
    WorthAt(s, moves, depth, i);
  }

  /** `bestScore` after the first n scores and the index it came from, -1 for none. */
  function Leader(w: seq<Score>, n: nat): (leader: (Score, int))
    requires n <= |w|
    ensures leader.1 < n
  {
    if n == 0 then (NegInf, -1)
    else if Lt(Leader(w, n - 1).0, w[n - 1]) then (w[n - 1], n - 1)
    else Leader(w, n - 1)
  }

  /** `bestMove` after the first n moves. */
  function Leading(moves: seq<Move>, w: seq<Score>, n: nat): Option<Move>
    requires n <= |w| == |moves|
  {
    if Leader(w, n).1 < 0 then None else Some(moves[Leader(w, n).1])
  }

  /** `getBestMove`. */
  function Chosen(s: State, depth: int): (move: Option<Move>)
    requires Shaped(s)
    ensures move.Some? ==> Free(s, move.value)
  {
    var moves := ValidMoves(s);
    Leading(moves, Worths(s, moves, depth), |moves|)
  }

  /** The k-th score is at least every score and strictly above every earlier one. */
  ghost predicate FirstMaximum(w: seq<Score>, k: nat) {
    && k < |w|
    && (forall i :: 0 <= i < |w| ==> Le(w[i], w[k]))
    && (forall i :: 0 <= i < k ==> Lt(w[i], w[k]))
  }

  lemma {:induction false} LeaderIsFirstMaximum(w: seq<Score>, n: nat)
    requires n <= |w|
    ensures Leader(w, n).1 < 0 <==> forall i :: 0 <= i < n ==> w[i] == NegInf
    ensures Leader(w, n).1 < 0 ==> Leader(w, n).0 == NegInf
    ensures Leader(w, n).1 >= 0 ==>
              FirstMaximum(w[..n], Leader(w, n).1) && Leader(w, n).0 == w[Leader(w, n).1]
  {
    if n > 0 {
      LeaderIsFirstMaximum(w, n - 1);
      assert forall i :: 0 <= i < n - 1 ==> w[..n][i] == w[..n - 1][i];
    }
  }

  // ----- Positions that occur in play

  /** In a consistent position every depth gives a finite value. */
  lemma {:induction false} ValueIsFinite(s: State, depth: int, maximizing: bool)
    requires Consistent(s)
    ensures Value(s, depth, maximizing).Fin?
    decreases Blanks(s), 1, 0
  {
    if depth != 0 && TerminalResult(s.status) == Blank {
      NeverStuck(s);
      AllAllowed(s);
      BestIsFinite(s, ValidMoves(s), depth, maximizing);
    }
  }

  ghost predicate AllowedAll(s: State, moves: seq<Move>)
    requires Shaped(s)
  {
    forall i :: 0 <= i < |moves| ==> Allowed(s, moves[i])
  }

  lemma AllAllowed(s: State)
    requires Consistent(s)
    ensures AllowedAll(s, ValidMoves(s))
  {
    forall i | 0 <= i < |ValidMoves(s)| ensures Allowed(s, ValidMoves(s)[i]) {
      MoveListMatchesValidation(s, ValidMoves(s)[i]);
    }
  }

  lemma {:induction false} BestIsFinite(s: State, moves: seq<Move>, depth: int, maximizing: bool)
    requires Consistent(s) && AllowedAll(s, moves)
    ensures moves != [] ==> Best(s, moves, depth, maximizing).Fin?
    decreases Blanks(s), 0, |moves|
  {
    if moves != [] {
      PlayFillsOneCell(s, moves[0], Mover(maximizing));
      PlayKeepsConsistent(s, moves[0], Mover(maximizing));
      ValueIsFinite(Play(s, moves[0], Mover(maximizing)), depth - 1, !maximizing);
      BestIsFinite(s, moves[1..], depth, maximizing);
    }
  }

  /** The agent always has a move, it is legal, and it is the first that maximizes the value of
      the position left to the opponent. */
  lemma ChosenIsOptimal(s: State, depth: int)
    requires Consistent(s) && TerminalResult(s.status) == Blank
    ensures Chosen(s, depth).Some? && Allowed(s, Chosen(s, depth).value)
    ensures exists k: nat :: FirstMaximum(Worths(s, ValidMoves(s), depth), k)
                          && Chosen(s, depth).value == ValidMoves(s)[k]
  {
    NeverStuck(s);
    AllAllowed(s);
    FirstWorthIsFinite(s, ValidMoves(s), depth);
    ChosenIsFirstMaximum(s, depth);
  }

  lemma ChosenIsFirstMaximum(s: State, depth: int)
    requires Shaped(s)
    requires exists i :: 0 <= i < |ValidMoves(s)| && Worths(s, ValidMoves(s), depth)[i] != NegInf
    ensures exists k: nat :: FirstMaximum(Worths(s, ValidMoves(s), depth), k)
                          && Chosen(s, depth) == Some(ValidMoves(s)[k])
  {
    var w := Worths(s, ValidMoves(s), depth);
    LeaderIsFirstMaximum(w, |w|);
    assert w[..|w|] == w;
    assert FirstMaximum(w, Leader(w, |w|).1);
  }

  /** Position t is what the first of the listed moves leaves whose successors have, searched one
      ply less deep, the greatest unpruned value. */
  ghost predicate PlayedBest(s: State, depth: int, t: State)
    requires Shaped(s)
  {
    exists k: nat :: FirstMaximum(Worths(s, ValidMoves(s), depth), k) && t == Play(s, ValidMoves(s)[k], O)
  }

  lemma ChosenIsBest(s: State, depth: int)
    requires Consistent(s) && TerminalResult(s.status) == Blank
    ensures Chosen(s, depth).Some? && PlayedBest(s, depth, Play(s, Chosen(s, depth).value, O))
  {
    ChosenIsOptimal(s, depth);
  }

  /** The value of a position to move is the value of what the chosen move leaves. */
  lemma ChosenKeepsValue(s: State, depth: int)
    requires Consistent(s) && TerminalResult(s.status) == Blank && depth != 0
    ensures Chosen(s, depth).Some? && Allowed(s, Chosen(s, depth).value)
    ensures Value(Play(s, Chosen(s, depth).value, O), depth - 1, false) == Value(s, depth, true)
  {
    ChosenIsOptimal(s, depth);
    var w := Worths(s, ValidMoves(s), depth);
    var k: nat :| FirstMaximum(w, k) && Chosen(s, depth).value == ValidMoves(s)[k];
    BestIsMaxOfWorths(s, ValidMoves(s), depth);
    MaxOfIsFirstMaximum(w, k);
    WorthAt(s, ValidMoves(s), depth, k);
  }

  lemma FirstWorthIsFinite(s: State, moves: seq<Move>, depth: int)
    requires Consistent(s) && AllowedAll(s, moves) && moves != []
    ensures Worths(s, moves, depth)[0].Fin?
  {
    assert Allowed(s, moves[0]);
    PlayKeepsConsistent(s, moves[0], O);
    ValueIsFinite(Play(s, moves[0], O), depth - 1, false);
  }

  function MaxOf(w: seq<Score>): Score {
    if w == [] then NegInf else Max(w[0], MaxOf(w[1..]))
  }

  lemma {:induction false} BestIsMaxOfWorths(s: State, moves: seq<Move>, depth: int)
    requires Playable(s, moves)
    ensures Best(s, moves, depth, true) == MaxOf(Worths(s, moves, depth))
    decreases |moves|
  {
    if moves != [] {
      BestIsMaxOfWorths(s, moves[1..], depth);
    }
  }

  lemma {:induction false} MaxOfIsFirstMaximum(w: seq<Score>, k: nat)
    requires FirstMaximum(w, k)
    ensures MaxOf(w) == w[k]
  {
    MaxOfBounds(w, w[k]);
    MaxOfReaches(w, k);
  }

  lemma {:induction false} MaxOfBounds(w: seq<Score>, bound: Score)
    requires forall i :: 0 <= i < |w| ==> Le(w[i], bound)
    ensures Le(MaxOf(w), bound)
  {
    if w != [] {
      MaxOfBounds(w[1..], bound);
    }
  }

  lemma {:induction false} MaxOfReaches(w: seq<Score>, k: nat)
    requires k < |w|
    ensures Le(w[k], MaxOf(w))
  {
    if k > 0 {
      MaxOfReaches(w[1..], k - 1);
    }
  }

  // ----- The value, ply by ply

  /** What a move is worth to the player who makes it, searched one ply less deep. */
  function Child(s: State, m: Move, depth: int, maximizing: bool): Score
    requires Shaped(s) && Free(s, m)
  {
    Value(Play(s, m, Mover(maximizing)), depth - 1, !maximizing)
  }

  predicate NoBetter(a: Score, b: Score, maximizing: bool) {
    if maximizing then Le(a, b) else Le(b, a)
  }

  lemma BestStep(s: State, moves: seq<Move>, depth: int, maximizing: bool)
    requires Playable(s, moves) && moves != []
    ensures var first, rest := Child(s, moves[0], depth, maximizing), Best(s, moves[1..], depth, maximizing);
            Best(s, moves, depth, maximizing) == if maximizing then Max(first, rest) else Min(first, rest)
    ensures Best(s, [], depth, maximizing) == if maximizing then NegInf else PosInf
  {
  }

  lemma ChildIsFinite(s: State, m: Move, depth: int, maximizing: bool)
    requires Consistent(s) && Allowed(s, m)
    ensures Child(s, m, depth, maximizing).Fin?
  {
    PlayKeepsConsistent(s, m, Mover(maximizing));
    ValueIsFinite(Play(s, m, Mover(maximizing)), depth - 1, !maximizing);
  }

  lemma {:induction false} BestIsExtreme(s: State, moves: seq<Move>, depth: int, maximizing: bool)
    requires Consistent(s) && AllowedAll(s, moves) && moves != []
    ensures exists i :: 0 <= i < |moves| && Best(s, moves, depth, maximizing) == Child(s, moves[i], depth, maximizing)
    ensures forall i :: 0 <= i < |moves| ==>
              NoBetter(Child(s, moves[i], depth, maximizing), Best(s, moves, depth, maximizing), maximizing)
    decreases |moves|
  {
    var rest := moves[1..];
    ChildIsFinite(s, moves[0], depth, maximizing);
    BestStep(s, moves, depth, maximizing);
    if rest != [] {
      BestIsExtreme(s, rest, depth, maximizing);
      Extreme(Child(s, moves[0], depth, maximizing), Best(s, rest, depth, maximizing), maximizing);
      assert forall i :: 0 <= i < |rest| ==> rest[i] == moves[i + 1];
    }
  }

  lemma Extreme(a: Score, b: Score, maximizing: bool)
    ensures var e := if maximizing then Max(a, b) else Min(a, b);
            && (e == a || e == b) && NoBetter(a, e, maximizing)
            && forall c :: NoBetter(c, b, maximizing) ==> NoBetter(c, e, maximizing)
  {
  }

  /** The value of a position of play, at any depth, by allowed moves: that of some move of the
      player to move, and no move is worth more to that player. */
  lemma ValueByPlies(s: State, depth: int, maximizing: bool)
    requires Consistent(s) && TerminalResult(s.status) == Blank && depth != 0
    ensures exists m :: Allowed(s, m) && Value(s, depth, maximizing) == Child(s, m, depth, maximizing)
    ensures forall m :: Allowed(s, m) ==>
              NoBetter(Child(s, m, depth, maximizing), Value(s, depth, maximizing), maximizing)
  {
    NeverStuck(s);
    AllAllowed(s);
    BestIsExtreme(s, ValidMoves(s), depth, maximizing);
    forall m | Allowed(s, m)
      ensures NoBetter(Child(s, m, depth, maximizing), Value(s, depth, maximizing), maximizing)
    {
      MoveListMatchesValidation(s, m);
    }
  }

  // ----- Depth saturation

  /** A depth that no line of play can use up. */
  predicate Exhaustive(s: State, depth: int)
    requires Shaped(s)
  {
    depth < 0 || Blanks(s) < depth
  }

  predicate IsResult(v: Score) {
    v == Fin(-1000) || v == Fin(0) || v == Fin(1000)
  }

  /** Beyond the number of empty cells the depth no longer matters, and the heuristic is never
      consulted: the value is a loss, a draw or a win. */
  lemma {:induction false} Saturation(s: State, depth: int, maximizing: bool)
    requires Consistent(s) && Exhaustive(s, depth)
    ensures Value(s, depth, maximizing) == Value(s, -1, maximizing)
    ensures IsResult(Value(s, depth, maximizing))
    decreases Blanks(s), 1, 0
  {
    if TerminalResult(s.status) == Blank {
      NeverStuck(s);
      AllAllowed(s);
      SaturatedBest(s, ValidMoves(s), depth, maximizing);
      SaturatedBest(s, ValidMoves(s), -1, maximizing);
    }
  }

  lemma {:induction false} SaturatedBest(s: State, moves: seq<Move>, depth: int, maximizing: bool)
    requires Consistent(s) && Exhaustive(s, depth) && AllowedAll(s, moves)
    ensures Best(s, moves, depth, maximizing) == Best(s, moves, -1, maximizing)
    ensures moves != [] ==> IsResult(Best(s, moves, depth, maximizing))
    decreases Blanks(s), 0, |moves|
  {
    if moves != [] {
      var t := Play(s, moves[0], Mover(maximizing));
      assert Consistent(t) && Blanks(t) == Blanks(s) - 1 by {
        assert Allowed(s, moves[0]);
        PlayFillsOneCell(s, moves[0], Mover(maximizing));
        PlayKeepsConsistent(s, moves[0], Mover(maximizing));
      }
      Saturation(t, depth - 1, !maximizing);
      Saturation(t, -2, !maximizing);
      SaturatedBest(s, moves[1..], depth, maximizing);
      BestStep(s, moves, depth, maximizing);
      BestStep(s, moves, -1, maximizing);
    }
  }

  lemma AnyTwoExhaustiveDepthsAgree(s: State, d: int, e: int, maximizing: bool)
    requires Consistent(s) && Exhaustive(s, d) && Exhaustive(s, e)
    ensures AlphaBeta(s, d, NegInf, PosInf, maximizing) == AlphaBeta(s, e, NegInf, PosInf, maximizing)
    ensures IsResult(AlphaBeta(s, d, NegInf, PosInf, maximizing))
  {
    Saturation(s, d, maximizing);
    Saturation(s, e, maximizing);
    FullWindowIsExact(s, d, maximizing);
    FullWindowIsExact(s, e, maximizing);
  }
}
