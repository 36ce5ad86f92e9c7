/** Whole sessions of play: the page's events as steps, and what every run of them keeps.
    The human plays X and the agent O. Timers are off, and the restart button is not pressed
    while an agent callback is queued. */
module Sessions {
  import opened Board
  import opened Rules
  import opened Scores
  import opened Minimax
  import opened Choice

  datatype Phase = NotStarted | Ongoing | Finished(result: Mark)

  /** `starter` records who began the current game; `firstPlayer` is the toggle, which only
      takes effect at the next start. */
  datatype Session = Session(pos: State, phase: Phase, turn: Mark, firstPlayer: Mark, difficulty: int,
                             humanWins: nat, agentWins: nat, draws: nat,
                             humanMoves: nat, agentMoves: nat, starter: Mark)

  datatype Event =
    | Restart
    | Click(move: Move)
    | AgentTurn
    | ChooseFirst(player: Mark)
    | ChooseDifficulty(depth: int)

  // ----- Steps

  function Opening(): Session {
    Session(EmptyState(), NotStarted, X, X, 4, 0, 0, 0, 0, 0, X)
  }

  function Started(s: Session): Session {
    var first := if s.firstPlayer == X then X else O;
    s.(pos := EmptyState(), phase := Ongoing, turn := first, starter := first, humanMoves := 0, agentMoves := 0)
  }

  /** `checkGameOver`: the phase and the result counters after a move. */
  function Judged(s: Session): Session
    requires Shaped(s.pos)
  {
    var result := TerminalResult(s.pos.status);
    if result == Blank then s
    else if result == X then s.(phase := Finished(result), humanWins := s.humanWins + 1)
    else if result == O then s.(phase := Finished(result), agentWins := s.agentWins + 1)
    else s.(phase := Finished(result), draws := s.draws + 1)
  }

  /** `makeMove`. */
  function Moved(s: Session, m: Move, p: Mark): (t: Session)
    requires Shaped(s.pos) && m.board < 9 && m.cell < 9 && IsPlayer(p)
    ensures Shaped(t.pos)
  {
    Judged(s.(pos := Play(s.pos, m, p),
              humanMoves := s.humanMoves + (if p == X then 1 else 0),
              agentMoves := s.agentMoves + (if p == O then 1 else 0)))
  }

  /** A move followed by the change of turn, which happens only while the game goes on. */
  function TurnTaken(s: Session, m: Move, p: Mark): (t: Session)
    requires Shaped(s.pos) && m.board < 9 && m.cell < 9 && IsPlayer(p)
    ensures Shaped(t.pos)
  {
    var t := Moved(s, m, p);
    if t.phase == Ongoing then t.(turn := Opponent(p)) else t
  }

  function Clicked(s: Session, m: Move): (t: Session)
    requires Shaped(s.pos)
    ensures Shaped(t.pos)
  {
    if s.phase != Ongoing || s.turn != X || !Allowed(s.pos, m) then s else TurnTaken(s, m, X)
  }

  function AgentMoved(s: Session): (t: Session)
    requires Shaped(s.pos)
    ensures Shaped(t.pos)
  {
    match Chosen(s.pos, s.difficulty)
    case None => s
    case Some(m) => TurnTaken(s, m, O)
  }

  function Step(s: Session, e: Event): (t: Session)
    requires Shaped(s.pos)
    ensures Shaped(t.pos)
  {
    match e
    case Restart => Started(s)
    case Click(m) => Clicked(s, m)
    case AgentTurn => AgentMoved(s)
    case ChooseFirst(p) => s.(firstPlayer := p)
    case ChooseDifficulty(d) => s.(difficulty := d)
  }

  /** An agent callback is queued exactly while the game goes on and O is to move. */
  predicate AgentPending(s: Session) {
    s.phase == Ongoing && s.turn == O
  }

  predicate Enabled(s: Session, e: Event) {
    match e
    case Restart => !AgentPending(s)
    case AgentTurn => AgentPending(s)
    case ChooseFirst(p) => IsPlayer(p)
    case _ => true
  }

  // ----- Runs

  function After(s: Session, run: seq<Event>): (t: Session)
    requires Shaped(s.pos)
    ensures Shaped(t.pos)
    decreases |run|
  {
    if run == [] then s else After(Step(s, run[0]), run[1..])
  }

  predicate IsRun(s: Session, run: seq<Event>)
    requires Shaped(s.pos)
    decreases |run|
  {
    run == [] || (Enabled(s, run[0]) && IsRun(Step(s, run[0]), run[1..]))
  }

  /** How many more cells the starter has taken than the other player. */
  function Lead(s: Session): int {
    if s.starter == X then s.humanMoves - s.agentMoves else s.agentMoves - s.humanMoves
  }

  /** What every run keeps. Cells and the starter fix whose turn it is; a finished game shows
      its result and was finished by the player whose turn it still is. */
  ghost predicate Sound(s: Session) {
    && Consistent(s.pos)
    && IsPlayer(s.turn) && IsPlayer(s.starter) && IsPlayer(s.firstPlayer)
    && Count(s.pos.board, X) == s.humanMoves
    && Count(s.pos.board, O) == s.agentMoves
    && Blanks(s.pos) + s.humanMoves + s.agentMoves == 81
    && match s.phase
       case NotStarted => s.pos == EmptyState()
       case Ongoing =>
         && TerminalResult(s.pos.status) == Blank
         && Lead(s) == if s.turn == s.starter then 0 else 1
       case Finished(result) =>
         && TerminalResult(s.pos.status) == result
         && result in {s.turn, Draw}
         && Lead(s) == if s.turn == s.starter then 1 else 0
  }

  lemma FreshGameIsSound(t: Session, empty: State)
    requires Consistent(empty) && TerminalResult(empty.status) == Blank && Blanks(empty) == 81
    requires Count(empty.board, X) == 0 && Count(empty.board, O) == 0
    requires t.pos == empty && IsPlayer(t.turn)
    requires t.phase == Ongoing || (t.phase == NotStarted && empty == EmptyState())
    requires t.firstPlayer == t.starter == t.turn && t.humanMoves == t.agentMoves == 0
    ensures Sound(t)
  {
  }

  lemma StartIsSound(s: Session)
    requires IsPlayer(s.firstPlayer)
    ensures Sound(Started(s))
  {
    EmptyStateIsConsistent();
    FreshGameIsSound(Started(s), EmptyState());
  }

  lemma OpeningIsSound()
    ensures Sound(Opening())
  {
    EmptyStateIsConsistent();
    FreshGameIsSound(Opening(), EmptyState());
  }

  /** The agent plays a move of the greatest value, looking as many plies ahead as the difficulty
      says. */
  lemma AgentPlaysBest(s: Session)
    requires Shaped(s.pos)
    ensures Consistent(s.pos) && TerminalResult(s.pos.status) == Blank ==>
              PlayedBest(s.pos, s.difficulty, AgentMoved(s).pos)
  {
    if Consistent(s.pos) && TerminalResult(s.pos.status) == Blank {
      ChosenIsBest(s.pos, s.difficulty);
    }
  }

  /** A game is over, with the verdict on its statuses, as soon as there is one. */
  lemma JudgedByVerdict(s: Session)
    requires Shaped(s.pos) && OneWinner(s.pos.status)
    ensures var verdict := Verdict(s.pos.status, Blank);
            Judged(s).phase == if verdict == Blank then s.phase else Finished(verdict)
  {
    TerminalResultIs(s.pos.status);
  }

  /** A click that is not for the human to make, or not on an allowed move, changes nothing. */
  lemma OtherClicksDoNothing(s: Session, m: Move)
    requires Shaped(s.pos)
    ensures Clicked(s, m) == s <==> !(s.phase == Ongoing && s.turn == X && Allowed(s.pos, m))
  {
    if s.phase == Ongoing && s.turn == X && Allowed(s.pos, m) {
      assert Clicked(s, m).pos.board[m.board][m.cell] == X;
    }
  }

  /** A turn counts one cell and one move for the player who takes it. */
  lemma TurnCounts(s: Session, m: Move)
    requires Sound(s) && s.phase == Ongoing && Allowed(s.pos, m)
    ensures var t := TurnTaken(s, m, s.turn);
            && t.pos == Play(s.pos, m, s.turn) && t.starter == s.starter && t.firstPlayer == s.firstPlayer
            && Count(t.pos.board, X) == t.humanMoves && Count(t.pos.board, O) == t.agentMoves
            && Blanks(t.pos) == Blanks(s.pos) - 1
            && t.humanMoves + t.agentMoves == s.humanMoves + s.agentMoves + 1
            && Lead(t) == Lead(s) + (if s.turn == s.starter then 1 else -1)
  {
    PlayFillsOneCell(s.pos, m, s.turn);
  }

  lemma TurnKeepsSound(s: Session, m: Move)
    requires Sound(s) && s.phase == Ongoing && Allowed(s.pos, m)
    ensures Sound(TurnTaken(s, m, s.turn))
    ensures TurnTaken(s, m, s.turn).phase != NotStarted
    ensures Blanks(TurnTaken(s, m, s.turn).pos) == Blanks(s.pos) - 1
  {
    TurnCounts(s, m);
    PlayKeepsConsistent(s.pos, m, s.turn);
    OnlyMoverWins(s.pos, m, s.turn);
    var t := TurnTaken(s, m, s.turn);
    assert t.phase == if TerminalResult(t.pos.status) == Blank then Ongoing else Finished(TerminalResult(t.pos.status));
  }

  lemma StepKeepsSound(s: Session, e: Event)
    requires Sound(s) && Enabled(s, e)
    ensures Sound(Step(s, e))
  {
    match e
    case Restart => StartIsSound(s);
    case Click(m) =>
      if Clicked(s, m) != s {
        TurnKeepsSound(s, m);
      }
    case AgentTurn =>
      ChosenIsOptimal(s.pos, s.difficulty);
      TurnKeepsSound(s, Chosen(s.pos, s.difficulty).value);
    case ChooseFirst(p) =>
    case ChooseDifficulty(d) =>
  }

  lemma {:induction false} RunKeepsSound(s: Session, run: seq<Event>)
    requires Sound(s) && IsRun(s, run)
    ensures Sound(After(s, run))
    decreases |run|
  {
    if run != [] {
      StepKeepsSound(s, run[0]);
      RunKeepsSound(Step(s, run[0]), run[1..]);
    }
  }

  /** Every state a page can reach is sound. */
  lemma ReachableIsSound(run: seq<Event>)
    requires IsRun(Opening(), run)
    ensures Sound(After(Opening(), run))
  {
    OpeningIsSound();
    RunKeepsSound(Opening(), run);
  }

  // ----- Settings

  lemma {:induction false} RunConcat(s: Session, a: seq<Event>, b: seq<Event>)
    requires Shaped(s.pos) && IsRun(s, a + b)
    ensures IsRun(s, a) && IsRun(After(s, a), b) && After(s, a + b) == After(After(s, a), b)
    decreases |a|
  {
    if a == [] {
      assert a + b == b;
    } else {
      assert (a + b)[0] == a[0] && (a + b)[1..] == a[1..] + b;
      RunConcat(Step(s, a[0]), a[1..], b);
    }
  }

  predicate NoneChooses(run: seq<Event>) {
    forall i :: 0 <= i < |run| ==> !run[i].ChooseFirst?
  }

  predicate NoneRestarts(run: seq<Event>) {
    forall i :: 0 <= i < |run| ==> !run[i].Restart?
  }

  predicate NoneSets(run: seq<Event>) {
    forall i :: 0 <= i < |run| ==> !run[i].ChooseDifficulty?
  }

  /** A choice changes its setting and nothing else, a start leaves settings and counters alone, and
      a move the settings. */
  lemma StepSettings(s: Session, e: Event)
    requires Shaped(s.pos)
    ensures e.ChooseFirst? || e.ChooseDifficulty? ==>
              && Step(s, e).pos == s.pos && Step(s, e).phase == s.phase && Step(s, e).turn == s.turn
              && Step(s, e).humanMoves == s.humanMoves && Step(s, e).agentMoves == s.agentMoves
    ensures e.Restart? ==>
              && Step(s, e).pos == EmptyState() && Step(s, e).phase == Ongoing
              && Step(s, e).turn == (if s.firstPlayer == X then X else O)
    ensures e.ChooseFirst? || e.ChooseDifficulty? || e.Restart? ==>
              && Step(s, e).humanWins == s.humanWins && Step(s, e).agentWins == s.agentWins
              && Step(s, e).draws == s.draws
    ensures !e.ChooseFirst? ==> Step(s, e).firstPlayer == s.firstPlayer
    ensures !e.Restart? ==> Step(s, e).starter == s.starter
    ensures !e.ChooseDifficulty? ==> Step(s, e).difficulty == s.difficulty
  {
  }

  lemma Tails(run: seq<Event>)
    requires run != []
    ensures NoneChooses(run) <==> !run[0].ChooseFirst? && NoneChooses(run[1..])
    ensures NoneRestarts(run) <==> !run[0].Restart? && NoneRestarts(run[1..])
    ensures NoneSets(run) <==> !run[0].ChooseDifficulty? && NoneSets(run[1..])
  {
    assert forall i :: 0 < i < |run| ==> run[i] == run[1..][i - 1];
  }

  lemma {:induction false} SettingsKept(s: Session, run: seq<Event>)
    requires Shaped(s.pos) && IsRun(s, run)
    ensures NoneChooses(run) ==> After(s, run).firstPlayer == s.firstPlayer
    ensures NoneRestarts(run) ==> After(s, run).starter == s.starter
    ensures NoneSets(run) ==> After(s, run).difficulty == s.difficulty
    decreases |run|
  {
    if run != [] {
      SettingsKept(Step(s, run[0]), run[1..]);
      StepSettings(s, run[0]);
      Tails(run);
    }
  }

  /** The player who begins a game is the one last chosen before it was started, and the human when
      none was: in a run of a, a choice of p, b without a choice, a start, and c without a start,
      the current game was begun by p. */
  lemma StarterIsTheChosen(a: seq<Event>, p: Mark, b: seq<Event>, c: seq<Event>)
    requires NoneChooses(b) && NoneRestarts(c)
    ensures IsRun(Opening(), a + [ChooseFirst(p)] + b + [Restart] + c) ==>
              After(Opening(), a + [ChooseFirst(p)] + b + [Restart] + c).starter == p
    ensures IsRun(Opening(), b + [Restart] + c) ==> After(Opening(), b + [Restart] + c).starter == X
  {
    if IsRun(Opening(), a + [ChooseFirst(p)] + b + [Restart] + c) {
      RunConcat(Opening(), a + [ChooseFirst(p)] + b + [Restart], c);
      RunConcat(Opening(), a + [ChooseFirst(p)] + b, [Restart]);
      RunConcat(Opening(), a + [ChooseFirst(p)], b);
      RunConcat(Opening(), a, [ChooseFirst(p)]);
      StartedBy(After(After(Opening(), a), [ChooseFirst(p)]), b, c);
    }
    if IsRun(Opening(), b + [Restart] + c) {
      RunConcat(Opening(), b + [Restart], c);
      RunConcat(Opening(), b, [Restart]);
      StartedBy(Opening(), b, c);
    }
  }

  lemma StartedBy(s: Session, b: seq<Event>, c: seq<Event>)
    requires Shaped(s.pos) && IsPlayer(s.firstPlayer) && NoneChooses(b) && NoneRestarts(c)
    requires IsRun(s, b) && IsRun(After(s, b), [Restart]) && IsRun(After(After(s, b), [Restart]), c)
    ensures After(After(After(s, b), [Restart]), c).starter == s.firstPlayer
  {
    SettingsKept(s, b);
    SettingsKept(After(After(s, b), [Restart]), c);
    assert After(After(s, b), [Restart]) == Started(After(s, b));
  }

  /** And the depth of the agent is the one last chosen. */
  lemma DifficultyIsTheChosen(a: seq<Event>, d: int, b: seq<Event>)
    requires NoneSets(b)
    ensures IsRun(Opening(), a + [ChooseDifficulty(d)] + b) ==>
              After(Opening(), a + [ChooseDifficulty(d)] + b).difficulty == d
    ensures IsRun(Opening(), b) ==> After(Opening(), b).difficulty == 4
  {
    if IsRun(Opening(), a + [ChooseDifficulty(d)] + b) {
      RunConcat(Opening(), a + [ChooseDifficulty(d)], b);
      RunConcat(Opening(), a, [ChooseDifficulty(d)]);
      var s := After(Opening(), a);
      assert After(s, [ChooseDifficulty(d)]) == Step(s, ChooseDifficulty(d));
      SettingsKept(After(s, [ChooseDifficulty(d)]), b);
    }
    if IsRun(Opening(), b) {
      SettingsKept(Opening(), b);
    }
  }

  // ----- The game goes on, and ends

  /** While the game goes on and X is to move, some listed move is accepted as a click, and
      every accepted click leaves one cell fewer empty. */
  lemma HumanCanMove(s: Session)
    requires Sound(s) && s.phase == Ongoing && s.turn == X
    ensures exists m :: m in ValidMoves(s.pos) && Allowed(s.pos, m)
    ensures forall m :: Allowed(s.pos, m) ==> Blanks(Step(s, Click(m)).pos) == Blanks(s.pos) - 1
  {
    var first := SomeMove(s.pos);
    forall m | Allowed(s.pos, m) ensures Blanks(Step(s, Click(m)).pos) == Blanks(s.pos) - 1 {
      TurnKeepsSound(s, m);
    }
  }

  lemma SomeMove(s: State) returns (m: Move)
    requires Consistent(s) && TerminalResult(s.status) == Blank
    ensures m in ValidMoves(s) && Allowed(s, m)
  {
    NeverStuck(s);
    m := ValidMoves(s)[0];
    MoveListMatchesValidation(s, m);
  }

  /** A queued agent callback always makes a move. */
  lemma AgentAlwaysMoves(s: Session)
    requires Sound(s) && AgentPending(s)
    ensures Blanks(Step(s, AgentTurn).pos) == Blanks(s.pos) - 1
    ensures Step(s, AgentTurn).phase != NotStarted
  {
    ChosenIsOptimal(s.pos, s.difficulty);
    TurnKeepsSound(s, Chosen(s.pos, s.difficulty).value);
  }

  /** No game is still going after its 81st move. */
  lemma GameEndsWithin81Moves(s: Session)
    requires Sound(s)
    ensures s.humanMoves + s.agentMoves <= 81
    ensures s.humanMoves + s.agentMoves == 81 ==> s.phase.Finished?
  {
    EmptyStateIsConsistent();
    if s.phase == Ongoing {
      var m := SomeMove(s.pos);
      PlayFillsOneCell(s.pos, m, X);
    }
  }

  predicate EndsWith(s: Session, e: Event, result: Mark)
    requires Shaped(s.pos)
  {
    s.phase == Ongoing && Step(s, e).phase == Finished(result)
  }

  /** How many games of a run end with this result. */
  function GamesEnded(s: Session, run: seq<Event>, result: Mark): nat
    requires Shaped(s.pos)
    decreases |run|
  {
    if run == [] then 0
    else (if EndsWith(s, run[0], result) then 1 else 0) + GamesEnded(Step(s, run[0]), run[1..], result)
  }

  /** A game that ends adds one to the counter of its result alone. */
  lemma TurnScores(s: Session, m: Move, p: Mark)
    requires Shaped(s.pos) && m.board < 9 && m.cell < 9 && IsPlayer(p) && s.phase == Ongoing
    ensures var t := TurnTaken(s, m, p);
            && t.humanWins == s.humanWins + (if t.phase == Finished(X) then 1 else 0)
            && t.agentWins == s.agentWins + (if t.phase == Finished(O) then 1 else 0)
            && t.draws == s.draws + (if t.phase == Finished(Draw) then 1 else 0)
  {
    FirstOwnerFindsLine(Play(s.pos, m, p).status, 0);
  }

  lemma ScoreboardStep(s: Session, e: Event)
    requires Sound(s) && Enabled(s, e)
    ensures var t := Step(s, e);
            && t.humanWins == s.humanWins + (if EndsWith(s, e, X) then 1 else 0)
            && t.agentWins == s.agentWins + (if EndsWith(s, e, O) then 1 else 0)
            && t.draws == s.draws + (if EndsWith(s, e, Draw) then 1 else 0)
  {
    match e
    case Click(m) =>
      if Clicked(s, m) != s {
        TurnScores(s, m, X);
      }
    case AgentTurn =>
      ChosenIsOptimal(s.pos, s.difficulty);
      TurnScores(s, Chosen(s.pos, s.difficulty).value, O);
    case _ =>
  }

  /** Over every run each counter grows by exactly the games that ended with its result. */
  lemma {:induction false} ScoreboardCountsGames(s: Session, run: seq<Event>)
    requires Sound(s) && IsRun(s, run)
    ensures After(s, run).humanWins == s.humanWins + GamesEnded(s, run, X)
    ensures After(s, run).agentWins == s.agentWins + GamesEnded(s, run, O)
    ensures After(s, run).draws == s.draws + GamesEnded(s, run, Draw)
    decreases |run|
  {
    if run != [] {
      ScoreboardStep(s, run[0]);
      StepKeepsSound(s, run[0]);
      ScoreboardCountsGames(Step(s, run[0]), run[1..]);
    }
  }

  /** So from page load the counters are the games that ended so. */
  lemma CountersFromPageLoad(run: seq<Event>)
    requires IsRun(Opening(), run)
    ensures After(Opening(), run).humanWins == GamesEnded(Opening(), run, X)
    ensures After(Opening(), run).agentWins == GamesEnded(Opening(), run, O)
    ensures After(Opening(), run).draws == GamesEnded(Opening(), run, Draw)
  {
    OpeningIsSound();
    ScoreboardCountsGames(Opening(), run);
  }

  // ----- What a deep enough agent guarantees

  /** The result of best play by both sides from here on. */
  function Outlook(s: Session): Score
    requires Shaped(s.pos)
  {
    Value(s.pos, -1, s.turn == O)
  }

  /** No restart and no change of difficulty. */
  predicate SameGame(run: seq<Event>) {
    forall i :: 0 <= i < |run| ==> !run[i].Restart? && !run[i].ChooseDifficulty?
  }

  lemma {:induction false} BestForHuman(s: State, moves: seq<Move>, m: Move)
    requires Playable(s, moves) && m in moves
    ensures Le(Best(s, moves, -1, false), Value(Play(s, m, X), -2, true))
    decreases |moves|
  {
    if m != moves[0] {
      BestForHuman(s, moves[1..], m);
    }
  }

  lemma OutlookAfterTurn(s: Session, m: Move, p: Mark)
    requires Shaped(s.pos) && m.board < 9 && m.cell < 9 && IsPlayer(p)
    requires s.phase == Ongoing && s.turn == p
    ensures Outlook(TurnTaken(s, m, p)) == Value(Play(s.pos, m, p), -1, p == X)
  {
    assert TurnTaken(s, m, p).pos == Play(s.pos, m, p);
  }

  /** A human move can only improve the agent's outlook. */
  lemma HumanMoveOutlook(s: Session, m: Move)
    requires Sound(s) && s.phase == Ongoing && s.turn == X && Allowed(s.pos, m)
    ensures Le(Outlook(s), Outlook(TurnTaken(s, m, X)))
  {
    OutlookAfterTurn(s, m, X);
    HumanMoveValue(s.pos, m);
  }

  lemma SuccessorSaturates(s: State, m: Move, p: Mark, depth: int, maximizing: bool)
    requires Consistent(s) && Allowed(s, m) && IsPlayer(p) && Exhaustive(s, depth)
    ensures Value(Play(s, m, p), depth - 1, maximizing) == Value(Play(s, m, p), -1, maximizing)
  {
    PlayKeepsConsistent(s, m, p);
    PlayFillsOneCell(s, m, p);
    Saturation(Play(s, m, p), depth - 1, maximizing);
  }

  lemma HumanMoveValue(s: State, m: Move)
    requires Consistent(s) && TerminalResult(s.status) == Blank && Allowed(s, m)
    ensures Le(Value(s, -1, false), Value(Play(s, m, X), -1, true))
  {
    MoveListMatchesValidation(s, m);
    assert Value(s, -1, false) == Best(s, ValidMoves(s), -1, false);
    BestForHuman(s, ValidMoves(s), m);
    SuccessorSaturates(s, m, X, -1, true);
  }

  /** A deep enough agent move keeps it. */
  lemma AgentMoveOutlook(s: Session)
    requires Sound(s) && AgentPending(s) && Exhaustive(s.pos, s.difficulty)
    ensures Outlook(AgentMoved(s)) == Outlook(s)
  {
    AgentMoveValue(s.pos, s.difficulty);
    OutlookAfterTurn(s, Chosen(s.pos, s.difficulty).value, O);
  }

  lemma AgentMoveValue(s: State, depth: int)
    requires Consistent(s) && TerminalResult(s.status) == Blank && Exhaustive(s, depth)
    ensures Chosen(s, depth).Some? && Allowed(s, Chosen(s, depth).value)
    ensures Value(Play(s, Chosen(s, depth).value, O), -1, false) == Value(s, -1, true)
  {
    ChosenKeepsValue(s, depth);
    Saturation(s, depth, true);
    SuccessorSaturates(s, Chosen(s, depth).value, O, depth, false);
  }

  lemma ClickKeepsOutlook(s: Session, m: Move)
    requires Sound(s) && s.phase != NotStarted && Exhaustive(s.pos, s.difficulty)
    ensures Le(Outlook(s), Outlook(Clicked(s, m)))
    ensures Clicked(s, m).phase != NotStarted && Blanks(Clicked(s, m).pos) <= Blanks(s.pos)
  {
    if s.phase == Ongoing && s.turn == X && Allowed(s.pos, m) {
      HumanMoveOutlook(s, m);
      TurnKeepsSound(s, m);
    }
  }

  lemma AgentTurnKeepsOutlook(s: Session)
    requires Sound(s) && AgentPending(s) && Exhaustive(s.pos, s.difficulty)
    ensures Outlook(AgentMoved(s)) == Outlook(s)
    ensures AgentMoved(s).phase != NotStarted && Blanks(AgentMoved(s).pos) <= Blanks(s.pos)
    ensures AgentMoved(s).difficulty == s.difficulty
  {
    AgentMoveOutlook(s);
    AgentAlwaysMoves(s);
  }

  lemma StepKeepsOutlook(s: Session, e: Event)
    requires Sound(s) && s.phase != NotStarted && Enabled(s, e)
    requires !e.Restart? && !e.ChooseDifficulty?
    requires Exhaustive(s.pos, s.difficulty)
    ensures Le(Outlook(s), Outlook(Step(s, e)))
    ensures Step(s, e).phase != NotStarted && Blanks(Step(s, e).pos) <= Blanks(s.pos)
    ensures Step(s, e).difficulty == s.difficulty
  {
    match e
    case AgentTurn => AgentTurnKeepsOutlook(s);
    case Click(m) => ClickKeepsOutlook(s, m);
    case ChooseFirst(p) => SamePositionSameOutlook(s, s.(firstPlayer := p));
  }

  lemma SamePositionSameOutlook(s: Session, t: Session)
    requires Shaped(s.pos) && s.pos == t.pos && s.turn == t.turn
    ensures Outlook(s) == Outlook(t)
  {
  }

  /** Once the agent searches deeper than the number of empty cells, the game ends no worse for
      it than best play from that point promises, whatever the human does. */
  lemma {:induction false} AgentKeepsItsOutlook(s: Session, run: seq<Event>)
    requires Sound(s) && s.phase != NotStarted && IsRun(s, run) && SameGame(run)
    requires Exhaustive(s.pos, s.difficulty)
    ensures Le(Outlook(s), Outlook(After(s, run)))
    ensures After(s, run).phase.Finished? ==> Le(Outlook(s), TerminalScore(After(s, run).phase.result))
    decreases |run|
  {
    if run == [] {
    } else {
      StepKeepsOutlook(s, run[0]);
      StepKeepsSound(s, run[0]);
      AgentKeepsItsOutlook(Step(s, run[0]), run[1..]);
    }
  }

  /** A deep enough agent wins what best play wins and does not lose what best play holds. */
  lemma DeepAgentTakesWhatIsThere(s: Session, run: seq<Event>)
    requires Sound(s) && s.phase != NotStarted && IsRun(s, run) && SameGame(run)
    requires Exhaustive(s.pos, s.difficulty) && After(s, run).phase.Finished?
    ensures Outlook(s) == Fin(1000) ==> After(s, run).phase.result == O
    ensures Le(Fin(0), Outlook(s)) ==> After(s, run).phase.result != X
  {
    AgentKeepsItsOutlook(s, run);
    RunKeepsSound(s, run);
  }

  // ----- The outlook is reached

  lemma HumanCanKeepValue(s: State) returns (m: Move)
    requires Consistent(s) && TerminalResult(s.status) == Blank
    ensures Allowed(s, m) && Value(Play(s, m, X), -1, true) == Value(s, -1, false)
  {
    ValueByPlies(s, -1, false);
    m :| Allowed(s, m) && Value(s, -1, false) == Child(s, m, -1, false);
    SuccessorSaturates(s, m, X, -1, true);
  }

  /** The player to move has an event that keeps the outlook and uses up a cell. */
  lemma OutlookCanBeKept(s: Session) returns (e: Event)
    requires Sound(s) && s.phase == Ongoing && Exhaustive(s.pos, s.difficulty)
    ensures Enabled(s, e) && (e.AgentTurn? || e.Click?)
    ensures Outlook(Step(s, e)) == Outlook(s) && Blanks(Step(s, e).pos) == Blanks(s.pos) - 1
    ensures Step(s, e).phase != NotStarted && Step(s, e).difficulty == s.difficulty
  {
    if s.turn == O {
      AgentTurnKeepsOutlook(s);
      AgentAlwaysMoves(s);
      e := AgentTurn;
    } else {
      var m := HumanCanKeepValue(s.pos);
      OutlookAfterTurn(s, m, X);
      TurnKeepsSound(s, m);
      e := Click(m);
    }
  }

  /** So the outlook is not only a bound: from every state in which the agent searches deep
      enough, some play of the human ends the game with exactly that result. */
  lemma {:induction false} OutlookIsReached(s: Session) returns (run: seq<Event>)
    requires Sound(s) && s.phase != NotStarted && Exhaustive(s.pos, s.difficulty)
    ensures IsRun(s, run) && SameGame(run) && After(s, run).phase.Finished?
    ensures TerminalScore(After(s, run).phase.result) == Outlook(s)
    decreases Blanks(s.pos)
  {
    run := [];
    if s.phase == Ongoing {
      var e := OutlookCanBeKept(s);
      StepKeepsSound(s, e);
      var rest := OutlookIsReached(Step(s, e));
      run := [e] + rest;
      RunPrepended(s, e, rest);
    }
  }

  lemma RunPrepended(s: Session, e: Event, rest: seq<Event>)
    requires Shaped(s.pos) && Enabled(s, e) && IsRun(Step(s, e), rest)
    requires SameGame(rest) && (e.AgentTurn? || e.Click?)
    ensures IsRun(s, [e] + rest) && After(s, [e] + rest) == After(Step(s, e), rest) && SameGame([e] + rest)
  {
    assert ([e] + rest)[1..] == rest;
  }
}
