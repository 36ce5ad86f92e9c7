# Verified model of ccybe

ccybe is a small HTTP/1.1 server in C whose start page is a game of Ultimate Tic-Tac-Toe in JavaScript.
This project models the parts of it that carry real logic and proves what they promise:

- **The game and its search** (`www/static/main.js`). `Board` holds the two-level board as an immutable value, with
  moves, cached statuses and the move generator; `Rules` what one legal move keeps; `Evaluation` and `Heuristic` the
  heuristic, by lines and by cells; `Minimax` plain minimax, the pruned search, and the proof that pruning is exact;
  `Mirror` the exchange of X and O; `Choice` the agent's choice and depth saturation; `Sessions` whole sessions of
  play as runs of page events; `Horizon` when an agent takes a win it has at once, `EasyAgent` what the agent of depth 2
  chooses in a forced board, `DeclinedWin` a whole game in which it declines a win; `Engine` the program itself, one
  class whose arrays the search overwrites and restores, each method proved against the functions above. Scores are
  integers with both infinities (`Scores`). The search depth is any integer, as in the program: a negative depth never
  meets the test `depth === 0` and searches to the end of the game.
- **The worker pool** (`src/ds/threadpool.c`). `ThreadPool` is a transition system whose steps are single statements
  under an explicit lock owner, for any number of workers, any number of overlapping `push_task` calls, one
  `destroy_pool` call, any interleaving and any spurious wakeups. Its queue is the meaning of the ring below.
- **The ring queue** (`src/ds/queue.c`). `Queue` has the ring as a class over an array, its first-in first-out
  meaning, and the cost of doubling over whole runs. Whether an allocation succeeds is an input of `push`.
- **URLs** (`src/url/decoder.c`, `src/url/url.c`). `Decoder` has percent-decoding, in place and as a function;
  `Query` says what a decoded text means and what its segments leave in fixed-size buffers; `Url` is the one-pass
  parser on its arrays.
- **The client list** (`src/ds/llist.c`). `ClientList` is the doubly linked list on the heap.
- **Responses** (`src/response.c`, `src/ds/buffer.c`). `Buffer` has the growable strings; `Message` an HTTP/1.1
  response as text, written as the program does and read as sections 2.1, 4 and 5 of RFC 9112 say; `Response` the
  context whose header slots are filled and serialised.

`CStrings`, `Config` (the sizes of `src/config/config.h`) and `Wrappers` hold what several modules share.

## Where code and comments differ

- `src/ds/queue.h:20` says a ring has at most 1e6 places "by design". The code limits the initial capacity to 1e6 and
  lets doubling go on while the new capacity is below 1e7 (`src/ds/queue.c:7`, `src/ds/queue.c:40`). The model follows
  the code.
- `src/response.c:110` says `set_header` overrides an existing value. The code always appends, and so does the model.
- `src/ds/llist.c:12` promises a return code from an insert; the code returns the node.

## What is not true of the code, and exactly when it is

- Decoding undoes percent-encoding exactly when every escape is one of the thirteen in the tables, with upper-case
  digits, and none stands at the very end (`Decoder.DecodeInvertsEncoding`, over every encoding that section 2.1 of
  RFC 3986 allows, and more); `a%2F`, `%26x` and `%2bx` are encodings it does not undo (`Decoder.FailingEncodings`).
- The code decodes before it splits, so an encoded separator separates. An encoded `path?k=v&...` is taken apart into
  that path and those keys and values exactly when decoding undoes it, the path has no `?` and no key or value has an
  `&` or `=` (`Query.UrlRoundTrip`); `%3F?=` and `?=%3Dx` are taken apart elsewhere (`Query.EncodedQuestionMark`,
  `Query.EncodedEquals`).
- A query segment is split at its first `=` exactly when it has at most one (`Query.SplitsAtFirstEquals`); what the
  buffers hold otherwise is `Query.SlotStrings`.
- The move generator and the click handler accept the same moves exactly when there is no forced board, it is open, or
  no open board has a free cell (`Rules.MoveListMatchesValidationExactly`); in every reachable position the forced
  board, if any, is open (`Sessions.ReachableIsSound`).
- A queued task does not at every instant have a worker that is ready or executing. In a reachable state with at least
  one worker it has none exactly when every worker sleeps, the task is the only one queued, and the call that pushed it
  still stands before its signal (`ThreadPool.NoLostWakeup`); such a state is reached (`ThreadPool.PushPrecedesSignal`),
  the signal ends it (`ThreadPool.SignalClosesGap`), and it never occurs while the lock is free.
- The heuristic does not stay within the scores of finished games, -1000 and 1000; it does exactly when
  `10 * Lead + OpenTally + 25 * Tally(status)` is between -100 and 100 (`Heuristic.EvaluateByCells`). So an agent that
  has a win at once does not always take it. At any depth but 0 and 1 it does exactly when nothing listed is worth more
  than 1000 and nothing before that win as much (`Horizon.WinTakenExactly`). At the easy level that is: exactly when X
  can answer every move that does not end the game so that the heuristic is at most 1000, or at most 999 where the move
  is listed before the win (`Horizon.EasyAgentTakesWin`). A run in which it declines, with every move of the agent the
  one it chooses at that level, is X26 O64 X46 O60 X02 O22 X24 O44 X42 O20 X04 O48 X82 O21 X14 O40 X06, board before
  cell: the heuristic is 1100, O wins at 68, and plays on (`DeclinedWin.EasyAgentDeclinesWin`).
- An appended string is faithful exactly when nothing but NULs follows a NUL (`Buffer.StrncpyIsFaithful`), and a
  formatted header line exactly when it is shorter than the temporary buffer (`Buffer.StringBuffer.PrintLine`).

## Model

| member | source | states |
|---|---|---|
| `Board.FirstOwnerFindsLine` | www/static/main.js:583-589 | the loop over the winning lines finds an owner exactly when some player holds a complete line, and that owner holds one |
| `Board.PlayFillsOneCell` | www/static/main.js:533-543 | a move fills one empty cell with the mover's mark and leaves the other player's count alone |
| `Rules.LinesAreRowsColumnsDiagonals` | www/static/main.js:8-12 | a player has a winning line if and only if he holds a row, a column or a diagonal, by the indices of the cells |
| `Rules.SmallResultIs` | www/static/main.js:580-594 | the status a board is left with: the player who alone has three in a row, a draw when full without, and otherwise what it was |
| `Rules.TerminalResultIs` | www/static/main.js:786-803 | the same of the nine statuses: a player wins with three boards in a row, it is a draw if and only if all are closed without |
| `Rules.PlayedMove` | www/static/main.js:533-578 | after a legal move: the one cell, the verdict on its board, nothing else changed; and a reply is accepted if and only if its cell is free, its board open, and the board the move points to is closed or is its own |
| `Rules.PlayedResult` | www/static/main.js:596-617 | after a legal move in an unfinished game the result is the verdict on the statuses, and not the opponent's |
| `Rules.FirstMoveIsFree` | www/static/main.js:332-336 | in an empty position every cell is accepted |
| `Rules.SettledAfterMove` | www/static/main.js:580-594 | after a move on an open board the cached status is X or O exactly when that player owns a line, D exactly when the board is full without one; a new owner is the mover |
| `Rules.PlayKeepsConsistent` | www/static/main.js:533-543 | every legal move keeps all cached statuses in agreement with the cells, and the next board is -1 or open |
| `Rules.OnlyMoverWins` | www/static/main.js:596-617 | a move in an unfinished game leaves it unfinished, drawn, or won by the mover |
| `Rules.MoveListMatchesValidation` | www/static/main.js:805-828 | in every position of play the generated list is exactly the set of moves `isValidMove` accepts |
| `Rules.MoveListMatchesValidationExactly` | www/static/main.js:560-578 | in any position list and validation agree if and only if there is no forced board, it is open, or no open board has a free cell |
| `Rules.ValidMovesOrdered` | www/static/main.js:819-825 | moves are listed once each, by board and then by cell |
| `Rules.NeverStuck` | www/static/main.js:805-828 | an unfinished consistent position has a move |
| `Minimax.AlphaBetaExact` | www/static/main.js:706-784 | for every position, depth and window alpha < beta, the pruned result bounds the minimax value from above when below beta and from below when above alpha |
| `Minimax.FullWindowIsExact` | www/static/main.js:690-690 | under the full window the pruned search equals unpruned minimax, in every position |
| `Mirror.FlippedEvaluation` | www/static/main.js:830-896 | exchanging X and O everywhere negates the heuristic |
| `Mirror.FlippedMoves` | www/static/main.js:805-828 | exchanging X and O leaves the move list and its order unchanged |
| `Mirror.FlippedSearch` | www/static/main.js:706-784 | the pruned search of the exchanged position, with the window negated and reversed and the other side to move, is the negated search of the original |
| `Heuristic.AgentMoveRaisesHeuristic` | www/static/main.js:852-871 | an agent move that leaves its small board open never lowers the heuristic, and raises it if and only if a line through the cell is not blocked by both players |
| `Heuristic.LinesByCells` | www/static/main.js:852-871 | the sum over lines equals the sum over cells in which each mark counts once for every live line through it |
| `Heuristic.EvaluateByCells` | www/static/main.js:830-896 | the heuristic in full: 100 for each board of the lead, 10 for each live line through each mark of an open board, 250 for each live line through each owned board; and exactly when it stays within the scores of finished games |
| `Heuristic.CentreOutweighsAWin` | www/static/main.js:873-896 | with the centre board O's and none X's, the heuristic is at least 1100 and ten times what the open boards tally |
| `Heuristic.TallyMarked` | www/static/main.js:852-896 | a mark changes what a board tallies by one for every live line through its cell and by one more for every line of two it stops |
| `Heuristic.EvaluateAfterWinning` | www/static/main.js:830-896 | a board won scores 100 in place of its tally and counts among the statuses as a mark does in a board |
| `Horizon.WinTakenExactly` | www/static/main.js:670-704 | at every depth but 0 and 1 a win at hand is taken if and only if no listed move is worth more than 1000 and none before the first win as much, and it is then that first win |
| `Horizon.WorthTwoAhead` | www/static/main.js:750-783 | at depth 2 a move that does not end the game is worth at most v if and only if X has a reply after which the heuristic is at most v; one that ends it is worth the result |
| `Horizon.EasyAgentTakesWin` | www/static/main.js:670-704 | at depth 2 a win at hand is taken if and only if X can answer every listed move that does not end the game so that the heuristic is at most 1000, at most 999 for those before the win |
| `Horizon.PreferredIsChosen` | www/static/main.js:697-700 | at depth 2 a move that X cannot hold below v is chosen when X can hold every other to v, and below v where it is listed before |
| `Horizon.EasyAgentPlaysOn` | www/static/main.js:670-704 | at depth 2, where the heuristic is above 1080 and some move, with every reply to it, closes no board, the agent does not end the game |
| `EasyAgent.ChosenEarly` | www/static/main.js:670-704 | at depth 2 in a forced board: a cell is chosen by the live lines through it and what X can take in the board it leads to, against the same of the other cells |
| `DeclinedWin.EasyAgentDeclinesWin` | www/static/main.js:706-716 | a run from page load, each move of the agent its choice at depth 2, ends where the agent has a win at once, declines it and plays on, with the heuristic at 1100 |
| `Choice.ValueIsFinite` | www/static/main.js:718-783 | in consistent positions no depth yields an infinite value |
| `Choice.SearchFindsWorth` | www/static/main.js:690-690 | the search of a successor inside `getBestMove` returns its unpruned value |
| `Choice.ChosenIsOptimal` | www/static/main.js:670-704 | in every unfinished consistent position the agent gets a legal move, the first in list order whose successor has the greatest unpruned value |
| `Choice.ChosenKeepsValue` | www/static/main.js:670-704 | the position left by the chosen move has the value of the position it was chosen in |
| `Choice.ValueByPlies` | www/static/main.js:718-783 | at every depth but 0 the value of an unfinished position of play is that of some allowed move searched one ply less deep, and none is better for the player to move |
| `Choice.Saturation` | www/static/main.js:706-716 | beyond the number of empty cells, and for negative depths, the value is independent of depth and is -1000, 0 or 1000 |
| `Choice.AnyTwoExhaustiveDepthsAgree` | www/static/main.js:706-784 | the pruned full-window search returns the same loss, draw or win for any two such depths |
| `Sessions.TurnKeepsSound` | www/static/main.js:502-508 | a legal move by the player to move keeps counts, turn order, statuses and result in agreement and uses up one cell |
| `Sessions.StepKeepsSound` | www/static/main.js:493-623 | every page event keeps all of these |
| `Sessions.ReachableIsSound` | www/static/main.js:332-371 | so every run of events from page load does: cached statuses agree with the cells, cell counts and starter fix whose turn it is, a result is a draw or a win of the last mover |
| `Sessions.HumanCanMove` | www/static/main.js:493-513 | while it is the human's turn some listed move is accepted, and each accepted click leaves one cell fewer empty |
| `Sessions.AgentAlwaysMoves` | www/static/main.js:515-531 | a queued agent callback always makes a move |
| `Sessions.AgentPlaysBest` | www/static/main.js:515-531 | the agent plays the first listed move of greatest unpruned value at the depth that is its difficulty |
| `Sessions.OtherClicksDoNothing` | www/static/main.js:493-500 | a click leaves everything as it was if and only if it is not the human's turn in an ongoing game, or the move is not allowed |
| `Sessions.JudgedByVerdict` | www/static/main.js:596-623 | a game is over, with the verdict on its statuses, as soon as there is one |
| `Sessions.StarterIsTheChosen` | www/static/main.js:349-353 | in every run from page load each game is begun by the player last chosen before its start, by the human when none was |
| `Sessions.DifficultyIsTheChosen` | www/static/main.js:194-200 | the depth of the agent is the one last chosen, 4 when none was |
| `Sessions.StepSettings` | www/static/main.js:193-209 | a choice changes its setting alone, a start neither settings nor counters |
| `Sessions.GameEndsWithin81Moves` | www/static/main.js:596-623 | no game has more than 81 moves, and one with 81 is over |
| `Sessions.ScoreboardCountsGames` | www/static/main.js:603-622 | over every run each of the three counters grows by exactly the games that ended with its result |
| `Sessions.CountersFromPageLoad` | www/static/main.js:13-18 | from page load on the counters are the games that ended with their result |
| `Sessions.AgentKeepsItsOutlook` | www/static/main.js:515-531 | once the agent searches deeper than the number of empty cells, the game ends no worse for it than best play from there promises, whatever the human does |
| `Sessions.DeepAgentTakesWhatIsThere` | www/static/main.js:670-704 | such an agent wins what best play wins and does not lose what best play holds |
| `Sessions.OutlookIsReached` | www/static/main.js:515-531 | against such an agent some play of the human ends the game with exactly the result of best play |
| `Engine.GameState.IsValidMove` | www/static/main.js:560-578 | true exactly for the allowed moves of an ongoing game, and so from the arrays |
| `Engine.GameState.CheckTerminalState` | www/static/main.js:786-803 | the result of the position in the arrays, or none: the verdict on the statuses by rows, columns and diagonals |
| `Engine.GameState.GetAllValidMoves` | www/static/main.js:805-828 | builds the move list of the position in the arrays, in order |
| `Engine.GameState.EvaluateBoard` | www/static/main.js:830-850 | accumulates the heuristic of the position in the arrays |
| `Engine.GameState.EvaluateSmallBoard` | www/static/main.js:852-871 | accumulates the line scores of one small board |
| `Engine.GameState.EvaluateLargeBoard` | www/static/main.js:873-896 | accumulates the line scores of the statuses |
| `Engine.GameState.CheckSmallBoardWin` | www/static/main.js:580-594 | overwrites exactly one status: with the player who alone has three in a row, a draw when full without, or what it was |
| `Engine.GameState.TryMove` | www/static/main.js:723-741 | play, search, and restore from the copies: the position ends as it began |
| `Engine.GameState.Minimax` | www/static/main.js:706-784 | the in-place search returns the pruned value of the position it started from and restores board, statuses and next board, cut-offs included |
| `Engine.GameState.GetBestMove` | www/static/main.js:670-704 | returns the move chosen by unpruned values and restores the position and the game status |
| `Engine.GameState.MakeMove` | www/static/main.js:533-558 | the whole new state after a move, and from the arrays: the cell, the verdict on its board, no other cell or status, and which moves are accepted next |
| `Engine.GameState.HandleCellClick` | www/static/main.js:493-513 | takes the click exactly when it is the human's turn and the arrays accept the move, and then leaves what the move makes; otherwise nothing changes |
| `Engine.GameState.MakeAIMove` | www/static/main.js:515-531 | plays a first maximum of the unpruned values at its difficulty and passes the turn while the game goes on |
| `Engine.GameState.InitGame` | www/static/main.js:332-371 | a fresh board with the chosen first player to move and the counters kept |
| `Engine.GameState.CheckGameOver` | www/static/main.js:596-623 | the phase and the counters after a move |
| `Queue.FirstInFirstOut` | src/ds/queue.c:57-83 | over every run what was accepted is what was handed out followed by what is held |
| `Queue.CapacityDoubles` | src/ds/queue.c:34-55 | the capacity is the initial one doubled once per resize |
| `Queue.CapacityAndCost` | src/ds/queue.c:34-70 | the capacity stays below 1e7, and the elements copied in all are the capacity gained, which the pushes pay for |
| `Queue.AmortisedGrowth` | src/ds/queue.c:34-70 | n accepted pushes copy at most 2n elements in all |
| `Queue.PushIs` | src/ds/queue.c:34-70 | a push succeeds if and only if there is a free place or memory for twice the capacity, below 1e7 |
| `Queue.NothingIsRefused` | src/ds/queue.c:57-70 | from an empty ring, while memory lasts, none of the first five million pushes is refused |
| `Queue.InitialCapIs` | src/ds/queue.c:6-9 | a capacity from 1 to 1e6 is taken as it is, any other as 1 |
| `Queue.WriteAppends` | src/ds/queue.c:66-68 | writing at the insert index appends, wherever the ring wraps |
| `Queue.StepDrops` | src/ds/queue.c:80-81 | advancing the read index drops the oldest element |
| `Queue.Ring.constructor` | src/ds/queue.c:3-20 | an empty ring of the capacity asked for, out-of-range ones replaced by 1 |
| `Queue.Ring.Resize` | src/ds/queue.c:34-55 | doubles the capacity exactly when the ring is full, memory is there and twice the capacity is below 1e7, and leaves the contents unchanged |
| `Queue.Ring.Push` | src/ds/queue.c:58-70 | appends exactly when length is below capacity, or memory is there and twice the capacity is below 1e7 |
| `Queue.Ring.Pop` | src/ds/queue.c:72-83 | hands out the oldest element, or fails exactly when empty |
| `ThreadPool.StepKeepsInv` | src/ds/threadpool.c:57-114 | every statement of every thread keeps lock ownership, conservation of tasks, coverage of sleepers and orderly shutdown |
| `ThreadPool.ExactlyOnceInOrder` | src/ds/threadpool.c:57-109 | over every run accepted tasks are the taken ones followed by the queue; a taken task is with exactly one worker or has run exactly once; the calls that succeed are, as a multiset, those of the accepted tasks |
| `ThreadPool.PushIsDecided` | src/ds/threadpool.c:62-78 | in every reachable state a call that has the lock appends its task if and only if the pool is open and the ring has a place or can grow; else nothing changes and it will return false |
| `ThreadPool.AnswersAreTested` | src/ds/threadpool.c:57-79 | over every run a call with function and argument has the answer of its test under the lock: false only if then shutdown was set or the ring full and unable to grow |
| `ThreadPool.NullCallsAreRefused` | src/ds/threadpool.c:58-60 | a call with a null function or argument returns false |
| `ThreadPool.SleepersWake` | src/ds/threadpool.c:40-72 | a sleeper wakes exactly by itself, by the signal that picks it, or by the broadcast |
| `ThreadPool.FallsAsleep` | src/ds/threadpool.c:92-94 | a worker falls asleep, giving up the lock, exactly when it finds the queue empty and the pool open |
| `ThreadPool.WhoCanMove` | src/ds/threadpool.c:36-109 | which threads can take their next statement: taking the lock waits for it to be free, joining for the worker to exit, nothing else waits |
| `ThreadPool.CreatedIs` | src/ds/threadpool.c:3-27 | a new pool is open and empty, with a ring of the size asked for |
| `ThreadPool.NoLostWakeup` | src/ds/threadpool.c:62-103 | in every reachable state with a worker and a queued task, no worker is ready or executing if and only if all sleep, one task is queued and its signal is still to be sent; with the lock free some worker always is |
| `ThreadPool.PushPrecedesSignal` | src/ds/threadpool.c:70-72 | a run that reaches that gap |
| `ThreadPool.SignalClosesGap` | src/ds/threadpool.c:70-72 | after the signal of a push some worker is ready or executing |
| `ThreadPool.NeverDeadlocked` | src/ds/threadpool.c:36-109 | while a task is queued, or destroy_pool is under way, some thread can take its next statement |
| `ThreadPool.StepLowersLeft` | src/ds/threadpool.c:36-109 | every statement of a thread under way, before or after shutdown, lowers a bound on what is left |
| `ThreadPool.RunIsPaid` | src/ds/threadpool.c:36-114 | from every reachable state every run, whatever is called in it, is no longer than what the bound falls by, with 13 for each call and 4 for each spurious wakeup |
| `ThreadPool.RunsAreBounded` | src/ds/threadpool.c:36-114 | a run from the creation of n workers has at most 7n + 6 statements, 13 more for each call of push_task and 4 for each spurious wakeup |
| `ThreadPool.RestMeansAllRun` | src/ds/threadpool.c:90-109 | where no thread can move, shutdown or not, the queue is empty and every accepted task has run exactly once |
| `ThreadPool.ShutdownIsFinal` | src/ds/threadpool.c:63-63 | after the flag is set no task is accepted and no worker falls asleep |
| `ThreadPool.DrainStep` | src/ds/threadpool.c:90-109 | after the broadcast there is no spurious wakeup left, so every step but a new call lowers the bound |
| `ThreadPool.DrainIsBounded` | src/ds/threadpool.c:36-55 | a run after the broadcast is no longer than what the bound falls by, with 13 for each new call |
| `ThreadPool.DrainEndsFreed` | src/ds/threadpool.c:44-52 | where no thread can move, destroy_pool has joined every worker and freed the pool |
| `ThreadPool.FreedMeansDrained` | src/ds/threadpool.c:44-52 | queue and pool are freed only after all workers have exited and, with at least one worker, every accepted task has run exactly once |
| `Decoder.DecodeUrl` | src/url/decoder.c:50-97 | writes the decoded text and its NUL, or fails, exactly as the decoding function says |
| `Decoder.DecodedIsText` | src/url/decoder.c:50-97 | decoded text has no NUL and is no longer than its source |
| `Decoder.TablesAreOctets` | src/url/decoder.c:21-47 | the tables know exactly thirteen escapes, and give each the octet its digits write |
| `Decoder.DecodingOutcome` | src/url/decoder.c:54-94 | what decoding yields for every text with escapes of any two hexadecimal digits: failure if one before the last chunk is not in the tables, otherwise the characters meant, the last chunk left as it stands |
| `Decoder.DecodeInvertsEncoding` | src/url/decoder.c:55-85 | decoding undoes a percent-encoding, with escapes of any octets in either case, if and only if all escapes are in the tables and none is at the end |
| `Decoder.DecodingOfAnyText` | src/url/decoder.c:50-97 | what decoding makes of any C string: up to the first percent sign that two hexadecimal digits do not follow, as an encoding; there it fails if more than three characters remain, and else copies them |
| `Decoder.FailingEncodings` | src/url/decoder.c:55-82 | one encoding for each way to fail: an escape at the end, one outside the tables, one with a lower-case digit |
| `Query.ScanSplitsText` | src/url/url.c:13-49 | path and segments print back to the decoded text; the path has no `?`, no segment an `&` |
| `Query.ScanInvertsPrinting` | src/url/url.c:13-54 | and are the only way to take it apart, so the pair count is that of the `&`-segments, 0 without `?` |
| `Query.SlotStrings` | src/url/url.c:18-38 | the C strings a segment leaves: the first piece cut to the shortest piece but the last, and the last piece |
| `Query.SplitsAtFirstEquals` | src/url/url.c:27-32 | these are the texts before and after the first `=` if and only if there is at most one |
| `Query.PairComesBack` | src/url/url.c:27-38 | a key and a value come back from the segment they are printed in if and only if neither has an `=` |
| `Query.UrlComesBack` | src/url/url.c:7-58 | an encoding of path?k=v&... comes back as the same path and segments if and only if decoding undoes it, the path has no `?` and the segments no `&` |
| `Query.UrlRoundTrip` | src/url/url.c:7-58 | the path and every key and value come back if and only if decoding undoes the encoding, the path has no `?` and no key or value an `&` or `=` |
| `Query.EncodedQuestionMark` | src/url/url.c:9-13 | an encoded `?` that ends the path |
| `Query.EncodedEquals` | src/url/url.c:9-32 | an encoded `=` that ends what is before it |
| `Query.FitsMeansInRange` | src/url/url.c:13-54 | of all the writes that a decoded text causes, in order, every one is inside its array if and only if the text fits |
| `Query.FitsExactly` | src/config/config.h:4-9 | a text fits if and only if the path is shorter than 256, there are at most 10 segments, and every piece is shorter than 128 |
| `Query.PrintedFits` | src/config/config.h:4-9 | what a path and pairs without separators print to fits if and only if path, pairs, keys and values are within the configured sizes |
| `Url.ParsedUrl.FeedQuery` | src/url/url.c:15-41 | one character of the query updates buffers, index and flag as the segment it belongs to says, and writes where the list of writes has it |
| `Url.ParsedUrl.SeperateQuery` | src/url/url.c:7-59 | leaves path, pair count and every key and value as C strings in the arrays by exactly the listed writes, or fails exactly when decoding does |
| `Url.ParsedUrl.SeperateEncoded` | src/url/url.c:7-59 | the round trip on the arrays: of any encoding that decoding undoes of a path?k=v&... within the sizes, they hold path, keys and values |
| `ClientList.RemovedTakesOne` | src/ds/llist.c:50-59 | removal by descriptor takes out one client with it, if any, and keeps the others in order |
| `ClientList.RemoveUndoesInsert` | src/ds/llist.c:13-59 | removing a new client's descriptor undoes its insertion |
| `ClientList.List.WalksAreReverses` | src/ds/llist.c:38-45 | the walk from head and the walk from tail visit every node once, in opposite orders, and end |
| `ClientList.List.InsertClient` | src/ds/llist.c:13-34 | appends one fresh node |
| `ClientList.List.SearchClient` | src/ds/llist.c:38-45 | finds the first node with the descriptor, or none |
| `ClientList.List.RemoveClientNode` | src/ds/llist.c:61-69 | removes exactly the given node |
| `ClientList.List.RemoveClientFd` | src/ds/llist.c:50-59 | removes exactly the node that a search finds, or reports 1 |
| `ClientList.List.FreeList` | src/ds/llist.c:75-84 | closes each remaining descriptor once, in order; the tail pointer is left stale |
| `Buffer.StrncpyIsFaithful` | src/ds/buffer.c:47-47 | a bounded string copy is faithful if and only if only NULs follow a NUL |
| `Buffer.StrncpyAt` | src/ds/buffer.c:47-47 | in any case it keeps each character up to the first NUL and leaves NULs from there on |
| `Buffer.StringBuffer.Append` | src/ds/buffer.c:39-54 | appends what such a copy keeps of the other string |
| `Buffer.StringBuffer.AppendText` | src/ds/buffer.c:56-70 | appends a C string |
| `Buffer.StringBuffer.Copy` | src/ds/buffer.c:72-78 | a fresh string with the same bytes |
| `Buffer.StringBuffer.PrintLine` | src/response.c:61-63 | the formatted line is kept whole if and only if it is shorter than the temporary buffer |
| `Message.ReadsDecimal` | src/response.c:184-185 | a number comes back from its decimal |
| `Message.OnlyDecimal` | src/response.c:184-185 | and its decimal is the only text without needless zeros or signs that reads as it |
| `Message.CodeIsThreeDigits` | src/response.c:47-47 | a code from 100 to 999 is written as its three digits, and no other in three digits |
| `Message.ReadsWritten` | src/response.c:33-88 | a written response is read back as the same status, headers in order (whitespace around values dropped) and body if and only if its status code has three digits |
| `Response.ResponseContext.SetHeader` | src/response.c:111-134 | appends one header to the list the slots spell |
| `Response.ResponseContext.GenerateResponse` | src/response.c:33-88 | builds the text of the context's message, which begins with the version, the three digits of the status and its reason, and with clean headers and a NUL-free body reads back as the context's status, headers and body, exactly for three-digit statuses |
| `Response.ResponseContext.NotFoundPage` | src/response.c:160-191 | status 404, the page's body and its three headers |
| `Response.RespondNotFound` | src/http.c:86-121 | for every path of the request buffer that leads to the page, the generated text of the page, given in full, reads back as 404, its three headers and its body, and its Content-Length is the number of bytes after the blank line |
| `Response.NotFoundLinesFit` | src/response.c:182-190 | the three header lines fit the temporary buffer |

## Left out

- The user interface in `www/`: DOM updates, overlays, the move list, indicators and style sheets.
- Timers, the time-out results and their counter, and restarting while an agent callback is queued: the callback is not
  cancelled, so runs with these events are outside the run invariants.
- JavaScript numbers beyond integers and the two infinities: every score is an integer far below 2^53.
- Sockets, kqueue, signals and files (`src/cnet.c`, `src/http.c`, `main.c`, `src/response.c:194-288`).
- The llhttp callbacks, the route table and the MIME table (`src/parser.c`, `src/route.c`, `src/mime.c`): thin layers
  over libraries that are not part of this model; the status code numbers are those of HTTP.
- `send_close_resp`: the same three calls as `not_found_page` with other texts.
- Allocation failure other than a refused ring push, null arguments other than those of `push_task`, and `free` itself:
  a freed node, buffer or ring is one that no later state mentions.
- Calls of `push_task` that are still waiting for the lock when `destroy_pool` frees it: undefined in C, so such a call
  takes no further step in the model.
- Pthreads below the meaning of mutex and condition variable, and the memory model: statements under the lock are
  sequentially consistent, and the worker pool is a transition system, not threads of Dafny code.
- Engine.GameState.TryMove: the play, search and restore statements that the program writes out in both branches of
  `minimax` and in `getBestMove` are one method here; the two branches of `minimax`
  and some inner loops are methods of their own.
- Url.ParsedUrl.SeperateQuery: requires that the text fits the arrays, since the code has no bounds of its own.
- Response.ResponseContext.GenerateResponse: requires every header line to fit the temporary buffer of 216 bytes.
- Response.ResponseContext.SetHeader: requires a free slot and texts shorter than a slot, as the code does not test them.
