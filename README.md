# RL Quest: a verified model of the page's game logic

RL Quest is a single-page learning site about reinforcement learning. Its
script keeps a player record (experience points, a level, badges and a
daily-visit streak) and runs three small games and a quiz that award points
and badges:

- **Game 1, the exam-prep grid.** A tabular Q-learning agent walks an N x N
  grid from the top-left cell to the goal in the bottom-right cell. It picks
  actions epsilon-greedily, collects cell rewards and updates a sparse
  action-value table after every accepted move. An episode ends at the goal
  or when its tick budget of 2·N·N runs out.
- **Game 2, the business game.** Each pricing decision earns revenue by
  difficulty. Repeating a decision lowers the revenue by 20% per repeat,
  down to a floor of 20%. Each month also changes the client count and the
  business health.
- **Game 3, the tax-notice game.** The player answers one of three notice
  scenarios. Each of the four responses has a fixed reward. Successes are
  counted and an exploration rate decays.
- **The quiz.** Five questions; the quiz is passed at 80%.
- **The leaderboard.** It holds the ten highest-XP entries.

This project states that logic in Dafny and proves what it promises. The
modules follow the script's sections:

| file | module | what it holds |
|---|---|---|
| common.dfy | `Common` | `Option`, `Math.max`/`Math.min`, powers |
| progress.dfy | `Progress` | `XP_LEVELS`, the badges, the `gameState` record as class `Player` |
| grid.dfy | `GridWorld` | cell kinds, `createGrid`, rewards, `getNewPosition` |
| qlearning.dfy | `QLearning` | the Q-table, `chooseAction`, `updateQTable` |
| training.dfy | `Training` | the `game1State` record as class `Game1`, the episode loop, `completeEpisode`, `resetGame1` |
| business.dfy | `Business` | the `game2State` record as class `Game2`, `makeDecision` |
| notices.dfy | `Notices` | the `game3State` record as class `Game3`, `handleResponse` |
| quiz.dfy | `Quiz` | `quizState` as class `QuizSession`, `submitQuiz` |
| leaderboard.dfy | `Leaderboard` | `addToLeaderboard`'s insert, sort and cut |

**The episode.** One episode is specified by two pure functions:

- `Training.Tick` is one accepted interval callback.
- `Training.Run` runs the rest of the episode, tick by tick.

Every random number the script draws becomes a parameter. For Game 1 each
tick gets a `Draw`: one coin for explore-or-exploit and one pick for the
random action. The method `Game1.PlayEpisode` runs the interval callback's
body as a `while` loop that updates the table in place. Its postcondition
says that it ends exactly as `Episode` does. The properties of an episode
are lemmas about `Run`:

- The path is a lattice walk.
- The reward is the sum along the path.
- The goal is entered only at the end.
- The tick and move counts are bounded.
- Only states that were left have their values changed.

**Player updates.** The state-changing handlers are methods of the record
classes. Each names the fields it changes. Its postcondition gives the
whole new state in terms of the old one. The level reached is
`Progress.LevelReached`, and the badges set are a `WithBadge` chain over
`LevelBadges`. Every save redraws the header, and the redraw's
`checkCertificateEligibility` sets the completionist badge once all three
games are complete, the quiz is passed and level 5 is reached. The
completion flags and the level only grow within a handler, and every
handler saves at its end. So each handler's chain ends in
`WithBadge(..., Completionist, Eligible())` on the final state. A handler
that changes both a game record and the player is split in two. A method
on the game record does the record part, and a static method does the
player award.

## Model

| member | source | states |
|---|---|---|
| Progress.LevelReached | script.js:67-74 | the level-up loop stops at a level no lower than where it started, at most 11; every threshold it passed is met by the XP, and the next one is not (or the top level is reached) |
| Progress.LevelReachedIncremental | script.js:60-74 | adding XP in two calls ends at the same level as adding the total in one call |
| Progress.LevelReachedMonotone | script.js:67-74 | more XP never gives a lower level |
| Progress.LevelFromStartIsBand | script.js:34 | from level 1, a total in the band [XP_LEVELS[l-1], XP_LEVELS[l]) gives level l, and any total of at least 3500 gives level 11 |
| Progress.Player.constructor | script.js:2-12 | the initial record: 0 XP, level 1, streak 0, no badges, nothing complete |
| Progress.ClimbIsLevelBadges | script.js:67-74 | the loop's badges after climbing from one level to another are the level badges of the levels entered, plus the completionist badge exactly when an unlock happened with every completion flag set |
| Progress.Player.SaveGameState | script.js:54-57 | the save's redraw (script.js:90, 901-919) sets the completionist badge exactly when all four completion flags are set and the level is at least 5; nothing else changes |
| Progress.Player.UnlockBadge | script.js:94-101 | the badge is set afterwards, and the unlock is reported exactly when it was not set before; only a reported unlock saves, so only it can also set the completionist badge; no other badge changes |
| Progress.Player.EnterNextLevel | script.js:69-72 | one pass of the loop: the level grows by one, and entering level 5 or 10 unlocks that level's badge as `UnlockBadge` says |
| Progress.Player.CheckLevelUp | script.js:67-74 | the level becomes `LevelReached(xp, old level)`; the level-5 and level-10 badges are set when those levels are crossed; the completionist badge is set when such an unlock happened with every completion flag set, and no other badge changes |
| Progress.Player.AddXP | script.js:60-65 | the XP grows by the amount, the level and level badges follow as `CheckLevelUp` says, and after the save the completionist badge is set when the certificate's requirements are met |
| Progress.Player.CheckStreak | script.js:131-150 | a one-day gap extends the streak; a longer gap or no earlier visit restarts it at 1; a gap below one day keeps it; the 3- and 7-day badges are set only when a one-day gap brings the streak to 3 or 7; the closing save sets the completionist badge when the requirements are met |
| GridWorld.Classify | script.js:231-247 | the start at index 0 and the goal at the last index whatever the draw; otherwise good below 0.3, bad in [0.3, 0.45) and neutral from 0.45 (its properties are stated by `GeneratedGrid`) |
| GridWorld.RewardOf | script.js:288-289 | 20 for the goal, the stored reward of a good, bad or neutral cell, and 0 for the start cell, which stores none (used by `Tick` and `NeutralGridReward`) |
| GridWorld.NewPosition | script.js:337-350 | `getNewPosition` on row and column (its properties are stated by `NewPositionSpec` and the `Move` lemmas) |
| GridWorld.CreateGrid | script.js:221-251 | a fresh array of N·N cells, each classified from its own draw |
| GridWorld.GeneratedGrid | script.js:229-247 | the generated grid has one start cell at index 0 and one goal at the last index; the start pays 0, the goal 20, and each inner cell pays +10, -5 or -1 exactly when its draw is below 0.3, in [0.3, 0.45), or at least 0.45 |
| GridWorld.NewPositionSpec | script.js:337-350 | a move stays on the grid; it either keeps the position or lands on a lattice neighbour. Up, right, down and left are -N, +1, +N and -1 unless the edge blocks them. An unknown action keeps the position |
| GridWorld.MoveUp | script.js:337-350 | an accepted move up is N indices back, onto a neighbour |
| GridWorld.MoveDown | script.js:337-350 | an accepted move down is N indices on, onto a neighbour |
| GridWorld.MoveSideways | script.js:337-350 | an accepted move right or left is one index on or back, in the same row |
| QLearning.RowMax | script.js:333 | `Math.max(...v)` is a value of the vector and no value exceeds it |
| QLearning.IndexOf | script.js:333 | `indexOf` returns the first index holding the value, or -1 exactly when no entry holds it |
| QLearning.FirstIndexOfMax | script.js:330-334 | the exploit choice is an action of greatest value, and every action before it has a strictly smaller value |
| QLearning.ChooseAction | script.js:325-335 | the action is in 0..3. When the coin is below epsilon it is floor(4·pick). Otherwise it is the first greatest action of the state's row, and action 0 for an unseen state |
| QLearning.TdUpdate | script.js:352-365 | only Q(s, a) changes, by alpha towards reward + gamma · max Q(next), with 0 for an unseen next state; an unseen s first gets the zero row; the table gains exactly the key s |
| QLearning.TdUpdateBetween | script.js:352-365 | the updated value lies between the old value and the target |
| Training.Decay | script.js:371 | the end-of-episode decay max(0.1, 0.95 · e) (bounded by `DecayBounds`) |
| Training.EpsilonAfter | script.js:371 | the rate after k episodes since a reset (closed form in `EpsilonClosedForm`) |
| Training.DecayBounds | script.js:371 | a decayed rate is at least 0.1, and a rate in [0.1, 1] never grows |
| Training.EpsilonClosedForm | script.js:371 | after k episodes since a reset the rate is max(0.1, 0.95^k) |
| Training.EpsilonDecreases | script.js:371 | the rate never increases and stays within [0.1, 1] |
| Training.Tick | script.js:276-302 | a rejected move changes nothing. An accepted move goes to a lattice neighbour and extends the path by it. It adds that cell's reward. The table's keys become the old keys plus the cell left, and no other state's values change |
| Training.Run | script.js:253-323 | the rest of an episode, tick by tick: each tick counts itself, the cap ends it, and an accepted move into the goal ends it (its properties are stated by `RunBounded`, `RunFollowsLattice` and `RunLearnsOnlyOnPath`) |
| Training.Episode | script.js:253-323 | a whole episode from cell 0 (played by `Game1.PlayEpisode`) |
| Training.RunBounded | script.js:262-275 | an episode uses at most 2·N·N + 1 ticks and hits the cap exactly when it uses all of them; the path grows by at most one cell per tick that drew an action |
| Training.TickKeepsConsistent | script.js:281-302 | after a tick from a non-goal cell, the path is still a lattice walk from cell 0 that ends at the position. The episode reward is still the path's sum. The path is only extended |
| Training.RunFollowsLattice | script.js:253-323 | over the whole episode, the path is a lattice walk from cell 0 that extends the one so far. The reward is the sum along it. The goal is not passed through, and the episode ends on the goal exactly when it reports reaching it |
| Training.RunLearnsOnlyOnPath | script.js:286-293 | a state the agent never moved away from keeps its row of values, and is in the table afterwards exactly when it was before |
| Training.NeutralGridReward | script.js:286-290 | on a grid whose inner cells all pay -1, reaching the goal in k moves earns 20 - (k - 1), plus 1 for each return to the start cell |
| Training.GridSizeFor | script.js:207 | the side is 5 exactly for 'easy', 10 exactly for 'hard', and 7 otherwise |
| Training.Game1.constructor | script.js:188-197 | the initial `game1State`: side 7, no episodes, empty table, rate 1.0 |
| Training.Game1.Reset | script.js:205-219 | the side follows the difficulty, the session and the table are cleared, and the grid is a fresh array classified from the draws |
| Training.Game1.UpdateQTable | script.js:352-365 | the table becomes `TdUpdate` of the old table |
| Training.Game1.RecordEpisode | script.js:368-371 | the episode count grows by one, the reward is appended and is the current one, and the rate decays |
| Training.Game1.AwardEpisode | script.js:377-385 | the player gets 10 XP, with the level and level badges that follow. The 5th and 20th episodes set their badges. The 20th marks Game 1 complete and is the one announced. The completionist badge is set when the certificate's requirements are met at the end |
| Training.Game1.CompleteEpisode | script.js:367-389 | the state part is as in `RecordEpisode`, and the table is kept. The player part is as in `AwardEpisode` |
| Training.Game1.Move | script.js:276-302 | one callback past the cap check updates the table in place and returns the new position, path and reward, exactly as `Tick` says |
| Training.Game1.PlayEpisode | script.js:253-323 | the loop ends exactly as `Episode` says: same ending, path, reward and table |
| Training.Game1.RunEpisode | script.js:253-323 | a call while running does nothing. Otherwise the episode is played as `Episode` says, the table is left as it says, and `completeEpisode` is applied to the episode reward: episode count, history, rate, and the player's XP, level, badges (the completionist badge included) and Game 1 flag |
| Business.BaseReward | script.js:546-567 | the revenue table by decision and difficulty, 0 outside it (ordered by `BaseRewardOrder`) |
| Business.ClientChange | script.js:546-567 | the client change by decision: +2, 0, -1, +1, and 0 outside the table |
| Business.BaseRewardOrder | script.js:547-567 | at each difficulty the four decisions pay strictly increasing base revenue; 'hard' pays no more than medium, and medium no more than 'easy'; a value outside the table pays 0 |
| Business.Multiplier | script.js:533-537 | the multiplier lies in [0.2, 1]; it is 1 exactly for no repeat and 0.2 from the 4th repeat on |
| Business.MultiplierNonincreasing | script.js:537 | more repeats never raise the multiplier, and lower it strictly until it reaches 0.2 |
| Business.DecisionReward | script.js:570 | the revenue lies between 0 and the base, and is the full base for a first decision |
| Business.DecisionRewardIsFloor | script.js:570 | the revenue is the floor of base · multiplier |
| Business.DecisionRewardNonincreasing | script.js:533-570 | repeating a decision never earns more than the repeat before |
| Business.NextHealth | script.js:581-582 | health stays within [0, 100]; revenue above 7000 raises it by 10 (capped), anything else lowers it by 5 (floored) |
| Business.Repeats | script.js:534-544 | the length of the run of repeats at the end of the decision list (its step is stated by `RepeatsAppend`) |
| Business.RepeatsAppend | script.js:534-544 | the repeat counter grows by one when the decision equals the last one, and restarts at 0 otherwise |
| Business.Game2.constructor | script.js:500-509 | the initial `game2State`: month 1, no revenue, 5 clients, health 50, no history |
| Business.Game2.Reset | script.js:511-521 | back to the initial `game2State` |
| Business.Game2.PlayMonth | script.js:526-584 | the repeat count and revenue follow the table and the multiplier. Month and revenue advance. Clients never drop below 1, and health moves as `NextHealth` says. Both histories grow by one entry. The record invariant is kept, including a nondecreasing revenue history |
| Business.Game2.AwardMonth | script.js:590-598 | the player gets 5 XP, with the level and level badges that follow. The 10th decision sets its badge. A revenue of at least 50000 sets the mogul badge, marks Game 2 complete and is announced. The completionist badge is set when the certificate's requirements are met at the end |
| Business.Game2.MakeDecision | script.js:526-599 | the whole `game2State` moves as `PlayMonth` says: repeat count, revenue, month, clients, health, both histories and the last decision. The player is awarded as `AwardMonth` says |
| Notices.ScenarioTable | script.js:667-697 | each of the three scenarios has four responses, exactly one of them worth 1.0 and at least one that fails |
| Notices.ScenarioFor | script.js:713 | the scenario for a draw r in [0, 1) is floor(3r), one of the three |
| Notices.ExplorationAfter | script.js:755 | the rate after k responses since a reset (closed form in `ExplorationClosedForm`) |
| Notices.ExplorationClosedForm | script.js:755 | after k responses since a reset the rate is max(0.2, 0.8 · 0.9^k) |
| Notices.ExplorationDecreases | script.js:755 | the rate never increases and stays within [0.2, 0.8] |
| Notices.ExplorationNoHigher | script.js:755 | a later rate is never higher than an earlier one |
| Notices.ExploringForFiveResponses | script.js:778 | the game shows 'Exploring' exactly for the first five responses after a reset |
| Notices.ExpertReached | script.js:761-762 | at least 10 responses with a success ratio of at least 0.8 (made integral by `ExpertReachedIntegral`) |
| Notices.ExpertReachedIntegral | script.js:761-762 | the expert test is the integer test 5 · successes >= 4 · handled, with at least 10 handled |
| Notices.ExpertNeedsEightOfTen | script.js:761-762 | after ten responses the expert test needs at least eight successes |
| Notices.Game3.constructor | script.js:663-701 | the initial `game3State`: nothing handled, rate 0.8, scenario 0, no recorded rewards |
| Notices.Game3.LoadNewNotice | script.js:712-713 | the current scenario is the one for the draw |
| Notices.Game3.Reset | script.js:703-710 | counters and rate start over, a new scenario is drawn, and the recorded rewards are kept |
| Notices.Game3.Respond | script.js:733-755 | one more response, its reward appended under the current scenario, one more success exactly when the reward is at least 0.8, and the rate decays |
| Notices.Game3.AwardResponse | script.js:758-766 | the player gets 10 XP, with the level and level badges that follow. The 5th response sets the novice badge. Reaching the expert test sets the expert badge, marks Game 3 complete and is announced. The completionist badge is set when the certificate's requirements are met at the end |
| Notices.Game3.HandleResponse | script.js:733-767 | the response is recorded as `Respond` says: count, success count, rate and the reward appended under the current scenario. The player is awarded as `AwardResponse` says |
| Quiz.Matches | script.js:868-874 | the count is at most the number of questions; it is full exactly when every answer is right and zero exactly when none is |
| Quiz.MatchesCountsRightSet | script.js:868-874 | the count is the number of questions answered correctly |
| Quiz.Percentage | script.js:884 | the score as a percentage of the five questions (its pass mark is stated by `PassMark`) |
| Quiz.PassMark | script.js:884-889 | the 80% mark is passed exactly with four or five right answers |
| Quiz.QuizSession.constructor | script.js:818-822 | no answers selected |
| Quiz.QuizSession.Start | script.js:824-827 | the answers are cleared |
| Quiz.QuizSession.SelectOption | script.js:860-865 | the option becomes the answer to that question, replacing an earlier one |
| Quiz.QuizSession.CountCorrect | script.js:868-874 | the loop counts the right answers, `Matches` over all five questions |
| Quiz.QuizSession.AwardTaker | script.js:886-887 | the quiz-taker badge and 50 XP, with the level badges that follow and the completionist badge when the requirements are met |
| Quiz.QuizSession.AwardMaster | script.js:890-894 | the quiz-master badge, `quizPassed`, a save, and 50 XP more, with the level badges that follow and the completionist badge when the requirements are met |
| Quiz.QuizSession.AwardQuiz | script.js:886-897 | the quiz-taker badge and 50 XP are always awarded. A pass sets the quiz-master badge and `quizPassed`, and awards 50 XP more. The level and level badges follow the XP, and the completionist badge is set when the requirements are met at the end |
| Quiz.QuizSession.Submit | script.js:867-897 | the score is the number of right answers, the quiz is passed at 80%, and the player is awarded as `AwardQuiz` says |
| Leaderboard.Place | script.js:1016 | one insertion step of the sort: the entry goes after every leading entry with at least its XP (stated by `PlaceAtFirstBelow`) |
| Leaderboard.SortByXp | script.js:1016 | the sort, highest XP first, as an insertion sort (its properties are stated by the lemmas below) |
| Leaderboard.PlaceAtFirstBelow | script.js:1016 | an insertion step puts the entry right before the first entry with fewer points |
| Leaderboard.SortByXpSorted | script.js:1016 | the sort orders entries by XP, highest first |
| Leaderboard.SortByXpPermutes | script.js:1016 | the sort is a permutation of its input |
| Leaderboard.SortSortedIsIdentity | script.js:1016 | a list already in order is left as it is |
| Leaderboard.PlaceIsStable | script.js:1016 | an insertion step into a sorted list keeps, for each XP value, the entries with that value in their original order |
| Leaderboard.SortByXpStable | script.js:1016 | the sort is stable: for every XP value, the entries with that value come out in the order they went in |
| Leaderboard.AddEntry | script.js:1008-1017 | the stored board has min(10, old length + 1) entries |
| Leaderboard.AddEntrySorted | script.js:1016-1017 | the stored board is sorted highest first |
| Leaderboard.AddEntryKeeps | script.js:1008-1017 | the stored board holds only entries of the old board and the new one, and all of them while the old board had fewer than ten rows |
| Leaderboard.AddEntryDropsLowest | script.js:1008-1017 | no entry cut off has more XP than one kept |
| Leaderboard.AddEntryKeepsHigh | script.js:1008-1017 | on a sorted board, the new entry goes in right after every entry with at least its XP and the list is cut to ten; so it stays when fewer than ten entries have at least its XP |
| Leaderboard.AddToSortedBoard | script.js:1008-1017 | on a sorted board, the new entry goes right after every entry with at least its XP; it stays on the board when fewer than ten entries have at least its XP |
| Leaderboard.AddToLeaderboard | script.js:1002-1017 | with no name or an empty one the board is unchanged. Otherwise the stored board is the top ten of the old board plus the new entry: sorted highest first, min(10, old length + 1) rows, only entries of the old board and the new one (all of them while fewer than ten were stored), no dropped entry above a kept one, and on a sorted board the new entry goes in right after every entry with at least its XP before the cut (so a tie at the tenth place drops it), staying when fewer than ten entries have at least its XP |

Proof steps that state facts about the model's own definitions rather than
behaviour of the script have no row. These are `LevelBadgesCompose`,
`LevelBadgesAfterUnlock`, `LevelBadgesKeepCompletionist`,
`CompletionistCommutes`, `CompletionistAbsorbs`, `UnlockKeepsSettled`,
`LevelStep`, `MasterAfterTaker`, `CutBelowKept`, `WithXpConcat`, `WithXpNone`,
`InsertBeforeLowerIsStable`, `FirstBelowSplits`, `SortAppendedToSorted`,
`InsertedKept`, `ScaleMonotone`, `FloorMonotone`, `MulMonotone`,
`IndexRowColumn`, `RowColumn`, `NextRow`, `RunUnfold`, `DeparturesStep`,
`InnerReward` and `PowPositive`.

## Left out

- The DOM and the rendering are not modelled. This covers the grid's CSS classes, the path highlight, the Q-table view, both charts, the logs, the toasts, the sliders, the badge grid and `updateUI`. A message the script shows is modelled only as the boolean `announced`, where a game announces its completion.
- `localStorage` and JSON are not modelled: `loadGameState`, the write in `saveGameState`, and the leaderboard's read and write. The leaderboard is passed in and returned as a list, and `renderLeaderboard` is not modelled.
- `Math.random` becomes parameters: the draws of `createGrid`, the `Draw` pairs of `chooseAction`, and the draw of `loadNewNotice`. Each draw is required to lie in [0, 1), as `Math.random` guarantees.
- `prompt` becomes the `name` parameter. `new Date()`, and the day difference `checkStreak` computes from it, also become parameters: the entry's date string, and `daysDiff` (None when there was no earlier visit). The stored `lastVisit` string is not modelled.
- Timers are not modelled: `setInterval`, `setTimeout`, and the redraw of the grid 1.5 s after an episode. An episode runs on a fixed grid array given as a parameter. Its ticks are run back to back, as a loop.
- `trainGame1` is not modelled. It is a timed loop of ten episodes guarded by `isTraining`. The model keeps the `isTraining` flag and only passes it through.
- `revealConcept` is not modelled: concept cards and the concept-master badge. `generateCertificate` is not modelled either: the certificate page and its 100 XP. Of `updateUI`, only the completionist unlock in `checkCertificateEligibility` is modelled, as `Player.SaveGameState`.
- `loadGameState`'s redraw and the unlocks that its `updateUI` can make at page load are not modelled.
- Game 3's scenario texts and strategy names are not modelled; only the rewards are. The recorded rewards, `knownStrategies`, are kept but never read, as in the script.
- The quiz's question texts are not modelled, nor the unused `currentQuestion` and `score` fields. The answers are a map from question index to option index.
- Business.DecisionReward: computes floor(base · multiplier) on exact reals. The script computes it in IEEE doubles, where 1 - 3 · 0.2 is just below 0.4. A third repeat on 'easy' low price can then pay 1999 rather than 2000. The model's value may be one more than the script's whenever the double product falls just below an integer.
- Training.EpsilonClosedForm: the decay rates of Game 1 and Game 3 are exact reals in the model, not doubles. The ordering facts hold with wide margins. The exact values do not hold in the script's arithmetic.
- QLearning.TdUpdate: the action values are exact reals in the model, while the script stores IEEE doubles. Rounding can make two values equal in one arithmetic and not in the other. Then `indexOf(Math.max(...))` at script.js:333 may choose a different first greatest action in the script than in the model.
