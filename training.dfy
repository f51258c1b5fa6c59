/** Game 1's training session: the `game1State` record, the tick loop of
    one episode, the bookkeeping at the end of an episode and the reset.
    The pure functions `Tick` and `Run` specify an episode; the class
    `Game1` runs it in place and is proved to follow them. */
module Training {
  import opened Common
  import opened Progress
  import opened GridWorld
  import opened QLearning

  // ---------------------------------------------------------------------
  // Exploration rate

  /** The decay applied at the end of every episode: max(0.1, 0.95 * e). */
  function Decay(e: real): real {
    MaxReal(0.1, e * 0.95)
  }

  /** A decayed rate is at least 0.1, and a rate in [0.1, 1.0] never grows. */
  lemma DecayBounds(e: real)
    ensures 0.1 <= Decay(e)
    ensures 0.1 <= e <= 1.0 ==> Decay(e) <= e
  {
  }

  /** The exploration rate after k episodes since the last reset, which
      sets it to 1.0. */
  function EpsilonAfter(k: nat): real {
    if k == 0 then 1.0 else Decay(EpsilonAfter(k - 1))
  }

  /** After k episodes the rate is max(0.1, 0.95^k). */
  lemma {:induction false} EpsilonClosedForm(k: nat)
    ensures EpsilonAfter(k) == MaxReal(0.1, Pow(0.95, k))
  {
    if k > 0 {
      EpsilonClosedForm(k - 1);
      PowPositive(0.95, k - 1);
    }
  }

  /** The rate never increases and stays within [0.1, 1.0]. */
  lemma {:induction false} EpsilonDecreases(k: nat)
    ensures 0.1 <= EpsilonAfter(k + 1) <= EpsilonAfter(k) <= 1.0
  {
    if k > 0 {
      EpsilonDecreases(k - 1);
    }
  }

  // ---------------------------------------------------------------------
  // One episode, as a function of the grid, the rate and the random draws

  /** The variables of `runGame1Episode`'s closure, plus the table it updates. */
  datatype Walk = Walk(position: int, path: seq<int>, reward: int, steps: nat, q: QTable)

  /** How an episode ended. */
  datatype Ending = ReachedGoal | HitStepCap

  /** `maxSteps`: the tick budget of an episode on an n x n grid. */
  function MaxSteps(n: int): int {
    n * n * 2
  }

  /** The closure's state when the episode starts at cell 0. */
  function StartWalk(q: QTable): Walk {
    Walk(0, [0], 0, 0, q)
  }

  /** The grid, its side and the random draws an episode runs on: one draw
      for every tick that can choose an action. */
  ghost predicate EpisodeInputs(g: seq<Cell>, n: int, draws: seq<Draw>) {
    1 <= n && |g| == n * n && |draws| >= MaxSteps(n) &&
    forall i :: 0 <= i < |draws| ==> ValidDraw(draws[i])
  }

  /** One tick of the interval callback that got past the step cap check:
      choose an action, compute the new position, and unless the move is
      rejected, collect the cell's reward, update the table and extend the
      path. A rejected move changes nothing. */
  function Tick(g: seq<Cell>, n: int, epsilon: real, d: Draw, w: Walk): (w': Walk)
    requires 1 <= n && |g| == n * n && ValidDraw(d)
    requires 0 <= w.position < n * n && ValidTable(w.q)
    ensures 0 <= w'.position < n * n && ValidTable(w'.q)
    ensures w'.steps == w.steps
    ensures w'.position == w.position <==> w' == w
    ensures w'.position != w.position ==>
      && Adjacent(w.position, w'.position, n)
      && w'.path == w.path + [w'.position]
      && w'.reward == w.reward + RewardOf(g[w'.position])
      && w'.q.Keys == w.q.Keys + {w.position}
      && forall t :: t != w.position ==> Row(w'.q, t) == Row(w.q, t)
  {
    var action := ChooseAction(w.q, w.position, epsilon, d);
    NewPositionSpec(w.position, action, n);
    var next := NewPosition(w.position, action, n);
    if next == w.position then
      w
    else
      var r := RewardOf(g[next]);
      Walk(next, w.path + [next], w.reward + r, w.steps, TdUpdate(w.q, w.position, action, r, next))
  }

  /** The rest of the episode from closure state `w`: a tick first counts
      itself, and ends the episode when the count exceeds `maxSteps`;
      otherwise it runs `Tick`, and the episode ends when an accepted move
      enters the goal. */
  function Run(g: seq<Cell>, n: int, epsilon: real, draws: seq<Draw>, w: Walk): (Walk, Ending)
    requires EpisodeInputs(g, n, draws)
    requires 0 <= w.position < n * n && ValidTable(w.q)
    requires w.steps <= MaxSteps(n)
    decreases MaxSteps(n) - w.steps
  {
    if w.steps + 1 > MaxSteps(n) then
      (w.(steps := w.steps + 1), HitStepCap)
    else
      var w' := Tick(g, n, epsilon, draws[w.steps], w.(steps := w.steps + 1));
      if w'.position != w.position && g[w'.position] == Goal then (w', ReachedGoal)
      else Run(g, n, epsilon, draws, w')
  }

  /** One unfolding of `Run` for a tick that got past the cap. */
  lemma RunUnfold(g: seq<Cell>, n: int, epsilon: real, draws: seq<Draw>, w: Walk)
    requires EpisodeInputs(g, n, draws)
    requires 0 <= w.position < n * n && ValidTable(w.q)
    requires w.steps < MaxSteps(n)
    ensures var w' := Tick(g, n, epsilon, draws[w.steps], w.(steps := w.steps + 1));
      Run(g, n, epsilon, draws, w) ==
        if w'.position != w.position && g[w'.position] == Goal then (w', ReachedGoal)
        else Run(g, n, epsilon, draws, w')
  {
  }

  /** A whole episode from cell 0 with table q. */
  function Episode(g: seq<Cell>, n: int, epsilon: real, draws: seq<Draw>, q: QTable): (Walk, Ending)
    requires EpisodeInputs(g, n, draws) && ValidTable(q)
  {
    Run(g, n, epsilon, draws, StartWalk(q))
  }

  // ---------------------------------------------------------------------
  // What an episode guarantees

  /** Every tick counts, so an episode stops after at most maxSteps + 1
      ticks: it hits the cap exactly when it used all of them. A move is
      made on a tick that drew an action, so the path grows by at most the
      number of drawing ticks. */
  lemma {:induction false} RunBounded(g: seq<Cell>, n: int, epsilon: real, draws: seq<Draw>, w: Walk)
    requires EpisodeInputs(g, n, draws)
    requires 0 <= w.position < n * n && ValidTable(w.q)
    requires w.steps <= MaxSteps(n)
    decreases MaxSteps(n) - w.steps
    ensures var (w', e) := Run(g, n, epsilon, draws, w);
      && w.steps < w'.steps <= MaxSteps(n) + 1
      && (e == HitStepCap <==> w'.steps == MaxSteps(n) + 1)
      && |w.path| <= |w'.path|
      && |w'.path| - |w.path| <= w'.steps - w.steps - (if e == HitStepCap then 1 else 0)
  {
    if w.steps + 1 <= MaxSteps(n) {
      var w1 := Tick(g, n, epsilon, draws[w.steps], w.(steps := w.steps + 1));
      if !(w1.position != w.position && g[w1.position] == Goal) {
        RunBounded(g, n, epsilon, draws, w1);
      }
    }
  }

  /** `path` starts at cell 0 and each later entry is a lattice neighbour
      of the one before; `position` is its last entry. */
  ghost predicate IsWalk(path: seq<int>, position: int, n: int)
    requires 1 <= n
  {
    |path| >= 1 && path[0] == 0 && path[|path| - 1] == position &&
    (forall i :: 0 <= i < |path| ==> 0 <= path[i] < n * n) &&
    (forall i :: 0 <= i < |path| - 1 ==> Adjacent(path[i], path[i + 1], n))
  }

  /** The sum of the rewards collected along a path: the entry cell 0
      collects nothing, every later entry the reward of its cell. */
  function PathReward(g: seq<Cell>, path: seq<int>): int
    requires forall i :: 0 <= i < |path| ==> 0 <= path[i] < |g|
  {
    if |path| <= 1 then 0
    else PathReward(g, path[..|path| - 1]) + RewardOf(g[path[|path| - 1]])
  }

  /** No cell of the path but possibly the last is the goal. */
  ghost predicate GoalOnlyAtEnd(g: seq<Cell>, path: seq<int>)
    requires forall i :: 0 <= i < |path| ==> 0 <= path[i] < |g|
  {
    forall i :: 0 <= i < |path| - 1 ==> g[path[i]] != Goal
  }

  /** The closure state of an episode in progress: the path is a lattice
      walk from cell 0 ending at the position, the episode reward is the
      sum of the rewards along it, and the goal is not passed through. */
  ghost predicate Consistent(g: seq<Cell>, n: int, w: Walk)
    requires 1 <= n && |g| == n * n
  {
    IsWalk(w.path, w.position, n) && w.reward == PathReward(g, w.path) && GoalOnlyAtEnd(g, w.path)
  }

  /** A tick away from a non-goal cell keeps the closure state consistent
      and only extends the path. */
  lemma TickKeepsConsistent(g: seq<Cell>, n: int, epsilon: real, d: Draw, w: Walk)
    requires 1 <= n && |g| == n * n && ValidDraw(d)
    requires 0 <= w.position < n * n && ValidTable(w.q)
    requires Consistent(g, n, w) && g[w.position] != Goal
    ensures Consistent(g, n, Tick(g, n, epsilon, d, w))
    ensures w.path <= Tick(g, n, epsilon, d, w).path
  {
    var w1 := Tick(g, n, epsilon, d, w);
    if w1.position != w.position {
      var path := w1.path;
      assert path == w.path + [w1.position];
      assert path[..|path| - 1] == w.path;
    }
  }

  /** The path stays a lattice walk that extends the one so far, the
      episode reward stays the sum of the rewards along it, and the goal is
      never passed through: the episode ends on the goal exactly when it
      stops with ReachedGoal. */
  lemma {:induction false} RunFollowsLattice(g: seq<Cell>, n: int, epsilon: real, draws: seq<Draw>, w: Walk)
    requires EpisodeInputs(g, n, draws)
    requires 0 <= w.position < n * n && ValidTable(w.q)
    requires w.steps <= MaxSteps(n)
    requires Consistent(g, n, w) && g[w.position] != Goal
    decreases MaxSteps(n) - w.steps
    ensures var (w', e) := Run(g, n, epsilon, draws, w);
      && Consistent(g, n, w')
      && w.path <= w'.path
      && (e == ReachedGoal <==> g[w'.position] == Goal)
  {
    if w.steps + 1 <= MaxSteps(n) {
      var w1 := Tick(g, n, epsilon, draws[w.steps], w.(steps := w.steps + 1));
      TickKeepsConsistent(g, n, epsilon, draws[w.steps], w.(steps := w.steps + 1));
      if !(w1.position != w.position && g[w1.position] == Goal) {
        RunFollowsLattice(g, n, epsilon, draws, w1);
      }
    }
  }

  /** The cells the agent moves away from during the rest of an episode
      that started its run at path length `from`. */
  function Departures(path: seq<int>, from: nat): set<int>
    requires 1 <= from <= |path|
  {
    set i | from - 1 <= i < |path| - 1 :: path[i]
  }

  /** The departures from `from` on are the cell left at `from` and the
      departures after it. */
  lemma DeparturesStep(path: seq<int>, from: nat)
    requires 1 <= from < |path|
    ensures Departures(path, from) == {path[from - 1]} + Departures(path, from + 1)
  {
  }

  /** Only states the agent moves away from have their values changed:
      any other state keeps its row, and an absent state stays absent. */
  lemma {:induction false} RunLearnsOnlyOnPath(g: seq<Cell>, n: int, epsilon: real, draws: seq<Draw>, w: Walk, t: int)
    requires EpisodeInputs(g, n, draws)
    requires 0 <= w.position < n * n && ValidTable(w.q)
    requires w.steps <= MaxSteps(n)
    requires |w.path| >= 1 && w.path[|w.path| - 1] == w.position
    decreases MaxSteps(n) - w.steps
    ensures var (w', _) := Run(g, n, epsilon, draws, w);
      && w.path <= w'.path
      && (t !in Departures(w'.path, |w.path|) ==> Row(w'.q, t) == Row(w.q, t) && (t in w'.q <==> t in w.q))
  {
    if w.steps + 1 <= MaxSteps(n) {
      var w1 := Tick(g, n, epsilon, draws[w.steps], w.(steps := w.steps + 1));
      var w' := Run(g, n, epsilon, draws, w).0;
      if w1.position == w.position {
        RunLearnsOnlyOnPath(g, n, epsilon, draws, w1, t);
      } else if g[w1.position] == Goal {
        assert w' == w1;
        DeparturesStep(w'.path, |w.path|);
      } else {
        RunLearnsOnlyOnPath(g, n, epsilon, draws, w1, t);
        assert w1.path <= w'.path;
        DeparturesStep(w'.path, |w.path|);
      }
    }
  }

  /** On a grid whose inner cells are all neutral, an episode that reaches
      the goal in k moves collects 20 - (k - 1) plus one for every time it
      re-entered the start cell (which pays 0 instead of -1). */
  lemma {:induction false} NeutralGridReward(g: seq<Cell>, n: int, path: seq<int>)
    requires WellFormed(g, n)
    requires forall i :: 0 < i < n * n - 1 ==> g[i] == Neutral
    requires |path| >= 2 && forall i :: 0 <= i < |path| ==> 0 <= path[i] < |g|
    requires path[|path| - 1] == n * n - 1 && GoalOnlyAtEnd(g, path)
    ensures PathReward(g, path) == 20 - (|path| - 2) + multiset(path[1..|path| - 1])[0]
  {
    InnerReward(g, n, path[..|path| - 1]);
    assert path[..|path| - 1][1..] == path[1..|path| - 1];
  }

  /** The neutral-grid sum of a goal-free path. */
  lemma {:induction false} InnerReward(g: seq<Cell>, n: int, path: seq<int>)
    requires WellFormed(g, n)
    requires forall i :: 0 < i < n * n - 1 ==> g[i] == Neutral
    requires |path| >= 1 && forall i :: 0 <= i < |path| ==> 0 <= path[i] < n * n - 1
    ensures PathReward(g, path) == -(|path| - 1) + multiset(path[1..])[0]
  {
    if |path| > 1 {
      var init := path[..|path| - 1];
      InnerReward(g, n, init);
      assert path[1..] == init[1..] + [path[|path| - 1]];
    }
  }

  // ---------------------------------------------------------------------
  // The session object

  /** `resetGame1`'s difficulty rule: 'easy' is 5, 'hard' is 10, anything
      else 7. */
  function GridSizeFor(difficulty: string): (n: int)
    ensures n == 5 || n == 7 || n == 10
    ensures n == 5 <==> difficulty == "easy"
    ensures n == 10 <==> difficulty == "hard"
  {
    if difficulty == "easy" then 5 else if difficulty == "hard" then 10 else 7
  }

  /** `game1State`. */
  class Game1 {
    var gridSize: int
    var episodes: int
    var qTable: QTable
    var epsilon: real
    var rewardHistory: seq<int>
    var currentReward: int
    var isTraining: bool
    var isRunning: bool

    /** Since the last reset: one history entry per episode, the rate decayed
        once per episode, and the current reward is the last entry. */
    ghost predicate Valid()
      reads this
    {
      2 <= gridSize && 0 <= episodes && ValidTable(qTable) &&
      |rewardHistory| == episodes &&
      epsilon == EpsilonAfter(episodes) &&
      currentReward == (if episodes == 0 then 0 else rewardHistory[episodes - 1])
    }

    /** The initial `game1State` literal. */
    constructor ()
      ensures Valid()
      ensures gridSize == 7 && episodes == 0 && qTable == map[] && epsilon == 1.0
      ensures rewardHistory == [] && currentReward == 0 && !isTraining && !isRunning
    {
      gridSize, episodes, qTable, epsilon := 7, 0, map[], 1.0;
      rewardHistory, currentReward, isTraining, isRunning := [], 0, false, false;
    }

    /** `resetGame1`: the side from the difficulty, a cleared session and
        table, and a fresh grid built from one draw per cell. */
    method Reset(difficulty: string, draws: seq<real>) returns (cells: array<Cell>)
      requires |draws| == GridSizeFor(difficulty) * GridSizeFor(difficulty)
      modifies this
      ensures Valid()
      ensures gridSize == GridSizeFor(difficulty)
      ensures episodes == 0 && qTable == map[] && epsilon == 1.0
      ensures rewardHistory == [] && currentReward == 0 && !isTraining && !isRunning
      ensures fresh(cells) && cells.Length == gridSize * gridSize
      ensures forall i :: 0 <= i < gridSize * gridSize ==> cells[i] == Classify(i, gridSize, draws[i])
    {
      gridSize := GridSizeFor(difficulty);
      episodes, qTable, epsilon := 0, map[], 1.0;
      rewardHistory, currentReward, isTraining, isRunning := [], 0, false, false;
      cells := CreateGrid(gridSize, draws);
    }

    /** `updateQTable`, in place on the session's table. */
    method UpdateQTable(s: int, a: int, reward: int, next: int)
      requires ValidTable(qTable)
      requires 0 <= a < 4
      modifies this`qTable
      ensures qTable == TdUpdate(old(qTable), s, a, reward, next)
    {
      var row := Row(qTable, s);
      var maxNextQ := NextValue(qTable, next);
      qTable := qTable[s := row[a := row[a] + Alpha * (reward as real + Gamma * maxNextQ - row[a])]];
    }

    /** The `game1State` part of `completeEpisode`: count the episode,
        record its reward and decay the rate. */
    method RecordEpisode(reward: int)
      requires Valid()
      modifies this`episodes, this`currentReward, this`rewardHistory, this`epsilon
      ensures Valid()
      ensures episodes == old(episodes) + 1
      ensures rewardHistory == old(rewardHistory) + [reward]
      ensures currentReward == reward
      ensures epsilon == Decay(old(epsilon))
    {
      episodes := episodes + 1;
      currentReward := reward;
      rewardHistory := rewardHistory + [reward];
      epsilon := Decay(epsilon);
    }

    /** The player part of `completeEpisode`, once `episodes` episodes
        have been recorded: award 10 XP; the 5th and 20th episodes unlock
        their badges (at most once, as `UnlockBadge` does), and the 20th
        marks Game 1 complete and saves, which sets the completionist badge
        once every requirement is met. `announced` says whether the
        completion message is shown. */
    static method AwardEpisode(episodes: int, p: Player) returns (announced: bool)
      requires p.Valid()
      modifies p`xp, p`level, p`badges, p`game1Complete
      ensures p.Valid()
      ensures p.xp == old(p.xp) + 10
      ensures p.level == LevelReached(p.xp, old(p.level))
      ensures p.badges ==
        WithBadge(WithBadge(WithBadge(LevelBadges(old(p.badges), old(p.level), p.level),
                                      Game1Rookie, episodes == 5), Game1Pro, episodes == 20),
                  Completionist, p.Eligible())
      ensures announced == (episodes == 20)
      ensures p.game1Complete == (old(p.game1Complete) || episodes == 20)
    {
      p.AddXP(10);
      ghost var levelled, eligible := LevelBadges(old(p.badges), old(p.level), p.level), p.Eligible();

      if episodes == 5 {
        var u := p.UnlockBadge(Game1Rookie);
        UnlockKeepsSettled(levelled, Game1Rookie, eligible, u && eligible);
      }
      ghost var rookie := WithBadge(levelled, Game1Rookie, episodes == 5);
      announced := episodes == 20;
      if episodes == 20 {
        var u := p.UnlockBadge(Game1Pro);
        UnlockKeepsSettled(rookie, Game1Pro, eligible, u && eligible);
        p.game1Complete := true;
        p.SaveGameState();
        CompletionistAbsorbs(rookie[Game1Pro := true], eligible, p.Eligible());
      }
    }

    /** `completeEpisode`: record the episode as `RecordEpisode` says and
        award the player as `AwardEpisode` says. `announced` is true every
        time the count reaches 20. The table is kept. */
    method CompleteEpisode(reward: int, p: Player) returns (announced: bool)
      requires Valid() && p.Valid()
      modifies this`episodes, this`currentReward, this`rewardHistory, this`epsilon
      modifies p`xp, p`level, p`badges, p`game1Complete
      ensures Valid() && p.Valid()
      ensures episodes == old(episodes) + 1
      ensures rewardHistory == old(rewardHistory) + [reward]
      ensures currentReward == reward
      ensures epsilon == Decay(old(epsilon))
      ensures p.xp == old(p.xp) + 10
      ensures p.level == LevelReached(p.xp, old(p.level))
      ensures p.badges ==
        WithBadge(WithBadge(WithBadge(LevelBadges(old(p.badges), old(p.level), p.level),
                                      Game1Rookie, episodes == 5), Game1Pro, episodes == 20),
                  Completionist, p.Eligible())
      ensures announced == (episodes == 20)
      ensures p.game1Complete == (old(p.game1Complete) || episodes == 20)
    {
      RecordEpisode(reward);
      announced := AwardEpisode(episodes, p);
    }

    /** The interval callback after the step cap check: choose an action
        on the tick's draw, compute the new position and, unless the move
        is rejected, collect the cell's reward, update the table in place
        and extend the path. It does as `Tick` says. */
    method Move(cells: array<Cell>, d: Draw, position: int, path: seq<int>, episodeReward: int, ghost steps: nat)
      returns (newPosition: int, newPath: seq<int>, newReward: int)
      requires 1 <= gridSize && cells.Length == gridSize * gridSize && ValidDraw(d)
      requires 0 <= position < gridSize * gridSize && ValidTable(qTable)
      modifies this`qTable
      ensures Walk(newPosition, newPath, newReward, steps, qTable) ==
        Tick(cells[..], gridSize, epsilon, d, Walk(position, path, episodeReward, steps, old(qTable)))
    {
      var action := ChooseAction(qTable, position, epsilon, d);
      NewPositionSpec(position, action, gridSize);
      newPosition := NewPosition(position, action, gridSize);

      // a move off the grid: nothing changes
      if newPosition == position {
        return position, path, episodeReward;
      }

      var reward := RewardOf(cells[newPosition]);
      newReward := episodeReward + reward;
      UpdateQTable(position, action, reward, newPosition);
      newPath := path + [newPosition];
    }

    /** The interval ticks of `runGame1Episode`, run back to back on a
        fixed grid from cell 0 until the goal is entered or the step cap is
        exceeded. The episode goes as `Episode` says. */
    method PlayEpisode(cells: array<Cell>, draws: seq<Draw>)
      returns (ending: Ending, path: seq<int>, total: int)
      requires 1 <= gridSize && ValidTable(qTable)
      requires EpisodeInputs(cells[..], gridSize, draws)
      modifies this`qTable
      ensures ValidTable(qTable)
      ensures var (w, e) := Episode(cells[..], gridSize, epsilon, draws, old(qTable));
        ending == e && path == w.path && total == w.reward && qTable == w.q
    {
      ghost var g := cells[..];
      ghost var result := Episode(g, gridSize, epsilon, draws, qTable);
      var n := gridSize;
      var position := 0;
      var episodeReward := 0;
      path := [position];
      var steps := 0;
      var maxSteps := n * n * 2;

      var ended: Option<Ending> := None;
      while ended.None?
        invariant 0 <= position < n * n && ValidTable(qTable)
        invariant steps <= maxSteps + 1
        invariant ended.None? ==>
          steps <= maxSteps && Run(g, n, epsilon, draws, Walk(position, path, episodeReward, steps, qTable)) == result
        invariant ended.Some? ==> result == (Walk(position, path, episodeReward, steps, qTable), ended.value)
        decreases maxSteps + 1 - steps
      {
        ghost var w := Walk(position, path, episodeReward, steps, qTable);
        steps := steps + 1;

        // the step cap: every tick counts, including rejected moves
        if steps > maxSteps {
          ended := Some(HitStepCap);
        } else {
          RunUnfold(g, n, epsilon, draws, w);
          ghost var w1 := Tick(g, n, epsilon, draws[w.steps], w.(steps := w.steps + 1));
          var newPosition, newPath, newReward := Move(cells, draws[steps - 1], position, path, episodeReward, steps);
          assert w1 == Walk(newPosition, newPath, newReward, steps, qTable);
          var moved := newPosition != position;
          position, path, episodeReward := newPosition, newPath, newReward;
          if moved && cells[position] == Goal {
            ended := Some(ReachedGoal);
          }
        }
      }
      ending, total := ended.value, episodeReward;
    }

    /** `runGame1Episode`: a call while an episode is running does nothing;
        otherwise the episode is played as `Episode` says, and
        `CompleteEpisode` is applied to its reward. */
    method RunEpisode(cells: array<Cell>, draws: seq<Draw>, p: Player)
      returns (ending: Option<Ending>, path: seq<int>, total: int)
      requires Valid() && p.Valid()
      requires EpisodeInputs(cells[..], gridSize, draws)
      modifies this`qTable, this`episodes, this`currentReward, this`rewardHistory, this`epsilon, this`isRunning
      modifies p`xp, p`level, p`badges, p`game1Complete
      ensures Valid() && p.Valid()
      ensures old(isRunning) ==> ending == None && unchanged(this) && unchanged(p)
      ensures !old(isRunning) ==>
        var (w, e) := Episode(cells[..], old(gridSize), old(epsilon), draws, old(qTable));
        && ending == Some(e) && path == w.path && total == w.reward && qTable == w.q
        && episodes == old(episodes) + 1
        && rewardHistory == old(rewardHistory) + [total]
        && currentReward == total
        && epsilon == Decay(old(epsilon))
        && gridSize == old(gridSize) && isTraining == old(isTraining) && !isRunning
        && p.xp == old(p.xp) + 10
        && p.level == LevelReached(p.xp, old(p.level))
        && p.badges ==
             WithBadge(WithBadge(WithBadge(LevelBadges(old(p.badges), old(p.level), p.level),
                                           Game1Rookie, episodes == 5), Game1Pro, episodes == 20),
                       Completionist, p.Eligible())
        && p.game1Complete == (old(p.game1Complete) || episodes == 20)
    {
      if isRunning {
        return None, [], 0;
      }
      isRunning := true;
      var e;
      e, path, total := PlayEpisode(cells, draws);
      ending := Some(e);
      var _ := CompleteEpisode(total, p);
      isRunning := false;
    }
  }
}
