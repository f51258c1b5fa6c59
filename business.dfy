/** Game 2, the business decision game: each month the player picks a
    pricing decision, which earns revenue (less for a repeated decision),
    changes the client count and moves the business health. */
module Business {
  import opened Common
  import opened Progress

  /** The value a decision button passes to `makeDecision`. Any other value
      matches no case of the decision table. */
  datatype Decision = LowPrice | MedPrice | HighPrice | Premium | Other(name: string)

  /** The revenue a decision earns before the repetition penalty, by
      difficulty ('easy', 'hard', anything else is medium). */
  function BaseReward(d: Decision, difficulty: string): int {
    match d
    case LowPrice => if difficulty == "easy" then 5000 else if difficulty == "hard" then 3000 else 4000
    case MedPrice => if difficulty == "easy" then 8000 else if difficulty == "hard" then 5000 else 7000
    case HighPrice => if difficulty == "easy" then 12000 else if difficulty == "hard" then 6000 else 10000
    case Premium => if difficulty == "easy" then 15000 else if difficulty == "hard" then 8000 else 12000
    case Other(_) => 0
  }

  /** The medium difficulty: any value other than 'easy' and 'hard'. */
  predicate IsMedium(difficulty: string) {
    difficulty != "easy" && difficulty != "hard"
  }

  /** At every difficulty the table rewards a pricier decision with more
      base revenue and pays nothing for a value outside it, and an easier
      difficulty pays at least as much as a harder one. */
  lemma BaseRewardOrder(d: Decision, difficulty: string, medium: string)
    requires IsMedium(medium)
    ensures 0 < BaseReward(LowPrice, difficulty) < BaseReward(MedPrice, difficulty)
      < BaseReward(HighPrice, difficulty) < BaseReward(Premium, difficulty)
    ensures d.Other? <==> BaseReward(d, difficulty) == 0
    ensures BaseReward(d, "hard") <= BaseReward(d, medium) <= BaseReward(d, "easy")
  {
  }

  /** The change in the client count: +2, 0, -1, +1, and none for a value
      outside the table. */
  function ClientChange(d: Decision): int {
    match d
    case LowPrice => 2
    case MedPrice => 0
    case HighPrice => -1
    case Premium => 1
    case Other(_) => 0
  }

  /** The diminishing-returns multiplier after `count` consecutive repeats:
      20% less per repeat, never below 20%. */
  function Multiplier(count: int): (m: real)
    requires 0 <= count
    ensures 0.2 <= m <= 1.0
    ensures m == 1.0 <==> count == 0
    ensures count >= 4 ==> m == 0.2
  {
    MaxReal(0.2, 1.0 - count as real * 0.2)
  }

  /** Each further repeat lowers the multiplier until it reaches 20%. */
  lemma MultiplierNonincreasing(c1: int, c2: int)
    requires 0 <= c1 <= c2
    ensures Multiplier(c2) <= Multiplier(c1)
    ensures c1 < c2 && c1 < 4 ==> Multiplier(c2) < Multiplier(c1)
  {
  }

  /** The revenue of a decision after `count` consecutive repeats: the base
      revenue scaled by the multiplier and rounded down. */
  function DecisionReward(d: Decision, difficulty: string, count: int): (r: int)
    requires 0 <= count
    ensures 0 <= r <= BaseReward(d, difficulty)
    ensures count == 0 ==> r == BaseReward(d, difficulty)
  {
    (BaseReward(d, difficulty) as real * Multiplier(count)).Floor
  }

  /** The revenue is the largest whole amount not above base * multiplier. */
  lemma DecisionRewardIsFloor(d: Decision, difficulty: string, count: int)
    requires 0 <= count
    ensures var r := DecisionReward(d, difficulty, count);
      r as real <= BaseReward(d, difficulty) as real * Multiplier(count) < r as real + 1.0
  {
  }

  /** Scaling by a non-negative base keeps the order of multipliers. */
  lemma ScaleMonotone(b: real, m1: real, m2: real)
    requires 0.0 <= b && m2 <= m1
    ensures b * m2 <= b * m1
  {
    assert b * m1 - b * m2 == b * (m1 - m2);
  }

  /** Rounding down keeps the order of reals. */
  lemma FloorMonotone(x: real, y: real)
    requires x <= y
    ensures x.Floor <= y.Floor
  {
  }

  /** Repeating a decision never earns more than the time before. */
  lemma DecisionRewardNonincreasing(d: Decision, difficulty: string, c1: int, c2: int)
    requires 0 <= c1 <= c2
    ensures DecisionReward(d, difficulty, c2) <= DecisionReward(d, difficulty, c1)
  {
    MultiplierNonincreasing(c1, c2);
    var b := BaseReward(d, difficulty) as real;
    ScaleMonotone(b, Multiplier(c1), Multiplier(c2));
    FloorMonotone(b * Multiplier(c2), b * Multiplier(c1));
  }

  /** The health after a month: +10 when the month's revenue exceeds 7000,
      -5 otherwise, clamped to [0, 100]. */
  function NextHealth(health: int, reward: int): (h: int)
    requires 0 <= health <= 100
    ensures 0 <= h <= 100
    ensures reward > 7000 ==> h == MinInt(100, health + 10) && health <= h
    ensures reward <= 7000 ==> h == MaxInt(0, health - 5) && h <= health
  {
    MinInt(100, MaxInt(0, health + (if reward > 7000 then 10 else -5)))
  }

  /** The number of decisions at the end of `ds` that repeat the one
      before them: 0 when the last two differ. */
  function Repeats(ds: seq<Decision>): nat {
    if |ds| <= 1 then 0
    else if ds[|ds| - 1] == ds[|ds| - 2] then Repeats(ds[..|ds| - 1]) + 1
    else 0
  }

  /** Appending a decision continues the run of repeats exactly when it
      equals the last one. */
  lemma RepeatsAppend(ds: seq<Decision>, d: Decision)
    ensures |ds| > 0 && ds[|ds| - 1] == d ==> Repeats(ds + [d]) == Repeats(ds) + 1
    ensures (|ds| == 0 || ds[|ds| - 1] != d) ==> Repeats(ds + [d]) == 0
  {
    assert (ds + [d])[..|ds|] == ds;
  }

  /** `game2State`. */
  class Game2 {
    var month: int
    var revenue: int
    var clients: int
    var health: int
    var decisions: seq<Decision>
    var revenueHistory: seq<int>
    var lastDecision: Option<Decision>
    var consecutiveCount: int

    /** One history entry per month played, the revenue is the last entry
        and never decreases, at least one client, health within [0, 100],
        and the repetition counter tracks the trailing run of decisions. */
    ghost predicate Valid()
      reads this
    {
      1 <= clients && 0 <= health <= 100 &&
      |decisions| == |revenueHistory| == month - 1 &&
      revenue == (if |revenueHistory| == 0 then 0 else revenueHistory[|revenueHistory| - 1]) &&
      (forall i :: 0 < i < |revenueHistory| ==> revenueHistory[i - 1] <= revenueHistory[i]) &&
      0 <= revenue &&
      lastDecision == (if |decisions| == 0 then None else Some(decisions[|decisions| - 1])) &&
      consecutiveCount == Repeats(decisions)
    }

    /** The initial `game2State` literal. */
    constructor ()
      ensures Valid()
      ensures month == 1 && revenue == 0 && clients == 5 && health == 50
      ensures decisions == [] && revenueHistory == [] && lastDecision == None && consecutiveCount == 0
    {
      month, revenue, clients, health := 1, 0, 5, 50;
      decisions, revenueHistory, lastDecision, consecutiveCount := [], [], None, 0;
    }

    /** `resetGame2`: back to the initial state. */
    method Reset()
      modifies this
      ensures Valid()
      ensures month == 1 && revenue == 0 && clients == 5 && health == 50
      ensures decisions == [] && revenueHistory == [] && lastDecision == None && consecutiveCount == 0
    {
      month, revenue, clients, health := 1, 0, 5, 50;
      decisions, revenueHistory, lastDecision, consecutiveCount := [], [], None, 0;
    }

    /** The `game2State` part of `makeDecision`: the same decision as last
        month counts one more repeat, a different one resets the count; the
        month's revenue is `DecisionReward` for that count; the month,
        revenue, clients (at least 1), health and histories advance. */
    method PlayMonth(decision: Decision, difficulty: string) returns (reward: int)
      requires Valid()
      modifies this
      ensures Valid()
      ensures consecutiveCount == (if old(lastDecision) == Some(decision) then old(consecutiveCount) + 1 else 0)
      ensures reward == DecisionReward(decision, difficulty, consecutiveCount)
      ensures month == old(month) + 1 && revenue == old(revenue) + reward
      ensures clients == MaxInt(1, old(clients) + ClientChange(decision))
      ensures health == NextHealth(old(health), reward)
      ensures decisions == old(decisions) + [decision] && lastDecision == Some(decision)
      ensures revenueHistory == old(revenueHistory) + [revenue]
    {
      RepeatsAppend(decisions, decision);
      if Some(decision) == lastDecision {
        consecutiveCount := consecutiveCount + 1;
      } else {
        consecutiveCount := 0;
        lastDecision := Some(decision);
      }
      reward := DecisionReward(decision, difficulty, consecutiveCount);

      month := month + 1;
      revenue := revenue + reward;
      clients := MaxInt(1, clients + ClientChange(decision));
      health := NextHealth(health, reward);
      decisions := decisions + [decision];
      revenueHistory := revenueHistory + [revenue];
    }

    /** The player part of `makeDecision`, once `decisionCount` decisions
        have been made and the revenue is `revenue`: award 5 XP; the 10th
        decision unlocks its badge, and a revenue of at least 50000 unlocks
        the mogul badge, marks Game 2 complete and saves, which sets the
        completionist badge once every requirement is met. `announced` says
        whether the completion message is shown. */
    static method AwardMonth(decisionCount: int, revenue: int, p: Player) returns (announced: bool)
      requires p.Valid()
      modifies p`xp, p`level, p`badges, p`game2Complete
      ensures p.Valid()
      ensures p.xp == old(p.xp) + 5
      ensures p.level == LevelReached(p.xp, old(p.level))
      ensures p.badges ==
        WithBadge(WithBadge(WithBadge(LevelBadges(old(p.badges), old(p.level), p.level),
                                      Game2Starter, decisionCount == 10), Game2Mogul, revenue >= 50000),
                  Completionist, p.Eligible())
      ensures announced == (revenue >= 50000)
      ensures p.game2Complete == (old(p.game2Complete) || revenue >= 50000)
    {
      p.AddXP(5);
      ghost var levelled, eligible := LevelBadges(old(p.badges), old(p.level), p.level), p.Eligible();

      if decisionCount == 10 {
        var u := p.UnlockBadge(Game2Starter);
        UnlockKeepsSettled(levelled, Game2Starter, eligible, u && eligible);
      }
      ghost var starter := WithBadge(levelled, Game2Starter, decisionCount == 10);
      announced := revenue >= 50000;
      if revenue >= 50000 {
        var u := p.UnlockBadge(Game2Mogul);
        UnlockKeepsSettled(starter, Game2Mogul, eligible, u && eligible);
        p.game2Complete := true;
        p.SaveGameState();
        CompletionistAbsorbs(starter[Game2Mogul := true], eligible, p.Eligible());
      }
    }

    /** `makeDecision`: play the month as `PlayMonth` says and award the
        player as `AwardMonth` says. */
    method MakeDecision(decision: Decision, difficulty: string, p: Player) returns (reward: int, announced: bool)
      requires Valid() && p.Valid()
      modifies this, p`xp, p`level, p`badges, p`game2Complete
      ensures Valid() && p.Valid()
      ensures consecutiveCount == (if old(lastDecision) == Some(decision) then old(consecutiveCount) + 1 else 0)
      ensures reward == DecisionReward(decision, difficulty, consecutiveCount)
      ensures month == old(month) + 1 && revenue == old(revenue) + reward
      ensures clients == MaxInt(1, old(clients) + ClientChange(decision))
      ensures health == NextHealth(old(health), reward)
      ensures decisions == old(decisions) + [decision] && lastDecision == Some(decision)
      ensures revenueHistory == old(revenueHistory) + [revenue]
      ensures p.xp == old(p.xp) + 5
      ensures p.level == LevelReached(p.xp, old(p.level))
      ensures p.badges ==
        WithBadge(WithBadge(WithBadge(LevelBadges(old(p.badges), old(p.level), p.level),
                                      Game2Starter, |decisions| == 10), Game2Mogul, revenue >= 50000),
                  Completionist, p.Eligible())
      ensures announced == (revenue >= 50000)
      ensures p.game2Complete == (old(p.game2Complete) || revenue >= 50000)
    {
      reward := PlayMonth(decision, difficulty);
      announced := AwardMonth(|decisions|, revenue, p);
    }
  }
}
