/** Game 3, the tax notice game: a notice scenario is drawn at random, the
    player picks one of its four responses, and the game records the
    response's reward, counts successes and lowers its exploration rate. */
module Notices {
  import opened Common
  import opened Progress

  /** The rewards of the four responses of each of the three scenarios
      (the TDS mismatch, the section 143(1) intimation and the unexplained
      cash deposit), in the order their buttons are shown. */
  const ScenarioRewards: seq<seq<real>> := [
    [0.9, 1.0, 0.5, 0.2],
    [0.5, 1.0, 0.1, 0.8],
    [1.0, 0.3, 0.7, 0.4]
  ]

  /** The number of scenarios and of responses per scenario. */
  const ScenarioCount: int := 3
  const OptionCount: int := 4

  /** A response succeeds when its reward is at least 0.8. */
  predicate Succeeds(reward: real) {
    reward >= 0.8
  }

  /** Every scenario has exactly one best response, worth 1.0, and at least
      one response that fails: guessing can go wrong in every notice. */
  lemma ScenarioTable(s: int)
    requires 0 <= s < ScenarioCount
    ensures |ScenarioRewards| == ScenarioCount && |ScenarioRewards[s]| == OptionCount
    ensures exists o :: 0 <= o < OptionCount && ScenarioRewards[s][o] == 1.0
    ensures forall o, o' :: 0 <= o < o' < OptionCount ==> ScenarioRewards[s][o] != 1.0 || ScenarioRewards[s][o'] != 1.0
    ensures exists o :: 0 <= o < OptionCount && !Succeeds(ScenarioRewards[s][o])
  {
    if s == 0 {
      assert ScenarioRewards[s][1] == 1.0 && !Succeeds(ScenarioRewards[s][2]);
    } else if s == 1 {
      assert ScenarioRewards[s][1] == 1.0 && !Succeeds(ScenarioRewards[s][0]);
    } else {
      assert ScenarioRewards[s][0] == 1.0 && !Succeeds(ScenarioRewards[s][1]);
    }
  }

  /** The scenario `loadNewNotice` picks for a draw r in [0, 1): floor(3r). */
  function ScenarioFor(r: real): (s: int)
    requires 0.0 <= r < 1.0
    ensures 0 <= s < ScenarioCount
    ensures s as real <= r * 3.0 < s as real + 1.0
  {
    (r * ScenarioCount as real).Floor
  }

  /** The exploration rate after k responses since the last reset, which
      sets it to 0.8: each response multiplies it by 0.9, down to 0.2. */
  function ExplorationAfter(k: nat): real {
    if k == 0 then 0.8 else MaxReal(0.2, ExplorationAfter(k - 1) * 0.9)
  }

  /** After k responses the rate is max(0.2, 0.8 * 0.9^k). */
  lemma {:induction false} ExplorationClosedForm(k: nat)
    ensures ExplorationAfter(k) == MaxReal(0.2, 0.8 * Pow(0.9, k))
  {
    if k > 0 {
      ExplorationClosedForm(k - 1);
      PowPositive(0.9, k - 1);
    }
  }

  /** The rate never increases and stays within [0.2, 0.8]. */
  lemma {:induction false} ExplorationDecreases(k: nat)
    ensures 0.2 <= ExplorationAfter(k + 1) <= ExplorationAfter(k) <= 0.8
  {
    if k > 0 {
      ExplorationDecreases(k - 1);
    }
  }

  /** The game shows "Exploring" while the rate is above 0.5: for the first
      five responses after a reset, and never again. */
  lemma {:induction false} ExploringForFiveResponses(k: nat)
    ensures ExplorationAfter(k) > 0.5 <==> k < 5
  {
    if k >= 5 {
      ExplorationNoHigher(5, k);
      assert ExplorationAfter(5) < 0.5;
    } else {
      ExplorationNoHigher(k, 4);
      assert ExplorationAfter(4) > 0.5;
    }
  }

  /** A later rate is never higher. */
  lemma {:induction false} ExplorationNoHigher(j: nat, k: nat)
    requires j <= k
    ensures ExplorationAfter(k) <= ExplorationAfter(j)
    decreases k - j
  {
    if j < k {
      ExplorationDecreases(k - 1);
      ExplorationNoHigher(j, k - 1);
    }
  }

  /** The expert condition: at least 10 responses with a success ratio of
      at least 0.8. */
  predicate ExpertReached(handled: int, successes: int) {
    handled >= 10 && successes as real / handled as real >= 0.8
  }

  /** The ratio test is the integer test 5 * successes >= 4 * handled. */
  lemma ExpertReachedIntegral(handled: int, successes: int)
    ensures ExpertReached(handled, successes) <==> handled >= 10 && 5 * successes >= 4 * handled
  {
    if handled >= 10 {
      var h, s := handled as real, successes as real;
      assert (s / h) * h == s;
      if s / h >= 0.8 {
        assert s >= 0.8 * h;
      } else {
        assert s < 0.8 * h;
      }
    }
  }

  /** The earliest expert run: ten responses need at least eight successes. */
  lemma ExpertNeedsEightOfTen(successes: int)
    ensures ExpertReached(10, successes) <==> successes >= 8
  {
    ExpertReachedIntegral(10, successes);
  }

  /** `game3State`, without the scenario texts. */
  class Game3 {
    var noticesHandled: int
    var successCount: int
    var explorationRate: real
    var currentScenario: int
    var knownStrategies: map<int, seq<real>>

    /** Successes are counted among the responses, the rate has decayed
        once per response, and the current scenario is one of the three. */
    ghost predicate Valid()
      reads this
    {
      0 <= successCount <= noticesHandled &&
      explorationRate == ExplorationAfter(noticesHandled) &&
      0 <= currentScenario < ScenarioCount
    }

    /** The initial `game3State` literal. */
    constructor ()
      ensures Valid()
      ensures noticesHandled == 0 && successCount == 0 && explorationRate == 0.8
      ensures currentScenario == 0 && knownStrategies == map[]
    {
      noticesHandled, successCount, explorationRate := 0, 0, 0.8;
      currentScenario, knownStrategies := 0, map[];
    }

    /** `loadNewNotice`: the scenario for the draw r. */
    method LoadNewNotice(r: real)
      requires 0.0 <= r < 1.0
      modifies this`currentScenario
      ensures currentScenario == ScenarioFor(r)
    {
      currentScenario := ScenarioFor(r);
    }

    /** `resetGame3`: the counters and the rate start over and a new notice
        is drawn. The recorded rewards are kept. */
    method Reset(r: real)
      requires 0.0 <= r < 1.0
      modifies this
      ensures Valid()
      ensures noticesHandled == 0 && successCount == 0 && explorationRate == 0.8
      ensures currentScenario == ScenarioFor(r)
      ensures knownStrategies == old(knownStrategies)
    {
      noticesHandled, successCount, explorationRate := 0, 0, 0.8;
      currentScenario := 0;
      LoadNewNotice(r);
    }

    /** The `game3State` part of `handleResponse`: count the response,
        record its reward under the current scenario, count a success and
        lower the rate. */
    method Respond(optionIndex: int) returns (reward: real, success: bool)
      requires Valid()
      requires 0 <= optionIndex < OptionCount
      modifies this`noticesHandled, this`successCount, this`explorationRate, this`knownStrategies
      ensures Valid()
      ensures reward == ScenarioRewards[currentScenario][optionIndex]
      ensures success == Succeeds(reward)
      ensures noticesHandled == old(noticesHandled) + 1
      ensures successCount == old(successCount) + (if success then 1 else 0)
      ensures explorationRate == MaxReal(0.2, old(explorationRate) * 0.9)
      ensures knownStrategies == old(knownStrategies)[currentScenario :=
        (if currentScenario in old(knownStrategies) then old(knownStrategies)[currentScenario] else []) + [reward]]
    {
      reward := ScenarioRewards[currentScenario][optionIndex];
      noticesHandled := noticesHandled + 1;
      if currentScenario !in knownStrategies {
        knownStrategies := knownStrategies[currentScenario := []];
      }
      knownStrategies := knownStrategies[currentScenario := knownStrategies[currentScenario] + [reward]];
      success := Succeeds(reward);
      if success {
        successCount := successCount + 1;
      }
      explorationRate := MaxReal(0.2, explorationRate * 0.9);
    }

    /** The player part of `handleResponse`, given the counters after the
        response: award 10 XP; the 5th response unlocks the novice badge;
        reaching the expert condition unlocks the expert badge, marks Game 3
        complete and saves, and `announced` says whether that message is
        shown. Every save sets the completionist badge once the certificate's
        requirements are met. */
    static method AwardResponse(handled: int, successes: int, p: Player) returns (announced: bool)
      requires p.Valid()
      modifies p`xp, p`level, p`badges, p`game3Complete
      ensures p.Valid()
      ensures p.xp == old(p.xp) + 10
      ensures p.level == LevelReached(p.xp, old(p.level))
      ensures p.badges ==
        WithBadge(WithBadge(WithBadge(LevelBadges(old(p.badges), old(p.level), p.level),
                                      Game3Novice, handled == 5),
                            Game3Expert, ExpertReached(handled, successes)),
                  Completionist, p.Eligible())
      ensures announced == ExpertReached(handled, successes)
      ensures p.game3Complete == (old(p.game3Complete) || announced)
    {
      p.AddXP(10);
      ghost var levelled, eligible := LevelBadges(old(p.badges), old(p.level), p.level), p.Eligible();

      if handled == 5 {
        var u := p.UnlockBadge(Game3Novice);
        UnlockKeepsSettled(levelled, Game3Novice, eligible, u && eligible);
      }
      ghost var novice := WithBadge(levelled, Game3Novice, handled == 5);
      announced := handled >= 10 && successes as real / handled as real >= 0.8;
      if announced {
        var u := p.UnlockBadge(Game3Expert);
        UnlockKeepsSettled(novice, Game3Expert, eligible, u && eligible);
        p.game3Complete := true;
        p.SaveGameState();
        CompletionistAbsorbs(novice[Game3Expert := true], eligible, p.Eligible());
      }
    }

    /** `handleResponse`: respond as `Respond` says, then award the player
        as `AwardResponse` says. */
    method HandleResponse(optionIndex: int, p: Player) returns (success: bool, announced: bool)
      requires Valid() && p.Valid()
      requires 0 <= optionIndex < OptionCount
      modifies this`noticesHandled, this`successCount, this`explorationRate, this`knownStrategies
      modifies p`xp, p`level, p`badges, p`game3Complete
      ensures Valid() && p.Valid()
      ensures success == Succeeds(ScenarioRewards[currentScenario][optionIndex])
      ensures noticesHandled == old(noticesHandled) + 1
      ensures successCount == old(successCount) + (if success then 1 else 0)
      ensures explorationRate == MaxReal(0.2, old(explorationRate) * 0.9)
      ensures knownStrategies == old(knownStrategies)[currentScenario :=
        (if currentScenario in old(knownStrategies) then old(knownStrategies)[currentScenario] else [])
        + [ScenarioRewards[currentScenario][optionIndex]]]
      ensures p.xp == old(p.xp) + 10
      ensures p.level == LevelReached(p.xp, old(p.level))
      ensures p.badges ==
        WithBadge(WithBadge(WithBadge(LevelBadges(old(p.badges), old(p.level), p.level),
                                      Game3Novice, noticesHandled == 5),
                            Game3Expert, ExpertReached(noticesHandled, successCount)),
                  Completionist, p.Eligible())
      ensures announced == ExpertReached(noticesHandled, successCount)
      ensures p.game3Complete == (old(p.game3Complete) || announced)
    {
      var reward;
      reward, success := Respond(optionIndex);
      announced := AwardResponse(noticesHandled, successCount, p);
    }
  }
}
