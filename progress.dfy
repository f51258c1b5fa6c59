/** The player's progression: experience points, levels, badges and the
    daily-visit streak (the `gameState` record of the page). */
module Progress {
  import opened Common

  /** The badge identifiers of the `BADGES` table. */
  datatype Badge =
    | FirstStep | ConceptMaster
    | Game1Rookie | Game1Pro
    | Game2Starter | Game2Mogul
    | Game3Novice | Game3Expert
    | QuizTaker | QuizMaster
    | Level5 | Level10
    | Streak3 | Streak7
    | Completionist

  /** `XP_LEVELS`: XpLevels[l] is the experience needed to leave level l. */
  const XpLevels: seq<int> := [0, 100, 250, 450, 700, 1000, 1400, 1850, 2350, 2900, 3500]

  /** The highest level: the loop stops once `level` equals `XP_LEVELS.length`. */
  const MaxLevel: int := 11

  /** The level at which the level-up loop stops when started at `level`
      with `xp` points: it climbs while the next threshold is met. */
  function LevelReached(xp: int, level: int): (r: int)
    requires 1 <= level <= MaxLevel
    decreases MaxLevel - level
    ensures level <= r <= MaxLevel
    ensures r == MaxLevel || xp < XpLevels[r]
    ensures forall k :: level <= k < r ==> XpLevels[k] <= xp
  {
    if level < |XpLevels| && xp >= XpLevels[level] then LevelReached(xp, level + 1) else level
  }

  /** Levelling up in two steps (xp, then xp + more) ends where one step
      with the total would end: the stored level never depends on how the
      points were split between calls. */
  lemma {:induction false} LevelReachedIncremental(xp: int, more: int, level: int)
    requires 1 <= level <= MaxLevel
    requires 0 <= more
    ensures LevelReached(xp + more, LevelReached(xp, level)) == LevelReached(xp + more, level)
    decreases MaxLevel - level
  {
    if level < |XpLevels| && xp >= XpLevels[level] {
      LevelReachedIncremental(xp, more, level + 1);
    }
  }

  /** More points never give a lower level. */
  lemma {:induction false} LevelReachedMonotone(xp1: int, xp2: int, level: int)
    requires 1 <= level <= MaxLevel
    requires xp1 <= xp2
    ensures LevelReached(xp1, level) <= LevelReached(xp2, level)
    decreases MaxLevel - level
  {
    if level < |XpLevels| && xp1 >= XpLevels[level] {
      LevelReachedMonotone(xp1, xp2, level + 1);
    }
  }

  /** Starting from level 1 with a non-negative total, the loop lands on
      the unique level whose threshold band contains the total. */
  lemma LevelFromStartIsBand(xp: int, other: int)
    requires 0 <= xp
    requires 1 <= other <= MaxLevel
    requires XpLevels[other - 1] <= xp && (other == MaxLevel || xp < XpLevels[other])
    ensures LevelReached(xp, 1) == other
  {
  }

  /** `m` with badge `b` set to true when `when` holds. */
  function WithBadge(m: map<Badge, bool>, b: Badge, when: bool): map<Badge, bool> {
    if when then m[b := true] else m
  }

  /** The badges after the level went from `from` to `to`: entering level
      5 or level 10 sets that level's badge. */
  function LevelBadges(m: map<Badge, bool>, from: int, to: int): map<Badge, bool> {
    WithBadge(WithBadge(m, Level5, from < 5 <= to), Level10, from < 10 <= to)
  }

  /** Levelling up from a to b and then from b to c sets the same level
      badges as levelling up from a to c. */
  lemma LevelBadgesCompose(m: map<Badge, bool>, a: int, b: int, c: int)
    requires a <= b <= c
    ensures LevelBadges(LevelBadges(m, a, b), b, c) == LevelBadges(m, a, c)
  {
  }

  /** Unlocking a badge that is not a level badge commutes with levelling up. */
  lemma LevelBadgesAfterUnlock(m: map<Badge, bool>, x: Badge, from: int, to: int)
    requires x != Level5 && x != Level10
    ensures LevelBadges(m[x := true], from, to) == LevelBadges(m, from, to)[x := true]
  {
  }

  /** A level badge is newly set while levelling from `from` to `to`:
      level 5 or level 10 is entered and its badge was not set before. */
  predicate LevelUnlockFired(m: map<Badge, bool>, from: int, to: int) {
    (from < 5 <= to && !(Level5 in m && m[Level5])) ||
    (from < 10 <= to && !(Level10 in m && m[Level10]))
  }

  /** One step of the level-up loop, from level to - 1 to level to: the
      badges change only on entering level 5 or 10, by that level's unlock
      (with its save when the completion flags are set). */
  lemma LevelStep(m: map<Badge, bool>, from: int, to: int, c: bool)
    requires from < to
    ensures var prev := WithBadge(LevelBadges(m, from, to - 1), Completionist, c && LevelUnlockFired(m, from, to - 1));
      WithBadge(LevelBadges(m, from, to), Completionist, c && LevelUnlockFired(m, from, to)) == EnterLevel(prev, to, c)
  {
  }

  /** The badges after the level-up loop enters level `l`, with `c` the
      completion flags: entering level 5 or 10 unlocks that level's badge,
      and an unlock that happens saves. */
  function EnterLevel(m: map<Badge, bool>, l: int, c: bool): map<Badge, bool> {
    if l == 5 then WithBadge(m[Level5 := true], Completionist, c && !(Level5 in m && m[Level5]))
    else if l == 10 then WithBadge(m[Level10 := true], Completionist, c && !(Level10 in m && m[Level10]))
    else m
  }

  /** The badges after the level-up loop climbed from level `lo` to level `hi`. */
  function Climb(m: map<Badge, bool>, lo: int, hi: int, c: bool): map<Badge, bool>
    decreases hi - lo
  {
    if hi <= lo then m else EnterLevel(Climb(m, lo, hi - 1, c), hi, c)
  }

  /** The climb sets the level badges of the levels entered, and the
      completionist badge when an unlock fired with the flags set. */
  lemma {:induction false} ClimbIsLevelBadges(m: map<Badge, bool>, lo: int, hi: int, c: bool)
    requires lo <= hi
    ensures Climb(m, lo, hi, c) ==
            WithBadge(LevelBadges(m, lo, hi), Completionist, c && LevelUnlockFired(m, lo, hi))
    decreases hi - lo
  {
    if lo < hi {
      ClimbIsLevelBadges(m, lo, hi - 1, c);
      LevelStep(m, lo, hi, c);
    }
  }

  /** Setting the completionist badge commutes with setting any other badge. */
  lemma CompletionistCommutes(m: map<Badge, bool>, b: Badge, when: bool, e: bool)
    requires b != Completionist
    ensures WithBadge(WithBadge(m, Completionist, e), b, when) == WithBadge(WithBadge(m, b, when), Completionist, e)
  {
  }

  /** Levelling up sets the same level badges whether or not the
      completionist badge was set first. */
  lemma LevelBadgesKeepCompletionist(m: map<Badge, bool>, e: bool, lo: int, hi: int)
    ensures LevelBadges(WithBadge(m, Completionist, e), lo, hi) == WithBadge(LevelBadges(m, lo, hi), Completionist, e)
  {
  }

  /** Setting the completionist badge early changes nothing when it is set
      again later anyway. */
  lemma CompletionistAbsorbs(m: map<Badge, bool>, a: bool, e: bool)
    requires a ==> e
    ensures WithBadge(WithBadge(m, Completionist, a), Completionist, e) == WithBadge(m, Completionist, e)
  {
  }

  /** Unlocking badge b once the completionist badge has been settled: a
      save during the unlock can only set what is already settled. */
  lemma UnlockKeepsSettled(m: map<Badge, bool>, b: Badge, a: bool, u: bool)
    requires b != Completionist
    requires u ==> a
    ensures WithBadge(WithBadge(m, Completionist, a)[b := true], Completionist, u) ==
            WithBadge(m[b := true], Completionist, a)
  {
  }

  /** The `gameState` record, updated in place by the page. */
  class Player {
    var xp: int
    var level: int
    var streak: int
    var badges: map<Badge, bool>
    var game1Complete: bool
    var game2Complete: bool
    var game3Complete: bool
    var quizPassed: bool

    ghost predicate Valid()
      reads this
    {
      1 <= level <= MaxLevel
    }

    /** The four completion flags of the certificate's requirements. */
    predicate Completed()
      reads this`game1Complete, this`game2Complete, this`game3Complete, this`quizPassed
    {
      game1Complete && game2Complete && game3Complete && quizPassed
    }

    /** `checkCertificateEligibility`'s test: every game complete, the quiz
        passed and level 5 reached. */
    predicate Eligible()
      reads this`game1Complete, this`game2Complete, this`game3Complete, this`quizPassed, this`level
    {
      Completed() && level >= 5
    }

    /** `gameState.badges[id]` is truthy. */
    predicate Has(b: Badge)
      reads this
    {
      b in badges && badges[b]
    }

    /** The initial `gameState`. */
    constructor ()
      ensures Valid()
      ensures xp == 0 && level == 1 && streak == 0 && badges == map[]
      ensures !game1Complete && !game2Complete && !game3Complete && !quizPassed
    {
      xp, level, streak, badges := 0, 1, 0, map[];
      game1Complete, game2Complete, game3Complete, quizPassed := false, false, false, false;
    }

    /** `saveGameState`: the write to storage is not modelled; the save
        redraws the header, whose `checkCertificateEligibility` sets the
        completionist badge once every requirement is met. */
    method SaveGameState()
      modifies this`badges
      ensures badges == WithBadge(old(badges), Completionist, Eligible())
    {
      if Eligible() {
        badges := badges[Completionist := true];
      }
    }

    /** `unlockBadge`: sets the badge unless it is already set, and saves
        when it sets it; `unlocked` says whether the unlock (and its
        announcement) happened. */
    method UnlockBadge(b: Badge) returns (unlocked: bool)
      modifies this`badges
      ensures unlocked == !old(Has(b))
      ensures Has(b)
      ensures badges == WithBadge(old(badges)[b := true], Completionist, unlocked && Eligible())
    {
      unlocked := !Has(b);
      if unlocked {
        badges := badges[b := true];
        SaveGameState();
      } else {
        assert badges == badges[b := true];
      }
    }

    /** `checkLevelUp`: raise the level one step at a time while the next
        threshold is met, unlocking the level-5 and level-10 badges when
        those levels are entered. An unlock saves, so the completionist
        badge is set as well when the completion flags are all set. */
    method CheckLevelUp()
      requires Valid()
      modifies this`level, this`badges
      ensures Valid()
      ensures level == LevelReached(xp, old(level))
      ensures badges == WithBadge(LevelBadges(old(badges), old(level), level), Completionist,
                                  Completed() && LevelUnlockFired(old(badges), old(level), level))
    {
      ghost var c := Completed();
      while level < |XpLevels| && xp >= XpLevels[level]
        invariant old(level) <= level <= MaxLevel
        invariant LevelReached(xp, level) == LevelReached(xp, old(level))
        invariant badges == Climb(old(badges), old(level), level, c)
        decreases MaxLevel - level
      {
        EnterNextLevel();
      }
      ClimbIsLevelBadges(old(badges), old(level), level, c);
    }

    /** The body of `checkLevelUp`'s loop: one level up, and the unlock of
        the level-5 or level-10 badge when that level is entered. */
    method EnterNextLevel()
      requires level < MaxLevel
      modifies this`level, this`badges
      ensures level == old(level) + 1
      ensures badges == EnterLevel(old(badges), level, Completed())
    {
      level := level + 1;
      if level == 5 {
        var _ := UnlockBadge(Level5);
      }
      if level == 10 {
        var _ := UnlockBadge(Level10);
      }
    }

    /** `addXP`: add the points, level up and save: the level badges that
        were entered are set, and so is the completionist badge when every
        requirement is now met. */
    method AddXP(amount: int)
      requires Valid()
      modifies this`xp, this`level, this`badges
      ensures Valid()
      ensures xp == old(xp) + amount
      ensures level == LevelReached(xp, old(level))
      ensures badges == WithBadge(LevelBadges(old(badges), old(level), level), Completionist, Eligible())
    {
      xp := xp + amount;
      CheckLevelUp();
      SaveGameState();
    }

    /** `checkStreak`, given the whole-day difference between today and the
        last visit (None when there was no earlier visit). A difference of
        one day extends the streak, a longer gap restarts it at 1, and a
        difference below one day leaves it as it was. The visit is then
        saved. */
    method CheckStreak(daysDiff: Option<int>)
      modifies this`streak, this`badges
      ensures daysDiff == Some(1) ==> streak == old(streak) + 1
      ensures (daysDiff.None? || daysDiff.value > 1) ==> streak == 1
      ensures (daysDiff.Some? && daysDiff.value < 1) ==> streak == old(streak)
      ensures badges ==
        WithBadge(WithBadge(WithBadge(old(badges), Streak3, daysDiff == Some(1) && streak == 3),
                            Streak7, daysDiff == Some(1) && streak == 7),
                  Completionist, Eligible())
    {
      match daysDiff {
        case None =>
          streak := 1;
        case Some(d) =>
          if d == 1 {
            streak := streak + 1;
            if streak == 3 {
              var u := UnlockBadge(Streak3);
              CompletionistAbsorbs(old(badges)[Streak3 := true], u && Eligible(), Eligible());
            }
            if streak == 7 {
              var u := UnlockBadge(Streak7);
              CompletionistAbsorbs(old(badges)[Streak7 := true], u && Eligible(), Eligible());
            }
          } else if d > 1 {
            streak := 1;
          }
      }
      SaveGameState();
    }
  }
}
