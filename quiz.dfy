/** The five-question quiz: the player selects one option per question,
    and submitting counts the correct answers, awards XP and badges, and
    passes the quiz at 80%. */
module Quiz {
  import opened Progress

  /** The index of the correct option of each question of `quizQuestions`. */
  const CorrectAnswers: seq<int> := [1, 1, 1, 1, 2]

  /** The answer selected for question i, if any, is the correct one. */
  predicate Right(answers: map<int, int>, i: int)
    requires 0 <= i < |CorrectAnswers|
  {
    i in answers && answers[i] == CorrectAnswers[i]
  }

  /** The number of the first k questions answered correctly. */
  function Matches(answers: map<int, int>, k: nat): (c: nat)
    requires k <= |CorrectAnswers|
    ensures c <= k
    ensures c == k <==> forall i :: 0 <= i < k ==> Right(answers, i)
    ensures c == 0 <==> forall i :: 0 <= i < k ==> !Right(answers, i)
  {
    if k == 0 then 0 else Matches(answers, k - 1) + (if Right(answers, k - 1) then 1 else 0)
  }

  /** The questions answered correctly, as a set. */
  ghost function RightSet(answers: map<int, int>, k: nat): set<int>
    requires k <= |CorrectAnswers|
  {
    set i | 0 <= i < k && Right(answers, i)
  }

  /** The count is the size of the set of correctly answered questions. */
  lemma {:induction false} MatchesCountsRightSet(answers: map<int, int>, k: nat)
    requires k <= |CorrectAnswers|
    ensures Matches(answers, k) == |RightSet(answers, k)|
  {
    if k > 0 {
      MatchesCountsRightSet(answers, k - 1);
      if Right(answers, k - 1) {
        assert k - 1 !in RightSet(answers, k - 1);
        assert RightSet(answers, k) == RightSet(answers, k - 1) + {k - 1};
      } else {
        assert RightSet(answers, k) == RightSet(answers, k - 1);
      }
    }
  }

  /** The score as a percentage of the five questions. */
  function Percentage(correct: int): real {
    (correct as real / |CorrectAnswers| as real) * 100.0
  }

  /** The quiz is passed at 80%: at least four of the five answers right. */
  lemma PassMark(correct: int)
    ensures Percentage(correct) >= 80.0 <==> correct >= 4
  {
  }

  /** The badges of a passed quiz: levelling from l0 to l1 (with the
      completionist badge settled), then unlocking the quiz-master badge and
      levelling from l1 to l2, sets what levelling from l0 to l2 and
      unlocking the quiz-master badge sets. */
  lemma MasterAfterTaker(m: map<Badge, bool>, l0: int, l1: int, l2: int, e: bool)
    requires l0 <= l1 <= l2
    ensures LevelBadges(WithBadge(LevelBadges(m, l0, l1), Completionist, e)[QuizMaster := true], l1, l2) ==
            WithBadge(LevelBadges(m, l0, l2)[QuizMaster := true], Completionist, e)
  {
    var settled := LevelBadges(m, l0, l1);
    CompletionistCommutes(settled, QuizMaster, true, e);
    LevelBadgesKeepCompletionist(settled[QuizMaster := true], e, l1, l2);
    LevelBadgesAfterUnlock(settled, QuizMaster, l1, l2);
    LevelBadgesCompose(m, l0, l1, l2);
  }

  /** `quizState`: the selected option of each question answered so far. */
  class QuizSession {
    var answers: map<int, int>

    /** `startQuiz`: no answers selected. */
    constructor ()
      ensures answers == map[]
    {
      answers := map[];
    }

    /** `startQuiz` on an existing session. */
    method Start()
      modifies this
      ensures answers == map[]
    {
      answers := map[];
    }

    /** `selectOption`: record option `o` as the answer to question `q`,
        replacing any earlier choice. */
    method SelectOption(q: int, o: int)
      modifies this
      ensures answers == old(answers)[q := o]
    {
      answers := answers[q := o];
    }

    /** The counting loop of `submitQuiz`: one point per question whose
        selected option is the correct one; an unanswered question scores
        nothing. */
    method CountCorrect() returns (correct: int)
      ensures correct == Matches(answers, |CorrectAnswers|)
    {
      correct := 0;
      var i := 0;
      while i < |CorrectAnswers|
        invariant 0 <= i <= |CorrectAnswers|
        invariant correct == Matches(answers, i)
      {
        if i in answers && answers[i] == CorrectAnswers[i] {
          correct := correct + 1;
        }
        i := i + 1;
      }
    }

    /** The first award of `submitQuiz`: unlock the quiz-taker badge and
        award 50 XP. */
    static method AwardTaker(p: Player)
      requires p.Valid()
      modifies p`xp, p`level, p`badges
      ensures p.Valid()
      ensures p.xp == old(p.xp) + 50
      ensures p.level == LevelReached(p.xp, old(p.level))
      ensures p.badges == WithBadge(LevelBadges(old(p.badges)[QuizTaker := true], old(p.level), p.level), Completionist, p.Eligible())
    {
      var u := p.UnlockBadge(QuizTaker);
      ghost var e0 := u && p.Eligible();
      p.AddXP(50);
      LevelBadgesKeepCompletionist(old(p.badges)[QuizTaker := true], e0, old(p.level), p.level);
      CompletionistAbsorbs(LevelBadges(old(p.badges)[QuizTaker := true], old(p.level), p.level), e0, p.Eligible());
    }

    /** The award of a passed quiz: unlock the quiz-master badge, mark the
        quiz passed, save and award 50 XP more. */
    static method AwardMaster(p: Player)
      requires p.Valid()
      modifies p`xp, p`level, p`badges, p`quizPassed
      ensures p.Valid()
      ensures p.xp == old(p.xp) + 50
      ensures p.level == LevelReached(p.xp, old(p.level))
      ensures p.badges == WithBadge(LevelBadges(old(p.badges)[QuizMaster := true], old(p.level), p.level), Completionist, p.Eligible())
      ensures p.quizPassed
    {
      var u := p.UnlockBadge(QuizMaster);
      ghost var e0 := u && p.Eligible();
      p.quizPassed := true;
      p.SaveGameState();
      CompletionistAbsorbs(old(p.badges)[QuizMaster := true], e0, p.Eligible());
      ghost var e1 := p.Eligible();
      p.AddXP(50);
      LevelBadgesKeepCompletionist(old(p.badges)[QuizMaster := true], e1, old(p.level), p.level);
      CompletionistAbsorbs(LevelBadges(old(p.badges)[QuizMaster := true], old(p.level), p.level), e1, p.Eligible());
    }

    /** The player part of `submitQuiz`: the quiz-taker award, then the
        quiz-master award when the quiz is passed. Every save sets the
        completionist badge once the certificate's requirements are met. */
    static method AwardQuiz(passed: bool, p: Player)
      requires p.Valid()
      modifies p`xp, p`level, p`badges, p`quizPassed
      ensures p.Valid()
      ensures p.xp == old(p.xp) + (if passed then 100 else 50)
      ensures p.level == LevelReached(p.xp, old(p.level))
      ensures p.badges ==
        WithBadge(WithBadge(LevelBadges(old(p.badges)[QuizTaker := true], old(p.level), p.level), QuizMaster, passed),
                  Completionist, p.Eligible())
      ensures p.quizPassed == (old(p.quizPassed) || passed)
    {
      AwardTaker(p);
      if passed {
        ghost var level1, e1 := p.level, p.Eligible();
        AwardMaster(p);
        LevelReachedIncremental(old(p.xp) + 50, 50, old(p.level));
        MasterAfterTaker(old(p.badges)[QuizTaker := true], old(p.level), level1, p.level, e1);
      }
    }

    /** `submitQuiz`: count the correct answers, pass at 80% or more, and
        award the player as `AwardQuiz` says. */
    method Submit(p: Player) returns (correct: int, passed: bool)
      requires p.Valid()
      modifies p`xp, p`level, p`badges, p`quizPassed
      ensures p.Valid()
      ensures correct == Matches(answers, |CorrectAnswers|)
      ensures passed == (Percentage(correct) >= 80.0)
      ensures p.xp == old(p.xp) + (if passed then 100 else 50)
      ensures p.level == LevelReached(p.xp, old(p.level))
      ensures p.badges ==
        WithBadge(WithBadge(LevelBadges(old(p.badges)[QuizTaker := true], old(p.level), p.level), QuizMaster, passed),
                  Completionist, p.Eligible())
      ensures p.quizPassed == (old(p.quizPassed) || passed)
    {
      correct := CountCorrect();
      passed := Percentage(correct) >= 80.0;
      AwardQuiz(passed, p);
    }
  }
}
