/** How far through a quiz the player is, and the final score of a finished
    quiz. Both read only the list of questions. */
module QuizScore {
  import opened Wrappers
  import opened Types
  import Js

  // ---------------------------------------------------------------------
  // Progress
  // ---------------------------------------------------------------------

  /** `progressPercentage` is `None` where the application computes
      `Math.round(0 / 0 * 100)`, which is NaN. */
  datatype Progress = Progress(
    totalQuestions: int,
    completedQuestions: int,
    currentQuestion: int,
    progressPercentage: Option<int>,
    isLastQuestion: bool)

  /** The questions before `currentIndex` count as completed; the percentage
      is that share of all questions, rounded half up to a whole percent. */
  function CalculateProgress(questions: seq<QuizQuestion>, currentIndex: int): (p: Progress)
    ensures p.totalQuestions == |questions|
    ensures 0 <= p.completedQuestions <= |questions|
    ensures 0 <= currentIndex <= |questions| ==> p.completedQuestions == currentIndex
    ensures |questions| < currentIndex ==> p.completedQuestions == |questions|
    ensures currentIndex < 0 ==> p.completedQuestions == Js.SliceEnd(|questions|, currentIndex)
    ensures p.currentQuestion == currentIndex + 1
    ensures p.progressPercentage.None? <==> |questions| == 0
    ensures p.progressPercentage.Some? ==>
      var v := p.progressPercentage.value;
      && 0 <= v <= 100
      && 2 * |questions| * v <= 200 * p.completedQuestions + |questions| < 2 * |questions| * (v + 1)
    ensures p.isLastQuestion <==> currentIndex == |questions| - 1
  {
    var total := |questions|;
    var completed := |questions[..Js.SliceEnd(total, currentIndex)]|;
    Progress(
      total,
      completed,
      currentIndex + 1,
      if total == 0 then None else Some(Js.RoundedPercent(completed, total)),
      currentIndex == total - 1)
  }

  /** On the last question of a non-empty quiz every earlier question is
      completed and the counter shows the total; the bar is short of full
      exactly when there are fewer than 200 questions (from 200 on, the
      share (n - 1) / n rounds up to 100%). An empty quiz at index -1 also
      counts as "last", with no percentage. */
  lemma LastQuestionProgress(questions: seq<QuizQuestion>, currentIndex: int)
    requires CalculateProgress(questions, currentIndex).isLastQuestion
    ensures |questions| == 0 ==> CalculateProgress(questions, currentIndex).progressPercentage.None?
    ensures |questions| > 0 ==> var p := CalculateProgress(questions, currentIndex);
      && p.completedQuestions == p.totalQuestions - 1
      && p.currentQuestion == p.totalQuestions
      && p.progressPercentage.Some?
      && (p.progressPercentage.value < 100 <==> |questions| < 200)
  {
    var p := CalculateProgress(questions, currentIndex);
    var n := |questions|;
    if n > 0 {
      var v := p.progressPercentage.value;
      assert 2 * n * v <= 200 * (n - 1) + n < 2 * n * (v + 1);
      if v >= 100 {
        Js.MulMonotone(2 * n, 100, v);
        assert n >= 200;
      }
      if n >= 200 {
        if v + 1 <= 100 {
          Js.MulMonotone(2 * n, v + 1, 100);
          assert false;
        }
      }
    }
  }

  /** Moving forward never makes the progress bar shrink. */
  lemma {:induction false} ProgressMonotone(questions: seq<QuizQuestion>, i: int, j: int)
    requires 0 <= i <= j <= |questions|
    requires |questions| > 0
    ensures CalculateProgress(questions, i).progressPercentage.value
      <= CalculateProgress(questions, j).progressPercentage.value
  {
    var n := |questions|;
    var a := CalculateProgress(questions, i).progressPercentage.value;
    var b := CalculateProgress(questions, j).progressPercentage.value;
    if b < a {
      assert b + 1 <= a;
      Js.MulMonotone(2 * n, b + 1, a);
      assert false;
    }
  }

  /** Three questions, the second one showing: one completed, "2 / 3", 33%. */
  lemma ProgressExample(questions: seq<QuizQuestion>)
    requires |questions| == 3
    ensures CalculateProgress(questions, 1) == Progress(3, 1, 2, Some(33), false)
    ensures CalculateProgress(questions, 2) == Progress(3, 2, 3, Some(67), true)
  {
  }

  // ---------------------------------------------------------------------
  // Final score
  // ---------------------------------------------------------------------

  datatype FinalScore = FinalScore(
    totalCorrect: int,
    totalPossible: int,
    percentage: int,
    perfectQuestions: int)

  /** Reference sum of the correct answers of every question. */
  function SumCorrect(questions: seq<QuizQuestion>): nat {
    if |questions| == 0 then 0
    else SumCorrect(questions[..|questions| - 1]) + |questions[|questions| - 1].correctAnswers|
  }

  /** Reference count of the questions answered completely. */
  function CountPerfect(questions: seq<QuizQuestion>): nat {
    if |questions| == 0 then 0
    else
      CountPerfect(questions[..|questions| - 1])
        + (if |questions[|questions| - 1].correctAnswers| == TracksPerQuestion then 1 else 0)
  }

  /** No question records more correct answers than it has tracks. */
  predicate AnswersWithinTracks(questions: seq<QuizQuestion>) {
    forall k :: 0 <= k < |questions| ==> |questions[k].correctAnswers| <= TracksPerQuestion
  }

  /** Tallies the questions one at a time, as the application does: every
      question is worth three points and each correct answer scores one. */
  method CalculateFinalScore(questions: seq<QuizQuestion>) returns (s: FinalScore)
    ensures s.totalCorrect == SumCorrect(questions)
    ensures s.totalPossible == TracksPerQuestion * |questions|
    ensures s.perfectQuestions == CountPerfect(questions)
    ensures 0 <= s.perfectQuestions <= |questions|
    ensures s.totalPossible == 0 ==> s.percentage == 0
    ensures s.totalPossible > 0 ==>
      2 * s.totalPossible * s.percentage <= 200 * s.totalCorrect + s.totalPossible
        < 2 * s.totalPossible * (s.percentage + 1)
    ensures AnswersWithinTracks(questions) ==>
      && s.totalCorrect <= s.totalPossible
      && 0 <= s.percentage <= 100
  {
    var totalCorrect := 0;
    var totalPossible := 0;
    var perfect := 0;
    var k := 0;
    while k < |questions|
      invariant 0 <= k <= |questions|
      invariant totalCorrect == SumCorrect(questions[..k])
      invariant totalPossible == TracksPerQuestion * k
      invariant perfect == CountPerfect(questions[..k])
      invariant 0 <= perfect <= k
      invariant AnswersWithinTracks(questions) ==> totalCorrect <= totalPossible
    {
      assert questions[..k + 1][..k] == questions[..k];
      totalCorrect := totalCorrect + |questions[k].correctAnswers|;
      totalPossible := totalPossible + TracksPerQuestion;
      if |questions[k].correctAnswers| == TracksPerQuestion {
        perfect := perfect + 1;
      }
      k := k + 1;
    }
    assert questions[..k] == questions;
    var percentage := if totalPossible > 0 then Js.RoundedPercent(totalCorrect, totalPossible) else 0;
    s := FinalScore(totalCorrect, totalPossible, percentage, perfect);
  }

  /** The reference sum adds up over a split of the questions. */
  lemma {:induction false} SumCorrectAppend(a: seq<QuizQuestion>, b: seq<QuizQuestion>)
    ensures SumCorrect(a + b) == SumCorrect(a) + SumCorrect(b)
  {
    if |b| > 0 {
      var b' := b[..|b| - 1];
      assert (a + b)[..|a + b| - 1] == a + b';
      SumCorrectAppend(a, b');
    } else {
      assert a + b == a;
    }
  }

  /** The score reads only how many answers each question records. */
  lemma {:induction false} SameAnswerCountsSameScore(a: seq<QuizQuestion>, b: seq<QuizQuestion>)
    requires |a| == |b|
    requires forall k :: 0 <= k < |a| ==> |a[k].correctAnswers| == |b[k].correctAnswers|
    ensures SumCorrect(a) == SumCorrect(b)
    ensures CountPerfect(a) == CountPerfect(b)
  {
    if |a| > 0 {
      SameAnswerCountsSameScore(a[..|a| - 1], b[..|b| - 1]);
    }
  }

  /** Replacing one question changes the sum by the change in its count. */
  lemma SumCorrectUpdate(questions: seq<QuizQuestion>, idx: int, q: QuizQuestion)
    requires 0 <= idx < |questions|
    ensures SumCorrect(questions[idx := q])
      == SumCorrect(questions) - |questions[idx].correctAnswers| + |q.correctAnswers|
  {
    var pre := questions[..idx];
    var post := questions[idx + 1..];
    assert questions == pre + [questions[idx]] + post;
    assert questions[idx := q] == pre + [q] + post;
    SumCorrectAppend(pre + [questions[idx]], post);
    SumCorrectAppend(pre, [questions[idx]]);
    SumCorrectAppend(pre + [q], post);
    SumCorrectAppend(pre, [q]);
    assert [q][..0] == [];
    assert [questions[idx]][..0] == [];
  }

  /** Each complete question accounts for three correct answers. */
  lemma {:induction false} PerfectQuestionsScoreThree(questions: seq<QuizQuestion>)
    ensures TracksPerQuestion * CountPerfect(questions) <= SumCorrect(questions)
  {
    if |questions| > 0 {
      PerfectQuestionsScoreThree(questions[..|questions| - 1]);
    }
  }

  /** With at most three answers per question, the score is full exactly when
      every question is complete. */
  lemma {:induction false} FullScoreIffAllPerfect(questions: seq<QuizQuestion>)
    requires AnswersWithinTracks(questions)
    ensures SumCorrect(questions) <= TracksPerQuestion * |questions|
    ensures CountPerfect(questions) <= |questions|
    ensures SumCorrect(questions) == TracksPerQuestion * |questions|
      <==> CountPerfect(questions) == |questions|
  {
    if |questions| > 0 {
      var init := questions[..|questions| - 1];
      assert AnswersWithinTracks(init) by {
        forall k | 0 <= k < |init|
          ensures |init[k].correctAnswers| <= TracksPerQuestion
        {
          assert init[k] == questions[k];
        }
      }
      FullScoreIffAllPerfect(init);
    }
  }

  function AnsweredQuestion(n: int, answers: seq<string>): QuizQuestion {
    QuizQuestion(n, [], [], answers, false)
  }

  /** Two, three and no correct answers: five of nine, 56%, one complete. */
  method ScoreExample() returns (s: FinalScore)
    ensures s == FinalScore(5, 9, 56, 1)
  {
    var qs := [AnsweredQuestion(1, ["a", "b"]),
               AnsweredQuestion(2, ["c", "d", "e"]),
               AnsweredQuestion(3, [])];
    assert qs[..3][..2] == qs[..2];
    assert qs[..2][..1] == qs[..1];
    assert qs[..1][..0] == [];
    assert SumCorrect(qs[..1]) == 2;
    assert SumCorrect(qs[..2]) == 5;
    assert CountPerfect(qs[..1]) == 0;
    assert CountPerfect(qs[..2]) == 1;
    assert qs[..3] == qs;
    s := CalculateFinalScore(qs);
    assert Js.RoundedPercent(5, 9) == 56;
  }
}
