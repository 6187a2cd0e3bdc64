/** The quiz screen's state updates, lifted out of its event handlers as pure
    functions over the list of questions and the index of the question on
    screen. Answer slots are numbered 1 to 3, as on the screen. */
module QuizContainer {
  import opened Wrappers
  import opened Types
  import QuizUtils
  import QuizScore

  /** A slot number the answer buttons can produce. */
  predicate IsSlot(trackNumber: int) {
    1 <= trackNumber <= TracksPerQuestion
  }

  /** `questions[currentQuestionIndex]`, which is `undefined` off the list. */
  function CurrentQuestion(questions: seq<QuizQuestion>, idx: int): (r: Option<QuizQuestion>)
    ensures r.Some? <==> 0 <= idx < |questions|
    ensures r.Some? ==> r.value == questions[idx]
  {
    if 0 <= idx < |questions| then Some(questions[idx]) else None
  }

  // ---------------------------------------------------------------------
  // Guessing a track (handleTrackSelect)
  // ---------------------------------------------------------------------

  /** The questions after a guess, and whether the guess was right. */
  datatype Guess = Guess(questions: seq<QuizQuestion>, isCorrect: bool)

  /** A guess `selected` for slot `trackNumber` of the question on screen.
      `None` when no question is on screen; otherwise the guess is right
      exactly when it has the id of the slot's track, and a right guess
      appends that id to the question's answers. */
  function HandleTrackSelect(questions: seq<QuizQuestion>, idx: int, trackNumber: int, selected: Track)
    : (r: Option<Guess>)
    requires AllTriples(questions) && IsSlot(trackNumber)
    ensures r.None? <==> !(0 <= idx < |questions|)
    ensures r.Some? ==>
      var correctId := questions[idx].tracks[trackNumber - 1].id;
      && (r.value.isCorrect <==> selected.id == correctId)
      && |r.value.questions| == |questions|
      && (forall k :: 0 <= k < |questions| && k != idx ==> r.value.questions[k] == questions[k])
      && (!r.value.isCorrect ==> r.value.questions == questions)
      && (r.value.isCorrect ==>
            var after := r.value.questions[idx];
            && after.correctAnswers == questions[idx].correctAnswers + [correctId]
            && after.questionNumber == questions[idx].questionNumber
            && after.tracks == questions[idx].tracks
            && after.startTimes == questions[idx].startTimes
            && after.isAnswerRevealed == questions[idx].isAnswerRevealed)
  {
    match CurrentQuestion(questions, idx)
    case None => None
    case Some(q) =>
      var correctTrack := q.tracks[trackNumber - 1];
      if selected.id == correctTrack.id then
        var updated := q.(correctAnswers := q.correctAnswers + [correctTrack.id]);
        Some(Guess(questions[idx := updated], true))
      else
        Some(Guess(questions, false))
  }

  /** A guess never changes the shape of any question. */
  lemma GuessKeepsTriples(questions: seq<QuizQuestion>, idx: int, trackNumber: int, selected: Track)
    requires AllTriples(questions) && IsSlot(trackNumber)
    requires 0 <= idx < |questions|
    ensures AllTriples(HandleTrackSelect(questions, idx, trackNumber, selected).value.questions)
  {
  }

  /** The handler itself does not check whether the slot was already
      answered: guessing the same right track twice records it twice. */
  lemma RepeatedCorrectGuessIsRecordedTwice(questions: seq<QuizQuestion>, idx: int, trackNumber: int)
    requires AllTriples(questions) && IsSlot(trackNumber)
    requires 0 <= idx < |questions|
    ensures var t := questions[idx].tracks[trackNumber - 1];
      var once := HandleTrackSelect(questions, idx, trackNumber, t).value.questions;
      var twice := HandleTrackSelect(once, idx, trackNumber, t).value.questions;
      twice[idx].correctAnswers == questions[idx].correctAnswers + [t.id, t.id]
  {
    var t := questions[idx].tracks[trackNumber - 1];
    var once := HandleTrackSelect(questions, idx, trackNumber, t).value.questions;
    assert once[idx].correctAnswers + [t.id] == questions[idx].correctAnswers + [t.id, t.id];
  }

  /** A right guess raises the total score by one; a wrong one leaves it. */
  lemma GuessScore(questions: seq<QuizQuestion>, idx: int, trackNumber: int, selected: Track)
    requires AllTriples(questions) && IsSlot(trackNumber)
    requires 0 <= idx < |questions|
    ensures var g := HandleTrackSelect(questions, idx, trackNumber, selected).value;
      QuizScore.SumCorrect(g.questions)
        == QuizScore.SumCorrect(questions) + (if g.isCorrect then 1 else 0)
  {
    var g := HandleTrackSelect(questions, idx, trackNumber, selected).value;
    if g.isCorrect {
      QuizScore.SumCorrectUpdate(questions, idx, g.questions[idx]);
      assert g.questions == questions[idx := g.questions[idx]];
    }
  }

  // ---------------------------------------------------------------------
  // The answer buttons' guard
  // ---------------------------------------------------------------------

  /** Slot `trackNumber` can be clicked while its track is not yet among the
      right answers and the answer is not shown. */
  predicate SlotEnabled(q: QuizQuestion, trackNumber: int)
    requires q.IsTriple() && IsSlot(trackNumber)
  {
    q.tracks[trackNumber - 1].id !in q.correctAnswers && !q.isAnswerRevealed
  }

  /** The answers a question can hold when guesses come only from enabled
      slots: distinct ids of the question's own tracks. */
  predicate AnswersConsistent(q: QuizQuestion)
    requires q.IsTriple()
  {
    && Distinct(q.correctAnswers)
    && (forall k :: 0 <= k < |q.correctAnswers| ==> q.correctAnswers[k] in TrackIds(q.tracks))
  }

  /** Every question of a list holds consistent answers. */
  predicate AllConsistent(questions: seq<QuizQuestion>)
    requires AllTriples(questions)
  {
    forall k :: 0 <= k < |questions| ==> AnswersConsistent(questions[k])
  }

  /** Guessing through an enabled slot keeps the answers consistent. */
  lemma EnabledGuessKeepsConsistent(questions: seq<QuizQuestion>, idx: int, trackNumber: int, selected: Track)
    requires AllTriples(questions) && IsSlot(trackNumber)
    requires 0 <= idx < |questions|
    requires AllConsistent(questions)
    requires SlotEnabled(questions[idx], trackNumber)
    ensures var after := HandleTrackSelect(questions, idx, trackNumber, selected).value.questions;
      AllTriples(after) && AllConsistent(after)
  {
    var after := HandleTrackSelect(questions, idx, trackNumber, selected).value.questions;
    var q := questions[idx];
    var t := q.tracks[trackNumber - 1];
    assert t.id == TrackIds(q.tracks)[trackNumber - 1];
    forall k | 0 <= k < |after|
      ensures after[k].IsTriple() && AnswersConsistent(after[k])
    {
      if k == idx && after != questions {
        var ca := after[k].correctAnswers;
        assert ca == q.correctAnswers + [t.id];
        forall a, b | 0 <= a < b < |ca|
          ensures ca[a] != ca[b]
        {
          if b == |ca| - 1 {
            assert ca[a] in q.correctAnswers;
          }
        }
      }
    }
  }

  /** A distinct list has as many elements as values. */
  lemma {:induction false} DistinctCard<T>(s: seq<T>)
    requires Distinct(s)
    ensures |set x | x in s| == |s|
  {
    if |s| > 0 {
      var rest := s[1..];
      assert Distinct(rest) by {
        forall i, j | 0 <= i < j < |rest|
          ensures rest[i] != rest[j]
        {
          assert rest[i] == s[i + 1] && rest[j] == s[j + 1];
        }
      }
      DistinctCard(rest);
      assert s[0] !in rest by {
        forall j | 0 <= j < |rest|
          ensures rest[j] != s[0]
        {
          assert rest[j] == s[j + 1];
        }
      }
      assert (set x | x in s) == (set x | x in rest) + {s[0]};
    }
  }

  /** Consistent answers never number more than the question's tracks, so
      the final score of consistent questions is at most 100%. */
  lemma ConsistentAnswersFit(q: QuizQuestion)
    requires q.IsTriple() && AnswersConsistent(q)
    ensures |q.correctAnswers| <= TracksPerQuestion
  {
    var ids := TrackIds(q.tracks);
    var answered := set x | x in q.correctAnswers;
    DistinctCard(q.correctAnswers);
    assert answered <= {ids[0], ids[1], ids[2]} by {
      forall x | x in answered
        ensures x in {ids[0], ids[1], ids[2]}
      {
        var k :| 0 <= k < |q.correctAnswers| && q.correctAnswers[k] == x;
        assert x in ids;
      }
    }
    QuizUtils.SubsetSize(answered, {ids[0], ids[1], ids[2]});
  }

  /** Consistent questions satisfy the score's precondition for a bounded
      percentage. */
  lemma ConsistentAnswersWithinTracks(questions: seq<QuizQuestion>)
    requires AllTriples(questions) && AllConsistent(questions)
    ensures QuizScore.AnswersWithinTracks(questions)
  {
    forall k | 0 <= k < |questions|
      ensures |questions[k].correctAnswers| <= TracksPerQuestion
    {
      ConsistentAnswersFit(questions[k]);
    }
  }

  // ---------------------------------------------------------------------
  // Showing the answer (handleShowAnswer)
  // ---------------------------------------------------------------------

  /** Marks the question on screen as revealed; off the list it does nothing. */
  function HandleShowAnswer(questions: seq<QuizQuestion>, idx: int): (r: seq<QuizQuestion>)
    ensures |r| == |questions|
    ensures !(0 <= idx < |questions|) ==> r == questions
    ensures forall k :: 0 <= k < |questions| && k != idx ==> r[k] == questions[k]
    ensures 0 <= idx < |questions| ==>
      && r[idx].isAnswerRevealed
      && r[idx].correctAnswers == questions[idx].correctAnswers
      && r[idx].questionNumber == questions[idx].questionNumber
      && r[idx].tracks == questions[idx].tracks
      && r[idx].startTimes == questions[idx].startTimes
  {
    match CurrentQuestion(questions, idx)
    case None => questions
    case Some(q) => questions[idx := q.(isAnswerRevealed := true)]
  }

  /** Showing the answer twice is showing it once. */
  lemma ShowAnswerIdempotent(questions: seq<QuizQuestion>, idx: int)
    ensures HandleShowAnswer(HandleShowAnswer(questions, idx), idx) == HandleShowAnswer(questions, idx)
  {
  }

  /** Showing the answer keeps every question's shape and answers, so it
      changes neither the score nor consistency, and it opens the way on. */
  lemma ShowAnswerKeepsScore(questions: seq<QuizQuestion>, idx: int)
    ensures var r := HandleShowAnswer(questions, idx);
      && QuizScore.SumCorrect(r) == QuizScore.SumCorrect(questions)
      && QuizScore.CountPerfect(r) == QuizScore.CountPerfect(questions)
      && (AllTriples(questions) ==> AllTriples(r))
      && (AllTriples(questions) && AllConsistent(questions) ==> AllConsistent(r))
      && (0 <= idx < |questions| ==> CanProceedToNext(r[idx]))
  {
    var r := HandleShowAnswer(questions, idx);
    QuizScore.SameAnswerCountsSameScore(r, questions);
  }

  // ---------------------------------------------------------------------
  // Moving on (canProceedToNext, handleNextQuestion)
  // ---------------------------------------------------------------------

  /** The next button is enabled once all three tracks are answered or the
      answer is shown. */
  predicate CanProceedToNext(q: QuizQuestion): (r: bool)
    ensures q.isAnswerRevealed ==> r
    ensures !q.isAnswerRevealed ==> (r <==> QuizScore.CountPerfect([q]) == 1)
  {
    assert [q][..0] == [];
    |q.correctAnswers| == TracksPerQuestion || q.isAnswerRevealed
  }

  /** Answering the last open slot of a consistent question enables the next
      button even without showing the answer. */
  lemma AllAnsweredCanProceed(q: QuizQuestion)
    requires q.IsTriple() && AnswersConsistent(q)
    requires Distinct(TrackIds(q.tracks))
    requires forall n :: IsSlot(n) ==> !SlotEnabled(q, n)
    requires !q.isAnswerRevealed
    ensures CanProceedToNext(q)
  {
    var ids := TrackIds(q.tracks);
    assert ids[0] in q.correctAnswers && ids[1] in q.correctAnswers && ids[2] in q.correctAnswers by {
      assert !SlotEnabled(q, 1) && !SlotEnabled(q, 2) && !SlotEnabled(q, 3);
    }
    var answered := set x | x in q.correctAnswers;
    DistinctCard(q.correctAnswers);
    assert {ids[0], ids[1], ids[2]} <= answered;
    assert |{ids[0], ids[1], ids[2]}| == 3;
    QuizUtils.SubsetSize({ids[0], ids[1], ids[2]}, answered);
    ConsistentAnswersFit(q);
  }

  /** On an unrevealed question with distinct tracks whose answers came
      through enabled slots, some answer button stays enabled exactly as long
      as fewer than three tracks are named. */
  lemma SomeSlotOpenIffIncomplete(q: QuizQuestion)
    requires q.IsTriple() && AnswersConsistent(q)
    requires Distinct(TrackIds(q.tracks))
    requires !q.isAnswerRevealed
    ensures (exists n :: IsSlot(n) && SlotEnabled(q, n)) <==> |q.correctAnswers| < TracksPerQuestion
  {
    if n :| IsSlot(n) && SlotEnabled(q, n) {
      var ids := TrackIds(q.tracks);
      var missing := ids[n - 1];
      var all := {ids[0], ids[1], ids[2]};
      var answered := set x | x in q.correctAnswers;
      DistinctCard(q.correctAnswers);
      assert answered <= all - {missing} by {
        forall x | x in answered
          ensures x in all - {missing}
        {
          var k :| 0 <= k < |q.correctAnswers| && q.correctAnswers[k] == x;
          assert x in ids;
        }
      }
      assert |all| == 3;
      assert |all - {missing}| == 2;
      QuizUtils.SubsetSize(answered, all - {missing});
    } else {
      AllAnsweredCanProceed(q);
    }
  }

  /** The answer dialog stays open after a confirmed guess, and only the
      opening of the dialog is guarded, so a slot already answered can be
      confirmed again. Naming track 1 twice and track 2 once then counts as
      a complete question, enables the next button and scores three, though
      track 3 was never named. */
  lemma OpenModalSkipsATrack()
    ensures var t1 := Track("t1", "", "", None);
      var t2 := Track("t2", "", "", None);
      var t3 := Track("t3", "", "", None);
      var q := QuizQuestion(1, [t1, t2, t3], [90, 90, 90], [], false);
      var g1 := HandleTrackSelect([q], 0, 1, t1).value.questions;
      var g2 := HandleTrackSelect(g1, 0, 1, t1).value.questions;
      var g3 := HandleTrackSelect(g2, 0, 2, t2).value.questions;
      && SlotEnabled(q, 1)
      && !SlotEnabled(g1[0], 1)
      && g3[0].correctAnswers == ["t1", "t1", "t2"]
      && "t3" !in g3[0].correctAnswers
      && !AnswersConsistent(g3[0])
      && CanProceedToNext(g3[0])
      && QuizScore.SumCorrect(g3) == TracksPerQuestion
      && QuizScore.CountPerfect(g3) == 1
  {
    var t1 := Track("t1", "", "", None);
    var t2 := Track("t2", "", "", None);
    var q := QuizQuestion(1, [t1, t2, Track("t3", "", "", None)], [90, 90, 90], [], false);
    RepeatedSlotGuesses(q);
    var g3 := HandleTrackSelect(HandleTrackSelect(HandleTrackSelect([q], 0, 1, t1).value.questions,
      0, 1, t1).value.questions, 0, 2, t2).value.questions;
    assert g3[0].correctAnswers == ["t1", "t1", "t2"];
    ThreeAnswersComplete(g3[0]);
    assert g3 == [g3[0]];
  }

  /** Confirming the first track twice, then the second, from a blank
      question records the first id twice and the second once. */
  lemma RepeatedSlotGuesses(q: QuizQuestion)
    requires q.IsTriple() && q.correctAnswers == [] && !q.isAnswerRevealed
    ensures var g1 := HandleTrackSelect([q], 0, 1, q.tracks[0]).value.questions;
      var g2 := HandleTrackSelect(g1, 0, 1, q.tracks[0]).value.questions;
      var g3 := HandleTrackSelect(g2, 0, 2, q.tracks[1]).value.questions;
      && g1[0].correctAnswers == [q.tracks[0].id]
      && |g3| == 1 && g3[0].IsTriple() && !g3[0].isAnswerRevealed
      && g3[0].correctAnswers == [q.tracks[0].id, q.tracks[0].id, q.tracks[1].id]
  {
  }

  /** Three answers of which two repeat break consistency but still
      complete the question. */
  lemma ThreeAnswersComplete(g: QuizQuestion)
    requires g.IsTriple() && !g.isAnswerRevealed
    requires |g.correctAnswers| == TracksPerQuestion && g.correctAnswers[0] == g.correctAnswers[1]
    ensures !AnswersConsistent(g) && CanProceedToNext(g)
    ensures QuizScore.SumCorrect([g]) == TracksPerQuestion && QuizScore.CountPerfect([g]) == 1
  {
    assert [g][..0] == [];
  }

  /** Where the next button leads. */
  datatype NextStep = Advance(index: int) | Finish

  /** Moves to the following question, or ends the quiz from the last one. */
  function HandleNextQuestion(questions: seq<QuizQuestion>, idx: int): (r: NextStep)
    ensures r.Advance? <==> idx < |questions| - 1
    ensures r.Advance? ==> r.index == idx + 1
  {
    if idx < |questions| - 1 then Advance(idx + 1) else Finish
  }

  /** The quiz ends exactly on the question the progress marks as last,
      and advancing from a question on the list stays on the list. */
  lemma NextMatchesProgress(questions: seq<QuizQuestion>, idx: int)
    requires 0 <= idx < |questions|
    ensures HandleNextQuestion(questions, idx).Finish?
      <==> QuizScore.CalculateProgress(questions, idx).isLastQuestion
    ensures HandleNextQuestion(questions, idx).Advance? ==>
      0 <= HandleNextQuestion(questions, idx).index < |questions|
  {
  }

  // ---------------------------------------------------------------------
  // Starting the quiz
  // ---------------------------------------------------------------------

  /** The two ways the quiz screen refuses to start. */
  datatype InitError = NoAlbumsSelected | NotEnoughTracks

  /** The number of questions in a quiz. */
  const QuestionsPerQuiz := 5

  /** No album ids is an error; so are fewer than three tracks in the chosen
      albums; otherwise five fresh questions over those tracks. */
  function InitializeQuiz(albumIds: seq<string>, artists: seq<Artist>, rng: QuizUtils.Rng)
    : (r: Result<seq<QuizQuestion>, InitError>)
    requires QuizUtils.ValidRng(rng)
    ensures |albumIds| == 0 ==> r == Failure(NoAlbumsSelected)
    ensures |albumIds| > 0 && |QuizUtils.TracksFromSelectedAlbums(artists, albumIds)| < TracksPerQuestion
      ==> r == Failure(NotEnoughTracks)
    ensures r.Success? <==>
      |albumIds| > 0 && |QuizUtils.TracksFromSelectedAlbums(artists, albumIds)| >= TracksPerQuestion
    ensures r.Success? ==>
      && |r.value| == QuestionsPerQuiz
      && QuizUtils.AllFresh(r.value, QuizUtils.TracksFromSelectedAlbums(artists, albumIds), rng)
  {
    if |albumIds| == 0 then Failure(NoAlbumsSelected)
    else
      var available := QuizUtils.TracksFromSelectedAlbums(artists, albumIds);
      if |available| < TracksPerQuestion then Failure(NotEnoughTracks)
      else
        match QuizUtils.GenerateQuizQuestions(available, QuestionsPerQuiz, rng)
        case Failure(_) => Failure(NotEnoughTracks)
        case Success(qs) => Success(qs)
  }

  /** A freshly started quiz is well shaped, has consistent (empty) answers,
      nothing revealed and a zero score, and its first question cannot be
      skipped. */
  lemma InitialQuizIsBlank(albumIds: seq<string>, artists: seq<Artist>, rng: QuizUtils.Rng)
    requires QuizUtils.ValidRng(rng)
    requires InitializeQuiz(albumIds, artists, rng).Success?
    ensures var qs := InitializeQuiz(albumIds, artists, rng).value;
      && AllTriples(qs)
      && AllConsistent(qs)
      && QuizScore.SumCorrect(qs) == 0
      && !CanProceedToNext(qs[0])
  {
    var qs := InitializeQuiz(albumIds, artists, rng).value;
    assert |qs| > 0;
    assert forall k :: 0 <= k < |qs| ==>
      qs[k].IsTriple() && qs[k].correctAnswers == [] && !qs[k].isAnswerRevealed
    by {
      var tracks := QuizUtils.TracksFromSelectedAlbums(artists, albumIds);
      assert QuizUtils.AllFresh(qs, tracks, rng);
      forall k | 0 <= k < |qs|
        ensures qs[k].IsTriple() && qs[k].correctAnswers == [] && !qs[k].isAnswerRevealed
      {
        assert QuizUtils.IsFreshQuestion(qs[k], tracks, rng, k);
      }
    }
    BlankQuestions(qs);
  }

  /** Questions with no answers and nothing revealed are consistent, score
      zero, and the first of them cannot be left yet. */
  lemma BlankQuestions(qs: seq<QuizQuestion>)
    requires forall k :: 0 <= k < |qs| ==>
      qs[k].IsTriple() && qs[k].correctAnswers == [] && !qs[k].isAnswerRevealed
    ensures AllTriples(qs) && AllConsistent(qs)
    ensures QuizScore.SumCorrect(qs) == 0
    ensures |qs| > 0 ==> !CanProceedToNext(qs[0])
  {
    ZeroAnswersZeroScore(qs);
  }

  lemma {:induction false} ZeroAnswersZeroScore(qs: seq<QuizQuestion>)
    requires forall k :: 0 <= k < |qs| ==> qs[k].correctAnswers == []
    ensures QuizScore.SumCorrect(qs) == 0
  {
    if |qs| > 0 {
      ZeroAnswersZeroScore(qs[..|qs| - 1]);
    }
  }
}
