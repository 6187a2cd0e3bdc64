# Triple-meaning music quiz — a Dafny model of its quiz logic

The application is a listening quiz. The player picks albums from a catalog
of artists. For each question, the screen plays three tracks at once for
30 seconds, all from one start time. The player names each of the three
tracks, or gives up and reveals the answer. The question generator also
records a 5-second excerpt start time for each track; the screen does not
read those. A result page grades a percentage with a message and a colour.

This project models the logic behind those screens as pure Dafny functions
over immutable data:

- `Types` holds the records: `Track`, `Album`, `Artist` and `QuizQuestion`.
- `Js` holds the handful of JavaScript built-ins the logic relies on:
  `Array.prototype.slice` with a negative end, `Math.round` of a percentage,
  `Math.floor(Math.random() * n)`, `String.prototype.split`/`join` and
  `trim() === ''`.
- `QuizUtils` is the quiz engine of `src/lib/quiz-utils.ts`:
  - flattening the selected albums into a track list;
  - the pick-N sampler;
  - excerpt start times;
  - question generation with its used-track pool.
- `QuizScore` is the progress bar and the final score.
- `QuizContainer` is the quiz screen's event handlers:
  - initialising a quiz;
  - naming a track in one of the three slots;
  - revealing the answer;
  - moving on to the next question.
- `SongsApi` is the `albums` query parameter that carries the selection
  between pages.
- `Url` is the part of the WHATWG URL standard the quiz page relies on:
  finding an address's query, and `URLSearchParams.get`, which splits the
  query at `&`, turns `+` into a space and decodes `%HH` escapes.
- `QuizPage` is the quiz page reading the album ids from its own address.
- `YouTubeUtils` is the video-id extraction. Its regular expression is
  spelled out as a leftmost match with a greedy capture.
- `SelectAlbumsPage`, `AlbumSelectModal` and `ResultPage` are the selection
  page, the album picker dialog and the result page's verdict.

## How randomness is modelled

Randomness is passed in as data. A `QuizUtils.Rng` supplies two things:

- for every question, the order in which the random sort
  `sort(() => Math.random() - 0.5)` leaves the pool, given as a permutation
  of the pool's positions;
- for every slot, the `Math.random()` draw behind its start time, a real
  number in [0, 1).

Every property is proved for all such oracles.

## Where the repository's tests and comments disagree with the code

The model follows the code:

- **Start times.** The repository's tests expect a start time around the
  midpoint of the track (src/lib/__tests__/quiz-utils.test.ts:51-117). They
  also expect a 120-second track to start at 60 s (:219-236). The code does
  something else:
  - a track of 180 s or more starts in its 40–60 % window;
  - every other track, including one whose duration is unknown, starts
    between 90 s and 150 s, whatever its length.

  So a 62-second track can start at 120 s, past its end
  (`QuizUtils.ShortTrackStartsPastItsEnd`). The midpoint tests call a
  function the code does not define, and they are not modelled.
- **Distinct tracks.** The generator's comment says each question takes
  three tracks from the unused ones (src/lib/quiz-utils.ts:55). Its result
  is cast to a triple (:64). When fewer than three tracks are left unused,
  though, the code appends the whole list to the leftover tracks. A leftover
  track then appears twice in the pool, and one question can draw it twice
  (`QuizUtils.ResetPoolCanRepeatATrack`).
- **One answer per track.** The answer buttons are disabled once their
  track is named (src/components/quiz/QuizContainer.tsx:240-251). The answer
  dialog, however, stays open after a confirmed guess
  (src/components/quiz/AnswerModal.tsx:36-46), so the same slot can be
  confirmed again. Its id is then recorded twice, and a question with two
  tracks named counts as complete (`QuizContainer.OpenModalSkipsATrack`).
  The facts about consistent answers therefore hold only while every guess
  goes through an enabled slot.
- **The address carries the selection.** The start button writes the ids
  into `/quiz?albums=…` without escaping them (src/lib/songs-api.ts:38-41),
  and the quiz page reads them back through `URLSearchParams`
  (src/components/pages/QuizPage.tsx:9-10). The round trip is proved for
  ids without a comma, without blanks, and without `&`, `#`, `+` or `%`
  (`SelectAlbumsPage.QuizPageReadsSelection`); of these, a `%` changes an
  id only when two hex digits follow it (`Url.LonePercentKept`). An id `a&b` arrives as `a`
  (`SelectAlbumsPage.AmpersandIdIsCut`), `a+b` as `a b` and `a%41` as `aA`
  (`Url.DecodeExample`). The start button only checks that the list is not
  empty, so the list `[","]` opens `/quiz?albums=,`, which names no album
  (`SelectAlbumsPage.CommaIdStartsEmptyQuiz`).

## Model

| member | source | states |
|---|---|---|
| Js.SliceEnd | src/lib/quiz-utils.ts:121 | the length `slice(0, end)` keeps: `end` clamped to the array, and a negative `end` counted from the back, never below 0 |
| Js.RoundedPercent | src/lib/quiz-utils.ts:148 | `Math.round(part / whole * 100)` as the unique integer `r` with `r - 1/2 <= 100·part/whole < r + 1/2`; it lies in 0..100 when `0 <= part <= whole` |
| Js.ScaledDraw | src/lib/quiz-utils.ts:103 | `Math.floor(Math.random() * n)` is an index in [0, n) for positive `n` |
| Js.Split | src/lib/songs-api.ts:30 | `split(',')` yields at least one piece, and no piece contains the separator |
| Js.SplitJoin | src/lib/songs-api.ts:30-40 | joining pieces that hold no separator and splitting again gives the pieces back |
| Js.JoinSplit | src/lib/songs-api.ts:30-40 | splitting a string and joining the pieces with the same separator gives the string back |
| Js.Join | src/lib/songs-api.ts:40 | `join(',')` of no ids is the empty string, and of one id is that id |
| Js.TrimStart | src/lib/songs-api.ts:30 | `trim()` at the front drops exactly the leading whitespace: what is left is a suffix that does not start with whitespace |
| Js.TrimEnd | src/lib/songs-api.ts:30 | `trim()` at the back drops exactly the trailing whitespace: what is left is a prefix that does not end with whitespace |
| Js.TrimOfWhitespace | src/lib/songs-api.ts:30 | a string trims to the empty string iff every character of it is whitespace, so `id.trim() === ''` is `IsBlank(id)` |
| Js.SplitWithoutSeparator | src/lib/songs-api.ts:30 | a string without a comma splits into itself alone |
| Js.JoinAvoids | src/lib/songs-api.ts:40 | a character in none of the ids, other than the comma, is not in their join |
| Types.CatalogAlbums | src/components/pages/SelectAlbumsPage.tsx:34-36 | the catalog's albums artist by artist, holding every album of every artist and nothing else |
| Types.CatalogAlbumIds | src/components/pages/SelectAlbumsPage.tsx:34-36 | `flatMap(artist => artist.albums.map(album => album.id))`: one id per catalog album, position by position |
| QuizUtils.TracksFromSelectedAlbums | src/lib/quiz-utils.ts:9-24 | a track is collected iff it belongs to some catalog album whose id is selected; nothing is collected from an empty selection |
| QuizUtils.FlattenIsSelectedAlbumsInOrder | src/lib/quiz-utils.ts:15-21 | the nested loop yields the tracks of the selected albums concatenated in catalog order, album by album |
| QuizUtils.FlattenDependsOnlyOnSelectedCatalogIds | src/lib/quiz-utils.ts:17 | two selections that agree on which catalog ids they contain give the same tracks; order and repeats do not matter |
| QuizUtils.FlattenIgnoresUnknownId | src/lib/quiz-utils.ts:17 | adding an id that names no catalog album changes nothing |
| QuizUtils.FlattenAllIsWholeCatalog | src/lib/quiz-utils.ts:9-24 | selecting every catalog album id yields every catalog track in order |
| QuizUtils.GetRandomItems | src/lib/quiz-utils.ts:32-35 | the result is the first `slice(0, count)` entries of the shuffled array: `min(count, length)` items for a non-negative count, each taken from the input at the shuffled position |
| QuizUtils.GetRandomItemsKeepsAll | src/lib/quiz-utils.ts:32-35 | with a count of at least the length, every input item is in the result: the sampler is a shuffle |
| QuizUtils.PermutationIsOnto | src/lib/quiz-utils.ts:33 | a random sort's order reaches every position of the array |
| QuizUtils.CalculateStartTime | src/lib/quiz-utils.ts:94-111 | a track of 180 s or more with a non-empty window starts between 40 % and 60 % of its length and early enough to play the excerpt; any other track starts in 90..min(150, 180 − excerpt) |
| QuizUtils.FiveSecondExcerptFitsLongTracks | src/lib/quiz-utils.ts:97-105 | with the 5-second excerpt, every track of 180 s or more takes the window branch, and its excerpt ends inside the track |
| QuizUtils.ShortTrackStartsPastItsEnd | src/lib/quiz-utils.ts:107-110 | a 62-second track with the draw 0.5 starts at 120 s, past its end |
| QuizUtils.ZeroDurationUsesDefaultWindow | src/lib/__tests__/quiz-utils.test.ts:238-254 | a zero duration uses the fixed window: the draw 0.5 gives 120 |
| QuizUtils.UnknownDurationLowestDraw | src/lib/__tests__/quiz-utils.test.ts:256-269 | an unknown duration with the draw 0 starts at 90 |
| QuizUtils.LongTrackWindowExample | src/lib/quiz-utils.ts:97-104 | a 228-second track draws from [91, 136], so the draw 0.25 gives 102 |
| QuizUtils.Unused | src/lib/quiz-utils.ts:56 | the tracks left are exactly the input tracks whose id is not used |
| QuizUtils.UnusedKeepsDistinctIds | src/lib/quiz-utils.ts:56 | filtering a list with distinct ids keeps them distinct |
| QuizUtils.QuestionPool | src/lib/quiz-utils.ts:56-62 | the pool only holds input tracks, and has at least three of them whenever the input has three |
| QuizUtils.GenerateQuestion | src/lib/quiz-utils.ts:56-82 | one loop turn: question `i` is numbered `i + 1`, holds three pool tracks in shuffled order, each slot's start time is drawn for its own track, it starts unanswered and unrevealed, and the used set afterwards is the old one (or the empty set after a reset) plus the question's ids |
| QuizUtils.GenerateQuizQuestions | src/lib/quiz-utils.ts:43-86 | it fails iff fewer than three tracks are given; otherwise it yields `max(questionCount, 0)` questions, each fresh for its own index |
| QuizUtils.FreshPoolPicksUnusedTracks | src/lib/quiz-utils.ts:56-67 | while three or more tracks are unused, a question takes three different unused positions, none of its tracks was used before, it only adds its own ids to the used set, and distinct input ids give three distinct tracks |
| QuizUtils.FreshPoolPositions | src/lib/quiz-utils.ts:56-67 | while three or more tracks are unused, the pool is the unused list, there is no reset, and the question takes three different positions of it |
| QuizUtils.FreshPoolTracksUnused | src/lib/quiz-utils.ts:56-64 | while three or more tracks are unused, none of the question's tracks was used before |
| QuizUtils.FreshPoolDistinctIds | src/lib/quiz-utils.ts:56-64 | while three or more tracks are unused, distinct input ids give a question with three distinct ids |
| QuizUtils.ExhaustedPoolResets | src/lib/quiz-utils.ts:58-62 | with fewer than three unused tracks, the pool is the leftovers followed by all tracks, and the used set afterwards holds just the new question's ids |
| QuizUtils.ResetPoolCanRepeatATrack | src/lib/quiz-utils.ts:58-64 | four tracks with three used give the pool [d, a, b, c, d], and a shuffle can put d into a question twice |
| QuizUtils.ResetPoolRepeats | src/lib/quiz-utils.ts:58-64 | the same for any four tracks of which exactly the first three are used |
| QuizUtils.PoolOfOnlyLast | src/lib/quiz-utils.ts:56-62 | with only the last of four tracks unused, the pool is that track followed by all four |
| QuizUtils.ThreeTracksEveryQuestionHasAll | src/lib/quiz-utils.ts:43-86 | with exactly three tracks, generation succeeds and every question holds all three |
| QuizUtils.UnusedAtLeast | src/lib/quiz-utils.ts:56 | with distinct track ids, filtering out a used-id set of size n leaves at least all but n tracks |
| QuizUtils.FirstTwoQuestionsShareNoTrack | src/lib/quiz-utils.ts:52-67 | with six or more tracks of distinct ids, questions 1 and 2 each hold three different tracks and question 2 repeats none of question 1's, through the used set the loop carries between them |
| QuizScore.CalculateProgress | src/lib/quiz-utils.ts:119-132 | total is the question count; completed is the slice length (the index clamped to 0..count, negative indexes counted from the back); current is index + 1; the percentage is NaN iff the quiz is empty, otherwise the rounded share in 0..100; last iff index = count − 1 |
| QuizScore.LastQuestionProgress | src/lib/quiz-utils.ts:119-132 | on the last question, completed = total − 1 and current = total; the bar shows under 100 % iff the quiz has fewer than 200 questions; an empty quiz gives NaN |
| QuizScore.ProgressMonotone | src/lib/quiz-utils.ts:121-123 | a later index never shows a smaller percentage |
| QuizScore.ProgressExample | src/lib/__tests__/quiz-utils.test.ts:335-347 | three questions at index 1 give 3 / 1 / 2 / 33 % / not last; at index 2 they give 67 % and last |
| QuizScore.CalculateFinalScore | src/lib/quiz-utils.ts:139-156 | the total correct is the sum of the answer counts; the total possible is three per question; the percentage is the rounded share, or 0 for no questions; the perfect count is the number of questions with three answers; with at most three answers per question, the score is at most the total and the percentage lies in 0..100 |
| QuizScore.SumCorrectAppend | src/lib/quiz-utils.ts:143-146 | the correct-answer total adds up over a split of the questions |
| QuizScore.SameAnswerCountsSameScore | src/lib/quiz-utils.ts:143-154 | the score depends only on how many answers each question records |
| QuizScore.SumCorrectUpdate | src/lib/quiz-utils.ts:143-146 | replacing one question changes the total by the difference of its answer counts |
| QuizScore.PerfectQuestionsScoreThree | src/lib/quiz-utils.ts:143-154 | three times the perfect count never exceeds the total correct |
| QuizScore.FullScoreIffAllPerfect | src/lib/quiz-utils.ts:143-154 | with at most three answers per question, the total is full iff every question is perfect |
| QuizScore.ScoreExample | src/lib/__tests__/quiz-utils.test.ts:375-381 | answers of sizes 2, 3, 0 score 5 of 9, 56 %, one perfect question |
| QuizContainer.CurrentQuestion | src/components/quiz/QuizContainer.tsx:87 | `questions[currentQuestionIndex]` is defined iff the index is in range |
| QuizContainer.HandleTrackSelect | src/components/quiz/QuizContainer.tsx:114-130 | nothing happens without a current question; the guess is correct iff the chosen id equals the slot's track id; a wrong guess changes nothing; a right one appends that id to the current question only, keeping its other fields |
| QuizContainer.GuessKeepsTriples | src/components/quiz/QuizContainer.tsx:123-129 | a guess keeps every question at three tracks and three start times |
| QuizContainer.RepeatedCorrectGuessIsRecordedTwice | src/components/quiz/QuizContainer.tsx:123-129 | the handler does not check for a repeat: naming the same slot's track twice records its id twice |
| QuizContainer.GuessScore | src/components/quiz/QuizContainer.tsx:123-129 | a guess raises the total correct by one iff it is correct, and otherwise leaves it |
| QuizContainer.EnabledGuessKeepsConsistent | src/components/quiz/QuizContainer.tsx:240-251 | when a guess goes through an enabled slot, each recorded answer is a distinct id of the question's tracks |
| QuizContainer.ConsistentAnswersFit | src/components/quiz/QuizContainer.tsx:240-251 | such a question never records more than three answers |
| QuizContainer.ConsistentAnswersWithinTracks | src/components/quiz/QuizContainer.tsx:240-251 | when every guess goes through an enabled slot, the final score stays within 0..100 % |
| QuizContainer.SomeSlotOpenIffIncomplete | src/components/quiz/QuizContainer.tsx:240-251 | on an unrevealed question with distinct tracks whose answers are consistent, some answer button is still enabled iff fewer than three tracks are named |
| QuizContainer.CanProceedToNext | src/components/quiz/QuizContainer.tsx:198-199 | the next button is enabled on a revealed question; on an unrevealed one it is enabled iff the question counts as perfect in the final score |
| QuizContainer.OpenModalSkipsATrack | src/components/quiz/AnswerModal.tsx:36-47 | the dialog stays open after a confirmed guess, so slot 1 can be confirmed twice: its id is recorded twice, slot 3 is never named, and yet the question scores three, counts as perfect and enables the next button |
| QuizContainer.RepeatedSlotGuesses | src/components/quiz/QuizContainer.tsx:114-130 | on any blank question, confirming track 1 twice and then track 2 records their ids in that order, the first one twice |
| QuizContainer.ThreeAnswersComplete | src/components/quiz/QuizContainer.tsx:198-199 | three answers of which two repeat are not consistent, yet they enable the next button, score three and count as perfect |
| QuizContainer.HandleShowAnswer | src/components/quiz/QuizContainer.tsx:143-152 | only the current question changes: it is marked revealed, keeping its other fields; out of range, nothing changes |
| QuizContainer.ShowAnswerIdempotent | src/components/quiz/QuizContainer.tsx:143-152 | revealing twice is the same as revealing once |
| QuizContainer.ShowAnswerKeepsScore | src/components/quiz/QuizContainer.tsx:143-152 | revealing keeps the total correct, the perfect count, the triples and answer consistency, and enables the next button |
| QuizContainer.AllAnsweredCanProceed | src/components/quiz/QuizContainer.tsx:198-199 | once no slot is enabled on an unrevealed question with distinct tracks, all three are named, and the next button is enabled |
| QuizContainer.HandleNextQuestion | src/components/quiz/QuizContainer.tsx:155-162 | it advances to index + 1 iff the index is before the last question; otherwise the quiz finishes |
| QuizContainer.NextMatchesProgress | src/components/quiz/QuizContainer.tsx:155-162 | the next button finishes the quiz exactly when the progress marks the last question |
| QuizContainer.InitializeQuiz | src/components/quiz/QuizContainer.tsx:50-73 | an empty selection fails with its own error; fewer than three selected tracks fail; otherwise it gives five questions, each fresh for its index |
| QuizContainer.InitialQuizIsBlank | src/components/quiz/QuizContainer.tsx:50-57 | a new quiz has three tracks per question, no answers and a score of zero, and its first question cannot be left before a track is named or the answer revealed |
| SongsApi.DropBlank | src/lib/songs-api.ts:30 | `filter(id => id.trim() !== '')` keeps exactly the pieces that are not blank |
| SongsApi.DropBlankAppend | src/lib/songs-api.ts:30 | the filter distributes over concatenation, so it keeps the order and the repeats of the pieces it keeps |
| SongsApi.DropBlankSingle | src/lib/songs-api.ts:30 | one piece is dropped iff it is blank, and otherwise kept as it is |
| SongsApi.SingleId | src/lib/songs-api.ts:26-31 | a value without a comma that is not blank reads as that one id |
| SongsApi.DropBlankKeepsNonBlank | src/lib/songs-api.ts:30 | the filter drops nothing from a list without blank pieces |
| SongsApi.GetSelectedAlbumIds | src/lib/songs-api.ts:26-31 | an absent or empty parameter gives no ids; otherwise the result is the comma-separated pieces with the blank ones dropped, in order and with repeats; no id holds a comma or is blank |
| SongsApi.RepeatExample | src/lib/songs-api.ts:28-30 | `,a,a` reads as `a`, `a`: the empty piece is dropped and the repeat is kept |
| SongsApi.CreateAlbumsQueryParam | src/lib/songs-api.ts:38-41 | the query string is empty iff there are no ids; otherwise it starts with `albums=` |
| SongsApi.QueryRoundTrip | src/lib/songs-api.ts:26-41 | ids without commas or blanks survive writing then reading, in order and with repeats |
| SongsApi.ParseWriteParse | src/lib/songs-api.ts:26-41 | reading, writing back and reading again gives the first reading |
| SongsApi.ParseExample | src/lib/songs-api.ts:30 | `a1, ,b2 ` reads as `a1` and `b2 `: the blank piece is dropped and the pieces are not trimmed |
| SongsApi.ParseCommaExample | src/lib/songs-api.ts:28-30 | a lone comma names no album |
| SongsApi.QueryExample | src/lib/songs-api.ts:38-41 | `["a1", "b2"]` is written as `albums=a1,b2` |
| Url.IndexOf | src/components/pages/QuizPage.tsx:9 | the position of the first occurrence of a character, or the length when it does not occur |
| Url.Query | src/components/pages/QuizPage.tsx:9 | the query of an address holds no `#` and is no longer than the address |
| Url.QueryAfterMark | src/components/pages/QuizPage.tsx:9 | the query of `<prefix>?<rest>` is `rest` when neither holds a `#` and the prefix holds no `?` |
| Url.PercentDecode | src/lib/songs-api.ts:27 | decoding never lengthens a string and leaves one without `%` unchanged |
| Url.FormDecode | src/lib/songs-api.ts:27 | a string without `+` or `%` decodes to itself |
| Url.NameValue | src/lib/songs-api.ts:27 | a pair splits at its first `=` into a name without `=` and the value; without `=`, the value is empty |
| Url.NameValueOf | src/lib/songs-api.ts:27 | `<name>=<value>` splits back into `name` and `value` when the name holds no `=` |
| Url.FirstValue | src/lib/songs-api.ts:27 | a value is found only in a non-empty pair whose decoded name matches, and nothing is found only when no such pair exists |
| Url.SearchParamsGet | src/lib/songs-api.ts:27 | an empty query gives null; a value comes from some `&`-separated pair for the name |
| Url.SinglePair | src/lib/songs-api.ts:27 | a query holding the one pair `<name>=<value>`, with nothing to split or decode, gives the value back |
| Url.FirstPairWins | src/lib/songs-api.ts:27 | the first pair for the name wins, whatever follows its `&` |
| Url.DecodeExample | src/lib/songs-api.ts:27 | `a%41` decodes to `aA` and `a+b` to `a b` |
| Url.LonePercentKept | src/lib/songs-api.ts:27 | a `%` that two hex digits do not follow is kept: `a%zz` decodes to itself |
| QuizPage.AlbumIdsFromUrl | src/components/pages/QuizPage.tsx:9-10 | an address without an `albums` pair gives no ids; every id read holds no comma and is not blank |
| QuizPage.QuizQuery | src/components/pages/QuizPage.tsx:9 | the query of `/quiz?<rest>` is `rest` when it holds no `#` |
| QuizPage.ReadsQueryValue | src/components/pages/QuizPage.tsx:9-10 | the page at `/quiz?albums=<v>` reads the ids of `v` itself when `v` holds no `&`, `#`, `+` or `%` |
| QuizPage.AmpersandCutsValue | src/components/pages/QuizPage.tsx:9-10 | the page at `/quiz?albums=<a>&<b>` reads the ids of `a` alone |
| YouTubeUtils.AlternativeAt | src/lib/youtube-utils.ts:9 | the alternation tries `youtube.com/watch?v=` before `youtu.be/`, and each must be followed by an id character |
| YouTubeUtils.RunEnd | src/lib/youtube-utils.ts:9 | the greedy `[^&\n?#]+` stops at the end or at the first character that is not permitted |
| YouTubeUtils.Capture | src/lib/youtube-utils.ts:9-11 | the capture group is a non-empty run of permitted characters straight after the marker, and it cannot be extended |
| YouTubeUtils.LeftmostMatchFrom | src/lib/youtube-utils.ts:9-10 | the scan finds the first position at or after `from` where the expression matches, or reports that none exists |
| YouTubeUtils.ExtractYouTubeVideoId | src/lib/youtube-utils.ts:8-12 | the result is null iff the expression matches nowhere; otherwise it is the capture of the leftmost match, non-empty and free of `&`, newline, `?` and `#` |
| YouTubeUtils.ExtractIsLeftmostCapture | src/lib/youtube-utils.ts:9-11 | the result is determined by the leftmost match |
| YouTubeUtils.MatchStartsAtY | src/lib/youtube-utils.ts:9 | every match starts at a `y` |
| YouTubeUtils.NoYNoId | src/lib/youtube-utils.ts:9-11 | a url without `y` yields null |
| YouTubeUtils.WatchLink | src/lib/youtube-utils.ts:9-11 | a `youtube.com/watch?v=` link after a prefix without `y` yields the id up to the first `&`, `?`, `#`, newline or the end |
| YouTubeUtils.ShortLink | src/lib/youtube-utils.ts:9-11 | the same for a `youtu.be/` link |
| YouTubeUtils.WatchLinkExample | src/lib/__tests__/youtube-utils.test.ts:5-9 | the standard watch link yields `dQw4w9WgXcQ` |
| YouTubeUtils.ShortLinkExample | src/lib/__tests__/youtube-utils.test.ts:11-15 | the short link yields `dQw4w9WgXcQ` |
| YouTubeUtils.ExtraParameterExample | src/lib/__tests__/youtube-utils.test.ts:17-21 | a trailing `&t=30s` is not part of the id |
| YouTubeUtils.NonYouTubeExample | src/lib/__tests__/youtube-utils.test.ts:23-27 | a non-YouTube url yields null |
| YouTubeUtils.EmptyUrlExample | src/lib/__tests__/youtube-utils.test.ts:29-33 | the empty url yields null |
| YouTubeUtils.OtherDomainExample | src/lib/__tests__/youtube-utils.test.ts:35-39 | a Vimeo url yields null |
| SelectAlbumsPage.SelectedAlbums | src/components/pages/SelectAlbumsPage.tsx:90-92 | an album is listed iff it is a catalog album whose id is selected |
| SelectAlbumsPage.SelectedAlbumsInCatalogOrder | src/components/pages/SelectAlbumsPage.tsx:90-92 | filtering artist by artist gives the selected catalog albums in catalog order |
| SelectAlbumsPage.TrackTotalCountsTracks | src/components/pages/SelectAlbumsPage.tsx:96 | summing the albums' track counts counts their concatenated tracks |
| SelectAlbumsPage.GetSelectedAlbumsInfo | src/components/pages/SelectAlbumsPage.tsx:85-98 | zero before loading or with nothing selected; otherwise the number of selected catalog albums, and exactly as many tracks as the quiz would draw from |
| SelectAlbumsPage.InitialSelection | src/components/pages/SelectAlbumsPage.tsx:30-40 | the ids the URL names, or every catalog album id when it names none |
| SelectAlbumsPage.NoParamSelectsWholeCatalog | src/components/pages/SelectAlbumsPage.tsx:33-37 | without a usable `albums` parameter, the whole catalog is in play and the summary counts every album and track |
| SelectAlbumsPage.HandleStartQuiz | src/components/pages/SelectAlbumsPage.tsx:68-83 | an empty selection is refused; before loading nothing happens; otherwise it goes to `/quiz?albums=…` |
| SelectAlbumsPage.StartQuizHandsOverSelection | src/components/pages/SelectAlbumsPage.tsx:75-81 | the `albums` value the start button writes reads back as exactly the selection when no id holds a comma or is blank |
| SelectAlbumsPage.StartUrl | src/components/pages/SelectAlbumsPage.tsx:75-81 | a non-empty selection with the catalog loaded opens `/quiz?albums=` followed by the ids joined with commas |
| SelectAlbumsPage.QuizPageReadsSelection | src/components/pages/SelectAlbumsPage.tsx:75-81 | the quiz page, reading its address through `URLSearchParams`, gets exactly the selection when no id holds a comma, is blank, or holds `&`, `#`, `+` or `%` |
| SelectAlbumsPage.StartedQuizHasAlbums | src/components/pages/SelectAlbumsPage.tsx:68-81 | a selection the start button accepts, with ids as above, reaches the quiz screen non-empty and never trips its empty-selection error |
| SelectAlbumsPage.CommaIdStartsEmptyQuiz | src/components/pages/SelectAlbumsPage.tsx:68-81 | the start button accepts the list `[","]`, whose address `/quiz?albums=,` reads as no ids, and the quiz screen reports an empty selection |
| SelectAlbumsPage.AmpersandIdIsCut | src/lib/songs-api.ts:38-41 | the ids are written unescaped, so the single id `<a>&<b>` reaches the quiz page as `<a>` alone |
| SelectAlbumsPage.SelectionUrl | src/components/pages/SelectAlbumsPage.tsx:54-65 | the page's address is `/` iff no album id is selected |
| SelectAlbumsPage.SelectionUrlReloads | src/components/pages/SelectAlbumsPage.tsx:22-65 | after the address moves to the selection's URL, the page's loading effect reads back the ids themselves when they are comma-free, non-blank and free of `&`, `#`, `+` and `%`, and the whole catalog when none is selected |
| AlbumSelectModal.Remove | src/components/albums/AlbumSelectModal.tsx:34 | `filter(id => id !== albumId)` removes every copy of the id and keeps every other id |
| AlbumSelectModal.RemoveAppend | src/components/albums/AlbumSelectModal.tsx:34 | the filter distributes over concatenation, so the order of the other ids is kept |
| AlbumSelectModal.RemoveAbsent | src/components/albums/AlbumSelectModal.tsx:34 | removing an absent id changes nothing |
| AlbumSelectModal.HandleAlbumToggle | src/components/albums/AlbumSelectModal.tsx:30-36 | the box is ticked afterwards iff `checked`; no other box changes; ticking appends the id at the end |
| AlbumSelectModal.ToggleOnThenOff | src/components/albums/AlbumSelectModal.tsx:30-36 | ticking then unticking equals unticking, and restores a list that lacked the id |
| AlbumSelectModal.HandleSelectAll | src/components/albums/AlbumSelectModal.tsx:48-51 | the list becomes the catalog's album ids in catalog order, position by position, so every catalog album is ticked and nothing else |
| AlbumSelectModal.HandleDeselectAll | src/components/albums/AlbumSelectModal.tsx:53-55 | no box is ticked |
| AlbumSelectModal.TickedBoxEnablesConfirm | src/components/albums/AlbumSelectModal.tsx:89-110 | a ticked box, one shown for a catalog album, enables the confirm button |
| AlbumSelectModal.UnknownUrlIdEnablesConfirm | src/components/albums/AlbumSelectModal.tsx:21-28 | the converse fails: an address naming only an id that no catalog album has opens the dialog with the confirm button enabled and no box ticked |
| AlbumSelectModal.DeselectAllDisablesConfirm | src/components/albums/AlbumSelectModal.tsx:53-55 | after deselecting all, the confirm button is disabled and the dialog stays open |
| AlbumSelectModal.ApplyEditsAppend | src/components/albums/AlbumSelectModal.tsx:30-55 | applying two runs of edits in turn is applying their concatenation |
| AlbumSelectModal.LastBulkEditWins | src/components/albums/AlbumSelectModal.tsx:48-55 | whatever edits came before, selecting all then confirming hands the page every catalog album id, and deselecting all disables confirm |
| AlbumSelectModal.Open | src/components/albums/AlbumSelectModal.tsx:24-28 | opening copies the page's selection into the dialog |
| AlbumSelectModal.HandleConfirm | src/components/albums/AlbumSelectModal.tsx:38-41 | the page takes the dialog's ids and the dialog closes |
| AlbumSelectModal.HandleCancel | src/components/albums/AlbumSelectModal.tsx:43-46 | the page keeps its selection, the dialog resets to it and closes |
| AlbumSelectModal.CancelDiscardsEdits | src/components/albums/AlbumSelectModal.tsx:21-46 | whatever edits are made, cancelling leaves the page's selection as it was |
| AlbumSelectModal.ConfirmedSelectionStarts | src/components/albums/AlbumSelectModal.tsx:107-111 | the confirm button is enabled only for a non-empty list, so a confirmed selection is never refused by the start button |
| AlbumSelectModal.SelectAllCoversCatalog | src/components/albums/AlbumSelectModal.tsx:48-51 | selecting all and confirming puts every catalog track into play |
| ResultPage.PerformanceMessage | src/components/pages/ResultPage.tsx:29-34 | the if-chain picks the message of the score's band, counted by the thresholds 50, 70 and 90 |
| ResultPage.PerformanceColor | src/components/pages/ResultPage.tsx:36-41 | the if-chain picks the colour of the score's band, by the same thresholds |
| ResultPage.MessageAndColorAgree | src/components/pages/ResultPage.tsx:29-41 | two scores get the same message iff they get the same colour iff they are in the same band |
| ResultPage.VerdictsDistinct | src/components/pages/ResultPage.tsx:29-41 | the four messages differ, and so do the four colours |
| ResultPage.BandMonotone | src/components/pages/ResultPage.tsx:30-40 | a higher score never lands in a lower band |

## Left out

- The YouTube player hooks, track preloading, and playback: `playTracks` in `src/hooks/useMultipleYouTubePlayers.ts:46-67` takes the start time and the 30-second duration as parameters and drives an embedded player; it holds no quiz logic.
- The playback start: the screen calls `getRandomStartTime(currentQuestion.tracks[0], 30)` (`src/components/quiz/QuizContainer.tsx:94`). It is imported from `src/lib/quiz-utils.ts`, which does not define it, so getRandomStartTime is not part of this model.
- Durations: `duration?: number` (`src/types/index.ts:6`) is modelled as an optional whole number of seconds. A fractional duration would make `track.duration - playDuration` and `adjustedMax - min + 1` non-integers (`src/lib/quiz-utils.ts:100-103`), and that case is not modelled.
- QuizUtils.CalculateStartTime: states its bounds for whole-second durations only, for the reason on the line above.
- `fetchSongsData` and the JSON catalog: the model takes the catalog as a value. "Not loaded yet" is an `Option` or a flag.
- The URL parser's own clean-up of an address: removing tabs and newlines, trimming spaces and control characters at its ends, and percent-encoding characters outside the query set, which `URLSearchParams` decodes back. The model takes the address as the string the page wrote. The ids go into it unescaped (`src/lib/songs-api.ts:38-41`).
- Url.PercentDecode: maps each `%HH` to the one character with that code, which is exact for ASCII; a multi-byte UTF-8 sequence is not decoded into one character.
- SelectAlbumsPage.StartQuizHandsOverSelection: states the round trip on the raw `albums` value only. The round trip through the address is `QuizPageReadsSelection`, and it is stated for ids without `&`, `#`, `+` and `%` as well; `AmpersandIdIsCut` and `Url.DecodeExample` show what happens otherwise.
- SelectAlbumsPage.StartedQuizHasAlbums: is stated for ids without commas, blanks, `&`, `#`, `+` or `%`; a `%` not followed by two hex digits would also do, but is not covered. The start button also accepts other lists, and `[","]` reaches the quiz page empty (`CommaIdStartsEmptyQuiz`).
- `alert`, `router.push`/`replace`, loading spinners and rendering: each handler returns the next state or a `StartResult`/`NextStep` naming where it goes.
- Floating point: `Math.round` and `Math.floor` are applied to the exact rational values. `Math.floor(d * 0.4)` and `Math.floor(d * 0.6)` are computed exactly, as `⌊2d/5⌋` and `⌊3d/5⌋`. A double can round differently on a rare boundary.
- Js.RoundedPercent: rounds the exact ratio half up. It does not model the double-precision product `part / whole * 100`.
- The distribution of `Math.random()` and of the random-comparator sort: the model quantifies over every draw in [0, 1) and over every permutation, and says nothing about uniformity.
- The repository's tests of a midpoint start-time rule: they describe a function the code does not contain.
- The error messages of `generateQuizQuestions` and of the quiz screen: they become the values `QuizError.InsufficientTracks`, `InitError.NoAlbumsSelected` and `InitError.NotEnoughTracks`.
- The result page's score source: the page displays hard-coded sample results, and `calculateFinalScore` has no caller in the screens. Only the verdict functions, message and colour, are modelled.
- `createAlbumsQueryParam` called with a second argument (all album ids): the function ignores it, so the model omits it.
- QuizContainer.HandleTrackSelect: requires every question to have three tracks and the slot to be 1–3, which the screen guarantees. Otherwise `correctTrack` is `undefined` and reading `correctTrack.id` (`src/components/quiz/QuizContainer.tsx:120`) throws a `TypeError`; that failure is not modelled.
- The answer dialog's album and track panes (`src/components/quiz/AnswerModal.tsx`): only the effect of its confirm button, one guess for the open slot, is modelled.
