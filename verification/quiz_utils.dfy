/** The quiz engine of `src/lib/quiz-utils.ts`: catalog flattening, the
    pick-N sampler, excerpt start times and question generation (progress
    and the final score are in `QuizScore`). Randomness enters as explicit oracles (see `Rng`). */
module QuizUtils {
  import opened Wrappers
  import opened Types
  import Js

  // ---------------------------------------------------------------------
  // Catalog flattening (getTracksFromSelectedAlbums)

  /** The tracks of those `albums` whose id is selected, album by album. */
  function SelectedAlbumTracks(albums: seq<Album>, selected: seq<string>): (ts: seq<Track>)
    ensures forall t :: t in ts <==> exists al :: al in albums && al.id in selected && t in al.tracks
    ensures |selected| == 0 ==> ts == []
  {
    if |albums| == 0 then []
    else
      var head := if albums[0].id in selected then albums[0].tracks else [];
      var rest := SelectedAlbumTracks(albums[1..], selected);
      assert forall al :: al in albums <==> al == albums[0] || al in albums[1..];
      head + rest
  }

  /** getTracksFromSelectedAlbums: the nested artist/album loop that collects
      the tracks of every selected album. */
  function TracksFromSelectedAlbums(artists: seq<Artist>, selected: seq<string>): (ts: seq<Track>)
    ensures forall t :: t in ts <==>
      exists al :: al in CatalogAlbums(artists) && al.id in selected && t in al.tracks
    ensures |selected| == 0 ==> ts == []
  {
    if |artists| == 0 then []
    else SelectedAlbumTracks(artists[0].albums, selected) + TracksFromSelectedAlbums(artists[1..], selected)
  }

  /** The albums of a list whose id is selected, in list order. */
  function FilterSelected(albums: seq<Album>, selected: seq<string>): (r: seq<Album>)
    ensures |r| <= |albums|
    ensures forall al :: al in r <==> al in albums && al.id in selected
    ensures |selected| == 0 ==> r == []
  {
    if |albums| == 0 then []
    else (if albums[0].id in selected then [albums[0]] else []) + FilterSelected(albums[1..], selected)
  }

  /** The tracks of a list of albums, concatenated in order. */
  function ConcatTracks(albums: seq<Album>): (ts: seq<Track>)
    ensures forall t :: t in ts <==> exists al :: al in albums && t in al.tracks
  {
    if |albums| == 0 then []
    else
      assert forall al :: al in albums <==> al == albums[0] || al in albums[1..];
      albums[0].tracks + ConcatTracks(albums[1..])
  }

  lemma {:induction false} ConcatTracksAppend(a: seq<Album>, b: seq<Album>)
    ensures ConcatTracks(a + b) == ConcatTracks(a) + ConcatTracks(b)
    decreases |a|
  {
    if |a| > 0 {
      assert (a + b)[0] == a[0] && (a + b)[1..] == a[1..] + b;
      ConcatTracksAppend(a[1..], b);
    } else {
      assert a + b == b;
    }
  }

  lemma {:induction false} FilterSelectedAppend(a: seq<Album>, b: seq<Album>, selected: seq<string>)
    ensures FilterSelected(a + b, selected) == FilterSelected(a, selected) + FilterSelected(b, selected)
    decreases |a|
  {
    if |a| > 0 {
      assert (a + b)[0] == a[0] && (a + b)[1..] == a[1..] + b;
      FilterSelectedAppend(a[1..], b, selected);
    } else {
      assert a + b == b;
    }
  }

  lemma {:induction false} SelectedAlbumTracksIsConcat(albums: seq<Album>, selected: seq<string>)
    ensures SelectedAlbumTracks(albums, selected) == ConcatTracks(FilterSelected(albums, selected))
    decreases |albums|
  {
    if |albums| > 0 {
      SelectedAlbumTracksIsConcat(albums[1..], selected);
      var head := if albums[0].id in selected then [albums[0]] else [];
      ConcatTracksAppend(head, FilterSelected(albums[1..], selected));
      if albums[0].id in selected {
        assert ConcatTracks(head) == albums[0].tracks + ConcatTracks([]);
      }
    }
  }

  /** The flattened tracks are exactly the concatenated tracks of the
      selected catalog albums, taken in catalog (artist, then album) order
      and with each album's track order kept. */
  lemma {:induction false} FlattenIsSelectedAlbumsInOrder(artists: seq<Artist>, selected: seq<string>)
    ensures TracksFromSelectedAlbums(artists, selected)
         == ConcatTracks(FilterSelected(CatalogAlbums(artists), selected))
    decreases |artists|
  {
    if |artists| > 0 {
      FlattenIsSelectedAlbumsInOrder(artists[1..], selected);
      SelectedAlbumTracksIsConcat(artists[0].albums, selected);
      FilterSelectedAppend(artists[0].albums, CatalogAlbums(artists[1..]), selected);
      ConcatTracksAppend(FilterSelected(artists[0].albums, selected),
                         FilterSelected(CatalogAlbums(artists[1..]), selected));
    }
  }

  lemma {:induction false} FilterSelectedOnlyCatalogIds(albums: seq<Album>, s1: seq<string>, s2: seq<string>)
    requires forall al :: al in albums ==> (al.id in s1 <==> al.id in s2)
    ensures FilterSelected(albums, s1) == FilterSelected(albums, s2)
    decreases |albums|
  {
    if |albums| > 0 {
      assert albums[0] in albums;
      assert forall al :: al in albums[1..] ==> al in albums;
      FilterSelectedOnlyCatalogIds(albums[1..], s1, s2);
    }
  }

  /** Only which catalog album ids are selected matters: the order and
      repetition of the selected ids, and ids of no catalog album, do not
      change the flattened tracks. */
  lemma FlattenDependsOnlyOnSelectedCatalogIds(artists: seq<Artist>, s1: seq<string>, s2: seq<string>)
    requires forall id :: id in CatalogAlbumIds(artists) ==> (id in s1 <==> id in s2)
    ensures TracksFromSelectedAlbums(artists, s1) == TracksFromSelectedAlbums(artists, s2)
  {
    var albums := CatalogAlbums(artists);
    forall al | al in albums
      ensures al.id in s1 <==> al.id in s2
    {
      var k :| 0 <= k < |albums| && albums[k] == al;
      assert CatalogAlbumIds(artists)[k] == al.id;
    }
    FilterSelectedOnlyCatalogIds(albums, s1, s2);
    FlattenIsSelectedAlbumsInOrder(artists, s1);
    FlattenIsSelectedAlbumsInOrder(artists, s2);
  }

  /** An id that names no catalog album adds nothing. */
  lemma FlattenIgnoresUnknownId(artists: seq<Artist>, selected: seq<string>, id: string)
    requires id !in CatalogAlbumIds(artists)
    ensures TracksFromSelectedAlbums(artists, selected + [id]) == TracksFromSelectedAlbums(artists, selected)
  {
    FlattenDependsOnlyOnSelectedCatalogIds(artists, selected + [id], selected);
  }

  lemma {:induction false} FilterSelectedAll(albums: seq<Album>, selected: seq<string>)
    requires forall al :: al in albums ==> al.id in selected
    ensures FilterSelected(albums, selected) == albums
    decreases |albums|
  {
    if |albums| > 0 {
      assert albums[0] in albums;
      assert forall al :: al in albums[1..] ==> al in albums;
      FilterSelectedAll(albums[1..], selected);
      assert albums == [albums[0]] + albums[1..];
    }
  }

  /** Selecting every catalog album id yields every track of the catalog. */
  lemma FlattenAllIsWholeCatalog(artists: seq<Artist>)
    ensures TracksFromSelectedAlbums(artists, CatalogAlbumIds(artists)) == ConcatTracks(CatalogAlbums(artists))
  {
    var albums := CatalogAlbums(artists);
    var ids := CatalogAlbumIds(artists);
    forall al | al in albums
      ensures al.id in ids
    {
      var k :| 0 <= k < |albums| && albums[k] == al;
      assert ids[k] == al.id;
    }
    FilterSelectedAll(albums, ids);
    FlattenIsSelectedAlbumsInOrder(artists, ids);
  }

  // ---------------------------------------------------------------------
  // Pick-N (getRandomItems)

  /** `order` lists each of the positions 0 .. n-1 exactly once. */
  predicate IsPermutation(order: seq<nat>, n: nat) {
    && |order| == n
    && (forall k :: 0 <= k < n ==> order[k] < n)
    && Distinct(order)
  }

  /** getRandomItems: the array sorted with a random comparator, then cut to
      `count` elements with `slice(0, count)`. The order the random sort
      produces is the oracle `order`: element `k` of the shuffle is
      `items[order[k]]`. The input itself is a value and is never changed. */
  function GetRandomItems<T>(items: seq<T>, count: int, order: seq<nat>): (r: seq<T>)
    requires IsPermutation(order, |items|)
    ensures |r| == Js.SliceEnd(|items|, count)
    ensures 0 <= count ==> |r| == if count < |items| then count else |items|
    ensures forall k :: 0 <= k < |r| ==> r[k] == items[order[k]]
    ensures forall x :: x in r ==> x in items
  {
    var shuffled := seq(|items|, k requires 0 <= k < |items| => items[order[k]]);
    shuffled[..Js.SliceEnd(|items|, count)]
  }

  /** The positions 0 .. n-1 as a set. */
  function Positions(n: nat): (s: set<nat>)
    ensures |s| == n
    ensures forall j: nat :: j in s <==> j < n
  {
    if n == 0 then {}
    else
      var s := Positions(n - 1);
      assert n - 1 !in s;
      s + {n - 1}
  }

  /** The first m entries of `order`, as a set. */
  function Image(order: seq<nat>, m: nat): set<nat>
    requires m <= |order|
  {
    if m == 0 then {}
    else Image(order, m - 1) + {order[m - 1]}
  }

  lemma {:induction false} InImage(order: seq<nat>, m: nat, j: nat)
    requires m <= |order|
    ensures j in Image(order, m) <==> exists k :: 0 <= k < m && order[k] == j
    decreases m
  {
    if m > 0 {
      InImage(order, m - 1, j);
    }
  }

  lemma {:induction false} ImageSize(order: seq<nat>, m: nat)
    requires m <= |order| && Distinct(order)
    ensures |Image(order, m)| == m
    decreases m
  {
    if m > 0 {
      ImageSize(order, m - 1);
      NextNotInImage(order, m - 1);
      AddNewElement(Image(order, m - 1), order[m - 1]);
    }
  }

  lemma AddNewElement(s: set<nat>, x: nat)
    requires x !in s
    ensures |s + {x}| == |s| + 1
  {
  }

  lemma NextNotInImage(order: seq<nat>, m: nat)
    requires m < |order| && Distinct(order)
    ensures order[m] !in Image(order, m)
  {
    InImage(order, m, order[m]);
    forall k | 0 <= k < m
      ensures order[k] != order[m]
    {
    }
  }

  /** Pigeonhole: a permutation of n positions hits every position. */
  lemma PermutationIsOnto(order: seq<nat>, n: nat, j: nat)
    requires IsPermutation(order, n) && j < n
    ensures exists k :: 0 <= k < n && order[k] == j
  {
    var img := Image(order, n);
    var all := Positions(n);
    ImageSize(order, n);
    forall x | x in img
      ensures x in all
    {
      InImage(order, n, x);
    }
    InImage(order, n, j);
    if j !in img {
      assert img <= all - {j};
      assert |all - {j}| == n - 1;
      SubsetSize(img, all - {j});
      assert false;
    }
  }

  lemma SubsetSize<T>(a: set<T>, b: set<T>)
    requires a <= b
    ensures |a| <= |b|
  {
    assert b == a + (b - a);
  }

  /** With `count` at least the array length the sampler is a shuffle: every
      item comes back, from its own distinct position. */
  lemma {:induction false} GetRandomItemsKeepsAll<T>(items: seq<T>, count: int, order: seq<nat>)
    requires IsPermutation(order, |items|) && count >= |items|
    ensures |GetRandomItems(items, count, order)| == |items|
    ensures forall x :: x in items ==> x in GetRandomItems(items, count, order)
  {
    var r := GetRandomItems(items, count, order);
    forall x | x in items
      ensures x in r
    {
      var j :| 0 <= j < |items| && items[j] == x;
      PermutationIsOnto(order, |items|, j);
      var k :| 0 <= k < |items| && order[k] == j;
      assert r[k] == x;
    }
  }

  // ---------------------------------------------------------------------
  // Excerpt start time (calculateStartTime)

  /** Tracks of at least this many seconds use the 40-60 % window. */
  const LongTrackSeconds := 180
  /** The fixed fallback window starts here ... */
  const DefaultMin := 90
  /** ... and ends here, or at 180 s minus the play length if that is earlier. */
  const DefaultMaxCap := 150

  /** `Math.floor(d * 0.4)`, exact for whole-second durations. */
  function WindowMin(d: int): int {
    (2 * d) / 5
  }

  /** `Math.min(Math.floor(d * 0.6), d - playDuration)`. */
  function WindowMax(d: int, playDuration: int): int {
    var max := (3 * d) / 5;
    if max < d - playDuration then max else d - playDuration
  }

  /** Whether calculateStartTime draws from the 40-60 % window of the track. */
  predicate UsesWindow(track: Track, playDuration: int) {
    && track.duration.Some?
    && track.duration.value >= LongTrackSeconds
    && WindowMax(track.duration.value, playDuration) > WindowMin(track.duration.value)
  }

  /** The last second the fallback window may return. */
  function DefaultMax(playDuration: int): int {
    if DefaultMaxCap < LongTrackSeconds - playDuration then DefaultMaxCap else LongTrackSeconds - playDuration
  }

  /** calculateStartTime with the draw `rand` of `Math.random()`. A long
      track starts inside its 40-60 % window early enough to play the whole
      excerpt; every other track starts inside the fixed 90 .. 150 window. */
  function CalculateStartTime(track: Track, playDuration: int, rand: real): (r: int)
    requires 0.0 <= rand < 1.0
    ensures UsesWindow(track, playDuration) ==>
      && WindowMin(track.duration.value) <= r <= WindowMax(track.duration.value, playDuration)
      && 2 * track.duration.value <= 5 * r + 4
      && 5 * r <= 3 * track.duration.value
      && r + playDuration <= track.duration.value
    ensures !UsesWindow(track, playDuration) && playDuration <= 90 ==>
      DefaultMin <= r <= DefaultMax(playDuration) <= DefaultMaxCap
    ensures !UsesWindow(track, playDuration) && playDuration > 90 ==>
      DefaultMax(playDuration) < r <= DefaultMin
  {
    if UsesWindow(track, playDuration) then
      var min := WindowMin(track.duration.value);
      var adjustedMax := WindowMax(track.duration.value, playDuration);
      Js.ScaledDraw(rand, adjustedMax - min + 1) + min
    else
      Js.ScaledDraw(rand, DefaultMax(playDuration) - DefaultMin + 1) + DefaultMin
  }

  /** With the 5-second excerpt the quiz uses, every track of 180 s or more
      takes the window branch, so its excerpt ends inside the track. */
  lemma FiveSecondExcerptFitsLongTracks(track: Track, rand: real)
    requires 0.0 <= rand < 1.0
    requires track.duration.Some? && track.duration.value >= LongTrackSeconds
    ensures UsesWindow(track, 5)
    ensures CalculateStartTime(track, 5, rand) + 5 <= track.duration.value
  {
    var d := track.duration.value;
    assert WindowMin(d) <= 2 * d / 5;
    assert (3 * d) / 5 > WindowMin(d);
  }

  /** A track shorter than 180 s falls back to the fixed window even when its
      duration is known, so the excerpt can start after the track has ended:
      a 62-second track with the draw 0.5 starts at second 120. */
  lemma ShortTrackStartsPastItsEnd()
    ensures CalculateStartTime(Track("t", "", "", Some(62)), 5, 0.5) == 120
  {
    var t := Track("t", "", "", Some(62));
    assert !UsesWindow(t, 5);
    assert DefaultMax(5) == 150;
    assert Js.ScaledDraw(0.5, 61) == 30;
  }

  /** A zero duration uses the fixed window: the draw 0.5 gives 120. */
  lemma ZeroDurationUsesDefaultWindow()
    ensures CalculateStartTime(Track("t", "", "", Some(0)), 5, 0.5) == 120
  {
    var t := Track("t", "", "", Some(0));
    assert !UsesWindow(t, 5);
    assert Js.ScaledDraw(0.5, 61) == 30;
  }

  /** An unknown duration with the draw 0 starts at the window's first second. */
  lemma UnknownDurationLowestDraw()
    ensures CalculateStartTime(Track("t", "", "", None), 5, 0.0) == 90
  {
    assert Js.ScaledDraw(0.0, 61) == 0;
  }

  /** A 228-second track: window [91, 136], so the draw 0.25 gives 91 + 11. */
  lemma LongTrackWindowExample()
    ensures CalculateStartTime(Track("t", "", "", Some(228)), 5, 0.25) == 102
  {
    var t := Track("t", "", "", Some(228));
    assert WindowMin(228) == 91 && WindowMax(228, 5) == 136;
    assert UsesWindow(t, 5);
    assert Js.ScaledDraw(0.25, 46) == 11;
  }

  // ---------------------------------------------------------------------
  // Question generation (generateQuizQuestions)

  /** The randomness the generator consumes. `shuffle(q, n)` is the order the
      random sort gives a pool of `n` tracks for question `q`; `draw(q, k)` is
      the `Math.random()` value behind the start time of slot `k` of
      question `q`. */
  datatype Rng = Rng(shuffle: (nat, nat) -> seq<nat>, draw: (nat, nat) -> real)

  ghost predicate ValidRng(rng: Rng) {
    && (forall q: nat, n: nat :: IsPermutation(rng.shuffle(q, n), n))
    && (forall q: nat, k: nat :: 0.0 <= rng.draw(q, k) < 1.0)
  }

  datatype QuizError = InsufficientTracks

  /** The excerpt length in seconds. */
  const ExcerptSeconds := 5

  /** `tracks.filter(track => !usedTrackIds.has(track.id))`. */
  function Unused(tracks: seq<Track>, used: set<string>): (r: seq<Track>)
    ensures |r| <= |tracks|
    ensures forall t :: t in r <==> t in tracks && t.id !in used
  {
    if |tracks| == 0 then []
    else (if tracks[0].id in used then [] else [tracks[0]]) + Unused(tracks[1..], used)
  }

  lemma {:induction false} UnusedKeepsDistinctIds(tracks: seq<Track>, used: set<string>)
    requires Distinct(TrackIds(tracks))
    ensures Distinct(TrackIds(Unused(tracks, used)))
    decreases |tracks|
  {
    if |tracks| > 0 {
      var rest := Unused(tracks[1..], used);
      assert Distinct(TrackIds(rest)) by {
        assert TrackIds(tracks[1..]) == TrackIds(tracks)[1..];
        UnusedKeepsDistinctIds(tracks[1..], used);
      }
      if tracks[0].id !in used {
        HeadIdNotLater(tracks, used);
        assert Unused(tracks, used) == [tracks[0]] + rest;
        ConsKeepsDistinctIds(tracks[0], rest);
      } else {
        assert Unused(tracks, used) == rest;
      }
    }
  }

  /** With distinct ids, the first track's id is not among the later
      tracks that are unused. */
  lemma HeadIdNotLater(tracks: seq<Track>, used: set<string>)
    requires |tracks| > 0 && Distinct(TrackIds(tracks))
    ensures forall t :: t in Unused(tracks[1..], used) ==> t.id != tracks[0].id
  {
    forall t | t in Unused(tracks[1..], used)
      ensures t.id != tracks[0].id
    {
      var j :| 0 <= j < |tracks[1..]| && tracks[1..][j] == t;
      assert TrackIds(tracks)[j + 1] == t.id;
    }
  }

  /** A track whose id the rest does not use keeps the ids distinct. */
  lemma ConsKeepsDistinctIds(t: Track, rest: seq<Track>)
    requires Distinct(TrackIds(rest))
    requires forall u :: u in rest ==> u.id != t.id
    ensures Distinct(TrackIds([t] + rest))
  {
    var r := [t] + rest;
    var ids := TrackIds(r);
    forall i, j | 0 <= i < j < |r|
      ensures ids[i] != ids[j]
    {
      if i == 0 {
        assert r[j] == rest[j - 1] && r[j] in rest;
      } else {
        assert TrackIds(rest)[i - 1] == ids[i] && TrackIds(rest)[j - 1] == ids[j];
      }
    }
  }

  /** The list the question's tracks are drawn from: the unused tracks, or,
      once fewer than three are unused, the unused tracks followed by all
      tracks again (the used set is cleared at that point). */
  function QuestionPool(tracks: seq<Track>, used: set<string>): (pool: seq<Track>)
    ensures forall t :: t in pool ==> t in tracks
    ensures |tracks| >= TracksPerQuestion ==> |pool| >= TracksPerQuestion
  {
    var available := Unused(tracks, used);
    if |available| < TracksPerQuestion then available + tracks else available
  }

  /** Whether the used set is cleared before this question. */
  predicate ResetsPool(tracks: seq<Track>, used: set<string>) {
    |Unused(tracks, used)| < TracksPerQuestion
  }

  /** What every generated question promises: question index `i` is numbered
      `i + 1`, holds three tracks of the input with the start time of slot
      `j` drawn for that very track, and starts unanswered and unrevealed. */
  predicate IsFreshQuestion(q: QuizQuestion, tracks: seq<Track>, rng: Rng, i: nat) {
    && q.IsTriple()
    && q.questionNumber == i + 1
    && q.correctAnswers == [] && !q.isAnswerRevealed
    && (forall t :: t in q.tracks ==> t in tracks)
    && (forall j :: 0 <= j < TracksPerQuestion ==>
          && 0.0 <= rng.draw(i, j) < 1.0
          && q.startTimes[j] == CalculateStartTime(q.tracks[j], ExcerptSeconds, rng.draw(i, j)))
  }

  /** The ids of a question's tracks, as a set. */
  function IdSet(ts: seq<Track>): set<string>
    requires |ts| == TracksPerQuestion
  {
    {ts[0].id, ts[1].id, ts[2].id}
  }

  /** One question and the used-id set after it. */
  datatype Step = Step(question: QuizQuestion, used: set<string>)

  /** One turn of the generation loop for question index `i`. */
  function GenerateQuestion(tracks: seq<Track>, rng: Rng, i: nat, used: set<string>): (s: Step)
    requires |tracks| >= TracksPerQuestion && ValidRng(rng)
    ensures IsFreshQuestion(s.question, tracks, rng, i)
    ensures var pool := QuestionPool(tracks, used);
      forall k :: 0 <= k < TracksPerQuestion ==>
        s.question.tracks[k] == pool[rng.shuffle(i, |pool|)[k]]
    ensures s.used == (if ResetsPool(tracks, used) then {} else used) + IdSet(s.question.tracks)
  {
    var pool := QuestionPool(tracks, used);
    var usedNow := if ResetsPool(tracks, used) then {} else used;
    var selected := GetRandomItems(pool, TracksPerQuestion, rng.shuffle(i, |pool|));
    var startTimes := [
      CalculateStartTime(selected[0], ExcerptSeconds, rng.draw(i, 0)),
      CalculateStartTime(selected[1], ExcerptSeconds, rng.draw(i, 1)),
      CalculateStartTime(selected[2], ExcerptSeconds, rng.draw(i, 2))];
    Step(QuizQuestion(i + 1, selected, startTimes, [], false),
         usedNow + IdSet(selected))
  }

  /** Questions `qs` are fresh questions for the indices `i`, `i + 1`, ... */
  predicate AllFreshFrom(qs: seq<QuizQuestion>, tracks: seq<Track>, rng: Rng, i: nat)
    decreases |qs|
  {
    |qs| == 0 || (IsFreshQuestion(qs[0], tracks, rng, i) && AllFreshFrom(qs[1..], tracks, rng, i + 1))
  }

  /** Question `k` of `qs` is a fresh question for index `k`. */
  predicate AllFresh(qs: seq<QuizQuestion>, tracks: seq<Track>, rng: Rng) {
    forall k :: 0 <= k < |qs| ==> IsFreshQuestion(qs[k], tracks, rng, k)
  }

  lemma {:induction false} AllFreshFromAt(qs: seq<QuizQuestion>, tracks: seq<Track>, rng: Rng, i: nat, k: nat)
    requires AllFreshFrom(qs, tracks, rng, i) && k < |qs|
    ensures IsFreshQuestion(qs[k], tracks, rng, i + k)
    decreases k
  {
    if k > 0 {
      AllFreshFromAt(qs[1..], tracks, rng, i + 1, k - 1);
      assert qs[1..][k - 1] == qs[k] && (i + 1) + (k - 1) == i + k;
    }
  }

  lemma AllFreshFromZero(qs: seq<QuizQuestion>, tracks: seq<Track>, rng: Rng)
    requires AllFreshFrom(qs, tracks, rng, 0)
    ensures AllFresh(qs, tracks, rng)
  {
    forall k | 0 <= k < |qs|
      ensures IsFreshQuestion(qs[k], tracks, rng, k)
    {
      AllFreshFromAt(qs, tracks, rng, 0, k);
    }
  }

  /** The generation loop from question index `i` on, threading the used-id set. */
  function GenerateFrom(tracks: seq<Track>, questionCount: int, rng: Rng, i: nat, used: set<string>)
    : (qs: seq<QuizQuestion>)
    requires |tracks| >= TracksPerQuestion && ValidRng(rng)
    ensures |qs| == if i < questionCount then questionCount - i else 0
    ensures AllFreshFrom(qs, tracks, rng, i)
    decreases questionCount - i
  {
    if i >= questionCount then []
    else
      var s := GenerateQuestion(tracks, rng, i, used);
      var rest := GenerateFrom(tracks, questionCount, rng, i + 1, s.used);
      assert ([s.question] + rest)[1..] == rest;
      [s.question] + rest
  }

  /** generateQuizQuestions: fails when fewer than three tracks are given,
      otherwise yields `questionCount` fresh questions numbered from 1. */
  function GenerateQuizQuestions(tracks: seq<Track>, questionCount: int, rng: Rng)
    : (r: Result<seq<QuizQuestion>, QuizError>)
    requires ValidRng(rng)
    ensures r.Failure? <==> |tracks| < TracksPerQuestion
    ensures r.Success? ==> |r.value| == if questionCount > 0 then questionCount else 0
    ensures r.Success? ==> AllFresh(r.value, tracks, rng)
  {
    if |tracks| < TracksPerQuestion then Failure(InsufficientTracks)
    else
      AllFreshFromZero(GenerateFrom(tracks, questionCount, rng, 0, {}), tracks, rng);
      Success(GenerateFrom(tracks, questionCount, rng, 0, {}))
  }

  // ---------------------------------------------------------------------
  // The pool rule of generateQuizQuestions

  /** While at least three tracks are unused, a question takes three tracks
      from three different positions of the unused list, none of them used
      before, and adds their ids to the used set. When the input tracks have
      distinct ids, so do the question's three tracks. */
  lemma FreshPoolPicksUnusedTracks(tracks: seq<Track>, rng: Rng, i: nat, used: set<string>)
    requires |tracks| >= TracksPerQuestion && ValidRng(rng)
    requires |Unused(tracks, used)| >= TracksPerQuestion
    ensures var s := GenerateQuestion(tracks, rng, i, used);
      var order := rng.shuffle(i, |Unused(tracks, used)|);
      && !ResetsPool(tracks, used)
      && (forall k :: 0 <= k < TracksPerQuestion ==>
            && order[k] < |Unused(tracks, used)|
            && s.question.tracks[k] == Unused(tracks, used)[order[k]])
      && Distinct(order[..TracksPerQuestion])
      && (forall t :: t in s.question.tracks ==> t.id !in used)
      && s.used == used + IdSet(s.question.tracks)
      && (Distinct(TrackIds(tracks)) ==> Distinct(TrackIds(s.question.tracks)))
  {
    FreshPoolPositions(tracks, rng, i, used);
    FreshPoolTracksUnused(tracks, rng, i, used);
    if Distinct(TrackIds(tracks)) {
      FreshPoolDistinctIds(tracks, rng, i, used);
    }
  }

  /** With a fresh pool the question's tracks sit at three different
      positions of the unused tracks. */
  lemma FreshPoolPositions(tracks: seq<Track>, rng: Rng, i: nat, used: set<string>)
    requires |tracks| >= TracksPerQuestion && ValidRng(rng)
    requires |Unused(tracks, used)| >= TracksPerQuestion
    ensures var s := GenerateQuestion(tracks, rng, i, used);
      var order := rng.shuffle(i, |Unused(tracks, used)|);
      && !ResetsPool(tracks, used)
      && QuestionPool(tracks, used) == Unused(tracks, used)
      && (forall k :: 0 <= k < TracksPerQuestion ==>
            && order[k] < |Unused(tracks, used)|
            && s.question.tracks[k] == Unused(tracks, used)[order[k]])
      && Distinct(order[..TracksPerQuestion])
      && s.used == used + IdSet(s.question.tracks)
  {
    var pool := Unused(tracks, used);
    assert IsPermutation(rng.shuffle(i, |pool|), |pool|);
  }

  lemma FreshPoolTracksUnused(tracks: seq<Track>, rng: Rng, i: nat, used: set<string>)
    requires |tracks| >= TracksPerQuestion && ValidRng(rng)
    requires |Unused(tracks, used)| >= TracksPerQuestion
    ensures forall t :: t in GenerateQuestion(tracks, rng, i, used).question.tracks ==> t.id !in used
  {
    var q := GenerateQuestion(tracks, rng, i, used).question;
    var pool := Unused(tracks, used);
    var order := rng.shuffle(i, |pool|);
    FreshPoolPositions(tracks, rng, i, used);
    forall t | t in q.tracks
      ensures t.id !in used
    {
      var k :| 0 <= k < |q.tracks| && q.tracks[k] == t;
      assert pool[order[k]] in pool;
    }
  }

  lemma FreshPoolDistinctIds(tracks: seq<Track>, rng: Rng, i: nat, used: set<string>)
    requires |tracks| >= TracksPerQuestion && ValidRng(rng)
    requires |Unused(tracks, used)| >= TracksPerQuestion
    requires Distinct(TrackIds(tracks))
    ensures Distinct(TrackIds(GenerateQuestion(tracks, rng, i, used).question.tracks))
  {
    var q := GenerateQuestion(tracks, rng, i, used).question;
    var pool := Unused(tracks, used);
    var order := rng.shuffle(i, |pool|);
    FreshPoolPositions(tracks, rng, i, used);
    UnusedKeepsDistinctIds(tracks, used);
    var ids := TrackIds(q.tracks);
    forall a, b | 0 <= a < b < TracksPerQuestion
      ensures ids[a] != ids[b]
    {
      assert order[a] != order[b];
      assert TrackIds(pool)[order[a]] == ids[a] && TrackIds(pool)[order[b]] == ids[b];
    }
  }

  /** Once fewer than three tracks are unused, the used set is cleared and
      the pool becomes the unused tracks followed by all tracks, so after the
      question the used set holds just that question's ids. */
  lemma ExhaustedPoolResets(tracks: seq<Track>, rng: Rng, i: nat, used: set<string>)
    requires |tracks| >= TracksPerQuestion && ValidRng(rng)
    requires |Unused(tracks, used)| < TracksPerQuestion
    ensures var s := GenerateQuestion(tracks, rng, i, used);
      && QuestionPool(tracks, used) == Unused(tracks, used) + tracks
      && s.used == IdSet(s.question.tracks)
  {
    assert ResetsPool(tracks, used);
  }

  /** The reset pool can hold a leftover track twice, so one question can
      repeat a track: with four tracks of which three are used, the pool is
      [d, a, b, c, d] and the order [0, 4, 1, ...] picks d twice. */
  lemma ResetPoolCanRepeatATrack(rng: Rng)
    requires ValidRng(rng)
    requires rng.shuffle(1, 5) == [0, 4, 1, 2, 3]
    ensures var a := Track("a", "", "", None);
      var b := Track("b", "", "", None);
      var c := Track("c", "", "", None);
      var d := Track("d", "", "", None);
      var q := GenerateQuestion([a, b, c, d], rng, 1, {"a", "b", "c"}).question;
      q.tracks == [d, d, a]
  {
    var used := {"a", "b", "c"};
    assert "a" in used && "b" in used && "c" in used && "d" !in used;
    ResetPoolRepeats(Track("a", "", "", None), Track("b", "", "", None),
      Track("c", "", "", None), Track("d", "", "", None), used, rng);
  }

  /** The same for any four tracks of which the first three are used. */
  lemma ResetPoolRepeats(a: Track, b: Track, c: Track, d: Track, used: set<string>, rng: Rng)
    requires ValidRng(rng)
    requires a.id in used && b.id in used && c.id in used && d.id !in used
    requires rng.shuffle(1, 5) == [0, 4, 1, 2, 3]
    ensures GenerateQuestion([a, b, c, d], rng, 1, used).question.tracks == [d, d, a]
  {
    var pool := [d, a, b, c, d];
    PoolOfOnlyLast(a, b, c, d, used);
    var q := GenerateQuestion([a, b, c, d], rng, 1, used).question;
    assert q.tracks[0] == pool[0] && q.tracks[1] == pool[4] && q.tracks[2] == pool[1];
  }

  lemma PoolOfOnlyLast(a: Track, b: Track, c: Track, d: Track, used: set<string>)
    requires a.id in used && b.id in used && c.id in used && d.id !in used
    ensures QuestionPool([a, b, c, d], used) == [d, a, b, c, d]
  {
    OnlyLastUnused(a, b, c, d, used);
  }

  lemma OnlyLastUnused(a: Track, b: Track, c: Track, d: Track, used: set<string>)
    requires a.id in used && b.id in used && c.id in used && d.id !in used
    ensures Unused([a, b, c, d], used) == [d]
  {
    assert Unused([d], used) == [d] by {
      assert [d][1..] == [];
    }
    assert Unused([c, d], used) == [d] by {
      assert [c, d][1..] == [d];
    }
    assert Unused([b, c, d], used) == [d] by {
      assert [b, c, d][1..] == [c, d];
    }
    assert [a, b, c, d][1..] == [b, c, d];
  }

  lemma {:induction false} UnusedOfNothing(tracks: seq<Track>)
    ensures Unused(tracks, {}) == tracks
    decreases |tracks|
  {
    if |tracks| > 0 {
      UnusedOfNothing(tracks[1..]);
      assert tracks == [tracks[0]] + tracks[1..];
    }
  }

  /** Whether every track of `tracks` is in the question. */
  predicate HasEveryTrack(q: QuizQuestion, tracks: seq<Track>) {
    forall t :: t in tracks ==> t in q.tracks
  }

  /** With exactly three tracks the pool is always the three tracks (first
      because nothing is used, afterwards because the pool resets), so each
      question holds all three and leaves every id used. */
  lemma ThreeTrackStep(tracks: seq<Track>, rng: Rng, i: nat, used: set<string>)
    requires |tracks| == TracksPerQuestion && ValidRng(rng)
    requires used == {} || used == IdSet(tracks)
    ensures var s := GenerateQuestion(tracks, rng, i, used);
      HasEveryTrack(s.question, tracks) && s.used == IdSet(tracks)
  {
    var s := GenerateQuestion(tracks, rng, i, used);
    ThreeTrackPool(tracks, used);
    var order := rng.shuffle(i, 3);
    assert IsPermutation(order, 3);
    PickAllThree(tracks, order, s.question.tracks);
    IdSetOfSameTracks(s.question.tracks, tracks);
  }

  /** When every track's id is already used, nothing is left over. */
  lemma {:induction false} UnusedOfAllUsed(tracks: seq<Track>, used: set<string>)
    requires forall t :: t in tracks ==> t.id in used
    ensures Unused(tracks, used) == []
  {
    if |tracks| > 0 {
      UnusedOfAllUsed(tracks[1..], used);
    }
  }

  /** With three tracks and nothing or everything used, the pool is the
      three tracks themselves. */
  lemma ThreeTrackPool(tracks: seq<Track>, used: set<string>)
    requires |tracks| == TracksPerQuestion
    requires used == {} || used == IdSet(tracks)
    ensures QuestionPool(tracks, used) == tracks
  {
    if used == {} {
      UnusedOfNothing(tracks);
    } else {
      assert forall t :: t in tracks ==> t.id in used by {
        assert forall t :: t in tracks ==> t == tracks[0] || t == tracks[1] || t == tracks[2];
      }
      UnusedOfAllUsed(tracks, used);
      assert [] + tracks == tracks;
    }
  }

  lemma PickAllThree(tracks: seq<Track>, order: seq<nat>, picked: seq<Track>)
    requires |tracks| == TracksPerQuestion && IsPermutation(order, TracksPerQuestion)
    requires |picked| == TracksPerQuestion
    requires forall k :: 0 <= k < TracksPerQuestion ==> picked[k] == tracks[order[k]]
    ensures forall t :: t in tracks ==> t in picked
  {
    forall t | t in tracks
      ensures t in picked
    {
      var j :| 0 <= j < 3 && tracks[j] == t;
      PermutationIsOnto(order, 3, j);
      var k :| 0 <= k < 3 && order[k] == j;
      assert picked[k] == t;
    }
  }

  lemma IdSetOfSameTracks(a: seq<Track>, b: seq<Track>)
    requires |a| == TracksPerQuestion && |b| == TracksPerQuestion
    requires forall t :: t in a ==> t in b
    requires forall t :: t in b ==> t in a
    ensures IdSet(a) == IdSet(b)
  {
    assert a[0] in b && a[1] in b && a[2] in b;
    assert b[0] in a && b[1] in a && b[2] in a;
  }

  /** Every question of `qs` holds every track of `tracks`. */
  predicate EachHasEveryTrack(qs: seq<QuizQuestion>, tracks: seq<Track>) {
    forall k :: 0 <= k < |qs| ==> HasEveryTrack(qs[k], tracks)
  }

  lemma ConsHasEveryTrack(q: QuizQuestion, rest: seq<QuizQuestion>, tracks: seq<Track>)
    requires HasEveryTrack(q, tracks) && EachHasEveryTrack(rest, tracks)
    ensures EachHasEveryTrack([q] + rest, tracks)
  {
    forall k | 0 <= k < |[q] + rest|
      ensures HasEveryTrack(([q] + rest)[k], tracks)
    {
      if k > 0 {
        assert ([q] + rest)[k] == rest[k - 1];
      }
    }
  }

  lemma {:induction false} ThreeTracksFrom(tracks: seq<Track>, questionCount: int, rng: Rng, i: nat, used: set<string>)
    requires |tracks| == TracksPerQuestion && ValidRng(rng)
    requires used == {} || used == IdSet(tracks)
    ensures EachHasEveryTrack(GenerateFrom(tracks, questionCount, rng, i, used), tracks)
    decreases questionCount - i
  {
    if i < questionCount {
      var s := GenerateQuestion(tracks, rng, i, used);
      ThreeTrackStep(tracks, rng, i, used);
      ThreeTracksFrom(tracks, questionCount, rng, i + 1, s.used);
      var rest := GenerateFrom(tracks, questionCount, rng, i + 1, s.used);
      ConsHasEveryTrack(s.question, rest, tracks);
    }
  }

  /** Dropping an id that no track has from the used set changes nothing. */
  lemma {:induction false} UnusedIgnoresOtherId(tracks: seq<Track>, used: set<string>, x: string)
    requires forall t :: t in tracks ==> t.id != x
    ensures Unused(tracks, used - {x}) == Unused(tracks, used)
    decreases |tracks|
  {
    if |tracks| > 0 {
      UnusedIgnoresOtherId(tracks[1..], used, x);
    }
  }

  /** With distinct ids, each used id rules out at most one track. */
  lemma {:induction false} UnusedAtLeast(tracks: seq<Track>, used: set<string>)
    requires Distinct(TrackIds(tracks))
    ensures |Unused(tracks, used)| >= |tracks| - |used|
    decreases |tracks|
  {
    if |tracks| > 0 {
      var x := tracks[0].id;
      assert Distinct(TrackIds(tracks[1..])) by {
        assert TrackIds(tracks[1..]) == TrackIds(tracks)[1..];
      }
      if x in used {
        forall t | t in tracks[1..]
          ensures t.id != x
        {
          var j :| 0 <= j < |tracks[1..]| && tracks[1..][j] == t;
          assert TrackIds(tracks)[j + 1] == t.id && TrackIds(tracks)[0] == x;
        }
        UnusedIgnoresOtherId(tracks[1..], used, x);
        UnusedAtLeast(tracks[1..], used - {x});
      } else {
        UnusedAtLeast(tracks[1..], used);
      }
    }
  }

  /** The loop's first turn, and the turns after it with the used set the
      first turn leaves. */
  lemma GenerateFromHead(tracks: seq<Track>, questionCount: int, rng: Rng, i: nat, used: set<string>)
    requires |tracks| >= TracksPerQuestion && ValidRng(rng) && i < questionCount
    ensures var s := GenerateQuestion(tracks, rng, i, used);
      var qs := GenerateFrom(tracks, questionCount, rng, i, used);
      qs[0] == s.question && qs[1..] == GenerateFrom(tracks, questionCount, rng, i + 1, s.used)
  {
  }

  /** With six or more tracks of distinct ids, the first two questions of a
      quiz each hold three different tracks, and the second repeats none of
      the first's: the used set threaded from the first turn to the second
      keeps them apart. */
  lemma FirstTwoQuestionsShareNoTrack(tracks: seq<Track>, questionCount: int, rng: Rng)
    requires ValidRng(rng) && Distinct(TrackIds(tracks))
    requires |tracks| >= 2 * TracksPerQuestion && questionCount >= 2
    ensures var r := GenerateQuizQuestions(tracks, questionCount, rng);
      && r.Success? && |r.value| >= 2
      && Distinct(TrackIds(r.value[0].tracks)) && Distinct(TrackIds(r.value[1].tracks))
      && forall t :: t in r.value[1].tracks ==> t.id !in IdSet(r.value[0].tracks)
  {
    var s0 := GenerateQuestion(tracks, rng, 0, {});
    FirstTurn(tracks, rng);
    SecondTurn(tracks, rng, s0.used);
    GenerateFromHead(tracks, questionCount, rng, 0, {});
    GenerateFromHead(tracks, questionCount, rng, 1, s0.used);
    var qs := GenerateFrom(tracks, questionCount, rng, 0, {});
    assert qs[1] == qs[1..][0];
  }

  /** The first turn starts from an empty used set: three different tracks,
      whose ids make up the used set afterwards. */
  lemma FirstTurn(tracks: seq<Track>, rng: Rng)
    requires ValidRng(rng) && Distinct(TrackIds(tracks)) && |tracks| >= TracksPerQuestion
    ensures var s := GenerateQuestion(tracks, rng, 0, {});
      && Distinct(TrackIds(s.question.tracks))
      && s.used == IdSet(s.question.tracks)
      && |s.used| <= TracksPerQuestion
  {
    UnusedOfNothing(tracks);
    FreshPoolPicksUnusedTracks(tracks, rng, 0, {});
  }

  /** A later turn, with at most three ids used out of six or more distinct
      tracks, still draws from unused tracks only. */
  lemma SecondTurn(tracks: seq<Track>, rng: Rng, used: set<string>)
    requires ValidRng(rng) && Distinct(TrackIds(tracks))
    requires |tracks| >= 2 * TracksPerQuestion && |used| <= TracksPerQuestion
    ensures var s := GenerateQuestion(tracks, rng, 1, used);
      && Distinct(TrackIds(s.question.tracks))
      && forall t :: t in s.question.tracks ==> t.id !in used
  {
    UnusedAtLeast(tracks, used);
    FreshPoolPicksUnusedTracks(tracks, rng, 1, used);
  }

  /** With exactly three tracks every question contains all three. */
  lemma ThreeTracksEveryQuestionHasAll(tracks: seq<Track>, questionCount: int, rng: Rng)
    requires |tracks| == TracksPerQuestion && ValidRng(rng)
    ensures GenerateQuizQuestions(tracks, questionCount, rng).Success?
    ensures EachHasEveryTrack(GenerateQuizQuestions(tracks, questionCount, rng).value, tracks)
  {
    ThreeTracksFrom(tracks, questionCount, rng, 0, {});
    assert GenerateQuizQuestions(tracks, questionCount, rng).value == GenerateFrom(tracks, questionCount, rng, 0, {});
  }
}
