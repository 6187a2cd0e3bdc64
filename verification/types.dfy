/** The catalog and quiz records of the application. Durations are whole
    seconds; an absent duration is `None`. */
module Types {
  import opened Wrappers

  /** Every question plays exactly this many tracks at once. */
  const TracksPerQuestion := 3

  datatype Track = Track(id: string, title: string, youtubeUrl: string, duration: Option<int>)

  datatype Album = Album(id: string, name: string, jacketUrl: string, tracks: seq<Track>)

  datatype Artist = Artist(id: string, name: string, albums: seq<Album>)

  /** One question: three tracks played together, the start second of each
      (position `k` of `startTimes` belongs to position `k` of `tracks`), the
      ids guessed correctly so far in guessing order, and whether the answer
      has been shown. */
  datatype QuizQuestion = QuizQuestion(
    questionNumber: int,
    tracks: seq<Track>,
    startTimes: seq<int>,
    correctAnswers: seq<string>,
    isAnswerRevealed: bool)
  {
    /** The record type fixes three tracks and three start times. */
    predicate IsTriple() {
      |tracks| == TracksPerQuestion && |startTimes| == TracksPerQuestion
    }
  }

  /** Every question of a list has the shape its record type fixes. */
  predicate AllTriples(qs: seq<QuizQuestion>) {
    forall k :: 0 <= k < |qs| ==> qs[k].IsTriple()
  }

  /** The ids of a list of tracks, position by position. */
  function TrackIds(ts: seq<Track>): (ids: seq<string>)
    ensures |ids| == |ts|
    ensures forall k :: 0 <= k < |ts| ==> ids[k] == ts[k].id
  {
    seq(|ts|, k requires 0 <= k < |ts| => ts[k].id)
  }

  /** No value occurs at two positions. */
  predicate Distinct<T(==)>(s: seq<T>) {
    forall i, j :: 0 <= i < j < |s| ==> s[i] != s[j]
  }

  /** Every album of the catalog, artist by artist and, within an artist, in
      album order. */
  function CatalogAlbums(artists: seq<Artist>): (albums: seq<Album>)
    ensures forall al :: al in albums <==> exists ar :: ar in artists && al in ar.albums
  {
    if |artists| == 0 then []
    else
      var rest := CatalogAlbums(artists[1..]);
      assert forall ar :: ar in artists[1..] ==> ar in artists;
      assert forall ar :: ar in artists ==> ar == artists[0] || ar in artists[1..];
      artists[0].albums + rest
  }

  /** The ids of every catalog album in catalog order: the value of
      `artists.flatMap(artist => artist.albums.map(album => album.id))`. */
  function CatalogAlbumIds(artists: seq<Artist>): (ids: seq<string>)
    ensures |ids| == |CatalogAlbums(artists)|
    ensures forall k :: 0 <= k < |ids| ==> ids[k] == CatalogAlbums(artists)[k].id
  {
    var albums := CatalogAlbums(artists);
    seq(|albums|, k requires 0 <= k < |albums| => albums[k].id)
  }
}
