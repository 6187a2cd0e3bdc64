/** The album selection page: the initial selection, the summary shown
    under it, and the links it follows to the quiz and back to itself. */
module SelectAlbumsPage {
  import opened Wrappers
  import opened Types
  import QuizUtils
  import SongsApi
  import Js
  import QuizContainer
  import QuizPage
  import Url

  /** `artists.flatMap(artist => artist.albums.filter(album => selected.includes(album.id)))`. */
  function SelectedAlbums(artists: seq<Artist>, selected: seq<string>): (albums: seq<Album>)
    ensures forall al :: al in albums <==> al in CatalogAlbums(artists) && al.id in selected
  {
    if |artists| == 0 then []
    else
      var rest := SelectedAlbums(artists[1..], selected);
      assert forall al :: al in CatalogAlbums(artists) <==>
        al in artists[0].albums || al in CatalogAlbums(artists[1..]);
      QuizUtils.FilterSelected(artists[0].albums, selected) + rest
  }

  /** Filtering artist by artist is filtering the catalog's album list. */
  lemma {:induction false} SelectedAlbumsInCatalogOrder(artists: seq<Artist>, selected: seq<string>)
    ensures SelectedAlbums(artists, selected) == QuizUtils.FilterSelected(CatalogAlbums(artists), selected)
    decreases |artists|
  {
    if |artists| > 0 {
      SelectedAlbumsInCatalogOrder(artists[1..], selected);
      QuizUtils.FilterSelectedAppend(artists[0].albums, CatalogAlbums(artists[1..]), selected);
    }
  }

  /** `albums.reduce((sum, album) => sum + album.tracks.length, 0)`. */
  function TrackTotal(albums: seq<Album>): nat {
    if |albums| == 0 then 0 else |albums[0].tracks| + TrackTotal(albums[1..])
  }

  /** Adding up the track counts counts the concatenated tracks. */
  lemma {:induction false} TrackTotalCountsTracks(albums: seq<Album>)
    ensures TrackTotal(albums) == |QuizUtils.ConcatTracks(albums)|
    decreases |albums|
  {
    if |albums| > 0 {
      TrackTotalCountsTracks(albums[1..]);
    }
  }

  datatype AlbumsInfo = AlbumsInfo(albumCount: int, trackCount: int)

  /** getSelectedAlbumsInfo: zero before the catalog has loaded or with
      nothing selected; otherwise the number of selected catalog albums and
      the number of tracks the quiz would draw from. */
  function GetSelectedAlbumsInfo(catalog: Option<seq<Artist>>, selected: seq<string>): (info: AlbumsInfo)
    ensures catalog.None? || |selected| == 0 ==> info == AlbumsInfo(0, 0)
    ensures catalog.Some? ==>
      && info.albumCount == |QuizUtils.FilterSelected(CatalogAlbums(catalog.value), selected)|
      && info.albumCount <= |CatalogAlbums(catalog.value)|
      && info.trackCount == |QuizUtils.TracksFromSelectedAlbums(catalog.value, selected)|
  {
    match catalog
    case None => AlbumsInfo(0, 0)
    case Some(artists) =>
      if |selected| == 0 then AlbumsInfo(0, 0)
      else
        var albums := SelectedAlbums(artists, selected);
        SelectedAlbumsInCatalogOrder(artists, selected);
        TrackTotalCountsTracks(albums);
        QuizUtils.FlattenIsSelectedAlbumsInOrder(artists, selected);
        AlbumsInfo(|albums|, TrackTotal(albums))
  }

  /** The selection the page starts with: the ids the `albums` parameter
      names, or every catalog album id when it names none. */
  function InitialSelection(artists: seq<Artist>, albumsParam: Option<string>): (selected: seq<string>)
    ensures |SongsApi.GetSelectedAlbumIds(albumsParam)| == 0 ==> selected == CatalogAlbumIds(artists)
    ensures |SongsApi.GetSelectedAlbumIds(albumsParam)| > 0 ==> selected == SongsApi.GetSelectedAlbumIds(albumsParam)
  {
    var urlAlbumIds := SongsApi.GetSelectedAlbumIds(albumsParam);
    if |urlAlbumIds| == 0 then CatalogAlbumIds(artists) else urlAlbumIds
  }

  /** Without a usable `albums` parameter the whole catalog is in play, and
      the summary counts every album and every track. */
  lemma NoParamSelectsWholeCatalog(artists: seq<Artist>, albumsParam: Option<string>)
    requires |SongsApi.GetSelectedAlbumIds(albumsParam)| == 0
    ensures QuizUtils.TracksFromSelectedAlbums(artists, InitialSelection(artists, albumsParam))
      == QuizUtils.ConcatTracks(CatalogAlbums(artists))
    ensures |CatalogAlbums(artists)| > 0 ==>
      GetSelectedAlbumsInfo(Some(artists), InitialSelection(artists, albumsParam))
        == AlbumsInfo(|CatalogAlbums(artists)|, |QuizUtils.ConcatTracks(CatalogAlbums(artists))|)
  {
    var ids := CatalogAlbumIds(artists);
    QuizUtils.FlattenAllIsWholeCatalog(artists);
    var albums := CatalogAlbums(artists);
    forall al | al in albums
      ensures al.id in ids
    {
      var k :| 0 <= k < |albums| && albums[k] == al;
      assert ids[k] == al.id;
    }
    QuizUtils.FilterSelectedAll(albums, ids);
  }

  /** What the start button does. */
  datatype StartResult = RefuseEmptySelection | NotLoaded | GoToQuiz(url: string)

  /** handleStartQuiz: an empty selection is refused with a message; before
      the catalog has loaded nothing happens; otherwise the quiz page is
      opened with the selection in its query string. */
  function HandleStartQuiz(catalogLoaded: bool, selected: seq<string>): (r: StartResult)
    ensures r == RefuseEmptySelection <==> |selected| == 0
    ensures r.GoToQuiz? <==> |selected| > 0 && catalogLoaded
    ensures r.GoToQuiz? ==>
      var prefix := "/quiz?" + SongsApi.ParamPrefix;
      |prefix| <= |r.url| && r.url[..|prefix|] == prefix
  {
    if |selected| == 0 then RefuseEmptySelection
    else if !catalogLoaded then NotLoaded
    else
      var queryParam := SongsApi.CreateAlbumsQueryParam(selected);
      GoToQuiz(if queryParam == "" then "/quiz" else "/quiz?" + queryParam)
  }

  /** The `albums` value the start button writes reads back as exactly the
      selection, provided the ids hold no commas and no blanks. How the quiz
      page gets that value out of its address is `QuizPageReadsSelection`. */
  lemma StartQuizHandsOverSelection(selected: seq<string>)
    requires |selected| > 0
    requires forall k :: 0 <= k < |selected| ==>
      SongsApi.Separator !in selected[k] && !Js.IsBlank(selected[k])
    ensures var r := HandleStartQuiz(true, selected);
      var value := r.url[|"/quiz?" + SongsApi.ParamPrefix|..];
      && SongsApi.GetSelectedAlbumIds(Some(value)) == selected
  {
    var q := SongsApi.CreateAlbumsQueryParam(selected);
    var url := HandleStartQuiz(true, selected).url;
    assert url == "/quiz?" + q;
    assert url[|"/quiz?" + SongsApi.ParamPrefix|..] == SongsApi.ParamValue(q);
    SongsApi.QueryRoundTrip(selected);
  }

  /** The address the start button opens for a loaded catalog. */
  lemma StartUrl(selected: seq<string>)
    requires |selected| > 0
    ensures HandleStartQuiz(true, selected).url
      == "/quiz?" + SongsApi.ParamPrefix + Js.Join(selected, SongsApi.Separator)
  {
    var q := SongsApi.CreateAlbumsQueryParam(selected);
    var v := Js.Join(selected, SongsApi.Separator);
    assert q == SongsApi.ParamPrefix + v;
    assert HandleStartQuiz(true, selected).url == "/quiz?" + q;
    Js.AppendAssoc("/quiz?", SongsApi.ParamPrefix, v);
  }

  /** The quiz page, reading its own address through `URLSearchParams`,
      gets exactly the selection, provided no id holds a comma, is blank, or
      holds a character the URL parser cuts at or decodes. */
  lemma QuizPageReadsSelection(selected: seq<string>)
    requires |selected| > 0
    requires forall k :: 0 <= k < |selected| ==>
      SongsApi.Separator !in selected[k] && !Js.IsBlank(selected[k]) && Url.Verbatim(selected[k])
    ensures QuizPage.AlbumIdsFromUrl(HandleStartQuiz(true, selected).url) == selected
  {
    var v := Js.Join(selected, SongsApi.Separator);
    Js.JoinAvoids(selected, SongsApi.Separator, '#');
    Js.JoinAvoids(selected, SongsApi.Separator, '&');
    Js.JoinAvoids(selected, SongsApi.Separator, '+');
    Js.JoinAvoids(selected, SongsApi.Separator, '%');
    StartUrl(selected);
    QuizPage.ReadsQueryValue(v);
    SongsApi.QueryRoundTrip(selected);
    assert SongsApi.ParamValue(SongsApi.CreateAlbumsQueryParam(selected)) == v;
  }

  /** A selection the start button accepts, with ids the address carries
      unchanged, never trips the quiz screen's empty-selection error. */
  lemma StartedQuizHasAlbums(selected: seq<string>, artists: seq<Artist>, rng: QuizUtils.Rng)
    requires QuizUtils.ValidRng(rng)
    requires HandleStartQuiz(true, selected).GoToQuiz?
    requires forall k :: 0 <= k < |selected| ==>
      SongsApi.Separator !in selected[k] && !Js.IsBlank(selected[k]) && Url.Verbatim(selected[k])
    ensures var ids := QuizPage.AlbumIdsFromUrl(HandleStartQuiz(true, selected).url);
      QuizContainer.InitializeQuiz(ids, artists, rng) != Failure(QuizContainer.NoAlbumsSelected)
  {
    QuizPageReadsSelection(selected);
  }

  /** The start button only checks that the list is not empty: a selection
      holding the single id `,` is accepted, yet the quiz page reads no id
      from `/quiz?albums=,` and reports an empty selection. */
  lemma CommaIdStartsEmptyQuiz(artists: seq<Artist>, rng: QuizUtils.Rng)
    requires QuizUtils.ValidRng(rng)
    ensures HandleStartQuiz(true, [","]).GoToQuiz?
    ensures var ids := QuizPage.AlbumIdsFromUrl(HandleStartQuiz(true, [","]).url);
      && ids == []
      && QuizContainer.InitializeQuiz(ids, artists, rng) == Failure(QuizContainer.NoAlbumsSelected)
  {
    assert HandleStartQuiz(true, [","]).url == "/quiz?" + SongsApi.ParamPrefix + ",";
    QuizPage.ReadsQueryValue(",");
    SongsApi.ParseCommaExample();
  }

  /** The query is written without escaping: an id `<a>&<b>` reaches the
      quiz page as `<a>` alone. */
  lemma AmpersandIdIsCut(a: string, b: string)
    requires SongsApi.Separator !in a && !Js.IsBlank(a) && Url.Verbatim(a)
    requires '#' !in b
    ensures HandleStartQuiz(true, [a + "&" + b]).GoToQuiz?
    ensures QuizPage.AlbumIdsFromUrl(HandleStartQuiz(true, [a + "&" + b]).url) == [a]
  {
    StartUrl([a + "&" + b]);
    assert Js.Join([a + "&" + b], SongsApi.Separator) == a + "&" + b;
    Js.AppendAssoc("/quiz?" + SongsApi.ParamPrefix, a, "&" + b);
    Js.AppendAssoc("/quiz?" + SongsApi.ParamPrefix + a, "&", b);
    Js.AppendAssoc(a, "&", b);
    QuizPage.AmpersandCutsValue(a, b);
    SongsApi.SingleId(a);
  }

  /** The address the page moves to when the selection changes: `/` for no
      ids, otherwise `/?albums=...`. */
  function SelectionUrl(albumIds: seq<string>): (url: string)
    ensures |albumIds| == 0 <==> url == "/"
  {
    var queryParam := SongsApi.CreateAlbumsQueryParam(albumIds);
    if queryParam == "" then "/" else "/?" + queryParam
  }

  /** The selection the page reads back, through `URLSearchParams`, once
      the address has moved to `url`. */
  function ReloadedSelection(artists: seq<Artist>, url: string): seq<string> {
    InitialSelection(artists, Url.SearchParamsGet(Url.Query(url), SongsApi.ParamName))
  }

  /** Moving to `SelectionUrl(ids)` re-runs the page's loading effect: ids
      the address carries unchanged are read back as they are, and an empty
      selection turns into the whole catalog. */
  lemma SelectionUrlReloads(artists: seq<Artist>, ids: seq<string>)
    requires forall k :: 0 <= k < |ids| ==>
      SongsApi.Separator !in ids[k] && !Js.IsBlank(ids[k]) && Url.Verbatim(ids[k])
    ensures |ids| == 0 ==> ReloadedSelection(artists, SelectionUrl(ids)) == CatalogAlbumIds(artists)
    ensures |ids| > 0 ==> ReloadedSelection(artists, SelectionUrl(ids)) == ids
  {
    if |ids| == 0 {
      assert Url.Query("/") == "";
    } else {
      var v := Js.Join(ids, SongsApi.Separator);
      Js.JoinAvoids(ids, SongsApi.Separator, '#');
      Js.JoinAvoids(ids, SongsApi.Separator, '&');
      Js.JoinAvoids(ids, SongsApi.Separator, '+');
      Js.JoinAvoids(ids, SongsApi.Separator, '%');
      assert SelectionUrl(ids) == "/" + "?" + (SongsApi.ParamPrefix + v);
      Url.QueryAfterMark("/", SongsApi.ParamPrefix + v);
      QuizPage.AlbumsOfQuery(v);
      SongsApi.QueryRoundTrip(ids);
      assert SongsApi.ParamValue(SongsApi.CreateAlbumsQueryParam(ids)) == v;
    }
  }
}
