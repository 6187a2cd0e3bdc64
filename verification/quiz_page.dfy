/** The quiz page: it reads the album ids from its own address, through
    `URLSearchParams`, and hands them to the quiz screen. */
module QuizPage {
  import opened Wrappers
  import Js
  import Url
  import SongsApi

  /** `getSelectedAlbumIds(useSearchParams())` on the page at `url`. */
  function AlbumIdsFromUrl(url: string): (ids: seq<string>)
    ensures Url.SearchParamsGet(Url.Query(url), SongsApi.ParamName).None? ==> ids == []
    ensures forall k :: 0 <= k < |ids| ==> SongsApi.Separator !in ids[k] && !Js.IsBlank(ids[k])
  {
    SongsApi.GetSelectedAlbumIds(Url.SearchParamsGet(Url.Query(url), SongsApi.ParamName))
  }

  /** The query of `/quiz?<rest>` is `rest` when it holds no fragment. */
  lemma QuizQuery(rest: string)
    requires '#' !in rest
    ensures Url.Query("/quiz?" + rest) == rest
  {
    Url.QueryAfterMark("/quiz", rest);
    assert "/quiz" + "?" == "/quiz?";
  }

  /** The page at `/quiz?albums=<v>` reads the ids of `v` itself, as long as
      `v` holds nothing the URL parser cuts at or decodes. */
  lemma ReadsQueryValue(v: string)
    requires Url.Verbatim(v)
    ensures AlbumIdsFromUrl("/quiz?" + SongsApi.ParamPrefix + v) == SongsApi.GetSelectedAlbumIds(Some(v))
  {
    QueryOfQuizUrl(v);
    AlbumsOfQuery(v);
  }

  lemma QueryOfQuizUrl(v: string)
    requires '#' !in v
    ensures Url.Query("/quiz?" + SongsApi.ParamPrefix + v) == SongsApi.ParamPrefix + v
  {
    QuizQuery(SongsApi.ParamPrefix + v);
    Js.AppendAssoc("/quiz?", SongsApi.ParamPrefix, v);
  }

  lemma AlbumsOfQuery(v: string)
    requires Url.Verbatim(v)
    ensures Url.SearchParamsGet(SongsApi.ParamPrefix + v, SongsApi.ParamName) == Some(v)
  {
    Url.SinglePair(SongsApi.ParamName, v);
  }

  /** A value holding `&` is cut there: the page at
      `/quiz?albums=<a>&<b>` reads the ids of `a` alone. */
  lemma AmpersandCutsValue(a: string, b: string)
    requires Url.Verbatim(a)
    requires '#' !in b
    ensures AlbumIdsFromUrl("/quiz?" + SongsApi.ParamPrefix + a + "&" + b) == SongsApi.GetSelectedAlbumIds(Some(a))
  {
    QueryOfQuizUrl(a + "&" + b);
    Js.AppendAssoc("/quiz?" + SongsApi.ParamPrefix, a + "&", b);
    Js.AppendAssoc("/quiz?" + SongsApi.ParamPrefix, a, "&");
    AlbumsOfCutQuery(a, b);
  }

  lemma AlbumsOfCutQuery(a: string, b: string)
    requires Url.Verbatim(a)
    ensures Url.SearchParamsGet(SongsApi.ParamPrefix + (a + "&" + b), SongsApi.ParamName) == Some(a)
  {
    Url.FirstPairWins(SongsApi.ParamName, a, b);
    Js.AppendAssoc(SongsApi.ParamPrefix, a + "&", b);
    Js.AppendAssoc(SongsApi.ParamPrefix, a, "&");
  }
}
