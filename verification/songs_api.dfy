/** The `albums` query parameter that carries the chosen album ids between
    pages: a comma-separated list. Parsing works on the parameter's value as
    `URLSearchParams.get` returns it (`None` when the parameter is absent). */
module SongsApi {
  import opened Wrappers
  import Js

  const Separator := ','
  /** The query parameter's name, and how a query string built here starts. */
  const ParamName := "albums"
  const ParamPrefix := ParamName + "="

  /** The pieces that are not blank, in their original order and untrimmed. */
  function DropBlank(pieces: seq<string>): (r: seq<string>)
    ensures |r| <= |pieces|
    ensures forall x :: x in r <==> x in pieces && !Js.IsBlank(x)
  {
    if |pieces| == 0 then []
    else (if Js.IsBlank(pieces[0]) then [] else [pieces[0]]) + DropBlank(pieces[1..])
  }

  /** Dropping blanks distributes over concatenation, so the kept pieces
      stay in their order and keep their repeats. */
  lemma {:induction false} DropBlankAppend(a: seq<string>, b: seq<string>)
    ensures DropBlank(a + b) == DropBlank(a) + DropBlank(b)
    decreases |a|
  {
    if |a| > 0 {
      var head := if Js.IsBlank(a[0]) then [] else [a[0]];
      assert (a + b)[0] == a[0] && (a + b)[1..] == a[1..] + b;
      assert DropBlank(a + b) == head + DropBlank(a[1..] + b);
      assert DropBlank(a) == head + DropBlank(a[1..]);
      DropBlankAppend(a[1..], b);
      assert head + (DropBlank(a[1..]) + DropBlank(b)) == (head + DropBlank(a[1..])) + DropBlank(b);
    } else {
      assert a + b == b;
      assert DropBlank(a) == [];
    }
  }

  /** A single piece is kept exactly when it is not blank. */
  lemma DropBlankSingle(x: string)
    ensures DropBlank([x]) == if Js.IsBlank(x) then [] else [x]
  {
    assert [x][1..] == [];
  }

  /** A value without commas that is not blank names one id: itself. */
  lemma SingleId(v: string)
    requires Separator !in v && !Js.IsBlank(v)
    ensures GetSelectedAlbumIds(Some(v)) == [v]
  {
    Js.SplitWithoutSeparator(v, Separator);
    DropBlankSingle(v);
  }

  /** Nothing is dropped from a list without blank pieces. */
  lemma {:induction false} DropBlankKeepsNonBlank(pieces: seq<string>)
    requires forall k :: 0 <= k < |pieces| ==> !Js.IsBlank(pieces[k])
    ensures DropBlank(pieces) == pieces
  {
    if |pieces| > 0 {
      DropBlankKeepsNonBlank(pieces[1..]);
      assert pieces == [pieces[0]] + pieces[1..];
    }
  }

  /** The album ids named by an `albums` value: nothing when it is absent or
      empty, otherwise its comma-separated pieces less the blank ones. */
  function GetSelectedAlbumIds(albumsParam: Option<string>): (ids: seq<string>)
    ensures albumsParam == None || albumsParam == Some("") ==> ids == []
    ensures forall k :: 0 <= k < |ids| ==> Separator !in ids[k] && !Js.IsBlank(ids[k])
    ensures albumsParam.Some? ==>
      forall x :: x in ids <==> x in Js.Split(albumsParam.value, Separator) && !Js.IsBlank(x)
    ensures albumsParam.Some? && albumsParam.value != "" ==>
      ids == DropBlank(Js.Split(albumsParam.value, Separator))
  {
    match albumsParam
    case None => []
    case Some(v) =>
      if v == "" then []
      else
        var pieces := Js.Split(v, Separator);
        var ids := DropBlank(pieces);
        assert forall k :: 0 <= k < |ids| ==> ids[k] in pieces;
        ids
  }

  /** The query string for a list of ids: empty for no ids, otherwise
      `albums=` followed by the ids joined with commas. */
  function CreateAlbumsQueryParam(albumIds: seq<string>): (q: string)
    ensures |albumIds| == 0 <==> q == ""
    ensures |albumIds| > 0 ==> |ParamPrefix| <= |q| && q[..|ParamPrefix|] == ParamPrefix
  {
    if |albumIds| == 0 then ""
    else ParamPrefix + Js.Join(albumIds, Separator)
  }

  /** The value a query string built here carries for `albums`. */
  function ParamValue(q: string): string
    requires |ParamPrefix| <= |q|
  {
    q[|ParamPrefix|..]
  }

  /** Ids without commas and without blanks survive the trip through the
      query string unchanged, in order and with repeats. */
  lemma QueryRoundTrip(albumIds: seq<string>)
    requires |albumIds| > 0
    requires forall k :: 0 <= k < |albumIds| ==> Separator !in albumIds[k] && !Js.IsBlank(albumIds[k])
    ensures GetSelectedAlbumIds(Some(ParamValue(CreateAlbumsQueryParam(albumIds)))) == albumIds
  {
    var v := ParamValue(CreateAlbumsQueryParam(albumIds));
    assert v == Js.Join(albumIds, Separator);
    Js.SplitJoin(albumIds, Separator);
    DropBlankKeepsNonBlank(albumIds);
  }

  /** Parsing, writing back and parsing again gives the first parse. */
  lemma ParseWriteParse(albumsParam: Option<string>)
    ensures var ids := GetSelectedAlbumIds(albumsParam);
      GetSelectedAlbumIds(Some(Js.Join(ids, Separator))) == ids
  {
    var ids := GetSelectedAlbumIds(albumsParam);
    if |ids| > 0 {
      var v := Js.Join(ids, Separator);
      Js.SplitJoin(ids, Separator);
      DropBlankKeepsNonBlank(ids);
    }
  }

  /** A comma-separated value with a blank piece and untrimmed pieces. */
  lemma ParseExample()
    ensures GetSelectedAlbumIds(Some("a1, ,b2 ")) == ["a1", "b2 "]
  {
    SplitExample();
    DropBlankExample();
  }

  lemma SplitExample()
    ensures Js.Split("a1, ,b2 ", Separator) == ["a1", " ", "b2 "]
  {
    var parts := ["a1", " ", "b2 "];
    assert parts[1..] == [" ", "b2 "] && parts[1..][1..] == ["b2 "];
    assert Js.Join(parts, Separator) == "a1, ,b2 ";
    Js.SplitJoin(parts, Separator);
  }

  lemma DropBlankExample()
    ensures DropBlank(["a1", " ", "b2 "]) == ["a1", "b2 "]
  {
    ExamplePiecesBlankness();
    DropMiddleBlank("a1", " ", "b2 ");
  }

  lemma DropMiddleBlank(x: string, y: string, z: string)
    requires !Js.IsBlank(x) && Js.IsBlank(y) && !Js.IsBlank(z)
    ensures DropBlank([x, y, z]) == [x, z]
  {
    DropBlankCons(x, [y, z]);
    DropBlankPair(y, z);
    assert [x] + [y, z] == [x, y, z];
  }

  lemma DropBlankPair(y: string, z: string)
    requires Js.IsBlank(y) && !Js.IsBlank(z)
    ensures DropBlank([y, z]) == [z]
  {
    DropBlankCons(y, [z]);
    DropBlankSingle(z);
    assert [y] + [z] == [y, z];
  }

  /** The filter looks at the first piece, then at the rest. */
  lemma DropBlankCons(x: string, rest: seq<string>)
    ensures DropBlank([x] + rest) == (if Js.IsBlank(x) then [] else [x]) + DropBlank(rest)
  {
    assert ([x] + rest)[0] == x && ([x] + rest)[1..] == rest;
  }

  lemma ExamplePiecesBlankness()
    ensures !Js.IsBlank("a1") && Js.IsBlank(" ") && !Js.IsBlank("b2 ")
  {
    assert !Js.IsWhitespace("a1"[0]);
    assert !Js.IsWhitespace("b2 "[0]);
    assert forall i :: 0 <= i < |" "| ==> " "[i] == ' ';
  }

  /** A lone comma names no album. */
  lemma ParseCommaExample()
    ensures GetSelectedAlbumIds(Some(",")) == []
  {
    assert Js.Join(["", ""], Separator) == ",";
    Js.SplitJoin(["", ""], Separator);
  }

  /** Repeated ids are kept, in order: `,a,a` names `a` twice. */
  lemma RepeatExample()
    ensures GetSelectedAlbumIds(Some(",a,a")) == ["a", "a"]
  {
    RepeatSplit();
    assert !Js.IsBlank("a") by { assert !Js.IsWhitespace("a"[0]); }
    DropLeadingBlank("", ["a", "a"]);
  }

  lemma RepeatSplit()
    ensures Js.Split(",a,a", Separator) == ["", "a", "a"]
  {
    assert Js.Join(["", "a", "a"], Separator) == ",a,a" by {
      assert ["", "a", "a"][1..] == ["a", "a"] && ["a", "a"][1..] == ["a"];
    }
    Js.SplitJoin(["", "a", "a"], Separator);
  }

  lemma DropLeadingBlank(y: string, rest: seq<string>)
    requires Js.IsBlank(y)
    requires forall k :: 0 <= k < |rest| ==> !Js.IsBlank(rest[k])
    ensures DropBlank([y] + rest) == rest
  {
    DropBlankAppend([y], rest);
    DropBlankSingle(y);
    DropBlankKeepsNonBlank(rest);
  }

  lemma QueryExample()
    ensures CreateAlbumsQueryParam(["a1", "b2"]) == "albums=a1,b2"
  {
    assert ["a1", "b2"][1..] == ["b2"];
  }
}
