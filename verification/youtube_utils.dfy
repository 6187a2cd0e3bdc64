/** Finding the video id in a YouTube link. The application matches the
    regular expression `(?:youtube\.com\/watch\?v=|youtu\.be\/)([^&\n?#]+)`
    against the url and returns its capture group; this module spells out
    what that match is (the leftmost one, trying the two link forms in
    order at each position, with a greedy capture) and scans for it. */
module YouTubeUtils {
  import opened Wrappers

  /** The two link forms, in the order the alternation tries them. */
  const WatchMarker := "youtube.com/watch?v="
  const ShortMarker := "youtu.be/"

  /** The characters the id may contain: anything but `&`, newline, `?`
      and `#`. */
  predicate Permitted(c: char) {
    c != '&' && c != '\n' && c != '?' && c != '#'
  }

  /** `url` holds `marker` starting at position `p`. */
  predicate HasAt(url: string, p: nat, marker: string) {
    p + |marker| <= |url| && url[p..p + |marker|] == marker
  }

  /** The id may start at `p`: there is a permitted character there. */
  predicate PermittedAt(url: string, p: nat) {
    p < |url| && Permitted(url[p])
  }

  /** The length of the link form that matches at `p` followed by at least
      one id character, trying the long form before the short one. */
  function AlternativeAt(url: string, p: nat): (r: Option<nat>)
    ensures r.Some? ==> HasAt(url, p, if r.value == |WatchMarker| then WatchMarker else ShortMarker)
    ensures r.Some? ==> PermittedAt(url, p + r.value)
    ensures r == Some(|ShortMarker|) ==> !HasAt(url, p, WatchMarker) || !PermittedAt(url, p + |WatchMarker|)
  {
    if HasAt(url, p, WatchMarker) && PermittedAt(url, p + |WatchMarker|) then Some(|WatchMarker|)
    else if HasAt(url, p, ShortMarker) && PermittedAt(url, p + |ShortMarker|) then Some(|ShortMarker|)
    else None
  }

  /** The regular expression matches starting at position `p`. */
  predicate MatchAt(url: string, p: nat) {
    AlternativeAt(url, p).Some?
  }

  /** `p` is where the regular expression's match begins: the first position
      at which it matches. */
  predicate IsLeftmostMatch(url: string, p: nat) {
    MatchAt(url, p) && forall q: nat :: q < p ==> !MatchAt(url, q)
  }

  /** Both link forms begin with `y`, so every match starts at a `y`. */
  lemma MatchStartsAtY(url: string, p: nat)
    ensures MatchAt(url, p) ==> p < |url| && url[p] == 'y'
  {
    if MatchAt(url, p) {
      var m := if AlternativeAt(url, p).value == |WatchMarker| then WatchMarker else ShortMarker;
      assert url[p..p + |m|][0] == m[0];
    }
  }

  /** The greedy run of permitted characters from `from`: it ends at the end
      of the url or at the first character that is not permitted. */
  function RunEnd(url: string, from: nat): (e: nat)
    requires from <= |url|
    ensures from <= e <= |url|
    ensures forall k :: from <= k < e ==> Permitted(url[k])
    ensures e == |url| || !Permitted(url[e])
    decreases |url| - from
  {
    if from == |url| || !Permitted(url[from]) then from else RunEnd(url, from + 1)
  }

  /** The capture group of the match at `p`. */
  function Capture(url: string, p: nat): (id: string)
    requires MatchAt(url, p)
    ensures |id| > 0
    ensures forall k :: 0 <= k < |id| ==> Permitted(id[k])
    ensures var start := p + AlternativeAt(url, p).value;
      start + |id| <= |url| && url[start..start + |id|] == id
      && (start + |id| == |url| || !Permitted(url[start + |id|]))
  {
    var start := p + AlternativeAt(url, p).value;
    url[start..RunEnd(url, start)]
  }

  /** The first match position at or after `from`, if any. */
  function LeftmostMatchFrom(url: string, from: nat): (r: Option<nat>)
    requires from <= |url|
    ensures r.None? <==> forall q: nat :: from <= q <= |url| ==> !MatchAt(url, q)
    ensures r.Some? ==>
      && from <= r.value <= |url|
      && MatchAt(url, r.value)
      && forall q: nat :: from <= q < r.value ==> !MatchAt(url, q)
    decreases |url| - from
  {
    if MatchAt(url, from) then Some(from)
    else if from == |url| then None
    else
      var r := LeftmostMatchFrom(url, from + 1);
      NoMatchBefore(url, from, r);
      r
  }

  /** A position without a match extends the match-free stretch that the
      search from the next position found. */
  lemma NoMatchBefore(url: string, from: nat, r: Option<nat>)
    requires from < |url| && !MatchAt(url, from)
    requires r.None? ==> forall q: nat :: from + 1 <= q <= |url| ==> !MatchAt(url, q)
    requires r.Some? ==> forall q: nat :: from + 1 <= q < r.value ==> !MatchAt(url, q)
    ensures r.None? ==> forall q: nat :: from <= q <= |url| ==> !MatchAt(url, q)
    ensures r.Some? ==> forall q: nat :: from <= q < r.value ==> !MatchAt(url, q)
  {
  }

  /** `extractYouTubeVideoId`: the capture of the leftmost match, or `None`
      when the regular expression matches nowhere. */
  function ExtractYouTubeVideoId(url: string): (r: Option<string>)
    ensures r.None? <==> forall p: nat :: p <= |url| ==> !MatchAt(url, p)
    ensures r.Some? ==> exists p: nat :: IsLeftmostMatch(url, p) && r.value == Capture(url, p)
    ensures r.Some? ==> |r.value| > 0 && forall k :: 0 <= k < |r.value| ==> Permitted(r.value[k])
  {
    match LeftmostMatchFrom(url, 0)
    case None => None
    case Some(p) =>
      assert IsLeftmostMatch(url, p);
      Some(Capture(url, p))
  }

  /** The leftmost match is unique, so the result is determined by it. */
  lemma ExtractIsLeftmostCapture(url: string, p: nat)
    requires IsLeftmostMatch(url, p)
    ensures ExtractYouTubeVideoId(url) == Some(Capture(url, p))
  {
    var r := ExtractYouTubeVideoId(url);
    assert r.Some?;
    var q: nat :| IsLeftmostMatch(url, q) && r.value == Capture(url, q);
    assert MatchAt(url, q) && MatchAt(url, p);
  }

  /** A url without the letter `y` holds no video id. */
  lemma NoYNoId(url: string)
    requires forall k :: 0 <= k < |url| ==> url[k] != 'y'
    ensures ExtractYouTubeVideoId(url) == None
  {
    forall p: nat | p <= |url|
      ensures !MatchAt(url, p)
    {
      MatchStartsAtY(url, p);
    }
  }

  /** The run end is the only position that bounds a run of permitted
      characters the way `RunEnd` promises. */
  lemma {:induction false} RunEndIs(url: string, from: nat, e: nat)
    requires from <= e <= |url|
    requires forall k :: from <= k < e ==> Permitted(url[k])
    requires e == |url| || !Permitted(url[e])
    ensures RunEnd(url, from) == e
    decreases e - from
  {
    if from < e {
      RunEndIs(url, from + 1, e);
    }
  }

  /** A link of the long form: after a prefix without `y`, the marker,
      then the id up to the end or up to a character that is not permitted. */
  lemma WatchLink(prefix: string, id: string, tail: string)
    requires forall k :: 0 <= k < |prefix| ==> prefix[k] != 'y'
    requires |id| > 0 && forall k :: 0 <= k < |id| ==> Permitted(id[k])
    requires tail == [] || !Permitted(tail[0])
    ensures ExtractYouTubeVideoId(prefix + WatchMarker + id + tail) == Some(id)
  {
    var url := prefix + WatchMarker + id + tail;
    var p := |prefix|;
    assert url[p..p + |WatchMarker|] == WatchMarker;
    assert url[p + |WatchMarker|] == id[0];
    assert AlternativeAt(url, p) == Some(|WatchMarker|);
    LinkCapture(url, prefix, WatchMarker, id, tail);
  }

  /** A link of the short form, read the same way. */
  lemma ShortLink(prefix: string, id: string, tail: string)
    requires forall k :: 0 <= k < |prefix| ==> prefix[k] != 'y'
    requires |id| > 0 && forall k :: 0 <= k < |id| ==> Permitted(id[k])
    requires tail == [] || !Permitted(tail[0])
    ensures ExtractYouTubeVideoId(prefix + ShortMarker + id + tail) == Some(id)
  {
    var url := prefix + ShortMarker + id + tail;
    var p := |prefix|;
    assert url[p..p + |ShortMarker|] == ShortMarker;
    assert url[p + |ShortMarker|] == id[0];
    assert !HasAt(url, p, WatchMarker) by {
      if p + |WatchMarker| <= |url| {
        assert url[p..p + |WatchMarker|][5] == ShortMarker[5] != WatchMarker[5];
      }
    }
    assert AlternativeAt(url, p) == Some(|ShortMarker|);
    LinkCapture(url, prefix, ShortMarker, id, tail);
  }

  /** The shared step of the two link lemmas: the match at the end of the
      prefix is the leftmost one and captures exactly `id`. */
  lemma LinkCapture(url: string, prefix: string, marker: string, id: string, tail: string)
    requires url == prefix + marker + id + tail
    requires forall k :: 0 <= k < |prefix| ==> prefix[k] != 'y'
    requires |id| > 0 && forall k :: 0 <= k < |id| ==> Permitted(id[k])
    requires tail == [] || !Permitted(tail[0])
    requires AlternativeAt(url, |prefix|) == Some(|marker|)
    ensures ExtractYouTubeVideoId(url) == Some(id)
  {
    var p := |prefix|;
    LinkMatchIsLeftmost(url, prefix, marker, id, tail);
    AfterMarker(url, prefix, marker, id, tail);
    LinkRunEnd(url, |prefix|, |marker|, id, tail);
    ExtractIsLeftmostCapture(url, p);
  }

  /** No match starts inside the prefix, so the one after it is leftmost. */
  lemma LinkMatchIsLeftmost(url: string, prefix: string, marker: string, id: string, tail: string)
    requires url == prefix + marker + id + tail
    requires forall k :: 0 <= k < |prefix| ==> prefix[k] != 'y'
    requires |id| > 0 && forall k :: 0 <= k < |id| ==> Permitted(id[k])
    requires AlternativeAt(url, |prefix|) == Some(|marker|)
    ensures IsLeftmostMatch(url, |prefix|)
  {
    var p := |prefix|;
    forall q: nat | q < p
      ensures !MatchAt(url, q)
    {
      MatchStartsAtY(url, q);
      assert url[q] == prefix[q];
    }
    assert url[p + |marker|] == id[0];
  }

  /** The capture of the match at `p` whose marker has length `m` runs
      exactly over `id`. */
  lemma LinkRunEnd(url: string, p: nat, m: nat, id: string, tail: string)
    requires p + m <= |url| && url[p + m..] == id + tail
    requires forall k :: 0 <= k < |id| ==> Permitted(id[k])
    requires tail == [] || !Permitted(tail[0])
    requires AlternativeAt(url, p) == Some(m)
    ensures Capture(url, p) == id
  {
    RunOver(url, p + m, id, tail);
  }

  /** What follows the marker in `prefix + marker + id + tail`. */
  lemma AfterMarker(url: string, prefix: string, marker: string, id: string, tail: string)
    requires url == prefix + marker + id + tail
    ensures url[|prefix| + |marker|..] == id + tail
  {
    assert url == (prefix + marker) + (id + tail);
  }

  /** From `start` on, `url` holds `id` and then a tail that does not
      continue the run: the run of permitted characters is `id`. */
  lemma RunOver(url: string, start: nat, id: string, tail: string)
    requires start <= |url| && url[start..] == id + tail
    requires forall k :: 0 <= k < |id| ==> Permitted(id[k])
    requires tail == [] || !Permitted(tail[0])
    ensures start + |id| <= |url| && RunEnd(url, start) == start + |id|
    ensures url[start..start + |id|] == id
  {
    var e := start + |id|;
    var rest := url[start..];
    forall k | start <= k < e
      ensures Permitted(url[k])
    {
      assert url[k] == rest[k - start] == id[k - start];
    }
    if e < |url| {
      assert url[e] == rest[|id|] == tail[0];
    }
    RunEndIs(url, start, e);
    assert url[start..e] == rest[..|id|];
  }

  lemma WatchLinkExample()
    ensures ExtractYouTubeVideoId("https://www.youtube.com/watch?v=dQw4w9WgXcQ") == Some("dQw4w9WgXcQ")
  {
    assert "https://www.youtube.com/watch?v=dQw4w9WgXcQ" == "https://www." + WatchMarker + "dQw4w9WgXcQ" + "";
    WatchLink("https://www.", "dQw4w9WgXcQ", "");
  }

  lemma ShortLinkExample()
    ensures ExtractYouTubeVideoId("https://youtu.be/dQw4w9WgXcQ") == Some("dQw4w9WgXcQ")
  {
    assert "https://youtu.be/dQw4w9WgXcQ" == "https://" + ShortMarker + "dQw4w9WgXcQ" + "";
    ShortLink("https://", "dQw4w9WgXcQ", "");
  }

  lemma ExtraParameterExample()
    ensures ExtractYouTubeVideoId("https://www.youtube.com/watch?v=dQw4w9WgXcQ&t=30s") == Some("dQw4w9WgXcQ")
  {
    ExtraParameterUrl();
    WatchLink("https://www.", "dQw4w9WgXcQ", "&t=30s");
  }

  lemma ExtraParameterUrl()
    ensures "https://www.youtube.com/watch?v=dQw4w9WgXcQ&t=30s"
      == "https://www." + WatchMarker + "dQw4w9WgXcQ" + "&t=30s"
  {
  }

  lemma NonYouTubeExample()
    ensures ExtractYouTubeVideoId("https://example.com/video") == None
  {
    NoYNoId("https://example.com/video");
  }

  lemma EmptyUrlExample()
    ensures ExtractYouTubeVideoId("") == None
  {
    NoYNoId("");
  }

  lemma OtherDomainExample()
    ensures ExtractYouTubeVideoId("https://vimeo.com/123456789") == None
  {
    assert forall k :: 0 <= k < |"https://vimeo.com/123456789"| ==> "https://vimeo.com/123456789"[k] != 'y';
    NoYNoId("https://vimeo.com/123456789");
  }
}
