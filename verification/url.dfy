/** The part of the WHATWG URL standard the quiz page relies on: finding a
    URL's query, and `URLSearchParams.get` on it, which splits the query
    into `&`-separated name/value pairs, turns `+` into a space and decodes
    percent escapes. */
module Url {
  import opened Wrappers
  import Js

  /** The position of the first `c` in `s`, or `|s|` when there is none. */
  function IndexOf(s: string, c: char): (i: nat)
    ensures i <= |s|
    ensures forall j :: 0 <= j < i ==> s[j] != c
    ensures i < |s| ==> s[i] == c
    ensures c !in s <==> i == |s|
  {
    if |s| == 0 then 0
    else if s[0] == c then 0
    else 1 + IndexOf(s[1..], c)
  }

  /** The query of a URL: what follows the first `?`, up to the fragment
      that a `#` starts; empty when there is no `?` before the fragment. */
  function Query(url: string): (q: string)
    ensures '#' !in q
    ensures |q| <= |url|
  {
    var beforeFragment := url[..IndexOf(url, '#')];
    var i := IndexOf(beforeFragment, '?');
    if i == |beforeFragment| then "" else beforeFragment[i + 1..]
  }

  predicate IsHexDigit(c: char) {
    '0' <= c <= '9' || 'a' <= c <= 'f' || 'A' <= c <= 'F'
  }

  function HexValue(c: char): (v: nat)
    requires IsHexDigit(c)
    ensures v < 16
  {
    if '0' <= c <= '9' then c as nat - '0' as nat
    else if 'a' <= c <= 'f' then c as nat - 'a' as nat + 10
    else c as nat - 'A' as nat + 10
  }

  /** Percent-decoding: `%` followed by two hex digits stands for the
      character with that code; any other `%` is kept. */
  function PercentDecode(s: string): (r: string)
    ensures |r| <= |s|
    ensures '%' !in s ==> r == s
    decreases |s|
  {
    if |s| == 0 then ""
    else if s[0] == '%' && |s| >= 3 && IsHexDigit(s[1]) && IsHexDigit(s[2]) then
      [(16 * HexValue(s[1]) + HexValue(s[2])) as char] + PercentDecode(s[3..])
    else
      assert '%' !in s ==> '%' !in s[1..] by {
        assert forall j :: 0 <= j < |s[1..]| ==> s[1..][j] == s[j + 1];
      }
      [s[0]] + PercentDecode(s[1..])
  }

  /** Every `+` replaced by a space. */
  function PlusToSpace(s: string): (r: string)
    ensures |r| == |s|
    ensures forall k :: 0 <= k < |s| ==> r[k] == if s[k] == '+' then ' ' else s[k]
  {
    seq(|s|, k requires 0 <= k < |s| => if s[k] == '+' then ' ' else s[k])
  }

  /** How a name or a value of the query is decoded. */
  function FormDecode(s: string): (r: string)
    ensures '+' !in s && '%' !in s ==> r == s
  {
    var spaced := PlusToSpace(s);
    assert '+' !in s ==> spaced == s;
    PercentDecode(spaced)
  }

  /** One `&`-separated piece of the query split at its first `=`: the name
      before it and the value after it, or the whole piece and an empty value
      when it has no `=`. */
  function NameValue(piece: string): (nv: (string, string))
    ensures '=' !in piece ==> nv == (piece, "")
    ensures '=' in piece ==> piece == nv.0 + "=" + nv.1 && '=' !in nv.0
  {
    var i := IndexOf(piece, '=');
    if i == |piece| then (piece, "")
    else
      assert piece == piece[..i] + "=" + piece[i + 1..];
      (piece[..i], piece[i + 1..])
  }

  /** A non-empty piece whose decoded name is `name` and whose decoded
      value is `value`. */
  predicate IsPairFor(piece: string, name: string, value: string) {
    piece != "" && FormDecode(NameValue(piece).0) == name && value == FormDecode(NameValue(piece).1)
  }

  /** The decoded value of the first piece whose decoded name is `name`;
      empty pieces are skipped. */
  function FirstValue(pieces: seq<string>, name: string): (r: Option<string>)
    ensures |pieces| == 0 ==> r == None
    ensures r.Some? ==> exists k :: 0 <= k < |pieces| && IsPairFor(pieces[k], name, r.value)
    ensures r.None? ==> forall k :: 0 <= k < |pieces| && pieces[k] != "" ==> FormDecode(NameValue(pieces[k]).0) != name
    decreases |pieces|
  {
    if |pieces| == 0 then None
    else if pieces[0] != "" && FormDecode(NameValue(pieces[0]).0) == name then
      Some(FormDecode(NameValue(pieces[0]).1))
    else
      var r := FirstValue(pieces[1..], name);
      assert forall k :: 0 <= k < |pieces[1..]| ==> pieces[1..][k] == pieces[k + 1];
      r
  }

  /** `new URLSearchParams(query).get(name)`: `None` stands for `null`. */
  function SearchParamsGet(query: string, name: string): (r: Option<string>)
    ensures query == "" ==> r == None
    ensures r.Some? ==> exists piece :: piece in Js.Split(query, '&') && IsPairFor(piece, name, r.value)
  {
    if query == "" then None else FirstValue(Js.Split(query, '&'), name)
  }

  /** Splitting `name=value` at its first `=` gives `name` and `value`. */
  lemma NameValueOf(name: string, value: string)
    requires '=' !in name
    ensures NameValue(name + "=" + value) == (name, value)
  {
    var piece := name + "=" + value;
    assert piece[|name|] == '=';
    assert IndexOf(piece, '=') == |name| by {
      assert forall j :: 0 <= j < |name| ==> piece[j] == name[j];
    }
    assert piece[..|name|] == name && piece[|name| + 1..] == value;
  }

  /** A string holding none of the characters at which the parser cuts a
      URL or a query (`#`, `&`) or that it decodes (`+`, `%`). */
  predicate Verbatim(s: string) {
    '#' !in s && '&' !in s && '+' !in s && '%' !in s
  }

  /** A query holding one `name=value` pair, with nothing in it that the
      parser would split or decode, gives the value back. */
  lemma SinglePair(name: string, value: string)
    requires name != ""
    requires '&' !in name && '=' !in name && '+' !in name && '%' !in name
    requires '&' !in value && '+' !in value && '%' !in value
    ensures SearchParamsGet(name + "=" + value, name) == Some(value)
  {
    var piece := name + "=" + value;
    assert '&' !in piece;
    Js.SplitWithoutSeparator(piece, '&');
    NameValueOf(name, value);
  }

  /** The first pair of a query wins, whatever follows its `&`. */
  lemma FirstPairWins(name: string, value: string, rest: string)
    requires name != ""
    requires '&' !in name && '=' !in name && '+' !in name && '%' !in name
    requires '&' !in value && '+' !in value && '%' !in value
    ensures SearchParamsGet(name + "=" + value + "&" + rest, name) == Some(value)
  {
    var piece := name + "=" + value;
    var tail := "&" + rest;
    assert '&' !in piece;
    Js.SplitPrefix(piece, tail, '&');
    assert tail[0] == '&' && tail[1..] == rest;
    assert Js.Split(tail, '&') == [""] + Js.Split(rest, '&');
    assert Js.Split(piece + tail, '&')[0] == piece;
    assert piece + tail == name + "=" + value + "&" + rest;
    NameValueOf(name, value);
  }

  /** Whatever precedes the first `?` and holds no `#`, the query of
      `prefix + "?" + rest` is `rest` when `rest` holds no `#`. */
  lemma QueryAfterMark(prefix: string, rest: string)
    requires '?' !in prefix && '#' !in prefix && '#' !in rest
    ensures Query(prefix + "?" + rest) == rest
  {
    var url := prefix + "?" + rest;
    assert '#' !in url by {
      forall j | 0 <= j < |url|
        ensures url[j] != '#'
      {
        if j < |prefix| {
          assert url[j] == prefix[j];
        } else if j > |prefix| {
          assert url[j] == rest[j - |prefix| - 1];
        }
      }
    }
    assert url[..IndexOf(url, '#')] == url;
    assert url[|prefix|] == '?';
    assert IndexOf(url, '?') == |prefix| by {
      assert forall j :: 0 <= j < |prefix| ==> url[j] == prefix[j];
    }
    assert url[|prefix| + 1..] == rest;
  }

  /** `%41` decodes to `A`, and a `+` to a space. */
  lemma DecodeExample()
    ensures FormDecode("a%41") == "aA"
    ensures FormDecode("a+b") == "a b"
  {
    assert PlusToSpace("a%41") == "a%41";
    assert PlusToSpace("a+b") == "a b";
    assert "a%41"[1..] == "%41" && "%41"[3..] == "";
    assert HexValue('4') == 4 && HexValue('1') == 1;
    assert (16 * 4 + 1) as char == 'A';
    assert "a b"[1..] == " b" && " b"[1..] == "b" && "b"[1..] == "";
  }

  /** A `%` that two hex digits do not follow is kept as it is. */
  lemma LonePercentKept()
    ensures FormDecode("a%zz") == "a%zz"
  {
    assert PlusToSpace("a%zz") == "a%zz";
    assert !IsHexDigit('z');
    assert "a%zz"[1..] == "%zz" && "%zz"[1..] == "zz" && "zz"[1..] == "z" && "z"[1..] == "";
  }
}
