/** The few JavaScript built-ins whose exact behaviour the application relies
    on, stated over unbounded integers, exact reals and `seq<char>`. */
module Js {

  /** The number of elements `array.slice(0, end)` keeps from an array of
      length `len`: a negative `end` counts back from the end of the array. */
  function SliceEnd(len: nat, end: int): (r: nat)
    ensures r <= len
    ensures 0 <= end <= len ==> r == end
    ensures len <= end ==> r == len
    ensures end < 0 && -end <= len ==> r == len + end
    ensures end < 0 && len < -end ==> r == 0
  {
    if end >= 0 then
      if end < len then end else len
    else
      if len + end > 0 then len + end else 0
  }

  /** `Math.round(part / whole * 100)` computed exactly: `Math.round(x)` is
      `floor(x + 1/2)`, so the result is `floor((200 * part + whole) / (2 * whole))`. */
  function RoundedPercent(part: int, whole: int): (r: int)
    requires whole > 0
    ensures 2 * whole * r <= 200 * part + whole < 2 * whole * (r + 1)
    ensures 0 <= part <= whole ==> 0 <= r <= 100
  {
    RoundedPercentBounds(part, whole);
    (200 * part + whole) / (2 * whole)
  }

  lemma RoundedPercentBounds(part: int, whole: int)
    requires whole > 0
    ensures var q := (200 * part + whole) / (2 * whole);
      && 2 * whole * q <= 200 * part + whole < 2 * whole * (q + 1)
      && (0 <= part <= whole ==> 0 <= q <= 100)
  {
    var num := 200 * part + whole;
    var den := 2 * whole;
    FloorDivBounds(num, den);
    if 0 <= part <= whole {
      assert 0 <= num < den * 101;
      FloorDivRange(num, den, 101);
    }
  }

  /** Euclidean division by a positive divisor is floor division. */
  lemma FloorDivBounds(num: int, den: int)
    requires den > 0
    ensures den * (num / den) <= num < den * (num / den + 1)
  {
    var q := num / den;
    var m := num % den;
    assert num == den * q + m && 0 <= m < den;
    assert den * (q + 1) == den * q + den;
  }

  lemma FloorDivRange(num: int, den: int, k: int)
    requires den > 0 && 0 <= num < den * k
    ensures 0 <= num / den < k
  {
    var q := num / den;
    FloorDivBounds(num, den);
    if q < 0 {
      MulMonotone(den, q + 1, 0);
    }
    if q >= k {
      MulMonotone(den, k, q);
    }
  }

  lemma MulMonotone(d: int, a: int, b: int)
    requires d > 0 && a <= b
    ensures d * a <= d * b
  {
    assert d * b - d * a == d * (b - a);
  }

  /** `Math.floor(rand * n)` for a draw `rand` of `Math.random()`, which lies
      in [0, 1). For a positive `n` it is an index in [0, n); for `n <= 0` it
      lies in [n, 0]. */
  function ScaledDraw(rand: real, n: int): (r: int)
    requires 0.0 <= rand < 1.0
    ensures n > 0 ==> 0 <= r < n
    ensures n <= 0 ==> n <= r <= 0
  {
    ScaledDrawBounds(rand, n);
    (rand * (n as real)).Floor
  }

  lemma ScaledDrawBounds(rand: real, n: int)
    requires 0.0 <= rand < 1.0
    ensures var x := rand * (n as real);
      && (n > 0 ==> 0.0 <= x < n as real)
      && (n <= 0 ==> n as real <= x <= 0.0)
  {
    var m := if n > 0 then n as real else -(n as real);
    RealMulNonneg(rand, m);
    RealMulNonneg(1.0 - rand, m);
    if n > 0 {
      assert (1.0 - rand) * m > 0.0;
    }
  }

  lemma RealMulNonneg(a: real, b: real)
    requires a >= 0.0 && b >= 0.0
    ensures a * b >= 0.0
    ensures a > 0.0 && b > 0.0 ==> a * b > 0.0
  {
  }

  /** The characters `String.prototype.trim` removes: the ECMAScript
      WhiteSpace and LineTerminator code points. */
  predicate IsWhitespace(c: char) {
    || c == '\t' || c == '\n' || c == '\U{000B}' || c == '\U{000C}' || c == '\r'
    || c == ' ' || c == '\U{00A0}' || c == '\U{1680}'
    || ('\U{2000}' <= c <= '\U{200A}')
    || c == '\U{2028}' || c == '\U{2029}' || c == '\U{202F}' || c == '\U{205F}'
    || c == '\U{3000}' || c == '\U{FEFF}'
  }

  /** `s.trimStart()`: `s` less its leading whitespace. */
  function TrimStart(s: string): (r: string)
    ensures |r| <= |s| && r == s[|s| - |r|..]
    ensures forall i :: 0 <= i < |s| - |r| ==> IsWhitespace(s[i])
    ensures |r| == 0 || !IsWhitespace(r[0])
    decreases |s|
  {
    if |s| == 0 || !IsWhitespace(s[0]) then s else TrimStart(s[1..])
  }

  /** `s.trimEnd()`: `s` less its trailing whitespace. */
  function TrimEnd(s: string): (r: string)
    ensures |r| <= |s| && r == s[..|r|]
    ensures forall i :: |r| <= i < |s| ==> IsWhitespace(s[i])
    ensures |r| == 0 || !IsWhitespace(r[|r| - 1])
    decreases |s|
  {
    if |s| == 0 || !IsWhitespace(s[|s| - 1]) then s else TrimEnd(s[..|s| - 1])
  }

  /** `s.trim()`: leading and trailing whitespace removed. */
  function Trim(s: string): string {
    TrimEnd(TrimStart(s))
  }

  /** `s.trim() === ''`, decided character by character: the string is
      whitespace throughout (`TrimOfWhitespace` shows the two agree). */
  predicate IsBlank(s: string) {
    forall i :: 0 <= i < |s| ==> IsWhitespace(s[i])
  }

  /** Trimming leaves nothing exactly when every character is whitespace,
      that is, `s.trim() === ''` is `IsBlank(s)`. */
  lemma TrimOfWhitespace(s: string)
    ensures Trim(s) == "" <==> forall i :: 0 <= i < |s| ==> IsWhitespace(s[i])
    ensures Trim(s) == "" <==> IsBlank(s)
  {
    var t := TrimStart(s);
    var start := |s| - |t|;
    assert forall i :: start <= i < |s| ==> s[i] == t[i - start];
    if |t| > 0 {
      assert s[start] == t[0];
    }
  }

  /** `s.split(sep)` for a one-character separator: the pieces between
      consecutive separators, so `k` separators give `k + 1` pieces. */
  function Split(s: string, sep: char): (parts: seq<string>)
    ensures |parts| >= 1
    ensures forall i :: 0 <= i < |parts| ==> sep !in parts[i]
  {
    if |s| == 0 then [""]
    else
      var rest := Split(s[1..], sep);
      if s[0] == sep then [""] + rest
      else [[s[0]] + rest[0]] + rest[1..]
  }

  /** `parts.join(sep)`. */
  function Join(parts: seq<string>, sep: char): (s: string)
    ensures |parts| == 0 ==> s == ""
    ensures |parts| == 1 ==> s == parts[0]
  {
    if |parts| == 0 then ""
    else if |parts| == 1 then parts[0]
    else parts[0] + [sep] + Join(parts[1..], sep)
  }

  /** Splitting a piece that has no separator, glued to the front of `t`,
      extends the first piece of `t`'s split. */
  lemma {:induction false} SplitPrefix(a: string, t: string, sep: char)
    requires sep !in a
    ensures Split(a + t, sep) == [a + Split(t, sep)[0]] + Split(t, sep)[1..]
    decreases |a|
  {
    if |a| > 0 {
      var s0 := Split(t, sep)[0];
      assert (a + t)[0] == a[0] && (a + t)[1..] == a[1..] + t;
      SplitPrefix(a[1..], t, sep);
      assert [a[0]] + (a[1..] + s0) == a + s0;
    } else {
      assert a + t == t;
      assert a + Split(t, sep)[0] == Split(t, sep)[0];
    }
  }

  /** Joining then splitting gives back the pieces, provided no piece holds
      the separator. */
  lemma {:induction false} SplitJoin(parts: seq<string>, sep: char)
    requires |parts| >= 1
    requires forall i :: 0 <= i < |parts| ==> sep !in parts[i]
    ensures Split(Join(parts, sep), sep) == parts
    decreases |parts|
  {
    if |parts| == 1 {
      SplitPrefix(parts[0], "", sep);
      assert parts[0] + "" == parts[0];
    } else {
      var tail := Join(parts[1..], sep);
      SplitJoin(parts[1..], sep);
      assert Join(parts, sep) == parts[0] + ([sep] + tail);
      SplitPrefix(parts[0], [sep] + tail, sep);
      assert ([sep] + tail)[1..] == tail;
      assert Split([sep] + tail, sep) == [""] + parts[1..];
      assert parts[0] + "" == parts[0];
      assert parts == [parts[0]] + parts[1..];
    }
  }

  /** Concatenation regroups freely; stated over variables so that it stays
      cheap where the strings are literals. */
  lemma AppendAssoc(a: string, b: string, c: string)
    ensures a + (b + c) == a + b + c
  {
  }

  /** A string without the separator splits into itself. */
  lemma SplitWithoutSeparator(s: string, sep: char)
    requires sep !in s
    ensures Split(s, sep) == [s]
  {
    SplitPrefix(s, "", sep);
    assert s + "" == s;
  }

  /** A character that is neither the separator nor in any piece is not in
      the joined string. */
  lemma {:induction false} JoinAvoids(parts: seq<string>, sep: char, c: char)
    requires c != sep
    requires forall i :: 0 <= i < |parts| ==> c !in parts[i]
    ensures c !in Join(parts, sep)
    decreases |parts|
  {
    if |parts| > 1 {
      JoinAvoids(parts[1..], sep, c);
      assert Join(parts, sep) == parts[0] + ([sep] + Join(parts[1..], sep));
    }
  }

  /** Splitting then joining gives back the string. */
  lemma {:induction false} JoinSplit(s: string, sep: char)
    ensures Join(Split(s, sep), sep) == s
    decreases |s|
  {
    if |s| > 0 {
      var rest := Split(s[1..], sep);
      JoinSplit(s[1..], sep);
      if s[0] == sep {
        assert s == [sep] + s[1..];
      } else {
        if |rest| == 1 {
          assert s == [s[0]] + rest[0];
        } else {
          var parts := [[s[0]] + rest[0]] + rest[1..];
          assert parts[1..] == rest[1..];
          assert Join(rest, sep) == rest[0] + [sep] + Join(rest[1..], sep);
          assert s == [s[0]] + s[1..];
        }
      }
    }
  }
}
