/** String operations the wrapper relies on, written the way Python's `str`
    methods behave: `sep.join(parts)`, `s.split(c)`, `s.strip()` and
    `s.rfind(c)`. Strings are sequences of Unicode scalar values. */
module Text {
  import opened Results

  /** Python's `str.isspace()` set, which `str.strip()` removes from both ends:
      the C0 separators U+0009..U+000D and U+001C..U+001F, the space, and the
      Unicode space and line/paragraph separators. */
  predicate IsSpace(c: char) {
    || ('\t' <= c <= '\r')
    || ('\U{1C}' <= c <= '\U{1F}')
    || c == ' '
    || c == '\U{85}'
    || c == '\U{A0}'
    || c == '\U{1680}'
    || ('\U{2000}' <= c <= '\U{200A}')
    || c == '\U{2028}'
    || c == '\U{2029}'
    || c == '\U{202F}'
    || c == '\U{205F}'
    || c == '\U{3000}'
  }

  /** Every character of `s` is whitespace (the empty string included). */
  predicate IsBlank(s: string) {
    forall k :: 0 <= k < |s| ==> IsSpace(s[k])
  }

  /** Number of occurrences of `c` in `s`. */
  function Count(s: string, c: char): (n: nat)
    ensures n <= |s|
    ensures n == 0 <==> c !in s
  {
    if s == [] then 0
    else (if s[0] == c then 1 else 0) + Count(s[1..], c)
  }

  /** Occurrences add up over a concatenation. */
  lemma {:induction false} CountConcat(a: string, b: string, c: char)
    ensures Count(a + b, c) == Count(a, c) + Count(b, c)
  {
    if a == [] {
      assert a + b == b;
    } else {
      assert (a + b)[0] == a[0] && (a + b)[1..] == a[1..] + b;
      CountConcat(a[1..], b, c);
    }
  }

  /** Text around a part that holds no occurrence adds none. */
  lemma CountFrame(pre: string, mid: string, post: string, c: char)
    requires c !in pre && c !in post
    ensures Count(pre + mid + post, c) == Count(mid, c)
  {
    CountConcat(pre, mid, c);
    CountConcat(pre + mid, post, c);
  }

  /** `sep.join(parts)`. */
  function Join(parts: seq<string>, sep: string): string
  {
    if |parts| == 0 then []
    else if |parts| == 1 then parts[0]
    else parts[0] + sep + Join(parts[1..], sep)
  }

  /** `s.split(sep)` for a one-character separator: the pieces between
      consecutive separators, in order, empty pieces included. */
  function SplitOn(s: string, sep: char): (pieces: seq<string>)
    ensures |pieces| == Count(s, sep) + 1
    ensures forall i :: 0 <= i < |pieces| ==> sep !in pieces[i]
    ensures Join(pieces, [sep]) == s
  {
    if s == [] then [[]]
    else
      var rest := SplitOn(s[1..], sep);
      if s[0] == sep then
        assert s == [sep] + s[1..];
        [[]] + rest
      else
        JoinPrepend(s[0], rest, [sep]);
        assert s == [s[0]] + s[1..];
        [[s[0]] + rest[0]] + rest[1..]
  }

  /** A character put in front of the first piece is in front of the
      joined text. */
  lemma JoinPrepend(c: char, parts: seq<string>, sep: string)
    requires parts != []
    ensures Join([[c] + parts[0]] + parts[1..], sep) == [c] + Join(parts, sep)
  {
    var q := [[c] + parts[0]] + parts[1..];
    assert q[1..] == parts[1..];
  }

  /** A separator in the text closes the piece before it: splitting
      `a + sep + b` gives the pieces of `a` followed by the pieces of `b`,
      whatever `a` and `b` contain (quotes included). */
  lemma {:induction false} SplitOnConcat(a: string, b: string, sep: char)
    ensures SplitOn(a + [sep] + b, sep) == SplitOn(a, sep) + SplitOn(b, sep)
  {
    if a == [] {
      assert a + [sep] + b == [sep] + b;
      assert ([sep] + b)[1..] == b;
    } else {
      var t := a + [sep] + b;
      assert t[0] == a[0] && t[1..] == a[1..] + [sep] + b;
      SplitOnConcat(a[1..], b, sep);
      var ra, rb := SplitOn(a[1..], sep), SplitOn(b, sep);
      if a[0] == sep {
        ConsAppend([], ra, rb);
      } else {
        MergeHeadAppend([a[0]], ra, rb);
      }
    }
  }

  /** Prepending an element commutes with appending a list. Kept apart from
      `SplitOnConcat` so that its proof does not see `SplitOn`. */
  lemma ConsAppend<T>(x: T, r: seq<T>, q: seq<T>)
    ensures [x] + (r + q) == ([x] + r) + q
  {
  }

  /** Extending the first of a non-empty list of pieces commutes with
      appending more pieces. */
  lemma MergeHeadAppend<T>(c: seq<T>, r: seq<seq<T>>, q: seq<seq<T>>)
    requires r != []
    ensures [c + (r + q)[0]] + (r + q)[1..] == ([c + r[0]] + r[1..]) + q
  {
    assert (r + q)[1..] == r[1..] + q;
  }

  /** Text without the separator is a single piece. */
  lemma {:induction false} SplitOnNoSeparator(s: string, sep: char)
    requires sep !in s
    ensures SplitOn(s, sep) == [s]
  {
    if s != [] {
      SplitOnNoSeparator(s[1..], sep);
      assert s == [s[0]] + s[1..];
    }
  }

  /** `Join` and `SplitOn` are inverse: splitting the joined pieces gives the
      pieces back, as long as no piece contains the separator. */
  lemma {:induction false} SplitJoin(parts: seq<string>, sep: char)
    requires parts != []
    requires forall i :: 0 <= i < |parts| ==> sep !in parts[i]
    ensures SplitOn(Join(parts, [sep]), sep) == parts
  {
    SplitOnNoSeparator(parts[0], sep);
    if |parts| > 1 {
      SplitJoin(parts[1..], sep);
      SplitOnConcat(parts[0], Join(parts[1..], [sep]), sep);
      assert parts[0] + [sep] + Join(parts[1..], [sep]) == Join(parts, [sep]);
      assert [parts[0]] + parts[1..] == parts;
    }
  }

  /** Occurrences in a joined list: those of the first piece plus those of
      the rest, when the separator has none. */
  lemma JoinCountCons(parts: seq<string>, sep: string, c: char)
    requires |parts| > 1 && c !in sep
    ensures Count(Join(parts, sep), c) == Count(parts[0], c) + Count(Join(parts[1..], sep), c)
  {
    var rest := Join(parts[1..], sep);
    assert Join(parts, sep) == parts[0] + (sep + rest);
    CountConcat(parts[0], sep + rest, c);
    CountConcat(sep, rest, c);
  }

  /** A character in neither the pieces nor the separator is not in the
      joined text. */
  lemma {:induction false} JoinAvoids(parts: seq<string>, sep: string, c: char)
    requires c !in sep && forall i :: 0 <= i < |parts| ==> c !in parts[i]
    ensures c !in Join(parts, sep)
  {
    if |parts| > 1 {
      JoinAvoids(parts[1..], sep, c);
    }
  }

  /** The pieces of `Join(parts, sep + " ")` after splitting on `sep`: the
      first part, then every later part behind the space of the separator. */
  function Spaced(parts: seq<string>): (r: seq<string>)
    requires parts != []
    ensures |r| == |parts| && r[0] == parts[0]
    ensures forall i :: 1 <= i < |parts| ==> r[i] == " " + parts[i]
  {
    [parts[0]] + seq(|parts| - 1, i requires 0 <= i < |parts| - 1 => " " + parts[i + 1])
  }

  /** Joining with `sep + " "` is joining the spaced parts with `sep`. */
  lemma {:induction false} JoinSpaced(parts: seq<string>, sep: char)
    requires parts != []
    ensures Join(parts, [sep, ' ']) == Join(Spaced(parts), [sep])
  {
    if |parts| > 1 {
      JoinSpaced(parts[1..], sep);
      var sp := Spaced(parts);
      var tail := Spaced(parts[1..]);
      assert sp[1..] == [" " + tail[0]] + tail[1..];
      JoinPrepend(' ', tail, [sep]);
    }
  }

  /** Splitting a `", "`-style list on its separator character gives one piece
      per item, in order, provided no item holds that character. */
  lemma SplitJoinSpaced(parts: seq<string>, sep: char)
    requires parts != [] && sep != ' '
    requires forall i :: 0 <= i < |parts| ==> sep !in parts[i]
    ensures SplitOn(Join(parts, [sep, ' ']), sep) == Spaced(parts)
  {
    JoinSpaced(parts, sep);
    var sp := Spaced(parts);
    forall i | 0 <= i < |sp| ensures sep !in sp[i] {
      if i > 0 {
        assert sp[i] == [' '] + parts[i];
      }
    }
    SplitJoin(sp, sep);
  }

  /** The three parts of a concatenation are its slices. */
  lemma Parts3<T>(a: seq<T>, b: seq<T>, c: seq<T>)
    ensures (a + b + c)[..|a|] == a && (a + b + c)[|a|..|a| + |b|] == b && (a + b + c)[|a| + |b|..] == c
  {
  }

  /** The second and third of five parts sit right after the first. */
  lemma Middle<T>(a: seq<T>, b: seq<T>, c: seq<T>, d: seq<T>, e: seq<T>)
    ensures var r := a + b + c + d + e;
            && |r| == |a| + |b| + |c| + |d| + |e|
            && r[|a|..|a| + |b|] == b && r[|a| + |b|..|a| + |b| + |c|] == c
  {
    var r := a + b + c + d + e;
    assert r[|a|..|a| + |b| + |c|] == b + c;
  }

  /** A concatenation of six parts, regrouped after its first two. */
  lemma RegroupTail<T>(a: seq<T>, b: seq<T>, c: seq<T>, d: seq<T>, e: seq<T>, f: seq<T>)
    ensures a + b + c + d + e + f == a + b + (c + d + e + f)
  {
  }

  /** `s.lstrip()`: the longest suffix of `s` that does not start with whitespace. */
  function TrimStart(s: string): (r: string)
    ensures |r| <= |s| && r == s[|s| - |r|..]
    ensures forall k :: 0 <= k < |s| - |r| ==> IsSpace(s[k])
    ensures r == [] || !IsSpace(r[0])
  {
    if s != [] && IsSpace(s[0]) then
      var r := TrimStart(s[1..]);
      assert s[1..][|s| - 1 - |r|..] == s[|s| - |r|..];
      assert forall k :: 1 <= k < |s| ==> s[k] == s[1..][k - 1];
      r
    else s
  }

  /** `s.rstrip()`: the longest prefix of `s` that does not end with whitespace. */
  function TrimEnd(s: string): (r: string)
    ensures |r| <= |s| && r == s[..|r|]
    ensures forall k :: |r| <= k < |s| ==> IsSpace(s[k])
    ensures r == [] || !IsSpace(r[|r| - 1])
  {
    if s != [] && IsSpace(s[|s| - 1]) then TrimEnd(s[..|s| - 1]) else s
  }

  /** `s.strip()`: `s` without its leading and trailing whitespace. The result
      is empty exactly when `s` is blank, and otherwise neither starts nor ends
      with whitespace; it holds no character that `s` does not (`StripSlice`
      places it in `s`). */
  function Strip(s: string): (r: string)
    ensures r == [] <==> IsBlank(s)
    ensures r != [] ==> !IsSpace(r[0]) && !IsSpace(r[|r| - 1])
    ensures forall c :: c in r ==> c in s
  {
    var t := TrimStart(s);
    var r := TrimEnd(t);
    assert r == [] ==> IsBlank(s) by {
      if r == [] {
        forall k | 0 <= k < |s| ensures IsSpace(s[k]) {
          if k >= |s| - |t| {
            assert s[k] == t[k - (|s| - |t|)];
          }
        }
      }
    }
    assert r != [] ==> !IsBlank(s) by {
      if r != [] {
        assert s[|s| - |t|] == t[0] == r[0];
      }
    }
    r
  }

  /** The strip of `s` is the slice of `s` left between a blank prefix and a
      blank suffix. */
  lemma StripSlice(s: string)
    ensures exists a, b :: 0 <= a <= b <= |s| && Strip(s) == s[a..b] && IsBlank(s[..a]) && IsBlank(s[b..])
  {
    var a, b := TrimSlice(s);
    assert Strip(s) == TrimEnd(TrimStart(s));
  }

  /** Where the two trims cut `s`: the bounds of what is left. */
  lemma TrimSlice(s: string) returns (a: nat, b: nat)
    ensures a <= b <= |s| && TrimEnd(TrimStart(s)) == s[a..b] && IsBlank(s[..a]) && IsBlank(s[b..])
  {
    var t := TrimStart(s);
    var r := TrimEnd(t);
    a, b := |s| - |t|, |s| - |t| + |r|;
    assert r == s[a..b] by {
      assert t == s[a..] && r == t[..|r|];
    }
    TrimStartBlank(s);
    TrimEndBlank(s, t);
  }

  /** What `TrimStart` drops is blank. */
  lemma TrimStartBlank(s: string)
    ensures IsBlank(s[..|s| - |TrimStart(s)|])
  {
    var a := |s| - |TrimStart(s)|;
    forall k | 0 <= k < a ensures IsSpace(s[..a][k]) {
      assert s[..a][k] == s[k];
    }
  }

  /** What `TrimEnd` drops from the end of a suffix `t` of `s` is blank. */
  lemma TrimEndBlank(s: string, t: string)
    requires |t| <= |s| && t == s[|s| - |t|..]
    ensures IsBlank(s[|s| - |t| + |TrimEnd(t)|..])
  {
    var r := TrimEnd(t);
    var b := |s| - |t| + |r|;
    forall k | 0 <= k < |s| - b ensures IsSpace(s[b..][k]) {
      assert s[b..][k] == t[|r| + k];
    }
  }

  /** Text already without whitespace at its ends is its own strip. */
  lemma StripTrimmed(s: string)
    requires s != [] && !IsSpace(s[0]) && !IsSpace(s[|s| - 1])
    ensures Strip(s) == s
  {
    assert TrimStart(s) == s;
  }

  /** Leading whitespace is dropped one character at a time. */
  lemma StripLeadingSpace(s: string)
    requires s != [] && IsSpace(s[0])
    ensures Strip(s) == Strip(s[1..])
  {
  }

  /** Index of the last occurrence of `c` in `s` (Python's `s.rfind(c)`,
      with `None` for -1). */
  function LastIndexOf(s: string, c: char): (r: Option<nat>)
    ensures r.None? <==> c !in s
    ensures r.Some? ==> r.value < |s| && s[r.value] == c && c !in s[r.value + 1..]
  {
    if s == [] then None
    else if s[|s| - 1] == c then Some(|s| - 1)
    else
      var r := LastIndexOf(s[..|s| - 1], c);
      assert s == s[..|s| - 1] + [s[|s| - 1]];
      if r.Some? then
        assert s[r.value + 1..] == s[..|s| - 1][r.value + 1..] + [s[|s| - 1]];
        r
      else r
  }

  /** The last occurrence is the one with no other occurrence after it. */
  lemma LastIndexOfAt(s: string, c: char, i: nat)
    requires i < |s| && s[i] == c && c !in s[i + 1..]
    ensures LastIndexOf(s, c) == Some(i)
  {
    assert c in s;
  }
}
