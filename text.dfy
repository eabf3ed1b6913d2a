/**
  Character-level string operations the pipeline relies on: Python's `str.strip()`,
  Spark SQL's `trim`, Python's `sep.join(parts)` (also Spark's `concat_ws` once the
  null entries are dropped) and Python's `s.split(sep)`.
 */
module Text {

  import opened Wrappers

  /** The characters for which Python's `str.isspace()` holds; `strip()`, `int()` and
      `float()` all discard exactly these at the ends of a value. */
  predicate IsSpace(c: char) {
    || ('\t' <= c <= '\r')
    || ('\U{1C}' <= c <= '\U{1F}')
    || c == ' '
    || c == '\U{85}'
    || c == '\U{A0}'
    || c == '\U{1680}'
    || ('\U{2000}' <= c <= '\U{200A}')
    || c == '\U{2028}'
    || c == '\U{2029}'
    || c == '\U{202F}'
    || c == '\U{205F}'
    || c == '\U{3000}'
  }

  predicate AllSpace(s: string) {
    forall i :: 0 <= i < |s| ==> IsSpace(s[i])
  }

  /** Drops the leading whitespace; the result does not start with whitespace. */
  function TrimLeft(s: string): (r: string)
    ensures |r| <= |s|
    ensures r != [] ==> !IsSpace(r[0])
  {
    if s != [] && IsSpace(s[0]) then TrimLeft(s[1..]) else s
  }

  /** Drops the trailing whitespace; the result does not end with whitespace. */
  function TrimRight(s: string): (r: string)
    ensures |r| <= |s|
    ensures r != [] ==> !IsSpace(r[|r| - 1])
  {
    if s != [] && IsSpace(s[|s| - 1]) then TrimRight(s[..|s| - 1]) else s
  }

  /** `TrimLeft(s)` is a suffix of `s`, and everything before it is whitespace. */
  lemma {:induction false} TrimLeftSuffix(s: string)
    ensures TrimLeft(s) == s[|s| - |TrimLeft(s)|..]
    ensures AllSpace(s[..|s| - |TrimLeft(s)|])
  {
    if s != [] && IsSpace(s[0]) {
      TrimLeftSuffix(s[1..]);
      var n := |s| - |TrimLeft(s)|;
      assert s[1..][..n - 1] == s[1..n];
      assert s[..n] == [s[0]] + s[1..n];
    }
  }

  /** `TrimRight(s)` is a prefix of `s`, and everything after it is whitespace. */
  lemma {:induction false} TrimRightPrefix(s: string)
    ensures TrimRight(s) == s[..|TrimRight(s)|]
    ensures AllSpace(s[|TrimRight(s)|..])
  {
    if s != [] && IsSpace(s[|s| - 1]) {
      var t := s[..|s| - 1];
      TrimRightPrefix(t);
      var n := |TrimRight(s)|;
      assert t[..n] == s[..n];
      assert s[n..] == t[n..] + [s[|s| - 1]];
    }
  }

  /** Python's `s.strip()`. */
  function Strip(s: string): string {
    TrimRight(TrimLeft(s))
  }

  /** `Strip(s)` is the slice `s[lo..hi]`, with only whitespace outside it and no
      whitespace at either of its ends. */
  lemma StripIsCore(s: string) returns (lo: nat, hi: nat)
    ensures lo <= hi <= |s| && Strip(s) == s[lo..hi]
    ensures forall k :: 0 <= k < lo ==> IsSpace(s[k])
    ensures forall k :: hi <= k < |s| ==> IsSpace(s[k])
    ensures Strip(s) != [] ==> !IsSpace(Strip(s)[0]) && !IsSpace(Strip(s)[|Strip(s)| - 1])
  {
    var t := TrimLeft(s);
    TrimLeftSuffix(s);
    TrimRightPrefix(t);
    lo := |s| - |t|;
    hi := lo + |TrimRight(t)|;
    assert t == s[lo..];
    assert s[hi..] == t[|TrimRight(t)|..];
    assert t[..hi - lo] == s[lo..hi];
    forall k | 0 <= k < lo ensures IsSpace(s[k]) {
      assert s[..lo][k] == s[k];
    }
    forall k | hi <= k < |s| ensures IsSpace(s[k]) {
      assert s[hi..][k - hi] == s[k];
    }
    if Strip(s) != [] {
      assert Strip(s)[0] == t[0];
    }
  }

  /** A value strips to the empty string exactly when it is all whitespace. */
  lemma StripEmptyIffAllSpace(s: string)
    ensures Strip(s) == [] <==> AllSpace(s)
  {
    var lo, hi := StripIsCore(s);
    if Strip(s) != [] {
      assert s[lo] == Strip(s)[0];
    }
  }

  /** A non-whitespace character of `s` survives stripping. */
  lemma StripKeeps(s: string, i: nat)
    requires i < |s| && !IsSpace(s[i])
    ensures s[i] in Strip(s)
  {
    var lo, hi := StripIsCore(s);
    assert Strip(s)[i - lo] == s[i];
  }

  /** A value without whitespace at its ends is left alone by `Strip`. */
  lemma StripUnpadded(s: string)
    requires s != [] ==> !IsSpace(s[0]) && !IsSpace(s[|s| - 1])
    ensures Strip(s) == s
  {
  }

  /** Stripping twice is stripping once. */
  lemma StripIdempotent(s: string)
    ensures Strip(Strip(s)) == Strip(s)
  {
    var _, _ := StripIsCore(s);
    StripUnpadded(Strip(s));
  }

  lemma {:induction false} TrimLeftPadded(pre: string, x: string)
    requires AllSpace(pre) && (x != [] ==> !IsSpace(x[0]))
    ensures TrimLeft(pre + x) == x
  {
    if pre != [] {
      assert (pre + x)[1..] == pre[1..] + x;
      TrimLeftPadded(pre[1..], x);
    } else {
      assert pre + x == x;
    }
  }

  lemma {:induction false} TrimRightPadded(x: string, post: string)
    requires AllSpace(post) && (x != [] ==> !IsSpace(x[|x| - 1]))
    ensures TrimRight(x + post) == x
  {
    if post != [] {
      assert (x + post)[..|x + post| - 1] == x + post[..|post| - 1];
      TrimRightPadded(x, post[..|post| - 1]);
    } else {
      assert x + post == x;
    }
  }

  /** Whitespace around a value is removed by `Strip`, whatever it was. */
  lemma StripPadded(pre: string, s: string, post: string)
    requires AllSpace(pre) && AllSpace(post)
    requires s != [] ==> !IsSpace(s[0]) && !IsSpace(s[|s| - 1])
    ensures Strip(pre + s + post) == s
  {
    if s != [] {
      assert pre + s + post == pre + (s + post);
      TrimLeftPadded(pre, s + post);
      TrimRightPadded(s, post);
    } else {
      assert pre + s + post == pre + post;
      TrimLeftPadded(pre + post, []);
      assert pre + post + [] == pre + post;
    }
  }

  /** Python's `not (v or "").strip()`: the value is absent or only whitespace. */
  predicate Blank(v: Option<string>) {
    StripOr(v) == ""
  }

  /** Python's `(v or "").strip()`, where `v` is a string or `None`. */
  function StripOr(v: Option<string>): string {
    Strip(v.GetOr(""))
  }

  /** A blank value is one that is absent or made of whitespace only. */
  lemma BlankIffSpaces(v: Option<string>)
    ensures Blank(v) <==> v.None? || AllSpace(v.value)
  {
    if v.Some? {
      StripEmptyIffAllSpace(v.value);
    }
  }

  /** Spark SQL's `trim(str)`: removes leading and trailing U+0020 only. */
  function SparkTrim(s: string): (r: string)
    ensures |r| <= |s|
    ensures r != [] ==> r[0] != ' ' && r[|r| - 1] != ' '
  {
    if s != [] && s[0] == ' ' then SparkTrim(s[1..])
    else if s != [] && s[|s| - 1] == ' ' then SparkTrim(s[..|s| - 1])
    else s
  }

  /** `SparkTrim(s)` is a slice of `s` with only spaces outside it. */
  lemma {:induction false} SparkTrimCore(s: string) returns (a: nat, b: nat)
    ensures a <= b <= |s| && SparkTrim(s) == s[a..b]
    ensures forall k :: 0 <= k < a ==> s[k] == ' '
    ensures forall k :: b <= k < |s| ==> s[k] == ' '
    ensures forall k :: 0 <= k < a ==> IsSpace(s[k])
    ensures forall k :: b <= k < |s| ==> IsSpace(s[k])
    decreases |s|
  {
    if s != [] && s[0] == ' ' {
      var a', b' := SparkTrimCore(s[1..]);
      a, b := a' + 1, b' + 1;
      assert s[1..][a'..b'] == s[a..b];
      forall k | 0 <= k < a ensures s[k] == ' ' {
        if k > 0 { assert s[1..][k - 1] == s[k]; }
      }
      forall k | b <= k < |s| ensures s[k] == ' ' {
        assert s[1..][k - 1] == s[k];
      }
    } else if s != [] && s[|s| - 1] == ' ' {
      a, b := SparkTrimCore(s[..|s| - 1]);
      assert s[..|s| - 1][a..b] == s[a..b];
      forall k | b <= k < |s| ensures s[k] == ' ' {
        if k < |s| - 1 { assert s[..|s| - 1][k] == s[k]; }
      }
    } else {
      a, b := 0, |s|;
    }
  }

  /** Spark's `trim` only ever removes what Python's `strip` removes, so stripping after it
      changes nothing. */
  lemma StripAfterSparkTrim(s: string)
    ensures Strip(SparkTrim(s)) == Strip(s)
  {
    var a, b := SparkTrimCore(s);
    var lo, hi := StripIsCore(s[a..b]);
    var pre, core, post := Nested(s, a, b, lo, hi);
    SpacesOutside(s, a, b);
    SpacesOutside(s[a..b], lo, hi);
    StripPadded(pre, core, post);
  }

  /** A string of U+0020 characters only. */
  predicate OnlyBlanks(s: string) {
    forall i :: 0 <= i < |s| ==> s[i] == ' '
  }

  /** Spark's `trim` empties exactly the strings made of U+0020 only. */
  lemma SparkTrimEmptyIff(s: string)
    ensures SparkTrim(s) == [] <==> OnlyBlanks(s)
  {
    var a, b := SparkTrimCore(s);
    if SparkTrim(s) != [] {
      assert s[a] == SparkTrim(s)[0];
    }
  }

  /** Cutting a slice of a slice out of `s` leaves one piece on each side. */
  lemma Nested(s: string, a: nat, b: nat, lo: nat, hi: nat) returns (pre: string, core: string, post: string)
    requires a <= b <= |s| && lo <= hi <= b - a
    ensures s == pre + core + post && core == s[a..b][lo..hi]
    ensures pre == s[..a] + s[a..b][..lo] && post == s[a..b][hi..] + s[b..]
  {
    var t := s[a..b];
    pre, core, post := s[..a] + t[..lo], t[lo..hi], t[hi..] + s[b..];
    assert t == t[..lo] + t[lo..hi] + t[hi..];
    assert s == s[..a] + t + s[b..];
  }

  /** Every character outside `s[lo..hi]` being whitespace is `AllSpace` of both sides. */
  lemma SpacesOutside(s: string, lo: nat, hi: nat)
    requires lo <= hi <= |s|
    requires forall k :: 0 <= k < lo ==> IsSpace(s[k])
    requires forall k :: hi <= k < |s| ==> IsSpace(s[k])
    ensures AllSpace(s[..lo]) && AllSpace(s[hi..])
  {
    assert forall k :: 0 <= k < lo ==> s[..lo][k] == s[k];
    assert forall k :: 0 <= k < |s| - hi ==> s[hi..][k] == s[hi + k];
  }

  /** Python's `sep.join(parts)`. */
  function Join(sep: string, parts: seq<string>): string {
    if |parts| == 0 then ""
    else if |parts| == 1 then parts[0]
    else parts[0] + sep + Join(sep, parts[1..])
  }

  /** The first index at which `sep` occurs in `s`. */
  function Find(s: string, sep: string): (r: Option<nat>)
    requires sep != []
    ensures r.Some? ==> r.value + |sep| <= |s| && s[r.value..r.value + |sep|] == sep
    decreases |s|
  {
    if |s| < |sep| then None
    else if s[..|sep|] == sep then Some(0)
    else match Find(s[1..], sep)
      case None => None
      case Some(i) => Some(i + 1)
  }

  /** Python's `s.split(sep)`: the pieces between the non-overlapping occurrences of `sep`,
      scanned from the left. */
  function Split(s: string, sep: string): seq<string>
    requires sep != []
    decreases |s|
  {
    match Find(s, sep)
    case None => [s]
    case Some(i) => [s[..i]] + Split(s[i + |sep|..], sep)
  }

  /** In `p + sep + rest`, with the first character of `sep` nowhere in `p`, the first
      occurrence of `sep` is right after `p`; in `p` alone there is none. */
  lemma {:induction false} FindAfterPiece(p: string, sep: string, rest: string)
    requires sep != [] && sep[0] !in p
    ensures Find(p + sep + rest, sep) == Some(|p|)
    ensures Find(p, sep) == None
    decreases |p|
  {
    if p != [] {
      assert (p + sep + rest)[1..] == p[1..] + sep + rest;
      assert (p + sep + rest)[..|sep|][0] == p[0];
      FindAfterPiece(p[1..], sep, rest);
    } else {
      assert (p + sep + rest)[..|sep|] == sep;
    }
  }

  /** Splitting a join gives back the parts, provided no part contains the separator's
      first character. */
  lemma {:induction false} SplitJoin(sep: string, parts: seq<string>)
    requires sep != [] && |parts| > 0
    requires forall i :: 0 <= i < |parts| ==> sep[0] !in parts[i]
    ensures Split(Join(sep, parts), sep) == parts
  {
    if |parts| == 1 {
      FindAfterPiece(parts[0], sep, "");
    } else {
      var s := Join(sep, parts);
      FindAfterPiece(parts[0], sep, Join(sep, parts[1..]));
      assert s[|parts[0]| + |sep|..] == Join(sep, parts[1..]);
      assert s[..|parts[0]|] == parts[0];
      SplitJoin(sep, parts[1..]);
    }
  }

  /** A join of non-empty parts is empty only when there are no parts. */
  lemma JoinEmpty(sep: string, parts: seq<string>)
    requires forall i :: 0 <= i < |parts| ==> parts[i] != []
    ensures Join(sep, parts) == [] <==> parts == []
  {
    if |parts| > 1 {
      assert |Join(sep, parts)| >= |parts[0]|;
    }
  }

  /** The first and last characters of a join are those of its first and last parts. */
  lemma {:induction false} JoinEnds(sep: string, parts: seq<string>)
    requires |parts| > 0 && forall i :: 0 <= i < |parts| ==> parts[i] != []
    ensures Join(sep, parts) != []
    ensures Join(sep, parts)[0] == parts[0][0]
    ensures Join(sep, parts)[|Join(sep, parts)| - 1] == parts[|parts| - 1][|parts[|parts| - 1]| - 1]
  {
    if |parts| > 1 {
      JoinEnds(sep, parts[1..]);
      var tail := Join(sep, parts[1..]);
      assert Join(sep, parts) == parts[0] + sep + tail;
    }
  }
}
