/** Python `str` primitives the pipeline relies on, over Dafny strings
    (sequences of Unicode scalar values, which is what a Python `str` holds). */
module PyStr {

  datatype Option<+T> = None | Some(value: T) {

    /** `d.get(key, default)` once the lookup has been done. */
    function GetOr(default: T): T {
      match this
      case Some(v) => v
      case None => default
    }
  }

  /** Characters for which `str.isspace()` holds; `re`'s `\s` and `str.strip()` use the same set. */
  predicate IsSpace(c: char) {
    || c == ' '
    || '\t' <= c <= '\r'
    || '\U{1c}' <= c <= '\U{1f}'
    || c == '\U{85}' || c == '\U{a0}' || c == '\U{1680}'
    || '\U{2000}' <= c <= '\U{200a}'
    || c == '\U{2028}' || c == '\U{2029}' || c == '\U{202f}' || c == '\U{205f}' || c == '\U{3000}'
  }

  /** `s.lstrip()`: the suffix left after dropping leading whitespace. */
  function LStrip(s: string): (r: string)
    ensures |r| <= |s| && r == s[|s| - |r|..]
    ensures forall i :: 0 <= i < |s| - |r| ==> IsSpace(s[i])
    ensures |r| > 0 ==> !IsSpace(r[0])
  {
    if |s| > 0 && IsSpace(s[0]) then LStrip(s[1..]) else s
  }

  /** `s.rstrip()`: the prefix left after dropping trailing whitespace. */
  function RStrip(s: string): (r: string)
    ensures |r| <= |s| && r == s[..|r|]
    ensures forall i :: |r| <= i < |s| ==> IsSpace(s[i])
    ensures |r| > 0 ==> !IsSpace(r[|r| - 1])
  {
    if |s| > 0 && IsSpace(s[|s| - 1]) then RStrip(s[..|s| - 1]) else s
  }

  /** `s.strip()`: a contiguous piece of `s` with no whitespace at either end. */
  function Strip(s: string): (r: string)
    ensures |r| > 0 ==> !IsSpace(r[0]) && !IsSpace(r[|r| - 1])
    ensures 0 <= StripOffset(s) <= |s| - |r| && r == s[StripOffset(s)..StripOffset(s) + |r|]
  {
    RStrip(LStrip(s))
  }

  /** Where the stripped text starts inside `s`. */
  function StripOffset(s: string): nat
  {
    |s| - |LStrip(s)|
  }

  /** `pat` occurs in `s` at index `i`. */
  predicate At(s: string, pat: string, i: int) {
    0 <= i && i + |pat| <= |s| && s[i..i + |pat|] == pat
  }

  lemma AtShift(s: string, pat: string)
    requires |s| > 0
    ensures forall j {:trigger At(s, pat, j)} :: 1 <= j ==> (At(s, pat, j) <==> At(s[1..], pat, j - 1))
  {
    forall j | 1 <= j
      ensures At(s, pat, j) <==> At(s[1..], pat, j - 1)
    {
      if j + |pat| <= |s| {
        assert s[1..][j - 1..j - 1 + |pat|] == s[j..j + |pat|];
      }
    }
  }

  /** `s.find(pat)`, with `None` for -1: the least index where `pat` occurs. */
  function Find(s: string, pat: string): (r: Option<nat>)
    ensures r.Some? ==> At(s, pat, r.value) && forall j :: 0 <= j < r.value ==> !At(s, pat, j)
    ensures r.None? ==> forall j :: !At(s, pat, j)
    decreases |s|
  {
    if |s| < |pat| then None
    else if pat <= s then Some(0)
    else
      AtShift(s, pat);
      match Find(s[1..], pat)
      case Some(k) => Some(k + 1)
      case None => None
  }

  lemma AtDropLast(s: string, pat: string)
    requires |s| > 0
    ensures forall j {:trigger At(s, pat, j)} :: j + |pat| < |s| ==> (At(s, pat, j) <==> At(s[..|s| - 1], pat, j))
  {
    forall j | j + |pat| < |s|
      ensures At(s, pat, j) <==> At(s[..|s| - 1], pat, j)
    {
      if 0 <= j {
        assert s[..|s| - 1][j..j + |pat|] == s[j..j + |pat|];
      }
    }
  }

  /** `s.rfind(pat)`, with `None` for -1: the greatest index where `pat` occurs. */
  function RFind(s: string, pat: string): (r: Option<nat>)
    ensures r.Some? ==> At(s, pat, r.value) && forall j :: r.value < j ==> !At(s, pat, j)
    ensures r.None? ==> forall j :: !At(s, pat, j)
    decreases |s|
  {
    if |s| < |pat| then None
    else if s[|s| - |pat|..] == pat then Some(|s| - |pat|)
    else
      AtDropLast(s, pat);
      RFind(s[..|s| - 1], pat)
  }

  /** `s.find(pat)` as Python returns it: -1 when `pat` does not occur. */
  function FindIndex(s: string, pat: string): int {
    match Find(s, pat)
    case Some(i) => i
    case None => -1
  }

  /** `s.rfind(pat)` as Python returns it: -1 when `pat` does not occur. */
  function RFindIndex(s: string, pat: string): int {
    match RFind(s, pat)
    case Some(i) => i
    case None => -1
  }

  /** A one-character pattern occurs exactly where that character is. */
  lemma AtChar(s: string, c: char, i: int)
    ensures At(s, [c], i) <==> 0 <= i < |s| && s[i] == c
  {
    if 0 <= i < |s| {
      assert s[i..i + 1][0] == s[i];
    }
  }

  /** A string without `sep` splits into itself. */
  lemma BeforeAbsent(s: string, sep: string)
    requires |sep| > 0
    requires !Contains(s, sep)
    ensures Before(s, sep) == s
  {
  }

  /** Wherever a string `p + q` occurs, `p` occurs too. */
  lemma ContainsPrefixPattern(s: string, p: string, q: string)
    requires Contains(s, p + q)
    ensures Contains(s, p)
  {
    var i := Find(s, p + q).value;
    assert s[i..i + |p|] == (p + q)[..|p|];
    assert At(s, p, i);
  }

  /** `pat in s`. */
  predicate Contains(s: string, pat: string) {
    Find(s, pat).Some?
  }

  /** A piece of a string without `pat` has no `pat` either. */
  lemma SliceAvoids(s: string, pat: string, a: nat, b: nat)
    requires a <= b <= |s|
    requires !Contains(s, pat)
    ensures !Contains(s[a..b], pat)
  {
    forall j | At(s[a..b], pat, j)
      ensures At(s, pat, a + j)
    {
      forall k | 0 <= k < |pat|
        ensures s[a + j..a + j + |pat|][k] == pat[k]
      {
        assert s[a..b][j..j + |pat|][k] == pat[k];
      }
    }
  }

  /** `s.partition(sep)[0]`: the text before the first `sep`, or all of `s`. */
  function Before(s: string, sep: string): (r: string)
    requires |sep| > 0
    ensures r <= s
    ensures !Contains(r, sep)
  {
    match Find(s, sep)
    case None => s
    case Some(i) => SliceAvoidsPrefix(s, sep, i); s[..i]
  }

  lemma SliceAvoidsPrefix(s: string, sep: string, i: nat)
    requires |sep| > 0
    requires i <= |s|
    requires forall j :: 0 <= j < i ==> !At(s, sep, j)
    ensures !Contains(s[..i], sep)
  {
    forall j | At(s[..i], sep, j)
      ensures At(s, sep, j) && j < i
    {
      assert s[..i][j..j + |sep|] == s[j..j + |sep|];
    }
  }

  /** `s.partition(sep)[2]` when `sep` occurs: the text after its first occurrence. */
  function After(s: string, sep: string): (r: string)
    requires |sep| > 0
    requires Contains(s, sep)
    ensures |r| <= |s|
  {
    s[Find(s, sep).value + |sep|..]
  }

  /** `sep.join(xs)`. */
  function Join(sep: string, xs: seq<string>): string
  {
    if |xs| == 0 then ""
    else if |xs| == 1 then xs[0]
    else xs[0] + sep + Join(sep, xs[1..])
  }

  /** `''.join(xs)`. */
  function Concat(xs: seq<string>): string
  {
    if |xs| == 0 then "" else xs[0] + Concat(xs[1..])
  }

  lemma {:induction false} JoinAvoidsChar(c: char, sep: string, xs: seq<string>)
    requires c !in sep
    requires forall i :: 0 <= i < |xs| ==> c !in xs[i]
    ensures c !in Join(sep, xs)
    decreases |xs|
  {
    if |xs| > 1 {
      JoinAvoidsChar(c, sep, xs[1..]);
    }
  }

  lemma {:induction false} ConcatAvoidsChar(c: char, xs: seq<string>)
    requires forall i :: 0 <= i < |xs| ==> c !in xs[i]
    ensures c !in Concat(xs)
    decreases |xs|
  {
    if |xs| > 0 {
      ConcatAvoidsChar(c, xs[1..]);
    }
  }

  /** `s.split(sep)` for a non-empty separator: the pieces between the
      non-overlapping occurrences of `sep`, found left to right. */
  function Split(s: string, sep: string): (parts: seq<string>)
    requires |sep| > 0
    ensures |parts| >= 1
    ensures parts[0] == Before(s, sep)
    ensures |parts| == 1 <==> !Contains(s, sep)
    ensures |parts| >= 2 ==> parts[1] == Before(After(s, sep), sep)
    ensures Join(sep, parts) == s
    decreases |s|
  {
    match Find(s, sep)
    case None => [s]
    case Some(i) =>
      var rest := Split(s[i + |sep|..], sep);
      assert s == s[..i] + sep + s[i + |sep|..];
      [s[..i]] + rest
  }

  /** ASCII case mapping used for `str.lower()`. */
  function LowerChar(c: char): char {
    if 'A' <= c <= 'Z' then (c as int + 32) as char else c
  }

  /** `s.lower()`, character by character. */
  function Lower(s: string): (r: string)
    ensures |r| == |s|
    ensures forall i :: 0 <= i < |s| ==> r[i] == LowerChar(s[i])
  {
    if |s| == 0 then "" else [LowerChar(s[0])] + Lower(s[1..])
  }

  lemma LowerAppend(a: string, b: string)
    ensures Lower(a + b) == Lower(a) + Lower(b)
  {
    assert forall i :: 0 <= i < |a + b| ==> Lower(a + b)[i] == (Lower(a) + Lower(b))[i];
  }

  /** `s.endswith(suffix)`. */
  predicate EndsWith(s: string, suffix: string) {
    |suffix| <= |s| && s[|s| - |suffix|..] == suffix
  }

  /** `xs[:n]` with Python's slice rule: a negative `n` counts from the end. */
  function PyTake<T>(xs: seq<T>, n: int): (r: seq<T>)
    ensures r <= xs
    ensures n >= 0 ==> |r| == if n < |xs| then n else |xs|
    ensures n < 0 ==> |r| == if |xs| + n > 0 then |xs| + n else 0
  {
    if n >= 0 then (if n < |xs| then xs[..n] else xs)
    else if |xs| + n > 0 then xs[..|xs| + n] else []
  }
}
