/** The two response cleaners of `RAGEngine`: `_clean_json_response`, which cuts the
    JSON object out of a generated reply, and `_clean_python_response`, which takes
    the code out of a fenced block. */
module Cleaners {
  import opened PyStr

  const Fence := "```"
  const JsonFence := "```json"
  const PythonFence := "```python"

  /** `re.sub(marker + r'\s*', '', s)`: scanning left to right, every occurrence of
      `marker` is deleted together with the whitespace run after it. */
  function SubMarker(s: string, marker: string): (r: string)
    requires |marker| > 0
    ensures |r| <= |s|
    decreases |s|
  {
    if |s| == 0 then ""
    else if marker <= s then SubMarker(LStrip(s[|marker|..]), marker)
    else [s[0]] + SubMarker(s[1..], marker)
  }

  /** The first step of `_clean_json_response`: both fence markers removed. */
  function StripFences(response: string): string
  {
    SubMarker(SubMarker(response, JsonFence), Fence)
  }

  /** A string that does not start with two backticks keeps that after fence removal. */
  lemma {:induction false} NoLeadingTicks(u: string)
    requires !(|u| >= 2 && u[0] == '`' && u[1] == '`')
    ensures var t := SubMarker(u, Fence); !(|t| >= 2 && t[0] == '`' && t[1] == '`')
  {
    if |u| > 0 {
      assert !(Fence <= u);
      if u[0] == '`' && |u| > 1 {
        assert !(Fence <= u[1..]);
      }
    }
  }

  /** After `re.sub(r'```\s*', '', s)` no triple backtick is left, not even one
      formed by joining the text around a deleted marker. */
  lemma {:induction false} SubFenceLeavesNoFence(s: string)
    ensures !Contains(SubMarker(s, Fence), Fence)
    decreases |s|
  {
    if |s| == 0 {
    } else if Fence <= s {
      SubFenceLeavesNoFence(LStrip(s[|Fence|..]));
    } else {
      var t := SubMarker(s[1..], Fence);
      var r := [s[0]] + t;
      assert SubMarker(s, Fence) == r;
      SubFenceLeavesNoFence(s[1..]);
      if s[0] == '`' {
        NoLeadingTicks(s[1..]);
      }
      assert r[1..] == t;
      AtShift(r, Fence);
      forall j
        ensures !At(r, Fence, j)
      {
        if j == 0 && |r| >= 3 {
          assert r[1] == t[0] && r[2] == t[1];
          assert !(r[0] == '`' && r[1] == '`' && r[2] == '`');
          assert r[0..3][0] == r[0] && r[0..3][1] == r[1] && r[0..3][2] == r[2];
        }
      }
    }
  }

  lemma FenceStrippedHasNoFence(response: string)
    ensures !Contains(StripFences(response), Fence)
  {
    SubFenceLeavesNoFence(SubMarker(response, JsonFence));
  }

  /** Some `{` comes before some `}` in `s`. */
  ghost predicate BraceBeforeBrace(s: string) {
    exists i, j :: 0 <= i < j < |s| && s[i] == '{' && s[j] == '}'
  }

  /** `r` runs from the first `{` of `s` through the last `}` of `s`. */
  ghost predicate OutermostBraces(s: string, r: string) {
    exists a, b :: 0 <= a < b < |s| && r == s[a..b + 1] && s[a] == '{' && s[b] == '}'
                   && (forall k :: 0 <= k < a ==> s[k] != '{')
                   && (forall k :: b < k < |s| ==> s[k] != '}')
  }

  /** `_clean_json_response`: after removing the fence markers, the text from the
      first `{` through the last `}` when a `{` comes before the last `}`;
      otherwise the fence-free text as it is. */
  function CleanJson(response: string): (r: string)
    ensures BraceBeforeBrace(StripFences(response)) ==>
              OutermostBraces(StripFences(response), r) && |r| >= 2 && r[0] == '{' && r[|r| - 1] == '}'
    ensures !BraceBeforeBrace(StripFences(response)) ==> r == StripFences(response)
    ensures !Contains(r, Fence)
  {
    var s := StripFences(response);
    FenceStrippedHasNoFence(response);
    BraceSpanAvoids(s, Fence);
    var span := BraceSpan(s);
    assert !Contains(span, Fence);
    span
  }

  /** `s[s.find('{'):s.rfind('}') + 1]` when that span starts before it ends, else `s`. */
  function BraceSpan(s: string): (r: string)
    ensures BraceBeforeBrace(s) ==> OutermostBraces(s, r) && |r| >= 2 && r[0] == '{' && r[|r| - 1] == '}'
    ensures !BraceBeforeBrace(s) ==> r == s
  {
    var jsonStart := FindIndex(s, "{");
    var jsonEnd := RFindIndex(s, "}") + 1;
    BraceSpanFacts(s);
    if jsonStart != -1 && jsonEnd > jsonStart then s[jsonStart..jsonEnd] else s
  }

  /** The span holds no pattern the whole text does not hold. */
  lemma BraceSpanAvoids(s: string, pat: string)
    requires !Contains(s, pat)
    ensures !Contains(BraceSpan(s), pat)
  {
    var jsonStart := FindIndex(s, "{");
    var jsonEnd := RFindIndex(s, "}") + 1;
    BraceSpanFacts(s);
    if jsonStart != -1 && jsonEnd > jsonStart {
      SliceAvoids(s, pat, jsonStart, jsonEnd);
    }
  }

  /** How `find('{')` and `rfind('}')` relate to the braces of `s`. */
  lemma BraceSpanFacts(s: string)
    ensures var a := FindIndex(s, "{"); var e := RFindIndex(s, "}") + 1;
      && -1 <= a < |s| && 0 <= e <= |s|
      && (a != -1 && e > a <==> BraceBeforeBrace(s))
      && (a != -1 && e > a ==> OutermostBraces(s, s[a..e]))
  {
    var a := FindIndex(s, "{");
    var e := RFindIndex(s, "}") + 1;
    forall k | 0 <= k < |s|
      ensures At(s, "{", k) <==> s[k] == '{'
      ensures At(s, "}", k) <==> s[k] == '}'
    {
      AtChar(s, '{', k);
      AtChar(s, '}', k);
    }
    if a != -1 && e > a {
      assert s[a] == '{' && s[e - 1] == '}';
      assert OutermostBraces(s, s[a..e]);
    }
    if BraceBeforeBrace(s) {
      var i, j :| 0 <= i < j < |s| && s[i] == '{' && s[j] == '}';
      assert At(s, "{", i) && At(s, "}", j);
    }
  }

  /** `_clean_python_response`: the stripped text after the first ```` ```python ````
      marker up to the next fence, else the stripped text between the first two
      ```` ``` ```` fences, else the reply unchanged. */
  function CleanPython(response: string): (r: string)
    ensures !Contains(r, Fence)
    ensures Contains(response, PythonFence) ==>
              r == Strip(Before(Before(After(response, PythonFence), PythonFence), Fence))
    ensures !Contains(response, PythonFence) && Contains(response, Fence) ==>
              r == Strip(Before(After(response, Fence), Fence))
    ensures !Contains(response, Fence) ==> r == response
  {
    PythonFenceHasFence(response);
    if Contains(response, PythonFence) then
      StripKeepsAbsence(Split(Split(response, PythonFence)[1], Fence)[0], Fence);
      Strip(Split(Split(response, PythonFence)[1], Fence)[0])
    else if Contains(response, Fence) then
      BeforeAbsent(Before(After(response, Fence), Fence), Fence);
      StripKeepsAbsence(Split(Split(response, Fence)[1], Fence)[0], Fence);
      Strip(Split(Split(response, Fence)[1], Fence)[0])
    else
      response
  }

  lemma StripKeepsAbsence(s: string, pat: string)
    requires !Contains(s, pat)
    ensures !Contains(Strip(s), pat)
  {
    var o := StripOffset(s);
    var r := Strip(s);
    assert o + |r| <= |s| && r == s[o..o + |r|];
    SliceAvoids(s, pat, o, o + |r|);
  }

  lemma PythonFenceHasFence(s: string)
    ensures Contains(s, PythonFence) ==> Contains(s, Fence)
  {
    if Contains(s, PythonFence) {
      assert PythonFence == Fence + "python";
      ContainsPrefixPattern(s, Fence, "python");
    }
  }

  /** Cleaning twice is cleaning once: the cleaned text has no fence left to find. */
  lemma CleanPythonIdempotent(response: string)
    ensures CleanPython(CleanPython(response)) == CleanPython(response)
  {
    PythonFenceHasFence(CleanPython(response));
  }

  /** Text without the marker's first character has nothing to delete. */
  lemma {:induction false} SubMarkerIdentity(s: string, marker: string)
    requires |marker| > 0
    requires marker[0] !in s
    ensures SubMarker(s, marker) == s
    decreases |s|
  {
    if |s| > 0 {
      assert !(marker <= s);
      SubMarkerIdentity(s[1..], marker);
      assert s == [s[0]] + s[1..];
    }
  }

  /** Text without a backtick has no fence to remove. */
  lemma StripFencesIdentity(s: string)
    requires '`' !in s
    ensures StripFences(s) == s
  {
    SubMarkerIdentity(s, JsonFence);
    SubMarkerIdentity(s, Fence);
  }

  /** When `s` itself starts with `{` and ends with `}`, its outermost braces span all of it. */
  lemma OutermostIsWhole(s: string, r: string)
    requires |s| >= 2 && s[0] == '{' && s[|s| - 1] == '}'
    requires OutermostBraces(s, r)
    ensures r == s
  {
    var a, b :| 0 <= a < b < |s| && r == s[a..b + 1] && s[a] == '{' && s[b] == '}'
                && (forall k :: 0 <= k < a ==> s[k] != '{')
                && (forall k :: b < k < |s| ==> s[k] != '}');
    assert a == 0 && b == |s| - 1;
  }

  /** A reply with no backtick that starts with `{` and ends with `}` is returned whole. */
  lemma CleanJsonKeepsObjectText(s: string)
    requires '`' !in s
    requires |s| >= 2 && s[0] == '{' && s[|s| - 1] == '}'
    ensures CleanJson(s) == s
  {
    StripFencesIdentity(s);
    assert BraceBeforeBrace(s) by {
      assert 0 < |s| - 1 && s[0] == '{' && s[|s| - 1] == '}';
    }
    OutermostIsWhole(s, CleanJson(s));
  }
}
