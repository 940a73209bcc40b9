/** `_extract_html_elements`: a capped inventory of the page's inputs, buttons,
    selects and identified divs, one line per kept element. */
module Extraction {
  import opened PyStr
  import opened Html

  /** BeautifulSoup parsing as the extractor sees it: `None` when anything inside
      its `try` block raises, including the import. */
  type Parser = string -> Option<seq<Node>>

  const NoElements := "No elements extracted"
  const ExtractionFailed := "HTML structure extraction failed"

  const InputCap := 30
  const ButtonCap := 15
  const SelectCap := 10
  const DivCap := 20

  /** The `Some` entries of `xs`, in order. */
  function Kept(xs: seq<Option<string>>): (r: seq<string>)
    ensures |r| <= |xs|
    ensures forall s :: s in r <==> Some(s) in xs
    ensures (forall i :: 0 <= i < |xs| ==> xs[i].None?) ==> r == []
  {
    if |xs| == 0 then []
    else (if xs[0].Some? then [xs[0].value] else []) + Kept(xs[1..])
  }

  /** Keeping distributes over concatenation, so kept entries stay in their order. */
  lemma {:induction false} KeptAppend(a: seq<Option<string>>, b: seq<Option<string>>)
    ensures Kept(a + b) == Kept(a) + Kept(b)
    decreases |a|
  {
    if |a| == 0 {
      assert a + b == b;
    } else {
      assert (a + b)[0] == a[0];
      assert (a + b)[1..] == a[1..] + b;
      KeptAppend(a[1..], b);
    }
  }

  /** A single entry is dropped when absent and kept as itself when present. */
  lemma KeptSingle(o: Option<string>)
    ensures o.None? ==> Kept([o]) == []
    ensures o.Some? ==> Kept([o]) == [o.value]
  {
    assert [o][1..] == [];
  }

  /** The label each kind of line starts with. */
  const InputTag := "Input: "
  const ButtonTag := "Button: "
  const SelectTag := "Select: "
  const DivTag := "Div: "

  /** Two texts that each continue a quote-free field with a single quote agree
      on the field and on what follows it. */
  lemma SplitAtQuote(x: string, u: string, y: string, v: string)
    requires '\'' !in x && '\'' !in y
    requires x + "'" + u == y + "'" + v
    ensures x == y && u == v
  {
    var s := x + "'" + u;
    assert forall k :: 0 <= k < |x| ==> s[k] == x[k];
    assert forall k :: 0 <= k < |y| ==> s[k] == y[k];
    assert s[|x|] == '\'' && s[|y|] == '\'';
    assert |x| == |y|;
    assert x == s[..|x|] && y == s[..|y|];
    assert u == s[|x| + 1..] && v == s[|y| + 1..];
  }

  /** A common prefix can be dropped from both sides of an equation. */
  lemma DropPrefix(p: string, u: string, v: string)
    requires p + u == p + v
    ensures u == v
  {
    assert u == (p + u)[|p|..] && v == (p + v)[|p|..];
  }

  /** One quoted field of a line, `key='value'`. */
  function Field(key: string, value: string): string {
    key + "='" + value + "'"
  }

  /** One quoted field read back: equal texts that start with the same key hold
      equal quote-free values and equal remainders. */
  lemma FieldReadBack(key: string, a: string, u: string, b: string, v: string)
    requires '\'' !in a && '\'' !in b
    requires Field(key, a) + u == Field(key, b) + v
    ensures a == b && u == v
  {
    var p := key + "='";
    assert Field(key, a) + u == p + (a + "'" + u);
    assert Field(key, b) + v == p + (b + "'" + v);
    DropPrefix(p, a + "'" + u, b + "'" + v);
    SplitAtQuote(a, u, b, v);
  }

  /** A line with a label and two quoted values, `tag k1='v1', k2='v2'`. */
  function TwoFieldLine(tag: string, k1: string, v1: string, k2: string, v2: string): string {
    tag + Field(k1, v1) + ", " + Field(k2, v2)
  }

  /** Two-field lines read back: with no single quote inside the values, lines
      with the same label and keys are equal only for equal values. */
  lemma TwoFieldLineInjective(tag: string, k1: string, k2: string, a1: string, a2: string, b1: string, b2: string)
    requires '\'' !in a1 && '\'' !in a2 && '\'' !in b1 && '\'' !in b2
    requires TwoFieldLine(tag, k1, a1, k2, a2) == TwoFieldLine(tag, k1, b1, k2, b2)
    ensures a1 == b1 && a2 == b2
  {
    var ra := ", " + Field(k2, a2);
    var rb := ", " + Field(k2, b2);
    assert TwoFieldLine(tag, k1, a1, k2, a2) == tag + (Field(k1, a1) + ra);
    assert TwoFieldLine(tag, k1, b1, k2, b2) == tag + (Field(k1, b1) + rb);
    DropPrefix(tag, Field(k1, a1) + ra, Field(k1, b1) + rb);
    FieldReadBack(k1, a1, ra, b1, rb);
    DropPrefix(", ", Field(k2, a2), Field(k2, b2));
    assert Field(k2, a2) + "" == Field(k2, b2) + "";
    FieldReadBack(k2, a2, "", b2, "");
  }

  /** A line with a label and three quoted values, `tag k1='v1', k2='v2', k3='v3'`. */
  function ThreeFieldLine(tag: string, k1: string, v1: string, k2: string, v2: string, k3: string, v3: string): string {
    tag + Field(k1, v1) + ", " + Field(k2, v2) + ", " + Field(k3, v3)
  }

  /** Three-field lines read back: the first field is split off, and what is left
      is a two-field line with the first field and its separator as label. */
  lemma ThreeFieldLineInjective(tag: string, k1: string, k2: string, k3: string,
                                a1: string, a2: string, a3: string, b1: string, b2: string, b3: string)
    requires '\'' !in a1 && '\'' !in a2 && '\'' !in a3
    requires '\'' !in b1 && '\'' !in b2 && '\'' !in b3
    requires ThreeFieldLine(tag, k1, a1, k2, a2, k3, a3) == ThreeFieldLine(tag, k1, b1, k2, b2, k3, b3)
    ensures a1 == b1 && a2 == b2 && a3 == b3
  {
    var ra := ", " + Field(k2, a2) + ", " + Field(k3, a3);
    var rb := ", " + Field(k2, b2) + ", " + Field(k3, b3);
    assert ThreeFieldLine(tag, k1, a1, k2, a2, k3, a3) == tag + (Field(k1, a1) + ra);
    assert ThreeFieldLine(tag, k1, b1, k2, b2, k3, b3) == tag + (Field(k1, b1) + rb);
    DropPrefix(tag, Field(k1, a1) + ra, Field(k1, b1) + rb);
    FieldReadBack(k1, a1, ra, b1, rb);
    assert ra == TwoFieldLine(", ", k2, a2, k3, a3) && rb == TwoFieldLine(", ", k2, b2, k3, b3);
    TwoFieldLineInjective(", ", k2, k3, a2, a3, b2, b3);
  }

  /** The line written for an input with id `id`, name `name` and type `ty`. */
  function InputLineFor(id: string, name: string, ty: string): string {
    ThreeFieldLine(InputTag, "id", id, "name", name, "type", ty)
  }

  /** Input lines read back: with no single quote inside the values, different
      values give different lines. */
  lemma InputLineForInjective(id: string, name: string, ty: string, id2: string, name2: string, ty2: string)
    requires '\'' !in id && '\'' !in name && '\'' !in ty && '\'' !in id2 && '\'' !in name2 && '\'' !in ty2
    requires InputLineFor(id, name, ty) == InputLineFor(id2, name2, ty2)
    ensures id == id2 && name == name2 && ty == ty2
  {
    ThreeFieldLineInjective(InputTag, "id", "name", "type", id, name, ty, id2, name2, ty2);
  }

  /** The line for one `<input>`, kept when it has an id or a name. */
  function InputLine(n: Node): (r: Option<string>)
    ensures r.Some? <==> Attr(n, "id", "") != "" || Attr(n, "name", "") != ""
    ensures r.Some? ==> InputTag <= r.value
    ensures r.Some? ==> r.value == InputLineFor(Attr(n, "id", ""), Attr(n, "name", ""), Attr(n, "type", "text"))
  {
    var id := Attr(n, "id", "");
    var name := Attr(n, "name", "");
    if id != "" || name != "" then Some(InputLineFor(id, name, Attr(n, "type", "text")))
    else None
  }

  /** A kept input without a `type` attribute is listed with type `text`. */
  lemma InputTypeDefaultsToText(n: Node)
    requires Attr(n, "id", "") != "" || Attr(n, "name", "") != ""
    requires !(n.Element? && "type" in n.attrs)
    ensures InputLine(n).Some? && EndsWith(InputLine(n).value, "type='text'")
  {
    var front := InputTag + Field("id", Attr(n, "id", "")) + ", " + Field("name", Attr(n, "name", "")) + ", ";
    assert InputLine(n).value == front + Field("type", "text");
    assert Field("type", "text") == "type='text'";
  }

  /** `button.get_text().strip()[:50]`: at most 50 characters from the start of
      the trimmed text. */
  function ButtonText(n: Node): (t: string)
    ensures |t| <= 50 && t <= Strip(GetText(n))
    ensures |t| == if |Strip(GetText(n))| < 50 then |Strip(GetText(n))| else 50
  {
    PyTake(Strip(GetText(n)), 50)
  }

  /** The line for one `<button>`, kept when it has an id or some text, showing
      both. */
  function ButtonLine(n: Node): (r: Option<string>)
    ensures r.Some? <==> Attr(n, "id", "") != "" || ButtonText(n) != ""
    ensures r.Some? ==> ButtonTag <= r.value
    ensures r.Some? ==> r.value == TwoFieldLine(ButtonTag, "id", Attr(n, "id", ""), "text", ButtonText(n))
  {
    var id := Attr(n, "id", "");
    var text := ButtonText(n);
    if id != "" || text != "" then Some(TwoFieldLine(ButtonTag, "id", id, "text", text)) else None
  }

  /** The line for one `<select>`, kept when it has an id or a name, showing both. */
  function SelectLine(n: Node): (r: Option<string>)
    ensures r.Some? <==> Attr(n, "id", "") != "" || Attr(n, "name", "") != ""
    ensures r.Some? ==> SelectTag <= r.value
    ensures r.Some? ==> r.value == TwoFieldLine(SelectTag, "id", Attr(n, "id", ""), "name", Attr(n, "name", ""))
  {
    var id := Attr(n, "id", "");
    var name := Attr(n, "name", "");
    if id != "" || name != "" then Some(TwoFieldLine(SelectTag, "id", id, "name", name)) else None
  }

  /** The line written for a div with id `id`. */
  function DivLineFor(id: string): string {
    DivTag + Field("id", id)
  }

  /** Different ids give different div lines. */
  lemma DivLineForInjective(a: string, b: string)
    ensures DivLineFor(a) == DivLineFor(b) ==> a == b
  {
    if DivLineFor(a) == DivLineFor(b) {
      var k := |DivTag + "id='"|;
      assert DivLineFor(a) == DivTag + "id='" + a + "'" && DivLineFor(b) == DivTag + "id='" + b + "'";
      assert |a| == |b|;
      assert a == DivLineFor(a)[k..k + |a|];
      assert b == DivLineFor(b)[k..k + |b|];
    }
  }

  /** The line for one `<div>` with an id, dropped for an empty id and for the
      application roots `root` and `app`. */
  function DivLine(n: Node): (r: Option<string>)
    ensures r.Some? <==> Attr(n, "id", "") !in {"", "root", "app"}
    ensures r.Some? ==> DivTag <= r.value && r.value == DivLineFor(Attr(n, "id", ""))
  {
    var id := Attr(n, "id", "");
    if id != "" && id != "root" && id != "app" then Some(DivLineFor(id)) else None
  }

  /** The elements of `xs` that carry an `id` attribute. */
  function HavingId(xs: seq<Node>): (r: seq<Node>)
    ensures |r| <= |xs|
  {
    if |xs| == 0 then []
    else (if xs[0].Element? && "id" in xs[0].attrs then [xs[0]] else []) + HavingId(xs[1..])
  }

  /** The filter keeps exactly the elements that carry an `id`. */
  lemma {:induction false} HavingIdMembers(xs: seq<Node>)
    ensures forall n :: n in HavingId(xs) <==> n in xs && n.Element? && "id" in n.attrs
    decreases |xs|
  {
    if |xs| > 0 {
      HavingIdMembers(xs[1..]);
      assert xs == [xs[0]] + xs[1..];
    }
  }

  /** The id filter distributes over concatenation, so it keeps document order. */
  lemma {:induction false} HavingIdAppend(a: seq<Node>, b: seq<Node>)
    ensures HavingId(a + b) == HavingId(a) + HavingId(b)
    decreases |a|
  {
    if |a| == 0 {
      assert a + b == b;
    } else {
      var head := if a[0].Element? && "id" in a[0].attrs then [a[0]] else [];
      assert (a + b)[0] == a[0];
      assert (a + b)[1..] == a[1..] + b;
      assert HavingId(a + b) == head + HavingId(a[1..] + b);
      assert HavingId(a) == head + HavingId(a[1..]);
      HavingIdAppend(a[1..], b);
    }
  }

  /** A single element is kept exactly when it is an element with an `id`. */
  lemma HavingIdSingle(n: Node)
    ensures HavingId([n]) == if n.Element? && "id" in n.attrs then [n] else []
  {
    assert [n][1..] == [];
  }

  /** `soup.find_all('div', id=True)`. */
  function DivsWithId(roots: seq<Node>): seq<Node> {
    HavingId(FindAll(roots, {"div"}))
  }

  /** The lines of the first `cap` elements of `xs`, in order, dropping those
      `line` rejects. */
  function CappedLines(xs: seq<Node>, cap: nat, line: Node -> Option<string>): (r: seq<string>)
    ensures r == Kept(MapNodes(PyTake(xs, cap), line))
    ensures |r| <= cap
    ensures forall s :: s in r <==> exists i :: 0 <= i < cap && i < |xs| && line(xs[i]) == Some(s)
    ensures (forall i :: 0 <= i < cap && i < |xs| ==> line(xs[i]).None?) ==> r == []
  {
    var shown := PyTake(xs, cap);
    var candidates := MapNodes(shown, line);
    var r := Kept(candidates);
    assert forall s :: s in r <==> exists i :: 0 <= i < cap && i < |xs| && line(xs[i]) == Some(s) by {
      forall s
        ensures s in r <==> exists i :: 0 <= i < cap && i < |xs| && line(xs[i]) == Some(s)
      {
        if s in r {
          var i :| 0 <= i < |candidates| && candidates[i] == Some(s);
          assert xs[i] == shown[i];
        }
        if exists i :: 0 <= i < cap && i < |xs| && line(xs[i]) == Some(s) {
          var i :| 0 <= i < cap && i < |xs| && line(xs[i]) == Some(s);
          assert candidates[i] == Some(s);
        }
      }
    }
    assert (forall i :: 0 <= i < cap && i < |xs| ==> line(xs[i]).None?) ==>
           forall i :: 0 <= i < |candidates| ==> candidates[i].None?;
    r
  }

  /** Capping keeps order: the lines of a list whose first part fits under the cap
      are that part's lines followed by the lines of the rest under the remaining cap. */
  lemma CappedLinesSplit(a: seq<Node>, b: seq<Node>, cap: nat, line: Node -> Option<string>)
    requires |a| <= cap
    ensures CappedLines(a + b, cap, line) == CappedLines(a, cap, line) + CappedLines(b, cap - |a|, line)
  {
    assert PyTake(a + b, cap) == a + PyTake(b, cap - |a|);
    assert PyTake(a, cap) == a;
    MapNodesAppend(a, PyTake(b, cap - |a|), line);
    KeptAppend(MapNodes(a, line), MapNodes(PyTake(b, cap - |a|), line));
  }

  function InputLines(roots: seq<Node>): seq<string> {
    CappedLines(FindAll(roots, {"input"}), InputCap, InputLine)
  }

  function ButtonLines(roots: seq<Node>): seq<string> {
    CappedLines(FindAll(roots, {"button"}), ButtonCap, ButtonLine)
  }

  function SelectLines(roots: seq<Node>): seq<string> {
    CappedLines(FindAll(roots, {"select"}), SelectCap, SelectLine)
  }

  function DivLines(roots: seq<Node>): seq<string> {
    CappedLines(DivsWithId(roots), DivCap, DivLine)
  }

  /** All lines, in the order the extractor appends them. */
  function ElementLines(roots: seq<Node>): seq<string> {
    InputLines(roots) + ButtonLines(roots) + SelectLines(roots) + DivLines(roots)
  }

  /** `_extract_html_elements(html)`: the kept lines joined by newlines, "No
      elements extracted" when none is kept, "HTML structure extraction failed"
      when parsing raised. */
  function ExtractHtmlElements(html: string, parse: Parser): (r: string)
    ensures parse(html).None? ==> r == ExtractionFailed
    ensures parse(html).Some? && |ElementLines(parse(html).value)| == 0 ==> r == NoElements
  {
    match parse(html)
    case None => ExtractionFailed
    case Some(roots) =>
      var lines := ElementLines(roots);
      if |lines| == 0 then NoElements else Join("\n", lines)
  }

  /** Which kind a line is, read from the first letter of its label: 0 for
      inputs, 1 for buttons, 2 for selects, 3 for anything else. */
  function Rank(line: string): nat {
    if |line| == 0 then 3
    else if line[0] == 'I' then 0
    else if line[0] == 'B' then 1
    else if line[0] == 'S' then 2
    else 3
  }

  lemma TagLetters()
    ensures InputTag[0] == 'I' && ButtonTag[0] == 'B' && SelectTag[0] == 'S' && DivTag[0] == 'D'
  {
  }

  /** A line of `CappedLines(xs, cap, line)` is the line of one of the first `cap` elements. */
  lemma LineOrigin(xs: seq<Node>, cap: nat, line: Node -> Option<string>, l: string)
    requires l in CappedLines(xs, cap, line)
    ensures exists i :: 0 <= i < cap && i < |xs| && line(xs[i]) == Some(l)
  {
  }

  /** Every kept line starts with its kind's label. */
  lemma LinesCarryTags(roots: seq<Node>)
    ensures forall l :: l in InputLines(roots) ==> InputTag <= l
    ensures forall l :: l in ButtonLines(roots) ==> ButtonTag <= l
    ensures forall l :: l in SelectLines(roots) ==> SelectTag <= l
    ensures forall l :: l in DivLines(roots) ==> DivTag <= l
  {
    forall l | l in InputLines(roots) ensures InputTag <= l {
      LineOrigin(FindAll(roots, {"input"}), InputCap, InputLine, l);
    }
    forall l | l in ButtonLines(roots) ensures ButtonTag <= l {
      LineOrigin(FindAll(roots, {"button"}), ButtonCap, ButtonLine, l);
    }
    forall l | l in SelectLines(roots) ensures SelectTag <= l {
      LineOrigin(FindAll(roots, {"select"}), SelectCap, SelectLine, l);
    }
    forall l | l in DivLines(roots) ensures DivTag <= l {
      LineOrigin(DivsWithId(roots), DivCap, DivLine, l);
    }
  }

  /** Every line of `lines` has rank `k`. */
  ghost predicate AllRank(lines: seq<string>, k: nat) {
    forall i :: 0 <= i < |lines| ==> Rank(lines[i]) == k
  }

  /** Lines that all start with `tag` all have `tag`'s rank. */
  lemma TaggedRank(lines: seq<string>, tag: string)
    requires |tag| > 0 && forall l :: l in lines ==> tag <= l
    ensures AllRank(lines, Rank(tag))
  {
    forall i | 0 <= i < |lines| ensures Rank(lines[i]) == Rank(tag) {
      assert lines[i] in lines;
      assert lines[i][0] == tag[0];
    }
  }

  lemma KindRanks(roots: seq<Node>)
    ensures AllRank(InputLines(roots), 0) && AllRank(ButtonLines(roots), 1)
    ensures AllRank(SelectLines(roots), 2) && AllRank(DivLines(roots), 3)
  {
    LinesCarryTags(roots);
    TagLetters();
    assert Rank(InputTag) == 0 && Rank(ButtonTag) == 1 && Rank(SelectTag) == 2 && Rank(DivTag) == 3;
    TaggedRank(InputLines(roots), InputTag);
    TaggedRank(ButtonLines(roots), ButtonTag);
    TaggedRank(SelectLines(roots), SelectTag);
    TaggedRank(DivLines(roots), DivTag);
  }

  /** Four runs of ranks 0, 1, 2 and 3, concatenated, are ordered by rank. */
  lemma RunsOrdered(a: seq<string>, b: seq<string>, c: seq<string>, d: seq<string>)
    requires AllRank(a, 0) && AllRank(b, 1) && AllRank(c, 2) && AllRank(d, 3)
    ensures var lines := a + b + c + d;
      forall i, j :: 0 <= i < j < |lines| ==> Rank(lines[i]) <= Rank(lines[j])
  {
    var lines := a + b + c + d;
    forall k | 0 <= k < |lines|
      ensures Rank(lines[k]) == if k < |a| then 0 else if k < |a| + |b| then 1 else if k < |a| + |b| + |c| then 2 else 3
    {
      if k < |a| { assert lines[k] == a[k]; }
      else if k < |a| + |b| { assert lines[k] == b[k - |a|]; }
      else if k < |a| + |b| + |c| { assert lines[k] == c[k - |a| - |b|]; }
      else { assert lines[k] == d[k - |a| - |b| - |c|]; }
    }
  }

  /** The output lists inputs first, then buttons, then selects, then divs. */
  lemma KindOrder(roots: seq<Node>)
    ensures var lines := ElementLines(roots);
      forall i, j :: 0 <= i < j < |lines| ==> Rank(lines[i]) <= Rank(lines[j])
  {
    KindRanks(roots);
    RunsOrdered(InputLines(roots), ButtonLines(roots), SelectLines(roots), DivLines(roots));
  }

  /** At most 30 input, 15 button, 10 select and 20 div lines. */
  lemma PerKindCaps(roots: seq<Node>)
    ensures |InputLines(roots)| <= 30 && |ButtonLines(roots)| <= 15
    ensures |SelectLines(roots)| <= 10 && |DivLines(roots)| <= 20
    ensures |ElementLines(roots)| <= 75
  {
  }

  /** The cap is applied before the filter: when none of the first 30 inputs has an
      id or a name, no input line appears, even if a later input has both. */
  lemma CapBeforeFilter(roots: seq<Node>)
    requires var xs := FindAll(roots, {"input"});
      forall i :: 0 <= i < InputCap && i < |xs| ==> InputLine(xs[i]).None?
    ensures InputLines(roots) == []
  {
  }

  /** No line is written for a div whose id is `root` or `app`. */
  lemma RootDivsDropped(roots: seq<Node>)
    ensures DivLineFor("root") !in DivLines(roots) && DivLineFor("app") !in DivLines(roots)
  {
    forall l | l in DivLines(roots)
      ensures l != DivLineFor("root") && l != DivLineFor("app")
    {
      var xs := DivsWithId(roots);
      LineOrigin(xs, DivCap, DivLine, l);
      var i :| 0 <= i < DivCap && i < |xs| && DivLine(xs[i]) == Some(l);
      var id := Attr(xs[i], "id", "");
      DivLineForInjective(id, "root");
      DivLineForInjective(id, "app");
    }
  }

  lemma {:induction false} JoinStartsWithFirst(sep: string, lines: seq<string>)
    requires |lines| > 0
    ensures lines[0] <= Join(sep, lines)
  {
  }

  /** The first character of any non-empty answer built from lines is the first
      letter of a kind label. */
  lemma JoinedLinesStart(roots: seq<Node>)
    requires |ElementLines(roots)| > 0
    ensures var r := Join("\n", ElementLines(roots));
      |r| > 0 && r[0] in {'I', 'B', 'S', 'D'}
  {
    var lines := ElementLines(roots);
    LinesCarryTags(roots);
    TagLetters();
    JoinStartsWithFirst("\n", lines);
    var l := lines[0];
    assert l in lines;
    assert l in InputLines(roots) || l in ButtonLines(roots) || l in SelectLines(roots) || l in DivLines(roots);
    assert l[0] == InputTag[0] || l[0] == ButtonTag[0] || l[0] == SelectTag[0] || l[0] == DivTag[0];
  }

  /** The two fixed answers are given exactly in their cases: "No elements
      extracted" when parsing worked and nothing was kept, "HTML structure
      extraction failed" when parsing raised; otherwise the lines joined. */
  lemma SentinelsExactly(html: string, parse: Parser)
    ensures ExtractHtmlElements(html, parse) == ExtractionFailed <==> parse(html).None?
    ensures ExtractHtmlElements(html, parse) == NoElements
            <==> parse(html).Some? && |ElementLines(parse(html).value)| == 0
  {
    assert NoElements[0] == 'N' && ExtractionFailed[0] == 'H';
    assert NoElements != ExtractionFailed;
    if parse(html).Some? && |ElementLines(parse(html).value)| > 0 {
      JoinedLinesStart(parse(html).value);
    }
  }
}
