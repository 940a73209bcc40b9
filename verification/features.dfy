/** `_extract_html_features`: the readable summary of a page that the document
    processor stores for HTML — title, forms with their inputs, buttons, selects
    and headings, each section opened by a header line. */
module Features {
  import opened PyStr
  import opened Decimal
  import opened Html

  /** `BeautifulSoup(html, 'html.parser')`, which accepts any text. */
  type Soup = string -> seq<Node>

  const TitleLabel := "Page Title: "
  const Bullet := "  - "
  const ButtonsHeader := "\nButtons:"
  const SelectsHeader := "\nSelect Elements:"
  const HeadingsHeader := "\nPage Headers:"

  /** The header line of the `k`-th form, counting from 1. */
  function FormHeader(k: nat): string {
    "\nForm " + NatToString(k) + ":"
  }

  /** A section header is a line that begins with a newline. */
  predicate IsHeader(line: string) {
    |line| > 0 && line[0] == '\n'
  }

  /** The title line, when the page has a `<title>`. */
  function TitleLines(roots: seq<Node>): (r: seq<string>)
    ensures |r| <= 1
    ensures |r| == 1 <==> FindFirst(roots, "title").Some?
    ensures |r| == 1 ==> r[0] == TitleLabel + GetText(FindFirst(roots, "title").value)
  {
    match FindFirst(roots, "title")
    case None => []
    case Some(t) => [TitleLabel + GetText(t)]
  }

  function InputItem(n: Node): string {
    Bullet + ("Input: type=" + Attr(n, "type", "text") + ", id=" + Attr(n, "id", "") + ", name=" + Attr(n, "name", ""))
  }

  /** An input without a `type` attribute is listed with type `text`. */
  lemma InputTypeDefaultsToText(n: Node)
    requires !(n.Element? && "type" in n.attrs)
    ensures Bullet + "Input: type=text, id=" <= InputItem(n)
  {
    var rest := Attr(n, "id", "") + ", name=" + Attr(n, "name", "");
    assert InputItem(n) == Bullet + "Input: type=text, id=" + rest;
  }

  function ButtonItem(n: Node): string {
    Bullet + ("Button: id=" + Attr(n, "id", "") + ", text='" + Strip(GetText(n)) + "'")
  }

  function SelectItem(n: Node): string {
    Bullet + ("Select: id=" + Attr(n, "id", "") + ", name=" + Attr(n, "name", ""))
  }

  /** The tag name of an element (`h.name`). */
  function TagName(n: Node): string {
    match n
    case Text(_) => ""
    case Element(tag, _, _) => tag
  }

  function HeadingItem(n: Node): string {
    Bullet + (TagName(n) + ": " + Strip(GetText(n)))
  }

  /** The forms' lines: each form's header, numbered from `start + 1`, followed by
      one line per input inside it. */
  function FormLines(forms: seq<Node>, start: nat): seq<string>
  {
    if |forms| == 0 then []
    else [FormHeader(start + 1)] + MapNodes(FindAllIn(forms[0], {"input"}), InputItem) + FormLines(forms[1..], start + 1)
  }

  function Forms(roots: seq<Node>): seq<Node> { FindAll(roots, {"form"}) }
  function Buttons(roots: seq<Node>): seq<Node> { FindAll(roots, {"button"}) }
  function Selects(roots: seq<Node>): seq<Node> { FindAll(roots, {"select"}) }
  function Headings(roots: seq<Node>): seq<Node> { FindAll(roots, {"h1", "h2", "h3"}) }

  /** The buttons section, present even when the page has no button. */
  function ButtonSection(roots: seq<Node>): seq<string> {
    [ButtonsHeader] + MapNodes(Buttons(roots), ButtonItem)
  }

  /** The selects section, only when the page has a select. */
  function SelectSection(roots: seq<Node>): seq<string> {
    if |Selects(roots)| > 0 then [SelectsHeader] + MapNodes(Selects(roots), SelectItem) else []
  }

  /** The headings section, only when the page has an `h1`, `h2` or `h3`. */
  function HeadingSection(roots: seq<Node>): seq<string> {
    if |Headings(roots)| > 0 then [HeadingsHeader] + MapNodes(Headings(roots), HeadingItem) else []
  }

  /** The list `features` in the order the extractor builds it. */
  function FeatureLines(roots: seq<Node>): seq<string> {
    TitleLines(roots) + FormLines(Forms(roots), 0) + ButtonSection(roots) + SelectSection(roots) + HeadingSection(roots)
  }

  /** `_extract_html_features(html)`: the feature lines joined by newlines; never
      empty, since the buttons header is always present. */
  function ExtractHtmlFeatures(html: string, soup: Soup): (r: string)
    ensures |r| > 0
  {
    var lines := FeatureLines(soup(html));
    JoinNonEmpty("\n", lines, |TitleLines(soup(html)) + FormLines(Forms(soup(html)), 0)|);
    Join("\n", lines)
  }

  /** A joined list with a non-empty line is non-empty. */
  lemma {:induction false} JoinNonEmpty(sep: string, lines: seq<string>, k: nat)
    requires k < |lines| && |lines[k]| > 0
    ensures |Join(sep, lines)| > 0
    decreases k
  {
    if k > 0 && |lines| > 1 {
      JoinNonEmpty(sep, lines[1..], k - 1);
    }
  }

  /** The header lines of `lines`, in order. */
  function Headers(lines: seq<string>): (r: seq<string>)
    ensures |r| <= |lines|
  {
    if |lines| == 0 then []
    else (if IsHeader(lines[0]) then [lines[0]] else []) + Headers(lines[1..])
  }

  lemma {:induction false} HeadersAppend(a: seq<string>, b: seq<string>)
    ensures Headers(a + b) == Headers(a) + Headers(b)
    decreases |a|
  {
    if |a| > 0 {
      assert (a + b)[1..] == a[1..] + b;
      HeadersAppend(a[1..], b);
    } else {
      assert a + b == b;
    }
  }

  lemma BulletIsNotHeader(s: string)
    ensures !IsHeader(Bullet + s)
  {
    assert (Bullet + s)[0] == Bullet[0];
  }

  /** Item lines never count as headers. */
  lemma {:induction false} ItemsHaveNoHeaders(xs: seq<Node>, item: Node -> string)
    requires forall n :: n in xs ==> |item(n)| > 0 && item(n)[0] == ' '
    ensures Headers(MapNodes(xs, item)) == []
    decreases |xs|
  {
    if |xs| > 0 {
      assert xs[0] in xs;
      assert MapNodes(xs, item) == [item(xs[0])] + MapNodes(xs[1..], item);
      ItemsHaveNoHeaders(xs[1..], item);
    }
  }

  lemma ItemKindsHaveNoHeaders(roots: seq<Node>, forms: seq<Node>)
    ensures Headers(MapNodes(Buttons(roots), ButtonItem)) == []
    ensures Headers(MapNodes(Selects(roots), SelectItem)) == []
    ensures Headers(MapNodes(Headings(roots), HeadingItem)) == []
    ensures forall f :: Headers(MapNodes(FindAllIn(f, {"input"}), InputItem)) == []
  {
    assert Bullet[0] == ' ';
    ItemsHaveNoHeaders(Buttons(roots), ButtonItem);
    ItemsHaveNoHeaders(Selects(roots), SelectItem);
    ItemsHaveNoHeaders(Headings(roots), HeadingItem);
    forall f ensures Headers(MapNodes(FindAllIn(f, {"input"}), InputItem)) == [] {
      ItemsHaveNoHeaders(FindAllIn(f, {"input"}), InputItem);
    }
  }

  /** The headers of `count` forms numbered from `start + 1`. */
  function NumberedForms(count: nat, start: nat): (r: seq<string>)
    ensures |r| == count
    ensures forall i :: 0 <= i < count ==> r[i] == FormHeader(start + i + 1)
  {
    if count == 0 then [] else [FormHeader(start + 1)] + NumberedForms(count - 1, start + 1)
  }

  /** The forms contribute exactly their numbered headers, in document order. */
  lemma {:induction false} FormHeaders(forms: seq<Node>, start: nat)
    ensures Headers(FormLines(forms, start)) == NumberedForms(|forms|, start)
    decreases |forms|
  {
    if |forms| > 0 {
      var inputs := MapNodes(FindAllIn(forms[0], {"input"}), InputItem);
      ItemKindsHaveNoHeaders([], []);
      HeadersAppend([FormHeader(start + 1)] + inputs, FormLines(forms[1..], start + 1));
      HeadersAppend([FormHeader(start + 1)], inputs);
      assert Headers([FormHeader(start + 1)]) == [FormHeader(start + 1)] by {
        assert FormHeader(start + 1)[0] == '\n';
      }
      FormHeaders(forms[1..], start + 1);
    }
  }

  lemma HeadersOfParts(t: seq<string>, f: seq<string>, b: seq<string>, s: seq<string>, h: seq<string>)
    ensures Headers(t + f + b + s + h) == Headers(t) + Headers(f) + Headers(b) + Headers(s) + Headers(h)
  {
    HeadersAppend(t + f + b + s, h);
    HeadersAppend(t + f + b, s);
    HeadersAppend(t + f, b);
    HeadersAppend(t, f);
  }

  /** A section, its header line followed by item lines, has that one header. */
  lemma SectionHeader(header: string, items: seq<string>)
    requires IsHeader(header) && Headers(items) == []
    ensures Headers([header] + items) == [header]
  {
    HeadersAppend([header], items);
  }

  lemma TitleIsNotHeader(roots: seq<Node>)
    ensures Headers(TitleLines(roots)) == []
  {
    match FindFirst(roots, "title")
    case None =>
    case Some(title) =>
      var line := TitleLabel + GetText(title);
      assert line[0] == TitleLabel[0];
      assert Headers([line]) == [] + Headers([]);
  }

  lemma ButtonSectionHeaders(roots: seq<Node>)
    ensures Headers(ButtonSection(roots)) == [ButtonsHeader]
  {
    ItemKindsHaveNoHeaders(roots, []);
    assert ButtonsHeader[0] == '\n';
    SectionHeader(ButtonsHeader, MapNodes(Buttons(roots), ButtonItem));
  }

  lemma SelectSectionHeaders(roots: seq<Node>)
    ensures Headers(SelectSection(roots)) == if |Selects(roots)| > 0 then [SelectsHeader] else []
  {
    if |Selects(roots)| > 0 {
      ItemKindsHaveNoHeaders(roots, []);
      assert SelectsHeader[0] == '\n';
      SectionHeader(SelectsHeader, MapNodes(Selects(roots), SelectItem));
    }
  }

  lemma HeadingSectionHeaders(roots: seq<Node>)
    ensures Headers(HeadingSection(roots)) == if |Headings(roots)| > 0 then [HeadingsHeader] else []
  {
    if |Headings(roots)| > 0 {
      ItemKindsHaveNoHeaders(roots, []);
      assert HeadingsHeader[0] == '\n';
      SectionHeader(HeadingsHeader, MapNodes(Headings(roots), HeadingItem));
    }
  }

  /** The section headers of the summary: one numbered header per form, then
      "Buttons:", then "Select Elements:" exactly when the page has a select, then
      "Page Headers:" exactly when it has an `h1`, `h2` or `h3`. */
  lemma SectionHeaders(roots: seq<Node>)
    ensures Headers(FeatureLines(roots))
            == NumberedForms(|Forms(roots)|, 0)
               + [ButtonsHeader]
               + (if |Selects(roots)| > 0 then [SelectsHeader] else [])
               + (if |Headings(roots)| > 0 then [HeadingsHeader] else [])
  {
    var t, f, b, s, h := TitleLines(roots), FormLines(Forms(roots), 0), ButtonSection(roots), SelectSection(roots), HeadingSection(roots);
    assert FeatureLines(roots) == t + f + b + s + h;
    HeadersOfParts(t, f, b, s, h);
    TitleIsNotHeader(roots);
    FormHeaders(Forms(roots), 0);
    ButtonSectionHeaders(roots);
    SelectSectionHeaders(roots);
    HeadingSectionHeaders(roots);
    var nf := NumberedForms(|Forms(roots)|, 0);
    assert Headers(t) + Headers(f) == nf;
  }

  /** The summary opens with the title line exactly when the page has a `<title>`. */
  lemma TitleComesFirst(roots: seq<Node>)
    ensures |FeatureLines(roots)| > 0
    ensures TitleLabel <= FeatureLines(roots)[0] <==> FindFirst(roots, "title").Some?
    ensures FindFirst(roots, "title").Some? ==>
              FeatureLines(roots)[0] == TitleLabel + GetText(FindFirst(roots, "title").value)
  {
    var lines := FeatureLines(roots);
    if FindFirst(roots, "title").None? {
      var forms := Forms(roots);
      assert lines[0] == if |forms| > 0 then FormHeader(1) else ButtonsHeader;
      assert lines[0][0] == '\n';
      assert TitleLabel[0] == 'P';
    }
  }
}
