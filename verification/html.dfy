/** The parsed HTML tree the two extractors walk, with the BeautifulSoup queries
    they use: `find_all`, `find`, `get_text` and `get`. Parsing itself is library
    code; extractors receive its result. */
module Html {
  import opened PyStr

  /** A parsed node: text, or an element with its (lower-case) tag name, its
      attributes and its children in document order. */
  datatype Node =
    | Text(text: string)
    | Element(tag: string, attrs: map<string, string>, children: seq<Node>)

  /** Every element of `forest` and below, in document order (an element before
      its descendants). */
  function Elements(forest: seq<Node>): (r: seq<Node>)
    ensures forall i :: 0 <= i < |r| ==> r[i].Element?
    decreases forest
  {
    if |forest| == 0 then []
    else
      var first := match forest[0]
        case Text(_) => []
        case Element(_, _, kids) => [forest[0]] + Elements(kids);
      first + Elements(forest[1..])
  }

  /** The elements of `xs` whose tag is in `tags`, in order. */
  function WithTag(xs: seq<Node>, tags: set<string>): (r: seq<Node>)
    ensures |r| <= |xs|
    ensures forall n :: n in r <==> n in xs && n.Element? && n.tag in tags
  {
    if |xs| == 0 then []
    else (if xs[0].Element? && xs[0].tag in tags then [xs[0]] else []) + WithTag(xs[1..], tags)
  }

  /** `find_all(tags)` over the descendants of `forest`'s roots and the roots themselves. */
  function FindAll(forest: seq<Node>, tags: set<string>): seq<Node> {
    WithTag(Elements(forest), tags)
  }

  /** `find(tag)`: the first element with that tag, if any. */
  function FindFirst(forest: seq<Node>, tag: string): (r: Option<Node>)
    ensures r.None? <==> |FindAll(forest, {tag})| == 0
    ensures r.Some? ==> r.value == FindAll(forest, {tag})[0]
  {
    var all := FindAll(forest, {tag});
    if |all| == 0 then None else Some(all[0])
  }

  /** `n.find_all(tags)`: the matching descendants of `n`, without `n` itself. */
  function FindAllIn(n: Node, tags: set<string>): seq<Node> {
    match n
    case Text(_) => []
    case Element(_, _, kids) => FindAll(kids, tags)
  }

  /** The text below `forest`, concatenated in document order. */
  function TextOf(forest: seq<Node>): string
    decreases forest
  {
    if |forest| == 0 then ""
    else
      var first := match forest[0]
        case Text(t) => t
        case Element(_, _, kids) => TextOf(kids);
      first + TextOf(forest[1..])
  }

  /** `n.get_text()`. */
  function GetText(n: Node): string {
    match n
    case Text(t) => t
    case Element(_, _, kids) => TextOf(kids)
  }

  /** `n.get(key, default)`. */
  function Attr(n: Node, key: string, default: string): (r: string)
    ensures n.Element? && key in n.attrs ==> r == n.attrs[key]
    ensures !(n.Element? && key in n.attrs) ==> r == default
  {
    if n.Element? && key in n.attrs then n.attrs[key] else default
  }

  /** What `f` makes of each element of `xs`, in order: the list comprehension
      `[f(x) for x in xs]`. */
  function MapNodes<T>(xs: seq<Node>, f: Node -> T): (r: seq<T>)
    ensures |r| == |xs|
    ensures forall i :: 0 <= i < |xs| ==> r[i] == f(xs[i])
  {
    seq(|xs|, i requires 0 <= i < |xs| => f(xs[i]))
  }

  /** Mapping a concatenation maps each part. */
  lemma MapNodesAppend<T>(a: seq<Node>, b: seq<Node>, f: Node -> T)
    ensures MapNodes(a + b, f) == MapNodes(a, f) + MapNodes(b, f)
  {
  }
}
