/** Decoded JSON values, dict lookup, and the text `json.dumps` produces for them
    (default `ensure_ascii`, compact or with `indent`). */
module JsonValue {
  import opened PyStr
  import Decimal

  /** What `json.loads` yields; objects keep their members in document order.
      Floating-point numbers are not represented. */
  datatype Json =
    | JNull
    | JBool(b: bool)
    | JInt(n: int)
    | JString(s: string)
    | JArray(items: seq<Json>)
    | JObject(fields: seq<(string, Json)>)

  /** `d.get(key)` on the dict decoded from `fields`: a repeated key keeps its last value. */
  function Get(fields: seq<(string, Json)>, key: string): (r: Option<Json>)
    ensures r.None? <==> forall i :: 0 <= i < |fields| ==> fields[i].0 != key
    ensures r.Some? ==> exists i :: 0 <= i < |fields| && fields[i] == (key, r.value)
                                   && forall k :: i < k < |fields| ==> fields[k].0 != key
  {
    if |fields| == 0 then None
    else if fields[|fields| - 1].0 == key then Some(fields[|fields| - 1].1)
    else Get(fields[..|fields| - 1], key)
  }

  /** In an object with distinct keys, looking a key up finds its one value. */
  lemma GetDistinct(fields: seq<(string, Json)>, i: nat)
    requires i < |fields|
    requires forall a, b :: 0 <= a < b < |fields| ==> fields[a].0 != fields[b].0
    ensures Get(fields, fields[i].0) == Some(fields[i].1)
  {
    var r := Get(fields, fields[i].0);
    var k :| 0 <= k < |fields| && fields[k] == (fields[i].0, r.value);
    assert k == i;
  }

  /** Every object inside `j` has pairwise distinct keys: the values a Python dict
      can hold, and so the values `json.loads(json.dumps(j))` gives back unchanged. */
  ghost predicate DistinctKeys(j: Json) {
    match j
    case JArray(items) => forall i :: 0 <= i < |items| ==> DistinctKeys(items[i])
    case JObject(fields) =>
      && (forall a, b :: 0 <= a < b < |fields| ==> fields[a].0 != fields[b].0)
      && (forall i :: 0 <= i < |fields| ==> DistinctKeys(fields[i].1))
    case _ => true
  }

  /** No key or string inside `j` contains `c`. */
  ghost predicate TextAvoids(j: Json, c: char) {
    match j
    case JString(s) => c !in s
    case JArray(items) => forall i :: 0 <= i < |items| ==> TextAvoids(items[i], c)
    case JObject(fields) => forall i :: 0 <= i < |fields| ==> c !in fields[i].0 && TextAvoids(fields[i].1, c)
    case _ => true
  }

  /** `json.loads`: `None` when it raises `JSONDecodeError`. */
  type Loads = string -> Option<Json>

  /** `json.dumps(x)` is `Compact`; `json.dumps(x, indent=w)` is `Indented(w)`. */
  datatype Layout = Compact | Indented(width: nat)

  /** `\uXXXX` with four lower-case hex digits. */
  function UnicodeEscape(code: nat): (r: string)
    requires code < 0x10000
    ensures |r| == 6 && r[..2] == "\\u"
    ensures forall i :: 0 <= i < |r| ==> ' ' <= r[i] <= '~' && r[i] != '`'
  {
    "\\u" + [Decimal.HexDigit(code / 0x1000), Decimal.HexDigit(code / 0x100 % 16), Decimal.HexDigit(code / 0x10 % 16), Decimal.HexDigit(code % 16)]
  }

  /** How the ASCII-only encoder writes one character of a string. */
  function EscapeChar(c: char): (r: string)
    ensures |r| >= 1
    ensures forall i :: 0 <= i < |r| ==> ' ' <= r[i] <= '~'
    ensures c != '`' ==> '`' !in r
  {
    if c == '"' then "\\\""
    else if c == '\\' then "\\\\"
    else if c == '\n' then "\\n"
    else if c == '\r' then "\\r"
    else if c == '\t' then "\\t"
    else if c == '\U{8}' then "\\b"
    else if c == '\U{c}' then "\\f"
    else if ' ' <= c <= '~' then [c]
    else if c as int < 0x10000 then UnicodeEscape(c as int)
    else
      var v := c as int - 0x10000;
      UnicodeEscape(0xd800 + v / 0x400) + UnicodeEscape(0xdc00 + v % 0x400)
  }

  /** A string literal: the escaped characters between double quotes. */
  function Quote(s: string): (r: string)
    ensures |r| >= 2 && r[0] == '"' && r[|r| - 1] == '"'
  {
    "\"" + Concat(seq(|s|, i requires 0 <= i < |s| => EscapeChar(s[i]))) + "\""
  }

  function Spaces(k: nat): string {
    seq(k, _ => ' ')
  }

  /** An array or object body: `open` and `close` around the already written members. */
  function Container(open: char, close: char, parts: seq<string>, layout: Layout, level: nat): (r: string)
    ensures |r| >= 2 && r[0] == open && r[|r| - 1] == close
  {
    if |parts| == 0 then [open, close]
    else match layout
      case Compact => [open] + Join(", ", parts) + [close]
      case Indented(w) =>
        var newline := "\n" + Spaces(w * (level + 1));
        [open] + newline + Join("," + newline, parts) + "\n" + Spaces(w * level) + [close]
  }

  /** The text `json.dumps` writes for `j` at nesting depth `level`. */
  function Serialize(j: Json, layout: Layout, level: nat): string
  {
    match j
    case JNull => "null"
    case JBool(b) => if b then "true" else "false"
    case JInt(n) => Decimal.IntToString(n)
    case JString(s) => Quote(s)
    case JArray(items) =>
      Container('[', ']', seq(|items|, i requires 0 <= i < |items| => Serialize(items[i], layout, level + 1)), layout, level)
    case JObject(fields) =>
      Container('{', '}', seq(|fields|, i requires 0 <= i < |fields| =>
                                Quote(fields[i].0) + ": " + Serialize(fields[i].1, layout, level + 1)), layout, level)
  }

  /** `json.dumps(j)`. */
  function Dumps(j: Json): (r: string)
    ensures j.JObject? ==> |r| >= 2 && r[0] == '{' && r[|r| - 1] == '}'
  {
    Serialize(j, Compact, 0)
  }

  lemma QuoteAvoidsBacktick(s: string)
    requires '`' !in s
    ensures '`' !in Quote(s)
  {
    var parts := seq(|s|, i requires 0 <= i < |s| => EscapeChar(s[i]));
    ConcatAvoidsChar('`', parts);
  }

  lemma SpacesAvoidBacktick(k: nat)
    ensures '`' !in Spaces(k)
  {
  }

  /** A value whose strings have no backtick is written without one: the
      encoder's escapes, brackets, separators and literals never use it. */
  lemma {:induction false} SerializeAvoidsBacktick(j: Json, layout: Layout, level: nat)
    requires TextAvoids(j, '`')
    ensures '`' !in Serialize(j, layout, level)
    decreases j
  {
    match j
    case JNull =>
    case JBool(b) =>
    case JInt(n) =>
      var t := Decimal.NatToString(if n < 0 then -n else n);
      assert forall i :: 0 <= i < |t| ==> Decimal.IsDigit(t[i]);
    case JString(s) => QuoteAvoidsBacktick(s);
    case JArray(items) =>
      var parts := seq(|items|, i requires 0 <= i < |items| => Serialize(items[i], layout, level + 1));
      forall i | 0 <= i < |items|
        ensures '`' !in parts[i]
      {
        SerializeAvoidsBacktick(items[i], layout, level + 1);
      }
      ContainerAvoidsBacktick('[', ']', parts, layout, level);
    case JObject(fields) =>
      var parts := seq(|fields|, i requires 0 <= i < |fields| =>
                         Quote(fields[i].0) + ": " + Serialize(fields[i].1, layout, level + 1));
      forall i | 0 <= i < |fields|
        ensures '`' !in parts[i]
      {
        QuoteAvoidsBacktick(fields[i].0);
        SerializeAvoidsBacktick(fields[i].1, layout, level + 1);
      }
      ContainerAvoidsBacktick('{', '}', parts, layout, level);
  }

  lemma ContainerAvoidsBacktick(open: char, close: char, parts: seq<string>, layout: Layout, level: nat)
    requires open != '`' && close != '`'
    requires forall i :: 0 <= i < |parts| ==> '`' !in parts[i]
    ensures '`' !in Container(open, close, parts, layout, level)
  {
    if |parts| > 0 {
      match layout
      case Compact =>
        JoinAvoidsChar('`', ", ", parts);
      case Indented(w) =>
        var newline := "\n" + Spaces(w * (level + 1));
        SpacesAvoidBacktick(w * (level + 1));
        SpacesAvoidBacktick(w * level);
        JoinAvoidsChar('`', "," + newline, parts);
    }
  }
}
