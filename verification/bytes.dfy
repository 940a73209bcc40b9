/** Raw file contents, and the text Python's `str(content)` gives for a `bytes`
    value, which `process_file` stores for a file it cannot decode. */
module Bytes {
  import opened PyStr
  import opened Decimal

  newtype byte = x: int | 0 <= x < 256

  /** A character Python writes as itself inside a `bytes` repr. */
  predicate Printable(c: char) {
    ' ' <= c <= '~'
  }

  /** The quote around the repr: a double quote when the bytes hold a single
      quote and no double quote, a single quote otherwise. */
  function QuoteFor(bs: seq<byte>): (q: char)
    ensures q == '"' || q == '\''
    ensures q == '"' <==> 39 in bs && 34 !in bs
  {
    if 39 in bs && 34 !in bs then '"' else '\''
  }

  /** How the repr writes one byte under quote `q`: the quote and the backslash
      behind a backslash, tab, newline and carriage return as `\t`, `\n`, `\r`,
      other control bytes and bytes from 0x7f up as `\xhh`, the rest as themselves. */
  function EscapeByte(b: byte, q: char): (r: string)
    requires q == '"' || q == '\''
    ensures 1 <= |r| <= 4
    ensures forall i :: 0 <= i < |r| ==> Printable(r[i])
    ensures (r[0] == '\\') == (|r| > 1)
  {
    if b as int == q as int || b == 92 then ['\\', b as int as char]
    else if b == 9 then "\\t"
    else if b == 10 then "\\n"
    else if b == 13 then "\\r"
    else if b < 32 || b >= 127 then ['\\', 'x', HexDigit(b as int / 16), HexDigit(b as int % 16)]
    else [b as int as char]
  }

  /** The escaped bytes, in order. */
  function EscapeBytes(bs: seq<byte>, q: char): (r: string)
    requires q == '"' || q == '\''
    ensures forall i :: 0 <= i < |r| ==> Printable(r[i])
  {
    if |bs| == 0 then "" else EscapeByte(bs[0], q) + EscapeBytes(bs[1..], q)
  }

  /** `str(content)`: `b`, the quote, the escaped bytes, the quote again. */
  function BytesRepr(bs: seq<byte>): (r: string)
    ensures |r| >= 3 && r[0] == 'b' && r[1] == QuoteFor(bs) && r[|r| - 1] == QuoteFor(bs)
    ensures forall i :: 0 <= i < |r| ==> Printable(r[i])
  {
    var q := QuoteFor(bs);
    "b" + [q] + EscapeBytes(bs, q) + [q]
  }

  /** `b` followed by `o`'s bytes, or failure. */
  function Prepend(b: byte, o: Option<seq<byte>>): Option<seq<byte>> {
    match o
    case None => None
    case Some(t) => Some([b] + t)
  }

  /** Reading escaped text back as Python reads the body of a bytes literal:
      `\t`, `\n`, `\r`, `\xhh` and a backslash before any other ASCII character,
      which stands for that character; `None` for text no repr produces. */
  function Unescape(s: string): Option<seq<byte>>
    decreases |s|
  {
    if |s| == 0 then Some([])
    else if s[0] == '\\' then
      if |s| < 2 then None
      else if s[1] == 't' then Prepend(9, Unescape(s[2..]))
      else if s[1] == 'n' then Prepend(10, Unescape(s[2..]))
      else if s[1] == 'r' then Prepend(13, Unescape(s[2..]))
      else if s[1] == 'x' then
        if |s| < 4 then None
        else Prepend(((HexValue(s[2]) * 16 + HexValue(s[3])) % 256) as byte, Unescape(s[4..]))
      else if s[1] as int < 128 then Prepend(s[1] as int as byte, Unescape(s[2..]))
      else None
    else if s[0] as int < 128 then Prepend(s[0] as int as byte, Unescape(s[1..]))
    else None
  }

  /** Evaluating the repr as a bytes literal. */
  function ParseRepr(r: string): Option<seq<byte>> {
    if |r| >= 3 && r[0] == 'b' && (r[1] == '\'' || r[1] == '"') && r[|r| - 1] == r[1] then Unescape(r[2..|r| - 1])
    else None
  }

  /** Reading one escaped byte consumes exactly its escape. */
  lemma UnescapeByte(b: byte, q: char, rest: string)
    requires q == '"' || q == '\''
    ensures Unescape(EscapeByte(b, q) + rest) == Prepend(b, Unescape(rest))
  {
    var e := EscapeByte(b, q);
    var s := e + rest;
    if b as int == q as int || b == 92 {
      assert s[0] == '\\' && s[1] == b as int as char && s[2..] == rest;
    } else if b == 9 || b == 10 || b == 13 {
      assert s[0] == '\\' && s[2..] == rest;
    } else if b < 32 || b >= 127 {
      assert s[0] == '\\' && s[1] == 'x' && s[4..] == rest;
      assert HexValue(s[2]) * 16 + HexValue(s[3]) == b as int;
    } else {
      assert s[0] == b as int as char && s[1..] == rest;
    }
  }

  lemma {:induction false} UnescapeEscapes(bs: seq<byte>, q: char)
    requires q == '"' || q == '\''
    ensures Unescape(EscapeBytes(bs, q)) == Some(bs)
    decreases |bs|
  {
    if |bs| > 0 {
      UnescapeByte(bs[0], q, EscapeBytes(bs[1..], q));
      UnescapeEscapes(bs[1..], q);
      assert [bs[0]] + bs[1..] == bs;
    }
  }

  /** The repr reads back as the bytes it was made from, so different contents
      are stored as different texts. */
  lemma ReprRoundTrip(bs: seq<byte>)
    ensures ParseRepr(BytesRepr(bs)) == Some(bs)
  {
    var q := QuoteFor(bs);
    var r := BytesRepr(bs);
    assert r[2..|r| - 1] == EscapeBytes(bs, q);
    UnescapeEscapes(bs, q);
  }
}
