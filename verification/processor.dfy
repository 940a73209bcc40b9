/** `DocumentProcessor`: turns uploaded files into text documents, keeps them in
    upload order together with the page HTML, and forgets both on `clear`. The
    UTF-8 decoder, the JSON decoder, the PDF reader and the HTML parser are
    library code and come in as functions. */
module Processor {
  import opened PyStr
  import opened JsonValue
  import opened Knowledge
  import opened Bytes
  import opened Features

  /** The processor's state: the stored documents in the order they were added,
      and the HTML last given to `set_html_content`. */
  datatype Processor = Processor(documents: seq<Document>, htmlContent: string)

  /** A freshly constructed processor. */
  const Fresh := Processor([], "")

  /** `content.decode('utf-8')`: `None` when it raises `UnicodeDecodeError`. */
  type Utf8 = seq<byte> -> Option<string>

  /** What `pymupdf` yields for the bytes: the text of each page in order, or the
      message of the exception raised while opening or reading them. */
  datatype PdfResult = Pages(texts: seq<string>) | PdfError(message: string)

  type PdfReader = seq<byte> -> PdfResult

  /** The library calls the processor makes. */
  datatype Libraries = Libraries(decode: Utf8, loads: Loads, readPdf: PdfReader, soup: Soup)

  /** How `process_file` treats a file, chosen from the end of its name. */
  datatype FileKind = PlainText | JsonFile | PdfFile | HtmlFile | OtherFile

  function KindOf(filename: string): FileKind {
    if EndsWith(filename, ".md") || EndsWith(filename, ".txt") then PlainText
    else if EndsWith(filename, ".json") then JsonFile
    else if EndsWith(filename, ".pdf") then PdfFile
    else if EndsWith(filename, ".html") then HtmlFile
    else OtherFile
  }

  lemma EndsWithLast(s: string, suffix: string)
    requires |suffix| > 0 && EndsWith(s, suffix)
    ensures s[|s| - 1] == suffix[|suffix| - 1]
  {
    assert s[|s| - |suffix|..][|suffix| - 1] == s[|s| - 1];
  }

  /** The suffixes end in different letters, so at most one of them fits a name,
      and each kind is chosen exactly by its own suffixes. */
  lemma KindBySuffix(filename: string)
    ensures KindOf(filename) == PlainText <==> EndsWith(filename, ".md") || EndsWith(filename, ".txt")
    ensures KindOf(filename) == JsonFile <==> EndsWith(filename, ".json")
    ensures KindOf(filename) == PdfFile <==> EndsWith(filename, ".pdf")
    ensures KindOf(filename) == HtmlFile <==> EndsWith(filename, ".html")
    ensures KindOf(filename) == OtherFile <==>
              !(EndsWith(filename, ".md") || EndsWith(filename, ".txt") || EndsWith(filename, ".json")
                || EndsWith(filename, ".pdf") || EndsWith(filename, ".html"))
  {
    var suffixes := [".md", ".txt", ".json", ".pdf", ".html"];
    assert ".md"[2] == 'd' && ".txt"[3] == 't' && ".json"[4] == 'n' && ".pdf"[3] == 'f' && ".html"[4] == 'l';
    forall k | 0 <= k < |suffixes| && EndsWith(filename, suffixes[k])
      ensures filename[|filename| - 1] == suffixes[k][|suffixes[k]| - 1]
    {
      EndsWithLast(filename, suffixes[k]);
    }
  }

  /** The text of an uploaded file, or the decoding error `process_file` raises. */
  datatype Extracted = Read(text: string) | Undecodable

  /** `_process_json`: the decoded data re-indented by two spaces, or the raw text
      when it is not JSON; a decoding error escapes, since the handler decodes again. */
  function ProcessJson(content: seq<byte>, libs: Libraries): (r: Extracted)
    ensures r.Undecodable? <==> libs.decode(content).None?
  {
    match libs.decode(content)
    case None => Undecodable
    case Some(s) =>
      (match libs.loads(s)
       case Some(data) => Read(Serialize(data, Indented(2), 0))
       case None => Read(s))
  }

  const PdfErrorOpening := "PDF content (processing error: "

  /** `_process_pdf`: the pages' texts concatenated, or a note with the error
      message; it never raises. */
  function ProcessPdf(content: seq<byte>, reader: PdfReader): (text: string)
    ensures reader(content).PdfError? ==> PdfErrorOpening <= text && text[|text| - 1] == ')'
  {
    match reader(content)
    case Pages(texts) => Concat(texts)
    case PdfError(message) => PdfErrorOpening + message + ")"
  }

  /** `_process_html`: the feature summary of the decoded page. */
  function ProcessHtml(content: seq<byte>, libs: Libraries): (r: Extracted)
    ensures r.Undecodable? <==> libs.decode(content).None?
    ensures r.Read? ==> |r.text| > 0
  {
    match libs.decode(content)
    case None => Undecodable
    case Some(html) => Read(ExtractHtmlFeatures(html, libs.soup))
  }

  /** The text `process_file` extracts, by kind. */
  function ExtractText(content: seq<byte>, filename: string, libs: Libraries): Extracted {
    match KindOf(filename)
    case PlainText => (match libs.decode(content) case Some(s) => Read(s) case None => Undecodable)
    case JsonFile => ProcessJson(content, libs)
    case PdfFile => Read(ProcessPdf(content, libs.readPdf))
    case HtmlFile => ProcessHtml(content, libs)
    case OtherFile => (match libs.decode(content) case Some(s) => Read(s) case None => Read(BytesRepr(content)))
  }

  /** `process_file(content, filename)`: the new state and the returned text. A
      processed file adds exactly one document, its name and text, after the
      ones already stored; a decoding error leaves the state as it was. */
  function ProcessFile(p: Processor, content: seq<byte>, filename: string, libs: Libraries): (r: (Processor, Extracted))
    ensures r.1 == ExtractText(content, filename, libs)
    ensures r.1.Undecodable? ==> r.0 == p
    ensures r.1.Read? ==> r.0.htmlContent == p.htmlContent
    ensures r.1.Read? ==> |r.0.documents| == |p.documents| + 1 && r.0.documents[..|p.documents|] == p.documents
    ensures r.1.Read? ==> r.0.documents[|p.documents|] == Document(filename, r.1.text)
  {
    var extracted := ExtractText(content, filename, libs);
    match extracted
    case Undecodable => (p, extracted)
    case Read(text) => (Processor(p.documents + [Document(filename, text)], p.htmlContent), extracted)
  }

  /** A file fails exactly when it is text, JSON or HTML and is not valid UTF-8:
      PDFs and files of other kinds are always stored. */
  lemma FailsExactlyOnUndecodableText(p: Processor, content: seq<byte>, filename: string, libs: Libraries)
    ensures ProcessFile(p, content, filename, libs).1.Undecodable?
            <==> KindOf(filename) in {PlainText, JsonFile, HtmlFile} && libs.decode(content).None?
  {
  }

  /** Text and Markdown files are stored as decoded, character for character. */
  lemma PlainTextStoredVerbatim(content: seq<byte>, filename: string, libs: Libraries)
    requires EndsWith(filename, ".md") || EndsWith(filename, ".txt")
    requires libs.decode(content).Some?
    ensures ExtractText(content, filename, libs) == Read(libs.decode(content).value)
  {
    KindBySuffix(filename);
  }

  /** JSON that does not parse is kept as its raw text. */
  lemma UnparsableJsonStoredRaw(content: seq<byte>, filename: string, libs: Libraries)
    requires KindOf(filename) == JsonFile
    requires libs.decode(content).Some? && libs.loads(libs.decode(content).value).None?
    ensures ExtractText(content, filename, libs) == Read(libs.decode(content).value)
  {
  }

  /** The JSON decoder reads back the two-space indented text of any value whose
      objects have distinct keys. */
  ghost predicate ReadsBackIndented(loads: Loads) {
    forall j :: DistinctKeys(j) ==> loads(Serialize(j, Indented(2), 0)) == Some(j)
  }

  /** Like a Python dict, every decoded object has distinct keys. */
  ghost predicate DecodesToDicts(loads: Loads) {
    forall s :: loads(s).Some? ==> DistinctKeys(loads(s).value)
  }

  /** Re-indenting never changes the data: the stored text of a JSON file decodes
      to what the uploaded text decodes to, whether or not it parsed. */
  lemma JsonStoredTextKeepsData(content: seq<byte>, libs: Libraries)
    requires libs.decode(content).Some?
    requires ReadsBackIndented(libs.loads) && DecodesToDicts(libs.loads)
    ensures ProcessJson(content, libs).Read?
    ensures libs.loads(ProcessJson(content, libs).text) == libs.loads(libs.decode(content).value)
  {
    var s := libs.decode(content).value;
    if libs.loads(s).Some? {
      assert DistinctKeys(libs.loads(s).value);
    }
  }

  /** A PDF is stored as its pages' texts in page order, or, when reading fails,
      as a note carrying the error message. */
  lemma PdfStoredAsPagesOrNote(content: seq<byte>, filename: string, libs: Libraries)
    requires KindOf(filename) == PdfFile
    ensures var r := ExtractText(content, filename, libs);
      && r.Read?
      && (libs.readPdf(content).Pages? ==> r.text == Concat(libs.readPdf(content).texts))
      && (libs.readPdf(content).PdfError? ==> r.text == PdfErrorOpening + libs.readPdf(content).message + ")")
  {
  }

  /** A file of another kind that is not UTF-8 is stored as Python's `str` of its
      bytes, from which the bytes can be read back exactly. */
  lemma UndecodableOtherFileKeepsBytes(content: seq<byte>, filename: string, libs: Libraries)
    requires KindOf(filename) == OtherFile && libs.decode(content).None?
    ensures var r := ExtractText(content, filename, libs);
      r.Read? && ParseRepr(r.text) == Some(content)
  {
    ReprRoundTrip(content);
  }

  /** The document name `set_html_content` stores under. */
  const HtmlDocumentName := "checkout.html"

  /** `set_html_content(html)`: the HTML is kept, and its feature summary is added
      as one more document named `checkout.html`. */
  function SetHtmlContent(p: Processor, html: string, soup: Soup): (q: Processor)
    ensures q.htmlContent == html
    ensures |q.documents| == |p.documents| + 1 && q.documents[..|p.documents|] == p.documents
    ensures q.documents[|p.documents|].filename == HtmlDocumentName
    ensures |q.documents[|p.documents|].content| > 0
  {
    Processor(p.documents + [Document(HtmlDocumentName, ExtractHtmlFeatures(html, soup))], html)
  }

  /** Setting the page HTML stores the same summary that uploading the page as an
      `.html` file stores; only the document name differs. */
  lemma SetHtmlMatchesHtmlUpload(p: Processor, html: string, content: seq<byte>, filename: string, libs: Libraries)
    requires EndsWith(filename, ".html") && libs.decode(content) == Some(html)
    ensures var uploaded := ProcessFile(p, content, filename, libs).0;
      var viaSet := SetHtmlContent(p, html, libs.soup);
      && |uploaded.documents| == |viaSet.documents|
      && uploaded.documents[|p.documents|].content == viaSet.documents[|p.documents|].content
      && uploaded.documents[|p.documents|].filename == filename
  {
    KindBySuffix(filename);
  }

  /** `clear()`: no documents and no HTML, as after construction. */
  function Clear(p: Processor): (q: Processor)
    ensures q.documents == [] && q.htmlContent == ""
  {
    Fresh
  }

  /** `get_all_documents()`: every stored document, in the order they were added. */
  function GetAllDocuments(p: Processor): (docs: seq<Document>)
    ensures |docs| == |p.documents|
    ensures forall i :: 0 <= i < |docs| ==> docs[i] == p.documents[i]
  {
    p.documents
  }

  /** One call on the processor. */
  datatype Op = Upload(content: seq<byte>, filename: string) | SetHtml(html: string) | ClearAll

  function Apply(p: Processor, op: Op, libs: Libraries): Processor {
    match op
    case Upload(content, filename) => ProcessFile(p, content, filename, libs).0
    case SetHtml(html) => SetHtmlContent(p, html, libs.soup)
    case ClearAll => Clear(p)
  }

  /** A call other than `clear` appends its own contribution to the documents. */
  lemma ApplyAddsContribution(p: Processor, op: Op, libs: Libraries)
    requires op != ClearAll
    ensures Apply(p, op, libs).documents == p.documents + Contribution(op, libs)
  {
    if op.Upload? {
      var r := ExtractText(op.content, op.filename, libs);
      if r.Read? {
        assert Apply(p, op, libs).documents == p.documents + [Document(op.filename, r.text)];
      } else {
        assert Apply(p, op, libs).documents == p.documents;
      }
    }
  }

  /** The calls `ops`, in order. */
  function Run(p: Processor, ops: seq<Op>, libs: Libraries): Processor
    decreases |ops|
  {
    if |ops| == 0 then p else Run(Apply(p, ops[0], libs), ops[1..], libs)
  }

  /** The document one call adds, if any. */
  function Contribution(op: Op, libs: Libraries): seq<Document> {
    match op
    case Upload(content, filename) =>
      (match ExtractText(content, filename, libs)
       case Read(text) => [Document(filename, text)]
       case Undecodable => [])
    case SetHtml(html) => [Document(HtmlDocumentName, ExtractHtmlFeatures(html, libs.soup))]
    case ClearAll => []
  }

  /** The documents added by the calls after the last `clear`, in call order. */
  function SinceLastClear(ops: seq<Op>, libs: Libraries): seq<Document> {
    if |ops| == 0 then []
    else if ClearAll in ops[1..] then SinceLastClear(ops[1..], libs)
    else Contribution(ops[0], libs) + SinceLastClear(ops[1..], libs)
  }

  /** After any sequence of calls, `get_all_documents` returns the documents the
      calls since the last `clear` added, in call order, after the initial ones
      when there was no `clear`. */
  lemma {:induction false} DocumentsSinceLastClear(p: Processor, ops: seq<Op>, libs: Libraries)
    ensures GetAllDocuments(Run(p, ops, libs))
            == (if ClearAll in ops then [] else p.documents) + SinceLastClear(ops, libs)
    decreases |ops|
  {
    if |ops| > 0 {
      var op, rest := ops[0], ops[1..];
      var q := Apply(p, op, libs);
      DocumentsSinceLastClear(q, rest, libs);
      assert ops == [op] + rest;
      assert ClearAll in ops <==> op == ClearAll || ClearAll in rest;
      if ClearAll in rest {
        assert SinceLastClear(ops, libs) == SinceLastClear(rest, libs);
      } else if op == ClearAll {
        assert q.documents == [];
        assert SinceLastClear(ops, libs) == [] + SinceLastClear(rest, libs);
      } else {
        ApplyAddsContribution(p, op, libs);
        assert SinceLastClear(ops, libs) == Contribution(op, libs) + SinceLastClear(rest, libs);
      }
    }
  }
}
