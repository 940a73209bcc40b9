# Test-case generation backend, modelled in Dafny

This project models the deterministic core of a retrieval-augmented test-case generator. That core has two parts:

- **`RAGEngine`** (`backend/rag_engine.py`):
  - chunks documents into a knowledge base and maps search hits to context entries;
  - builds the test-case prompt and calls a model service, falling back to a canned reply;
  - cleans and decodes the reply, then pads or cuts the decoded list to the requested count;
  - generates fallback cases;
  - cleans fenced code out of generated scripts;
  - summarises a page's form controls for script generation.
- **`DocumentProcessor`** (`backend/document_processor.py`):
  - turns uploaded files into text documents by file extension;
  - keeps them in upload order with the page HTML;
  - writes a sectioned feature summary of an HTML page.

Everything is immutable data and pure functions. An object's state is a datatype, and each method returns the new state with its result. Every library call becomes a function-typed input:

| library call | input |
|---|---|
| text splitter | `Knowledge.Splitter` |
| similarity search | `Knowledge.Search` |
| `json.loads` | `JsonValue.Loads` |
| UTF-8 decoding | `Processor.Utf8` |
| PDF reader | `Processor.PdfReader` |
| BeautifulSoup parse | `Extraction.Parser`, `Features.Soup` |
| HTTP exchange with the model service | `Gateway.ServiceReply` |

These are modelled concretely rather than left abstract:

- Python's string primitives: `find`, `rfind`, `split`, `strip`, `lower`, slicing with negative bounds, `zfill`, `str(int)`.
- `json.dumps`, in compact and indented form.
- `repr` of `bytes`.

Modules:

- `PyStr`, `Decimal`, `JsonValue`, `Bytes`, `Html`: Python and library behaviour the core relies on.
- `Knowledge`: `build_knowledge_base`, `retrieve_context`.
- `Cleaners`: `_clean_json_response`, `_clean_python_response`.
- `TestCases`: the test-case record and both canned generators.
- `Gateway`: the prompt, `call_llm`, `_mock_llm_response`.
- `Generation`: `generate_test_cases`.
- `Extraction`: `_extract_html_elements`.
- `Features`: `_extract_html_features`.
- `Processor`: `DocumentProcessor`.

## Behaviour notes

The model follows the code. These are places where the code does less than its own prompt text or docstrings suggest:

- The test-case prompt asks for "at least 40% negative tests" (backend/rag_engine.py:170). The fallback generator marks case `i` negative when `i % 3 == 2` (backend/rag_engine.py:388). That gives `n / 3` negative cases, which is under 40% for every non-empty batch.
- The prompt's example numbers its cases `TC-001` and `TC-002` (backend/rag_engine.py:136-150). Padding calls the fallback generator afresh (backend/rag_engine.py:190-191), so its numbering restarts at `TC-001`. A padded batch can therefore repeat ids; a single fallback batch has distinct ids.
- Only `json.JSONDecodeError` is caught (backend/rag_engine.py:197), so the fallback at backend/rag_engine.py:200-201 runs only for text that does not decode. A decoded value that is not an object, or a `test_cases` value that is not a list, raises instead. A string-valued `test_cases` of at least `num_cases` characters is returned as a string slice.
- The prompt requires each case to name its source document in `grounded_in` (backend/rag_engine.py:169). Without retrieved context the fallback cases name `product_specs.md` (backend/rag_engine.py:384), which need not be an ingested document.
- `_clean_python_response` returns the fenced interior with surrounding whitespace stripped (backend/rag_engine.py:278-280), not verbatim.
- `_process_json`'s bare `except` handler decodes the bytes again (backend/document_processor.py:56-57). Bytes that are not UTF-8 therefore still raise from it; the handler only covers text that does not parse as JSON.

## Model

| member | source | states |
|---|---|---|
| Knowledge.DocumentChunks | backend/rag_engine.py:40-50 | one record per chunk of the document |
| Knowledge.BuildKnowledgeBase | backend/rag_engine.py:34-60 | the engine keeps the given documents and has a store; this build's records are appended after the records the persisted collection already held, which stay unchanged; the returned count is this build's chunks only, the sum of per-document chunk counts |
| Knowledge.BuildAppendsChunks | backend/rag_engine.py:40-58 | in the collection after a build, chunk `i` of document `d` sits after the earlier records and the earlier documents' chunks, with that document's filename, `chunk_id = i` and `total_chunks` = its chunk count |
| Knowledge.ChunkCount | backend/rag_engine.py:40-60 | the number of records built equals the sum of the splitter's chunk counts |
| Knowledge.AllChunksSplit | backend/rag_engine.py:40-50 | the record list is the earlier documents' records, then this document's, then the later ones' |
| Knowledge.ChunkPlacement | backend/rag_engine.py:40-50 | chunk `i` of document `d` sits right after all chunks of earlier documents, with that document's filename, `chunk_id = i` and `total_chunks` = its chunk count |
| Knowledge.ChunksComeFromDocuments | backend/rag_engine.py:40-50 | every record's source, total and text come from one input document, and its index is below its total |
| Knowledge.RetrieveContext | backend/rag_engine.py:62-77 | empty before a build; otherwise one entry per hit, in hit order, with content and score copied and source defaulting to `unknown` |
| Knowledge.RetrieveBeforeBuild | backend/rag_engine.py:64-65 | before any build, nothing is retrieved for any query, whatever the persisted collection holds |
| Knowledge.RetrieveAfterBuild | backend/rag_engine.py:54-67 | after a build, retrieval searches the records the persisted collection held before, followed by this build's records |
| Knowledge.BuildsAccumulate | backend/rag_engine.py:54-58 | two builds leave the earlier records, then the first build's, then the second's; the engine's documents are the second build's |
| Cleaners.SubFenceLeavesNoFence | backend/rag_engine.py:207 | after deleting fence markers no triple backtick remains, not even one formed across a deletion |
| Cleaners.FenceStrippedHasNoFence | backend/rag_engine.py:206-207 | the fence-stripping step leaves no triple backtick |
| Cleaners.CleanJson | backend/rag_engine.py:203-216 | when a `{` precedes some `}` in the fence-free text, the result runs from its first `{` through its last `}`; otherwise it is the fence-free text; it never contains a fence |
| Cleaners.BraceSpan | backend/rag_engine.py:210-216 | the `find`/`rfind` slice is exactly the outermost-brace span when a `{` precedes a `}`, else the text itself |
| Cleaners.BraceSpanFacts | backend/rag_engine.py:210-213 | the slice guard holds exactly when some `{` precedes some `}` |
| Cleaners.BraceSpanAvoids | backend/rag_engine.py:213-214 | cutting the span never introduces a pattern absent from the text |
| Cleaners.StripFencesIdentity | backend/rag_engine.py:206-207 | text with no backtick passes fence removal unchanged |
| Cleaners.OutermostIsWhole | backend/rag_engine.py:210-214 | text that starts with `{` and ends with `}` is its own outermost span |
| Cleaners.CleanJsonKeepsObjectText | backend/rag_engine.py:203-216 | a backtick-free reply that starts with `{` and ends with `}` is returned whole |
| Cleaners.CleanPython | backend/rag_engine.py:274-282 | the stripped text after the first python fence up to the next fence; else the stripped text between the first two fences; else the input unchanged; never contains a fence |
| Cleaners.CleanPythonIdempotent | backend/rag_engine.py:274-282 | cleaning twice equals cleaning once |
| TestCases.ToJson | backend/rag_engine.py:389-402 | the case dict has eight pairwise distinct keys |
| TestCases.ToJsonRoundTrip | backend/rag_engine.py:389-402 | reading the dict back by key recovers the record, so nothing is lost |
| TestCases.FirstTestId | backend/rag_engine.py:390 | case 1 is numbered `TC-001` |
| TestCases.TestIdInjective | backend/rag_engine.py:390 | different case numbers give different ids, also past 999 |
| TestCases.FallbackSource | backend/rag_engine.py:384-401 | `grounded_in` is the first retrieved source, or `product_specs.md` without context |
| TestCases.MockTestCases | backend/rag_engine.py:382-404 | exactly `num` cases (none for `num <= 0`); case `i` has id `TC-` plus `i+1` zero-padded, is negative iff `i % 3 == 2`, has three steps and the fallback source |
| TestCases.MockNegativeCount | backend/rag_engine.py:388 | exactly `num / 3` (integer division) fallback cases are negative |
| TestCases.MockBelowFortyPercentNegative | backend/rag_engine.py:388 | a non-empty fallback batch is under 40% negative |
| TestCases.MockIdsDistinct | backend/rag_engine.py:387-390 | ids within one fallback batch are pairwise distinct |
| TestCases.MockPayload | backend/rag_engine.py:334-352 | the canned reply's object holds a `test_cases` list of the canned cases, in order |
| Gateway.SearchExactlyFindsFirst | backend/rag_engine.py:331-332 | the `EXACTLY (\d+)` search fails iff no `EXACTLY ` is followed by a digit; otherwise it reads the digit run after the first such match |
| Gateway.SearchSkipsTextWithoutE | backend/rag_engine.py:331 | text without a capital `E` before the match does not change the search |
| Gateway.CountAtStart | backend/rag_engine.py:331-332 | `EXACTLY ` followed by the decimal digits of `n` and a non-digit yields `n` |
| Gateway.PromptCountIsFound | backend/rag_engine.py:122-129 | the first count found in the test-case prompt is `num_cases`, whatever the context and query hold |
| Gateway.PromptMentionsTestCases | backend/rag_engine.py:122-129 | the lower-cased prompt always contains `test cases` |
| Gateway.MockReplyIsBareObject | backend/rag_engine.py:329-352 | the canned JSON reply starts with `{`, ends with `}` and contains no backtick |
| Gateway.MockAnswersPrompt | backend/rag_engine.py:327-352 | the canned reply to the test-case prompt is `json.dumps` of exactly `num_cases` canned cases |
| Gateway.CallLlm | backend/rag_engine.py:79-105 | the service text on status 200 with a readable body; the canned reply for the same prompt on any other status, an unreadable body, or no connection |
| Gateway.FailuresAgree | backend/rag_engine.py:99-105 | every kind of service failure yields the same text |
| Generation.PadOrTruncate | backend/rag_engine.py:187-195 | for `num_cases >= 0`, exactly `num_cases` items; decoded items come first, unchanged and in order, and fallback items only after them; a longer list is cut to a prefix |
| Generation.PadBatch | backend/rag_engine.py:187-195 | the padding loop followed by the final slice computes the pad-or-cut batch |
| Generation.PadOrTruncateIdempotent | backend/rag_engine.py:187-195 | padding or cutting a batch of the requested size changes nothing |
| Generation.PaddingRestartsNumbering | backend/rag_engine.py:187-195 | the first padding item has id `TC-001`, whatever ids the decoded items carry |
| Generation.FromDecoded | backend/rag_engine.py:184-195 | a non-object raises; a missing `test_cases` gives the full fallback batch; a list is padded or cut; a string result has exactly `num_cases` characters |
| Generation.FromReply | backend/rag_engine.py:179-201 | an undecodable reply gives the full fallback batch; a returned list has exactly `num_cases` items |
| Generation.GenerateTestCases | backend/rag_engine.py:107-201 | for `num_cases >= 0` a returned list has exactly `num_cases` items; an undecodable reply gives exactly the fallback cases for the retrieved context |
| Generation.BatchExactlyWhenListOrUndecodable | backend/rag_engine.py:179-201 | a call returns a list iff the reply does not decode, or it decodes to an object whose `test_cases` is missing or a list |
| Generation.ReplyBatchExactly | backend/rag_engine.py:183-201 | the same iff, stated for a decode result |
| Generation.DecodedBatchExactly | backend/rag_engine.py:184-195 | a decoded value gives a list iff it is an object whose `test_cases` is missing or a list |
| Generation.OfflineCallReturnsMockCases | backend/rag_engine.py:176-195 | with the service unavailable and a decoder that inverts `json.dumps`, a call returns exactly the `num_cases` canned cases, with no padding |
| Generation.OfflineReplyIsCleanPayload | backend/rag_engine.py:327-352 | offline, the reply is the canned payload's text, and the JSON cleaner returns it unchanged |
| Generation.MockPayloadDecodes | backend/rag_engine.py:184-195 | the decoded canned payload yields its own cases with no padding |
| Generation.FallbackNegativeShare | backend/rag_engine.py:197-201 | on the fallback path the result is the fallback batch, with exactly `num_cases / 3` negative cases |
| Extraction.Kept | backend/rag_engine.py:298-319 | the kept lines are exactly the produced lines, and none when every element is rejected |
| Extraction.KeptAppend | backend/rag_engine.py:294-319 | keeping the lines of a concatenation keeps each part's lines, in order |
| Extraction.KeptSingle | backend/rag_engine.py:298-299 | a rejected element adds no line and an accepted one adds exactly its own |
| Extraction.InputLine | backend/rag_engine.py:294-299 | an input line exists iff the id or the name is non-empty, and it is `Input: id='<id>', name='<name>', type='<type>'`, with `type` defaulting to `text` |
| Extraction.InputLineForInjective | backend/rag_engine.py:299 | with no single quote in the values, the id, name and type read back from an input line |
| Extraction.InputTypeDefaultsToText | backend/rag_engine.py:297-299 | a kept input without `type` is listed with type `text` |
| Extraction.ButtonText | backend/rag_engine.py:304 | a prefix of the stripped text, exactly 50 characters long or all of it when it is shorter |
| Extraction.ButtonLine | backend/rag_engine.py:302-306 | a button line exists iff the id or the trimmed text is non-empty, and it is `Button: id='<id>', text='<text>'` |
| Extraction.TwoFieldLineInjective | backend/rag_engine.py:302-313 | with no single quote in the values, both values read back from a button or select line |
| Extraction.SelectLine | backend/rag_engine.py:309-313 | a select line exists iff the id or the name is non-empty, and it is `Select: id='<id>', name='<name>'` |
| Extraction.DivLine | backend/rag_engine.py:316-319 | a div line exists iff the id is not empty, `root` or `app` |
| Extraction.DivLineForInjective | backend/rag_engine.py:319 | different div ids give different lines |
| Extraction.HavingIdMembers | backend/rag_engine.py:316 | the filter keeps exactly the elements carrying an `id` attribute |
| Extraction.HavingIdAppend | backend/rag_engine.py:316 | filtering a concatenation filters each part, so kept elements stay in page order |
| Extraction.CappedLines | backend/rag_engine.py:294-319 | the lines are the kept lines of the first `cap` elements, in element order; so at most `cap`, each the line of one of those elements, and nothing when all of them are rejected |
| Extraction.CappedLinesSplit | backend/rag_engine.py:294-319 | when the first part fits under the cap, its lines come first, then the rest's lines under the remaining cap |
| Extraction.ExtractHtmlElements | backend/rag_engine.py:284-325 | the failure text when parsing raises; the empty text when no line is kept |
| Extraction.LinesCarryTags | backend/rag_engine.py:299-319 | every line starts with its kind's label |
| Extraction.KindOrder | backend/rag_engine.py:293-319 | inputs come first, then buttons, then selects, then divs |
| Extraction.PerKindCaps | backend/rag_engine.py:294-316 | at most 30 input, 15 button, 10 select and 20 div lines |
| Extraction.CapBeforeFilter | backend/rag_engine.py:294-299 | when none of the first 30 inputs qualifies, no input line appears, even if a later input does |
| Extraction.RootDivsDropped | backend/rag_engine.py:318 | no line is written for a div with id `root` or `app` |
| Extraction.JoinedLinesStart | backend/rag_engine.py:321 | a joined answer starts with the first letter of a kind label |
| Extraction.SentinelsExactly | backend/rag_engine.py:321-325 | the two fixed answers occur exactly in their cases: parse failure, and nothing kept |
| Features.TitleLines | backend/document_processor.py:88-90 | one title line iff the page has a `<title>`, showing its text |
| Features.InputTypeDefaultsToText | backend/document_processor.py:100-103 | an input without `type` is listed with type `text` |
| Features.ExtractHtmlFeatures | backend/document_processor.py:81-129 | the summary is never empty |
| Features.NumberedForms | backend/document_processor.py:94-95 | the `k`-th form header carries the number `start + k` |
| Features.FormHeaders | backend/document_processor.py:93-103 | the forms contribute exactly their numbered headers, from 1, in order |
| Features.ItemKindsHaveNoHeaders | backend/document_processor.py:103-127 | item lines never count as section headers |
| Features.SectionHeaders | backend/document_processor.py:87-129 | the headers are the numbered form headers, then `Buttons:` always, then `Select Elements:` iff there is a select, then `Page Headers:` iff there is an `h1`-`h3` |
| Features.TitleComesFirst | backend/document_processor.py:88-90 | the summary opens with the title line iff the page has a `<title>` |
| Processor.KindBySuffix | backend/document_processor.py:14-31 | each file kind is chosen exactly by its own suffixes, checked in source order |
| Processor.ProcessJson | backend/document_processor.py:51-57 | raises only when the bytes are not UTF-8 |
| Processor.UnparsableJsonStoredRaw | backend/document_processor.py:56-57 | JSON that does not parse is stored as its raw text |
| Processor.JsonStoredTextKeepsData | backend/document_processor.py:53-55 | re-indenting keeps the data: the stored text decodes to what the upload decodes to |
| Processor.ProcessPdf | backend/document_processor.py:72-74 | a reader error gives a note opening with `PDF content (processing error: ` and closing with `)` |
| Processor.PdfStoredAsPagesOrNote | backend/document_processor.py:59-74 | a PDF is always stored, as its pages' texts in order or as the error note |
| Processor.ProcessHtml | backend/document_processor.py:76-79 | raises only when the bytes are not UTF-8, and otherwise stores a non-empty summary |
| Processor.ProcessFile | backend/document_processor.py:11-39 | a processed file appends exactly one document, its name and the returned text, after the unchanged earlier ones; a decoding error changes nothing |
| Processor.FailsExactlyOnUndecodableText | backend/document_processor.py:14-31 | processing raises iff the file is text, JSON or HTML and not UTF-8 |
| Processor.PlainTextStoredVerbatim | backend/document_processor.py:14-15 | `.md` and `.txt` files are stored exactly as decoded |
| Processor.UndecodableOtherFileKeepsBytes | backend/document_processor.py:26-31 | another kind of file that is not UTF-8 is stored as `str` of its bytes, from which the bytes read back exactly |
| Processor.SetHtmlContent | backend/document_processor.py:41-49 | the HTML is kept, and exactly one document named `checkout.html` with a non-empty summary is appended after the unchanged earlier ones |
| Processor.SetHtmlMatchesHtmlUpload | backend/document_processor.py:41-49 | setting the page HTML stores the same summary as uploading it as an `.html` file, under the fixed name instead of the file's |
| Processor.Clear | backend/document_processor.py:135-138 | no documents and no HTML remain |
| Processor.GetAllDocuments | backend/document_processor.py:131-133 | the stored documents, all of them, in order |
| Processor.DocumentsSinceLastClear | backend/document_processor.py:131-138 | after any sequence of calls, the documents are those added since the last `clear`, in call order, after the initial ones when there was no `clear` |
| Decimal.PaddedRoundTrip | backend/rag_engine.py:390 | `str(n).zfill(w)` is all digits and reads back as `n` |
| Bytes.ReprRoundTrip | backend/document_processor.py:31 | `str(content)` of bytes evaluates back to those bytes |
| JsonValue.GetDistinct | backend/rag_engine.py:184 | in an object with distinct keys, `get` finds the one value stored under a key |
| JsonValue.SerializeAvoidsBacktick | backend/rag_engine.py:352 | `json.dumps` writes no backtick for a value whose strings have none |

## Left out

- Embeddings and similarity search are the `Search` input. The persisted collection is a sequence of records in insertion order; Chroma's record ids and storage layout are not modelled. The splitter's chunking is the `Splitter` input. Scores are Dafny `real`s copied through, with no floating-point arithmetic.
- The HTTP request to the model service is the `ServiceReply` input. Timeouts, connection errors and an unreadable or missing `response` field are all "not served". A `response` field that is not a string is not represented.
- `json.loads`, UTF-8 decoding, PyMuPDF and BeautifulSoup are inputs. JSON floats are not represented in `Json`. The `Extraction.Parser` result `None` stands for any exception inside `_extract_html_elements`'s `try` block. `Features.Soup` is total because BeautifulSoup accepts any text.
- `Generation.GenerateTestCases`: `num_cases` is an integer with Python slice semantics for negative values. Its default of 5 is a caller convenience and is not modelled.
- `Generation.GenerateTestCases`: the exceptions that escape are named by kind (`Failure`) rather than by Python exception class.
- `JsonValue.Get`: duplicate keys keep the last value, as a Python dict does. The decoder round-trip properties assume decoded objects have distinct keys.
- `Gateway.TestCasePrompt`: only the placeholders' positions and the fixed text around them matter to the proofs. The whole template is nonetheless written out.
- `PyStr.Lower`: folds only ASCII letters. The properties used only need that lower-case letters survive.
- `Decimal.IsDigit`: covers only ASCII digits, so a count written in other Unicode digits is not read by the model of `re.search`.
- `generate_selenium_script` is not part of this model. It is prompt text around `_extract_html_elements`, `call_llm` and `_clean_python_response`, which are modelled.
- The API server and the dashboard (`backend/main.py`, `frontend/`) are not part of this model.
- The constructors are `Knowledge.Started`, which takes the records already persisted under `./vector_db` as an input, and the constant `Processor.Fresh`. The engine's model name, service URL and embedding setup are not modelled.
- Printing, logging and `pdf.close()` have no observable effect on results and are left out.
