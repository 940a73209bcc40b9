/** `generate_test_cases`: retrieve context, prompt the model, clean and decode its
    reply, then pad or cut the decoded list to the requested count, or fall back
    to generated cases when the reply does not decode. */
module Generation {
  import opened PyStr
  import opened Decimal
  import opened JsonValue
  import opened Knowledge
  import opened TestCases
  import opened Gateway
  import opened Cleaners

  /** The exceptions that escape `generate_test_cases`, which only catches
      `JSONDecodeError`. */
  datatype Failure =
    | NoGetMethod     // the decoded reply is not an object, so `result.get` fails
    | NoLength        // `test_cases` is null, a boolean or a number, so `len` fails
    | NoExtendMethod  // `test_cases` is a string or an object shorter than requested, so `.extend` fails
    | Unsliceable     // `test_cases` is an object at least as long as requested, so `[:num_cases]` fails

  /** What a call returns: a list, a string cut from a string-valued
      `test_cases`, or an exception. */
  datatype Outcome = Batch(cases: seq<Json>) | TextSlice(text: string) | Raised(failure: Failure)

  /** The dicts of `_generate_mock_test_cases(query, num, ctx)`. */
  function MockJson(query: string, num: int, ctx: seq<ContextEntry>): (r: seq<Json>)
    ensures |r| == |MockTestCases(query, num, ctx)|
    ensures forall i :: 0 <= i < |r| ==> r[i] == ToJson(MockTestCases(query, num, ctx)[i])
  {
    var cases := MockTestCases(query, num, ctx);
    seq(|cases|, i requires 0 <= i < |cases| => ToJson(cases[i]))
  }

  /** The list step of `generate_test_cases`: a short list is completed with
      fallback cases, a long one is cut with Python's `[:num]`. For `num >= 0` the
      result has exactly `num` items, begins with as many of the decoded items as
      fit, and continues with fallback cases numbered from `TC-001`. */
  function PadOrTruncate(items: seq<Json>, num: int, query: string, ctx: seq<ContextEntry>): (batch: seq<Json>)
    ensures num >= 0 ==> |batch| == num
    ensures num < 0 ==> batch == PyTake(items, num)
    ensures |items| >= num ==> batch <= items
    ensures |items| < num ==> batch[..|items|] == items && batch[|items|..] == MockJson(query, num - |items|, ctx)
  {
    if |items| < num then items + MockJson(query, num - |items|, ctx) else PyTake(items, num)
  }

  /** The `while` loop of `generate_test_cases` followed by its final slice. */
  method PadBatch(items: seq<Json>, num: int, query: string, ctx: seq<ContextEntry>) returns (batch: seq<Json>)
    ensures batch == PadOrTruncate(items, num, query, ctx)
  {
    batch := items;
    if |batch| < num {
      while |batch| < num
        invariant (batch == items && |items| < num) || batch == items + MockJson(query, num - |items|, ctx)
        decreases num - |batch|
      {
        batch := batch + MockJson(query, num - |batch|, ctx);
        batch := PyTake(batch, num);
      }
    }
    batch := PyTake(batch, num);
  }

  /** Padding or cutting a batch that already has the requested size changes nothing. */
  lemma PadOrTruncateIdempotent(items: seq<Json>, num: nat, query: string, ctx: seq<ContextEntry>)
    ensures var once := PadOrTruncate(items, num, query, ctx);
      PadOrTruncate(once, num, query, ctx) == once
  {
  }

  /** The first padding case is numbered `TC-001` again, whatever ids the decoded
      items carry. */
  lemma PaddingRestartsNumbering(items: seq<Json>, num: int, query: string, ctx: seq<ContextEntry>)
    requires |items| < num
    ensures var batch := PadOrTruncate(items, num, query, ctx);
      batch[|items|].JObject? && Get(batch[|items|].fields, "test_id") == Some(JString("TC-001"))
  {
    var batch := PadOrTruncate(items, num, query, ctx);
    var first := MockTestCases(query, num - |items|, ctx)[0];
    assert batch[|items|] == ToJson(first);
    ToJsonTestId(first);
    FirstTestId();
  }

  /** The distinct keys of a decoded object: what `len` counts. */
  function KeySet(fields: seq<(string, Json)>): set<string> {
    set i | 0 <= i < |fields| :: fields[i].0
  }

  /** Everything after `json.loads` succeeded: `result.get('test_cases', [])`, the
      length check, padding and the final slice. */
  function FromDecoded(result: Json, query: string, num: int, ctx: seq<ContextEntry>): (r: Outcome)
    ensures !result.JObject? ==> r == Raised(NoGetMethod)
    ensures result.JObject? && Get(result.fields, "test_cases").None? ==>
              r == Batch(MockJson(query, num, ctx))
    ensures result.JObject? && Get(result.fields, "test_cases").Some? && Get(result.fields, "test_cases").value.JArray? ==>
              r == Batch(PadOrTruncate(Get(result.fields, "test_cases").value.items, num, query, ctx))
    ensures num >= 0 && r.TextSlice? ==> |r.text| == num
  {
    match result
    case JObject(fields) =>
      (match Get(fields, "test_cases").GetOr(JArray([]))
       case JArray(items) => Batch(PadOrTruncate(items, num, query, ctx))
       case JString(s) => if |s| < num then Raised(NoExtendMethod) else TextSlice(PyTake(s, num))
       case JObject(fs) => if |KeySet(fs)| < num then Raised(NoExtendMethod) else Raised(Unsliceable)
       case _ => Raised(NoLength))
    case _ => Raised(NoGetMethod)
  }

  /** The context entries a call retrieves: the top 10 for the query. */
  function CallContext(e: Engine, query: string, search: Search): seq<ContextEntry> {
    RetrieveContext(e, query, 10, search)
  }

  /** The model's reply to the call's prompt, or the mock reply. */
  function CallResponse(e: Engine, query: string, num: int, search: Search, reply: ServiceReply): string {
    var ctx := CallContext(e, query, search);
    CallLlm(TestCasePrompt(num, ContextString(ctx), query), reply)
  }

  /** What `generate_test_cases` makes of the decoded reply: the fallback cases
      when decoding failed, else the steps after decoding. */
  function FromReply(decoded: Option<Json>, query: string, num: int, ctx: seq<ContextEntry>): (r: Outcome)
    ensures num >= 0 && r.Batch? ==> |r.cases| == num
    ensures num >= 0 && r.TextSlice? ==> |r.text| == num
    ensures decoded.None? ==> r == Batch(MockJson(query, num, ctx))
  {
    match decoded
    case None =>
      assert num >= 0 ==> |MockJson(query, num, ctx)| == num;
      Batch(MockJson(query, num, ctx))
    case Some(result) => FromDecoded(result, query, num, ctx)
  }

  /** `generate_test_cases(query, num_cases)` on engine `e`, with the search, the
      service's answer and the JSON decoder as inputs. A returned list has exactly
      `num_cases` items for `num_cases >= 0`; a reply that does not decode gives
      the fallback cases. */
  function GenerateTestCases(e: Engine, query: string, num: int, search: Search, reply: ServiceReply, loads: Loads): (r: Outcome)
    ensures num >= 0 && r.Batch? ==> |r.cases| == num
    ensures num >= 0 && r.TextSlice? ==> |r.text| == num
    ensures loads(CleanJson(CallResponse(e, query, num, search, reply))).None? ==>
              r == Batch(MockJson(query, num, CallContext(e, query, search)))
  {
    FromReply(loads(CleanJson(CallResponse(e, query, num, search, reply))), query, num, CallContext(e, query, search))
  }

  /** A call returns a list exactly when the reply does not decode, or decodes to
      an object whose `test_cases` is missing or a list. */
  lemma BatchExactlyWhenListOrUndecodable(e: Engine, query: string, num: int, search: Search, reply: ServiceReply, loads: Loads)
    ensures var decoded := loads(CleanJson(CallResponse(e, query, num, search, reply)));
      GenerateTestCases(e, query, num, search, reply, loads).Batch?
      <==> (|| decoded.None?
            || (&& decoded.value.JObject?
                && (Get(decoded.value.fields, "test_cases").None? || Get(decoded.value.fields, "test_cases").value.JArray?)))
  {
    ReplyBatchExactly(loads(CleanJson(CallResponse(e, query, num, search, reply))), query, num, CallContext(e, query, search));
  }

  lemma ReplyBatchExactly(decoded: Option<Json>, query: string, num: int, ctx: seq<ContextEntry>)
    ensures FromReply(decoded, query, num, ctx).Batch?
            <==> (|| decoded.None?
                  || (&& decoded.value.JObject?
                      && (Get(decoded.value.fields, "test_cases").None? || Get(decoded.value.fields, "test_cases").value.JArray?)))
  {
    match decoded
    case None =>
    case Some(result) => DecodedBatchExactly(result, query, num, ctx);
  }

  lemma DecodedBatchExactly(result: Json, query: string, num: int, ctx: seq<ContextEntry>)
    ensures FromDecoded(result, query, num, ctx).Batch?
            <==> result.JObject? && (Get(result.fields, "test_cases").None? || Get(result.fields, "test_cases").value.JArray?)
  {
    if result.JObject? {
      match Get(result.fields, "test_cases")
      case None =>
      case Some(v) =>
        if !v.JArray? {
          assert !FromDecoded(result, query, num, ctx).Batch?;
        }
    }
  }

  /** The JSON decoder reads back what the encoder writes, for any value a Python
      dict can hold. */
  ghost predicate DecoderInvertsEncoder(loads: Loads) {
    forall j :: DistinctKeys(j) ==> loads(Dumps(j)) == Some(j)
  }

  /** With the model service unavailable and `num_cases >= 0`, the mock reply
      survives cleaning and decoding, and the call returns exactly the mock's
      `num_cases` cases in order, with no padding. */
  lemma OfflineCallReturnsMockCases(e: Engine, query: string, num: nat, search: Search, reply: ServiceReply, loads: Loads)
    requires !Served(reply)
    requires DecoderInvertsEncoder(loads)
    ensures GenerateTestCases(e, query, num, search, reply, loads)
            == Batch(seq(num, i requires 0 <= i < num => ToJson(LlmMockCase(i))))
  {
    var ctx := CallContext(e, query, search);
    OfflineReplyIsCleanPayload(num, ContextString(ctx), query, reply);
    PayloadResponseDecodes(CallResponse(e, query, num, search, reply), loads, query, num, ctx);
  }

  lemma PayloadResponseDecodes(response: string, loads: Loads, query: string, num: nat, ctx: seq<ContextEntry>)
    requires response == Dumps(MockPayload(num)) && CleanJson(response) == response
    requires DecoderInvertsEncoder(loads)
    ensures FromReply(loads(CleanJson(response)), query, num, ctx) == Batch(seq(num, i requires 0 <= i < num => ToJson(LlmMockCase(i))))
  {
    assert loads(response) == Some(MockPayload(num));
    MockPayloadDecodes(num, query, ctx);
  }

  /** Offline, the reply to the prompt is the mock payload's text, and the
      cleaner returns it unchanged. */
  lemma OfflineReplyIsCleanPayload(num: nat, contextStr: string, query: string, reply: ServiceReply)
    requires !Served(reply)
    ensures var response := CallLlm(TestCasePrompt(num, contextStr, query), reply);
      response == Dumps(MockPayload(num)) && CleanJson(response) == response
  {
    PromptMentionsTestCases(num, contextStr, query);
    PromptCountIsFound(num, contextStr, query);
    OfflineReplyFor(TestCasePrompt(num, contextStr, query), num, reply);
  }

  lemma OfflineReplyFor(prompt: string, num: nat, reply: ServiceReply)
    requires !Served(reply)
    requires Contains(Lower(prompt), "test cases") && SearchExactly(prompt) == Some(num)
    ensures var response := CallLlm(prompt, reply);
      response == Dumps(MockPayload(num)) && CleanJson(response) == response
  {
    MockAnswersCount(prompt, num);
    MockReplyIsBareObject(prompt);
    CleanJsonKeepsObjectText(Dumps(MockPayload(num)));
  }

  /** The decoded mock payload gives its own `num` cases back, with no padding. */
  lemma MockPayloadDecodes(num: nat, query: string, ctx: seq<ContextEntry>)
    ensures FromDecoded(MockPayload(num), query, num, ctx)
            == Batch(seq(num, i requires 0 <= i < num => ToJson(LlmMockCase(i))))
  {
  }

  /** On the fallback path a third of the cases, rounded down, are negative. */
  lemma FallbackNegativeShare(e: Engine, query: string, num: nat, search: Search, reply: ServiceReply, loads: Loads)
    requires loads(CleanJson(CallResponse(e, query, num, search, reply))).None?
    ensures var r := GenerateTestCases(e, query, num, search, reply, loads);
      && r == Batch(MockJson(query, num, CallContext(e, query, search)))
      && CountNegative(MockTestCases(query, num, CallContext(e, query, search))) == num / 3
  {
    MockNegativeCount(query, num, CallContext(e, query, search));
  }
}
