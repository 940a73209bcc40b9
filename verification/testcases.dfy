/** Test-case records, the dict form the pipeline passes around, and the two
    deterministic generators: `_generate_mock_test_cases` (padding and decode-error
    fallback) and the case list inside `_mock_llm_response`. */
module TestCases {
  import opened PyStr
  import opened Decimal
  import opened JsonValue
  import opened Knowledge

  datatype Kind = Positive | Negative

  /** The `test_type` string. */
  function KindName(k: Kind): string {
    match k
    case Positive => "positive"
    case Negative => "negative"
  }

  function KindFromName(s: string): Option<Kind> {
    if s == "positive" then Some(Positive) else if s == "negative" then Some(Negative) else None
  }

  datatype TestCase = TestCase(
    testId: string,
    feature: string,
    scenario: string,
    kind: Kind,
    preconditions: string,
    steps: seq<string>,
    expected: string,
    groundedIn: string)

  function StringsToJson(xs: seq<string>): (j: seq<Json>)
    ensures |j| == |xs| && forall i :: 0 <= i < |xs| ==> j[i] == JString(xs[i])
  {
    seq(|xs|, i requires 0 <= i < |xs| => JString(xs[i]))
  }

  /** The dict the generators build, with its keys in the order they write them. */
  function ToJson(tc: TestCase): (j: Json)
    ensures j.JObject? && |j.fields| == 8 && DistinctKeys(j)
  {
    var j := JObject([
      ("test_id", JString(tc.testId)),
      ("feature", JString(tc.feature)),
      ("test_scenario", JString(tc.scenario)),
      ("test_type", JString(KindName(tc.kind))),
      ("preconditions", JString(tc.preconditions)),
      ("test_steps", JArray(StringsToJson(tc.steps))),
      ("expected_result", JString(tc.expected)),
      ("grounded_in", JString(tc.groundedIn))]);
    assert DistinctKeys(j) by {
      var fs := j.fields;
      assert forall a, b :: 0 <= a < b < |fs| ==> fs[a].0 != fs[b].0 by {
        assert fs[0].0 == "test_id" && fs[1].0 == "feature" && fs[2].0 == "test_scenario";
        assert fs[3].0 == "test_type" && fs[4].0 == "preconditions" && fs[5].0 == "test_steps";
        assert fs[6].0 == "expected_result" && fs[7].0 == "grounded_in";
      }
    }
    j
  }

  /** With no backtick in its texts, the dict has none either. */
  lemma ToJsonAvoidsBacktick(tc: TestCase)
    requires '`' !in tc.testId && '`' !in tc.feature && '`' !in tc.scenario && '`' !in tc.preconditions
    requires '`' !in tc.expected && '`' !in tc.groundedIn
    requires forall k :: 0 <= k < |tc.steps| ==> '`' !in tc.steps[k]
    ensures TextAvoids(ToJson(tc), '`')
  {
    var fs := ToJson(tc).fields;
    assert '`' !in KindName(tc.kind);
    KeysAvoidBacktick();
    assert TextAvoids(fs[5].1, '`');
  }

  lemma KeysAvoidBacktick()
    ensures '`' !in "test_id" && '`' !in "feature" && '`' !in "test_scenario" && '`' !in "test_type"
    ensures '`' !in "preconditions" && '`' !in "test_steps" && '`' !in "expected_result" && '`' !in "grounded_in"
  {
  }

  function StringField(fields: seq<(string, Json)>, key: string): Option<string> {
    match Get(fields, key)
    case Some(JString(s)) => Some(s)
    case _ => None
  }

  function StringsFromJson(items: seq<Json>): (r: Option<seq<string>>)
    ensures r.Some? ==> |r.value| == |items|
  {
    if |items| == 0 then Some([])
    else match (items[0], StringsFromJson(items[1..]))
      case (JString(s), Some(rest)) => Some([s] + rest)
      case _ => None
  }

  lemma {:induction false} StringsRoundTrip(xs: seq<string>)
    ensures StringsFromJson(StringsToJson(xs)) == Some(xs)
    decreases |xs|
  {
    if |xs| > 0 {
      assert StringsToJson(xs)[1..] == StringsToJson(xs[1..]);
      StringsRoundTrip(xs[1..]);
      assert [xs[0]] + xs[1..] == xs;
    }
  }

  /** The `test_steps` list of an object, when it is a list of strings. */
  function StepsField(fields: seq<(string, Json)>): Option<seq<string>> {
    match Get(fields, "test_steps")
    case Some(JArray(items)) => StringsFromJson(items)
    case _ => None
  }

  /** The `test_type` of an object, when it names a kind. */
  function KindField(fields: seq<(string, Json)>): Option<Kind> {
    match StringField(fields, "test_type")
    case Some(name) => KindFromName(name)
    case None => None
  }

  /** A case read back by key, the way the dashboard reads the returned dicts;
      `None` when a field is missing or has the wrong shape. */
  function FromJson(j: Json): Option<TestCase> {
    if !j.JObject? then None
    else
      var fs := j.fields;
      var id := StringField(fs, "test_id");
      var feature := StringField(fs, "feature");
      var scenario := StringField(fs, "test_scenario");
      var kind := KindField(fs);
      var pre := StringField(fs, "preconditions");
      var steps := StepsField(fs);
      var expected := StringField(fs, "expected_result");
      var source := StringField(fs, "grounded_in");
      if id.Some? && feature.Some? && scenario.Some? && kind.Some? && pre.Some? && steps.Some? && expected.Some? && source.Some?
      then Some(TestCase(id.value, feature.value, scenario.value, kind.value, pre.value, steps.value, expected.value, source.value))
      else None
  }

  /** In a dict with distinct keys, a string stored under `key` is read back. */
  lemma StringFieldAt(fs: seq<(string, Json)>, i: nat, key: string, s: string)
    requires i < |fs| && fs[i] == (key, JString(s))
    requires forall a, b :: 0 <= a < b < |fs| ==> fs[a].0 != fs[b].0
    ensures StringField(fs, key) == Some(s)
  {
    GetDistinct(fs, i);
  }

  lemma ToJsonStringFields(tc: TestCase)
    ensures var fs := ToJson(tc).fields;
      && StringField(fs, "test_id") == Some(tc.testId)
      && StringField(fs, "feature") == Some(tc.feature)
      && StringField(fs, "test_scenario") == Some(tc.scenario)
      && StringField(fs, "preconditions") == Some(tc.preconditions)
  {
    var fs := ToJson(tc).fields;
    StringFieldAt(fs, 0, "test_id", tc.testId);
    StringFieldAt(fs, 1, "feature", tc.feature);
    StringFieldAt(fs, 2, "test_scenario", tc.scenario);
    StringFieldAt(fs, 4, "preconditions", tc.preconditions);
  }

  lemma ToJsonOtherFields(tc: TestCase)
    ensures var fs := ToJson(tc).fields;
      && KindField(fs) == Some(tc.kind)
      && StepsField(fs) == Some(tc.steps)
      && StringField(fs, "expected_result") == Some(tc.expected)
      && StringField(fs, "grounded_in") == Some(tc.groundedIn)
  {
    var fs := ToJson(tc).fields;
    KindFieldAt(fs, 3, tc.kind);
    StepsFieldAt(fs, 5, tc.steps);
    StringFieldAt(fs, 6, "expected_result", tc.expected);
    StringFieldAt(fs, 7, "grounded_in", tc.groundedIn);
  }

  lemma KindFieldAt(fs: seq<(string, Json)>, i: nat, k: Kind)
    requires i < |fs| && fs[i] == ("test_type", JString(KindName(k)))
    requires forall a, b :: 0 <= a < b < |fs| ==> fs[a].0 != fs[b].0
    ensures KindField(fs) == Some(k)
  {
    StringFieldAt(fs, i, "test_type", KindName(k));
  }

  lemma StepsFieldAt(fs: seq<(string, Json)>, i: nat, steps: seq<string>)
    requires i < |fs| && fs[i] == ("test_steps", JArray(StringsToJson(steps)))
    requires forall a, b :: 0 <= a < b < |fs| ==> fs[a].0 != fs[b].0
    ensures StepsField(fs) == Some(steps)
  {
    GetDistinct(fs, i);
    StringsRoundTrip(steps);
  }

  /** The dict form loses nothing: reading it back by key gives the record. */
  lemma ToJsonRoundTrip(tc: TestCase)
    ensures FromJson(ToJson(tc)) == Some(tc)
  {
    ToJsonStringFields(tc);
    ToJsonOtherFields(tc);
  }

  /** `f"TC-{str(k).zfill(3)}"`. */
  function TestId(k: nat): string {
    "TC-" + ZFill(NatToString(k), 3)
  }

  lemma FirstTestId()
    ensures TestId(1) == "TC-001"
  {
    assert NatToString(1) == "1";
    assert ZFill("1", 3) == "001";
  }

  lemma ToJsonTestId(tc: TestCase)
    ensures Get(ToJson(tc).fields, "test_id") == Some(JString(tc.testId))
  {
    GetDistinct(ToJson(tc).fields, 0);
  }

  /** Different numbers give different ids, also past 999 where no padding is added. */
  lemma TestIdInjective(a: nat, b: nat)
    requires TestId(a) == TestId(b)
    ensures a == b
  {
    PaddedRoundTrip(a, 3);
    PaddedRoundTrip(b, 3);
    assert TestId(a)[3..] == ZFill(NatToString(a), 3);
    assert TestId(b)[3..] == ZFill(NatToString(b), 3);
  }

  /** Position `i` (0-based) of a generated batch is negative: every third case. */
  predicate NegativeSlot(i: nat) {
    i % 3 == 2
  }

  /** `grounded_in` of the fallback cases: the first retrieved source, or
      `'product_specs.md'` without context; the `'documentation'` default
      of the source is never reached. */
  function FallbackSource(ctx: seq<ContextEntry>): (r: string)
    ensures |ctx| > 0 ==> r == ctx[0].source
    ensures |ctx| == 0 ==> r == "product_specs.md"
  {
    var sources := if |ctx| > 0 then SourcesOf(ctx) else ["product_specs.md"];
    if |sources| > 0 then sources[0] else "documentation"
  }

  function SourcesOf(ctx: seq<ContextEntry>): (r: seq<string>)
    ensures |r| == |ctx| && forall i :: 0 <= i < |ctx| ==> r[i] == ctx[i].source
  {
    seq(|ctx|, i requires 0 <= i < |ctx| => ctx[i].source)
  }

  /** Case `i` of `_generate_mock_test_cases`. */
  function FallbackCase(query: string, i: nat, source: string): TestCase {
    var negative := NegativeSlot(i);
    var number := NatToString(i + 1);
    TestCase(
      TestId(i + 1),
      "Checkout Feature",
      "Test " + (if negative then "invalid" else "valid") + " " + Lower(query) + " scenario " + number,
      if negative then Negative else Positive,
      "User on checkout page with items in cart",
      ["Navigate to checkout page", "Perform " + query + " action", "Verify result matches expectations"],
      if negative then "Error message displayed" else "Action completes successfully",
      source)
  }

  /** `_generate_mock_test_cases(query, num, context)`: `num` cases (none for
      `num <= 0`); case `i` has id `TC-` and `i + 1` padded to three digits, is
      negative exactly at every third position, has three steps and is grounded in
      the first retrieved source or `product_specs.md`. */
  function MockTestCases(query: string, num: int, ctx: seq<ContextEntry>): (cases: seq<TestCase>)
    ensures |cases| == if num > 0 then num else 0
    ensures forall i :: 0 <= i < |cases| ==>
              && cases[i].testId == TestId(i + 1)
              && (cases[i].kind == Negative <==> i % 3 == 2)
              && |cases[i].steps| == 3
              && cases[i].groundedIn == (if |ctx| > 0 then ctx[0].source else "product_specs.md")
  {
    var count := if num > 0 then num else 0;
    var source := FallbackSource(ctx);
    seq(count, i requires 0 <= i < count => FallbackCase(query, i, source))
  }

  /** How many cases of `cases` are negative. */
  function CountNegative(cases: seq<TestCase>): nat {
    if |cases| == 0 then 0
    else CountNegative(cases[..|cases| - 1]) + (if cases[|cases| - 1].kind == Negative then 1 else 0)
  }

  /** The fallback batch has exactly `num / 3` negative cases (integer division). */
  lemma {:induction false} MockNegativeCount(query: string, num: nat, ctx: seq<ContextEntry>)
    ensures CountNegative(MockTestCases(query, num, ctx)) == num / 3
    decreases num
  {
    if num > 0 {
      var cases := MockTestCases(query, num, ctx);
      assert cases[..num - 1] == MockTestCases(query, num - 1, ctx);
      MockNegativeCount(query, num - 1, ctx);
      assert CountNegative(cases) == CountNegative(cases[..num - 1]) + (if cases[num - 1].kind == Negative then 1 else 0);
      assert cases[num - 1].kind == Negative <==> (num - 1) % 3 == 2;
      ThirdsStep(num - 1);
    }
  }

  /** One more position adds one third exactly when it is a third position. */
  lemma ThirdsStep(m: nat)
    ensures (m + 1) / 3 == m / 3 + (if m % 3 == 2 then 1 else 0)
  {
  }

  /** So a non-empty fallback batch is always under 40% negative. */
  lemma MockBelowFortyPercentNegative(query: string, num: nat, ctx: seq<ContextEntry>)
    requires num > 0
    ensures 5 * CountNegative(MockTestCases(query, num, ctx)) < 2 * num
  {
    MockNegativeCount(query, num, ctx);
  }

  /** Within one fallback batch the ids are pairwise distinct. */
  lemma MockIdsDistinct(query: string, num: int, ctx: seq<ContextEntry>, i: nat, j: nat)
    requires i < j < |MockTestCases(query, num, ctx)|
    ensures MockTestCases(query, num, ctx)[i].testId != MockTestCases(query, num, ctx)[j].testId
  {
    if TestId(i + 1) == TestId(j + 1) {
      TestIdInjective(i + 1, j + 1);
    }
  }

  /** Case `i` of the list `_mock_llm_response` serialises. */
  function LlmMockCase(i: nat): TestCase {
    var negative := NegativeSlot(i);
    var number := NatToString(i + 1);
    TestCase(
      TestId(i + 1),
      "Checkout Functionality",
      (if negative then "Invalid" else "Valid") + " test scenario " + number,
      if negative then Negative else Positive,
      "User is on checkout page with items in cart",
      ["Navigate to checkout page", "Perform test action " + number, "Verify expected result"],
      if negative then "Error message displayed" else "Action completes successfully",
      "product_specs.md")
  }

  /** The `{"test_cases": [...]}` object `_mock_llm_response` passes to `json.dumps`. */
  function MockPayload(n: nat): (j: Json)
    ensures j.JObject? && DistinctKeys(j)
    ensures Get(j.fields, "test_cases") == Some(JArray(seq(n, i requires 0 <= i < n => ToJson(LlmMockCase(i)))))
  {
    JObject([("test_cases", JArray(seq(n, i requires 0 <= i < n => ToJson(LlmMockCase(i)))))])
  }
}
