/** The LLM side of `RAGEngine`: the prompt `generate_test_cases` sends, `call_llm`
    with its fallback, and the offline stand-in `_mock_llm_response`. The HTTP
    exchange with the model service is an input, `ServiceReply`. */
module Gateway {
  import opened PyStr
  import opened Decimal
  import opened JsonValue
  import opened Knowledge
  import opened TestCases

  /** The prompt template of `generate_test_cases`, cut at its placeholders
      (`{num_cases}` three times, `{context_str}`, `{query}`). */
  const PromptOpening :=
    "You are an expert QA engineer. " + "Generate "

  const AfterCount :=
    " based on the provided documentation.\n" +
    "\n" +
    "DOCUMENTATION CONTEXT:\n"

  const AfterContext :=
    "\n" +
    "\n" +
    "USER REQUEST: "

  const AfterQuery :=
    "\n" +
    "\n" +
    "IMPORTANT: Generate EXACTLY "

  const FormatBlock :=
    " test cases. Include both positive AND negative test scenarios.\n" +
    "\n" +
    "Generate the test cases in the following JSON format (return ONLY valid JSON, no markdown, no extra text):\n" +
    "\n" +
    "{\n" +
    "  \"test_cases\": [\n" +
    "    {\n" +
    "      \"test_id\": \"TC-001\",\n" +
    "      \"feature\": \"Feature Name\",\n" +
    "      \"test_scenario\": \"Detailed description of what is being tested\",\n" +
    "      \"test_type\": \"positive\",\n" +
    "      \"preconditions\": \"Any setup needed before test\",\n" +
    "      \"test_steps\": [\n" +
    "        \"Step 1: Do something specific\",\n" +
    "        \"Step 2: Verify something\",\n" +
    "        \"Step 3: Check result\"\n" +
    "      ],\n" +
    "      \"expected_result\": \"What should happen when test passes\",\n" +
    "      \"grounded_in\": \"source_document.md\"\n" +
    "    },\n" +
    "    {\n" +
    "      \"test_id\": \"TC-002\",\n" +
    "      \"feature\": \"Feature Name\",\n" +
    "      \"test_scenario\": \"Another test scenario\",\n" +
    "      \"test_type\": \"negative\",\n" +
    "      \"preconditions\": \"Setup for negative test\",\n" +
    "      \"test_steps\": [\n" +
    "        \"Step 1: Enter invalid data\",\n" +
    "        \"Step 2: Submit\",\n" +
    "        \"Step 3: Verify error\"\n" +
    "      ],\n" +
    "      \"expected_result\": \"Error message should appear\",\n" +
    "      \"grounded_in\": \"validation_rules.txt\"\n" +
    "    }\n" +
    "  ]\n" +
    "}\n" +
    "\n" +
    "CRITICAL REQUIREMENTS:\n" +
    "- Generate EXACTLY "

  const Requirements :=
    " test cases\n" +
    "- Base ALL test cases on the provided documentation\n" +
    "- Include source document in \"grounded_in\" field\n" +
    "- Mix positive and negative scenarios (at least 40% negative tests)\n" +
    "- Be specific and detailed in test steps\n" +
    "- Use actual values from documentation (like discount codes SAVE15, SAVE20)\n" +
    "- Return ONLY valid JSON, no markdown code blocks, no explanations"

  /** The fixed Selenium script `_mock_llm_response` returns for other prompts. */
  const MockScript :=
    "from selenium import webdriver\n" +
    "from selenium.webdriver.common.by import By\n" +
    "from selenium.webdriver.support.ui import WebDriverWait\n" +
    "from selenium.webdriver.support import expected_conditions as EC\n" +
    "import time\n" +
    "\n" +
    "def test_checkout():\n" +
    "    driver = webdriver.Chrome()\n" +
    "    try:\n" +
    "        # Navigate to page\n" +
    "        driver.get(\"file:///path/to/checkout.html\")\n" +
    "        time.sleep(2)\n" +
    "        \n" +
    "        # Test implementation\n" +
    "        element = driver.find_element(By.ID, \"test-element\")\n" +
    "        element.click()\n" +
    "        \n" +
    "        # Assertion\n" +
    "        assert \"expected\" in driver.page_source\n" +
    "        \n" +
    "        print(\"\U{2705} Test passed\")\n" +
    "    finally:\n" +
    "        driver.quit()\n" +
    "\n" +
    "if __name__ == \"__main__\":\n" +
    "    test_checkout()"

  /** `"\n\n".join(...)` over `context_docs[:8]`: each entry as `[Source: s]`, a newline and its content. */
  function ContextString(ctx: seq<ContextEntry>): (r: string)
    ensures |ctx| == 0 ==> r == ""
  {
    var shown := PyTake(ctx, 8);
    Join("\n\n", seq(|shown|, i requires 0 <= i < |shown| => "[Source: " + shown[i].source + "]\n" + shown[i].content))
  }

  /** The f-string prompt of `generate_test_cases`. */
  function TestCasePrompt(num: int, contextStr: string, query: string): string {
    PromptOpening + "EXACTLY " + IntToString(num) + " comprehensive " + "test cases" + PromptTail(num, contextStr, query)
  }

  /** The prompt from the end of its first sentence on. */
  function PromptTail(num: int, contextStr: string, query: string): string {
    var count := IntToString(num);
    AfterCount + contextStr + AfterContext + query + AfterQuery + count + FormatBlock + count + Requirements
  }

  const Exactly := "EXACTLY "

  /** `EXACTLY ` occurs at `i` and a digit follows it. */
  predicate CountAt(s: string, i: int) {
    At(s, Exactly, i) && i + |Exactly| < |s| && IsDigit(s[i + |Exactly|])
  }

  /** The longest run of digits `s` starts with: what `\d+` captures. */
  function LeadingDigits(s: string): (r: string)
    ensures r <= s && AllDigits(r)
    ensures |r| < |s| ==> !IsDigit(s[|r|])
  {
    if |s| > 0 && IsDigit(s[0]) then [s[0]] + LeadingDigits(s[1..]) else ""
  }

  lemma CountAtShift(s: string)
    requires |s| > 0
    ensures forall j {:trigger CountAt(s, j)} :: 1 <= j ==> (CountAt(s, j) <==> CountAt(s[1..], j - 1))
  {
    AtShift(s, Exactly);
  }

  /** `int(m.group(1))` for `m = re.search(r'EXACTLY (\d+)', s)`, scanning from the left. */
  function SearchExactly(s: string): Option<nat>
    decreases |s|
  {
    if |s| == 0 then None
    else if CountAt(s, 0) then Some(DigitsValue(LeadingDigits(s[|Exactly|..])))
    else SearchExactly(s[1..])
  }

  /** The search finds nothing exactly when no `EXACTLY ` in `s` is followed by a
      digit, and otherwise reads the digits after the first one that is. */
  lemma SearchExactlyFindsFirst(s: string)
    ensures SearchExactly(s).None? <==> forall i :: !CountAt(s, i)
    ensures SearchExactly(s).Some? ==>
              exists i :: && CountAt(s, i)
                          && (forall j :: 0 <= j < i ==> !CountAt(s, j))
                          && SearchExactly(s).value == DigitsValue(LeadingDigits(s[i + |Exactly|..]))
  {
    SearchNoneExactly(s);
    SearchReadsFirst(s);
  }

  lemma {:induction false} SearchNoneExactly(s: string)
    ensures SearchExactly(s).None? <==> forall i :: !CountAt(s, i)
    decreases |s|
  {
    if |s| > 0 && !CountAt(s, 0) {
      assert SearchExactly(s) == SearchExactly(s[1..]);
      CountAtShift(s);
      SearchNoneExactly(s[1..]);
      if forall i :: !CountAt(s, i) {
        forall i ensures !CountAt(s[1..], i) {
          if i >= 0 {
            assert !CountAt(s, i + 1);
          }
        }
      }
      if forall i :: !CountAt(s[1..], i) {
        forall i ensures !CountAt(s, i) {
          if i >= 1 {
            assert CountAt(s, i) <==> CountAt(s[1..], i - 1);
          }
        }
      }
    } else if |s| > 0 {
      assert CountAt(s, 0);
    }
  }

  lemma {:induction false} SearchReadsFirst(s: string)
    ensures SearchExactly(s).Some? ==>
              exists i :: && CountAt(s, i)
                          && (forall j :: 0 <= j < i ==> !CountAt(s, j))
                          && SearchExactly(s).value == DigitsValue(LeadingDigits(s[i + |Exactly|..]))
    decreases |s|
  {
    if |s| > 0 && !CountAt(s, 0) {
      var r := SearchExactly(s[1..]);
      assert SearchExactly(s) == r;
      if r.Some? {
        SearchReadsFirst(s[1..]);
        CountAtShift(s);
        var i :| && CountAt(s[1..], i)
                 && (forall j :: 0 <= j < i ==> !CountAt(s[1..], j))
                 && r.value == DigitsValue(LeadingDigits(s[1..][i + |Exactly|..]));
        assert s[1..][i + |Exactly|..] == s[i + 1 + |Exactly|..];
        assert CountAt(s, i + 1);
      }
    } else if |s| > 0 {
      assert CountAt(s, 0);
    }
  }

  /** Text without a capital `E` cannot hold the match, so the search skips it. */
  lemma {:induction false} SearchSkipsTextWithoutE(p: string, x: string)
    requires 'E' !in p
    ensures SearchExactly(p + x) == SearchExactly(x)
    decreases |p|
  {
    if |p| > 0 {
      var s := p + x;
      assert s[0] == p[0] && p[0] != 'E';
      assert !At(s, Exactly, 0) by {
        if |s| >= |Exactly| {
          assert s[0..|Exactly|][0] == s[0];
        }
      }
      assert (p + x)[1..] == p[1..] + x;
      SearchSkipsTextWithoutE(p[1..], x);
      assert SearchExactly(s) == SearchExactly(s[1..]);
    } else {
      assert p + x == x;
    }
  }

  lemma {:induction false} LeadingDigitsOf(d: string, rest: string)
    requires AllDigits(d)
    requires |rest| > 0 && !IsDigit(rest[0])
    ensures LeadingDigits(d + rest) == d
    decreases |d|
  {
    if |d| > 0 {
      assert (d + rest)[1..] == d[1..] + rest;
      LeadingDigitsOf(d[1..], rest);
      assert d == [d[0]] + d[1..];
    } else {
      assert d + rest == rest;
    }
  }

  /** `EXACTLY ` followed by a digit at the front of a text is a match at 0. */
  lemma ExactlyAtFront(d: string, rest: string)
    requires |d| > 0 && IsDigit(d[0])
    ensures CountAt(Exactly + d + rest, 0)
    ensures (Exactly + d + rest)[|Exactly|..] == d + rest
  {
    var tail := Exactly + d + rest;
    assert tail[..|Exactly|] == Exactly;
    assert tail[|Exactly|] == d[0];
  }

  /** A text that starts with `EXACTLY ` and the digits of `num` yields `num`. */
  lemma CountAtStart(num: nat, rest: string)
    requires |rest| > 0 && !IsDigit(rest[0])
    ensures SearchExactly(Exactly + NatToString(num) + rest) == Some(num)
  {
    var count := NatToString(num);
    ExactlyAtFront(count, rest);
    LeadingDigitsOf(count, rest);
    NatToStringRoundTrip(num);
  }

  /** A count right after text without a capital `E` is the first match. */
  lemma CountAfterOpening(opening: string, num: nat, d: string, e: string, f: string)
    requires 'E' !in opening
    requires |d| > 0 && !IsDigit(d[0])
    ensures SearchExactly(opening + Exactly + NatToString(num) + d + e + f) == Some(num)
  {
    var rest := d + e + f;
    var tail := Exactly + NatToString(num) + rest;
    assert opening + Exactly + NatToString(num) + d + e + f == opening + tail;
    SearchSkipsTextWithoutE(opening, tail);
    CountAtStart(num, rest);
  }

  /** For a count `num >= 0` the first `EXACTLY <digits>` of the prompt is the
      prompt's own count, whatever the context and the query say. */
  lemma PromptCountIsFound(num: nat, contextStr: string, query: string)
    ensures SearchExactly(TestCasePrompt(num, contextStr, query)) == Some(num)
  {
    assert 'E' !in PromptOpening;
    CountAfterOpening(PromptOpening, num, " comprehensive ", "test cases", PromptTail(num, contextStr, query));
  }

  /** A word without capitals survives `lower()` of any text around it. */
  lemma LowerKeepsWord(x: string, w: string, y: string)
    requires forall i :: 0 <= i < |w| ==> !('A' <= w[i] <= 'Z')
    ensures Contains(Lower(x + w + y), w)
  {
    var s := x + w + y;
    forall m | 0 <= m < |w|
      ensures Lower(s)[|x| + m] == w[m]
    {
      assert s[|x| + m] == w[m];
    }
    assert Lower(s)[|x|..|x| + |w|] == w;
    assert At(Lower(s), w, |x|);
  }

  /** The prompt always mentions `test cases`, in any letter case. */
  lemma PromptMentionsTestCases(num: int, contextStr: string, query: string)
    ensures Contains(Lower(TestCasePrompt(num, contextStr, query)), "test cases")
  {
    LowerKeepsWord(PromptOpening + "EXACTLY " + IntToString(num) + " comprehensive ", "test cases", PromptTail(num, contextStr, query));
  }

  /** `_mock_llm_response(prompt)`: for a prompt mentioning `test cases` in any
      letter case, the `json.dumps` text of a `test_cases` list as long as the
      prompt's first `EXACTLY <n>`, or 5 long without one; otherwise the fixed
      Selenium script. */
  function MockLlmResponse(prompt: string): string
  {
    if Contains(Lower(prompt), "test cases") then Dumps(MockPayload(SearchExactly(prompt).GetOr(5)))
    else MockScript
  }

  /** The JSON reply is a single object with no backtick anywhere in its text, so
      the JSON cleaner has nothing to cut from it. */
  lemma MockReplyIsBareObject(prompt: string)
    requires Contains(Lower(prompt), "test cases")
    ensures var r := MockLlmResponse(prompt);
      |r| >= 2 && r[0] == '{' && r[|r| - 1] == '}' && '`' !in r
  {
    var n := SearchExactly(prompt).GetOr(5);
    MockPayloadAvoidsBacktick(n);
    SerializeAvoidsBacktick(MockPayload(n), Compact, 0);
  }

  lemma DigitsAvoidBacktick(s: string)
    requires AllDigits(s)
    ensures '`' !in s
  {
  }

  lemma TestIdAvoidsBacktick(k: nat)
    ensures '`' !in TestId(k)
  {
    PaddedRoundTrip(k, 3);
    DigitsAvoidBacktick(ZFill(NatToString(k), 3));
  }

  lemma MockFixedTextsAvoidBacktick()
    ensures '`' !in "Checkout Functionality" && '`' !in "product_specs.md"
    ensures '`' !in "User is on checkout page with items in cart"
  {
    LiteralAvoidsBacktick("Checkout Functionality");
    LiteralAvoidsBacktick("product_specs.md");
    LiteralAvoidsBacktick("User is on checkout page with items in cart");
  }

  lemma MockOutcomesAvoidBacktick()
    ensures '`' !in "Error message displayed" && '`' !in "Action completes successfully"
  {
    LiteralAvoidsBacktick("Error message displayed");
    LiteralAvoidsBacktick("Action completes successfully");
  }

  lemma MockStepWordsAvoidBacktick()
    ensures '`' !in "Navigate to checkout page" && '`' !in "Verify expected result"
    ensures '`' !in "Perform test action "
  {
    LiteralAvoidsBacktick("Navigate to checkout page");
    LiteralAvoidsBacktick("Verify expected result");
    LiteralAvoidsBacktick("Perform test action ");
  }

  lemma MockScenarioWordsAvoidBacktick()
    ensures '`' !in "Invalid" && '`' !in "Valid" && '`' !in " test scenario "
  {
    LiteralAvoidsBacktick("Invalid");
    LiteralAvoidsBacktick("Valid");
    LiteralAvoidsBacktick(" test scenario ");
  }

  /** Text made only of letters, digits, spaces, `_`, `-` and `.` has no backtick. */
  lemma LiteralAvoidsBacktick(s: string)
    requires forall i :: 0 <= i < |s| ==> PlainChar(s[i])
    ensures '`' !in s
  {
  }

  predicate PlainChar(c: char) {
    'a' <= c <= 'z' || 'A' <= c <= 'Z' || '0' <= c <= '9' || c == ' ' || c == '_' || c == '-' || c == '.'
  }

  lemma MockScenarioAvoidsBacktick(i: nat)
    ensures '`' !in LlmMockCase(i).scenario
  {
    MockScenarioWordsAvoidBacktick();
    DigitsAvoidBacktick(NatToString(i + 1));
  }

  lemma MockStepsAvoidBacktick(i: nat)
    ensures forall k :: 0 <= k < |LlmMockCase(i).steps| ==> '`' !in LlmMockCase(i).steps[k]
  {
    MockStepWordsAvoidBacktick();
    DigitsAvoidBacktick(NatToString(i + 1));
  }

  lemma MockCaseTextsAvoidBacktick(i: nat)
    ensures var tc := LlmMockCase(i);
      && '`' !in tc.testId && '`' !in tc.feature && '`' !in tc.scenario && '`' !in tc.preconditions
      && '`' !in tc.expected && '`' !in tc.groundedIn
      && forall k :: 0 <= k < |tc.steps| ==> '`' !in tc.steps[k]
  {
    MockFixedTextsAvoidBacktick();
    MockOutcomesAvoidBacktick();
    TestIdAvoidsBacktick(i + 1);
    MockScenarioAvoidsBacktick(i);
    MockStepsAvoidBacktick(i);
  }

  lemma MockCaseAvoidsBacktick(i: nat)
    ensures TextAvoids(ToJson(LlmMockCase(i)), '`')
  {
    MockCaseTextsAvoidBacktick(i);
    ToJsonAvoidsBacktick(LlmMockCase(i));
  }

  lemma MockPayloadAvoidsBacktick(n: nat)
    ensures TextAvoids(MockPayload(n), '`')
  {
    var items := seq(n, i requires 0 <= i < n => ToJson(LlmMockCase(i)));
    forall i | 0 <= i < n
      ensures TextAvoids(items[i], '`')
    {
      MockCaseAvoidsBacktick(i);
    }
    assert MockPayload(n).fields[0].1 == JArray(items);
  }

  /** Offline, the pipeline's prompt is answered with exactly `num` cases. */
  lemma MockAnswersPrompt(num: nat, contextStr: string, query: string)
    ensures MockLlmResponse(TestCasePrompt(num, contextStr, query)) == Dumps(MockPayload(num))
  {
    PromptMentionsTestCases(num, contextStr, query);
    PromptCountIsFound(num, contextStr, query);
    MockAnswersCount(TestCasePrompt(num, contextStr, query), num);
  }

  lemma MockAnswersCount(prompt: string, num: nat)
    requires Contains(Lower(prompt), "test cases") && SearchExactly(prompt) == Some(num)
    ensures MockLlmResponse(prompt) == Dumps(MockPayload(num))
  {
  }

  /** What the model service did with one request: an HTTP answer, with the
      `response` field of its JSON body when it has one, or no answer at all. */
  datatype ServiceReply = Answered(status: int, body: Option<string>) | Unreachable

  /** The service answered 200 with a readable `response` field. */
  predicate Served(reply: ServiceReply) {
    reply.Answered? && reply.status == 200 && reply.body.Some?
  }

  /** `call_llm(prompt)`: the service's text on success; on a non-200 status, an
      unreadable body or no connection, the mock reply for the same prompt. */
  function CallLlm(prompt: string, reply: ServiceReply): (r: string)
    ensures Served(reply) ==> r == reply.body.value
    ensures !Served(reply) ==> r == MockLlmResponse(prompt)
  {
    match reply
    case Answered(status, body) =>
      if status == 200 then
        match body
        case Some(text) => text
        case None => MockLlmResponse(prompt)
      else MockLlmResponse(prompt)
    case Unreachable => MockLlmResponse(prompt)
  }

  /** Every kind of failure leads to the same text. */
  lemma FailuresAgree(prompt: string, a: ServiceReply, b: ServiceReply)
    requires !Served(a) && !Served(b)
    ensures CallLlm(prompt, a) == CallLlm(prompt, b)
  {
  }
}
