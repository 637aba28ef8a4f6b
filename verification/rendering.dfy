/**
 What the results panel derives from a response: the summary row of each test
 case, the step rows of an expanded case, and the meta line under the title.
 */
module Rendering {
  import opened Types
  import Text

  /** Expected-result text of every step but the last. */
  const StepPlaceholder := "Step completed successfully"

  /** Test-data text when a case carries none. */
  const NoTestData := "N/A"

  /** One row of a case's step breakdown: step id, step text, test data and
      expected result, as the four columns show them. */
  datatype StepRow = StepRow(stepId: string, description: string, testData: string, expected: string)

  /** `'S' + String(index + 1).padStart(2, '0')` for the 0-based `index`. */
  function StepLabel(index: nat): (r: string)
    ensures |r| >= 3 && r[0] == 'S'
    ensures Text.IsDigits(r[1..])
  {
    var digits := Text.PadStart(Text.NatToDecimal(index + 1), 2, '0');
    assert ("S" + digits)[1..] == digits;
    "S" + digits
  }

  /** Reads a step label back: the step number after the `S`. */
  function ParseStepLabel(text: string): Option<nat> {
    if |text| >= 2 && text[0] == 'S' && Text.IsDigits(text[1..])
    then Some(Text.DecimalValue(text[1..]))
    else None
  }

  /** A step label carries the 1-based step number. */
  lemma StepLabelRoundTrip(index: nat)
    ensures ParseStepLabel(StepLabel(index)) == Some(index + 1)
  {
    var digits := Text.NatToDecimal(index + 1);
    Text.DecimalRoundTrip(index + 1);
    Text.ZeroPadKeepsValue(digits, 2);
    assert StepLabel(index)[1..] == Text.PadStart(digits, 2, '0');
  }

  /** Different steps get different labels. */
  lemma StepLabelsDistinct(i: nat, j: nat)
    requires i != j
    ensures StepLabel(i) != StepLabel(j)
  {
    StepLabelRoundTrip(i);
    StepLabelRoundTrip(j);
  }

  /** Up to step 99 the label is `S` and exactly two digits; the first nine
      steps get a leading zero. */
  lemma StepLabelWidth(index: nat)
    ensures index < 99 ==> |StepLabel(index)| == 3
    ensures index < 9 ==> StepLabel(index) == ['S', '0', Text.DigitChar(index + 1)]
    ensures index >= 9 ==> StepLabel(index) == "S" + Text.NatToDecimal(index + 1)
  {
  }

  /** `testCase.testData || 'N/A'`: absent or empty test data shows `N/A`. */
  function TestDataText(testData: Option<string>): (r: string)
    ensures r != []
    ensures testData.Some? && testData.value != [] ==> r == testData.value
    ensures testData.None? || testData.value == [] ==> r == NoTestData
  {
    match testData
    case Some(t) => if t != [] then t else NoTestData
    case None => NoTestData
  }

  /** The row for step `index` of `tc` (the body of the `steps.map` callback). */
  function StepRowAt(tc: TestCase, index: nat): StepRow
    requires index < |tc.steps|
  {
    StepRow(
      StepLabel(index),
      tc.steps[index],
      TestDataText(tc.testData),
      if index == |tc.steps| - 1 then tc.expectedResult else StepPlaceholder)
  }

  /** The step breakdown of a case: one row per step, in order, labelled by
      its 1-based number; every row repeats the case's test data; only the
      last row shows the case's expected result, every earlier row the fixed
      placeholder. */
  function StepRows(tc: TestCase): (rows: seq<StepRow>)
    ensures |rows| == |tc.steps|
    ensures forall i :: 0 <= i < |rows| ==>
      && rows[i].stepId == StepLabel(i)
      && rows[i].description == tc.steps[i]
      && rows[i].testData == TestDataText(tc.testData)
    ensures forall i :: 0 <= i < |rows| - 1 ==> rows[i].expected == StepPlaceholder
    ensures |rows| > 0 ==> rows[|rows| - 1].expected == tc.expectedResult
  {
    seq(|tc.steps|, i requires 0 <= i < |tc.steps| => StepRowAt(tc, i))
  }

  /** When the case's expected result differs from the placeholder, the last
      row is the one and only row showing it. */
  lemma ExpectedResultOnlyOnLastRow(tc: TestCase, i: nat)
    requires tc.expectedResult != StepPlaceholder
    requires i < |tc.steps|
    ensures StepRows(tc)[i].expected == tc.expectedResult <==> i == |tc.steps| - 1
  {
  }

  /** Three steps are labelled S01, S02, S03; the first two show the
      placeholder, the third the case's expected result. */
  lemma ThreeStepExample(tc: TestCase)
    requires |tc.steps| == 3
    ensures var rows := StepRows(tc);
      && rows[0].stepId == "S01" && rows[1].stepId == "S02" && rows[2].stepId == "S03"
      && rows[0].expected == StepPlaceholder && rows[1].expected == StepPlaceholder
      && rows[2].expected == tc.expectedResult
  {
  }

  /** `'category-' + category.toLowerCase()`: the style class of a category. */
  function CategoryClass(category: string): (r: string)
    ensures |r| == 9 + |category|
    ensures r[..9] == "category-"
    ensures forall i :: 9 <= i < |r| ==> r[i] == Text.LowerChar(category[i - 9])
    ensures forall i :: 9 <= i < |r| ==> !Text.IsUpperAscii(r[i])
  {
    "category-" + Text.ToLower(category)
  }

  /** Categories that differ only in letter case share a style class. */
  lemma CategoryClassIgnoresCase(a: string, b: string)
    requires |a| == |b|
    requires forall i :: 0 <= i < |a| ==> Text.LowerChar(a[i]) == Text.LowerChar(b[i])
    ensures CategoryClass(a) == CategoryClass(b)
  {
  }

  /** One summary row, with the step breakdown beneath it when expanded. */
  datatype CaseRow = CaseRow(
    id: string,
    title: string,
    category: string,
    categoryClass: string,
    expectedResult: string,
    details: Option<seq<StepRow>>)

  /** The summary rows of `cases`, in order; a row carries its step
      breakdown exactly when its id is in the expanded set. */
  function CaseRows(cases: seq<TestCase>, expanded: set<string>): (rows: seq<CaseRow>)
    ensures |rows| == |cases|
    ensures forall i :: 0 <= i < |rows| ==>
      && rows[i].id == cases[i].id
      && rows[i].title == cases[i].title
      && rows[i].category == cases[i].category
      && rows[i].categoryClass == CategoryClass(cases[i].category)
      && rows[i].expectedResult == cases[i].expectedResult
      && (rows[i].details.Some? <==> cases[i].id in expanded)
      && (rows[i].details.Some? ==> rows[i].details.value == StepRows(cases[i]))
  {
    if cases == [] then []
    else
      var tc := cases[0];
      var rest := CaseRows(cases[1..], expanded);
      var rows := [CaseRow(tc.id, tc.title, tc.category, CategoryClass(tc.category), tc.expectedResult,
                           if tc.id in expanded then Some(StepRows(tc)) else None)] + rest;
      assert forall k :: 1 <= k < |rows| ==> rows[k] == rest[k - 1] && cases[k] == cases[1..][k - 1];
      rows
  }

  /** The pieces of the meta line: the case count, then the model name, then
      the token total. */
  datatype MetaSegment = CaseCount(n: nat) | ModelName(name: string) | TokenTotal(total: int)

  /** The meta line shows a token total `t`. */
  predicate ShowsTokens(segments: seq<MetaSegment>, t: int) {
    exists i :: 0 <= i < |segments| && segments[i] == TokenTotal(t)
  }

  /** The meta line shows a model name `m`. */
  predicate ShowsModel(segments: seq<MetaSegment>, m: string) {
    exists i :: 0 <= i < |segments| && segments[i] == ModelName(m)
  }

  function Rank(segment: MetaSegment): nat {
    match segment
    case CaseCount(_) => 0
    case ModelName(_) => 1
    case TokenTotal(_) => 2
  }

  /** The meta line of a response: always the case count first; the model
      name only when the response names a non-empty model; the sum of prompt
      and completion tokens only when the prompt count is positive; each
      piece at most once and in that order. */
  function MetaSegments(resp: Response): (segments: seq<MetaSegment>)
    ensures |segments| == 1
      + (if resp.model.Some? && resp.model.value != [] then 1 else 0)
      + (if resp.promptTokens > 0 then 1 else 0)
    ensures segments[0] == CaseCount(|resp.cases|)
    ensures forall m :: ShowsModel(segments, m) <==> resp.model == Some(m) && m != []
    ensures forall t :: ShowsTokens(segments, t) <==>
      resp.promptTokens > 0 && t == resp.promptTokens + resp.completionTokens
    ensures forall i, j :: 0 <= i < j < |segments| ==> Rank(segments[i]) < Rank(segments[j])
  {
    var model := if resp.model.Some? && resp.model.value != [] then [ModelName(resp.model.value)] else [];
    var tokens := if resp.promptTokens > 0 then [TokenTotal(resp.promptTokens + resp.completionTokens)] else [];
    var segments := [CaseCount(|resp.cases|)] + model + tokens;
    assert forall t :: ShowsTokens(segments, t) ==> tokens == [TokenTotal(t)];
    assert forall m :: ShowsModel(segments, m) ==> model == [ModelName(m)];
    assert tokens != [] ==> segments[|segments| - 1] == tokens[0];
    assert model != [] ==> segments[1] == model[0];
    segments
  }

  function SegmentText(segment: MetaSegment): string {
    match segment
    case CaseCount(n) => Text.NatToDecimal(n) + " test case(s) generated"
    case ModelName(m) => " \U{2022} Model: " + m
    case TokenTotal(t) => " \U{2022} Tokens: " + Text.IntToDecimal(t)
  }

  function Concat(segments: seq<MetaSegment>): string {
    if segments == [] then [] else SegmentText(segments[0]) + Concat(segments[1..])
  }

  /** The text of the meta line. */
  function MetaText(resp: Response): string {
    Concat(MetaSegments(resp))
  }

  /** The meta line opens with the case count in decimal, which reads back as
      the number of cases; with no model and no positive prompt count it is
      nothing more. */
  lemma MetaTextStartsWithCount(resp: Response)
    ensures var count := Text.NatToDecimal(|resp.cases|);
      && |count| <= |MetaText(resp)|
      && MetaText(resp)[..|count|] == count
      && Text.DecimalValue(count) == |resp.cases|
    ensures (resp.model.None? || resp.model.value == []) && resp.promptTokens <= 0 ==>
      MetaText(resp) == Text.NatToDecimal(|resp.cases|) + " test case(s) generated"
  {
    var segments := MetaSegments(resp);
    assert MetaText(resp) == SegmentText(segments[0]) + Concat(segments[1..]);
    Text.DecimalRoundTrip(|resp.cases|);
  }

  /** The meta line written out piece by piece: the count sentence, then
      ` • Model: ` and the name when a non-empty model is named, then
      ` • Tokens: ` and the sum of both counts when the prompt count is
      positive. */
  lemma MetaTextLayout(resp: Response)
    ensures MetaText(resp) ==
      Text.NatToDecimal(|resp.cases|) + " test case(s) generated"
      + (if resp.model.Some? && resp.model.value != [] then " \U{2022} Model: " + resp.model.value else "")
      + (if resp.promptTokens > 0
         then " \U{2022} Tokens: " + Text.IntToDecimal(resp.promptTokens + resp.completionTokens)
         else "")
  {
    var n := [CaseCount(|resp.cases|)];
    var ms := if resp.model.Some? && resp.model.value != [] then [ModelName(resp.model.value)] else [];
    var ts := if resp.promptTokens > 0 then [TokenTotal(resp.promptTokens + resp.completionTokens)] else [];
    assert MetaText(resp) == Concat(n + ms + ts);
    ConcatAppend(n + ms, ts);
    ConcatAppend(n, ms);
    ConcatSingle(n[0]);
    if ms != [] {
      ConcatSingle(ms[0]);
    }
    if ts != [] {
      ConcatSingle(ts[0]);
    }
  }

  lemma ConcatSingle(segment: MetaSegment)
    ensures Concat([segment]) == SegmentText(segment)
  {
    assert [segment][1..] == [];
  }

  /** The text of two runs of pieces is the text of the first followed by
      the text of the second. */
  lemma {:induction false} ConcatAppend(a: seq<MetaSegment>, b: seq<MetaSegment>)
    ensures Concat(a + b) == Concat(a) + Concat(b)
    decreases |a|
  {
    if a == [] {
      assert a + b == b;
    } else {
      assert (a + b)[1..] == a[1..] + b;
      ConcatAppend(a[1..], b);
    }
  }
}
