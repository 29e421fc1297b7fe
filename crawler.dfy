/**
 * The numeric side of index.js: JavaScript numbers as the page loop sees
 * them, `parseInt`, the start-up configuration, the request delay and the
 * offsets the page loop visits.
 */
module Crawler {
  import opened Wrappers
  import opened Text

  // ---------------------------------------------------------------- JavaScript numbers

  /** A JavaScript number as far as the crawl loop needs one: an integer or
    * `NaN` (what `+= undefined` and `parseInt` of a text without digits give). */
  datatype JsNumber = Finite(value: int) | NaN

  function Plus(a: JsNumber, b: JsNumber): JsNumber {
    if a.Finite? && b.Finite? then Finite(a.value + b.value) else NaN
  }

  /** `a <= b`, which is false whenever either side is `NaN`. */
  predicate AtMost(a: JsNumber, b: JsNumber) {
    a.Finite? && b.Finite? && a.value <= b.value
  }

  predicate IsDigit(c: char) {
    '0' <= c <= '9'
  }

  /** The longest run of decimal digits at the front of `s`. */
  function DigitPrefix(s: string): (r: string)
    ensures |r| <= |s| && r == s[..|r|]
    ensures forall i :: 0 <= i < |r| ==> IsDigit(r[i])
    ensures |r| < |s| ==> !IsDigit(s[|r|])
  {
    if s != [] && IsDigit(s[0]) then [s[0]] + DigitPrefix(s[1..]) else []
  }

  /** `parseInt(text)` with no radix, for decimal text: leading whitespace is
    * skipped, one sign is read, then the longest run of digits; no digits
    * gives `NaN`. The result is `NaN` exactly when no digit follows the
    * whitespace and the sign, and it is negative only after a `-`. */
  function ParseInt(text: string): (r: JsNumber)
    ensures r.NaN? <==> !DigitAhead(text)
    ensures r.Finite? && r.value < 0 ==> TrimStart(text)[0] == '-'
  {
    var t := TrimStart(text);
    var body := if t != [] && (t[0] == '-' || t[0] == '+') then t[1..] else t;
    var digits := DigitPrefix(body);
    if digits == [] then NaN
    else if t[0] == '-' then Finite(-(DecimalValue(digits) as int))
    else Finite(DecimalValue(digits))
  }

  /** After leading whitespace and at most one sign, a digit comes next. */
  predicate DigitAhead(text: string) {
    var t := TrimStart(text);
    if t != [] && (t[0] == '-' || t[0] == '+') then |t| >= 2 && IsDigit(t[1])
    else t != [] && IsDigit(t[0])
  }

  /** The digit run at the front of `a + rest`, when `a` is all digits and
    * `rest` does not start with one, is `a`. */
  lemma {:induction false} DigitPrefixOf(a: string, rest: string)
    requires forall i :: 0 <= i < |a| ==> IsDigit(a[i])
    requires rest == [] || !IsDigit(rest[0])
    ensures DigitPrefix(a + rest) == a
  {
    if a != [] {
      assert (a + rest)[1..] == a[1..] + rest;
      DigitPrefixOf(a[1..], rest);
      assert [a[0]] + a[1..] == a;
    } else {
      assert a + rest == rest;
    }
  }

  /** Digits at the front of the text are read as a decimal number. */
  lemma ParseIntDigits(a: string, rest: string)
    requires a != [] && forall i :: 0 <= i < |a| ==> '0' <= a[i] <= '9'
    requires rest == [] || !IsDigit(rest[0])
    ensures ParseInt(a + rest) == Finite(DecimalValue(a))
  {
    var s := a + rest;
    assert s[0] == a[0];
    LeadingDigitNotTrimmed(s);
    DigitPrefixOf(a, rest);
    assert s[0] != '-' && s[0] != '+';
    assert DigitPrefix(s) == a;
    assert ParseInt(s) == Finite(DecimalValue(a));
  }

  lemma LeadingDigitNotTrimmed(s: string)
    requires s != [] && IsDigit(s[0])
    ensures TrimStart(s) == s
  {
    assert !IsWhitespace(s[0]);
  }

  /** A count printed in decimal and followed by anything that is not a digit
    * reads back as that count. */
  lemma ParseIntDecimal(n: nat, rest: string)
    requires rest == [] || !IsDigit(rest[0])
    ensures ParseInt(Decimal(n) + rest) == Finite(n)
  {
    ParseIntDigits(Decimal(n), rest);
    DecimalRoundTrip(n);
  }

  /** A text without any digit is `NaN`. */
  lemma NoDigitsIsNaN(text: string)
    requires forall i :: 0 <= i < |text| ==> !IsDigit(text[i])
    ensures ParseInt(text) == NaN
  {
    var t := TrimStart(text);
    if t != [] {
      assert t[0] == text[|text| - |t|];
      if |t| >= 2 {
        assert t[1] == text[|text| - |t| + 1];
      }
    }
  }

  /** A count written with a German thousands separator, as in `1.234 Treffer`,
    * reads as its first group only. */
  lemma GroupedCountReadsFirstGroup(text: string)
    requires text == "1.234 Treffer"
    ensures ParseInt(text) == Finite(1)
  {
    assert Decimal(1) == "1";
    assert text == Decimal(1) + ".234 Treffer";
    ParseIntDecimal(1, ".234 Treffer");
  }

  // ---------------------------------------------------------------- configuration

  datatype Provider = Provider(
    name: string,
    resultProbeUrl: string,
    resultUrl: string,
    resultsPerPage: int)

  datatype Crawling = Crawling(
    maxResults: int,
    minRequestDelay: int,
    maxRequestDelay: int)

  /** The configuration object. `resultsPerPage` at the top level is the
    * property the page-advance step reads; the source's object has none. */
  datatype Config = Config(
    search: string,
    provider: Provider,
    crawling: Crawling,
    resultsPerPage: Option<int>)

  /** The configuration the program builds at start-up (its single provider,
    * `dasoertliche`). */
  const SourceConfig: Config := Config(
    "Fleischerei",
    Provider(
      "Das \U{00D6}rtliche",
      "https://www.dasoertliche.de/?form_name=search_nat&kw={{search}}",
      "https://www.dasoertliche.de/?form_name=search_nat&kw={{search}}&recFrom={{resultsFrom}}",
      25),
    Crawling(25, 1000, 3000),
    None)

  /** What `resultsFrom += config.resultsPerPage` adds: `undefined`, hence
    * `NaN`, unless the top-level property exists. */
  function StrideAsWritten(c: Config): (r: JsNumber)
    ensures Advances(r) <==> c.resultsPerPage.None? || c.resultsPerPage.value > 0
    ensures c.resultsPerPage.None? ==> Plus(Finite(1), r).NaN?
  {
    if c.resultsPerPage.Some? then Finite(c.resultsPerPage.value) else NaN
  }

  /** What the step evidently means to add: the provider's page size. */
  function IntendedStride(c: Config): (r: JsNumber)
    ensures r.Finite?
    ensures Advances(r) <==> c.provider.resultsPerPage > 0
  {
    Finite(c.provider.resultsPerPage)
  }

  /** A stride that ends the loop: `NaN`, or a positive step. */
  predicate Advances(stride: JsNumber) {
    stride.NaN? || stride.value > 0
  }

  /** The wait before each request: `Math.floor(random * (max - min + 1)) + min`
    * with `random` the value of `Math.random()`. */
  function RequestDelay(random: real, c: Crawling): (w: int)
    requires 0.0 <= random < 1.0
    ensures c.minRequestDelay <= c.maxRequestDelay ==> c.minRequestDelay <= w <= c.maxRequestDelay
  {
    var span := c.maxRequestDelay - c.minRequestDelay + 1;
    DelayBound(random, span);
    (random * span as real).Floor + c.minRequestDelay
  }

  lemma DelayBound(random: real, span: int)
    requires 0.0 <= random < 1.0
    ensures span >= 1 ==> 0 <= (random * span as real).Floor < span
  {
    if span >= 1 {
      assert random * span as real < span as real;
      assert 0.0 <= random * span as real;
    }
  }

  // ---------------------------------------------------------------- pagination

  /** The `resultsFrom` values the loop visits, starting at `from`: it goes on
    * while `resultsFrom <= resultAmount && resultsFrom <= maxResults`. */
  function Offsets(from: JsNumber, stride: JsNumber, amount: JsNumber, maxResults: int): (r: seq<int>)
    requires Advances(stride)
    ensures forall k :: 0 <= k < |r| ==> amount.Finite? && r[k] <= amount.value && r[k] <= maxResults
    ensures r != [] ==> from.Finite? && r[0] == from.value
    ensures stride.NaN? ==> |r| <= 1
    decreases if from.Finite? && from.value <= maxResults then maxResults - from.value + 1 else 0
  {
    if AtMost(from, amount) && AtMost(from, Finite(maxResults)) then
      [from.value] + Offsets(Plus(from, stride), stride, amount, maxResults)
    else
      []
  }

  lemma OffsetsStep(from: JsNumber, stride: JsNumber, amount: JsNumber, maxResults: int)
    requires Advances(stride)
    requires AtMost(from, amount) && AtMost(from, Finite(maxResults))
    ensures Offsets(from, stride, amount, maxResults)
      == [from.value] + Offsets(Plus(from, stride), stride, amount, maxResults)
  {
  }

  lemma OffsetsStop(from: JsNumber, stride: JsNumber, amount: JsNumber, maxResults: int)
    requires Advances(stride)
    requires !(AtMost(from, amount) && AtMost(from, Finite(maxResults)))
    ensures Offsets(from, stride, amount, maxResults) == []
  {
  }

  /** With a positive stride the loop visits `from, from + stride, ...`, each
    * within both bounds, and stops at the first offset past one of them. */
  lemma {:induction false} StridedOffsets(from: int, stride: int, amount: int, maxResults: int)
    requires stride > 0
    ensures var r := Offsets(Finite(from), Finite(stride), Finite(amount), maxResults);
      (forall i :: 0 <= i < |r| ==> r[i] == from + i * stride && r[i] <= amount && r[i] <= maxResults)
      && (from + |r| * stride > amount || from + |r| * stride > maxResults)
    decreases if from <= maxResults then maxResults - from + 1 else 0
  {
    var r := Offsets(Finite(from), Finite(stride), Finite(amount), maxResults);
    if from <= amount && from <= maxResults {
      var rest := Offsets(Finite(from + stride), Finite(stride), Finite(amount), maxResults);
      assert r == [from] + rest;
      StridedOffsets(from + stride, stride, amount, maxResults);
      forall i | 1 <= i < |r|
        ensures r[i] == from + i * stride
      {
        assert r[i] == rest[i - 1];
        OneStrideMore(i - 1, stride);
      }
      OneStrideMore(|rest|, stride);
    }
  }

  lemma OneStrideMore(n: int, stride: int)
    ensures stride + n * stride == (n + 1) * stride
  {
  }

  /** As written the stride is `NaN`: the loop visits offset 1 at most, and does
    * so exactly when 1 is within both bounds. */
  lemma AsWrittenVisitsOnePage(c: Config, amount: JsNumber)
    requires c.resultsPerPage.None?
    ensures Offsets(Finite(1), StrideAsWritten(c), amount, c.crawling.maxResults)
      == if AtMost(Finite(1), amount) && 1 <= c.crawling.maxResults then [1] else []
  {
    if AtMost(Finite(1), amount) && 1 <= c.crawling.maxResults {
      assert Offsets(NaN, NaN, amount, c.crawling.maxResults) == [];
    }
  }

  /** With the shipped limit of 25 results and page size 25 both strides visit
    * the same offsets, so the defect does not show in the shipped run. */
  lemma SourceStridesAgree(amount: JsNumber)
    ensures Offsets(Finite(1), StrideAsWritten(SourceConfig), amount, 25)
      == Offsets(Finite(1), IntendedStride(SourceConfig), amount, 25)
  {
    var next := Offsets(Finite(26), Finite(25), amount, 25);
    assert next == [];
    AsWrittenVisitsOnePage(SourceConfig, amount);
  }

  /** With a limit of 100 and 100 results found, the code as written visits
    * the first page only, where the page size of 25 means four pages. */
  lemma AsWrittenSkipsPages(c: Config)
    requires c == SourceConfig.(crawling := SourceConfig.crawling.(maxResults := 100))
    ensures Offsets(Finite(1), StrideAsWritten(c), Finite(100), 100) == [1]
    ensures Offsets(Finite(1), IntendedStride(c), Finite(100), 100) == [1, 26, 51, 76]
  {
    AsWrittenVisitsOnePage(c, Finite(100));
    StridedOffsets(1, 25, 100, 100);
    var r := Offsets(Finite(1), IntendedStride(c), Finite(100), 100);
    assert 1 + 4 * 25 > 100;
    assert 1 + 3 * 25 <= 100;
    assert |r| == 4;
  }

  /** With the provider's page size as the step, the loop visits page after
    * page: offsets `1, 1 + size, ...`, each within the probed count and the
    * limit, up to the first one beyond either. */
  lemma IntendedStrideVisitsAllPages(c: Config, amount: int)
    requires c.provider.resultsPerPage > 0
    ensures var r := Offsets(Finite(1), IntendedStride(c), Finite(amount), c.crawling.maxResults);
      var size := c.provider.resultsPerPage;
      (forall i :: 0 <= i < |r| ==> r[i] == 1 + i * size && r[i] <= amount && r[i] <= c.crawling.maxResults)
      && (1 + |r| * size > amount || 1 + |r| * size > c.crawling.maxResults)
  {
    StridedOffsets(1, c.provider.resultsPerPage, amount, c.crawling.maxResults);
  }

  /** The shipped run with 40 results found: one page, at offset 1, whichever
    * step is used. */
  lemma ShippedRunWithFortyResults(amount: JsNumber)
    requires amount == Finite(40)
    ensures Offsets(Finite(1), IntendedStride(SourceConfig), amount, SourceConfig.crawling.maxResults) == [1]
    ensures Offsets(Finite(1), StrideAsWritten(SourceConfig), amount, SourceConfig.crawling.maxResults) == [1]
  {
    SourceStridesAgree(amount);
    AsWrittenVisitsOnePage(SourceConfig, amount);
  }
}
