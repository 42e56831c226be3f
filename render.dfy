/** The branch on an empty sample: `generateSampleSizeText` and the early
    return at the top of `drawChart`. */
module Render {
  import opened Wrappers
  import opened ChartData

  /** The invitation appended to the no-data message (line 324). */
  const InviteText: string := "Stack Overflow would love to have you participate! Opt-in to next year\'s survey by enabling \"Research\" in your account settings <a alt=\"Stack Overflow user settings\" href=\"https://stackoverflow.com/users/email/settings/\">here</a>."

  /** The summary shown when the selected group is empty (line 327). */
  const NoDataText: string := NoDataLead + InviteText

  const NoDataLead: string :=
    "Unfortunately, the survey results " + "don\'t yet represent everyone; " + "there\'s no data for the current selection.<br><br>"

  const SummaryLead: string := "Here\'s what this group of "
  const SummaryMiddle: string := " people (out of "
  const SummaryTail: string := " total respondents) had to say."

  function DigitChar(d: nat): char
    requires d < 10
  {
    "0123456789"[d]
  }

  function DigitValue(c: char): int
  {
    c as int - '0' as int
  }

  /** The decimal digits of a natural number, most significant first. */
  function Digits(n: nat): (s: string)
    ensures |s| >= 1
    ensures forall k :: 0 <= k < |s| ==> '0' <= s[k] <= '9'
  {
    if n < 10 then [DigitChar(n)] else Digits(n / 10) + [DigitChar(n % 10)]
  }

  /** How a template literal writes an integral number. */
  function Decimal(n: int): (s: string)
    ensures |s| >= 1 && (s[0] == '-' <==> n < 0)
    ensures forall k :: 0 < k < |s| ==> '0' <= s[k] <= '9'
  {
    if n < 0 then "-" + Digits(-n) else Digits(n)
  }

  /** The value a string of decimal digits denotes. */
  function ValueOf(s: string): int
  {
    if s == [] then 0 else 10 * ValueOf(s[..|s| - 1]) + DigitValue(s[|s| - 1])
  }

  /** Reading the digits back gives the number: no two numbers are written
      alike. */
  lemma {:induction false} DigitsRoundTrip(n: nat)
    ensures ValueOf(Digits(n)) == n
  {
    if n >= 10 {
      DigitsRoundTrip(n / 10);
      var s := Digits(n);
      assert s[..|s| - 1] == Digits(n / 10);
    }
  }

  /** The number written by `Decimal` is recoverable from its text: the sign
      from the leading character, the magnitude from the digits. */
  lemma DecimalRoundTrip(n: int)
    ensures Decimal(n)[0] == '-' <==> n < 0
    ensures n < 0 ==> -ValueOf(Decimal(n)[1..]) == n
    ensures n >= 0 ==> ValueOf(Decimal(n)) == n
  {
    if n < 0 {
      DigitsRoundTrip(-n);
      assert Decimal(n)[1..] == Digits(-n);
    } else {
      DigitsRoundTrip(n);
    }
  }

  predicate OccursAt(text: string, part: string, at: nat)
  {
    at + |part| <= |text| && text[at..at + |part|] == part
  }

  /** The template literal of line 330 with its two holes filled. */
  function Summary(sample: string, population: string): (text: string)
    ensures |text| == |SummaryLead| + |sample| + |SummaryMiddle| + |population| + |SummaryTail|
    ensures text[..|SummaryLead|] == SummaryLead
  {
    SummaryLead + sample + SummaryMiddle + population + SummaryTail
  }

  /** Where the two filled-in values sit in the sentence, and that it cannot
      be mistaken for the no-data message. */
  lemma SummaryLayout(sample: string, population: string)
    ensures OccursAt(Summary(sample, population), sample, |SummaryLead|)
    ensures OccursAt(Summary(sample, population), SummaryMiddle, |SummaryLead| + |sample|)
    ensures OccursAt(Summary(sample, population), population, |SummaryLead| + |sample| + |SummaryMiddle|)
    ensures OccursAt(Summary(sample, population), SummaryTail, |SummaryLead| + |sample| + |SummaryMiddle| + |population|)
    ensures Summary(sample, population) != NoDataText
  {
    var text := Summary(sample, population);
    var at := |SummaryLead| + |sample| + |SummaryMiddle|;
    assert text == (SummaryLead + sample + SummaryMiddle) + population + SummaryTail;
    assert text[at..at + |population|] == population;
    assert text[|SummaryLead|..|SummaryLead| + |sample|] == sample;
    assert text == (SummaryLead + sample) + SummaryMiddle + (population + SummaryTail);
    assert text[|SummaryLead| + |sample|..at] == SummaryMiddle;
    assert text == (SummaryLead + sample + SummaryMiddle + population) + SummaryTail;
    assert text[at + |population|..] == SummaryTail;
    assert text[0] == SummaryLead[0] == 'H';
    assert NoDataText[0] == NoDataLead[0] == 'U';
  }

  /** `generateSampleSizeText`: the no-data message and invitation exactly
      when the sample is empty; otherwise a sentence holding the written
      sample size at a fixed position, followed by the written population
      size. */
  function SampleSizeText(sampleSize: int, populationSize: int): (text: string)
    ensures text == NoDataText <==> sampleSize == 0
    ensures sampleSize != 0 ==>
      && OccursAt(text, Decimal(sampleSize), |SummaryLead|)
      && OccursAt(text, Decimal(populationSize), |SummaryLead| + |Decimal(sampleSize)| + |SummaryMiddle|)
  {
    if sampleSize == 0 then
      NoDataText
    else
      SummaryLayout(Decimal(sampleSize), Decimal(populationSize));
      Summary(Decimal(sampleSize), Decimal(populationSize))
  }

  /** What `drawChart` leaves on the page: the summary, and the chart with its
      labels and two count series when one is drawn. */
  datatype View = View(summary: string, chart: Option<ChartData>)

  /** `drawChart`: the summary is always written; with an empty sample it
      returns before building the chart, so no percentage of the sample is
      ever computed over a zero size. */
  function DrawChart(chartData: ChartData): (v: View)
    ensures v.summary == SampleSizeText(chartData.sampleSize, chartData.populationSize)
    ensures v.chart.None? <==> chartData.sampleSize == 0
    ensures v.chart.Some? ==> v.chart.value == chartData
  {
    var summary := SampleSizeText(chartData.sampleSize, chartData.populationSize);
    if chartData.sampleSize == 0 then View(summary, None) else View(summary, Some(chartData))
  }

  /** The page never shows a chart under the no-data message, nor the
      no-data message above a chart. */
  lemma ChartIffSummary(chartData: ChartData)
    ensures DrawChart(chartData).chart.None? <==> DrawChart(chartData).summary == NoDataText
  {
  }
}
