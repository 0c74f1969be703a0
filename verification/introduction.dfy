/**
 * The report introduction: the model-type heading, the contact grid, the plot counts by
 * data source and year, and the order of the introduction's sections.
 */
module Introduction {
  import opened Wrappers
  import opened Strings
  import opened Layout
  import ReportFormatter

  // ------------------------------------------------------------ heading

  const GNN_RELEASE_VERSION: string := "2023.1"

  /** The model types a heading can be written for, with their display names. */
  const MODEL_TYPE_NAMES: map<string, string> := map[
    "sppsz" := "Basal-Area by Species-Size Combinations",
    "trecov" := "Tree Percent Cover by Species",
    "wdycov" := "Woody Percent Cover by Species",
    "sppba" := "Basal-Area by Species"
  ]

  /**
   * The heading's paragraphs: title, model region, model type and release version.
   * An unknown model type is a KeyError.
   */
  function ReportHeading(regionName: string, modelRegion: string, modelType: string): (r: Result<seq<Flowable>>)
    ensures r.Success? <==> modelType in MODEL_TYPE_NAMES
    ensures r.Failure? ==> r.error == KeyError
    ensures r.Success? ==> |r.value| == 4 && r.value[0] == Paragraph("GNN Accuracy Assessment Report")
    ensures r.Success? ==> r.value[1] == Paragraph(regionName + " (Modeling Region " + modelRegion + ")")
    ensures r.Success? ==> r.value[2] == Paragraph("Model Type: " + MODEL_TYPE_NAMES[modelType])
    ensures r.Success? ==> r.value[3] == Paragraph("Release Version: " + GNN_RELEASE_VERSION)
  {
    if modelType !in MODEL_TYPE_NAMES then Failure(KeyError)
    else
      Success([
        Paragraph("GNN Accuracy Assessment Report"),
        Paragraph(regionName + " (Modeling Region " + modelRegion + ")"),
        Paragraph("Model Type: " + MODEL_TYPE_NAMES[modelType]),
        Paragraph("Release Version: " + GNN_RELEASE_VERSION)
      ])
  }

  /** Exactly the four model types have a heading, each with its own name. */
  lemma HeadingModelTypes(regionName: string, modelRegion: string, modelType: string)
    ensures ReportHeading(regionName, modelRegion, modelType).Success? <==>
      modelType == "sppsz" || modelType == "trecov" || modelType == "wdycov" || modelType == "sppba"
  {
    assert MODEL_TYPE_NAMES.Keys == {"sppsz", "trecov", "wdycov", "sppba"};
  }

  /** No two model types share a display name. */
  lemma ModelTypeNamesDistinct(a: string, b: string)
    requires a in MODEL_TYPE_NAMES && b in MODEL_TYPE_NAMES && a != b
    ensures MODEL_TYPE_NAMES[a] != MODEL_TYPE_NAMES[b]
  {
    assert MODEL_TYPE_NAMES.Keys == {"sppsz", "trecov", "wdycov", "sppba"};
  }

  // ------------------------------------------------------------ contacts

  /** The contact grid's width: three, or fewer when there are fewer contacts. */
  function TableCols(n: nat): (w: nat)
    ensures w <= 3 && w <= n
    ensures n > 0 ==> w > 0
  {
    if n < 3 then n else 3
  }

  lemma DivSplit(i: nat, w: nat)
    requires w > 0
    ensures i == w * (i / w) + i % w && 0 <= i % w < w
  {
  }

  /** Position i belongs to row q and column i - q*w when it lies in row q's span. */
  lemma DivWithin(i: nat, q: nat, w: nat)
    requires w > 0 && q * w <= i < q * w + w
    ensures i / w == q && i % w == i - q * w
  {
    DivSplit(i, w);
    var d := i / w;
    if d < q {
      assert (d + 1) * w <= q * w by { MulLe(d + 1, q, w); }
    } else if d > q {
      assert (q + 1) * w <= d * w by { MulLe(q + 1, d, w); }
    }
  }

  lemma MulLe(a: nat, b: nat, w: nat)
    ensures a <= b ==> a * w <= b * w
  {
  }

  /** Row r, column c of a grid of width w stands at position r * w + c, before (r + 1) * w. */
  lemma CellBelow(r: nat, c: nat, w: nat, rows: nat)
    requires r < rows && c < w
    ensures r * w + c < rows * w
  {
    MulLe(r + 1, rows, w);
  }

  /**
   * The contact-grid loop: contacts fill rows of `TableCols` cells in input order; a row
   * is appended only when full, so the contacts of an unfilled last row are dropped.
   */
  method ContactGrid<T>(contacts: seq<T>) returns (rows: seq<seq<T>>)
    ensures |contacts| == 0 ==> rows == []
    ensures |contacts| > 0 ==> |rows| == |contacts| / TableCols(|contacts|)
    ensures |contacts| > 0 ==> |contacts| - |rows| * TableCols(|contacts|) == |contacts| % TableCols(|contacts|)
    ensures forall r :: 0 <= r < |rows| ==> |rows[r]| == TableCols(|contacts|)
    ensures forall r, c :: 0 <= r < |rows| && 0 <= c < TableCols(|contacts|) ==>
      r * TableCols(|contacts|) + c < |contacts| && rows[r][c] == contacts[r * TableCols(|contacts|) + c]
  {
    rows := [];
    if |contacts| == 0 {
      return;
    }
    var w := TableCols(|contacts|);
    var row: seq<T> := [];
    for i := 0 to |contacts|
      invariant i == |rows| * w + |row| && |row| < w
      invariant forall r :: 0 <= r < |rows| ==> |rows[r]| == w
      invariant forall r, c :: 0 <= r < |rows| && 0 <= c < w ==> r * w + c < i && rows[r][c] == contacts[r * w + c]
      invariant forall c :: 0 <= c < |row| ==> row[c] == contacts[|rows| * w + c]
    {
      row := row + [contacts[i]];
      if |row| == w {
        forall r, c | 0 <= r < |rows| + 1 && 0 <= c < w
          ensures r * w + c < i + 1 && (rows + [row])[r][c] == contacts[r * w + c]
        {
          CellBelow(r, c, w, |rows| + 1);
        }
        assert (|rows| + 1) * w == |rows| * w + w;
        rows := rows + [row];
        row := [];
      }
    }
    DivWithin(|contacts|, |rows|, w);
  }

  // ------------------------------------------------------------ plot counts

  /** A year in which a data source's plots were assessed, with the number of plots. */
  datatype AssessmentYear = AssessmentYear(assessmentYear: nat, plotCount: nat)

  datatype DataSource = DataSource(dataSource: string, description: string, assessmentYears: seq<AssessmentYear>)

  /** The number of plots over a list of years. */
  function PlotCount(years: seq<AssessmentYear>): nat
  {
    if years == [] then 0 else PlotCount(years[..|years| - 1]) + years[|years| - 1].plotCount
  }

  lemma {:induction false} PlotCountAppend(a: seq<AssessmentYear>, b: seq<AssessmentYear>)
    ensures PlotCount(a + b) == PlotCount(a) + PlotCount(b)
    decreases |b|
  {
    if b == [] {
      assert a + b == a;
    } else {
      assert (a + b)[..|a + b| - 1] == a + b[..|b| - 1];
      PlotCountAppend(a, b[..|b| - 1]);
    }
  }

  /** No single year counts more plots than its source. */
  lemma {:induction false} YearAtMostPlotCount(years: seq<AssessmentYear>, k: nat)
    requires k < |years|
    ensures years[k].plotCount <= PlotCount(years)
  {
    if k < |years| - 1 {
      YearAtMostPlotCount(years[..|years| - 1], k);
    }
  }

  /** One row of a source's per-year table: the year and its plot count. */
  function YearRow(y: AssessmentYear): seq<Flowable>
  {
    [Paragraph(NatToString(y.assessmentYear)), Paragraph(NatToString(y.plotCount))]
  }

  /** The row of a source with its per-year table. */
  function ShortRow(source: DataSource): (row: seq<Flowable>)
    ensures |row| == 3 && row[0] == Paragraph(source.dataSource) && row[1] == Paragraph(source.description)
    ensures row[2].Table? && |row[2].rows| == |source.assessmentYears|
    ensures forall k :: 0 <= k < |source.assessmentYears| ==> row[2].rows[k] == YearRow(source.assessmentYears[k])
  {
    var years := source.assessmentYears;
    [Paragraph(source.dataSource), Paragraph(source.description),
     Table(seq(|years|, k requires 0 <= k < |years| => YearRow(years[k])))]
  }

  /** _build_data_source_row: accumulate the plot count and the per-year rows. */
  method BuildDataSourceRow(source: DataSource) returns (count: nat, row: seq<Flowable>)
    ensures count == PlotCount(source.assessmentYears)
    ensures row == ShortRow(source)
  {
    var years := source.assessmentYears;
    var table: seq<seq<Flowable>> := [];
    count := 0;
    for i := 0 to |years|
      invariant count == PlotCount(years[..i])
      invariant table == seq(i, k requires 0 <= k < i => YearRow(years[k]))
    {
      assert years[..i + 1][..i] == years[..i];
      count := count + years[i].plotCount;
      table := table + [YearRow(years[i])];
    }
    assert years[..|years|] == years;
    row := [Paragraph(source.dataSource), Paragraph(source.description), Table(table)];
  }

  const MIN_EMPTY: string := "min() arg is an empty sequence"
  const MAX_EMPTY: string := "max() arg is an empty sequence"

  /** Python's min() over an iterable of years. */
  function MinOf(s: seq<nat>): (r: Result<nat>)
    ensures r.Success? <==> s != []
    ensures r.Success? ==> r.value in s && forall x :: x in s ==> r.value <= x
    ensures r.Failure? ==> r.error == ValueError(MIN_EMPTY)
  {
    if s == [] then Failure(ValueError(MIN_EMPTY))
    else if |s| == 1 then Success(s[0])
    else
      var m := MinOf(s[1..]).value;
      assert s == [s[0]] + s[1..];
      Success(if s[0] <= m then s[0] else m)
  }

  /** Python's max() over an iterable of years. */
  function MaxOf(s: seq<nat>): (r: Result<nat>)
    ensures r.Success? <==> s != []
    ensures r.Success? ==> r.value in s && forall x :: x in s ==> x <= r.value
    ensures r.Failure? ==> r.error == ValueError(MAX_EMPTY)
  {
    if s == [] then Failure(ValueError(MAX_EMPTY))
    else if |s| == 1 then Success(s[0])
    else
      var m := MaxOf(s[1..]).value;
      assert s == [s[0]] + s[1..];
      Success(if s[0] >= m then s[0] else m)
  }

  function Years(source: DataSource): (ys: seq<nat>)
    ensures |ys| == |source.assessmentYears|
    ensures forall k :: 0 <= k < |ys| ==> ys[k] == source.assessmentYears[k].assessmentYear
  {
    seq(|source.assessmentYears|, k requires 0 <= k < |source.assessmentYears| => source.assessmentYears[k].assessmentYear)
  }

  function RangeLabel(first: nat, last: nat, count: nat): string
  {
    NatToString(first) + "-" + NatToString(last) + ": " + NatToString(count)
  }

  /**
   * _build_long_data_source_row as written: the years are a generator, min() runs it to
   * its end, and max() then iterates what is left of it, which is nothing.
   */
  function LongDataSourceRowAsWritten(source: DataSource): (r: Result<(nat, seq<Flowable>)>)
  {
    var years := Years(source);
    var first := MinOf(years);
    if first.Failure? then Failure(first.error)
    else
      var last := MaxOf(years[|years|..]);
      if last.Failure? then Failure(last.error)
      else
        var count := PlotCount(source.assessmentYears);
        Success((count, [Paragraph(source.dataSource), Paragraph(source.description),
                         Paragraph(RangeLabel(first.value, last.value, count))]))
  }

  /** As written, the condensed row can never be built: every source ends in a ValueError. */
  lemma LongRowAsWrittenAlwaysFails(source: DataSource)
    ensures LongDataSourceRowAsWritten(source).Failure?
    ensures source.assessmentYears != [] ==>
      LongDataSourceRowAsWritten(source).error == ValueError(MAX_EMPTY)
  {
    var years := Years(source);
    assert years[|years|..] == [];
  }

  /**
   * The condensed row as evidently intended: the first and last year over a re-iterable
   * list, and the source's plot count.
   */
  function LongDataSourceRow(source: DataSource): (r: Result<(nat, seq<Flowable>)>)
    ensures r.Success? <==> source.assessmentYears != []
    ensures r.Success? ==> r.value.0 == PlotCount(source.assessmentYears)
    ensures r.Success? ==> |r.value.1| == 3 && r.value.1[0] == Paragraph(source.dataSource)
    ensures r.Success? ==> r.value.1[1] == Paragraph(source.description)
    ensures r.Success? ==> exists first: nat, last: nat ::
      first in Years(source) && last in Years(source) &&
      (forall k :: 0 <= k < |source.assessmentYears| ==> first <= source.assessmentYears[k].assessmentYear <= last) &&
      r.value.1[2] == Paragraph(RangeLabel(first, last, PlotCount(source.assessmentYears)))
  {
    var years := Years(source);
    var first := MinOf(years);
    if first.Failure? then Failure(first.error)
    else
      var last := MaxOf(years);
      var count := PlotCount(source.assessmentYears);
      assert forall k :: 0 <= k < |source.assessmentYears| ==>
          first.value <= source.assessmentYears[k].assessmentYear <= last.value by {
        forall k | 0 <= k < |source.assessmentYears|
          ensures first.value <= source.assessmentYears[k].assessmentYear <= last.value
        {
          assert years[k] in years;
        }
      }
      Success((count, [Paragraph(source.dataSource), Paragraph(source.description),
                       Paragraph(RangeLabel(first.value, last.value, count))]))
  }

  /** Sources with more than 30 years get the condensed row. */
  const LONG_SOURCE_YEARS: nat := 30

  /** The row a source contributes, and its plot count; the same count on both paths. */
  function SourceRow(source: DataSource): (r: (nat, seq<Flowable>))
    ensures r.0 == PlotCount(source.assessmentYears)
    ensures |r.1| == 3 && r.1[0] == Paragraph(source.dataSource) && r.1[1] == Paragraph(source.description)
    ensures |source.assessmentYears| <= LONG_SOURCE_YEARS ==> r.1[2].Table?
  {
    if |source.assessmentYears| > LONG_SOURCE_YEARS then LongDataSourceRow(source).value
    else (PlotCount(source.assessmentYears), ShortRow(source))
  }

  /**
   * The two branches of a source's row: up to 30 years the row with the per-year table,
   * beyond that the condensed row with the first and last year.
   */
  lemma SourceRowBranches(source: DataSource)
    ensures |source.assessmentYears| <= LONG_SOURCE_YEARS ==> SourceRow(source).1 == ShortRow(source)
    ensures |source.assessmentYears| > LONG_SOURCE_YEARS ==>
      LongDataSourceRow(source).Success? && SourceRow(source).1 == LongDataSourceRow(source).value.1
  {
  }

  /** The branch at the head of the plots_by_date loop. */
  method BuildSourceRow(source: DataSource) returns (count: nat, row: seq<Flowable>)
    ensures count == SourceRow(source).0 && row == SourceRow(source).1
  {
    if |source.assessmentYears| > LONG_SOURCE_YEARS {
      var long := LongDataSourceRow(source);
      count, row := long.value.0, long.value.1;
    } else {
      count, row := BuildDataSourceRow(source);
    }
  }

  function SourcesTotal(sources: seq<DataSource>): nat
  {
    if sources == [] then 0 else SourcesTotal(sources[..|sources| - 1]) + PlotCount(sources[|sources| - 1].assessmentYears)
  }

  function AllYears(sources: seq<DataSource>): seq<AssessmentYear>
  {
    if sources == [] then [] else AllYears(sources[..|sources| - 1]) + sources[|sources| - 1].assessmentYears
  }

  /** The total is the plot count over every year of every source. */
  lemma {:induction false} SourcesTotalIsAllYears(sources: seq<DataSource>)
    ensures SourcesTotal(sources) == PlotCount(AllYears(sources))
  {
    if sources != [] {
      SourcesTotalIsAllYears(sources[..|sources| - 1]);
      PlotCountAppend(AllYears(sources[..|sources| - 1]), sources[|sources| - 1].assessmentYears);
    }
  }

  const PLOT_HEADER: seq<Flowable> :=
    [Paragraph("<strong>Data Source</strong>"), Paragraph("<strong>Description</strong>"),
     Paragraph("<strong>Plot Count by Year</strong>")]

  /**
   * plots_by_date: a header row, one row per source in order, then the summary row with
   * the total (using the condensed row as evidently intended).
   */
  method PlotsByDate(sources: seq<DataSource>) returns (total: nat, table: seq<seq<Flowable>>)
    ensures total == SourcesTotal(sources)
    ensures |table| == |sources| + 2 && table[0] == PLOT_HEADER
    ensures forall k :: 0 <= k < |sources| ==> table[k + 1] == SourceRow(sources[k]).1
    ensures table[|sources| + 1] == [Text(""), Paragraph("Total Plots"), Paragraph(NatToString(total))]
  {
    table := [PLOT_HEADER];
    total := 0;
    for i := 0 to |sources|
      invariant total == SourcesTotal(sources[..i])
      invariant |table| == i + 1 && table[0] == PLOT_HEADER
      invariant forall k :: 0 <= k < i ==> table[k + 1] == SourceRow(sources[k]).1
    {
      assert sources[..i + 1][..i] == sources[..i];
      var count, row := BuildSourceRow(sources[i]);
      total := total + count;
      table := table + [row];
    }
    assert sources[..|sources|] == sources;
    table := table + [[Text(""), Paragraph("Total Plots"), Paragraph(NatToString(total))]];
  }

  // ------------------------------------------------------------ the story

  /** The introduction's sections, each a list of flowables. */
  datatype Sections = Sections(
    heading: seq<Flowable>, regionDescription: seq<Flowable>, contacts: seq<Flowable>,
    website: seq<Flowable>, modelInformation: seq<Flowable>, plotMatching: seq<Flowable>,
    mask: seq<Flowable>, plotsByDate: seq<Flowable>, spatialPredictors: seq<Flowable>)

  function PageBreaks(s: seq<Flowable>): nat
  {
    if s == [] then 0 else PageBreaks(s[..|s| - 1]) + (if s[|s| - 1] == PageBreak then 1 else 0)
  }

  lemma {:induction false} PageBreaksAppend(a: seq<Flowable>, b: seq<Flowable>)
    ensures PageBreaks(a + b) == PageBreaks(a) + PageBreaks(b)
    decreases |b|
  {
    if b == [] {
      assert a + b == a;
    } else {
      assert (a + b)[..|a + b| - 1] == a + b[..|b| - 1];
      PageBreaksAppend(a, b[..|b| - 1]);
    }
  }

  /** The sections in report order, with a portrait page break after the website, the mask and the plot table. */
  function Story(s: Sections): (r: seq<Flowable>)
    ensures |r| == |s.heading| + |s.regionDescription| + |s.contacts| + |s.website| + |s.modelInformation|
      + |s.plotMatching| + |s.mask| + |s.plotsByDate| + |s.spatialPredictors| + 6
    ensures r[..|s.heading|] == s.heading
    ensures r[|r| - |s.spatialPredictors|..] == s.spatialPredictors
    ensures var a := |s.heading| + |s.regionDescription| + |s.contacts| + |s.website|;
      r[a..a + 2] == ReportFormatter.PageBreakTo(ReportFormatter.PORTRAIT)
  {
    s.heading + s.regionDescription + s.contacts + s.website
      + ReportFormatter.PageBreakTo(ReportFormatter.PORTRAIT)
      + s.modelInformation + s.plotMatching + s.mask
      + ReportFormatter.PageBreakTo(ReportFormatter.PORTRAIT)
      + s.plotsByDate
      + ReportFormatter.PageBreakTo(ReportFormatter.PORTRAIT)
      + s.spatialPredictors
  }

  /** The story adds exactly three page breaks to those of its sections. */
  lemma StoryPageBreaks(s: Sections)
    ensures PageBreaks(Story(s)) == PageBreaks(s.heading) + PageBreaks(s.regionDescription) + PageBreaks(s.contacts)
      + PageBreaks(s.website) + PageBreaks(s.modelInformation) + PageBreaks(s.plotMatching) + PageBreaks(s.mask)
      + PageBreaks(s.plotsByDate) + PageBreaks(s.spatialPredictors) + 3
  {
    var pb := ReportFormatter.PageBreakTo(ReportFormatter.PORTRAIT);
    assert PageBreaks(pb) == 1 by {
      assert pb[..1] == [NextPageTemplate(ReportFormatter.PORTRAIT)];
      assert [NextPageTemplate(ReportFormatter.PORTRAIT)][..0] == [];
    }
    PageBreaksAppend(s.heading, s.regionDescription);
    var x1 := s.heading + s.regionDescription;
    PageBreaksAppend(x1, s.contacts);
    var x2 := x1 + s.contacts;
    PageBreaksAppend(x2, s.website);
    var x3 := x2 + s.website;
    PageBreaksAppend(x3, pb);
    var x4 := x3 + pb;
    PageBreaksAppend(x4, s.modelInformation);
    var x5 := x4 + s.modelInformation;
    PageBreaksAppend(x5, s.plotMatching);
    var x6 := x5 + s.plotMatching;
    PageBreaksAppend(x6, s.mask);
    var x7 := x6 + s.mask;
    PageBreaksAppend(x7, pb);
    var x8 := x7 + pb;
    PageBreaksAppend(x8, s.plotsByDate);
    var x9 := x8 + s.plotsByDate;
    PageBreaksAppend(x9, pb);
    var x10 := x9 + pb;
    PageBreaksAppend(x10, s.spatialPredictors);
    assert Story(s) == x10 + s.spatialPredictors;
  }

  /** A piece `x` that follows the prefix `p` of `r` sits at offset |p| of `r`. */
  lemma SliceAfterPrefix(p: seq<Flowable>, x: seq<Flowable>, r: seq<Flowable>)
    requires p + x <= r
    ensures p <= r && r[|p|..|p| + |x|] == x
  {
    forall i | 0 <= i < |x|
      ensures r[|p|..|p| + |x|][i] == x[i]
    {
      assert r[|p| + i] == (p + x)[|p| + i];
    }
  }

  /** The sections before the first page break, in report order, then that break. */
  lemma StoryFrontLayout(s: Sections)
    ensures var r := Story(s);
      var o1 := |s.heading|;
      var o2 := o1 + |s.regionDescription|;
      var o3 := o2 + |s.contacts|;
      var o4 := o3 + |s.website|;
      r[..o1] == s.heading && r[o1..o2] == s.regionDescription && r[o2..o3] == s.contacts &&
      r[o3..o4] == s.website && r[o4..o4 + 2] == ReportFormatter.PageBreakTo(ReportFormatter.PORTRAIT)
  {
    var r := Story(s);
    var pb := ReportFormatter.PageBreakTo(ReportFormatter.PORTRAIT);
    var x4 := s.heading + s.regionDescription + s.contacts + s.website;
    assert x4 + pb <= r;
    SliceAfterPrefix(x4, pb, r);
    SliceAfterPrefix(s.heading + s.regionDescription + s.contacts, s.website, r);
    SliceAfterPrefix(s.heading + s.regionDescription, s.contacts, r);
    SliceAfterPrefix(s.heading, s.regionDescription, r);
  }

  /** After the first page break: model information, plot matching and mask, then the second break. */
  lemma StoryMiddleLayout(s: Sections)
    ensures var r := Story(s);
      var o5 := |s.heading| + |s.regionDescription| + |s.contacts| + |s.website| + 2;
      var o6 := o5 + |s.modelInformation|;
      var o7 := o6 + |s.plotMatching|;
      var o8 := o7 + |s.mask|;
      r[o5..o6] == s.modelInformation && r[o6..o7] == s.plotMatching && r[o7..o8] == s.mask &&
      r[o8..o8 + 2] == ReportFormatter.PageBreakTo(ReportFormatter.PORTRAIT)
  {
    var r := Story(s);
    var pb := ReportFormatter.PageBreakTo(ReportFormatter.PORTRAIT);
    var x5 := s.heading + s.regionDescription + s.contacts + s.website + pb;
    var x8 := x5 + s.modelInformation + s.plotMatching + s.mask;
    assert x8 + pb <= r;
    SliceAfterPrefix(x8, pb, r);
    SliceAfterPrefix(x5 + s.modelInformation + s.plotMatching, s.mask, r);
    SliceAfterPrefix(x5 + s.modelInformation, s.plotMatching, r);
    SliceAfterPrefix(x5, s.modelInformation, r);
  }

  /** After the second page break: the plot table, the third break, and the spatial predictors last. */
  lemma StoryBackLayout(s: Sections)
    ensures var r := Story(s);
      var o9 := |s.heading| + |s.regionDescription| + |s.contacts| + |s.website| + 2
        + |s.modelInformation| + |s.plotMatching| + |s.mask| + 2;
      var o10 := o9 + |s.plotsByDate|;
      r[o9..o10] == s.plotsByDate && r[o10..o10 + 2] == ReportFormatter.PageBreakTo(ReportFormatter.PORTRAIT) &&
      r[o10 + 2..] == s.spatialPredictors
  {
    var r := Story(s);
    var pb := ReportFormatter.PageBreakTo(ReportFormatter.PORTRAIT);
    var x9 := s.heading + s.regionDescription + s.contacts + s.website + pb
      + s.modelInformation + s.plotMatching + s.mask + pb;
    assert r == x9 + s.plotsByDate + pb + s.spatialPredictors;
    SliceAfterPrefix(x9 + s.plotsByDate, pb, r);
    SliceAfterPrefix(x9, s.plotsByDate, r);
  }
}
