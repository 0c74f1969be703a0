# pynnmap-report accuracy formatters in Dafny

pynnmap-report assembles the PDF accuracy-assessment report of a GNN (gradient
nearest neighbour) map. Each section of the report is produced by a formatter
that reads model outputs (error-matrix counts, bins, plot records, attribute
metadata) and turns them into ReportLab flowables: paragraphs, tables and table
styles. This project models the logic inside those formatters, with ReportLab
and pandas replaced by plain values:

- **Error matrices** (`ErrorMatrix`, `AttributeAccuracy`, `CategoricalAccuracy`):
  - the observed × predicted cross-tabulation and its row, column and grand totals;
  - strict and "fuzzy" percent correct, per class and overall;
  - the (n+5)×(n+5) object grid, filled in place on an `array2`;
  - the fuzzy classes: either the clipped ±1 window of continuous attributes and
    default categorical mode, or the explicit fuzzy-class list translated through
    the code crosswalk;
  - the dark (correct) and light (fuzzy correct) cell shading added to the table style.
- **Continuous-attribute pages** (`AttributeAccuracy`): image file names, the order in
  which `create_figures` records them, and the Riemann input file names.
- **Formatter base** (`ReportFormatter`): `page_break`, the two-column figure table,
  `txt_to_html` escaping and `check_missing_files`.
- **Introduction** (`Introduction`): the report heading and its model-type lookup, the
  contact grid, the plot counts per data source and in total, and the order of the story.
- **Species accuracy** (`SpeciesAccuracy`): which species are reported, their names,
  the 2×2 plot-count table and the species table.
- **Data dictionary** (`DataDictionary`): the attribute filter, the field description
  with its units, the escaped code sub-table and the closing species note.
- **Vegetation-class matrix** (`VegetationClass`): column naming and the in-place column
  drop, the cell-format classification, row labels, column widths, and the diagonal and
  fuzzy shading.
- **Utilities** (`Utilities`): the column, null and length checks and the inner join that
  pairs observed with predicted records.

Supporting modules:

- `Wrappers`: Option, Result and the Python exceptions the code raises.
- `Strings`: character replacement as in `re.sub` with a one-character pattern, number
  printing, ASCII lower-casing, lexicographic order and sorting of unique names.
- `Layout`: flowables, and a `TableStyle` class whose `Add` appends a command.
- `StandMetadata`: attributes, codes and fuzzy classes as records.

Percentages are exact reals. A NaN produced by the source is a `Cell.NaN` value.
Python exceptions are `Failure` values of a `Result` (or `Some` error of an `Option`
for the assertion helpers). A table is a sequence of rows of `Flowable` cells.

## Model

| member | source | states |
|---|---|---|
| Utilities.AssertColumnsInDf | pynnmap_report/report/utilities.py:1-6 | no error iff every requested column is in the frame, otherwise the NameError with its fixed message |
| Utilities.NullCount | pynnmap_report/report/utilities.py:10-11 | the null count is zero iff no row holds a null in the column, and never exceeds the row count |
| Utilities.AssertValidAttrValues | pynnmap_report/report/utilities.py:9-14 | no error iff the column exists and holds no null; a present column with a null gives the ValueError |
| Utilities.AssertSameLenIds | pynnmap_report/report/utilities.py:17-23 | no error iff the merged length equals the length of one of the two inputs, otherwise the ValueError |
| Utilities.MatchesExactly | pynnmap_report/report/utilities.py:35-41 | a merged row for one observed row is exactly a pairing with a predicted row of the same join key |
| Utilities.InnerJoinExactly | pynnmap_report/report/utilities.py:35-41 | a row is in the inner join iff it pairs an observed and a predicted row that agree on the join field |
| Utilities.MatchesAtMostOne | pynnmap_report/report/utilities.py:35-41 | with unique predicted join keys, each observed row matches at most once |
| Utilities.MatchesEmpty | pynnmap_report/report/utilities.py:35-41 | an observed row with no equal predicted key contributes no row (inner join) |
| Utilities.InnerJoinAtMostObserved | pynnmap_report/report/utilities.py:35-46 | with unique predicted keys the join is no longer than the observed frame |
| Utilities.BuildPairedDataframe | pynnmap_report/report/utilities.py:26-46 | succeeds iff columns, nulls and length checks all pass; the checks run in that order: NameError iff a column is missing on either side, otherwise the null ValueError when either attr column holds a null, otherwise the length ValueError when the merged length matches neither input; the result has columns join, attr_O, attr_P and the inner-join rows |
| Utilities.GetContinuousAttrs | pynnmap_report/report/utilities.py:49-59 | keeps exactly the continuous, project, accuracy, non-species attributes |
| Utilities.GetContinuousAttrsAppend | pynnmap_report/report/utilities.py:58-59 | filtering distributes over concatenation, so metadata order is kept |
| Strings.ReplaceChar | pynnmap_report/report/report_formatter.py:91-92 | a replaced character absent from its replacement no longer occurs; every other character occurs in the result iff it occurs in the input |
| Strings.Lower | pynnmap_report/report/attribute_accuracy_formatter.py:32 | same length, each character lower-cased in place |
| Strings.Before | pynnmap_report/report/species_accuracy_formatter.py:53 | the part before the first separator: a prefix without the separator that stops exactly at a separator when shorter than the string, the whole string when there is none |
| Strings.SortUnique | pynnmap_report/report/species_accuracy_formatter.py:200 | strictly sorted and holding exactly the input's elements (`sorted(set(...))`) |
| Strings.SortedListingUnique | pynnmap_report/report/species_accuracy_formatter.py:200 | two strictly sorted sequences with the same elements are equal, so the sorted listing of a set is unique |
| Layout.TableStyle.Add | pynnmap_report/report/attribute_accuracy_formatter.py:374 | appends one command to the style |
| ErrorMatrix.CrossTab | pynnmap_report/report/attribute_accuracy_formatter.py:189-200 | the n×n count matrix covering every category 1..n, including empty ones |
| ErrorMatrix.MarginsHoldTotals | pynnmap_report/report/attribute_accuracy_formatter.py:193-200 | the margin table keeps the counts, puts row totals in the last column and column totals in the last row, and the corner equals both sums |
| ErrorMatrix.ColumnTotalsSumToGrandTotal | pynnmap_report/report/attribute_accuracy_formatter.py:243-250 | the column totals add up to the same grand total as the row totals |
| ErrorMatrix.Percent | pynnmap_report/report/attribute_accuracy_formatter.py:277-279 | a zero denominator gives 0; a numerator within [0, denominator] gives a value in [0, 100] |
| ErrorMatrix.PercentMonotone | pynnmap_report/report/attribute_accuracy_formatter.py:277-279 | a larger numerator over the same denominator gives no smaller percentage |
| ErrorMatrix.RowStrict | pynnmap_report/report/attribute_accuracy_formatter.py:242-249 | strict % of an observed class lies in [0,100] and is 0 for a zero row total |
| ErrorMatrix.ColStrict | pynnmap_report/report/attribute_accuracy_formatter.py:242-249 | strict % of a predicted class lies in [0,100] and is 0 for a zero column total |
| ErrorMatrix.TraceAtMostGrandTotal | pynnmap_report/report/attribute_accuracy_formatter.py:250 | the diagonal of the first k classes never exceeds their row totals |
| ErrorMatrix.OverallStrictValue | pynnmap_report/report/attribute_accuracy_formatter.py:250 | the overall strict cell is NaN iff the grand total is zero (no guard), else trace/total×100 within [0,100] |
| ErrorMatrix.SumAtDistinctAtMostSum | pynnmap_report/report/attribute_accuracy_formatter.py:273-274 | summing a row over distinct in-range fuzzy indices never exceeds the row total |
| ErrorMatrix.IncorrectIsComplement | pynnmap_report/report/attribute_accuracy_formatter.py:271-275 | total minus the accumulated `incorrect` equals the fuzzy-correct counts added up |
| ErrorMatrix.FuzzyBetweenDiagonalAndTotal | pynnmap_report/report/attribute_accuracy_formatter.py:271-275 | each class's fuzzy-correct row and column sums lie between its diagonal count and its row or column total |
| ErrorMatrix.FuzzyAtLeastStrict | pynnmap_report/report/attribute_accuracy_formatter.py:277-282 | fuzzy % ≥ strict % for every class, row and column, and at most 100 |
| ErrorMatrix.FuzzyTotalBetween | pynnmap_report/report/attribute_accuracy_formatter.py:263-275 | the fuzzy-correct total lies between the trace and the grand total |
| ErrorMatrix.OverallFuzzyAtLeastStrict | pynnmap_report/report/attribute_accuracy_formatter.py:283 | overall fuzzy % is (total − incorrect)/total×100 with 0 for a zero total, lies in [0,100] and is at least the overall strict % |
| ErrorMatrix.WindowShape | pynnmap_report/report/attribute_accuracy_formatter.py:253-261 | a class's window holds the class itself, has no repeats, and for n ≥ 2 is exactly its in-range neighbours within ±1 |
| ErrorMatrix.WindowDefinedIff | pynnmap_report/report/attribute_accuracy_formatter.py:253-275 | the windows are usable (no index out of range) iff n ≠ 1 |
| ErrorMatrix.FuzzyCorrect | pynnmap_report/report/attribute_accuracy_formatter.py:263-275 | the fuzzy loop: fails iff some class has no fuzzy list (KeyError) or an out-of-range index (IndexError), naming the first such class; otherwise the row and column fuzzy sums and `incorrect` |
| ErrorMatrix.AxisLabels | pynnmap_report/report/attribute_accuracy_formatter.py:232-234 | the axis labels are the bin labels plus three summary labels |
| ErrorMatrix.GridPercentagesInRange | pynnmap_report/report/attribute_accuracy_formatter.py:242-283 | every percentage on the grid is in [0,100]; the only NaN is the overall strict corner with a zero grand total |
| ErrorMatrix.FillRow | pynnmap_report/report/attribute_accuracy_formatter.py:235 | slice assignment into one row; every other cell unchanged |
| ErrorMatrix.FillColumn | pynnmap_report/report/attribute_accuracy_formatter.py:236 | slice assignment into one column; every other cell unchanged |
| ErrorMatrix.FillCounts | pynnmap_report/report/attribute_accuracy_formatter.py:239 | the margin table copied into the block starting at (2,2); every other cell unchanged |
| ErrorMatrix.ToList | pynnmap_report/report/attribute_accuracy_formatter.py:366 | `tolist()`: the rows of the array, cell for cell |
| ErrorMatrix.NewLabelled | pynnmap_report/report/attribute_accuracy_formatter.py:204-236 | a fresh (n+5)×(n+5) array holding the axis titles and labels, blank elsewhere |
| ErrorMatrix.FillStrict | pynnmap_report/report/attribute_accuracy_formatter.py:239-250 | adds the counts with margins and the strict percentages to the labelled grid |
| ErrorMatrix.FillFuzzy | pynnmap_report/report/attribute_accuracy_formatter.py:281-283 | adds the fuzzy percentages in the last row and column |
| ErrorMatrix.BuildGrid | pynnmap_report/report/attribute_accuracy_formatter.py:204-283 | succeeds iff the fuzzy classes are usable, failing with the first class's error; on success the whole grid |
| AttributeAccuracy.LocalImageFn | pynnmap_report/report/attribute_accuracy_formatter.py:30-32 | the lower-cased field name (`Lower`) followed by ".png", with no upper-case letter |
| AttributeAccuracy.RegionalImageFn | pynnmap_report/report/attribute_accuracy_formatter.py:48-50 | the lower-cased field name (`Lower`) followed by "_area.png", with no upper-case letter |
| AttributeAccuracy.RiemannImageFn | pynnmap_report/report/attribute_accuracy_formatter.py:66-68 | "hex_<res>_", then the lower-cased field name (`Lower`) and ".png" |
| AttributeAccuracy.RiemannFn | pynnmap_report/report/attribute_accuracy_formatter.py:71-79 | the observed file `<root>/hex_<res>/hex_<res>_observed_mean.csv`, or the predicted file `<root>/hex_<res>/hex_<res>_predicted_k<k>_mean.csv` |
| AttributeAccuracy.RiemannFilesDiffer | pynnmap_report/report/attribute_accuracy_formatter.py:71-79 | the observed and the predicted file of a resolution share the folder `<root>/hex_<res>/` and never coincide |
| AttributeAccuracy.PageImagesDistinct | pynnmap_report/report/attribute_accuracy_formatter.py:30-68 | the local, regional and three mid-scale image names of an attribute are pairwise distinct |
| AttributeAccuracy.RiemannFigureOrder | pynnmap_report/report/attribute_accuracy_formatter.py:82-102 | mid-scale figure r·|attrs|+i is attribute i at resolution r: resolutions form the outer loop |
| AttributeAccuracy.FigureAt | pynnmap_report/report/attribute_accuracy_formatter.py:153-177 | recorded figure p is image p div |attrs| of attribute p mod |attrs| |
| AttributeAccuracy.PageImageAt | pynnmap_report/report/attribute_accuracy_formatter.py:153-177 | image k of attribute i's page is recorded at position k·|attrs|+i |
| AttributeAccuracy.FiguresArePageImages | pynnmap_report/report/attribute_accuracy_formatter.py:153-177 | five figures per attribute, and a file is recorded iff it is shown on some attribute's page |
| AttributeAccuracy.CreateLocalFigures | pynnmap_report/report/attribute_accuracy_formatter.py:35-45 | one local image name per attribute, in order |
| AttributeAccuracy.CreateRegionalFigures | pynnmap_report/report/attribute_accuracy_formatter.py:53-63 | one regional image name per attribute, in order |
| AttributeAccuracy.CreateRiemannFigures | pynnmap_report/report/attribute_accuracy_formatter.py:82-102 | the mid-scale names, resolution 10, 30, 50 outside, attributes inside |
| AttributeAccuracy.AttributeAccuracyFormatter.constructor | pynnmap_report/report/attribute_accuracy_formatter.py:119 | starts with no image files |
| AttributeAccuracy.AttributeAccuracyFormatter.CreateFigures | pynnmap_report/report/attribute_accuracy_formatter.py:153-177 | extends the image list with local, then regional, then mid-scale figures |
| AttributeAccuracy.FuzzyWindows | pynnmap_report/report/attribute_accuracy_formatter.py:253-262 | the classifier loop registers the clipped ±1 window of every class |
| AttributeAccuracy.ContinuousShadingCells | pynnmap_report/report/attribute_accuracy_formatter.py:372-377 | dark exactly on the diagonal cells (i,i), i = 2..n+1; light exactly on the cells next to the diagonal inside the count block; every command is a dark or light background |
| AttributeAccuracy.ShadingMatchesWindows | pynnmap_report/report/attribute_accuracy_formatter.py:372-377 | inside the count block, a cell is light iff it is off-diagonal and in the row class's fuzzy window (windows: lines 253-261) |
| AttributeAccuracy.ShadeContinuous | pynnmap_report/report/attribute_accuracy_formatter.py:372-377 | the two shading loops append the diagonal and the neighbour commands to the style |
| AttributeAccuracy.BinsOf | pynnmap_report/report/attribute_accuracy_formatter.py:187 | the bins are exactly those of the attribute's variable, never more than the file holds |
| AttributeAccuracy.BinsOfAppend | pynnmap_report/report/attribute_accuracy_formatter.py:187 | the selection distributes over concatenation, so the bins keep file order |
| AttributeAccuracy.BinsOfIdentity | pynnmap_report/report/attribute_accuracy_formatter.py:187 | a file holding only the variable's bins is kept whole, with every duplicate and in order |
| AttributeAccuracy.BinsOfNone | pynnmap_report/report/attribute_accuracy_formatter.py:187 | bins of other variables contribute nothing |
| AttributeAccuracy.BuildErrorMatrix | pynnmap_report/report/attribute_accuracy_formatter.py:179-283 | IndexError iff the attribute has exactly one bin; otherwise the grid over the cross-tabulation with ±1 windows, and the base style plus the shading (shading: lines 372-378) |
| AttributeAccuracy.ContinuousPercentages | pynnmap_report/report/attribute_accuracy_formatter.py:242-283 | for any bin count other than one, every fuzzy % is ≥ its strict %, all lie in [0,100], and overall fuzzy ≥ overall strict |
| CategoricalAccuracy.KnownAreasMembers | pynnmap_report/report/categorical_accuracy_formatter.py:73 | keeps exactly the area records whose bin is not "Unknown" |
| CategoricalAccuracy.KnownOlofssonMembers | pynnmap_report/report/categorical_accuracy_formatter.py:74 | keeps exactly the Olofsson records whose class is not "Unknown" |
| CategoricalAccuracy.KnownAreasAppend | pynnmap_report/report/categorical_accuracy_formatter.py:73 | the filter distributes over concatenation, so order is kept |
| CategoricalAccuracy.KnownOlofssonAppend | pynnmap_report/report/categorical_accuracy_formatter.py:74 | the filter distributes over concatenation, so order is kept |
| CategoricalAccuracy.KnownAreasIdentity | pynnmap_report/report/categorical_accuracy_formatter.py:73 | records without "Unknown" are all kept, unchanged |
| CategoricalAccuracy.KnownOlofssonIdentity | pynnmap_report/report/categorical_accuracy_formatter.py:74 | records without "Unknown" are all kept, unchanged |
| CategoricalAccuracy.CategoricalAccuracyFormatter.constructor | pynnmap_report/report/categorical_accuracy_formatter.py:73-74 | the stored area and Olofsson records are the filtered inputs |
| CategoricalAccuracy.CodeLabels | pynnmap_report/report/categorical_accuracy_formatter.py:153 | the bin labels are the code labels, in order |
| CategoricalAccuracy.Crosswalk | pynnmap_report/report/categorical_accuracy_formatter.py:203-204 | definition, no contract: each listed class to its position; `CrosswalkInvertsListing` states its properties |
| CategoricalAccuracy.CrosswalkInvertsListing | pynnmap_report/report/categorical_accuracy_formatter.py:203-204 | the crosswalk maps each listed class to its position and is the inverse of the listing |
| CategoricalAccuracy.FuzzyListNonEmpty | pynnmap_report/report/categorical_accuracy_formatter.py:207-215 | an index gets a fuzzy list iff some record's original class maps to it |
| CategoricalAccuracy.ExplicitCells | pynnmap_report/report/categorical_accuracy_formatter.py:214-215 | fuzzy cells never hold a self-pair and are at most one per record |
| CategoricalAccuracy.ExplicitCellsAreFuzzy | pynnmap_report/report/categorical_accuracy_formatter.py:207-215 | every fuzzy cell (o, f) has f in o's fuzzy list |
| CategoricalAccuracy.ListingTranslates | pynnmap_report/report/categorical_accuracy_formatter.py:203-212 | every record translates through the crosswalk iff every fuzzy class is one of the original classes |
| CategoricalAccuracy.TranslateRecords | pynnmap_report/report/categorical_accuracy_formatter.py:207-215 | KeyError iff some fuzzy class is not in the crosswalk; otherwise the per-index fuzzy lists in record order and the fuzzy cells |
| CategoricalAccuracy.Register | pynnmap_report/report/categorical_accuracy_formatter.py:216-217 | the classifier registers exactly the collected lists |
| CategoricalAccuracy.EveryIndexHasAList | pynnmap_report/report/categorical_accuracy_formatter.py:203-217 | in explicit mode exactly the indices 0..m−1 of the listed classes get a fuzzy list |
| CategoricalAccuracy.RecordedListsAreExplicit | pynnmap_report/report/categorical_accuracy_formatter.py:216-217 | the registered dictionary equals the explicit classifier |
| CategoricalAccuracy.ExplicitFuzzy | pynnmap_report/report/categorical_accuracy_formatter.py:200-217 | explicit mode succeeds iff every fuzzy class is an original class (else KeyError), giving the explicit classifier and cells |
| CategoricalAccuracy.DefaultCellsUpToShape | pynnmap_report/report/categorical_accuracy_formatter.py:219-231 | after i iterations the cells are exactly the off-diagonal neighbour pairs of rows below i |
| CategoricalAccuracy.DefaultCellsAreNeighbours | pynnmap_report/report/categorical_accuracy_formatter.py:218-232 | default mode lists 2(n−1) cells, exactly the off-diagonal neighbours, i.e. the off-diagonal members of each window |
| CategoricalAccuracy.DefaultFuzzy | pynnmap_report/report/categorical_accuracy_formatter.py:218-232 | the default loop registers the ±1 windows and the neighbour cells |
| CategoricalAccuracy.ShadeCategorical | pynnmap_report/report/categorical_accuracy_formatter.py:330-339 | appends diagonal, fuzzy-cell and corner commands to the style |
| CategoricalAccuracy.CategoricalShadingCells | pynnmap_report/report/categorical_accuracy_formatter.py:330-339 | dark exactly on the diagonal class cells, light exactly at (c+2, r+2) for each fuzzy pair and never on the diagonal; the corners (−2,−2) and (−1,−1) are the overall cells |
| CategoricalAccuracy.DefaultShadingMatchesContinuous | pynnmap_report/report/categorical_accuracy_formatter.py:218-232 | in default mode the class-cell shading equals the continuous attribute's (shading: lines 330-336) |
| CategoricalAccuracy.ExplicitShadingIsFuzzy | pynnmap_report/report/categorical_accuracy_formatter.py:207-217 | in explicit mode a light class cell is off-diagonal and marks a registered fuzzy class (shading: lines 333-335) |
| CategoricalAccuracy.BuildErrorMatrix | pynnmap_report/report/categorical_accuracy_formatter.py:145-255 | succeeds iff the fuzzy setup succeeds and its lists are usable, failing only with KeyError or IndexError; the grid over the code labels and the shaded style (shading: lines 330-340) |
| CategoricalAccuracy.DefaultModeBuildsUnlessOneCode | pynnmap_report/report/categorical_accuracy_formatter.py:218-247 | without fuzzy classes the matrix builds iff the attribute does not have exactly one code |
| ReportFormatter.PageBreakTo | pynnmap_report/report/report_formatter.py:17-24 | definition, no contract: switch to the named page template, then break; `Introduction.Story` and the story-layout lemmas place it |
| ReportFormatter.MakeFigureTable | pynnmap_report/report/report_formatter.py:48-65 | ceil(n/2) rows of exactly two cells, image k at row k div 2, column k mod 2; an odd count pads the last row with one empty paragraph |
| ReportFormatter.TxtToHtml | pynnmap_report/report/report_formatter.py:83-93 | the replacement loop equals escaping each angle bracket by its entity |
| ReportFormatter.SequentialReplacementIsEscape | pynnmap_report/report/report_formatter.py:87-92 | replacing '>' first and then '<' is the per-character escape |
| ReportFormatter.EscapeAppend | pynnmap_report/report/report_formatter.py:83-93 | escaping distributes over concatenation |
| ReportFormatter.EscapeRemovesBrackets | pynnmap_report/report/report_formatter.py:83-93 | escaped text holds no angle bracket, and every other character of the input survives |
| ReportFormatter.EscapeIdentity | pynnmap_report/report/report_formatter.py:83-93 | text with no angle brackets is unchanged; '&' is not escaped |
| ReportFormatter.EscapeIdempotent | pynnmap_report/report/report_formatter.py:83-93 | escaping twice is escaping once |
| ReportFormatter.EscapeLength | pynnmap_report/report/report_formatter.py:87-92 | each bracket adds three characters, nothing else changes length |
| ReportFormatter.Formatter.constructor | pynnmap_report/report/report_formatter.py:108-113 | the formatter's class name, attributes and `_required` list |
| ReportFormatter.Formatter.CheckMissingFiles | pynnmap_report/report/report_formatter.py:108-118 | AttributeError iff some required name is missing, naming the first one; otherwise the files in `_required` order, and failure iff one does not exist, with "\nSkipping <ClassName>\n" appended to the message |
| Introduction.ReportHeading | pynnmap_report/report/introduction_formatter.py:37-77 | succeeds iff the model type is known, else KeyError; the title, "<region> (Modeling Region <code>)", "Model Type: <display name>" and release version lines |
| Introduction.HeadingModelTypes | pynnmap_report/report/introduction_formatter.py:41-65 | the heading exists iff the model type is sppsz, trecov, wdycov or sppba |
| Introduction.ModelTypeNamesDistinct | pynnmap_report/report/introduction_formatter.py:41-46 | the four model types map to four different headings |
| Introduction.TableCols | pynnmap_report/report/introduction_formatter.py:126 | the width is at most 3 and at most the number of contacts, and positive when there are contacts |
| Introduction.ContactGrid | pynnmap_report/report/introduction_formatter.py:124-131 | rows of exactly min(3, n) contacts; cell (r, c) holds contact r·width + c; n div width rows, the n mod width leftover contacts are dropped; no contacts gives no rows |
| Introduction.PlotCountAppend | pynnmap_report/report/introduction_formatter.py:276-278 | the plot count of concatenated years is the sum of the two counts |
| Introduction.YearAtMostPlotCount | pynnmap_report/report/introduction_formatter.py:276-278 | a source's count is at least each year's count |
| Introduction.ShortRow | pynnmap_report/report/introduction_formatter.py:274-292 | source name, description, and a nested table with one row per year in order |
| Introduction.BuildDataSourceRow | pynnmap_report/report/introduction_formatter.py:274-292 | the per-year loop returns the sum of the years' plot counts and the short row |
| Introduction.MinOf | pynnmap_report/report/introduction_formatter.py:303 | `min`: a member no greater than any element; ValueError iff empty |
| Introduction.MaxOf | pynnmap_report/report/introduction_formatter.py:303 | `max`: a member no smaller than any element; ValueError iff empty |
| Introduction.Years | pynnmap_report/report/introduction_formatter.py:295 | the assessment years, one per record, in order |
| Introduction.LongRowAsWrittenAlwaysFails | pynnmap_report/report/introduction_formatter.py:294-307 | the condensed row as written always fails; with any years it is the ValueError of `max()` on the exhausted generator |
| Introduction.LongDataSourceRow | pynnmap_report/report/introduction_formatter.py:294-307 | corrected: succeeds iff the source has years; the data-source and description cells, then the summed plot count under a first–last range whose ends are years of the source and bound every year (least and greatest) |
| Introduction.SourceRow | pynnmap_report/report/introduction_formatter.py:331-336 | every source row carries the summed plot count, name and description; at most 30 years its third cell is a table |
| Introduction.SourceRowBranches | pynnmap_report/report/introduction_formatter.py:331-336 | at most 30 years gives the short row with the per-year table, more gives the condensed first–last row |
| Introduction.BuildSourceRow | pynnmap_report/report/introduction_formatter.py:331-336 | the branch on more than 30 years returns the source row |
| Introduction.SourcesTotalIsAllYears | pynnmap_report/report/introduction_formatter.py:330-337 | the total over sources equals the plot count of all their years together |
| Introduction.PlotsByDate | pynnmap_report/report/introduction_formatter.py:309-350 | `total_plots` is the sum over sources; the table is the header, one row per source in order, then the summary row showing the total |
| Introduction.PageBreaksAppend | pynnmap_report/report/introduction_formatter.py:431-445 | page breaks of a concatenation add up |
| Introduction.Story | pynnmap_report/report/introduction_formatter.py:431-445 | the length is the sections plus three page breaks; the heading first, spatial predictors last, a portrait page break after the website section |
| Introduction.StoryFrontLayout | pynnmap_report/report/introduction_formatter.py:431-436 | heading, region description, contacts and website at consecutive offsets, then the first portrait page break |
| Introduction.StoryMiddleLayout | pynnmap_report/report/introduction_formatter.py:437-440 | model information, plot matching and mask right after the first break, then the second portrait page break |
| Introduction.StoryBackLayout | pynnmap_report/report/introduction_formatter.py:441-445 | the plot table after the second break, the third portrait page break, then the spatial predictors to the end |
| Introduction.StoryPageBreaks | pynnmap_report/report/introduction_formatter.py:431-445 | the story adds exactly three page breaks to those of its sections |
| SpeciesAccuracy.SpeciesAttrNames | pynnmap_report/report/species_accuracy_formatter.py:192-196 | exactly the species attributes whose name lacks "NOTALY" |
| SpeciesAccuracy.CommonSpecies | pynnmap_report/report/species_accuracy_formatter.py:199 | exactly the species with prevalence ≥ 0.005 |
| SpeciesAccuracy.Intersect | pynnmap_report/report/species_accuracy_formatter.py:200 | the elements in both inputs |
| SpeciesAccuracy.SelectSpecies | pynnmap_report/report/species_accuracy_formatter.py:192-200 | strictly sorted (no duplicates) and exactly the names in both sets |
| SpeciesAccuracy.ThresholdInclusive | pynnmap_report/report/species_accuracy_formatter.py:199 | a prevalence of exactly 0.005 is reported |
| SpeciesAccuracy.NotalyNeverReported | pynnmap_report/report/species_accuracy_formatter.py:195 | a name containing "NOTALY" is never reported |
| SpeciesAccuracy.SelectionIgnoresOrder | pynnmap_report/report/species_accuracy_formatter.py:192-200 | the selection depends only on the sets of attributes and records, not their order |
| SpeciesAccuracy.SpeciesName | pynnmap_report/report/species_accuracy_formatter.py:46-61 | the raw code without metadata or when the part before the first "_" is unknown, else symbol, scientific and common name |
| SpeciesAccuracy.SpeciesNameKey | pynnmap_report/report/species_accuracy_formatter.py:46-61 | a suffix after "_" does not change the name looked up |
| SpeciesAccuracy.HeaderCellCountTable | pynnmap_report/report/species_accuracy_formatter.py:31-44 | the 2×2 header of bold labels |
| SpeciesAccuracy.CountTable | pynnmap_report/report/species_accuracy_formatter.py:63-73 | two rows, the first two counts then the rest, in order |
| SpeciesAccuracy.CountTableMatchesHeader | pynnmap_report/report/species_accuracy_formatter.py:38-84 | each count sits under the header label naming it: OP_PP, OP_PA / OA_PP, OA_PA |
| SpeciesAccuracy.RecordFor | pynnmap_report/report/species_accuracy_formatter.py:81 | the record of the requested species |
| SpeciesAccuracy.UniqueSpeciesPrevalence | pynnmap_report/report/species_accuracy_formatter.py:199 | with one record per species, a selected species' record has prevalence ≥ 0.005 (record lookup: line 81) |
| SpeciesAccuracy.SpeciesTable | pynnmap_report/report/species_accuracy_formatter.py:163-205 | the header row, then one row per selected species in sorted order: the name looked up in the report metadata when its file is named (the raw code otherwise), the prevalence, the count table and the kappa of a record of that species reaching the threshold |
| SpeciesAccuracy.SelectedHaveRecords | pynnmap_report/report/species_accuracy_formatter.py:199-205 | every selected species has a record to build its row from |
| DataDictionary.DictionaryNames | pynnmap_report/report/data_dictionary_formatter.py:55-62 | exactly the accuracy, project, non-species attributes |
| DataDictionary.DictionaryNamesAppend | pynnmap_report/report/data_dictionary_formatter.py:55-62 | the filter distributes over concatenation, so metadata order is kept |
| DataDictionary.SelectAttrs | pynnmap_report/report/data_dictionary_formatter.py:55-62 | the filter loop yields the listed names |
| DataDictionary.GetAttribute | pynnmap_report/report/data_dictionary_formatter.py:70 | an attribute with the requested field name |
| DataDictionary.FieldDescriptionUnits | pynnmap_report/report/data_dictionary_formatter.py:72-77 | the description starts with the metadata text and equals it iff the units are "none", else ends with " (units)" |
| DataDictionary.CodeTable | pynnmap_report/report/data_dictionary_formatter.py:82-96 | one row per code, in order, value beside escaped description |
| DataDictionary.CodeRowsEscaped | pynnmap_report/report/data_dictionary_formatter.py:92 | no code description in the sub-table holds an angle bracket |
| DataDictionary.DescriptionTable | pynnmap_report/report/data_dictionary_formatter.py:72-120 | two rows when there are codes, one otherwise; the description first, the code sub-table second |
| DataDictionary.DictionaryTable | pynnmap_report/report/data_dictionary_formatter.py:69-138 | one row per listed attribute in metadata order: field name beside its description stack, the description above the code sub-table with one row per code when the attribute has codes |
| DataDictionary.SpeciesNote | pynnmap_report/report/data_dictionary_formatter.py:161-171 | ends in basal area for sppsz/sppba, percent cover for trecov/wdycov, no suffix otherwise |
| VegetationClass.ColumnNames | pynnmap_report/report/vegetation_class_formatter.py:80-82 | OBSERVED, P_1..P_11, TOTAL, CORRECT, FUZZY_CORRECT |
| VegetationClass.ColumnNamesDistinct | pynnmap_report/report/vegetation_class_formatter.py:80-82 | the fifteen column names are pairwise different, so the frame's names are distinct |
| VegetationClass.IndexOf | pynnmap_report/report/vegetation_class_formatter.py:84 | the first position of a column name |
| VegetationClass.VegclassFrame.constructor | pynnmap_report/report/vegetation_class_formatter.py:83 | a frame whose rows all have one value per column |
| VegetationClass.VegclassFrame.Drop | pynnmap_report/report/vegetation_class_formatter.py:84 | in-place drop: KeyError and nothing changes when the column is absent, else that column removed from the names and from every row, leaving no column of that name; keeps names distinct |
| VegetationClass.LoadMatrix | pynnmap_report/report/vegetation_class_formatter.py:80-84 | after the drop, 14 columns P_1..P_11, TOTAL, CORRECT, FUZZY_CORRECT and each row without its first value |
| VegetationClass.FormatCell | pynnmap_report/report/vegetation_class_formatter.py:131-141 | definition, no contract: blank, `%d` of the truncated value, or `%.1f`, by the cell's kind; `KindLayout` states the layout of the kinds |
| VegetationClass.KindLayout | pynnmap_report/report/vegetation_class_formatter.py:112-141 | blank exactly off the diagonal of the summary block, integer exactly when i, j ≤ 11, symmetric |
| VegetationClass.Trunc | pynnmap_report/report/vegetation_class_formatter.py:137 | `int()` truncates toward zero |
| VegetationClass.DataRowOf | pynnmap_report/report/vegetation_class_formatter.py:127-161 | two leading cells, the row label, then each value formatted by its position |
| VegetationClass.DataRow | pynnmap_report/report/vegetation_class_formatter.py:127-161 | IndexError iff the row index passes the code and summary labels; otherwise the data row |
| VegetationClass.LabelRow | pynnmap_report/report/vegetation_class_formatter.py:100-110 | two blanks, one header per code with '-' broken, then one header per summary label with its space broken, in label order |
| VegetationClass.SummaryCells | pynnmap_report/report/vegetation_class_formatter.py:106-109 | one header cell per summary label, in label order |
| VegetationClass.SpaceBreak | pynnmap_report/report/vegetation_class_formatter.py:106-109 | a summary label's space becomes a line break |
| VegetationClass.ClassHeaderBreaks | pynnmap_report/report/vegetation_class_formatter.py:102-105 | every '-' in a class header is followed by a line break |
| VegetationClass.TitleRow | pynnmap_report/report/vegetation_class_formatter.py:93-98 | two blanks, the "Predicted Class" title, and one blank fewer than the row count |
| VegetationClass.BuildLabelRow | pynnmap_report/report/vegetation_class_formatter.py:100-110 | the header loops yield the label row |
| VegetationClass.AppendSummaryHeaders | pynnmap_report/report/vegetation_class_formatter.py:106-109 | the summary-header loop appends one broken header per summary label, in order |
| VegetationClass.BuildDataRows | pynnmap_report/report/vegetation_class_formatter.py:127-162 | IndexError iff there are more rows than labels; otherwise one data row per matrix row |
| VegetationClass.VegclassTable | pynnmap_report/report/vegetation_class_formatter.py:93-162 | title row, label row, then the data rows, failing as the data rows do |
| VegetationClass.ColumnWidths | pynnmap_report/report/vegetation_class_formatter.py:165-167 | 2 + codes + 3 widths: 0.3, 0.85, 0.56 per class and 0.66 per summary column |
| VegetationClass.FuzzyTableProperties | pynnmap_report/report/vegetation_class_formatter.py:212-224 | no class lists itself, every neighbour is in 1..11, and the relation is symmetric |
| VegetationClass.DiagonalCommands | pynnmap_report/report/vegetation_class_formatter.py:191-209 | one dark command at (k+1, k+1) for each class k |
| VegetationClass.NeighbourCommands | pynnmap_report/report/vegetation_class_formatter.py:227-239 | one light command at (key+1, elem+1) for each listed neighbour |
| VegetationClass.ShadeDiagonal | pynnmap_report/report/vegetation_class_formatter.py:191-209 | the diagonal loop appends the dark commands |
| VegetationClass.ShadeNeighbours | pynnmap_report/report/vegetation_class_formatter.py:227-239 | the inner loop appends one class's light commands |
| VegetationClass.ShadeFuzzy | pynnmap_report/report/vegetation_class_formatter.py:226-239 | the outer loop appends every class's light commands in key order |
| VegetationClass.ShadeVegclass | pynnmap_report/report/vegetation_class_formatter.py:191-239 | diagonal then fuzzy shading added to the style |
| VegetationClass.ShadeTable | pynnmap_report/report/vegetation_class_formatter.py:191-239 | for any neighbour table, the diagonal commands followed by every key's light commands |
| VegetationClass.NeighbourCommandsExactly | pynnmap_report/report/vegetation_class_formatter.py:227-239 | a command is one class's light command iff it shades a listed neighbour |
| VegetationClass.FuzzyCommandsExactly | pynnmap_report/report/vegetation_class_formatter.py:212-239 | for any neighbour table, a command is light shading iff it is at (a+1, b+1) for a pair (a, b) the table lists with a among the keys |
| VegetationClass.DiagonalCells | pynnmap_report/report/vegetation_class_formatter.py:191-209 | dark exactly on (x, x) for 2 ≤ x ≤ classes + 1, never light |
| VegetationClass.ShadingCells | pynnmap_report/report/vegetation_class_formatter.py:191-239 | dark exactly on the class diagonal; light cells are off-diagonal and come in mirrored pairs |
| VegetationClass.TableShadingCells | pynnmap_report/report/vegetation_class_formatter.py:191-239 | for any irreflexive, symmetric table within the classes: the same dark/light cell pattern |
| VegetationClass.CodeDefinitions | pynnmap_report/report/vegetation_class_formatter.py:263-268 | one paragraph per code: bold label, then the escaped description |

## Left out

- ReportLab rendering: fonts, styles, spacers, row heights, `get_spacing`, `RotatedParagraph` drawing and the `GnnDocTemplate` page templates. Cells are `Flowable` values and a style is a list of background commands.
- Number rendering: the "%.1f" and "{:.4f}" formats of percentages, kappa and prevalence are kept as exact `Number` values. The `get_labels` exponent formatting of continuous bin labels is not modelled; the labels are an input.
- pandas: CSV reading, column dtypes and NaN handling other than the null check. `pd.crosstab` is modelled by its result (the count per observed/predicted pair).
- The XML metadata parsers are replaced by attribute, code and fuzzy-class records. The species report metadata is a map supplied by the caller.
- pynnmap's `Classifier` is foreign. Its lookup of an unregistered class is assumed to raise KeyError, and numpy fancy indexing with an index past the matrix raises IndexError.
- The order of the explicit crosswalk comes from iterating a Python set; the model takes it as a parameter, any duplicate-free listing of the original classes.
- Plotting (`chart_func`, `mplf`), the local and regional accuracy formatters, `clean_up` and file deletion are not part of this model.
- File existence checks and reading of images are outside Dafny. `check_missing_files` takes the set of existing files and the error message of the existence check as parameters.
- Static text sections of the introduction are not modelled: model information with its locale-formatted areas, website, mask, plot matching and spatial predictors. They appear in `Story` as opaque section lists.
- Introduction.ReportHeading: the logo image, `ImageAndFlowables` and spacers are not modelled; only the four heading paragraphs are.
- Introduction.ContactGrid: the contact cell formatting is not modelled; the grid is generic over the cell type.
- Strings.Lower: lower-cases ASCII letters only; Python's Unicode case mapping is not modelled.
- Assessment years are naturals, which compare as the four-digit year strings of the source do.
- DataDictionary.SpeciesNote: the opening of the note is abbreviated to a constant; only the model-type dependent ending is modelled.
- Utilities.BuildPairedDataframe: requires the join and the attribute field to differ, because pandas suffixing of identically named columns is not modelled.
- SpeciesAccuracy.SpeciesTable: requires one record per species, because `squeeze()` on a species with several records yields a series rather than a record.
- VegetationClass.TitleRow: takes the number of matrix rows as a parameter, as `len(vc_df)` does.
- VegetationClass.SpaceBreak: states the rule for one-word summary labels; the literal summary headers are not expanded.
- Introduction.PlotsByDate: uses the corrected condensed row (see Findings); as written every source with more than 30 years raises.
- The formatters of this source snapshot use `self.styles`, `self.table_styles` and `self.create_section_title`, which the `ReportFormatter` base class (report_formatter.py:96-125) does not define. As written, every method that reads them raises AttributeError: in accuracy_intro_formatter.py `run_formatter`; in attribute_accuracy_formatter.py and categorical_accuracy_formatter.py `build_error_matrix` and `build_flowable_page` (and `introduction` in the latter); in introduction_formatter.py `report_heading`, `model_region_description`, `contact_information`, `website_information`, `model_information`, `plot_matching`, `mask_information`, `_build_year_count_row`, `_build_data_source_row`, `_build_long_data_source_row`, `plots_by_date`, `_build_spatial_predictor_row` and `spatial_predictors` (hence `run_formatter`); in species_accuracy_formatter.py `build_header_cell_count_table`, `species_name`, `count_table`, `build_species_table_row` and `run_formatter`. The model assumes these members are present and models the flowables built around them.
- AttributeAccuracy.AttributeAccuracyFormatter.CreateFigures and AttributeAccuracy.CreateRiemannFigures: the foreign `build_paired_dataframe_from_files` and the plotting it feeds are not modelled, so a failure inside them is not a path of the model; it records the image names only.
- ReportFormatter.PageBreakTo has no contract of its own; `Introduction.Story` and the three story-layout lemmas state where its two items land.

## Findings

| source | as written | input that shows it | evidently intended | confidence | as-written member | corrected member |
|---|---|---|---|---|---|---|
| pynnmap_report/report/introduction_formatter.py:295-303 | `years` is a generator; `min(years)` exhausts it, so `max(years)` raises ValueError | any data source with more than 30 assessment years, on a formatter whose `styles` are set (line 300 reads them before `min` and `max` at line 303) | the row shows the first–last year range, `years` being a list | not executed | Introduction.LongDataSourceRowAsWritten (Introduction.LongRowAsWrittenAlwaysFails) | Introduction.LongDataSourceRow |
