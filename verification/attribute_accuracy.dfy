/**
 * The continuous-attribute accuracy page: image file names and the order in which
 * the figures are created, the binned error matrix with ±1 fuzzy windows, and the
 * dark/light shading of its cells.
 */
module AttributeAccuracy {
  import opened Wrappers
  import opened Strings
  import opened Layout
  import opened StandMetadata
  import opened ErrorMatrix

  // ------------------------------------------------------------ file names

  /** The scatterplot of local accuracy: "<field>.png", field name lower-cased. */
  function LocalImageFn(attr: Attribute): (r: string)
    ensures |r| == |attr.fieldName| + 4 && r[|attr.fieldName|..] == ".png"
    ensures r[..|attr.fieldName|] == Lower(attr.fieldName)
    ensures forall k :: 0 <= k < |attr.fieldName| ==> !('A' <= r[k] <= 'Z')
  {
    Lower(attr.fieldName) + ".png"
  }

  /** The histogram of regional accuracy: "<field>_area.png". */
  function RegionalImageFn(attr: Attribute): (r: string)
    ensures |r| == |attr.fieldName| + 9 && r[|attr.fieldName|..] == "_area.png"
    ensures r[..|attr.fieldName|] == Lower(attr.fieldName)
    ensures forall k :: 0 <= k < |attr.fieldName| ==> !('A' <= r[k] <= 'Z')
  {
    Lower(attr.fieldName) + "_area.png"
  }

  /** The mid-scale scatterplot at one hexagon resolution: "hex_<res>_<field>.png". */
  function RiemannImageFn(attr: Attribute, resolution: nat): (r: string)
    ensures "hex_" + NatToString(resolution) + "_" <= r
    ensures |r| == 5 + |NatToString(resolution)| + |attr.fieldName| + 4 && r[|r| - 4..] == ".png"
    ensures r[|r| - 4 - |attr.fieldName|..|r| - 4] == Lower(attr.fieldName)
    ensures forall k :: |r| - 4 - |attr.fieldName| <= k < |r| - 4 ==> !('A' <= r[k] <= 'Z')
  {
    "hex_" + NatToString(resolution) + "_" + Lower(attr.fieldName) + ".png"
  }

  /** The observed or predicted hexagon-mean file under the Riemann output folder. */
  function RiemannFn(root: string, resolution: nat, k: nat, observed: bool): (r: string)
    ensures root + "/hex_" + NatToString(resolution) + "/hex_" + NatToString(resolution) + "_" <= r
    ensures |r| >= 9 && r[|r| - 9..] == "_mean.csv"
    ensures var res := NatToString(resolution);
      observed ==> r == root + "/hex_" + res + "/hex_" + res + "_observed_mean.csv"
    ensures var res := NatToString(resolution);
      !observed ==> r == root + "/hex_" + res + "/hex_" + res + "_predicted_k" + NatToString(k) + "_mean.csv"
  {
    var res := NatToString(resolution);
    if observed then root + "/hex_" + res + "/hex_" + res + "_observed_mean.csv"
    else root + "/hex_" + res + "/hex_" + res + "_predicted_k" + NatToString(k) + "_mean.csv"
  }

  /**
   * The observed and the predicted file of one resolution share the folder
   * "<root>/hex_<res>/" and never coincide.
   */
  lemma RiemannFilesDiffer(root: string, resolution: nat, k: nat)
    ensures RiemannFn(root, resolution, k, true) != RiemannFn(root, resolution, k, false)
    ensures var dir := root + "/hex_" + NatToString(resolution) + "/";
      dir <= RiemannFn(root, resolution, k, true) && dir <= RiemannFn(root, resolution, k, false)
  {
    var res := NatToString(resolution);
    var prefix := root + "/hex_" + res + "/hex_" + res;
    var o := RiemannFn(root, resolution, k, true);
    var p := RiemannFn(root, resolution, k, false);
    assert o == prefix + "_observed_mean.csv";
    assert p == prefix + "_predicted_k" + NatToString(k) + "_mean.csv";
    assert o[|prefix| + 1] == 'o';
    assert p[|prefix| + 1] == 'p';
  }

  /** The hexagon resolutions of the mid-scale figures, in creation order. */
  const RESOLUTIONS: seq<nat> := [10, 30, 50]

  /** The five images on an attribute's page: local, regional, then the three resolutions. */
  function PageImages(attr: Attribute): (files: seq<string>)
    ensures |files| == 5
  {
    [LocalImageFn(attr), RegionalImageFn(attr),
     RiemannImageFn(attr, 10), RiemannImageFn(attr, 30), RiemannImageFn(attr, 50)]
  }

  /** The five images of one attribute's page have five different names. */
  lemma PageImagesDistinct(attr: Attribute)
    ensures forall a, b :: 0 <= a < b < 5 ==> PageImages(attr)[a] != PageImages(attr)[b]
  {
    var low := Lower(attr.fieldName);
    var files := PageImages(attr);
    assert NatToString(10) == "10" && NatToString(30) == "30" && NatToString(50) == "50";
    assert files[0][|low|] == '.';
    assert files[1][|low|] == '_';
    assert files[2][4] == '1' && files[3][4] == '3' && files[4][4] == '5';
    assert |files[0]| == |low| + 4 && |files[1]| == |low| + 9;
    assert |files[2]| == |files[3]| == |files[4]| == |low| + 11;
  }

  // ------------------------------------------------------------ figure lists

  function LocalFigures(attrs: seq<Attribute>): (files: seq<string>)
    ensures |files| == |attrs|
  {
    seq(|attrs|, i requires 0 <= i < |attrs| => LocalImageFn(attrs[i]))
  }

  function RegionalFigures(attrs: seq<Attribute>): (files: seq<string>)
    ensures |files| == |attrs|
  {
    seq(|attrs|, i requires 0 <= i < |attrs| => RegionalImageFn(attrs[i]))
  }

  function RiemannFiguresAt(attrs: seq<Attribute>, resolution: nat): (files: seq<string>)
    ensures |files| == |attrs|
  {
    seq(|attrs|, i requires 0 <= i < |attrs| => RiemannImageFn(attrs[i], resolution))
  }

  /** The mid-scale figures, resolution by resolution, attributes in order within each. */
  function RiemannFiguresFor(attrs: seq<Attribute>, resolutions: seq<nat>): (files: seq<string>)
    ensures |files| == |resolutions| * |attrs|
  {
    if resolutions == [] then []
    else
      var init := resolutions[..|resolutions| - 1];
      var files := RiemannFiguresFor(attrs, init) + RiemannFiguresAt(attrs, resolutions[|resolutions| - 1]);
      assert |files| == |init| * |attrs| + |attrs|;
      files
  }

  /** Every image create_figures records, in the order it records them. */
  function Figures(attrs: seq<Attribute>): (files: seq<string>)
    ensures |files| == 5 * |attrs|
  {
    LocalFigures(attrs) + RegionalFigures(attrs) + RiemannFiguresFor(attrs, RESOLUTIONS)
  }

  /**
   * Mid-scale figure number r * |attrs| + i is attribute i at the r-th resolution: the
   * resolution loop is the outer one.
   */
  lemma RiemannFigureOrder(attrs: seq<Attribute>, r: nat, i: nat)
    requires r < |RESOLUTIONS| && i < |attrs|
    ensures |RiemannFiguresFor(attrs, RESOLUTIONS)| == 3 * |attrs|
    ensures RiemannFiguresFor(attrs, RESOLUTIONS)[r * |attrs| + i] == RiemannImageFn(attrs[i], RESOLUTIONS[r])
  {
    RiemannFiguresForAt(attrs, RESOLUTIONS, r, i);
  }

  /** The same order for any list of resolutions, by induction on the list. */
  lemma {:induction false} RiemannFiguresForAt(attrs: seq<Attribute>, resolutions: seq<nat>, r: nat, i: nat)
    requires r < |resolutions| && i < |attrs|
    ensures r * |attrs| + i < |RiemannFiguresFor(attrs, resolutions)|
    ensures RiemannFiguresFor(attrs, resolutions)[r * |attrs| + i] == RiemannImageFn(attrs[i], resolutions[r])
  {
    var n := |attrs|;
    var init := resolutions[..|resolutions| - 1];
    var front := RiemannFiguresFor(attrs, init);
    assert RiemannFiguresFor(attrs, resolutions) == front + RiemannFiguresAt(attrs, resolutions[|resolutions| - 1]);
    MulMonotone(r + 1, |resolutions|, n);
    if r < |init| {
      RiemannFiguresForAt(attrs, init, r, i);
      assert init[r] == resolutions[r];
    } else {
      assert |front| == r * n;
    }
  }

  lemma MulMonotone(a: nat, b: nat, n: nat)
    ensures a >= b ==> a * n >= b * n
  {
  }

  /** Recorded figure number p is image p / |attrs| of attribute p % |attrs|'s page. */
  lemma FigureAt(attrs: seq<Attribute>, p: nat)
    requires p < 5 * |attrs|
    ensures |Figures(attrs)| == 5 * |attrs|
    ensures p / |attrs| < 5 && p % |attrs| < |attrs|
    ensures Figures(attrs)[p] == PageImages(attrs[p % |attrs|])[p / |attrs|]
  {
    DivBelow(p, |attrs|, 5);
    PageImageAt(attrs, p % |attrs|, p / |attrs|);
  }

  /** Position p before q rows of width n lies in row p / n, column p % n. */
  lemma DivBelow(p: nat, n: nat, q: nat)
    requires n > 0 && p < q * n
    ensures p / n < q && p % n < n && p == (p / n) * n + p % n
  {
    MulMonotone(p / n, q, n);
  }

  /** Image k of attribute i's page is recorded at position k * |attrs| + i. */
  lemma PageImageAt(attrs: seq<Attribute>, i: nat, k: nat)
    requires i < |attrs| && k < 5
    ensures k * |attrs| + i < |Figures(attrs)|
    ensures Figures(attrs)[k * |attrs| + i] == PageImages(attrs[i])[k]
  {
    var n := |attrs|;
    if k >= 2 {
      RiemannFigureOrder(attrs, k - 2, i);
      assert k * n + i == 2 * n + (k - 2) * n + i;
    } else if k == 1 {
      assert k * n + i == n + i;
    }
  }

  /**
   * The recorded images are exactly the images the pages show: five per attribute,
   * and a file is recorded if and only if it is on the page of some attribute.
   */
  lemma FiguresArePageImages(attrs: seq<Attribute>)
    ensures |Figures(attrs)| == 5 * |attrs|
    ensures forall f :: f in Figures(attrs) <==> exists a :: a in attrs && f in PageImages(a)
  {
    forall f | f in Figures(attrs) ensures exists a :: a in attrs && f in PageImages(a) {
      FigureOnSomePage(attrs, f);
    }
    forall f | exists a :: a in attrs && f in PageImages(a) ensures f in Figures(attrs) {
      var a :| a in attrs && f in PageImages(a);
      PageImageRecorded(attrs, a, f);
    }
    if attrs != [] {
      FigureAt(attrs, 0);
    }
  }

  lemma FigureOnSomePage(attrs: seq<Attribute>, f: string)
    requires f in Figures(attrs)
    ensures exists a :: a in attrs && f in PageImages(a)
  {
    var figs := Figures(attrs);
    var p :| 0 <= p < |figs| && figs[p] == f;
    FigureIndexOnPage(attrs, p);
  }

  lemma FigureIndexOnPage(attrs: seq<Attribute>, p: nat)
    requires p < 5 * |attrs|
    ensures attrs[p % |attrs|] in attrs && Figures(attrs)[p] in PageImages(attrs[p % |attrs|])
  {
    FigureAt(attrs, p);
    var images := PageImages(attrs[p % |attrs|]);
    assert images[p / |attrs|] in images;
  }

  lemma PageImageRecorded(attrs: seq<Attribute>, a: Attribute, f: string)
    requires a in attrs && f in PageImages(a)
    ensures f in Figures(attrs)
  {
    var i :| 0 <= i < |attrs| && attrs[i] == a;
    var k :| 0 <= k < 5 && PageImages(a)[k] == f;
    PageImageAt(attrs, i, k);
  }

  /** The scatterplot loop of create_local_figures, appending one file name per attribute. */
  method CreateLocalFigures(attrs: seq<Attribute>) returns (files: seq<string>)
    ensures files == LocalFigures(attrs)
  {
    files := [];
    for i := 0 to |attrs|
      invariant files == LocalFigures(attrs)[..i]
    {
      files := files + [LocalImageFn(attrs[i])];
    }
  }

  method CreateRegionalFigures(attrs: seq<Attribute>) returns (files: seq<string>)
    ensures files == RegionalFigures(attrs)
  {
    files := [];
    for i := 0 to |attrs|
      invariant files == RegionalFigures(attrs)[..i]
    {
      files := files + [RegionalImageFn(attrs[i])];
    }
  }

  /** The nested loop of create_riemann_figures: resolutions outside, attributes inside. */
  method CreateRiemannFigures(attrs: seq<Attribute>) returns (files: seq<string>)
    ensures files == RiemannFiguresFor(attrs, RESOLUTIONS)
  {
    files := [];
    for r := 0 to |RESOLUTIONS|
      invariant files == RiemannFiguresFor(attrs, RESOLUTIONS[..r])
    {
      var resolution := RESOLUTIONS[r];
      for i := 0 to |attrs|
        invariant files == RiemannFiguresFor(attrs, RESOLUTIONS[..r]) + RiemannFiguresAt(attrs, resolution)[..i]
      {
        files := files + [RiemannImageFn(attrs[i], resolution)];
      }
      assert RESOLUTIONS[..r + 1][..r] == RESOLUTIONS[..r];
    }
    assert RESOLUTIONS[..|RESOLUTIONS|] == RESOLUTIONS;
  }

  /** The formatter's list of created image files, extended by create_figures and read by clean_up. */
  class AttributeAccuracyFormatter {
    var imageFiles: seq<string>

    constructor ()
      ensures imageFiles == []
    {
      imageFiles := [];
    }

    method CreateFigures(attrs: seq<Attribute>)
      modifies this
      ensures imageFiles == old(imageFiles) + Figures(attrs)
    {
      var local := CreateLocalFigures(attrs);
      imageFiles := imageFiles + local;
      var regional := CreateRegionalFigures(attrs);
      imageFiles := imageFiles + regional;
      var riemann := CreateRiemannFigures(attrs);
      imageFiles := imageFiles + riemann;
    }
  }

  // ------------------------------------------------------------ fuzzy windows

  /** The classifier loop: class i gets [i, i+1], [i-1, i] or [i-1, i, i+1]. */
  method FuzzyWindows(n: nat) returns (clf: Classifier)
    ensures clf == WindowClassifier(n)
  {
    clf := map[];
    for i := 0 to n
      invariant clf == map k | 0 <= k < i :: Window(k, n)
    {
      if i == 0 {
        clf := clf[i := [i, i + 1]];
      } else if i == n - 1 {
        clf := clf[i := [i - 1, i]];
      } else {
        clf := clf[i := [i - 1, i, i + 1]];
      }
    }
  }

  // ------------------------------------------------------------ shading

  function DarkCommands(n: nat): (cmds: seq<Command>)
    ensures |cmds| == n
  {
    seq(n, k requires 0 <= k < n => Background((k + 2, k + 2), DARK))
  }

  /** Light commands for i = 2 .. count+1: (i, i+1) then (i+1, i). */
  function LightCommands(count: nat): (cmds: seq<Command>)
    ensures |cmds| == 2 * count
  {
    seq(2 * count, k requires 0 <= k < 2 * count =>
      var i := k / 2 + 2;
      if k % 2 == 0 then Background((i, i + 1), LIGHT) else Background((i + 1, i), LIGHT))
  }

  /** The commands build_error_matrix adds: the class diagonal dark, its ±1 neighbours light. */
  function ContinuousShading(n: nat): seq<Command>
  {
    DarkCommands(n) + LightCommands(if n == 0 then 0 else n - 1)
  }

  /** A dark command is a diagonal class cell, and every diagonal class cell has one. */
  lemma DarkCells(n: nat, c: int, r: int)
    ensures Background((c, r), DARK) in DarkCommands(n) <==> 2 <= c <= n + 1 && c == r
    ensures Background((c, r), LIGHT) !in DarkCommands(n)
  {
    if 2 <= c <= n + 1 && c == r {
      assert DarkCommands(n)[c - 2] == Background((c, r), DARK);
    }
  }

  /** A light command is a cell next to the diagonal within classes 2..count+2, and each such cell has one. */
  lemma LightCells(count: nat, c: int, r: int)
    ensures Background((c, r), LIGHT) in LightCommands(count) <==>
      2 <= c <= count + 2 && 2 <= r <= count + 2 && (c == r + 1 || r == c + 1)
    ensures Background((c, r), DARK) !in LightCommands(count)
  {
    var light := LightCommands(count);
    if 2 <= c <= count + 2 && 2 <= r <= count + 2 && r == c + 1 {
      assert light[2 * (c - 2)] == Background((c, r), LIGHT);
    }
    if 2 <= c <= count + 2 && 2 <= r <= count + 2 && c == r + 1 {
      assert light[2 * (r - 2) + 1] == Background((c, r), LIGHT);
    }
  }

  /**
   * In table coordinates, a cell is shaded dark exactly when it is a diagonal class cell,
   * and light exactly when it is a class cell next to the diagonal; no cell gets both and
   * every shaded cell lies in the class block, never in the margins.
   */
  lemma ContinuousShadingCells(n: nat, c: int, r: int)
    ensures Background((c, r), DARK) in ContinuousShading(n) <==> 2 <= c <= n + 1 && c == r
    ensures Background((c, r), LIGHT) in ContinuousShading(n) <==>
      2 <= c <= n + 1 && 2 <= r <= n + 1 && (c == r + 1 || r == c + 1)
    ensures forall cmd :: cmd in ContinuousShading(n) ==> cmd.Background? && (cmd.colour == DARK || cmd.colour == LIGHT)
  {
    var count := if n == 0 then 0 else n - 1;
    DarkCells(n, c, r);
    LightCells(count, c, r);
    forall cmd | cmd in ContinuousShading(n)
      ensures cmd.Background? && (cmd.colour == DARK || cmd.colour == LIGHT)
    {
      assert cmd in DarkCommands(n) || cmd in LightCommands(count);
    }
  }

  /**
   * On the class block the shading matches the fuzzy windows: dark is the class itself
   * (strictly correct) and light is a window member other than the class (only fuzzy correct).
   */
  lemma ShadingMatchesWindows(n: nat, c: nat, r: nat)
    requires n >= 2 && 2 <= c <= n + 1 && 2 <= r <= n + 1
    ensures Background((c, r), DARK) in ContinuousShading(n) <==> c == r
    ensures Background((c, r), LIGHT) in ContinuousShading(n) <==> c != r && r - 2 in Window(c - 2, n)
  {
    ContinuousShadingCells(n, c, r);
    WindowShape(c - 2, n);
  }

  /** The two shading loops, adding to a copy of the error-matrix base style. */
  method ShadeContinuous(ts: TableStyle, n: nat)
    modifies ts
    ensures ts.commands == old(ts.commands) + ContinuousShading(n)
  {
    ghost var base := ts.commands;
    for i := 2 to n + 2
      invariant ts.commands == base + DarkCommands(i - 2)
    {
      ts.Add(Background((i, i), DARK));
      assert DarkCommands(i - 1) == DarkCommands(i - 2) + [Background((i, i), DARK)];
    }
    var last := if n == 0 then 2 else n + 1;
    for i := 2 to last
      invariant ts.commands == base + DarkCommands(n) + LightCommands(i - 2)
    {
      ts.Add(Background((i, i + 1), LIGHT));
      ts.Add(Background((i + 1, i), LIGHT));
      assert LightCommands(i - 1) == LightCommands(i - 2) + [Background((i, i + 1), LIGHT), Background((i + 1, i), LIGHT)];
    }
  }

  // ------------------------------------------------------------ the error matrix

  /** A row of the bin file: the variable it belongs to and its formatted LOW-HIGH label. */
  datatype Bin = Bin(variable: string, binLabel: string)

  /** The bins of one variable, in file order. */
  function BinsOf(bins: seq<Bin>, variable: string): (r: seq<Bin>)
    ensures |r| <= |bins|
    ensures forall k :: 0 <= k < |r| ==> r[k] in bins && r[k].variable == variable
    ensures forall k :: 0 <= k < |bins| && bins[k].variable == variable ==> bins[k] in r
  {
    if bins == [] then []
    else BinsOf(bins[..|bins| - 1], variable)
         + (if bins[|bins| - 1].variable == variable then [bins[|bins| - 1]] else [])
  }

  /** Selecting the bins of a variable distributes over concatenation, so file order is kept. */
  lemma {:induction false} BinsOfAppend(a: seq<Bin>, b: seq<Bin>, variable: string)
    ensures BinsOf(a + b, variable) == BinsOf(a, variable) + BinsOf(b, variable)
    decreases |b|
  {
    if b == [] {
      assert a + b == a;
    } else {
      assert (a + b)[..|a + b| - 1] == a + b[..|b| - 1];
      BinsOfAppend(a, b[..|b| - 1], variable);
    }
  }

  /** A file holding only the variable's bins is kept whole: no bin is dropped, merged or moved. */
  lemma {:induction false} BinsOfIdentity(bins: seq<Bin>, variable: string)
    requires forall k :: 0 <= k < |bins| ==> bins[k].variable == variable
    ensures BinsOf(bins, variable) == bins
    decreases |bins|
  {
    if bins != [] {
      var init, last := bins[..|bins| - 1], bins[|bins| - 1];
      assert init + [last] == bins;
      BinsOfIdentity(init, variable);
      BinsOfLast(init, last, variable);
    }
  }

  /** One step of the selection, the last bin being one of the variable's. */
  lemma BinsOfLast(init: seq<Bin>, last: Bin, variable: string)
    requires last.variable == variable
    ensures BinsOf(init + [last], variable) == BinsOf(init, variable) + [last]
  {
    assert (init + [last])[..|init|] == init;
  }

  /** Bins of other variables contribute nothing. */
  lemma {:induction false} BinsOfNone(bins: seq<Bin>, variable: string)
    requires forall k :: 0 <= k < |bins| ==> bins[k].variable != variable
    ensures BinsOf(bins, variable) == []
    decreases |bins|
  {
    if bins != [] {
      BinsOfNone(bins[..|bins| - 1], variable);
    }
  }

  function BinLabels(bins: seq<Bin>): (labels: seq<string>)
    ensures |labels| == |bins|
  {
    seq(|bins|, k requires 0 <= k < |bins| => bins[k].binLabel)
  }

  /** A built error-matrix table: its grid of cells and its style commands. */
  datatype ErrorTable = ErrorTable(grid: seq<seq<Cell>>, style: seq<Command>)

  /**
   * build_error_matrix for a continuous attribute: n = the number of bins of the
   * attribute, categories 1..n, ±1 fuzzy windows, then the base style plus the
   * shading. The only failure is a single bin, whose window [0, 1] overruns the matrix.
   */
  method BuildErrorMatrix(records: seq<CountRecord>, bins: seq<Bin>, attr: Attribute, baseStyle: seq<Command>)
    returns (r: Result<ErrorTable>)
    ensures var n := |BinsOf(bins, attr.fieldName)|;
      r.Success? <==> n != 1
    ensures var n := |BinsOf(bins, attr.fieldName)|;
      r.Failure? ==> r.error == IndexError
    ensures var own := BinsOf(bins, attr.fieldName);
      var n := |own|;
      r.Success? ==>
        r.value.grid == Grid(BinLabels(own), CrossTab(records, attr.fieldName, n), WindowClassifier(n)) &&
        r.value.style == baseStyle + ContinuousShading(n)
  {
    var own := BinsOf(bins, attr.fieldName);
    var n := |own|;
    var m := CrossTab(records, attr.fieldName, n);
    var clf := FuzzyWindows(n);
    WindowDefinedIff(m);
    var grid := BuildGrid(BinLabels(own), m, clf);
    if grid.Failure? {
      if n == 1 {
        assert ClassFailure(m, clf, 0) == Some(IndexError);
      }
      return Failure(grid.error);
    }
    var ts := new TableStyle(baseStyle);
    ShadeContinuous(ts, n);
    return Success(ErrorTable(grid.value, ts.commands));
  }

  /**
   * Whenever the continuous error matrix is built, every percentage on it lies in
   * [0, 100], fuzzy % correct is at least strict % correct for each class and overall,
   * and the overall strict corner is NaN only for an empty matrix.
   */
  lemma ContinuousPercentages(records: seq<CountRecord>, labels: seq<string>, variable: string, i: nat)
    requires |labels| != 1 && i < |labels|
    ensures var n := |labels|;
      var m := CrossTab(records, variable, n);
      var clf := WindowClassifier(n);
      FuzzyDefined(m, clf) &&
      RowStrict(m, i) <= RowFuzzyPct(m, clf, i) <= 100.0 &&
      ColStrict(m, i) <= ColFuzzyPct(m, clf, i) <= 100.0 &&
      0.0 <= OverallFuzzy(m, clf) <= 100.0 &&
      (GrandTotal(m) > 0 ==> OverallStrict(m).Pct? && OverallStrict(m).value <= OverallFuzzy(m, clf))
  {
    var n := |labels|;
    var m := CrossTab(records, variable, n);
    var clf := WindowClassifier(n);
    WindowDefinedIff(m);
    FuzzyAtLeastStrict(m, clf, i);
    OverallFuzzyAtLeastStrict(m, clf);
  }
}
