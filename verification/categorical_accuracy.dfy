/**
 * The categorical-attribute accuracy page: the "Unknown" records stripped from the
 * regional data, and the error matrix over the attribute's codes, whose fuzzy sets
 * come either from the attribute's explicit fuzzy-class list (through a crosswalk
 * from class codes to matrix indices) or from the default ±1 windows.
 */
module CategoricalAccuracy {
  import opened Wrappers
  import opened Layout
  import opened StandMetadata
  import opened ErrorMatrix
  import AttributeAccuracy

  // ------------------------------------------------------- Unknown records

  /** A row of the regional area file; only the columns the formatter filters on. */
  datatype AreaRecord = AreaRecord(variable: string, dataset: string, binName: string)

  /** A row of the Olofsson-adjusted area file. */
  datatype OlofssonRecord = OlofssonRecord(variable: string, className: string)

  const UNKNOWN: string := "Unknown"

  /** The area records whose BIN_NAME is not "Unknown", in their original order. */
  function KnownAreas(recs: seq<AreaRecord>): seq<AreaRecord>
  {
    if recs == [] then []
    else
      var last := recs[|recs| - 1];
      KnownAreas(recs[..|recs| - 1]) + (if last.binName != UNKNOWN then [last] else [])
  }

  /** A record is kept exactly when it is in the input and its bin is not "Unknown". */
  lemma {:induction false} KnownAreasMembers(recs: seq<AreaRecord>, x: AreaRecord)
    ensures x in KnownAreas(recs) <==> x in recs && x.binName != UNKNOWN
  {
    if recs != [] {
      var init := recs[..|recs| - 1];
      KnownAreasMembers(init, x);
      assert recs == init + [recs[|recs| - 1]];
    }
  }

  /** The Olofsson records whose CLASS is not "Unknown", in their original order. */
  function KnownOlofsson(recs: seq<OlofssonRecord>): seq<OlofssonRecord>
  {
    if recs == [] then []
    else
      var last := recs[|recs| - 1];
      KnownOlofsson(recs[..|recs| - 1]) + (if last.className != UNKNOWN then [last] else [])
  }

  /** A record is kept exactly when it is in the input and its class is not "Unknown". */
  lemma {:induction false} KnownOlofssonMembers(recs: seq<OlofssonRecord>, x: OlofssonRecord)
    ensures x in KnownOlofsson(recs) <==> x in recs && x.className != UNKNOWN
  {
    if recs != [] {
      var init := recs[..|recs| - 1];
      KnownOlofssonMembers(init, x);
      assert recs == init + [recs[|recs| - 1]];
    }
  }

  /** Filtering keeps order: filtering a concatenation concatenates the filtered parts. */
  lemma {:induction false} KnownAreasAppend(a: seq<AreaRecord>, b: seq<AreaRecord>)
    ensures KnownAreas(a + b) == KnownAreas(a) + KnownAreas(b)
    decreases |b|
  {
    if b == [] {
      assert a + b == a;
    } else {
      assert (a + b)[..|a + b| - 1] == a + b[..|b| - 1];
      KnownAreasAppend(a, b[..|b| - 1]);
    }
  }

  lemma {:induction false} KnownOlofssonAppend(a: seq<OlofssonRecord>, b: seq<OlofssonRecord>)
    ensures KnownOlofsson(a + b) == KnownOlofsson(a) + KnownOlofsson(b)
    decreases |b|
  {
    if b == [] {
      assert a + b == a;
    } else {
      assert (a + b)[..|a + b| - 1] == a + b[..|b| - 1];
      KnownOlofssonAppend(a, b[..|b| - 1]);
    }
  }

  /** Data without "Unknown" records passes through unchanged. */
  lemma {:induction false} KnownAreasIdentity(recs: seq<AreaRecord>)
    requires forall k :: 0 <= k < |recs| ==> recs[k].binName != UNKNOWN
    ensures KnownAreas(recs) == recs
  {
    if recs != [] {
      var init := recs[..|recs| - 1];
      var last := recs[|recs| - 1];
      assert forall k :: 0 <= k < |init| ==> init[k] == recs[k];
      KnownAreasIdentity(init);
      assert KnownAreas(recs) == KnownAreas(init) + [last];
      assert recs == init + [last];
    }
  }

  lemma {:induction false} KnownOlofssonIdentity(recs: seq<OlofssonRecord>)
    requires forall k :: 0 <= k < |recs| ==> recs[k].className != UNKNOWN
    ensures KnownOlofsson(recs) == recs
  {
    if recs != [] {
      var init := recs[..|recs| - 1];
      var last := recs[|recs| - 1];
      assert forall k :: 0 <= k < |init| ==> init[k] == recs[k];
      KnownOlofssonIdentity(init);
      assert KnownOlofsson(recs) == KnownOlofsson(init) + [last];
      assert recs == init + [last];
    }
  }

  /** The formatter's regional data, reassigned once filtered, and its list of created images. */
  class CategoricalAccuracyFormatter {
    var areaRecords: seq<AreaRecord>
    var olofssonRecords: seq<OlofssonRecord>
    var imageFiles: seq<string>

    constructor (area: seq<AreaRecord>, olofsson: seq<OlofssonRecord>)
      ensures areaRecords == KnownAreas(area)
      ensures olofssonRecords == KnownOlofsson(olofsson)
      ensures imageFiles == []
    {
      areaRecords := area;
      olofssonRecords := olofsson;
      imageFiles := [];
      new;
      areaRecords := KnownAreas(areaRecords);
      olofssonRecords := KnownOlofsson(olofssonRecords);
    }
  }

  // ------------------------------------------------------------ bins

  /** The bin labels are the labels of the attribute's codes, in order. */
  function CodeLabels(attr: Attribute): (labels: seq<string>)
    ensures |labels| == |attr.codes|
    ensures forall k :: 0 <= k < |labels| ==> labels[k] == attr.codes[k].codeLabel
  {
    seq(|attr.codes|, k requires 0 <= k < |attr.codes| => attr.codes[k].codeLabel)
  }

  // ------------------------------------------------------------ crosswalk

  function OriginalClasses(fcs: seq<FuzzyClass>): set<int>
  {
    set f | f in fcs :: f.originalClass
  }

  /** `order` lists every element of `s` exactly once (the iteration order of a set). */
  predicate IsListing(order: seq<int>, s: set<int>)
  {
    (forall a, b :: 0 <= a < b < |order| ==> order[a] != order[b]) &&
    (forall c :: c in order ==> c in s) && (forall c :: c in s ==> c in order)
  }

  /** The crosswalk: each listed class maps to its position in the listing. */
  function Crosswalk(order: seq<int>): map<int, nat>
    requires forall a, b :: 0 <= a < b < |order| ==> order[a] != order[b]
  {
    map k | 0 <= k < |order| :: order[k] := k
  }

  /**
   * The crosswalk is a bijection between the listed classes and 0..m-1: it is defined
   * exactly on the listing and inverts it in both directions.
   */
  lemma CrosswalkInvertsListing(order: seq<int>)
    requires forall a, b :: 0 <= a < b < |order| ==> order[a] != order[b]
    ensures forall c :: c in Crosswalk(order) <==> c in order
    ensures forall c :: c in Crosswalk(order) ==> Crosswalk(order)[c] < |order| && order[Crosswalk(order)[c]] == c
    ensures forall k :: 0 <= k < |order| ==> Crosswalk(order)[order[k]] == k
  {
    var xwalk := Crosswalk(order);
    forall c | c in order ensures c in xwalk {
      var k :| 0 <= k < |order| && order[k] == c;
      assert xwalk[order[k]] == k;
    }
  }

  // ------------------------------------------------------------ explicit mode

  /** Every original and fuzzy class of the list has a crosswalk index. */
  predicate Translatable(fcs: seq<FuzzyClass>, xwalk: map<int, nat>)
  {
    forall k :: 0 <= k < |fcs| ==> fcs[k].originalClass in xwalk && fcs[k].fuzzyClass in xwalk
  }

  /** `d[k]`: the translated fuzzy classes of the records whose original class has index k, in record order. */
  function FuzzyListFor(fcs: seq<FuzzyClass>, xwalk: map<int, nat>, k: nat): (l: seq<nat>)
    requires Translatable(fcs, xwalk)
    ensures forall v :: v in l ==> v in xwalk.Values
  {
    if fcs == [] then []
    else
      var last := fcs[|fcs| - 1];
      FuzzyListFor(fcs[..|fcs| - 1], xwalk, k) + (if xwalk[last.originalClass] == k then [xwalk[last.fuzzyClass]] else [])
  }

  /** `fuzzy_cells` in explicit mode: each record's (original, fuzzy) index pair, self pairs left out. */
  function ExplicitCells(fcs: seq<FuzzyClass>, xwalk: map<int, nat>): (cells: seq<(nat, nat)>)
    requires Translatable(fcs, xwalk)
    ensures forall p :: p in cells ==> p.0 != p.1
    ensures |cells| <= |fcs|
  {
    if fcs == [] then []
    else
      var last := fcs[|fcs| - 1];
      var o := xwalk[last.originalClass];
      var f := xwalk[last.fuzzyClass];
      ExplicitCells(fcs[..|fcs| - 1], xwalk) + (if o != f then [(o, f)] else [])
  }

  /** A class index has a fuzzy list exactly when some record's original class maps to it. */
  lemma {:induction false} FuzzyListNonEmpty(fcs: seq<FuzzyClass>, xwalk: map<int, nat>, k: nat)
    requires Translatable(fcs, xwalk)
    ensures FuzzyListFor(fcs, xwalk, k) != [] <==> exists j :: 0 <= j < |fcs| && xwalk[fcs[j].originalClass] == k
  {
    if fcs != [] {
      var init := fcs[..|fcs| - 1];
      FuzzyListNonEmpty(init, xwalk, k);
      if exists j :: 0 <= j < |init| && xwalk[init[j].originalClass] == k {
        var j :| 0 <= j < |init| && xwalk[init[j].originalClass] == k;
        assert fcs[j] == init[j];
      }
      if exists j :: 0 <= j < |fcs| && xwalk[fcs[j].originalClass] == k {
        var j :| 0 <= j < |fcs| && xwalk[fcs[j].originalClass] == k;
        if j < |init| {
          assert init[j] == fcs[j];
        }
      }
    }
  }

  /** Every shaded fuzzy pair (o, f) is a fuzzy class f registered for class o. */
  lemma {:induction false} ExplicitCellsAreFuzzy(fcs: seq<FuzzyClass>, xwalk: map<int, nat>, o: nat, f: nat)
    requires Translatable(fcs, xwalk)
    requires (o, f) in ExplicitCells(fcs, xwalk)
    ensures f in FuzzyListFor(fcs, xwalk, o)
  {
    var init := fcs[..|fcs| - 1];
    if (o, f) in ExplicitCells(init, xwalk) {
      ExplicitCellsAreFuzzy(init, xwalk, o, f);
    }
  }

  /** The classifier registered in explicit mode: index k gets d[k]. */
  function ExplicitClassifier(fcs: seq<FuzzyClass>, order: seq<int>): Classifier
    requires forall a, b :: 0 <= a < b < |order| ==> order[a] != order[b]
    requires Translatable(fcs, Crosswalk(order))
  {
    map k | 0 <= k < |order| :: FuzzyListFor(fcs, Crosswalk(order), k)
  }

  /** The fuzzy sets and the list of cells to shade light, as build_error_matrix sets them up. */
  datatype FuzzySetup = FuzzySetup(classifier: Classifier, cells: seq<(nat, nat)>)

  /** Every fuzzy class of the list is also one of its original classes. */
  predicate FuzzyClassesKnown(fcs: seq<FuzzyClass>)
  {
    forall k :: 0 <= k < |fcs| ==> fcs[k].fuzzyClass in OriginalClasses(fcs)
  }

  lemma ListingTranslates(fcs: seq<FuzzyClass>, order: seq<int>)
    requires IsListing(order, OriginalClasses(fcs))
    ensures FuzzyClassesKnown(fcs) <==> Translatable(fcs, Crosswalk(order))
  {
    CrosswalkInvertsListing(order);
    forall k | 0 <= k < |fcs| ensures fcs[k].originalClass in OriginalClasses(fcs) {
      assert fcs[k] in fcs;
    }
  }

  /**
   * The record loop of explicit mode: per record the translated fuzzy class is appended
   * to d[orig] and, unless it is orig itself, (orig, fuzzy) to the fuzzy cells. A fuzzy
   * class without a crosswalk entry raises KeyError.
   */
  method TranslateRecords(fcs: seq<FuzzyClass>, xwalk: map<int, nat>)
    returns (r: Result<(map<nat, seq<nat>>, seq<(nat, nat)>)>)
    requires forall k :: 0 <= k < |fcs| ==> fcs[k].originalClass in xwalk
    ensures r.Success? <==> Translatable(fcs, xwalk)
    ensures r.Failure? ==> r.error == KeyError
    ensures r.Success? ==> Translatable(fcs, xwalk)
    ensures r.Success? ==> forall k :: k in r.value.0 <==> FuzzyListFor(fcs, xwalk, k) != []
    ensures r.Success? ==> forall k :: k in r.value.0 ==> r.value.0[k] == FuzzyListFor(fcs, xwalk, k)
    ensures r.Success? ==> r.value.1 == ExplicitCells(fcs, xwalk)
  {
    var d: map<nat, seq<nat>> := map[];
    var cells: seq<(nat, nat)> := [];
    for i := 0 to |fcs|
      invariant Translatable(fcs[..i], xwalk)
      invariant forall k :: k in d <==> FuzzyListFor(fcs[..i], xwalk, k) != []
      invariant forall k :: k in d ==> d[k] == FuzzyListFor(fcs[..i], xwalk, k)
      invariant cells == ExplicitCells(fcs[..i], xwalk)
    {
      var elem := fcs[i];
      if elem.fuzzyClass !in xwalk {
        assert !Translatable(fcs, xwalk) by {
          assert fcs[i].fuzzyClass !in xwalk;
        }
        return Failure(KeyError);
      }
      var orig := xwalk[elem.originalClass];
      var fuzzy := xwalk[elem.fuzzyClass];
      var next := fcs[..i + 1];
      assert next[..i] == fcs[..i] && next[i] == elem;
      assert Translatable(next, xwalk);
      d := d[orig := (if orig in d then d[orig] else []) + [fuzzy]];
      if orig != fuzzy {
        cells := cells + [(orig, fuzzy)];
      }
    }
    assert fcs[..|fcs|] == fcs;
    return Success((d, cells));
  }

  /** Registration: every index of `d` gets a classification whose fuzzy list is its list in `d`. */
  method Register(d: map<nat, seq<nat>>) returns (clf: Classifier)
    ensures clf == d
  {
    clf := map[];
    var pending := d.Keys;
    while pending != {}
      invariant pending <= d.Keys
      invariant forall k :: k in clf <==> k in d && k !in pending
      invariant forall k :: k in clf ==> clf[k] == d[k]
      decreases |pending|
    {
      var k :| k in pending;
      clf := clf[k := d[k]];
      pending := pending - {k};
    }
  }

  /** Each index of the crosswalk is the index of some record's original class. */
  lemma EveryIndexHasAList(fcs: seq<FuzzyClass>, order: seq<int>, k: nat)
    requires IsListing(order, OriginalClasses(fcs)) && Translatable(fcs, Crosswalk(order))
    ensures FuzzyListFor(fcs, Crosswalk(order), k) != [] <==> k < |order|
  {
    if FuzzyListFor(fcs, Crosswalk(order), k) != [] {
      ListedIndexOnly(fcs, order, k);
    }
    if k < |order| {
      ListedIndexHasAList(fcs, order, k);
    }
  }

  lemma ListedIndexOnly(fcs: seq<FuzzyClass>, order: seq<int>, k: nat)
    requires IsListing(order, OriginalClasses(fcs)) && Translatable(fcs, Crosswalk(order))
    requires FuzzyListFor(fcs, Crosswalk(order), k) != []
    ensures k < |order|
  {
    var xwalk := Crosswalk(order);
    FuzzyListNonEmpty(fcs, xwalk, k);
    var j :| 0 <= j < |fcs| && xwalk[fcs[j].originalClass] == k;
    var c := fcs[j].originalClass;
    var m :| 0 <= m < |order| && order[m] == c;
    assert xwalk[order[m]] == m;
  }

  lemma ListedIndexHasAList(fcs: seq<FuzzyClass>, order: seq<int>, k: nat)
    requires IsListing(order, OriginalClasses(fcs)) && Translatable(fcs, Crosswalk(order))
    requires k < |order|
    ensures FuzzyListFor(fcs, Crosswalk(order), k) != []
  {
    var xwalk := Crosswalk(order);
    assert order[k] in order;
    var f :| f in fcs && f.originalClass == order[k];
    var j :| 0 <= j < |fcs| && fcs[j] == f;
    assert xwalk[order[k]] == k;
    FuzzyListNonEmpty(fcs, xwalk, k);
  }

  lemma RecordedListsAreExplicit(fcs: seq<FuzzyClass>, order: seq<int>, d: map<nat, seq<nat>>)
    requires IsListing(order, OriginalClasses(fcs)) && Translatable(fcs, Crosswalk(order))
    requires forall k :: k in d <==> FuzzyListFor(fcs, Crosswalk(order), k) != []
    requires forall k :: k in d ==> d[k] == FuzzyListFor(fcs, Crosswalk(order), k)
    ensures d == ExplicitClassifier(fcs, order)
  {
    forall k: nat ensures k in d <==> k < |order| {
      EveryIndexHasAList(fcs, order, k);
    }
    assert d.Keys == ExplicitClassifier(fcs, order).Keys;
  }

  /**
   * Explicit mode: the crosswalk over the listed original classes, the record loop, then
   * one classification per class index. Fails with KeyError exactly when some fuzzy
   * class is not an original class.
   */
  method ExplicitFuzzy(fcs: seq<FuzzyClass>, order: seq<int>) returns (r: Result<FuzzySetup>)
    requires IsListing(order, OriginalClasses(fcs))
    ensures r.Success? <==> FuzzyClassesKnown(fcs)
    ensures r.Failure? ==> r.error == KeyError
    ensures r.Success? ==>
      Translatable(fcs, Crosswalk(order)) &&
      r.value == FuzzySetup(ExplicitClassifier(fcs, order), ExplicitCells(fcs, Crosswalk(order)))
  {
    ListingTranslates(fcs, order);
    CrosswalkInvertsListing(order);
    var xwalk := Crosswalk(order);
    assert forall k :: 0 <= k < |fcs| ==> fcs[k].originalClass in xwalk by {
      forall k | 0 <= k < |fcs| ensures fcs[k].originalClass in xwalk {
        assert fcs[k] in fcs;
      }
    }
    var translated := TranslateRecords(fcs, xwalk);
    if translated.Failure? {
      return Failure(translated.error);
    }
    var (d, cells) := translated.value;
    var clf := Register(d);
    RecordedListsAreExplicit(fcs, order, clf);
    return Success(FuzzySetup(clf, cells));
  }

  // ------------------------------------------------------------ default mode

  /** The fuzzy cells class i contributes in default mode. */
  function NeighbourCells(i: nat, n: nat): seq<(nat, nat)>
  {
    if i == 0 then [(i, i + 1)]
    else if i == n - 1 then [(i, i - 1)]
    else [(i, i - 1), (i, i + 1)]
  }

  /** The default-mode fuzzy cells of classes 0..i-1. */
  function DefaultCellsUpTo(i: nat, n: nat): seq<(nat, nat)>
  {
    if i == 0 then [] else DefaultCellsUpTo(i - 1, n) + NeighbourCells(i - 1, n)
  }

  function DefaultCells(n: nat): seq<(nat, nat)>
  {
    DefaultCellsUpTo(n, n)
  }

  lemma {:induction false} DefaultCellsUpToShape(i: nat, n: nat)
    requires 2 <= n && i <= n
    ensures |DefaultCellsUpTo(i, n)| == if i == 0 then 0 else if i == n then 2 * i - 2 else 2 * i - 1
    ensures forall c: nat, r: nat :: (c, r) in DefaultCellsUpTo(i, n) <==> c < i && r < n && (c == r + 1 || r == c + 1)
  {
    DefaultCellsUpToLength(i, n);
    forall c: nat, r: nat
      ensures (c, r) in DefaultCellsUpTo(i, n) <==> c < i && r < n && (c == r + 1 || r == c + 1)
    {
      DefaultCellsUpToMember(i, n, c, r);
    }
  }

  lemma {:induction false} DefaultCellsUpToLength(i: nat, n: nat)
    requires 2 <= n && i <= n
    ensures |DefaultCellsUpTo(i, n)| == if i == 0 then 0 else if i == n then 2 * i - 2 else 2 * i - 1
  {
    if i > 0 {
      DefaultCellsUpToLength(i - 1, n);
    }
  }

  lemma {:induction false} DefaultCellsUpToMember(i: nat, n: nat, c: nat, r: nat)
    requires 2 <= n && i <= n
    ensures (c, r) in DefaultCellsUpTo(i, n) <==> c < i && r < n && (c == r + 1 || r == c + 1)
  {
    if i > 0 {
      DefaultCellsUpToMember(i - 1, n, c, r);
      assert DefaultCellsUpTo(i, n) == DefaultCellsUpTo(i - 1, n) + NeighbourCells(i - 1, n);
    }
  }

  /**
   * With at least two classes the default fuzzy cells are exactly the 2(n-1) ordered
   * pairs of neighbouring classes, that is, the window members other than the class itself.
   */
  lemma DefaultCellsAreNeighbours(n: nat)
    requires n >= 2
    ensures |DefaultCells(n)| == 2 * (n - 1)
    ensures forall c: nat, r: nat :: (c, r) in DefaultCells(n) <==> c < n && r < n && (c == r + 1 || r == c + 1)
    ensures forall c: nat, r: nat :: (c, r) in DefaultCells(n) <==> c < n && c != r && r in Window(c, n)
  {
    DefaultCellsUpToShape(n, n);
    forall c: nat | c < n ensures forall r: nat :: r in Window(c, n) <==> r < n && (r == c || r + 1 == c || r == c + 1) {
      WindowShape(c, n);
    }
  }

  /** The default-mode loop: one ±1 window per class, and its neighbour cells appended in order. */
  method DefaultFuzzy(n: nat) returns (setup: FuzzySetup)
    ensures setup == FuzzySetup(WindowClassifier(n), DefaultCells(n))
  {
    var clf: Classifier := map[];
    var cells: seq<(nat, nat)> := [];
    for i := 0 to n
      invariant clf == map k | 0 <= k < i :: Window(k, n)
      invariant cells == DefaultCellsUpTo(i, n)
    {
      if i == 0 {
        clf := clf[i := [i, i + 1]];
        cells := cells + [(i, i + 1)];
      } else if i == n - 1 {
        clf := clf[i := [i - 1, i]];
        cells := cells + [(i, i - 1)];
      } else {
        clf := clf[i := [i - 1, i, i + 1]];
        cells := cells + [(i, i - 1)];
        cells := cells + [(i, i + 1)];
      }
    }
    setup := FuzzySetup(clf, cells);
  }

  // ------------------------------------------------------------ shading

  function LightCells(cells: seq<(nat, nat)>): (cmds: seq<Command>)
    ensures |cmds| == |cells|
  {
    seq(|cells|, k requires 0 <= k < |cells| => Background((cells[k].0 + 2, cells[k].1 + 2), LIGHT))
  }

  /**
   * The commands build_error_matrix adds: the class diagonal dark, each fuzzy cell (c, r)
   * light at (c+2, r+2), then the overall-correct corner (-2,-2) dark and the
   * overall-fuzzy corner (-1,-1) light.
   */
  function CategoricalShading(n: nat, cells: seq<(nat, nat)>): seq<Command>
  {
    AttributeAccuracy.DarkCommands(n) + LightCells(cells)
      + [Background((-2, -2), DARK), Background((-1, -1), LIGHT)]
  }

  method ShadeCategorical(ts: TableStyle, n: nat, cells: seq<(nat, nat)>)
    modifies ts
    ensures ts.commands == old(ts.commands) + CategoricalShading(n, cells)
  {
    ghost var base := ts.commands;
    for i := 2 to n + 2
      invariant ts.commands == base + AttributeAccuracy.DarkCommands(i - 2)
    {
      ts.Add(Background((i, i), DARK));
      assert AttributeAccuracy.DarkCommands(i - 1) == AttributeAccuracy.DarkCommands(i - 2) + [Background((i, i), DARK)];
    }
    for k := 0 to |cells|
      invariant ts.commands == base + AttributeAccuracy.DarkCommands(n) + LightCells(cells[..k])
    {
      var (c, r) := cells[k];
      var cell := (c + 2, r + 2);
      ts.Add(Background(cell, LIGHT));
      assert LightCells(cells[..k + 1]) == LightCells(cells[..k]) + [Background(cell, LIGHT)];
    }
    assert cells[..|cells|] == cells;
    ts.Add(Background((-2, -2), DARK));
    ts.Add(Background((-1, -1), LIGHT));
  }

  /** A style cell index counted from the end when negative, as the table resolves it. */
  function Resolve(cell: (int, int), size: nat): (int, int)
  {
    (if cell.0 < 0 then size + cell.0 else cell.0, if cell.1 < 0 then size + cell.1 else cell.1)
  }

  /**
   * Every light cell within the table lies on a fuzzy pair: (c, r) is light exactly when
   * (c-2, r-2) is one of the fuzzy cells, and then c != r, so no class cell is both
   * dark and light. The two corner commands resolve to the overall-percent cells.
   */
  lemma CategoricalShadingCells(n: nat, cells: seq<(nat, nat)>, c: int, r: int)
    requires forall p :: p in cells ==> p.0 != p.1
    requires 0 <= c && 0 <= r
    ensures Background((c, r), DARK) in CategoricalShading(n, cells) <==> 2 <= c <= n + 1 && c == r
    ensures Background((c, r), LIGHT) in CategoricalShading(n, cells) <==> 2 <= c && 2 <= r && (c - 2, r - 2) in cells
    ensures Background((c, r), LIGHT) in CategoricalShading(n, cells) ==> c != r
    ensures Resolve((-2, -2), n + 5) == (n + 3, n + 3) && Resolve((-1, -1), n + 5) == (n + 4, n + 4)
  {
    var shading := CategoricalShading(n, cells);
    var dark := AttributeAccuracy.DarkCommands(n);
    if 2 <= c <= n + 1 && c == r {
      assert shading[c - 2] == Background((c, r), DARK);
    }
    if Background((c, r), DARK) in shading {
      var p :| 0 <= p < |shading| && shading[p] == Background((c, r), DARK);
      assert p < n;
    }
    if 2 <= c && 2 <= r && (c - 2, r - 2) in cells {
      var k :| 0 <= k < |cells| && cells[k] == (c - 2, r - 2);
      assert shading[n + k] == Background((c, r), LIGHT);
    }
    if Background((c, r), LIGHT) in shading {
      var p :| 0 <= p < |shading| && shading[p] == Background((c, r), LIGHT);
      assert n <= p < n + |cells|;
      assert cells[p - n] in cells;
    }
  }

  /**
   * In default mode the shading of the class block agrees with the continuous page's:
   * the same dark diagonal and the same light neighbours.
   */
  lemma DefaultShadingMatchesContinuous(n: nat, c: int, r: int)
    requires n >= 2 && 0 <= c && 0 <= r
    ensures Background((c, r), DARK) in CategoricalShading(n, DefaultCells(n)) <==>
            Background((c, r), DARK) in AttributeAccuracy.ContinuousShading(n)
    ensures Background((c, r), LIGHT) in CategoricalShading(n, DefaultCells(n)) <==>
            Background((c, r), LIGHT) in AttributeAccuracy.ContinuousShading(n)
  {
    DefaultCellsAreNeighbours(n);
    CategoricalShadingCells(n, DefaultCells(n), c, r);
    AttributeAccuracy.ContinuousShadingCells(n, c, r);
  }

  /**
   * In explicit mode every light class cell (column c, row r) lies off the diagonal and
   * its row's class is in the fuzzy list of its column's class: a cell that the column's
   * fuzzy-correct sum counts but the strict count does not.
   */
  lemma ExplicitShadingIsFuzzy(n: nat, fcs: seq<FuzzyClass>, order: seq<int>, c: int, r: int)
    requires IsListing(order, OriginalClasses(fcs)) && Translatable(fcs, Crosswalk(order))
    requires 0 <= c && 0 <= r
    requires Background((c, r), LIGHT) in CategoricalShading(n, ExplicitCells(fcs, Crosswalk(order)))
    ensures 2 <= c && 2 <= r && c != r
    ensures c - 2 < |order| && r - 2 in ExplicitClassifier(fcs, order)[c - 2]
  {
    var xwalk := Crosswalk(order);
    var cells := ExplicitCells(fcs, xwalk);
    CategoricalShadingCells(n, cells, c, r);
    assert (c - 2, r - 2) in cells;
    ExplicitCellsAreFuzzy(fcs, xwalk, c - 2, r - 2);
    EveryIndexHasAList(fcs, order, c - 2);
    ExplicitClassifierAt(fcs, order, c - 2);
  }

  lemma ExplicitClassifierAt(fcs: seq<FuzzyClass>, order: seq<int>, k: nat)
    requires forall a, b :: 0 <= a < b < |order| ==> order[a] != order[b]
    requires Translatable(fcs, Crosswalk(order)) && k < |order|
    ensures k in ExplicitClassifier(fcs, order) && ExplicitClassifier(fcs, order)[k] == FuzzyListFor(fcs, Crosswalk(order), k)
  {
  }

  // ------------------------------------------------------------ the error matrix

  /** The fuzzy set-up of an attribute: explicit when it lists fuzzy classes, default otherwise. */
  function SetupFor(attr: Attribute, order: seq<int>): Result<FuzzySetup>
    requires |attr.fuzzyClasses| > 0 ==> IsListing(order, OriginalClasses(attr.fuzzyClasses))
  {
    var fcs := attr.fuzzyClasses;
    var n := |attr.codes|;
    if |fcs| > 0 then
      ListingTranslates(fcs, order);
      if FuzzyClassesKnown(fcs) then
        Success(FuzzySetup(ExplicitClassifier(fcs, order), ExplicitCells(fcs, Crosswalk(order))))
      else Failure(KeyError)
    else Success(FuzzySetup(WindowClassifier(n), DefaultCells(n)))
  }

  /**
   * build_error_matrix for a categorical attribute: categories 1..len(codes) labelled
   * with the code labels, the fuzzy set-up, the grid, then the base style plus the shading.
   * It fails with KeyError on an untranslatable fuzzy class or a class with no fuzzy
   * list, and with IndexError on a fuzzy index past the matrix.
   */
  method BuildErrorMatrix(records: seq<CountRecord>, attr: Attribute, order: seq<int>, baseStyle: seq<Command>)
    returns (r: Result<AttributeAccuracy.ErrorTable>)
    requires |attr.fuzzyClasses| > 0 ==> IsListing(order, OriginalClasses(attr.fuzzyClasses))
    ensures var setup := SetupFor(attr, order);
      var m := CrossTab(records, attr.fieldName, |attr.codes|);
      r.Success? <==> setup.Success? && FuzzyDefined(m, setup.value.classifier)
    ensures r.Failure? ==> r.error == KeyError || r.error == IndexError
    ensures var setup := SetupFor(attr, order);
      var n := |attr.codes|;
      r.Success? ==>
        r.value.grid == Grid(CodeLabels(attr), CrossTab(records, attr.fieldName, n), setup.value.classifier) &&
        r.value.style == baseStyle + CategoricalShading(n, setup.value.cells)
  {
    var n := |attr.codes|;
    var labels := CodeLabels(attr);
    var m := CrossTab(records, attr.fieldName, n);
    var setup: FuzzySetup;
    if |attr.fuzzyClasses| > 0 {
      var explicit := ExplicitFuzzy(attr.fuzzyClasses, order);
      if explicit.Failure? {
        return Failure(explicit.error);
      }
      setup := explicit.value;
    } else {
      setup := DefaultFuzzy(n);
    }
    var grid := BuildGrid(labels, m, setup.classifier);
    if grid.Failure? {
      return Failure(grid.error);
    }
    var ts := new TableStyle(baseStyle);
    ShadeCategorical(ts, n, setup.cells);
    return Success(AttributeAccuracy.ErrorTable(grid.value, ts.commands));
  }

  /** Without explicit fuzzy classes the matrix is built for every number of codes but one. */
  lemma DefaultModeBuildsUnlessOneCode(records: seq<CountRecord>, attr: Attribute, order: seq<int>)
    requires |attr.fuzzyClasses| == 0
    ensures var m := CrossTab(records, attr.fieldName, |attr.codes|);
      SetupFor(attr, order).Success? && (FuzzyDefined(m, SetupFor(attr, order).value.classifier) <==> |attr.codes| != 1)
  {
    WindowDefinedIff(CrossTab(records, attr.fieldName, |attr.codes|));
  }
}
