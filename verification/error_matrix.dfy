/**
 * The binned error (confusion) matrix shared by the continuous and the categorical
 * accuracy pages: the cross-tabulated counts with their margins, strict and fuzzy
 * percent correct per class and overall, and the labelled (n+5) x (n+5) grid the
 * page shows.
 *
 * Counts are naturals; percentages are exact reals. `Counts` m is indexed
 * m[observed][predicted], classes 0..n-1 standing for categories 1..n.
 */
module ErrorMatrix {
  import opened Wrappers

  type Counts = seq<seq<nat>>

  /** One record of the error-matrix file: VARIABLE, OBSERVED_CLASS, PREDICTED_CLASS, COUNT. */
  datatype CountRecord = CountRecord(variable: string, observedClass: int, predictedClass: int, count: nat)

  /** A cell of the error-matrix grid before it is turned into a paragraph. */
  datatype Cell = Blank | Label(text: string) | Count(n: nat) | Pct(value: real) | NaN

  /** The fuzzy classes registered for each class index (the classifier's lookup). */
  type Classifier = map<nat, seq<nat>>

  predicate IsSquare(m: Counts)
  {
    forall i :: 0 <= i < |m| ==> |m[i]| == |m|
  }

  // ---------------------------------------------------------------- sums

  function Sum(s: seq<nat>): nat
  {
    if s == [] then 0 else Sum(s[..|s| - 1]) + s[|s| - 1]
  }

  lemma {:induction false} SumAppend(a: seq<nat>, b: seq<nat>)
    ensures Sum(a + b) == Sum(a) + Sum(b)
    decreases |b|
  {
    if b != [] {
      assert (a + b)[..|a + b| - 1] == a + b[..|b| - 1];
      SumAppend(a, b[..|b| - 1]);
    } else {
      assert a + b == a;
    }
  }

  lemma {:induction false} ElementAtMostSum(s: seq<nat>, k: nat)
    requires k < |s|
    ensures s[k] <= Sum(s)
    decreases |s|
  {
    if k < |s| - 1 {
      ElementAtMostSum(s[..|s| - 1], k);
    }
  }

  /** Sum of the element-wise sum of two equally long sequences. */
  lemma {:induction false} SumPointwise(a: seq<nat>, b: seq<nat>, c: seq<nat>)
    requires |a| == |b| == |c|
    requires forall k :: 0 <= k < |c| ==> c[k] == a[k] + b[k]
    ensures Sum(c) == Sum(a) + Sum(b)
    decreases |c|
  {
    if c != [] {
      var l := |c| - 1;
      SumPointwise(a[..l], b[..l], c[..l]);
    }
  }

  // ------------------------------------------------------ cross-tabulation

  /** Total COUNT of the records of `variable` observed in category `obs` and predicted in category `prd`. */
  function CellCount(records: seq<CountRecord>, variable: string, obs: int, prd: int): nat
  {
    if records == [] then 0
    else
      var last := records[|records| - 1];
      CellCount(records[..|records| - 1], variable, obs, prd)
        + (if last.variable == variable && last.observedClass == obs && last.predictedClass == prd
           then last.count else 0)
  }

  /**
   * The count matrix over categories 1..n: every category gets a row and a column,
   * also when no record mentions it, and records of other variables or of
   * categories outside 1..n contribute nothing.
   */
  function CrossTab(records: seq<CountRecord>, variable: string, n: nat): (m: Counts)
    ensures |m| == n && IsSquare(m)
  {
    seq(n, i requires 0 <= i < n => CrossTabRow(records, variable, i + 1, n))
  }

  function CrossTabRow(records: seq<CountRecord>, variable: string, obs: int, n: nat): (row: seq<nat>)
    ensures |row| == n
  {
    seq(n, j requires 0 <= j < n => CellCount(records, variable, obs, j + 1))
  }

  // ------------------------------------------------------------ margins

  function Column(m: Counts, j: nat): (c: seq<nat>)
    requires forall k :: 0 <= k < |m| ==> j < |m[k]|
    ensures |c| == |m|
  {
    seq(|m|, k requires 0 <= k < |m| => m[k][j])
  }

  /** Total of observed class i (its row). */
  function RowTotal(m: Counts, i: nat): nat
    requires i < |m|
  {
    Sum(m[i])
  }

  /** Total of predicted class j (its column). */
  function ColTotal(m: Counts, j: nat): nat
    requires forall k :: 0 <= k < |m| ==> j < |m[k]|
  {
    Sum(Column(m, j))
  }

  function RowTotals(m: Counts): (t: seq<nat>)
    ensures |t| == |m|
  {
    seq(|m|, i requires 0 <= i < |m| => Sum(m[i]))
  }

  function ColTotals(m: Counts, w: nat): (t: seq<nat>)
    requires forall k :: 0 <= k < |m| ==> |m[k]| == w
    ensures |t| == w
  {
    seq(w, j requires 0 <= j < w => ColTotal(m, j))
  }

  function GrandTotal(m: Counts): nat
  {
    Sum(RowTotals(m))
  }

  function Diagonal(m: Counts): (d: seq<nat>)
    requires IsSquare(m)
    ensures |d| == |m|
  {
    seq(|m|, i requires 0 <= i < |m| => m[i][i])
  }

  function Trace(m: Counts): nat
    requires IsSquare(m)
  {
    Sum(Diagonal(m))
  }

  /** Adding up the column totals gives the same grand total as adding up the row totals. */
  lemma {:induction false} ColumnTotalsSumToGrandTotal(m: Counts, w: nat)
    requires forall k :: 0 <= k < |m| ==> |m[k]| == w
    ensures Sum(ColTotals(m, w)) == GrandTotal(m)
    decreases |m|
  {
    if m == [] {
      assert ColTotals(m, w) == seq(w, j => 0);
      ZeroSum(w);
    } else {
      var l := |m| - 1;
      var init := m[..l];
      ColumnTotalsSumToGrandTotal(init, w);
      forall j | 0 <= j < w
        ensures ColTotals(m, w)[j] == ColTotals(init, w)[j] + m[l][j]
      {
        assert Column(m, j)[..l] == Column(init, j);
      }
      SumPointwise(ColTotals(init, w), m[l], ColTotals(m, w));
      assert RowTotals(m)[..l] == RowTotals(init);
    }
  }

  lemma {:induction false} ZeroSum(w: nat)
    ensures Sum(seq(w, j => 0)) == 0
  {
    if w > 0 {
      assert seq(w, j => 0)[..w - 1] == seq(w - 1, j => 0);
      ZeroSum(w - 1);
    }
  }

  /**
   * The counts with margins: the n x n counts, each row followed by its row total,
   * and a last row of column totals ending in the grand total.
   */
  function WithMargins(m: Counts): (t: Counts)
    requires IsSquare(m)
    ensures |t| == |m| + 1 && IsSquare(t)
  {
    seq(|m| + 1, i requires 0 <= i <= |m| =>
      if i < |m| then m[i] + [Sum(m[i])] else ColTotals(m, |m|) + [GrandTotal(m)])
  }

  /**
   * The margins hold what their labels say: the last column holds each observed
   * class's total, the last row each predicted class's total, and the corner is
   * both the sum of the row totals and the sum of the column totals.
   */
  lemma MarginsHoldTotals(m: Counts)
    requires IsSquare(m)
    ensures forall i, j :: 0 <= i < |m| && 0 <= j < |m| ==> WithMargins(m)[i][j] == m[i][j]
    ensures forall i :: 0 <= i < |m| ==> WithMargins(m)[i][|m|] == RowTotal(m, i)
    ensures forall j :: 0 <= j < |m| ==> WithMargins(m)[|m|][j] == ColTotal(m, j)
    ensures WithMargins(m)[|m|][|m|] == Sum(RowTotals(m)) == Sum(ColTotals(m, |m|))
  {
    ColumnTotalsSumToGrandTotal(m, |m|);
  }

  // --------------------------------------------------------- percentages

  /** A percentage guarded against a zero denominator, which gives 0. */
  function Percent(num: int, den: int): (p: real)
    ensures den == 0 ==> p == 0.0
    ensures 0 <= num <= den ==> 0.0 <= p <= 100.0
  {
    if den == 0 then 0.0
    else
      var q := num as real / den as real;
      assert 0 <= num <= den ==> q <= 1.0 by {
        if 0 <= num <= den {
          assert q * den as real == num as real;
        }
      }
      q * 100.0
  }

  lemma PercentMonotone(a: int, b: int, den: int)
    requires a <= b && 0 <= den
    ensures Percent(a, den) <= Percent(b, den)
  {
    if den != 0 {
      assert a as real / den as real <= b as real / den as real by {
        assert a as real <= b as real;
      }
    }
  }

  /** Strict % correct of observed class i: diagonal over row total (the "% correct" column). */
  function RowStrict(m: Counts, i: nat): (p: real)
    requires IsSquare(m) && i < |m|
    ensures 0.0 <= p <= 100.0
    ensures RowTotal(m, i) == 0 ==> p == 0.0
  {
    ElementAtMostSum(m[i], i);
    Percent(m[i][i], RowTotal(m, i))
  }

  /** Strict % correct of predicted class j: diagonal over column total (the "% correct" row). */
  function ColStrict(m: Counts, j: nat): (p: real)
    requires IsSquare(m) && j < |m|
    ensures 0.0 <= p <= 100.0
    ensures ColTotal(m, j) == 0 ==> p == 0.0
  {
    ElementAtMostSum(Column(m, j), j);
    Percent(m[j][j], ColTotal(m, j))
  }

  /** Overall strict % correct: trace over the sum of the column totals, with no guard for zero. */
  function OverallStrict(m: Counts): Cell
    requires IsSquare(m)
  {
    var total := Sum(ColTotals(m, |m|));
    if total == 0 then NaN else Pct(Percent(Trace(m), total))
  }

  lemma {:induction false} TraceAtMostGrandTotal(m: Counts, k: nat)
    requires IsSquare(m) && k <= |m|
    ensures Sum(Diagonal(m)[..k]) <= Sum(RowTotals(m)[..k])
  {
    if k > 0 {
      TraceAtMostGrandTotal(m, k - 1);
      assert Diagonal(m)[..k][..k - 1] == Diagonal(m)[..k - 1];
      assert RowTotals(m)[..k][..k - 1] == RowTotals(m)[..k - 1];
      ElementAtMostSum(m[k - 1], k - 1);
    }
  }

  /**
   * The overall strict cell is NaN exactly when the grand total is zero, and is
   * otherwise trace / grand total * 100, a percentage in [0, 100].
   */
  lemma OverallStrictValue(m: Counts)
    requires IsSquare(m)
    ensures OverallStrict(m).NaN? <==> GrandTotal(m) == 0
    ensures GrandTotal(m) > 0 ==>
      OverallStrict(m) == Pct(Percent(Trace(m), GrandTotal(m))) &&
      0.0 <= OverallStrict(m).value <= 100.0
  {
    ColumnTotalsSumToGrandTotal(m, |m|);
    TraceAtMostGrandTotal(m, |m|);
    assert Diagonal(m)[..|m|] == Diagonal(m);
    assert RowTotals(m)[..|m|] == RowTotals(m);
  }

  // ------------------------------------------------------- fuzzy classes

  predicate InRange(idx: seq<nat>, n: nat)
  {
    forall k :: 0 <= k < |idx| ==> idx[k] < n
  }

  predicate Distinct(idx: seq<nat>)
  {
    forall a, b :: 0 <= a < b < |idx| ==> idx[a] != idx[b]
  }

  /** Classes 0..k-1 all have a registered fuzzy list whose indices fit the matrix. */
  predicate DefinedBelow(m: Counts, clf: Classifier, k: nat)
  {
    forall i :: 0 <= i < k ==> i in clf && InRange(clf[i], |m|)
  }

  predicate FuzzyDefined(m: Counts, clf: Classifier)
  {
    DefinedBelow(m, clf, |m|)
  }

  /** The exception looking up and indexing class i's fuzzy list raises, if any. */
  function ClassFailure(m: Counts, clf: Classifier, i: nat): Option<Error>
  {
    if i !in clf then Some(KeyError) else if !InRange(clf[i], |m|) then Some(IndexError) else None
  }

  /** `s[idx].sum()` with numpy fancy indexing: a repeated index is counted again. */
  function SumAt(s: seq<nat>, idx: seq<nat>): nat
    requires InRange(idx, |s|)
  {
    if idx == [] then 0 else SumAt(s, idx[..|idx| - 1]) + s[idx[|idx| - 1]]
  }

  lemma {:induction false} SumAtAppend(s: seq<nat>, a: seq<nat>, b: seq<nat>)
    requires InRange(a, |s|) && InRange(b, |s|)
    ensures InRange(a + b, |s|)
    ensures SumAt(s, a + b) == SumAt(s, a) + SumAt(s, b)
    decreases |b|
  {
    if b == [] {
      assert a + b == a;
    } else {
      assert (a + b)[..|a + b| - 1] == a + b[..|b| - 1];
      SumAtAppend(s, a, b[..|b| - 1]);
    }
  }

  /** Each listed cell is part of the fuzzy sum. */
  lemma SumAtAtLeastMember(s: seq<nat>, idx: seq<nat>, p: nat)
    requires InRange(idx, |s|) && p < |idx|
    ensures s[idx[p]] <= SumAt(s, idx)
  {
    assert idx == idx[..p] + [idx[p]] + idx[p + 1..];
    SumAtAppend(s, idx[..p] + [idx[p]], idx[p + 1..]);
    SumAtAppend(s, idx[..p], [idx[p]]);
  }

  lemma {:induction false} SumAtPrefix(s: seq<nat>, t: seq<nat>, idx: seq<nat>)
    requires |t| <= |s| && InRange(idx, |t|)
    requires forall k :: 0 <= k < |t| ==> t[k] == s[k]
    ensures SumAt(s, idx) == SumAt(t, idx)
    decreases |idx|
  {
    if idx != [] {
      SumAtPrefix(s, t, idx[..|idx| - 1]);
    }
  }

  /** Deleting position p of an index list takes its cell out of the fuzzy sum. */
  lemma SumAtDelete(s: seq<nat>, idx: seq<nat>, p: nat)
    requires InRange(idx, |s|) && p < |idx|
    ensures InRange(idx[..p] + idx[p + 1..], |s|)
    ensures SumAt(s, idx) == SumAt(s, idx[..p] + idx[p + 1..]) + s[idx[p]]
  {
    var before, after := idx[..p], idx[p + 1..];
    assert idx == before + [idx[p]] + after;
    SumAtAppend(s, before + [idx[p]], after);
    SumAtAppend(s, before, [idx[p]]);
    SumAtAppend(s, before, after);
  }

  /** Deleting the one occurrence of l from a duplicate-free list below l + 1 leaves one below l. */
  lemma DeleteKeepsDistinct(idx: seq<nat>, p: nat, l: nat)
    requires InRange(idx, l + 1) && Distinct(idx) && p < |idx| && idx[p] == l
    ensures InRange(idx[..p] + idx[p + 1..], l) && Distinct(idx[..p] + idx[p + 1..])
  {
    var rest := idx[..p] + idx[p + 1..];
    assert |rest| == |idx| - 1;
    assert forall k :: 0 <= k < p ==> rest[k] == idx[k];
    assert forall k :: p <= k < |rest| ==> rest[k] == idx[k + 1];
    forall k | 0 <= k < |rest| ensures rest[k] < l {
      var k' := if k < p then k else k + 1;
      assert rest[k] == idx[k'] && k' != p;
    }
    forall a, b | 0 <= a < b < |rest| ensures rest[a] != rest[b] {
      var a' := if a < p then a else a + 1;
      var b' := if b < p then b else b + 1;
      assert rest[a] == idx[a'] && rest[b] == idx[b'] && a' < b';
    }
  }

  /** Summing over duplicate-free indices never exceeds the whole sum. */
  lemma {:induction false} SumAtDistinctAtMostSum(s: seq<nat>, idx: seq<nat>)
    requires InRange(idx, |s|) && Distinct(idx)
    ensures SumAt(s, idx) <= Sum(s)
    decreases |s|
  {
    assert idx != [] ==> idx[0] < |s|;
    if s != [] {
      var l := |s| - 1;
      var init := s[..l];
      assert forall k :: 0 <= k < l ==> init[k] == s[k];
      if l in idx {
        var p :| 0 <= p < |idx| && idx[p] == l;
        var rest := idx[..p] + idx[p + 1..];
        SumAtDelete(s, idx, p);
        DeleteKeepsDistinct(idx, p, l);
        SumAtPrefix(s, init, rest);
        SumAtDistinctAtMostSum(init, rest);
      } else {
        assert InRange(idx, l) by {
          forall k | 0 <= k < |idx| ensures idx[k] < l {
            assert idx[k] != l;
          }
        }
        SumAtPrefix(s, init, idx);
        SumAtDistinctAtMostSum(init, idx);
      }
    }
  }

  /** Fuzzy-correct count of observed class i: its row summed over its fuzzy classes. */
  function RowFuzzy(m: Counts, clf: Classifier, i: nat): nat
    requires IsSquare(m) && i < |m| && i in clf && InRange(clf[i], |m|)
  {
    SumAt(m[i], clf[i])
  }

  /** Fuzzy-correct count of predicted class j: its column summed over j's fuzzy classes. */
  function ColFuzzy(m: Counts, clf: Classifier, j: nat): nat
    requires IsSquare(m) && j < |m| && j in clf && InRange(clf[j], |m|)
  {
    SumAt(Column(m, j), clf[j])
  }

  /** The running `incorrect` total after classes 0..k-1: row total minus row fuzzy-correct. */
  function Incorrect(m: Counts, clf: Classifier, k: nat): int
    requires IsSquare(m) && k <= |m| && DefinedBelow(m, clf, k)
  {
    if k == 0 then 0 else Incorrect(m, clf, k - 1) + (RowTotal(m, k - 1) - RowFuzzy(m, clf, k - 1))
  }

  /** Fuzzy-correct counts of classes 0..k-1 added up. */
  function FuzzyCorrectTotal(m: Counts, clf: Classifier, k: nat): nat
    requires IsSquare(m) && k <= |m| && DefinedBelow(m, clf, k)
  {
    if k == 0 then 0 else FuzzyCorrectTotal(m, clf, k - 1) + RowFuzzy(m, clf, k - 1)
  }

  function RowFuzzyPct(m: Counts, clf: Classifier, i: nat): real
    requires IsSquare(m) && i < |m| && i in clf && InRange(clf[i], |m|)
  {
    Percent(RowFuzzy(m, clf, i), RowTotal(m, i))
  }

  function ColFuzzyPct(m: Counts, clf: Classifier, j: nat): real
    requires IsSquare(m) && j < |m| && j in clf && InRange(clf[j], |m|)
  {
    Percent(ColFuzzy(m, clf, j), ColTotal(m, j))
  }

  /** Overall fuzzy % correct: (total - incorrect) / total * 100, and 0 for a zero total. */
  function OverallFuzzy(m: Counts, clf: Classifier): real
    requires IsSquare(m) && FuzzyDefined(m, clf)
  {
    Percent(GrandTotal(m) - Incorrect(m, clf, |m|), GrandTotal(m))
  }

  /** What is left after subtracting the incorrect total is exactly the fuzzy-correct counts added up. */
  lemma {:induction false} IncorrectIsComplement(m: Counts, clf: Classifier, k: nat)
    requires IsSquare(m) && k <= |m| && DefinedBelow(m, clf, k)
    ensures Sum(RowTotals(m)[..k]) - Incorrect(m, clf, k) == FuzzyCorrectTotal(m, clf, k)
  {
    if k > 0 {
      IncorrectIsComplement(m, clf, k - 1);
      assert RowTotals(m)[..k][..k - 1] == RowTotals(m)[..k - 1];
    }
  }

  /** Fuzzy sets that contain their own class and list each class once. */
  predicate WellFormed(m: Counts, clf: Classifier)
  {
    forall i :: 0 <= i < |m| ==> i in clf && InRange(clf[i], |m|) && i in clf[i] && Distinct(clf[i])
  }

  /**
   * For each class the fuzzy-correct count lies between the diagonal count and the
   * class total, for rows and for columns alike.
   */
  lemma FuzzyBetweenDiagonalAndTotal(m: Counts, clf: Classifier, i: nat)
    requires IsSquare(m) && WellFormed(m, clf) && i < |m|
    ensures m[i][i] <= RowFuzzy(m, clf, i) <= RowTotal(m, i)
    ensures m[i][i] <= ColFuzzy(m, clf, i) <= ColTotal(m, i)
  {
    var p :| 0 <= p < |clf[i]| && clf[i][p] == i;
    SumAtAtLeastMember(m[i], clf[i], p);
    SumAtAtLeastMember(Column(m, i), clf[i], p);
    SumAtDistinctAtMostSum(m[i], clf[i]);
    SumAtDistinctAtMostSum(Column(m, i), clf[i]);
  }

  /** Per class, fuzzy % correct is never below strict % correct, and both are percentages. */
  lemma FuzzyAtLeastStrict(m: Counts, clf: Classifier, i: nat)
    requires IsSquare(m) && WellFormed(m, clf) && i < |m|
    ensures RowStrict(m, i) <= RowFuzzyPct(m, clf, i) <= 100.0
    ensures ColStrict(m, i) <= ColFuzzyPct(m, clf, i) <= 100.0
  {
    FuzzyBetweenDiagonalAndTotal(m, clf, i);
    PercentMonotone(m[i][i], RowFuzzy(m, clf, i), RowTotal(m, i));
    PercentMonotone(m[i][i], ColFuzzy(m, clf, i), ColTotal(m, i));
  }

  lemma {:induction false} FuzzyTotalBetween(m: Counts, clf: Classifier, k: nat)
    requires IsSquare(m) && WellFormed(m, clf) && k <= |m|
    ensures Sum(Diagonal(m)[..k]) <= FuzzyCorrectTotal(m, clf, k) <= Sum(RowTotals(m)[..k])
  {
    if k > 0 {
      FuzzyTotalBetween(m, clf, k - 1);
      FuzzyBetweenDiagonalAndTotal(m, clf, k - 1);
      assert Diagonal(m)[..k][..k - 1] == Diagonal(m)[..k - 1];
      assert RowTotals(m)[..k][..k - 1] == RowTotals(m)[..k - 1];
    }
  }

  /**
   * Overall fuzzy % correct is the fuzzy-correct counts over the grand total; it lies
   * in [0, 100] and, when the grand total is positive, is at least overall strict % correct.
   */
  lemma OverallFuzzyAtLeastStrict(m: Counts, clf: Classifier)
    requires IsSquare(m) && WellFormed(m, clf)
    ensures OverallFuzzy(m, clf) == Percent(FuzzyCorrectTotal(m, clf, |m|), GrandTotal(m))
    ensures 0.0 <= OverallFuzzy(m, clf) <= 100.0
    ensures GrandTotal(m) > 0 ==> OverallStrict(m).Pct? && OverallStrict(m).value <= OverallFuzzy(m, clf)
  {
    IncorrectIsComplement(m, clf, |m|);
    FuzzyTotalBetween(m, clf, |m|);
    assert RowTotals(m)[..|m|] == RowTotals(m);
    assert Diagonal(m)[..|m|] == Diagonal(m);
    OverallStrictValue(m);
    PercentMonotone(Trace(m), FuzzyCorrectTotal(m, clf, |m|), GrandTotal(m));
  }

  // --------------------------------------------------------- ±1 windows

  /** The default fuzzy set of class i among n: a ±1 window clipped at both ends. */
  function Window(i: nat, n: nat): seq<nat>
  {
    if i == 0 then [i, i + 1] else if i == n - 1 then [i - 1, i] else [i - 1, i, i + 1]
  }

  function WindowClassifier(n: nat): Classifier
  {
    map i | 0 <= i < n :: Window(i, n)
  }

  /**
   * A window contains its own class once and lists no class twice; with at least two
   * classes it stays in range and holds exactly the classes at distance at most one.
   */
  lemma WindowShape(i: nat, n: nat)
    requires i < n
    ensures i in Window(i, n) && Distinct(Window(i, n))
    ensures n >= 2 ==> InRange(Window(i, n), n)
    ensures n >= 2 ==> forall k: nat :: k in Window(i, n) <==> k < n && (k == i || k + 1 == i || k == i + 1)
  {
    if i == 0 {
      assert Window(i, n) == [0, 1];
    } else if i == n - 1 {
      assert Window(i, n) == [i - 1, i];
    } else {
      assert Window(i, n) == [i - 1, i, i + 1];
    }
  }

  /** The windows fit the matrix for every size except a single class, where [0, 1] overruns it. */
  lemma WindowDefinedIff(m: Counts)
    requires IsSquare(m)
    ensures FuzzyDefined(m, WindowClassifier(|m|)) <==> |m| != 1
    ensures |m| != 1 ==> WellFormed(m, WindowClassifier(|m|))
  {
    var clf := WindowClassifier(|m|);
    if |m| == 1 {
      assert clf[0] == [0, 1];
      assert clf[0][1] == 1;
    } else {
      forall i | 0 <= i < |m| ensures i in clf && InRange(clf[i], |m|) && i in clf[i] && Distinct(clf[i]) {
        WindowShape(i, |m|);
      }
    }
  }

  // ------------------------------------------------------------ the loop

  datatype FuzzyTotals = FuzzyTotals(rowCorrect: seq<nat>, colCorrect: seq<nat>, incorrect: int)

  /**
   * The loop over classes that fills `r_correct` and `c_correct` in place and
   * accumulates `incorrect`; it stops at the first class whose fuzzy list is not
   * registered (KeyError) or indexes past the matrix (IndexError).
   */
  method FuzzyCorrect(m: Counts, clf: Classifier) returns (r: Result<FuzzyTotals>)
    requires IsSquare(m)
    ensures r.Success? <==> FuzzyDefined(m, clf)
    ensures r.Failure? ==>
      exists i :: 0 <= i < |m| && DefinedBelow(m, clf, i) && ClassFailure(m, clf, i) == Some(r.error)
    ensures r.Success? ==>
      |r.value.rowCorrect| == |m| && |r.value.colCorrect| == |m| &&
      (forall i :: 0 <= i < |m| ==>
        r.value.rowCorrect[i] == RowFuzzy(m, clf, i) && r.value.colCorrect[i] == ColFuzzy(m, clf, i)) &&
      r.value.incorrect == Incorrect(m, clf, |m|)
  {
    var n := |m|;
    var rCorrect := new nat[n];
    var cCorrect := new nat[n];
    var incorrect := 0;
    for i := 0 to n
      invariant DefinedBelow(m, clf, i)
      invariant forall k :: 0 <= k < i ==> rCorrect[k] == RowFuzzy(m, clf, k) && cCorrect[k] == ColFuzzy(m, clf, k)
      invariant incorrect == Incorrect(m, clf, i)
    {
      if i !in clf {
        return Failure(KeyError);
      }
      var fClasses := clf[i];
      if !InRange(fClasses, n) {
        return Failure(IndexError);
      }
      rCorrect[i] := SumAt(m[i], fClasses);
      cCorrect[i] := SumAt(Column(m, i), fClasses);
      incorrect := incorrect + (Sum(m[i]) - rCorrect[i]);
    }
    return Success(FuzzyTotals(rCorrect[..], cCorrect[..], incorrect));
  }

  // ------------------------------------------------------------ the grid

  /** Axis labels: the n class labels, then "Total", "% correct", "% fuzzy correct". */
  function AxisLabels(binLabels: seq<string>): (r: seq<string>)
    ensures |r| == |binLabels| + 3
  {
    binLabels + ["Total", "% correct", "% fuzzy correct"]
  }

  /** The axis titles at (2,0) and (0,2) and the labels along row 1 and column 1. */
  function LabelCell(binLabels: seq<string>, r: nat, c: nat): Cell
  {
    var n := |binLabels|;
    var labels := AxisLabels(binLabels);
    if r == 2 && c == 0 then Label("Observed class")
    else if r == 0 && c == 2 then Label("Predicted class")
    else if r == 1 && 2 <= c < n + 5 then Label(labels[c - 2])
    else if c == 1 && 2 <= r < n + 5 then Label(labels[r - 2])
    else Blank
  }

  /** The labels plus the counts with margins from (2,2) and the strict percentages in row and column n+3. */
  function StrictCell(binLabels: seq<string>, m: Counts, r: nat, c: nat): Cell
    requires IsSquare(m) && |binLabels| == |m|
  {
    var n := |m|;
    if 2 <= r <= n + 2 && 2 <= c <= n + 2 then Count(WithMargins(m)[r - 2][c - 2])
    else if r == n + 3 && 2 <= c <= n + 1 then Pct(ColStrict(m, c - 2))
    else if c == n + 3 && 2 <= r <= n + 1 then Pct(RowStrict(m, r - 2))
    else if r == n + 3 && c == n + 3 then OverallStrict(m)
    else LabelCell(binLabels, r, c)
  }

  /**
   * Cell (r, c) of the (n+5) x (n+5) grid, row first: the strict layer, with the fuzzy
   * percentages in row and column n+4.
   */
  function GridCell(binLabels: seq<string>, m: Counts, clf: Classifier, r: nat, c: nat): Cell
    requires IsSquare(m) && |binLabels| == |m| && FuzzyDefined(m, clf)
  {
    var n := |m|;
    if r == n + 4 && 2 <= c <= n + 1 then Pct(ColFuzzyPct(m, clf, c - 2))
    else if c == n + 4 && 2 <= r <= n + 1 then Pct(RowFuzzyPct(m, clf, r - 2))
    else if r == n + 4 && c == n + 4 then Pct(OverallFuzzy(m, clf))
    else StrictCell(binLabels, m, r, c)
  }

  function Grid(binLabels: seq<string>, m: Counts, clf: Classifier): (g: seq<seq<Cell>>)
    requires IsSquare(m) && |binLabels| == |m| && FuzzyDefined(m, clf)
  {
    seq(|m| + 5, r requires 0 <= r < |m| + 5 =>
      seq(|m| + 5, c requires 0 <= c < |m| + 5 => GridCell(binLabels, m, clf, r, c)))
  }

  /**
   * Every percentage on the grid lies in [0, 100] when the fuzzy sets are well formed;
   * only the overall strict corner can be NaN, and only for a zero grand total.
   */
  lemma GridPercentagesInRange(binLabels: seq<string>, m: Counts, clf: Classifier, r: nat, c: nat)
    requires IsSquare(m) && |binLabels| == |m| && WellFormed(m, clf)
    ensures GridCell(binLabels, m, clf, r, c).Pct? ==> 0.0 <= GridCell(binLabels, m, clf, r, c).value <= 100.0
    ensures GridCell(binLabels, m, clf, r, c).NaN? ==> r == c == |m| + 3 && GrandTotal(m) == 0
  {
    var n := |m|;
    OverallStrictValue(m);
    OverallFuzzyAtLeastStrict(m, clf);
    if r == n + 4 && 2 <= c <= n + 1 {
      FuzzyAtLeastStrict(m, clf, c - 2);
    } else if c == n + 4 && 2 <= r <= n + 1 {
      FuzzyAtLeastStrict(m, clf, r - 2);
    }
  }

  method FillRow(a: array2<Cell>, r: nat, c0: nat, vals: seq<Cell>)
    requires r < a.Length0 && c0 + |vals| <= a.Length1
    modifies a
    ensures forall i, j :: 0 <= i < a.Length0 && 0 <= j < a.Length1 ==>
      a[i, j] == (if i == r && c0 <= j < c0 + |vals| then vals[j - c0] else old(a[i, j]))
  {
    for k := 0 to |vals|
      invariant forall i, j :: 0 <= i < a.Length0 && 0 <= j < a.Length1 ==>
        a[i, j] == (if i == r && c0 <= j < c0 + k then vals[j - c0] else old(a[i, j]))
    {
      a[r, c0 + k] := vals[k];
    }
  }

  method FillColumn(a: array2<Cell>, c: nat, r0: nat, vals: seq<Cell>)
    requires c < a.Length1 && r0 + |vals| <= a.Length0
    modifies a
    ensures forall i, j :: 0 <= i < a.Length0 && 0 <= j < a.Length1 ==>
      a[i, j] == (if j == c && r0 <= i < r0 + |vals| then vals[i - r0] else old(a[i, j]))
  {
    for k := 0 to |vals|
      invariant forall i, j :: 0 <= i < a.Length0 && 0 <= j < a.Length1 ==>
        a[i, j] == (if j == c && r0 <= i < r0 + k then vals[i - r0] else old(a[i, j]))
    {
      a[r0 + k, c] := vals[k];
    }
  }

  /** Slice assignment of the square block `t` (the counts with margins) into the array at (r0, c0). */
  method FillCounts(a: array2<Cell>, r0: nat, c0: nat, t: Counts)
    requires IsSquare(t) && r0 + |t| <= a.Length0 && c0 + |t| <= a.Length1
    modifies a
    ensures forall i, j :: 0 <= i < a.Length0 && 0 <= j < a.Length1 ==>
      a[i, j] == (if r0 <= i < r0 + |t| && c0 <= j < c0 + |t| then Count(t[i - r0][j - c0]) else old(a[i, j]))
  {
    var h := |t|;
    for k := 0 to h
      invariant forall i, j :: 0 <= i < a.Length0 && 0 <= j < a.Length1 ==>
        a[i, j] == (if r0 <= i < r0 + k && c0 <= j < c0 + h then Count(t[i - r0][j - c0]) else old(a[i, j]))
    {
      for l := 0 to h
        invariant forall i, j :: 0 <= i < a.Length0 && 0 <= j < a.Length1 ==>
          a[i, j] == (if (r0 <= i < r0 + k && c0 <= j < c0 + h) || (i == r0 + k && c0 <= j < c0 + l)
                      then Count(t[i - r0][j - c0]) else old(a[i, j]))
      {
        a[r0 + k, c0 + l] := Count(t[k][l]);
      }
    }
  }

  /** `arr.tolist()`: the rows of a two-dimensional array. */
  method ToList(a: array2<Cell>) returns (rows: seq<seq<Cell>>)
    ensures |rows| == a.Length0
    ensures forall i :: 0 <= i < a.Length0 ==> |rows[i]| == a.Length1
    ensures forall i, j :: 0 <= i < a.Length0 && 0 <= j < a.Length1 ==> rows[i][j] == a[i, j]
  {
    rows := [];
    for i := 0 to a.Length0
      invariant |rows| == i
      invariant forall k :: 0 <= k < i ==> |rows[k]| == a.Length1
      invariant forall k, j :: 0 <= k < i && 0 <= j < a.Length1 ==> rows[k][j] == a[k, j]
    {
      var row := seq(a.Length1, j requires 0 <= j < a.Length1 reads a => a[i, j]);
      rows := rows + [row];
    }
  }

  /** A fresh (n+5)×(n+5) grid of empty strings with the axis titles and labels written in. */
  method NewLabelled(binLabels: seq<string>) returns (arr: array2<Cell>)
    ensures fresh(arr) && arr.Length0 == arr.Length1 == |binLabels| + 5
    ensures forall i, j :: 0 <= i < arr.Length0 && 0 <= j < arr.Length1 ==> arr[i, j] == LabelCell(binLabels, i, j)
  {
    var size := |binLabels| + 5;
    arr := new Cell[size, size]((i, j) => Blank);
    arr[2, 0] := Label("Observed class");
    arr[0, 2] := Label("Predicted class");
    var labels := AxisLabels(binLabels);
    var labelCells := seq(|labels|, k requires 0 <= k < |labels| => Label(labels[k]));
    FillRow(arr, 1, 2, labelCells);
    FillColumn(arr, 1, 2, labelCells);
  }

  /** The counts with margins and the strict percentages written over the labelled array. */
  method FillStrict(arr: array2<Cell>, binLabels: seq<string>, m: Counts)
    requires IsSquare(m) && |binLabels| == |m|
    requires arr.Length0 == arr.Length1 == |m| + 5
    requires forall i, j :: 0 <= i < arr.Length0 && 0 <= j < arr.Length1 ==> arr[i, j] == LabelCell(binLabels, i, j)
    modifies arr
    ensures forall i, j :: 0 <= i < arr.Length0 && 0 <= j < arr.Length1 ==> arr[i, j] == StrictCell(binLabels, m, i, j)
  {
    var n := |m|;
    FillCounts(arr, 2, 2, WithMargins(m));
    FillRow(arr, n + 3, 2, seq(n, j requires 0 <= j < n => Pct(ColStrict(m, j))));
    FillColumn(arr, n + 3, 2, seq(n, i requires 0 <= i < n => Pct(RowStrict(m, i))));
    arr[n + 3, n + 3] := OverallStrict(m);
  }

  /** The fuzzy percentages, computed from the fuzzy loop's totals, written over the strict layer. */
  method FillFuzzy(arr: array2<Cell>, binLabels: seq<string>, m: Counts, clf: Classifier, t: FuzzyTotals)
    requires IsSquare(m) && |binLabels| == |m| && FuzzyDefined(m, clf)
    requires |t.rowCorrect| == |m| && |t.colCorrect| == |m| && t.incorrect == Incorrect(m, clf, |m|)
    requires forall i :: 0 <= i < |m| ==> t.rowCorrect[i] == RowFuzzy(m, clf, i) && t.colCorrect[i] == ColFuzzy(m, clf, i)
    requires arr.Length0 == arr.Length1 == |m| + 5
    requires forall i, j :: 0 <= i < arr.Length0 && 0 <= j < arr.Length1 ==> arr[i, j] == StrictCell(binLabels, m, i, j)
    modifies arr
    ensures forall i, j :: 0 <= i < arr.Length0 && 0 <= j < arr.Length1 ==> arr[i, j] == GridCell(binLabels, m, clf, i, j)
  {
    var n := |m|;
    var total := GrandTotal(m);
    FillRow(arr, n + 4, 2, seq(n, j requires 0 <= j < n => Pct(Percent(t.colCorrect[j], ColTotal(m, j)))));
    FillColumn(arr, n + 4, 2, seq(n, i requires 0 <= i < n => Pct(Percent(t.rowCorrect[i], RowTotal(m, i)))));
    arr[n + 4, n + 4] := Pct(Percent(total - t.incorrect, total));
  }

  /**
   * The numeric part of build_error_matrix: the labelled (n+5) x (n+5) array, the counts
   * with margins and strict percentages, the fuzzy loop, the fuzzy percentages, and the
   * rows of the array. Fails exactly when the fuzzy loop fails.
   */
  method BuildGrid(binLabels: seq<string>, m: Counts, clf: Classifier) returns (r: Result<seq<seq<Cell>>>)
    requires IsSquare(m) && |binLabels| == |m|
    ensures r.Success? <==> FuzzyDefined(m, clf)
    ensures r.Failure? ==>
      exists i :: 0 <= i < |m| && DefinedBelow(m, clf, i) && ClassFailure(m, clf, i) == Some(r.error)
    ensures r.Success? ==> r.value == Grid(binLabels, m, clf)
  {
    var arr := NewLabelled(binLabels);
    FillStrict(arr, binLabels, m);
    var totals := FuzzyCorrect(m, clf);
    if totals.Failure? {
      return Failure(totals.error);
    }
    FillFuzzy(arr, binLabels, m, clf, totals.value);
    var rows := ToList(arr);
    assert forall i :: 0 <= i < |m| + 5 ==> rows[i] == Grid(binLabels, m, clf)[i];
    return Success(rows);
  }
}
