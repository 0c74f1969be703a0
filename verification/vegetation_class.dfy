/**
 * The vegetation-class (VEGCLASS) error matrix: its column names, how each cell is
 * formatted, the row and column labels, the column widths, the diagonal and fuzzy
 * shading of its fixed eleven classes, and the code definitions printed below it.
 */
module VegetationClass {
  import opened Wrappers
  import opened Strings
  import opened Layout
  import opened StandMetadata
  import ReportFormatter

  // ------------------------------------------------------------ the matrix file

  /** The number of vegetation classes the matrix file holds. */
  const CLASSES: nat := 11

  /** The names given to the matrix file's columns: OBSERVED, P_1..P_11, then the three summaries. */
  method ColumnNames() returns (names: seq<string>)
    ensures |names| == CLASSES + 4 && names[0] == "OBSERVED"
    ensures forall k :: 1 <= k <= CLASSES ==> names[k] == "P_" + NatToString(k)
    ensures names[CLASSES + 1..] == ["TOTAL", "CORRECT", "FUZZY_CORRECT"]
  {
    names := seq(CLASSES, x requires 0 <= x < CLASSES => "P_" + NatToString(x + 1));
    names := ["OBSERVED"] + names;
    names := names + ["TOTAL", "CORRECT", "FUZZY_CORRECT"];
  }

  /** The fifteen column names are pairwise different. */
  lemma ColumnNamesDistinct(names: seq<string>)
    requires |names| == CLASSES + 4 && names[0] == "OBSERVED"
    requires forall k :: 1 <= k <= CLASSES ==> names[k] == "P_" + NatToString(k)
    requires names[CLASSES + 1..] == ["TOTAL", "CORRECT", "FUZZY_CORRECT"]
    ensures DistinctNames(names)
  {
    forall i, j | 0 <= i < j < |names| ensures names[i] != names[j] {
      if 1 <= i && j <= CLASSES {
        NatToStringInjective(i, j);
        assert names[i][2..] == NatToString(i) && names[j][2..] == NatToString(j);
      } else if i == 0 {
        assert names[i][0] == 'O' && names[j][0] != 'O' by {
          if j > CLASSES { assert names[j] == names[CLASSES + 1..][j - CLASSES - 1]; }
        }
      } else if i <= CLASSES {
        assert names[j] == names[CLASSES + 1..][j - CLASSES - 1];
        assert names[i][0] == 'P' && names[j][0] != 'P';
      } else {
        assert names[i] == names[CLASSES + 1..][i - CLASSES - 1];
        assert names[j] == names[CLASSES + 1..][j - CLASSES - 1];
      }
    }
  }

  /** The position of `name` in `columns`. */
  function IndexOf(columns: seq<string>, name: string): (p: nat)
    requires name in columns
    ensures p < |columns| && columns[p] == name && name !in columns[..p]
  {
    if columns[0] == name then 0 else 1 + IndexOf(columns[1..], name)
  }

  /** No column name occurs twice. */
  predicate DistinctNames(names: seq<string>)
  {
    forall i, j :: 0 <= i < j < |names| ==> names[i] != names[j]
  }

  /** The error matrix as read: column names and one row of values per line. */
  class VegclassFrame {
    var columns: seq<string>
    var rows: seq<seq<real>>

    predicate Valid()
      reads this
    {
      DistinctNames(columns) && forall r :: 0 <= r < |rows| ==> |rows[r]| == |columns|
    }

    constructor (columns: seq<string>, rows: seq<seq<real>>)
      requires DistinctNames(columns)
      requires forall r :: 0 <= r < |rows| ==> |rows[r]| == |columns|
      ensures Valid() && this.columns == columns && this.rows == rows
    {
      this.columns := columns;
      this.rows := rows;
    }

    /** drop(columns=[name], inplace=True): remove the column and its values; KeyError when absent. */
    method Drop(name: string) returns (err: Option<Error>)
      requires Valid()
      modifies this
      ensures Valid()
      ensures name !in old(columns) ==> err == Some(KeyError) && columns == old(columns) && rows == old(rows)
      ensures name in old(columns) ==> err == None && name !in columns
      ensures name in old(columns) ==> columns == old(columns)[..IndexOf(old(columns), name)] + old(columns)[IndexOf(old(columns), name) + 1..]
      ensures |rows| == |old(rows)|
      ensures name in old(columns) ==> forall r :: 0 <= r < |rows| ==>
        rows[r] == old(rows)[r][..IndexOf(old(columns), name)] + old(rows)[r][IndexOf(old(columns), name) + 1..]
    {
      if name !in columns {
        return Some(KeyError);
      }
      var p := IndexOf(columns, name);
      var old_columns := columns;
      columns := columns[..p] + columns[p + 1..];
      assert forall i :: 0 <= i < |columns| ==> columns[i] == old_columns[if i < p then i else i + 1];
      var before := rows;
      rows := seq(|before|, r requires 0 <= r < |before| => before[r][..p] + before[r][p + 1..]);
      return None;
    }
  }

  /** Read the matrix under the column names and drop OBSERVED, leaving the fourteen data columns. */
  method LoadMatrix(lines: seq<seq<real>>) returns (frame: VegclassFrame)
    requires forall r :: 0 <= r < |lines| ==> |lines[r]| == CLASSES + 4
    ensures fresh(frame) && frame.Valid()
    ensures |frame.columns| == CLASSES + 3 && "OBSERVED" !in frame.columns
    ensures forall k :: 0 <= k < CLASSES ==> frame.columns[k] == "P_" + NatToString(k + 1)
    ensures frame.columns[CLASSES..] == ["TOTAL", "CORRECT", "FUZZY_CORRECT"]
    ensures |frame.rows| == |lines| && forall r :: 0 <= r < |lines| ==> frame.rows[r] == lines[r][1..]
  {
    var names := ColumnNames();
    ColumnNamesDistinct(names);
    frame := new VegclassFrame(names, lines);
    assert names[0] == "OBSERVED";
    var err := frame.Drop("OBSERVED");
    assert forall k :: 1 <= k <= CLASSES ==> "P_" + NatToString(k) != "OBSERVED" by {
      forall k | 1 <= k <= CLASSES ensures "P_" + NatToString(k) != "OBSERVED" {
        assert ("P_" + NatToString(k))[0] == 'P';
      }
    }
    assert names[1..][CLASSES..] == ["TOTAL", "CORRECT", "FUZZY_CORRECT"];
    assert forall x :: x in names[1..] ==> x != "OBSERVED" by {
      forall x | x in names[1..] ensures x != "OBSERVED" {
        var k :| 0 <= k < |names[1..]| && names[1..][k] == x;
        assert names[k + 1] == x;
      }
    }
  }

  // ------------------------------------------------------------ cells

  /** Rows and columns up to this index hold plot counts; the rest hold percentages. */
  const FORMAT_BREAK: nat := 11

  /** The summary cells left empty: totals under the percentage columns and cross-percentages. */
  const BLANK_CELLS: set<(nat, nat)> := {(11, 12), (11, 13), (12, 11), (12, 13), (13, 11), (13, 12)}

  datatype CellKind = BlankCell | CountCell | PercentCell

  function Kind(i: nat, j: nat): CellKind
  {
    if (i, j) in BLANK_CELLS then BlankCell
    else if i <= FORMAT_BREAK && j <= FORMAT_BREAK then CountCell
    else PercentCell
  }

  /**
   * In the fourteen-by-fourteen matrix, the blank cells are the off-diagonal cells of the
   * summary block, counts fill the class block with the totals row and column, and every
   * other cell is a percentage; the layout is symmetric.
   */
  lemma KindLayout(i: nat, j: nat)
    requires i < CLASSES + 3 && j < CLASSES + 3
    ensures Kind(i, j) == BlankCell <==> CLASSES <= i && CLASSES <= j && i != j
    ensures Kind(i, j) == CountCell <==> i <= CLASSES && j <= CLASSES
    ensures Kind(i, j) == Kind(j, i)
  {
  }

  /** Python's int() on a float: truncation toward zero. */
  function Trunc(x: real): (t: int)
    ensures 0.0 <= x ==> t as real <= x < t as real + 1.0
    ensures x < 0.0 ==> t as real - 1.0 < x <= t as real
  {
    if x >= 0.0 then x.Floor else -((-x).Floor)
  }

  /** The content of cell (i, j); percentages keep their value (one-decimal rendering is not modelled). */
  function FormatCell(i: nat, j: nat, elem: real): Flowable
  {
    match Kind(i, j)
    case BlankCell => Paragraph("")
    case CountCell => Paragraph(IntToString(Trunc(elem)))
    case PercentCell => Number(elem)
  }

  // ------------------------------------------------------------ labels

  const SUMMARY_LABELS: seq<string> := ["Total", "% Correct", "% FCorrect"]

  /** The two cells put before row i's values: the rotated "Observed Class" on row 0 only. */
  function LeadingCell(i: nat): Flowable
  {
    if i == 0 then RotatedParagraph("<strong>Observed Class</strong>") else Text("")
  }

  /** Row i's label: its class label, then the summary labels. */
  function RowLabel(i: nat, codes: seq<Code>): string
    requires i < |codes| + |SUMMARY_LABELS|
  {
    if i < |codes| then codes[i].codeLabel else SUMMARY_LABELS[i - |codes|]
  }

  /** Data row i: leading cell, label, then each formatted value. */
  function DataRowOf(i: nat, values: seq<real>, codes: seq<Code>): (row: seq<Flowable>)
    requires i < |codes| + |SUMMARY_LABELS|
    ensures |row| == |values| + 2 && row[0] == LeadingCell(i) && row[1] == Paragraph(RowLabel(i, codes))
    ensures forall j :: 0 <= j < |values| ==> row[j + 2] == FormatCell(i, j, values[j])
  {
    [LeadingCell(i), Paragraph(RowLabel(i, codes))] + seq(|values|, j requires 0 <= j < |values| => FormatCell(i, j, values[j]))
  }

  /**
   * One pass of the data loop: the cells in column order, then the leading cell inserted
   * at position 0 and the label at position 1. A row past the summary labels is an IndexError.
   */
  method DataRow(i: nat, values: seq<real>, codes: seq<Code>) returns (r: Result<seq<Flowable>>)
    ensures r.Success? <==> i < |codes| + |SUMMARY_LABELS|
    ensures r.Failure? ==> r.error == IndexError
    ensures r.Success? ==> r.value == DataRowOf(i, values, codes)
  {
    var row: seq<Flowable> := [];
    for j := 0 to |values|
      invariant |row| == j
      invariant forall k :: 0 <= k < j ==> row[k] == FormatCell(i, k, values[k])
    {
      row := row + [FormatCell(i, j, values[j])];
    }
    var cells := row;
    assert cells == seq(|values|, j requires 0 <= j < |values| => FormatCell(i, j, values[j]));
    row := [LeadingCell(i)] + cells;
    assert row[..1] == [LeadingCell(i)] && row[1..] == cells;
    var rowLabel: string;
    if i < |codes| {
      rowLabel := codes[i].codeLabel;
    } else {
      var index := i - |codes|;
      if index >= |SUMMARY_LABELS| {
        return Failure(IndexError);
      }
      rowLabel := SUMMARY_LABELS[index];
    }
    assert rowLabel == RowLabel(i, codes);
    row := row[..1] + [Paragraph(rowLabel)] + row[1..];
    assert row == [LeadingCell(i), Paragraph(RowLabel(i, codes))] + cells;
    return Success(row);
  }

  /** A class label in the header breaks after each '-'; a summary label breaks at each space. */
  function ClassHeader(code: Code): string
  {
    ReplaceChar(code.codeLabel, '-', "-<br/>")
  }

  function SummaryHeader(s: string): string
  {
    ReplaceChar(s, ' ', "<br/>")
  }

  /** The second header row: two empty cells, the class labels, the summary labels. */
  function LabelRow(codes: seq<Code>): (row: seq<Flowable>)
    ensures |row| == 2 + |codes| + |SUMMARY_LABELS|
    ensures row[..2] == [Text(""), Text("")]
    ensures forall k :: 0 <= k < |codes| ==> row[k + 2] == Paragraph(ClassHeader(codes[k]))
    ensures forall k :: 0 <= k < |SUMMARY_LABELS| ==> row[2 + |codes| + k] == Paragraph(SummaryHeader(SUMMARY_LABELS[k]))
  {
    [Text(""), Text("")]
      + seq(|codes|, k requires 0 <= k < |codes| => Paragraph(ClassHeader(codes[k])))
      + SummaryCells(SUMMARY_LABELS)
  }

  /** One header cell per summary label, in label order. */
  function SummaryCells(labels: seq<string>): (cells: seq<Flowable>)
    ensures |cells| == |labels|
    ensures forall k :: 0 <= k < |labels| ==> cells[k] == Paragraph(SummaryHeader(labels[k]))
  {
    seq(|labels|, k requires 0 <= k < |labels| => Paragraph(SummaryHeader(labels[k])))
  }

  lemma SpaceBreak(word: string)
    requires ' ' !in word
    ensures SummaryHeader("% " + word) == "%<br/>" + word
  {
    assert "% " + word == "%" + (" " + word);
    ReplaceCharAppend("%", " " + word, ' ', "<br/>");
    ReplaceCharAppend(" ", word, ' ', "<br/>");
    ReplaceCharAbsent("%", ' ', "<br/>");
    ReplaceCharAbsent(word, ' ', "<br/>");
    assert ReplaceChar(" ", ' ', "<br/>") == "<br/>" + ReplaceChar([], ' ', "<br/>");
  }

  /** A header label keeps no bare '-' at its end of line: every '-' is followed by a break. */
  lemma {:induction false} ClassHeaderBreaks(s: string, k: nat)
    requires k < |ReplaceChar(s, '-', "-<br/>")| && ReplaceChar(s, '-', "-<br/>")[k] == '-'
    ensures "-<br/>" <= ReplaceChar(s, '-', "-<br/>")[k..]
  {
    var r := ReplaceChar(s, '-', "-<br/>");
    if s != [] {
      var head := if s[0] == '-' then "-<br/>" else [s[0]];
      assert r == head + ReplaceChar(s[1..], '-', "-<br/>");
      if k < |head| {
        assert head[k] == '-';
        if s[0] != '-' {
          assert false;
        }
        assert k == 0;
      } else {
        ClassHeaderBreaks(s[1..], k - |head|);
        assert r[k..] == ReplaceChar(s[1..], '-', "-<br/>")[k - |head|..];
      }
    }
  }

  const PREDICTED_CLASS: string := "<strong>Predicted Class</strong>"

  /** The first header row: two empty cells, the spanning title, and one empty cell per further row. */
  function TitleRow(rowCount: nat): (row: seq<Flowable>)
    ensures |row| == 3 + (if rowCount == 0 then 0 else rowCount - 1) && row[2] == Paragraph(PREDICTED_CLASS)
  {
    [Text(""), Text(""), Paragraph(PREDICTED_CLASS)] + seq(if rowCount == 0 then 0 else rowCount - 1, _ => Text(""))
  }

  /** The label-row loops: the class labels, then the summary labels. */
  method BuildLabelRow(codes: seq<Code>) returns (headerRow: seq<Flowable>)
    ensures headerRow == LabelRow(codes)
  {
    headerRow := [Text(""), Text("")];
    for k := 0 to |codes|
      invariant headerRow == [Text(""), Text("")] + seq(k, c requires 0 <= c < k => Paragraph(ClassHeader(codes[c])))
    {
      headerRow := headerRow + [Paragraph(ClassHeader(codes[k]))];
    }
    headerRow := AppendSummaryHeaders(headerRow, SUMMARY_LABELS);
  }

  /** The summary-label loop: one broken header per label, appended in order. */
  method AppendSummaryHeaders(row: seq<Flowable>, labels: seq<string>) returns (headerRow: seq<Flowable>)
    ensures headerRow == row + SummaryCells(labels)
  {
    headerRow := row;
    for k := 0 to |labels|
      invariant headerRow == row + SummaryCells(labels[..k])
    {
      assert SummaryCells(labels[..k + 1]) == SummaryCells(labels[..k]) + [Paragraph(SummaryHeader(labels[k]))];
      headerRow := headerRow + [Paragraph(SummaryHeader(labels[k]))];
    }
    assert labels[..|labels|] == labels;
  }

  /** The data loop: one row per matrix line, stopping at the first line without a label. */
  method BuildDataRows(values: seq<seq<real>>, codes: seq<Code>) returns (r: Result<seq<seq<Flowable>>>)
    ensures r.Success? <==> |values| <= |codes| + |SUMMARY_LABELS|
    ensures r.Failure? ==> r.error == IndexError
    ensures r.Success? ==> |r.value| == |values|
    ensures r.Success? ==> forall i :: 0 <= i < |values| ==>
      (i < |codes| + |SUMMARY_LABELS| && r.value[i] == DataRowOf(i, values[i], codes))
  {
    var rows: seq<seq<Flowable>> := [];
    for i := 0 to |values|
      invariant |rows| == i && i <= |codes| + |SUMMARY_LABELS|
      invariant forall k :: 0 <= k < i ==> k < |codes| + |SUMMARY_LABELS| && rows[k] == DataRowOf(k, values[k], codes)
    {
      var row := DataRow(i, values[i], codes);
      if row.Failure? {
        return Failure(row.error);
      }
      rows := rows + [row.value];
    }
    return Success(rows);
  }

  /**
   * The matrix table: the two header rows, then one row per matrix line. More lines than
   * there are class and summary labels is an IndexError.
   */
  method VegclassTable(values: seq<seq<real>>, codes: seq<Code>) returns (r: Result<seq<seq<Flowable>>>)
    ensures r.Success? <==> |values| <= |codes| + |SUMMARY_LABELS|
    ensures r.Failure? ==> r.error == IndexError
    ensures r.Success? ==> |r.value| == |values| + 2 && r.value[0] == TitleRow(|values|) && r.value[1] == LabelRow(codes)
    ensures r.Success? ==> forall i :: 0 <= i < |values| ==>
      (i < |codes| + |SUMMARY_LABELS| && r.value[i + 2] == DataRowOf(i, values[i], codes))
  {
    var titleRow := [Text(""), Text("")];
    titleRow := titleRow + [Paragraph(PREDICTED_CLASS)];
    titleRow := titleRow + seq(if |values| == 0 then 0 else |values| - 1, _ => Text(""));
    var labelRow := BuildLabelRow(codes);
    var rows := BuildDataRows(values, codes);
    if rows.Failure? {
      return Failure(rows.error);
    }
    var table := [titleRow, labelRow] + rows.value;
    assert forall i :: 0 <= i < |values| ==> table[i + 2] == rows.value[i];
    return Success(table);
  }

  /** The column widths in inches: the two label columns, one per class, three summaries. */
  function ColumnWidths(classCount: nat): (w: seq<real>)
    ensures |w| == 2 + classCount + 3
    ensures w[0] == 0.3 && w[1] == 0.85
    ensures forall k :: 2 <= k < 2 + classCount ==> w[k] == 0.56
    ensures forall k :: 2 + classCount <= k < |w| ==> w[k] == 0.66
  {
    [0.3, 0.85] + seq(classCount, _ => 0.56) + seq(3, _ => 0.66)
  }

  // ------------------------------------------------------------ shading

  /** The fuzzy table: row k - 1 lists the neighbours of class k (1..11). */
  const FUZZY_TABLE: seq<seq<nat>> := [
    [2], [1, 3, 5, 8], [2, 4, 5], [3, 6, 7], [2, 3, 6, 8], [4, 5, 7, 9],
    [4, 6, 10, 11], [2, 5, 9], [6, 8, 10], [7, 9, 11], [7, 10]
  ]

  /** The neighbours row `table` gives class `a`; a class outside the table has none. */
  function NeighboursIn(table: seq<seq<nat>>, a: nat): seq<nat>
  {
    if 1 <= a <= |table| then table[a - 1] else []
  }

  /** `table` lists b among the neighbours of class a. */
  predicate PairIn(table: seq<seq<nat>>, a: nat, b: nat)
  {
    1 <= a <= |table| && b in table[a - 1]
  }

  /** Class b is a fuzzy neighbour of class a in the report's table. */
  predicate Neighbours(a: nat, b: nat)
  {
    PairIn(FUZZY_TABLE, a, b)
  }

  /** No class is its own neighbour, every neighbour is a class, and neighbourhood is symmetric. */
  lemma FuzzyTableProperties(a: nat, b: nat)
    requires Neighbours(a, b)
    ensures 1 <= b <= CLASSES && b != a
    ensures Neighbours(b, a)
  {
    if a == 1 { assert b == 2; }
    else if a == 2 { assert b == 1 || b == 3 || b == 5 || b == 8; }
    else if a == 3 { assert b == 2 || b == 4 || b == 5; }
    else if a == 4 { assert b == 3 || b == 6 || b == 7; }
    else if a == 5 { assert b == 2 || b == 3 || b == 6 || b == 8; }
    else if a == 6 { assert b == 4 || b == 5 || b == 7 || b == 9; }
    else if a == 7 { assert b == 4 || b == 6 || b == 10 || b == 11; }
    else if a == 8 { assert b == 2 || b == 5 || b == 9; }
    else if a == 9 { assert b == 6 || b == 8 || b == 10; }
    else if a == 10 { assert b == 7 || b == 9 || b == 11; }
    else { assert b == 7 || b == 10; }
  }

  /** The dark cells of classes 1..k: (c+1, c+1). */
  function DiagonalCommands(k: nat): (r: seq<Command>)
    ensures |r| == k
    ensures forall t :: 0 <= t < k ==> r[t] == Background((t + 2, t + 2), DARK)
  {
    if k == 0 then [] else DiagonalCommands(k - 1) + [Background((k + 1, k + 1), DARK)]
  }

  function NeighbourCommands(key: nat, elems: seq<nat>): (r: seq<Command>)
    ensures |r| == |elems|
    ensures forall t :: 0 <= t < |elems| ==> r[t] == Background((key + 1, elems[t] + 1), LIGHT)
  {
    seq(|elems|, t requires 0 <= t < |elems| => Background((key + 1, elems[t] + 1), LIGHT))
  }

  /** The light cells of classes 1..keys of the fuzzy table, in table order. */
  function FuzzyCommands(table: seq<seq<nat>>, keys: nat): seq<Command>
  {
    if keys == 0 then [] else FuzzyCommands(table, keys - 1) + NeighbourCommands(keys, NeighboursIn(table, keys))
  }

  function VegclassShading(classCount: nat): seq<Command>
  {
    DiagonalCommands(classCount) + FuzzyCommands(FUZZY_TABLE, CLASSES)
  }

  /** The diagonal loops: the `correct` dictionary of classes 1..classCount, then a dark cell per entry. */
  method ShadeDiagonal(ts: TableStyle, classCount: nat)
    modifies ts
    ensures ts.commands == old(ts.commands) + DiagonalCommands(classCount)
  {
    var correct: map<nat, nat> := map[];
    for i := 0 to classCount
      invariant forall v :: v in correct <==> 1 <= v <= i
      invariant forall v :: v in correct ==> correct[v] == v
    {
      correct := correct[i + 1 := i + 1];
    }
    ghost var base := ts.commands;
    for key := 1 to classCount + 1
      invariant ts.commands == base + DiagonalCommands(key - 1)
    {
      var val := correct[key];
      ts.Add(Background((key + 1, val + 1), DARK));
    }
  }

  /** The inner fuzzy loop: a light cell per neighbour of `key`. */
  method ShadeNeighbours(ts: TableStyle, key: nat, value: seq<nat>)
    modifies ts
    ensures ts.commands == old(ts.commands) + NeighbourCommands(key, value)
  {
    ghost var before := ts.commands;
    for e := 0 to |value|
      invariant ts.commands == before + NeighbourCommands(key, value[..e])
    {
      ts.Add(Background((key + 1, value[e] + 1), LIGHT));
      assert NeighbourCommands(key, value[..e + 1]) == NeighbourCommands(key, value[..e]) + [Background((key + 1, value[e] + 1), LIGHT)];
    }
    assert value[..|value|] == value;
  }

  /** Unfolding one class of the fuzzy table. */
  lemma FuzzyStep(base: seq<Command>, table: seq<seq<nat>>, key: nat)
    requires key >= 1
    ensures base + FuzzyCommands(table, key) == base + FuzzyCommands(table, key - 1) + NeighbourCommands(key, NeighboursIn(table, key))
  {
  }

  /** The outer fuzzy loop over the classes 1..keys of the table, in table order. */
  method ShadeFuzzy(ts: TableStyle, table: seq<seq<nat>>, keys: nat)
    modifies ts
    ensures ts.commands == old(ts.commands) + FuzzyCommands(table, keys)
  {
    ghost var base := ts.commands;
    var key := 0;
    while key < keys
      invariant key <= keys
      invariant ts.commands == base + FuzzyCommands(table, key)
    {
      key := key + 1;
      var value := NeighboursIn(table, key);
      ShadeNeighbours(ts, key, value);
      FuzzyStep(base, table, key);
    }
  }

  /** The shading of run_formatter: the diagonal of every class, then each (class, neighbour) pair. */
  method ShadeVegclass(ts: TableStyle, classCount: nat)
    modifies ts
    ensures ts.commands == old(ts.commands) + VegclassShading(classCount)
  {
    ShadeTable(ts, classCount, FUZZY_TABLE, CLASSES);
  }

  /** The diagonal of classes 1..classCount, then the fuzzy pairs of classes 1..keys. */
  method ShadeTable(ts: TableStyle, classCount: nat, table: seq<seq<nat>>, keys: nat)
    modifies ts
    ensures ts.commands == old(ts.commands) + DiagonalCommands(classCount) + FuzzyCommands(table, keys)
  {
    ShadeDiagonal(ts, classCount);
    ShadeFuzzy(ts, table, keys);
  }

  lemma NeighbourCommandsExactly(key: nat, elems: seq<nat>, c: Command)
    ensures c in NeighbourCommands(key, elems) <==> exists b :: b in elems && c == Background((key + 1, b + 1), LIGHT)
  {
    var r := NeighbourCommands(key, elems);
    if c in r {
      var t :| 0 <= t < |r| && r[t] == c;
      assert elems[t] in elems && c == Background((key + 1, elems[t] + 1), LIGHT);
    }
    if exists b :: b in elems && c == Background((key + 1, b + 1), LIGHT) {
      var b :| b in elems && c == Background((key + 1, b + 1), LIGHT);
      var t :| 0 <= t < |elems| && elems[t] == b;
      assert r[t] == c;
    }
  }

  /** Cell c is the light cell of a pair (a, b) of `table` whose first class is at most keys. */
  ghost predicate LightPair(table: seq<seq<nat>>, keys: nat, c: Command)
  {
    exists a: nat, b: nat :: a <= keys && PairIn(table, a, b) && c == Background((a + 1, b + 1), LIGHT)
  }

  lemma {:induction false} FuzzyCommandsSound(table: seq<seq<nat>>, keys: nat, c: Command)
    requires c in FuzzyCommands(table, keys)
    ensures LightPair(table, keys, c)
  {
    var elems := NeighboursIn(table, keys);
    FuzzyStep([], table, keys);
    if c in FuzzyCommands(table, keys - 1) {
      FuzzyCommandsSound(table, keys - 1, c);
      var a: nat, b: nat :| a <= keys - 1 && PairIn(table, a, b) && c == Background((a + 1, b + 1), LIGHT);
      assert a <= keys;
    } else {
      NeighbourCommandsExactly(keys, elems, c);
      var b :| b in elems && c == Background((keys + 1, b + 1), LIGHT);
      assert PairIn(table, keys, b);
    }
  }

  lemma NeighbourCommandsHas(key: nat, elems: seq<nat>, b: nat)
    requires b in elems
    ensures Background((key + 1, b + 1), LIGHT) in NeighbourCommands(key, elems)
  {
    var t :| 0 <= t < |elems| && elems[t] == b;
    assert NeighbourCommands(key, elems)[t] == Background((key + 1, b + 1), LIGHT);
  }

  lemma {:induction false} FuzzyCommandsComplete(table: seq<seq<nat>>, keys: nat, a: nat, b: nat)
    requires a <= keys && PairIn(table, a, b)
    ensures Background((a + 1, b + 1), LIGHT) in FuzzyCommands(table, keys)
  {
    FuzzyStep([], table, keys);
    if a == keys {
      NeighbourCommandsHas(keys, NeighboursIn(table, keys), b);
    } else {
      FuzzyCommandsComplete(table, keys - 1, a, b);
    }
  }

  /** Exactly the pairs the table lists are shaded light, at (key + 1, neighbour + 1). */
  lemma FuzzyCommandsExactly(table: seq<seq<nat>>, keys: nat, c: Command)
    ensures c in FuzzyCommands(table, keys) <==>
      exists a: nat, b: nat :: a <= keys && PairIn(table, a, b) && c == Background((a + 1, b + 1), LIGHT)
  {
    if c in FuzzyCommands(table, keys) {
      FuzzyCommandsSound(table, keys, c);
    }
    if LightPair(table, keys, c) {
      var a: nat, b: nat :| a <= keys && PairIn(table, a, b) && c == Background((a + 1, b + 1), LIGHT);
      FuzzyCommandsComplete(table, keys, a, b);
    }
  }

  /** The diagonal commands shade exactly the diagonal cells of classes 1..k. */
  lemma DiagonalCells(k: nat, x: int, y: int)
    ensures Background((x, y), DARK) in DiagonalCommands(k) <==> 2 <= x == y <= k + 1
    ensures Background((x, y), LIGHT) !in DiagonalCommands(k)
  {
    var dark := DiagonalCommands(k);
    if 2 <= x == y <= k + 1 {
      assert dark[x - 2] == Background((x, y), DARK);
    }
  }

  /**
   * The light cells lie off the diagonal and come in mirror pairs; the dark cells are the
   * diagonal cells of the classes; no cell is both.
   */
  lemma ShadingCells(classCount: nat, x: int, y: int)
    ensures Background((x, y), DARK) in VegclassShading(classCount) <==> 2 <= x == y <= classCount + 1
    ensures Background((x, y), LIGHT) in VegclassShading(classCount) ==>
      x != y && Background((y, x), LIGHT) in VegclassShading(classCount)
  {
    forall a: nat, b: nat | PairIn(FUZZY_TABLE, a, b)
      ensures 1 <= b <= CLASSES && b != a && PairIn(FUZZY_TABLE, b, a)
    {
      FuzzyTableProperties(a, b);
    }
    TableShadingCells(classCount, FUZZY_TABLE, CLASSES, x, y);
  }

  /** The same for any table that pairs no class with itself and lists every pair both ways. */
  lemma TableShadingCells(classCount: nat, table: seq<seq<nat>>, keys: nat, x: int, y: int)
    requires forall a: nat, b: nat :: PairIn(table, a, b) ==> 1 <= b <= keys && b != a && PairIn(table, b, a)
    ensures Background((x, y), DARK) in DiagonalCommands(classCount) + FuzzyCommands(table, keys) <==>
      2 <= x == y <= classCount + 1
    ensures Background((x, y), LIGHT) in DiagonalCommands(classCount) + FuzzyCommands(table, keys) ==>
      x != y && Background((y, x), LIGHT) in DiagonalCommands(classCount) + FuzzyCommands(table, keys)
  {
    DiagonalCells(classCount, x, y);
    DiagonalCells(classCount, y, x);
    FuzzyCommandsExactly(table, keys, Background((x, y), DARK));
    FuzzyCommandsExactly(table, keys, Background((x, y), LIGHT));
    FuzzyCommandsExactly(table, keys, Background((y, x), LIGHT));
    if Background((x, y), LIGHT) in FuzzyCommands(table, keys) {
      var a: nat, b: nat :| a <= keys && PairIn(table, a, b) && Background((x, y), LIGHT) == Background((a + 1, b + 1), LIGHT);
      assert b <= keys && PairIn(table, b, a) && Background((y, x), LIGHT) == Background((b + 1, a + 1), LIGHT);
    }
  }

  // ------------------------------------------------------------ definitions

  /** The code definitions under the matrix: "<strong>label:</strong> " and the escaped description. */
  method CodeDefinitions(codes: seq<Code>) returns (paras: seq<Flowable>)
    ensures |paras| == |codes|
    ensures forall k :: 0 <= k < |codes| ==>
      paras[k] == Paragraph("<strong>" + codes[k].codeLabel + ":</strong> " + ReportFormatter.Escape(codes[k].description))
  {
    paras := [];
    for k := 0 to |codes|
      invariant |paras| == k
      invariant forall t :: 0 <= t < k ==>
        paras[t] == Paragraph("<strong>" + codes[t].codeLabel + ":</strong> " + ReportFormatter.Escape(codes[t].description))
    {
      var desc := ReportFormatter.TxtToHtml(codes[k].description);
      paras := paras + [Paragraph("<strong>" + codes[k].codeLabel + ":</strong> " + desc)];
    }
  }
}
