/**
 * Pairing observed and predicted records: the column, null and length checks and the
 * inner join on the plot identifier; and the test that picks continuous attributes.
 */
module Utilities {
  import opened Wrappers
  import opened StandMetadata

  /** A cell value; `Null` is a missing value. */
  datatype Value = Null | Number(x: real) | Word(s: string)

  type Row = map<string, Value>

  /** A data frame: its column names and its rows, each keyed by column name. */
  datatype Frame = Frame(columns: seq<string>, rows: seq<Row>)

  /** Every row holds a value for every column. */
  predicate WellFormed(df: Frame)
  {
    forall i, c :: 0 <= i < |df.rows| && c in df.columns ==> c in df.rows[i]
  }

  const COLUMNS_MESSAGE: string := "Columns do not appear in dataframe"
  const NULL_MESSAGE: string := "Data frame has null attribute values"
  const LENGTH_MESSAGE: string := "Merged data frame does not have same length as originals"

  /** NameError unless every requested column is a column of the frame. */
  function AssertColumnsInDf(df: Frame, cols: seq<string>): (r: Option<Error>)
    ensures r == None <==> forall c :: c in cols ==> c in df.columns
    ensures r != None ==> r == Some(NameError(COLUMNS_MESSAGE))
  {
    if forall c :: c in cols ==> c in df.columns then None else Some(NameError(COLUMNS_MESSAGE))
  }

  /** The number of null values in column `attr`. */
  function NullCount(rows: seq<Row>, attr: string): (k: nat)
    requires forall i :: 0 <= i < |rows| ==> attr in rows[i]
    ensures k == 0 <==> forall i :: 0 <= i < |rows| ==> rows[i][attr] != Null
    ensures k <= |rows|
  {
    if rows == [] then 0
    else NullCount(rows[..|rows| - 1], attr) + (if rows[|rows| - 1][attr] == Null then 1 else 0)
  }

  /** ValueError when column `attr` holds a null (KeyError when there is no such column). */
  function AssertValidAttrValues(df: Frame, attr: string): (r: Option<Error>)
    requires WellFormed(df)
    ensures r == None <==> attr in df.columns && forall i :: 0 <= i < |df.rows| ==> df.rows[i][attr] != Null
    ensures attr in df.columns && r != None ==> r == Some(ValueError(NULL_MESSAGE))
  {
    if attr !in df.columns then Some(KeyError)
    else if NullCount(df.rows, attr) != 0 then Some(ValueError(NULL_MESSAGE))
    else None
  }

  /** ValueError unless the merged frame is exactly as long as one of the two inputs. */
  function AssertSameLenIds(merged: Frame, df1: Frame, df2: Frame): (r: Option<Error>)
    ensures r == None <==> |merged.rows| == |df1.rows| || |merged.rows| == |df2.rows|
    ensures r != None ==> r == Some(ValueError(LENGTH_MESSAGE))
  {
    if |merged.rows| == |df1.rows| || |merged.rows| == |df2.rows| then None
    else Some(ValueError(LENGTH_MESSAGE))
  }

  // ------------------------------------------------------------ the join

  /** The merged row of an observed and a predicted row: the key, attr_O and attr_P. */
  function Paired(o: Row, p: Row, joinField: string, attrField: string): Row
    requires joinField in o && attrField in o && attrField in p
  {
    map[joinField := o[joinField], attrField + "_O" := o[attrField], attrField + "_P" := p[attrField]]
  }

  predicate HasPairColumns(rows: seq<Row>, joinField: string, attrField: string)
  {
    forall i :: 0 <= i < |rows| ==> joinField in rows[i] && attrField in rows[i]
  }

  /** The rows `o` merges into: one per predicted row with the same key, in predicted order. */
  function Matches(o: Row, prd: seq<Row>, joinField: string, attrField: string): seq<Row>
    requires joinField in o && attrField in o && HasPairColumns(prd, joinField, attrField)
  {
    if prd == [] then []
    else
      var last := prd[|prd| - 1];
      Matches(o, prd[..|prd| - 1], joinField, attrField)
        + (if last[joinField] == o[joinField] then [Paired(o, last, joinField, attrField)] else [])
  }

  /** The inner join: observed rows in order, each followed by its matches. */
  function InnerJoin(obs: seq<Row>, prd: seq<Row>, joinField: string, attrField: string): seq<Row>
    requires HasPairColumns(obs, joinField, attrField) && HasPairColumns(prd, joinField, attrField)
  {
    if obs == [] then []
    else InnerJoin(obs[..|obs| - 1], prd, joinField, attrField) + Matches(obs[|obs| - 1], prd, joinField, attrField)
  }

  lemma {:induction false} MatchesExactly(o: Row, prd: seq<Row>, joinField: string, attrField: string, m: Row)
    requires joinField in o && attrField in o && HasPairColumns(prd, joinField, attrField)
    ensures m in Matches(o, prd, joinField, attrField) <==>
      exists j :: 0 <= j < |prd| && prd[j][joinField] == o[joinField] && m == Paired(o, prd[j], joinField, attrField)
  {
    if prd != [] {
      var init := prd[..|prd| - 1];
      MatchesExactly(o, init, joinField, attrField, m);
      if exists j :: 0 <= j < |init| && init[j][joinField] == o[joinField] && m == Paired(o, init[j], joinField, attrField) {
        var j :| 0 <= j < |init| && init[j][joinField] == o[joinField] && m == Paired(o, init[j], joinField, attrField);
        assert prd[j] == init[j];
      }
      if exists j :: 0 <= j < |prd| && prd[j][joinField] == o[joinField] && m == Paired(o, prd[j], joinField, attrField) {
        var j :| 0 <= j < |prd| && prd[j][joinField] == o[joinField] && m == Paired(o, prd[j], joinField, attrField);
        if j < |init| {
          assert init[j] == prd[j];
        }
      }
    }
  }

  /** Every merged row pairs an observed and a predicted row that share the join key. */
  lemma {:induction false} InnerJoinSound(obs: seq<Row>, prd: seq<Row>, joinField: string, attrField: string, m: Row)
    requires HasPairColumns(obs, joinField, attrField) && HasPairColumns(prd, joinField, attrField)
    requires m in InnerJoin(obs, prd, joinField, attrField)
    ensures exists i, j :: (0 <= i < |obs| && 0 <= j < |prd| && obs[i][joinField] == prd[j][joinField] &&
      m == Paired(obs[i], prd[j], joinField, attrField))
  {
    var init := obs[..|obs| - 1];
    var last := obs[|obs| - 1];
    if m in InnerJoin(init, prd, joinField, attrField) {
      InnerJoinSound(init, prd, joinField, attrField, m);
      var i, j :| 0 <= i < |init| && 0 <= j < |prd| && init[i][joinField] == prd[j][joinField] &&
        m == Paired(init[i], prd[j], joinField, attrField);
      assert obs[i] == init[i];
    } else {
      MatchesExactly(last, prd, joinField, attrField, m);
      var j :| 0 <= j < |prd| && prd[j][joinField] == last[joinField] && m == Paired(last, prd[j], joinField, attrField);
      assert obs[|obs| - 1] == last;
    }
  }

  /** Every observed and predicted row sharing the join key are merged. */
  lemma {:induction false} InnerJoinComplete(obs: seq<Row>, prd: seq<Row>, joinField: string, attrField: string, i: nat, j: nat)
    requires HasPairColumns(obs, joinField, attrField) && HasPairColumns(prd, joinField, attrField)
    requires i < |obs| && j < |prd| && obs[i][joinField] == prd[j][joinField]
    ensures Paired(obs[i], prd[j], joinField, attrField) in InnerJoin(obs, prd, joinField, attrField)
  {
    var init := obs[..|obs| - 1];
    var last := obs[|obs| - 1];
    var m := Paired(obs[i], prd[j], joinField, attrField);
    if i < |init| {
      InnerJoinComplete(init, prd, joinField, attrField, i, j);
      assert init[i] == obs[i];
    } else {
      MatchesExactly(last, prd, joinField, attrField, m);
      assert m in Matches(last, prd, joinField, attrField);
    }
  }

  /**
   * A merged row is exactly the pairing of an observed and a predicted row that share
   * the join key: every such pair appears, and nothing else does.
   */
  lemma InnerJoinExactly(obs: seq<Row>, prd: seq<Row>, joinField: string, attrField: string, m: Row)
    requires HasPairColumns(obs, joinField, attrField) && HasPairColumns(prd, joinField, attrField)
    ensures m in InnerJoin(obs, prd, joinField, attrField) <==>
      exists i, j :: 0 <= i < |obs| && 0 <= j < |prd| && obs[i][joinField] == prd[j][joinField] &&
        m == Paired(obs[i], prd[j], joinField, attrField)
  {
    if m in InnerJoin(obs, prd, joinField, attrField) {
      InnerJoinSound(obs, prd, joinField, attrField, m);
    }
    if exists i, j :: 0 <= i < |obs| && 0 <= j < |prd| && obs[i][joinField] == prd[j][joinField] &&
        m == Paired(obs[i], prd[j], joinField, attrField) {
      var i, j :| 0 <= i < |obs| && 0 <= j < |prd| && obs[i][joinField] == prd[j][joinField] &&
        m == Paired(obs[i], prd[j], joinField, attrField);
      InnerJoinComplete(obs, prd, joinField, attrField, i, j);
    }
  }

  /** With duplicate-free predicted keys each observed row merges at most once. */
  lemma {:induction false} MatchesAtMostOne(o: Row, prd: seq<Row>, joinField: string, attrField: string)
    requires joinField in o && attrField in o && HasPairColumns(prd, joinField, attrField)
    requires forall a, b :: 0 <= a < b < |prd| ==> prd[a][joinField] != prd[b][joinField]
    ensures |Matches(o, prd, joinField, attrField)| <= 1
  {
    if prd != [] {
      var init := prd[..|prd| - 1];
      MatchesAtMostOne(o, init, joinField, attrField);
      if prd[|prd| - 1][joinField] == o[joinField] {
        assert forall j :: 0 <= j < |init| ==> init[j][joinField] != prd[|prd| - 1][joinField];
        MatchesEmpty(o, init, joinField, attrField);
      }
    }
  }

  lemma {:induction false} MatchesEmpty(o: Row, prd: seq<Row>, joinField: string, attrField: string)
    requires joinField in o && attrField in o && HasPairColumns(prd, joinField, attrField)
    requires forall j :: 0 <= j < |prd| ==> prd[j][joinField] != o[joinField]
    ensures Matches(o, prd, joinField, attrField) == []
  {
    if prd != [] {
      MatchesEmpty(o, prd[..|prd| - 1], joinField, attrField);
    }
  }

  /** With duplicate-free predicted keys the join is never longer than the observed data. */
  lemma {:induction false} InnerJoinAtMostObserved(obs: seq<Row>, prd: seq<Row>, joinField: string, attrField: string)
    requires HasPairColumns(obs, joinField, attrField) && HasPairColumns(prd, joinField, attrField)
    requires forall a, b :: 0 <= a < b < |prd| ==> prd[a][joinField] != prd[b][joinField]
    ensures |InnerJoin(obs, prd, joinField, attrField)| <= |obs|
  {
    if obs != [] {
      InnerJoinAtMostObserved(obs[..|obs| - 1], prd, joinField, attrField);
      MatchesAtMostOne(obs[|obs| - 1], prd, joinField, attrField);
    }
  }

  /** The checks pass: both frames have both columns, no nulls in `attr`, and the join is as long as one input. */
  predicate PairingValid(obs: Frame, prd: Frame, joinField: string, attrField: string)
    requires WellFormed(obs) && WellFormed(prd)
  {
    joinField in obs.columns && attrField in obs.columns &&
    joinField in prd.columns && attrField in prd.columns &&
    NullCount(obs.rows, attrField) == 0 && NullCount(prd.rows, attrField) == 0 &&
    var n := |InnerJoin(obs.rows, prd.rows, joinField, attrField)|;
    n == |obs.rows| || n == |prd.rows|
  }

  /**
   * build_paired_dataframe: the column check on both frames, then the null check on
   * both, then the inner join of the (key, attr) subsets with suffixes _O and _P, then
   * the length check.
   */
  function BuildPairedDataframe(obs: Frame, prd: Frame, joinField: string, attrField: string): (r: Result<Frame>)
    requires WellFormed(obs) && WellFormed(prd) && joinField != attrField
    ensures r.Success? <==> PairingValid(obs, prd, joinField, attrField)
    ensures r.Failure? && r.error.NameError? <==>
      !(joinField in obs.columns && attrField in obs.columns && joinField in prd.columns && attrField in prd.columns)
    ensures r.Failure? ==> r.error in {NameError(COLUMNS_MESSAGE), ValueError(NULL_MESSAGE), ValueError(LENGTH_MESSAGE)}
    ensures joinField in obs.columns && attrField in obs.columns && joinField in prd.columns && attrField in prd.columns &&
            (NullCount(obs.rows, attrField) != 0 || NullCount(prd.rows, attrField) != 0) ==>
      r == Failure(ValueError(NULL_MESSAGE))
    ensures joinField in obs.columns && attrField in obs.columns && joinField in prd.columns && attrField in prd.columns &&
            NullCount(obs.rows, attrField) == 0 && NullCount(prd.rows, attrField) == 0 && !PairingValid(obs, prd, joinField, attrField) ==>
      r == Failure(ValueError(LENGTH_MESSAGE))
    ensures r.Success? ==> r.value.columns == [joinField, attrField + "_O", attrField + "_P"]
    ensures r.Success? ==> r.value.rows == InnerJoin(obs.rows, prd.rows, joinField, attrField)
  {
    var cols := [joinField, attrField];
    var colCheck := if AssertColumnsInDf(obs, cols).Some? then AssertColumnsInDf(obs, cols) else AssertColumnsInDf(prd, cols);
    if colCheck.Some? then Failure(colCheck.value)
    else
      var nullCheck := if AssertValidAttrValues(obs, attrField).Some? then AssertValidAttrValues(obs, attrField)
                       else AssertValidAttrValues(prd, attrField);
      if nullCheck.Some? then Failure(nullCheck.value)
      else
        var merged := Frame([joinField, attrField + "_O", attrField + "_P"],
                            InnerJoin(obs.rows, prd.rows, joinField, attrField));
        var lenCheck := AssertSameLenIds(merged, obs, prd);
        if lenCheck.Some? then Failure(lenCheck.value) else Success(merged)
  }

  // ------------------------------------------------------------ continuous attributes

  predicate IsContinuous(attr: Attribute)
  {
    attr.isContinuous && attr.isProject && attr.isAccuracy && !attr.isSpecies
  }

  /** The continuous project accuracy attributes that are not species, in metadata order. */
  function GetContinuousAttrs(attrs: seq<Attribute>): (r: seq<Attribute>)
    ensures forall a :: a in r <==> a in attrs && IsContinuous(a)
    ensures |r| <= |attrs|
  {
    if attrs == [] then []
    else GetContinuousAttrs(attrs[..|attrs| - 1]) + (if IsContinuous(attrs[|attrs| - 1]) then [attrs[|attrs| - 1]] else [])
  }

  /** Selection keeps metadata order: selecting from a concatenation concatenates the selections. */
  lemma {:induction false} GetContinuousAttrsAppend(a: seq<Attribute>, b: seq<Attribute>)
    ensures GetContinuousAttrs(a + b) == GetContinuousAttrs(a) + GetContinuousAttrs(b)
    decreases |b|
  {
    if b == [] {
      assert a + b == a;
    } else {
      assert (a + b)[..|a + b| - 1] == a + b[..|b| - 1];
      GetContinuousAttrsAppend(a, b[..|b| - 1]);
    }
  }
}
