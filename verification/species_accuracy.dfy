/**
 * The species accuracy table: which species are reported, how a species is named, and
 * the 2x2 presence/absence count table beside its header.
 */
module SpeciesAccuracy {
  import opened Wrappers
  import opened Strings
  import opened Layout
  import opened StandMetadata

  /** One line of the species accuracy file. */
  datatype SpeciesRecord = SpeciesRecord(
    species: string, prevalence: real,
    opPp: nat, opPa: nat, oaPp: nat, oaPa: nat,
    kappa: real)

  /** What the report metadata knows about a species. */
  datatype SpeciesInfo = SpeciesInfo(sppSymbol: string, scientificName: string, commonName: string)

  // ------------------------------------------------------------ selection

  /** Species are reported when they occur on at least this share of plots (inclusive). */
  const PREVALENCE_THRESHOLD: real := 0.005

  predicate IsReportedSpeciesAttr(a: Attribute)
  {
    a.isSpecies && !Contains(a.fieldName, "NOTALY")
  }

  /** The species attributes' field names, leaving out the NOTALY ones. */
  function SpeciesAttrNames(attrs: seq<Attribute>): (r: seq<string>)
    ensures forall y :: y in r <==> exists a :: a in attrs && IsReportedSpeciesAttr(a) && a.fieldName == y
  {
    if attrs == [] then []
    else
      var rest := SpeciesAttrNames(attrs[..|attrs| - 1]);
      var last := attrs[|attrs| - 1];
      assert forall a :: a in attrs <==> a in attrs[..|attrs| - 1] || a == last by {
        assert attrs == attrs[..|attrs| - 1] + [last];
      }
      rest + (if IsReportedSpeciesAttr(last) then [last.fieldName] else [])
  }

  /** The species whose prevalence reaches the threshold. */
  function CommonSpecies(records: seq<SpeciesRecord>): (r: seq<string>)
    ensures forall y :: y in r <==> exists rec :: rec in records && rec.prevalence >= PREVALENCE_THRESHOLD && rec.species == y
  {
    if records == [] then []
    else
      var rest := CommonSpecies(records[..|records| - 1]);
      var last := records[|records| - 1];
      assert forall rec :: rec in records <==> rec in records[..|records| - 1] || rec == last by {
        assert records == records[..|records| - 1] + [last];
      }
      rest + (if last.prevalence >= PREVALENCE_THRESHOLD then [last.species] else [])
  }

  /** The elements of `a` that are also in `b`. */
  function Intersect(a: seq<string>, b: seq<string>): (r: seq<string>)
    ensures forall y :: y in r <==> y in a && y in b
  {
    if a == [] then []
    else
      var init := a[..|a| - 1];
      assert a == init + [a[|a| - 1]];
      Intersect(init, b) + (if a[|a| - 1] in b then [a[|a| - 1]] else [])
  }

  /** The reported species: the sorted, duplicate-free intersection of the two lists. */
  function SelectSpecies(attrs: seq<Attribute>, records: seq<SpeciesRecord>): (r: seq<string>)
    ensures StrictlySorted(r)
    ensures forall y :: y in r <==> y in SpeciesAttrNames(attrs) && y in CommonSpecies(records)
  {
    SortUnique(Intersect(SpeciesAttrNames(attrs), CommonSpecies(records)))
  }

  /** The threshold is inclusive: a species attribute at exactly 0.005 prevalence is reported. */
  lemma ThresholdInclusive(attrs: seq<Attribute>, records: seq<SpeciesRecord>, a: Attribute, rec: SpeciesRecord)
    requires a in attrs && IsReportedSpeciesAttr(a)
    requires rec in records && rec.species == a.fieldName && rec.prevalence == 0.005
    ensures a.fieldName in SelectSpecies(attrs, records)
  {
    assert a.fieldName in SpeciesAttrNames(attrs);
    assert a.fieldName in CommonSpecies(records);
  }

  /** A NOTALY attribute is never reported. */
  lemma NotalyNeverReported(attrs: seq<Attribute>, records: seq<SpeciesRecord>, y: string)
    requires Contains(y, "NOTALY")
    ensures y !in SelectSpecies(attrs, records)
  {
  }

  /**
   * The selection depends only on which species qualify, not on the order of the metadata
   * or of the accuracy file.
   */
  lemma SelectionIgnoresOrder(attrs1: seq<Attribute>, records1: seq<SpeciesRecord>,
                              attrs2: seq<Attribute>, records2: seq<SpeciesRecord>)
    requires forall a :: a in attrs1 <==> a in attrs2
    requires forall rec :: rec in records1 <==> rec in records2
    ensures SelectSpecies(attrs1, records1) == SelectSpecies(attrs2, records2)
  {
    SortedListingUnique(SelectSpecies(attrs1, records1), SelectSpecies(attrs2, records2));
  }

  // ------------------------------------------------------------ names and count tables

  /**
   * species_name: without report metadata, the raw code; otherwise the metadata entry of
   * the code's part before the first '_', falling back to the raw code when there is none.
   */
  function SpeciesName(spp: string, metadata: Option<map<string, SpeciesInfo>>): (r: Flowable)
    ensures metadata.None? ==> r == Paragraph(spp)
    ensures metadata.Some? && Before(spp, '_') !in metadata.value ==> r == Paragraph(spp)
    ensures metadata.Some? && Before(spp, '_') in metadata.value ==>
      var info := metadata.value[Before(spp, '_')];
      r == Paragraph(info.sppSymbol + "<br/>" + info.scientificName + "/" + info.commonName)
  {
    match metadata
    case None => Paragraph(spp)
    case Some(m) =>
      var plain := Before(spp, '_');
      if plain in m then
        var info := m[plain];
        Paragraph(info.sppSymbol + "<br/>" + info.scientificName + "/" + info.commonName)
      else Paragraph(spp)
  }

  /** A code without '_' is looked up as it is; a size-class suffix after '_' is ignored. */
  lemma SpeciesNameKey(spp: string, suffix: string, m: map<string, SpeciesInfo>)
    requires '_' !in spp && spp in m
    ensures SpeciesName(spp, Some(m)) == SpeciesName(spp + "_" + suffix, Some(m))
    ensures SpeciesName(spp, Some(m)) != Paragraph(spp) || m[spp].sppSymbol + "<br/>" + m[spp].scientificName + "/" + m[spp].commonName == spp
  {
    BeforeSuffix(spp, suffix);
  }

  lemma {:induction false} BeforeSuffix(s: string, suffix: string)
    requires '_' !in s
    ensures Before(s + "_" + suffix, '_') == s
  {
    if s != [] {
      assert (s + "_" + suffix)[1..] == s[1..] + "_" + suffix;
      BeforeSuffix(s[1..], suffix);
    }
  }

  /** The count-table headers, row by row. */
  const HEADER_LABELS: seq<seq<string>> := [["OP/PP", "OP/PA"], ["OA/PP", "OA/PA"]]

  function HeaderCellCountTable(): (t: Flowable)
    ensures t.Table? && |t.rows| == 2
    ensures |t.rows[0]| == 2 && |t.rows[1]| == 2
    ensures forall i, j :: 0 <= i < 2 && 0 <= j < 2 ==> t.rows[i][j] == Paragraph("<strong>" + HEADER_LABELS[i][j] + "</strong>")
  {
    Table(seq(2, i requires 0 <= i < 2 =>
      seq(2, j requires 0 <= j < 2 => Paragraph("<strong>" + HEADER_LABELS[i][j] + "</strong>"))))
  }

  /** The four counts of a record in the order the row builder reads them. */
  function PlotCounts(rec: SpeciesRecord): seq<nat>
  {
    [rec.opPp, rec.opPa, rec.oaPp, rec.oaPa]
  }

  /** The count a header label stands for. */
  function CountFor(rec: SpeciesRecord, heading: string): nat
  {
    if heading == "OP/PP" then rec.opPp
    else if heading == "OP/PA" then rec.opPa
    else if heading == "OA/PP" then rec.oaPp
    else if heading == "OA/PA" then rec.oaPa
    else 0
  }

  function CountCell(n: nat): Flowable
  {
    Paragraph(NatToString(n))
  }

  /** count_table: the first two counts on the first row, the rest on the second. */
  function CountTable(counts: seq<nat>): (t: Flowable)
    ensures t.Table? && |t.rows| == 2
    ensures |t.rows[0]| == (if |counts| < 2 then |counts| else 2) && |t.rows[0]| + |t.rows[1]| == |counts|
    ensures forall k :: 0 <= k < |counts| ==>
      (k < 2 ==> t.rows[0][k] == CountCell(counts[k])) && (k >= 2 ==> t.rows[1][k - 2] == CountCell(counts[k]))
  {
    var cut := if |counts| < 2 then |counts| else 2;
    Table([seq(cut, k requires 0 <= k < cut => CountCell(counts[k])),
           seq(|counts| - cut, k requires 0 <= k < |counts| - cut => CountCell(counts[cut + k]))])
  }

  /** Each count sits under the header cell that names it. */
  lemma CountTableMatchesHeader(rec: SpeciesRecord)
    ensures var t := CountTable(PlotCounts(rec));
      forall i, j :: 0 <= i < 2 && 0 <= j < 2 ==> t.rows[i][j] == CountCell(CountFor(rec, HEADER_LABELS[i][j]))
    ensures var t := CountTable(PlotCounts(rec));
      |t.rows[0]| == |HEADER_LABELS[0]| && |t.rows[1]| == |HEADER_LABELS[1]|
  {
    var t := CountTable(PlotCounts(rec));
    assert t.rows[0][0] == CountCell(PlotCounts(rec)[0]);
    assert t.rows[0][1] == CountCell(PlotCounts(rec)[1]);
    assert t.rows[1][0] == CountCell(PlotCounts(rec)[2]);
    assert t.rows[1][1] == CountCell(PlotCounts(rec)[3]);
  }

  // ------------------------------------------------------------ the table

  predicate HasRecord(spp: string, records: seq<SpeciesRecord>)
  {
    exists r :: r in records && r.species == spp
  }

  /** The accuracy record of a species: the first line naming it. */
  function RecordFor(spp: string, records: seq<SpeciesRecord>): (rec: SpeciesRecord)
    requires HasRecord(spp, records)
    ensures rec in records && rec.species == spp
  {
    if records[0].species == spp then records[0] else RecordFor(spp, records[1..])
  }

  /** Each species has one line in the accuracy file. */
  predicate UniqueSpecies(records: seq<SpeciesRecord>)
  {
    forall i, j :: 0 <= i < j < |records| ==> records[i].species != records[j].species
  }

  /** With one line per species, the line of a common species is itself above the threshold. */
  lemma UniqueSpeciesPrevalence(records: seq<SpeciesRecord>, rec: SpeciesRecord, y: string)
    requires UniqueSpecies(records) && rec in records && rec.species == y && y in CommonSpecies(records)
    ensures rec.prevalence >= PREVALENCE_THRESHOLD
  {
    var other :| other in records && other.prevalence >= PREVALENCE_THRESHOLD && other.species == y;
    var i :| 0 <= i < |records| && records[i] == rec;
    var j :| 0 <= j < |records| && records[j] == other;
    assert i == j;
  }

  function SpeciesRow(spp: string, rec: SpeciesRecord, metadata: Option<map<string, SpeciesInfo>>): seq<Flowable>
  {
    [SpeciesName(spp, metadata), Number(rec.prevalence), CountTable(PlotCounts(rec)), Number(rec.kappa)]
  }

  const SPECIES_HEADER: string := "<strong>Species PLANTS Code<br/>Scientific Name / Common Name</strong>"
  const PREVALENCE_HEADER: string := "<strong>Species prevalence</strong>"
  const KAPPA_HEADER: string := "<strong>Kappa coefficient</strong>"

  /**
   * The table of run_formatter: the header row built cell by cell, then one row per
   * reported species in sorted order. The report metadata is consulted only when its
   * file is named.
   */
  method SpeciesTable(attrs: seq<Attribute>, records: seq<SpeciesRecord>,
                      reportMetadataFile: string, reportMetadata: map<string, SpeciesInfo>)
    returns (table: seq<seq<Flowable>>)
    requires UniqueSpecies(records)
    ensures |table| == |SelectSpecies(attrs, records)| + 1
    ensures table[0] == [Paragraph(SPECIES_HEADER), Paragraph(PREVALENCE_HEADER), HeaderCellCountTable(), Paragraph(KAPPA_HEADER)]
    ensures forall k :: 0 <= k < |table| - 1 ==>
      ReportedRow(table[k + 1], SelectSpecies(attrs, records)[k], records,
                  if reportMetadataFile != "" then Some(reportMetadata) else None)
    ensures reportMetadataFile == "" ==>
      forall k :: 0 <= k < |table| - 1 ==> |table[k + 1]| > 0 && table[k + 1][0] == Paragraph(SelectSpecies(attrs, records)[k])
  {
    var headerRow := [Paragraph(SPECIES_HEADER)];
    headerRow := headerRow + [Paragraph(PREVALENCE_HEADER)];
    headerRow := headerRow + [HeaderCellCountTable()];
    headerRow := headerRow + [Paragraph(KAPPA_HEADER)];
    var metadata: Option<map<string, SpeciesInfo>> := if reportMetadataFile != "" then Some(reportMetadata) else None;
    var selected := SelectSpecies(attrs, records);
    SelectedHaveRecords(selected, records);
    table := [headerRow] + SpeciesRows(selected, records, metadata);
    forall k | 0 <= k < |table| - 1
      ensures ReportedRow(table[k + 1], selected[k], records, metadata)
      ensures metadata.None? ==> |table[k + 1]| > 0 && table[k + 1][0] == Paragraph(selected[k])
    {
      TableRowReported(headerRow, selected, records, metadata, k);
    }
  }

  /** Below the header, row k + 1 of the table is the row of the k-th selected species. */
  lemma TableRowReported(headerRow: seq<Flowable>, selected: seq<string>, records: seq<SpeciesRecord>,
                         metadata: Option<map<string, SpeciesInfo>>, k: nat)
    requires UniqueSpecies(records)
    requires forall k :: 0 <= k < |selected| ==> HasRecord(selected[k], records)
    requires forall k :: 0 <= k < |selected| ==> selected[k] in CommonSpecies(records)
    requires k < |selected|
    ensures ReportedRow(([headerRow] + SpeciesRows(selected, records, metadata))[k + 1], selected[k], records, metadata)
    ensures metadata.None? ==> ([headerRow] + SpeciesRows(selected, records, metadata))[k + 1][0] == Paragraph(selected[k])
  {
    var rows := SpeciesRows(selected, records, metadata);
    assert ([headerRow] + rows)[k + 1] == rows[k] == SpeciesRow(selected[k], RecordFor(selected[k], records), metadata);
    SpeciesRowReported(selected[k], records, metadata);
  }

  /** One row per species of `selected`, built from its line of the accuracy file. */
  function SpeciesRows(selected: seq<string>, records: seq<SpeciesRecord>, metadata: Option<map<string, SpeciesInfo>>)
    : (rows: seq<seq<Flowable>>)
    requires forall k :: 0 <= k < |selected| ==> HasRecord(selected[k], records)
    ensures |rows| == |selected|
  {
    seq(|selected|, k requires 0 <= k < |selected| =>
      SpeciesRow(selected[k], RecordFor(selected[k], records), metadata))
  }

  lemma SpeciesRowReported(spp: string, records: seq<SpeciesRecord>, metadata: Option<map<string, SpeciesInfo>>)
    requires UniqueSpecies(records) && HasRecord(spp, records) && spp in CommonSpecies(records)
    ensures ReportedRow(SpeciesRow(spp, RecordFor(spp, records), metadata), spp, records, metadata)
    ensures metadata.None? ==> SpeciesRow(spp, RecordFor(spp, records), metadata)[0] == Paragraph(spp)
  {
    var rec := RecordFor(spp, records);
    UniqueSpeciesPrevalence(records, rec, spp);
  }

  /** Every species in the list has a line with prevalence at or above the threshold. */
  lemma SelectedHaveRecords(selected: seq<string>, records: seq<SpeciesRecord>)
    requires forall y :: y in selected ==> y in CommonSpecies(records)
    ensures forall k :: 0 <= k < |selected| ==> HasRecord(selected[k], records)
    ensures forall k :: 0 <= k < |selected| ==> selected[k] in CommonSpecies(records)
  {
    forall k | 0 <= k < |selected|
      ensures HasRecord(selected[k], records)
    {
      assert selected[k] in selected;
      assert selected[k] in CommonSpecies(records);
      var r :| r in records && r.prevalence >= PREVALENCE_THRESHOLD && r.species == selected[k];
      assert r in records && r.species == selected[k];
    }
  }

  /**
   * A table row shows the species name looked up in `metadata`, then the prevalence, counts
   * and kappa of a line for `spp` that reaches the threshold.
   */
  predicate ReportedRow(row: seq<Flowable>, spp: string, records: seq<SpeciesRecord>,
                        metadata: Option<map<string, SpeciesInfo>>)
  {
    |row| == 4 && row[0] == SpeciesName(spp, metadata) &&
    exists rec :: rec in records && rec.species == spp && rec.prevalence >= PREVALENCE_THRESHOLD &&
      row[1] == Number(rec.prevalence) && row[2] == CountTable(PlotCounts(rec)) && row[3] == Number(rec.kappa)
  }
}
