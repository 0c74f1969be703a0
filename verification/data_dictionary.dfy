/**
 * The data dictionary: which attributes are listed, how a field's description is built
 * (units suffix, escaped code sub-table) and the closing note on species values.
 */
module DataDictionary {
  import opened Layout
  import opened StandMetadata
  import ReportFormatter

  // ------------------------------------------------------------ attribute filter

  /** Listed attributes: accuracy and project attributes that are not species. */
  predicate IsDictionaryAttr(a: Attribute)
  {
    a.isAccuracy && a.isProject && !a.isSpecies
  }

  /** The listed attributes' field names in metadata order. */
  function DictionaryNames(attrs: seq<Attribute>): (names: seq<string>)
    ensures |names| <= |attrs|
    ensures forall y :: y in names <==> exists a :: a in attrs && IsDictionaryAttr(a) && a.fieldName == y
  {
    if attrs == [] then []
    else
      var last := attrs[|attrs| - 1];
      assert attrs == attrs[..|attrs| - 1] + [last];
      DictionaryNames(attrs[..|attrs| - 1]) + (if IsDictionaryAttr(last) then [last.fieldName] else [])
  }

  /** Filtering a concatenation concatenates the filtered parts: metadata order is kept. */
  lemma {:induction false} DictionaryNamesAppend(a: seq<Attribute>, b: seq<Attribute>)
    ensures DictionaryNames(a + b) == DictionaryNames(a) + DictionaryNames(b)
    decreases |b|
  {
    if b == [] {
      assert a + b == a;
    } else {
      assert (a + b)[..|a + b| - 1] == a + b[..|b| - 1];
      DictionaryNamesAppend(a, b[..|b| - 1]);
    }
  }

  /** The attribute filter loop of run_formatter. */
  method SelectAttrs(attrs: seq<Attribute>) returns (names: seq<string>)
    ensures names == DictionaryNames(attrs)
  {
    names := [];
    for i := 0 to |attrs|
      invariant names == DictionaryNames(attrs[..i])
    {
      assert attrs[..i + 1] == attrs[..i] + [attrs[i]];
      DictionaryNamesAppend(attrs[..i], [attrs[i]]);
      assert [attrs[i]][..0] == [];
      if IsDictionaryAttr(attrs[i]) {
        names := names + [attrs[i].fieldName];
      }
    }
    assert attrs[..|attrs|] == attrs;
  }

  predicate HasAttribute(attrs: seq<Attribute>, name: string)
  {
    exists b :: b in attrs && b.fieldName == name
  }

  /** get_attribute: the first attribute with the given field name. */
  function GetAttribute(attrs: seq<Attribute>, name: string): (a: Attribute)
    requires HasAttribute(attrs, name)
    ensures a in attrs && a.fieldName == name
  {
    if attrs[0].fieldName == name then attrs[0] else GetAttribute(attrs[1..], name)
  }

  // ------------------------------------------------------------ one dictionary row

  /** The field description, with " (units)" unless the units are "none". */
  function FieldDescription(attr: Attribute): (d: string)
  {
    if attr.units != "none" then attr.description + " (" + attr.units + ")" else attr.description
  }

  /** The description always starts with the metadata description, and is exactly it iff the units are "none". */
  lemma FieldDescriptionUnits(attr: Attribute)
    ensures attr.description <= FieldDescription(attr)
    ensures FieldDescription(attr) == attr.description <==> attr.units == "none"
    ensures attr.units != "none" ==> FieldDescription(attr)[|attr.description|..] == " (" + attr.units + ")"
  {
    if attr.units != "none" {
      assert |FieldDescription(attr)| > |attr.description|;
    }
  }

  function CodeRow(code: Code): seq<Flowable>
  {
    [Paragraph(code.codeValue), Paragraph(ReportFormatter.Escape(code.description))]
  }

  /** The code sub-table loop: one row per code, in order, with the description escaped. */
  method CodeTable(codes: seq<Code>) returns (rows: seq<seq<Flowable>>)
    ensures |rows| == |codes|
    ensures forall k :: 0 <= k < |codes| ==> rows[k] == CodeRow(codes[k])
  {
    rows := [];
    for i := 0 to |codes|
      invariant |rows| == i
      invariant forall k :: 0 <= k < i ==> rows[k] == CodeRow(codes[k])
    {
      var description := ReportFormatter.TxtToHtml(codes[i].description);
      rows := rows + [[Paragraph(codes[i].codeValue), Paragraph(description)]];
    }
  }

  /** No code description in a sub-table holds a raw angle bracket. */
  lemma CodeRowsEscaped(code: Code)
    ensures var text := CodeRow(code)[1].text; '<' !in text && '>' !in text
  {
    ReportFormatter.EscapeRemovesBrackets(code.description);
  }

  /**
   * The description stack of one attribute: the description alone, or the description
   * above the code sub-table when the attribute has codes.
   */
  method DescriptionTable(attr: Attribute) returns (elements: seq<seq<Flowable>>)
    ensures |elements| == (if attr.codes != [] then 2 else 1)
    ensures elements[0] == [Paragraph(FieldDescription(attr))]
    ensures attr.codes != [] ==> elements[1] == [Table(seq(|attr.codes|, k requires 0 <= k < |attr.codes| => CodeRow(attr.codes[k])))]
  {
    var description := attr.description;
    if attr.units != "none" {
      description := description + " (" + attr.units + ")";
    }
    var fieldDescPara := Paragraph(description);
    if attr.codes != [] {
      var codeTable := CodeTable(attr.codes);
      assert codeTable == seq(|attr.codes|, k requires 0 <= k < |attr.codes| => CodeRow(attr.codes[k]));
      elements := [[fieldDescPara], [Table(codeTable)]];
    } else {
      elements := [[fieldDescPara]];
    }
  }

  /**
   * The dictionary row of one attribute: its field name beside its description stack, the
   * description above the table of the attribute's codes when it has any.
   */
  predicate DictionaryRow(row: seq<Flowable>, attr: Attribute)
  {
    |row| == 2 && row[0] == Paragraph(attr.fieldName) && row[1].Table? &&
    |row[1].rows| == (if attr.codes != [] then 2 else 1) && row[1].rows[0] == [Paragraph(FieldDescription(attr))] &&
    (attr.codes != [] ==>
      row[1].rows[1] == [Table(seq(|attr.codes|, k requires 0 <= k < |attr.codes| => CodeRow(attr.codes[k])))])
  }

  /** The dictionary table: one row per listed attribute, in metadata order. */
  method DictionaryTable(attrs: seq<Attribute>) returns (table: seq<seq<Flowable>>)
    ensures |table| == |DictionaryNames(attrs)|
    ensures forall k :: 0 <= k < |table| ==>
      (HasAttribute(attrs, DictionaryNames(attrs)[k]) && DictionaryRow(table[k], GetAttribute(attrs, DictionaryNames(attrs)[k])))
  {
    var names := SelectAttrs(attrs);
    table := [];
    for i := 0 to |names|
      invariant |table| == i
      invariant forall k :: 0 <= k < i ==> HasAttribute(attrs, names[k]) && DictionaryRow(table[k], GetAttribute(attrs, names[k]))
    {
      assert names[i] in names;
      assert HasAttribute(attrs, names[i]);
      var attr := GetAttribute(attrs, names[i]);
      var elements := DescriptionTable(attr);
      table := table + [[Paragraph(attr.fieldName), Table(elements)]];
    }
  }

  // ------------------------------------------------------------ species note

  /** The opening of the closing note (its wording is abbreviated here). */
  const SPECIES_NOTE_INTRO: string := "values represent species"

  /** The closing note, completed with the species measure of the model type. */
  method SpeciesNote(modelType: string) returns (note: string)
    ensures modelType == "sppsz" || modelType == "sppba" ==> note == SPECIES_NOTE_INTRO + " basal area (m^2/ha)."
    ensures modelType == "trecov" || modelType == "wdycov" ==> note == SPECIES_NOTE_INTRO + " percent cover."
    ensures modelType !in {"sppsz", "sppba", "trecov", "wdycov"} ==> note == SPECIES_NOTE_INTRO
  {
    note := SPECIES_NOTE_INTRO;
    if modelType in ["sppsz", "sppba"] {
      note := note + " basal area (m^2/ha).";
    } else if modelType in ["trecov", "wdycov"] {
      note := note + " percent cover.";
    }
  }
}
