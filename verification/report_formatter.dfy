/**
 * The formatter base: page breaks, the two-column figure table, HTML escaping of
 * free text, and the check that a formatter's input files exist.
 */
module ReportFormatter {
  import opened Wrappers
  import opened Strings
  import opened Layout

  /** The page templates a formatter can switch to. */
  const TITLE: string := "title"
  const PORTRAIT: string := "portrait"
  const LANDSCAPE: string := "landscape"

  /** A switch to the page template `orientation` followed by a page break. */
  function PageBreakTo(orientation: string): seq<Flowable>
  {
    [NextPageTemplate(orientation), PageBreak]
  }

  // ------------------------------------------------------------ figure table

  /** The number of columns of a figure table. */
  const COLS: nat := 2

  /**
   * The figure-table loop: images go into rows of two in input order; a last row with a
   * single image is padded with an empty paragraph.
   */
  method MakeFigureTable(imageFiles: seq<string>) returns (rows: seq<seq<Flowable>>)
    ensures |rows| == (|imageFiles| + 1) / 2
    ensures forall r :: 0 <= r < |rows| ==> |rows[r]| == COLS
    ensures forall k :: 0 <= k < |imageFiles| ==> rows[k / 2][k % 2] == Image(imageFiles[k])
    ensures |imageFiles| % 2 == 1 ==> rows[|rows| - 1][1] == Paragraph("")
  {
    rows := [];
    var rowData: seq<Flowable> := [];
    for i := 0 to |imageFiles|
      invariant |rows| == i / 2 && |rowData| == i % 2
      invariant forall r :: 0 <= r < |rows| ==> |rows[r]| == COLS
      invariant forall k :: 0 <= k < i - i % 2 ==> rows[k / 2][k % 2] == Image(imageFiles[k])
      invariant i % 2 == 1 ==> rowData == [Image(imageFiles[i - 1])]
    {
      rowData := rowData + [Image(imageFiles[i])];
      if i % COLS == COLS - 1 {
        rows := rows + [rowData];
        rowData := [];
      }
    }
    if |rowData| != 0 {
      for j := |rowData| to COLS
        invariant |rowData| == j && rowData[0] == Image(imageFiles[|imageFiles| - 1])
        invariant j > 1 ==> rowData[1] == Paragraph("")
      {
        rowData := rowData + [Paragraph("")];
      }
      rows := rows + [rowData];
    }
  }

  // ------------------------------------------------------------ escaping

  /** The replacements, in the order the dictionary lists them. */
  const REPLACEMENTS: seq<(char, string)> := [('>', "&gt;"), ('<', "&lt;")]

  function EscapeChar(c: char): string
  {
    if c == '>' then "&gt;" else if c == '<' then "&lt;" else [c]
  }

  /** The reference definition: each angle bracket becomes its entity, every other character stays. */
  function Escape(s: string): (r: string)
  {
    if s == [] then [] else EscapeChar(s[0]) + Escape(s[1..])
  }

  /** The replacements applied one after another, each to the whole string. */
  function ApplyReplacements(s: string, reps: seq<(char, string)>): string
  {
    if reps == [] then s
    else ReplaceChar(ApplyReplacements(s, reps[..|reps| - 1]), reps[|reps| - 1].0, reps[|reps| - 1].1)
  }

  /** txt_to_html: `re.sub` with each replacement in turn. */
  method TxtToHtml(inStr: string) returns (out: string)
    ensures out == Escape(inStr)
  {
    out := inStr;
    for i := 0 to |REPLACEMENTS|
      invariant out == ApplyReplacements(inStr, REPLACEMENTS[..i])
    {
      var (pattern, rep) := REPLACEMENTS[i];
      out := ReplaceChar(out, pattern, rep);
      assert REPLACEMENTS[..i + 1][..i] == REPLACEMENTS[..i];
    }
    assert REPLACEMENTS[..2] == REPLACEMENTS;
    assert REPLACEMENTS[..2][..1] == [('>', "&gt;")] && [('>', "&gt;")][..0] == [];
    SequentialReplacementIsEscape(inStr);
  }

  /**
   * Replacing '>' first and then '<' escapes each character independently: the "&gt;"
   * introduced by the first pass holds no '<' for the second to touch.
   */
  lemma {:induction false} SequentialReplacementIsEscape(s: string)
    ensures ReplaceChar(ReplaceChar(s, '>', "&gt;"), '<', "&lt;") == Escape(s)
  {
    if s != [] {
      var head := if s[0] == '>' then "&gt;" else [s[0]];
      assert ReplaceChar(s, '>', "&gt;") == head + ReplaceChar(s[1..], '>', "&gt;");
      ReplaceCharAppend(head, ReplaceChar(s[1..], '>', "&gt;"), '<', "&lt;");
      SequentialReplacementIsEscape(s[1..]);
      if s[0] == '>' {
        ReplaceCharAbsent("&gt;", '<', "&lt;");
      } else {
        assert ReplaceChar(head, '<', "&lt;") == (if s[0] == '<' then "&lt;" else [s[0]]) + ReplaceChar([], '<', "&lt;");
      }
    }
  }

  lemma {:induction false} EscapeAppend(a: string, b: string)
    ensures Escape(a + b) == Escape(a) + Escape(b)
  {
    if a != [] {
      assert (a + b)[1..] == a[1..] + b;
      EscapeAppend(a[1..], b);
    } else {
      assert a + b == b;
    }
  }

  /** Escaped text holds no angle brackets, and every other character of the input survives. */
  lemma {:induction false} EscapeRemovesBrackets(s: string)
    ensures '<' !in Escape(s) && '>' !in Escape(s)
    ensures forall d :: d != '<' && d != '>' && d in s ==> d in Escape(s)
  {
    if s != [] {
      EscapeRemovesBrackets(s[1..]);
      assert s == [s[0]] + s[1..];
    }
  }

  /** Text without angle brackets is returned unchanged; in particular '&' is not escaped. */
  lemma {:induction false} EscapeIdentity(s: string)
    requires '<' !in s && '>' !in s
    ensures Escape(s) == s
  {
    if s != [] {
      EscapeIdentity(s[1..]);
      assert s == [s[0]] + s[1..];
    }
  }

  /** Escaping twice is escaping once. */
  lemma EscapeIdempotent(s: string)
    ensures Escape(Escape(s)) == Escape(s)
  {
    EscapeRemovesBrackets(s);
    EscapeIdentity(Escape(s));
  }

  /** The number of angle brackets in `s`. */
  function BracketCount(s: string): nat
  {
    if s == [] then 0 else (if s[0] == '<' || s[0] == '>' then 1 else 0) + BracketCount(s[1..])
  }

  /** Each bracket grows by three characters ("&gt;" and "&lt;" are four long); nothing else changes length. */
  lemma {:induction false} EscapeLength(s: string)
    ensures |Escape(s)| == |s| + 3 * BracketCount(s)
  {
    if s != [] {
      EscapeLength(s[1..]);
    }
  }

  // ------------------------------------------------------------ missing files

  /**
   * A formatter as check_missing_files sees it: its class name, the attributes it has
   * (name to file path) and the names listed in `_required`.
   */
  class Formatter {
    const className: string
    const attributes: map<string, string>
    const required: seq<string>

    constructor (className: string, attributes: map<string, string>, required: seq<string>)
      ensures this.className == className && this.attributes == attributes && this.required == required
    {
      this.className := className;
      this.attributes := attributes;
      this.required := required;
    }

    /** The required attribute names up to position k all exist on the formatter. */
    predicate HasRequiredBelow(k: nat)
      requires k <= |required|
    {
      forall j :: 0 <= j < k ==> required[j] in attributes
    }

    /**
     * Gather the required files in `_required` order (AttributeError on the first missing
     * attribute), then check they all exist; `message` is the message the existence
     * check raises with, to which the formatter's class name is appended.
     */
    method CheckMissingFiles(existing: set<string>, message: string) returns (r: Result<seq<string>>)
      ensures r.Failure? && r.error.AttributeError? <==> !HasRequiredBelow(|required|)
      ensures r.Failure? && r.error.AttributeError? ==>
        exists k :: 0 <= k < |required| && HasRequiredBelow(k) && r.error.name == required[k] && required[k] !in attributes
      ensures HasRequiredBelow(|required|) ==>
        var files := seq(|required|, j requires 0 <= j < |required| => attributes[required[j]]);
        (r.Success? <==> forall f :: f in files ==> f in existing) &&
        (r.Success? ==> r.value == files) &&
        (r.Failure? ==> r.error == MissingConstraint(message + "\nSkipping " + className + "\n"))
    {
      var files: seq<string> := [];
      for i := 0 to |required|
        invariant HasRequiredBelow(i)
        invariant files == seq(i, j requires 0 <= j < i => attributes[required[j]])
      {
        var name := required[i];
        if name !in attributes {
          return Failure(AttributeError(name));
        }
        files := files + [attributes[name]];
      }
      var missing := exists f :: f in files && f !in existing;
      if missing {
        return Failure(MissingConstraint(message + "\nSkipping " + className + "\n"));
      }
      return Success(files);
    }
  }
}
