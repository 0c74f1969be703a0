/**
 * The page-layout vocabulary the formatters emit, reduced to plain values:
 * flowables (paragraphs, tables, page breaks, ...) and table-style commands.
 */
module Layout {

  /** A layout element. Numbers whose float rendering is not modelled are kept as `Number`. */
  datatype Flowable =
    | NextPageTemplate(template: string)
    | PageBreak
    | Paragraph(text: string)
    | RotatedParagraph(text: string)
    | Number(value: real)
    | Text(s: string)
    | Spacer
    | Image(file: string)
    | Table(rows: seq<seq<Flowable>>)

  /** Background colours used for correct (dark) and fuzzy-correct (light) cells. */
  const DARK: string := "#aaaaaa"
  const LIGHT: string := "#dddddd"

  /**
   * A table-style command. Only single-cell BACKGROUND commands are modelled in detail;
   * `cell` is (column, row) and may use negative indices counted from the end.
   */
  datatype Command = Background(cell: (int, int), colour: string) | Other(name: string)

  /** A table style that grows by `add` (and by repeated `setStyle` calls on one table). */
  class TableStyle {
    var commands: seq<Command>

    constructor (base: seq<Command>)
      ensures commands == base
    {
      commands := base;
    }

    method Add(cmd: Command)
      modifies this
      ensures commands == old(commands) + [cmd]
    {
      commands := commands + [cmd];
    }
  }
}
