/**
 The structured document the engine reads and rewrites: body paragraphs made
 of formatting runs, and tables of rows of cells, each cell holding paragraphs.
 A paragraph's text is the concatenation of its runs, and a cell's text is its
 paragraph texts joined with "\n", as the word-processing library defines them.
 */
module Docx {
  import opened Text

  datatype Paragraph = Paragraph(runs: seq<string>)
  datatype Cell = Cell(paragraphs: seq<Paragraph>)
  datatype Row = Row(cells: seq<Cell>)
  datatype Table = Table(rows: seq<Row>)
  datatype Document = Document(paragraphs: seq<Paragraph>, tables: seq<Table>)

  /** `"".join(parts)`. */
  function Concat(parts: seq<string>): string {
    if |parts| == 0 then "" else parts[0] + Concat(parts[1..])
  }

  /** A run's text is a substring of the text of the runs it belongs to. */
  lemma {:induction false} RunInConcat(runs: seq<string>, k: int, t: string)
    requires 0 <= k < |runs| && Contains(runs[k], t)
    ensures Contains(Concat(runs), t)
  {
    if k == 0 {
      ContainsInConcat(runs[0], Concat(runs[1..]), t);
    } else {
      RunInConcat(runs[1..], k - 1, t);
      ContainsInConcat(runs[0], Concat(runs[1..]), t);
    }
  }

  function ParagraphText(p: Paragraph): string {
    Concat(p.runs)
  }

  function ParagraphTexts(ps: seq<Paragraph>): (r: seq<string>)
    ensures |r| == |ps|
    ensures forall j :: 0 <= j < |ps| ==> r[j] == ParagraphText(ps[j])
  {
    seq(|ps|, j requires 0 <= j < |ps| => ParagraphText(ps[j]))
  }

  function CellText(c: Cell): string {
    Join(ParagraphTexts(c.paragraphs), "\n")
  }

  /** The texts of one row's cells, left to right. */
  function RowTexts(r: Row): (texts: seq<string>)
    ensures |texts| == |r.cells|
    ensures forall j :: 0 <= j < |r.cells| ==> texts[j] == CellText(r.cells[j])
  {
    seq(|r.cells|, j requires 0 <= j < |r.cells| => CellText(r.cells[j]))
  }

  /** Concatenation of a sequence of sequences. */
  function Flatten(xss: seq<seq<string>>): (r: seq<string>)
    ensures forall i, x :: 0 <= i < |xss| && x in xss[i] ==> x in r
  {
    if |xss| == 0 then [] else xss[0] + Flatten(xss[1..])
  }

  /** The cell texts of one table in row-major order. */
  function TableTexts(t: Table): seq<string> {
    Flatten(seq(|t.rows|, i requires 0 <= i < |t.rows| => RowTexts(t.rows[i])))
  }

  /** The cell texts of all tables, table by table, each in row-major order. */
  function CellTexts(ts: seq<Table>): seq<string> {
    Flatten(seq(|ts|, i requires 0 <= i < |ts| => TableTexts(ts[i])))
  }

  /** The linear text the detector scans: paragraph texts first, then the cell
      texts, all joined with "\n". */
  function DocumentText(d: Document): string {
    Join(ParagraphTexts(d.paragraphs) + CellTexts(d.tables), "\n")
  }

  lemma {:induction false} JoinAppend(a: seq<string>, b: seq<string>, sep: string)
    requires |a| > 0 && |b| > 0
    ensures Join(a + b, sep) == Join(a, sep) + sep + Join(b, sep)
    decreases |a|
  {
    if |a| == 1 {
      assert (a + b)[1..] == b;
    } else {
      assert (a + b)[1..] == a[1..] + b;
      JoinAppend(a[1..], b, sep);
    }
  }

  /** Paragraph text comes first, then a newline, then the table text. */
  lemma DocumentTextLayout(d: Document)
    requires |d.paragraphs| > 0 && |CellTexts(d.tables)| > 0
    ensures DocumentText(d) ==
            Join(ParagraphTexts(d.paragraphs), "\n") + "\n" + Join(CellTexts(d.tables), "\n")
  {
    JoinAppend(ParagraphTexts(d.paragraphs), CellTexts(d.tables), "\n");
  }

  /** Every cell of every table contributes its text to the linear text. */
  lemma CellTextInTables(ts: seq<Table>, ti: int, ri: int, ci: int)
    requires 0 <= ti < |ts| && 0 <= ri < |ts[ti].rows| && 0 <= ci < |ts[ti].rows[ri].cells|
    ensures CellText(ts[ti].rows[ri].cells[ci]) in CellTexts(ts)
  {
    var t := ts[ti];
    var rowTexts := seq(|t.rows|, i requires 0 <= i < |t.rows| => RowTexts(t.rows[i]));
    assert CellText(t.rows[ri].cells[ci]) in rowTexts[ri];
    var tableTexts := seq(|ts|, i requires 0 <= i < |ts| => TableTexts(ts[i]));
    assert CellText(t.rows[ri].cells[ci]) in tableTexts[ti];
  }

  /** A literal that lies inside one run of a body paragraph is visible to the detector. */
  lemma ParagraphRunVisible(d: Document, pi: int, k: int, t: string)
    requires 0 <= pi < |d.paragraphs| && 0 <= k < |d.paragraphs[pi].runs|
    requires Contains(d.paragraphs[pi].runs[k], t)
    ensures Contains(DocumentText(d), t)
  {
    var pieces := ParagraphTexts(d.paragraphs) + CellTexts(d.tables);
    RunInConcat(d.paragraphs[pi].runs, k, t);
    assert pieces[pi] == ParagraphText(d.paragraphs[pi]);
    JoinContainsPart(pieces, "\n", pi, t);
  }

  /** A literal that lies inside one run of a table cell is visible to the detector. */
  lemma CellRunVisible(d: Document, ti: int, ri: int, ci: int, pj: int, k: int, t: string)
    requires 0 <= ti < |d.tables| && 0 <= ri < |d.tables[ti].rows|
    requires 0 <= ci < |d.tables[ti].rows[ri].cells|
    requires 0 <= pj < |d.tables[ti].rows[ri].cells[ci].paragraphs|
    requires 0 <= k < |d.tables[ti].rows[ri].cells[ci].paragraphs[pj].runs|
    requires Contains(d.tables[ti].rows[ri].cells[ci].paragraphs[pj].runs[k], t)
    ensures Contains(DocumentText(d), t)
  {
    var cell := d.tables[ti].rows[ri].cells[ci];
    RunInConcat(cell.paragraphs[pj].runs, k, t);
    JoinContainsPart(ParagraphTexts(cell.paragraphs), "\n", pj, t);
    CellTextInTables(d.tables, ti, ri, ci);
    var pieces := ParagraphTexts(d.paragraphs) + CellTexts(d.tables);
    var m :| 0 <= m < |CellTexts(d.tables)| && CellTexts(d.tables)[m] == CellText(cell);
    assert pieces[|d.paragraphs| + m] == CellText(cell);
    JoinContainsPart(pieces, "\n", |d.paragraphs| + m, t);
  }
}
