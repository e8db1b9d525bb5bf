/**
 `replace_placeholders_in_docx`, identical in app.py and LegalMate.py. For every
 body paragraph, every (key, value) item in dictionary order and each of the
 four literal forms of the key, the form is looked up in the paragraph's text
 and, when present, replaced with `str.replace` in every run that contains it.
 Table cells are handled the same way, with the cell's text as the guard.

 The functions below follow those loops as written. The main result is that
 the guards never matter: every run ends up as the run alone would after all
 the replacements, so a placeholder split across two runs is never filled.
 */
module Substitution {
  import opened Text
  import opened Docx

  /** The dictionary of entered values, as its (key, value) items in iteration order. */
  type Mapping = seq<(string, string)>

  /** The first character of every form. */
  predicate IsFormOpener(c: char) {
    c == '{' || c == '[' || c == '<'
  }

  /** The four literal forms of a key, in the order the loop tries them. */
  function Forms(key: string): (fs: seq<string>)
    ensures |fs| == 4
    ensures forall i :: 0 <= i < 4 ==> |fs[i]| > |key| && IsFormOpener(fs[i][0])
  {
    ["{{" + key + "}}", "{" + key + "}", "[" + key + "]", "<<" + key + ">>"]
  }

  /** A sequence of replacement steps: a literal form and the text that replaces it. */
  predicate ValidSteps(steps: seq<(string, string)>) {
    forall i :: 0 <= i < |steps| ==> |steps[i].0| > 0 && IsFormOpener(steps[i].0[0])
  }

  /** The steps in the order the loops take them: item after item, and for each
      item its four forms. */
  function Steps(m: Mapping): (st: seq<(string, string)>)
    ensures |st| == 4 * |m|
    ensures ValidSteps(st)
    ensures forall i, j :: 0 <= i < |m| && 0 <= j < 4 ==> st[4 * i + j] == (Forms(m[i].0)[j], m[i].1)
  {
    if |m| == 0 then []
    else
      var fs := Forms(m[0].0);
      var v := m[0].1;
      var head := [(fs[0], v), (fs[1], v), (fs[2], v), (fs[3], v)];
      var rest := Steps(m[1..]);
      var st := head + rest;
      forall i, j | 0 <= i < |m| && 0 <= j < 4 ensures st[4 * i + j] == (Forms(m[i].0)[j], m[i].1) {
        if i > 0 {
          assert st[4 * i + j] == rest[4 * (i - 1) + j];
          assert m[1..][i - 1] == m[i];
        }
      }
      st
  }

  /* ----- the reference: every run on its own ----- */

  /** The run after all the steps, each step a `str.replace` on the run alone. */
  function RunSubst(run: string, steps: seq<(string, string)>): string
    requires ValidSteps(steps)
    decreases |steps|
  {
    if |steps| == 0 then run
    else RunSubst(Replace(run, steps[0].0, steps[0].1), steps[1..])
  }

  predicate ParagraphMapped(p: Paragraph, q: Paragraph, steps: seq<(string, string)>)
    requires ValidSteps(steps)
  {
    |q.runs| == |p.runs| && forall k :: 0 <= k < |p.runs| ==> q.runs[k] == RunSubst(p.runs[k], steps)
  }

  predicate CellMapped(c: Cell, e: Cell, steps: seq<(string, string)>)
    requires ValidSteps(steps)
  {
    && |e.paragraphs| == |c.paragraphs|
    && forall j :: 0 <= j < |c.paragraphs| ==> ParagraphMapped(c.paragraphs[j], e.paragraphs[j], steps)
  }

  predicate RowMapped(r: Row, s: Row, steps: seq<(string, string)>)
    requires ValidSteps(steps)
  {
    |s.cells| == |r.cells| && forall ci :: 0 <= ci < |r.cells| ==> CellMapped(r.cells[ci], s.cells[ci], steps)
  }

  predicate TableMapped(t: Table, u: Table, steps: seq<(string, string)>)
    requires ValidSteps(steps)
  {
    |u.rows| == |t.rows| && forall ri :: 0 <= ri < |t.rows| ==> RowMapped(t.rows[ri], u.rows[ri], steps)
  }

  /** `e` is `d` with every run, in the body and in every cell, put through the steps
      on its own; nothing else differs. */
  predicate DocumentMapped(d: Document, e: Document, steps: seq<(string, string)>)
    requires ValidSteps(steps)
  {
    && |e.paragraphs| == |d.paragraphs|
    && (forall i :: 0 <= i < |d.paragraphs| ==> ParagraphMapped(d.paragraphs[i], e.paragraphs[i], steps))
    && |e.tables| == |d.tables|
    && (forall t :: 0 <= t < |d.tables| ==> TableMapped(d.tables[t], e.tables[t], steps))
  }

  /* ----- the loops as written ----- */

  /** `for run in runs: if pattern in run.text: run.text = run.text.replace(pattern, value)`:
      the per-run test is redundant, every run gets the replacement. */
  function ReplaceInRuns(runs: seq<string>, pat: string, rep: string): (r: seq<string>)
    requires |pat| > 0
    ensures |r| == |runs|
    ensures forall k :: 0 <= k < |runs| ==> r[k] == Replace(runs[k], pat, rep)
    decreases |runs|
  {
    if |runs| == 0 then []
    else
      var first := if Contains(runs[0], pat) then Replace(runs[0], pat, rep) else runs[0];
      GuardedReplace(runs[0], pat, rep);
      [first] + ReplaceInRuns(runs[1..], pat, rep)
  }

  /** Testing for the pattern before replacing changes nothing. */
  lemma GuardedReplace(s: string, pat: string, rep: string)
    requires |pat| > 0
    ensures (if Contains(s, pat) then Replace(s, pat, rep) else s) == Replace(s, pat, rep)
  {
    if !Contains(s, pat) {
      ReplaceAbsent(s, pat, rep);
    }
  }

  /** A pattern inside one run is inside the paragraph's text. */
  lemma RunGuard(p: Paragraph, k: int, pat: string)
    requires 0 <= k < |p.runs|
    ensures Contains(p.runs[k], pat) ==> Contains(ParagraphText(p), pat)
  {
    if Contains(p.runs[k], pat) {
      RunInConcat(p.runs, k, pat);
    }
  }

  /** A pattern inside one run of a cell is inside the cell's text. */
  lemma CellRunGuard(c: Cell, j: int, k: int, pat: string)
    requires 0 <= j < |c.paragraphs| && 0 <= k < |c.paragraphs[j].runs|
    ensures Contains(c.paragraphs[j].runs[k], pat) ==> Contains(CellText(c), pat)
  {
    if Contains(c.paragraphs[j].runs[k], pat) {
      RunInConcat(c.paragraphs[j].runs, k, pat);
      assert ParagraphTexts(c.paragraphs)[j] == ParagraphText(c.paragraphs[j]);
      JoinContainsPart(ParagraphTexts(c.paragraphs), "\n", j, pat);
    }
  }

  /** When the paragraph's text lacks the pattern, no run changes. */
  lemma GuardedParagraphUnchanged(p: Paragraph, pat: string, rep: string)
    requires |pat| > 0 && !Contains(ParagraphText(p), pat)
    ensures forall k :: 0 <= k < |p.runs| ==> Replace(p.runs[k], pat, rep) == p.runs[k]
  {
    forall k | 0 <= k < |p.runs| ensures Replace(p.runs[k], pat, rep) == p.runs[k] {
      RunGuard(p, k, pat);
      ReplaceAbsent(p.runs[k], pat, rep);
    }
  }

  /** When the cell's text lacks the pattern, no run of the cell changes. */
  lemma GuardedCellUnchanged(c: Cell, pat: string, rep: string)
    requires |pat| > 0 && !Contains(CellText(c), pat)
    ensures forall j, k :: 0 <= j < |c.paragraphs| && 0 <= k < |c.paragraphs[j].runs| ==>
              Replace(c.paragraphs[j].runs[k], pat, rep) == c.paragraphs[j].runs[k]
  {
    forall j, k | 0 <= j < |c.paragraphs| && 0 <= k < |c.paragraphs[j].runs|
      ensures Replace(c.paragraphs[j].runs[k], pat, rep) == c.paragraphs[j].runs[k]
    {
      CellRunGuard(c, j, k, pat);
      ReplaceAbsent(c.paragraphs[j].runs[k], pat, rep);
    }
  }

  /** One form of one item on a body paragraph, guarded by `pattern in para.text`. */
  function ParagraphStep(p: Paragraph, pat: string, rep: string): (r: Paragraph)
    requires |pat| > 0
    ensures |r.runs| == |p.runs|
    ensures forall k :: 0 <= k < |p.runs| ==> r.runs[k] == Replace(p.runs[k], pat, rep)
  {
    if Contains(ParagraphText(p), pat) then Paragraph(ReplaceInRuns(p.runs, pat, rep))
    else
      GuardedParagraphUnchanged(p, pat, rep);
      p
  }

  /** One form of one item on a cell, guarded by `pattern in cell.text`. */
  function CellStep(c: Cell, pat: string, rep: string): (r: Cell)
    requires |pat| > 0
    ensures |r.paragraphs| == |c.paragraphs|
    ensures forall j :: 0 <= j < |c.paragraphs| ==> |r.paragraphs[j].runs| == |c.paragraphs[j].runs|
    ensures forall j, k :: 0 <= j < |c.paragraphs| && 0 <= k < |c.paragraphs[j].runs| ==>
              r.paragraphs[j].runs[k] == Replace(c.paragraphs[j].runs[k], pat, rep)
  {
    if Contains(CellText(c), pat) then
      Cell(seq(|c.paragraphs|, j requires 0 <= j < |c.paragraphs| =>
                 Paragraph(ReplaceInRuns(c.paragraphs[j].runs, pat, rep))))
    else
      GuardedCellUnchanged(c, pat, rep);
      c
  }

  /** All the steps on one body paragraph, in loop order. */
  function ParagraphSteps(p: Paragraph, steps: seq<(string, string)>): (r: Paragraph)
    requires ValidSteps(steps)
    ensures ParagraphMapped(p, r, steps)
    decreases |steps|
  {
    if |steps| == 0 then p
    else
      var q := ParagraphStep(p, steps[0].0, steps[0].1);
      ParagraphSteps(q, steps[1..])
  }

  /** All the steps on one cell, in loop order. */
  function CellSteps(c: Cell, steps: seq<(string, string)>): (r: Cell)
    requires ValidSteps(steps)
    ensures CellMapped(c, r, steps)
    decreases |steps|
  {
    if |steps| == 0 then
      assert forall j :: 0 <= j < |c.paragraphs| ==> ParagraphMapped(c.paragraphs[j], c.paragraphs[j], steps);
      c
    else
      var e := CellStep(c, steps[0].0, steps[0].1);
      var r := CellSteps(e, steps[1..]);
      assert forall j :: 0 <= j < |c.paragraphs| ==> |e.paragraphs[j].runs| == |c.paragraphs[j].runs|;
      r
  }

  function RowSteps(r: Row, steps: seq<(string, string)>): (s: Row)
    requires ValidSteps(steps)
    ensures RowMapped(r, s, steps)
  {
    Row(seq(|r.cells|, ci requires 0 <= ci < |r.cells| => CellSteps(r.cells[ci], steps)))
  }

  function TableSteps(t: Table, steps: seq<(string, string)>): (u: Table)
    requires ValidSteps(steps)
    ensures TableMapped(t, u, steps)
  {
    Table(seq(|t.rows|, ri requires 0 <= ri < |t.rows| => RowSteps(t.rows[ri], steps)))
  }

  /** `replace_placeholders_in_docx(doc, placeholder_values)`: body paragraphs,
      then every cell of every table. */
  function ReplacePlaceholders(d: Document, m: Mapping): (r: Document)
    ensures DocumentMapped(d, r, Steps(m))
  {
    var steps := Steps(m);
    Document(
      seq(|d.paragraphs|, i requires 0 <= i < |d.paragraphs| => ParagraphSteps(d.paragraphs[i], steps)),
      seq(|d.tables|, t requires 0 <= t < |d.tables| => TableSteps(d.tables[t], steps)))
  }

  /* ----- consequences ----- */

  /** A run with no `{`, `[` or `<` goes through every step unchanged. */
  lemma {:induction false} RunWithoutOpenerUnchanged(run: string, steps: seq<(string, string)>)
    requires ValidSteps(steps)
    requires forall i :: 0 <= i < |run| ==> !IsFormOpener(run[i])
    ensures RunSubst(run, steps) == run
    decreases |steps|
  {
    if |steps| > 0 {
      NotContains(run, steps[0].0);
      ReplaceAbsent(run, steps[0].0, steps[0].1);
      RunWithoutOpenerUnchanged(run, steps[1..]);
    }
  }

  /** A run in which no step's form occurs goes through every step unchanged. */
  lemma {:induction false} RunWithoutFormsUnchanged(run: string, steps: seq<(string, string)>)
    requires ValidSteps(steps)
    requires forall i :: 0 <= i < |steps| ==> !Contains(run, steps[i].0)
    ensures RunSubst(run, steps) == run
    decreases |steps|
  {
    if |steps| > 0 {
      ReplaceAbsent(run, steps[0].0, steps[0].1);
      RunWithoutFormsUnchanged(run, steps[1..]);
    }
  }

  /** No form of any key of the dictionary occurs in `run`. */
  predicate NoFormOf(run: string, m: Mapping) {
    forall i, j :: 0 <= i < |m| && 0 <= j < 4 ==> !Contains(run, Forms(m[i].0)[j])
  }

  /** The steps of a dictionary are exactly the forms of its keys. */
  lemma NoFormNoStep(run: string, m: Mapping)
    requires NoFormOf(run, m)
    ensures forall s :: 0 <= s < |Steps(m)| ==> !Contains(run, Steps(m)[s].0)
  {
    var st := Steps(m);
    forall s | 0 <= s < |st| ensures !Contains(run, st[s].0) {
      var i, j := s / 4, s % 4;
      assert st[4 * i + j] == (Forms(m[i].0)[j], m[i].1);
    }
  }

  /** A body run holding no form of any key comes back unchanged. */
  lemma BodyRunWithoutFormsKept(d: Document, m: Mapping, i: int, k: int)
    requires 0 <= i < |d.paragraphs| && 0 <= k < |d.paragraphs[i].runs|
    requires NoFormOf(d.paragraphs[i].runs[k], m)
    ensures ReplacePlaceholders(d, m).paragraphs[i].runs[k] == d.paragraphs[i].runs[k]
  {
    NoFormNoStep(d.paragraphs[i].runs[k], m);
    RunWithoutFormsUnchanged(d.paragraphs[i].runs[k], Steps(m));
  }

  /** A run of a table cell holding no form of any key comes back unchanged. */
  lemma CellRunWithoutFormsKept(d: Document, m: Mapping, t: int, ri: int, ci: int, j: int, k: int)
    requires 0 <= t < |d.tables| && 0 <= ri < |d.tables[t].rows|
    requires 0 <= ci < |d.tables[t].rows[ri].cells|
    requires 0 <= j < |d.tables[t].rows[ri].cells[ci].paragraphs|
    requires 0 <= k < |d.tables[t].rows[ri].cells[ci].paragraphs[j].runs|
    requires NoFormOf(d.tables[t].rows[ri].cells[ci].paragraphs[j].runs[k], m)
    ensures var r := ReplacePlaceholders(d, m);
            |r.tables| == |d.tables| && |r.tables[t].rows| == |d.tables[t].rows|
            && |r.tables[t].rows[ri].cells| == |d.tables[t].rows[ri].cells|
            && |r.tables[t].rows[ri].cells[ci].paragraphs| == |d.tables[t].rows[ri].cells[ci].paragraphs|
            && |r.tables[t].rows[ri].cells[ci].paragraphs[j].runs| == |d.tables[t].rows[ri].cells[ci].paragraphs[j].runs|
            && r.tables[t].rows[ri].cells[ci].paragraphs[j].runs[k] == d.tables[t].rows[ri].cells[ci].paragraphs[j].runs[k]
  {
    var run := d.tables[t].rows[ri].cells[ci].paragraphs[j].runs[k];
    NoFormNoStep(run, m);
    RunWithoutFormsUnchanged(run, Steps(m));
  }

  /** A run shorter than every form goes through every step unchanged. */
  lemma {:induction false} ShortRunUnchanged(run: string, steps: seq<(string, string)>)
    requires ValidSteps(steps)
    requires forall i :: 0 <= i < |steps| ==> |run| < |steps[i].0|
    ensures RunSubst(run, steps) == run
    decreases |steps|
  {
    if |steps| > 0 {
      NotContains(run, steps[0].0);
      ReplaceAbsent(run, steps[0].0, steps[0].1);
      ShortRunUnchanged(run, steps[1..]);
    }
  }

  /** With an empty dictionary the document comes back as it was. */
  lemma EmptyMappingKeepsDocument(d: Document)
    ensures ReplacePlaceholders(d, []) == d
  {
    var r := ReplacePlaceholders(d, []);
    assert Steps([]) == [];
    assert r.paragraphs == d.paragraphs by {
      forall i | 0 <= i < |d.paragraphs| ensures r.paragraphs[i] == d.paragraphs[i] {
        assert r.paragraphs[i].runs == d.paragraphs[i].runs;
      }
    }
    assert r.tables == d.tables by {
      forall t | 0 <= t < |d.tables| ensures r.tables[t] == d.tables[t] {
        TableUnchanged(d.tables[t], r.tables[t]);
      }
    }
  }

  lemma TableUnchanged(t: Table, u: Table)
    requires TableMapped(t, u, [])
    ensures u == t
  {
    assert u.rows == t.rows by {
      forall ri | 0 <= ri < |t.rows| ensures u.rows[ri] == t.rows[ri] {
        var r, s := t.rows[ri], u.rows[ri];
        assert s.cells == r.cells by {
          forall ci | 0 <= ci < |r.cells| ensures s.cells[ci] == r.cells[ci] {
            var c, e := r.cells[ci], s.cells[ci];
            assert e.paragraphs == c.paragraphs by {
              forall j | 0 <= j < |c.paragraphs| ensures e.paragraphs[j] == c.paragraphs[j] {
                assert e.paragraphs[j].runs == c.paragraphs[j].runs;
              }
            }
          }
        }
      }
    }
  }

  /** Strings without `{`, `[` and `<`. */
  predicate NoOpener(s: string) {
    forall i :: 0 <= i < |s| ==> !IsFormOpener(s[i])
  }

  /** A step whose form is absent from the run leaves it for the next step. */
  lemma SkipStep(run: string, steps: seq<(string, string)>)
    requires ValidSteps(steps) && |steps| > 0 && !Contains(run, steps[0].0)
    ensures RunSubst(run, steps) == RunSubst(run, steps[1..])
  {
    ReplaceAbsent(run, steps[0].0, steps[0].1);
  }

  /** With one item whose key and value contain no `{`, `[` or `<`, a run that
      is exactly one of the key's four forms becomes the value. */
  lemma SingleItemFillsEachForm(key: string, value: string, j: int)
    requires NoOpener(key) && NoOpener(value) && 0 <= j < 4
    ensures RunSubst(Forms(key)[j], Steps([(key, value)])) == value
  {
    FillsFormInText("", key, value, "", j);
    assert "" + Forms(key)[j] + "" == Forms(key)[j];
    assert "" + value + "" == value;
  }

  /** A placeholder split over two runs, as word processors often store it,
      is never filled, whatever the value. */
  lemma SplitPlaceholderNotFilled(value: string)
    ensures var d := Document([Paragraph(["[Na", "me]"])], []);
            ReplacePlaceholders(d, [("Name", value)]) == d
  {
    var d := Document([Paragraph(["[Na", "me]"])], []);
    var m := [("Name", value)];
    var steps := Steps(m);
    assert forall i :: 0 <= i < |steps| ==> |steps[i].0| > 4 by {
      forall i | 0 <= i < |steps| ensures |steps[i].0| > 4 {
        assert steps[4 * 0 + i] == (Forms("Name")[i], value);
      }
    }
    ShortRunUnchanged("[Na", steps);
    ShortRunUnchanged("me]", steps);
    var r := ReplacePlaceholders(d, m);
    assert r.paragraphs[0].runs == d.paragraphs[0].runs;
    assert r.paragraphs == d.paragraphs;
  }

  /** In `a + "{" + key + "}" + b` the only `{` is the one of the form, so the
      double-brace form cannot occur. */
  lemma NoDoubleBraceAroundSingle(a: string, key: string, b: string)
    requires NoOpener(a) && NoOpener(key) && NoOpener(b)
    ensures !Contains(a + Forms(key)[1] + b, Forms(key)[0])
  {
    var run := a + Forms(key)[1] + b;
    var pat := Forms(key)[0];
    forall p | 0 <= p < |run| && p != |a| ensures run[p] != '{' {
      if p < |a| {
        assert run[p] == a[p];
      } else if p <= |a| + |key| {
        assert run[p] == key[p - |a| - 1];
      } else if p > |a| + |key| + 1 {
        assert run[p] == b[p - |a| - |key| - 2];
      }
    }
    forall i | 0 <= i <= |run| ensures !OccursAt(run, pat, i) {
      if i + |pat| <= |run| {
        assert run[i..i + |pat|][0] == run[i] && run[i..i + |pat|][1] == run[i + 1];
        assert pat[0] == '{' && pat[1] == '{';
      }
    }
  }

  /** The form between plain text is replaced and the text around it kept. */
  lemma ReplaceBetween(a: string, pat: string, b: string, value: string)
    requires |pat| > 0 && pat[0] !in a && pat[0] !in b
    ensures Replace(a + pat + b, pat, value) == a + value + b
  {
    calc {
      Replace(a + pat + b, pat, value);
      { assert a + pat + b == a + (pat + b); ReplaceSkipsPrefix(a, pat + b, pat, value); }
      a + Replace(pat + b, pat, value);
      { ReplaceAtFront(pat, b, value); }
      a + (value + Replace(b, pat, value));
      { NotContains(b, pat); ReplaceAbsent(b, pat, value); }
      a + value + b;
    }
  }

  lemma NoOpenerChars(s: string)
    requires NoOpener(s)
    ensures '{' !in s && '[' !in s && '<' !in s
  {
    assert forall i :: 0 <= i < |s| ==> !IsFormOpener(s[i]);
  }

  /** The item's forms tried before form `j` do not occur in the run. */
  lemma EarlierFormsAbsent(a: string, key: string, b: string, j: int, k: int)
    requires NoOpener(a) && NoOpener(key) && NoOpener(b) && 0 <= k < j < 4
    ensures !Contains(a + Forms(key)[j] + b, Forms(key)[k])
  {
    var fs := Forms(key);
    NoOpenerChars(a);
    NoOpenerChars(key);
    NoOpenerChars(b);
    if j == 1 {
      NoDoubleBraceAroundSingle(a, key, b);
    } else {
      assert fs[k][0] !in fs[j];
      NotContains(a + fs[j] + b, fs[k]);
    }
  }

  /** The steps of one item, as `Steps` lays them out. */
  lemma SingleItemSteps(key: string, value: string)
    ensures var steps := Steps([(key, value)]);
            |steps| == 4 && forall i :: 0 <= i < 4 ==> steps[i] == (Forms(key)[i], value)
  {
    var steps := Steps([(key, value)]);
    forall i | 0 <= i < 4 ensures steps[i] == (Forms(key)[i], value) {
      assert steps[4 * 0 + i] == (Forms(key)[i], value);
    }
  }

  /** With one item whose key and value contain no `{`, `[` or `<`, a form of
      the key inside a run of plain text is replaced by the value and the text
      around it is kept. */
  lemma FillsFormInText(a: string, key: string, value: string, b: string, j: int)
    requires NoOpener(a) && NoOpener(key) && NoOpener(value) && NoOpener(b) && 0 <= j < 4
    ensures RunSubst(a + Forms(key)[j] + b, Steps([(key, value)])) == a + value + b
  {
    var fs := Forms(key);
    var steps := Steps([(key, value)]);
    SingleItemSteps(key, value);
    var run := a + fs[j] + b;
    var k := 0;
    while k < j
      invariant 0 <= k <= j
      invariant RunSubst(run, steps) == RunSubst(run, steps[k..])
    {
      EarlierFormsAbsent(a, key, b, j, k);
      assert steps[k..][0] == steps[k] && steps[k..][1..] == steps[k + 1..];
      SkipStep(run, steps[k..]);
      k := k + 1;
    }
    NoOpenerChars(a);
    NoOpenerChars(b);
    ReplaceBetween(a, fs[j], b, value);
    assert steps[j..][0] == (fs[j], value) && steps[j..][1..] == steps[j + 1..];
    assert NoOpener(a + value + b);
    RunWithoutOpenerUnchanged(a + value + b, steps[j + 1..]);
  }

  /** In a whole document: a body run holding one form of the key amid plain
      text comes back with the value in its place. */
  lemma FillsBodyRun(d: Document, i: int, k: int, a: string, key: string, value: string, b: string, j: int)
    requires 0 <= i < |d.paragraphs| && 0 <= k < |d.paragraphs[i].runs|
    requires NoOpener(a) && NoOpener(key) && NoOpener(value) && NoOpener(b) && 0 <= j < 4
    requires d.paragraphs[i].runs[k] == a + Forms(key)[j] + b
    ensures var r := ReplacePlaceholders(d, [(key, value)]);
            |r.paragraphs| == |d.paragraphs| && |r.paragraphs[i].runs| == |d.paragraphs[i].runs|
            && r.paragraphs[i].runs[k] == a + value + b
  {
    FillsFormInText(a, key, value, b, j);
  }
}
