/**
 What the replacement loops of `replace_placeholders_in_docx` do to a run that
 holds several placeholders at once. A run is described as a template: plain
 text pieces and holes, each hole one of the four forms of one key of the
 dictionary. When the keys are plain words (no delimiter characters), the
 keys are distinct, as the keys of a dictionary are, and neither the text nor
 the values contain `{`, `[` or `<`, every hole ends up as its key's value and
 the text between the holes is kept.
 */
module Filling {
  import opened Text
  import opened Docx
  import opened Substitution

  /** The opening and closing delimiter of the form with index `j`. */
  function Opening(j: int): string
    requires 0 <= j < 4
  {
    ["{{", "{", "[", "<<"][j]
  }

  function Closing(j: int): string
    requires 0 <= j < 4
  {
    ["}}", "}", "]", ">>"][j]
  }

  lemma FormParts(key: string, j: int)
    requires 0 <= j < 4
    ensures Forms(key)[j] == Opening(j) + key + Closing(j)
  {
  }

  predicate IsDelimiter(c: char) {
    IsFormOpener(c) || c == '}' || c == ']' || c == '>'
  }

  /** A key without any delimiter character. */
  predicate PlainKey(k: string) {
    forall i :: 0 <= i < |k| ==> !IsDelimiter(k[i])
  }

  /** The first `fl` characters of `s` are a form: the opening delimiter `o`,
      the key `k` and a closing delimiter, and only the opening delimiter holds
      `{`, `[` or `<`. */
  predicate FormAt(s: string, fl: int, o: string, k: string) {
    && 0 < |o| && |o| + |k| < fl <= |s|
    && (forall t :: 0 <= t < |o| ==> s[t] == o[t] && IsFormOpener(s[t]))
    && (forall t :: |o| <= t < fl ==> !IsFormOpener(s[t]))
    && (forall t :: 0 <= t < |k| ==> s[|o| + t] == k[t])
    && (forall t :: |o| <= t < |o| + |k| ==> !IsDelimiter(s[t]))
    && IsDelimiter(s[|o| + |k|])
  }

  /** A string that starts with a form of a plain key has that form's shape. */
  lemma FormChars(k: string, j: int, s: string)
    requires PlainKey(k) && 0 <= j < 4
    requires |Forms(k)[j]| <= |s| && s[..|Forms(k)[j]|] == Forms(k)[j]
    ensures FormAt(s, |Forms(k)[j]|, Opening(j), k)
  {
    FormParts(k, j);
    var f := Forms(k)[j];
    assert forall t :: 0 <= t < |f| ==> s[t] == f[t] by {
      forall t | 0 <= t < |f| ensures s[t] == f[t] {
        assert s[..|f|][t] == s[t];
      }
    }
  }

  /** Where a form can start inside another form: only at its start, when the
      forms are equal, or one character in, where `{k}` sits inside `{{k}}`. */
  lemma FormOccurrence(k: string, j: int, k2: string, j2: int, rest: string, p: int)
    requires PlainKey(k) && PlainKey(k2) && 0 <= j < 4 && 0 <= j2 < 4
    requires 0 <= p < |Forms(k)[j]| && OccursAt(Forms(k)[j] + rest, Forms(k2)[j2], p)
    ensures k2 == k
    ensures (p == 0 && j2 == j) || (p == 1 && j == 0 && j2 == 1)
  {
    var s := Forms(k)[j] + rest;
    var pat := Forms(k2)[j2];
    assert s[..|Forms(k)[j]|] == Forms(k)[j];
    FormChars(k, j, s);
    assert pat[..|pat|] == pat;
    FormChars(k2, j2, pat);
    OccurrenceAligns(s, |Forms(k)[j]|, Opening(j), k, pat, Opening(j2), k2, p);
    OpeningSuffix(j, j2, p);
  }

  /** The same for any two form shapes: a pattern shaped as a form, found at
      `p` inside a form of `s`, has the same key, and its opening delimiter is
      what is left of the form's from `p` on. */
  lemma OccurrenceAligns(s: string, fl: int, o: string, k: string, pat: string, o2: string, k2: string, p: int)
    requires FormAt(s, fl, o, k) && FormAt(pat, |pat|, o2, k2)
    requires 0 <= p < fl && OccursAt(s, pat, p)
    ensures p <= |o| && k2 == k && o2 == o[p..]
  {
    assert forall t :: 0 <= t < |pat| ==> s[p + t] == pat[t] by {
      forall t | 0 <= t < |pat| ensures s[p + t] == pat[t] {
        assert s[p..p + |pat|][t] == s[p + t];
      }
    }
    OpenersAlign(s, pat, p, |o|, fl, |o2|);
    KeysAlign(s, pat, p, |o|, k, |o2|, k2);
    PrefixAlign(s, pat, p, o, o2);
  }

  /** A pattern whose opening delimiter is followed by a non-opener, found at
      position `p` inside a form, ends its opening delimiter where the form's
      opening delimiter ends. */
  lemma OpenersAlign(s: string, pat: string, p: int, lo: int, fl: int, lo2: int)
    requires 0 <= p < fl <= |s| && 0 <= lo < fl && 0 < lo2 < |pat| && p + |pat| <= |s|
    requires forall t :: 0 <= t < lo ==> IsFormOpener(s[t])
    requires forall t :: lo <= t < fl ==> !IsFormOpener(s[t])
    requires forall t :: 0 <= t < lo2 ==> IsFormOpener(pat[t])
    requires !IsFormOpener(pat[lo2])
    requires forall t :: 0 <= t < |pat| ==> s[p + t] == pat[t]
    ensures p + lo2 == lo
  {
    assert s[p + lo2] == pat[lo2];
    assert s[p] == pat[0];
    assert p < lo;
    assert IsFormOpener(pat[lo - p]) <==> lo - p < lo2;
    assert s[lo] == pat[lo - p];
  }

  /** Two keys read from aligned positions, each ended by a delimiter, agree in length. */
  lemma KeysAlign(s: string, pat: string, p: int, a: int, k: string, b: int, k2: string)
    requires 0 <= p && a == p + b && a + |k| < |s| && 0 <= b && b + |k2| < |pat|
    requires p + |pat| <= |s|
    requires forall t :: 0 <= t < |pat| ==> s[p + t] == pat[t]
    requires forall t :: 0 <= t < |k| ==> s[a + t] == k[t]
    requires forall t :: 0 <= t < |k2| ==> pat[b + t] == k2[t]
    requires forall t :: a <= t < a + |k| ==> !IsDelimiter(s[t])
    requires forall t :: b <= t < b + |k2| ==> !IsDelimiter(pat[t])
    requires IsDelimiter(s[a + |k|]) && IsDelimiter(pat[b + |k2|])
    ensures k == k2
  {
    var n := if |k| < |k2| then |k| else |k2|;
    assert s[p + (b + n)] == pat[b + n];
    forall t | 0 <= t < |k| ensures k[t] == k2[t] {
      assert s[p + (b + t)] == pat[b + t];
    }
  }

  /** The opening delimiter of a pattern found at `p` is what is left of the
      string's opening delimiter from `p` on. */
  lemma PrefixAlign(s: string, pat: string, p: int, o: string, o2: string)
    requires 0 <= p && p + |o2| == |o| <= |s| && |o2| <= |pat| && p + |pat| <= |s|
    requires forall t :: 0 <= t < |o| ==> s[t] == o[t]
    requires forall t :: 0 <= t < |o2| ==> pat[t] == o2[t]
    requires forall t :: 0 <= t < |pat| ==> s[p + t] == pat[t]
    ensures o2 == o[p..]
  {
    forall t | 0 <= t < |o2| ensures o2[t] == o[p..][t] {
      assert s[p + t] == pat[t];
    }
  }

  /** Which opening delimiters end another: each ends itself, and `{` ends `{{`. */
  lemma OpeningSuffix(j: int, j2: int, p: int)
    requires 0 <= j < 4 && 0 <= j2 < 4 && 0 <= p <= |Opening(j)|
    requires Opening(j2) == Opening(j)[p..]
    ensures (p == 0 && j2 == j) || (p == 1 && j == 0 && j2 == 1)
  {
    assert Opening(j2)[0] == Opening(j)[p];
  }

  /* ----- runs as templates ----- */

  /** A piece of a run: text, or the form with index `form` of the key of
      item `item`. */
  datatype Piece = Plain(text: string) | Hole(item: nat, form: nat)

  /** Distinct plain keys and values without `{`, `[` or `<`. */
  predicate MappingOk(m: Mapping) {
    && (forall i :: 0 <= i < |m| ==> PlainKey(m[i].0) && NoOpener(m[i].1))
    && (forall a, b :: 0 <= a < b < |m| ==> m[a].0 != m[b].0)
  }

  /** Text pieces without `{`, `[` or `<`, and holes that name an item and a form. */
  predicate TemplateOk(ps: seq<Piece>, m: Mapping) {
    forall q :: 0 <= q < |ps| ==>
      match ps[q]
      case Plain(t) => NoOpener(t)
      case Hole(i, j) => i < |m| && j < 4
  }

  /** A piece once the first `n` steps have been taken: a hole whose step is
      among them holds its value, any other still holds its form. */
  function PieceText(p: Piece, m: Mapping, n: int): string
    requires p.Hole? ==> p.item < |m| && p.form < 4
  {
    match p
    case Plain(t) => t
    case Hole(i, j) => if 4 * i + j < n then m[i].1 else Forms(m[i].0)[j]
  }

  function Render(ps: seq<Piece>, m: Mapping, n: int): string
    requires TemplateOk(ps, m)
  {
    if |ps| == 0 then "" else PieceText(ps[0], m, n) + Render(ps[1..], m, n)
  }

  /** Step `n` turns the run with `n` steps taken into the run with `n + 1`:
      it fills exactly the holes that belong to it. */
  lemma {:induction false} StepOnRender(ps: seq<Piece>, m: Mapping, n: int)
    requires TemplateOk(ps, m) && MappingOk(m) && 0 <= n < 4 * |m|
    ensures Replace(Render(ps, m, n), Forms(m[n / 4].0)[n % 4], m[n / 4].1) == Render(ps, m, n + 1)
    decreases |ps|
  {
    var i0, j0 := n / 4, n % 4;
    var pat, rep := Forms(m[i0].0)[j0], m[i0].1;
    if |ps| == 0 {
      assert Replace("", pat, rep) == "";
    } else {
      assert TemplateOk(ps[1..], m) by {
        forall q | 0 <= q < |ps[1..]| ensures ps[1..][q] == ps[q + 1] { }
      }
      var tail := Render(ps[1..], m, n);
      StepOnRender(ps[1..], m, n);
      var head := PieceText(ps[0], m, n);
      match ps[0]
      case Plain(t) =>
        assert NoOpener(t) by { assert ps[0] == ps[0 - 0]; }
        ReplaceSkipsPrefix(t, tail, pat, rep);
      case Hole(i, j) =>
        assert i < |m| && j < 4 by { assert ps[0] == ps[0 - 0]; }
        if 4 * i + j < n {
          ReplaceSkipsPrefix(m[i].1, tail, pat, rep);
        } else if 4 * i + j == n {
          assert i == i0 && j == j0;
          ReplaceAtFront(pat, tail, rep);
        } else {
          LaterFormAbsent(m, i, j, n, tail);
          ReplaceSkipsNoMatch(Forms(m[i].0)[j], tail, pat, rep);
        }
    }
  }

  /** The form of a later step does not hold the form of step `n` anywhere
      it starts, whatever follows it. */
  lemma LaterFormAbsent(m: Mapping, i: int, j: int, n: int, rest: string)
    requires MappingOk(m) && 0 <= i < |m| && 0 <= j < 4 && 0 <= n < 4 * i + j && n < 4 * |m|
    ensures forall p :: 0 <= p < |Forms(m[i].0)[j]| ==>
              !OccursAt(Forms(m[i].0)[j] + rest, Forms(m[n / 4].0)[n % 4], p)
  {
    var i0, j0 := n / 4, n % 4;
    forall p | 0 <= p < |Forms(m[i].0)[j]|
      ensures !OccursAt(Forms(m[i].0)[j] + rest, Forms(m[i0].0)[j0], p)
    {
      if OccursAt(Forms(m[i].0)[j] + rest, Forms(m[i0].0)[j0], p) {
        FormOccurrence(m[i].0, j, m[i0].0, j0, rest, p);
      }
    }
  }

  /** The run as written: every hole holds its form. */
  function Template(ps: seq<Piece>, m: Mapping): string
    requires TemplateOk(ps, m)
  {
    if |ps| == 0 then ""
    else
      var head := match ps[0]
        case Plain(t) => t
        case Hole(i, j) => Forms(m[i].0)[j];
      head + Template(ps[1..], m)
  }

  /** The run as it should end: every hole holds its key's value. */
  function Filled(ps: seq<Piece>, m: Mapping): string
    requires TemplateOk(ps, m)
  {
    if |ps| == 0 then ""
    else
      var head := match ps[0]
        case Plain(t) => t
        case Hole(i, _) => m[i].1;
      head + Filled(ps[1..], m)
  }

  /** Before any step the run is the template as written. */
  lemma {:induction false} RenderStart(ps: seq<Piece>, m: Mapping)
    requires TemplateOk(ps, m)
    ensures Render(ps, m, 0) == Template(ps, m)
    decreases |ps|
  {
    if |ps| > 0 {
      assert TemplateOk(ps[1..], m) by {
        forall q | 0 <= q < |ps[1..]| ensures ps[1..][q] == ps[q + 1] { }
      }
      RenderStart(ps[1..], m);
    }
  }

  /** After every step each hole holds its value. */
  lemma {:induction false} RenderEnd(ps: seq<Piece>, m: Mapping)
    requires TemplateOk(ps, m)
    ensures Render(ps, m, 4 * |m|) == Filled(ps, m)
    decreases |ps|
  {
    if |ps| > 0 {
      assert TemplateOk(ps[1..], m) by {
        forall q | 0 <= q < |ps[1..]| ensures ps[1..][q] == ps[q + 1] { }
      }
      RenderEnd(ps[1..], m);
    }
  }

  /** The steps from step `n` on fill every hole not filled yet. */
  lemma {:induction false} SubstFrom(ps: seq<Piece>, m: Mapping, n: nat)
    requires TemplateOk(ps, m) && MappingOk(m) && n <= 4 * |m|
    ensures RunSubst(Render(ps, m, n), Steps(m)[n..]) == Render(ps, m, 4 * |m|)
    decreases 4 * |m| - n
  {
    var st := Steps(m);
    if n < 4 * |m| {
      assert st[n] == (Forms(m[n / 4].0)[n % 4], m[n / 4].1) by {
        assert 4 * (n / 4) + n % 4 == n;
      }
      StepOnRender(ps, m, n);
      assert st[n..][1..] == st[n + 1..];
      SubstFrom(ps, m, n + 1);
    } else {
      assert st[n..] == [];
    }
  }

  /** A run made of text and placeholders ends with every placeholder replaced
      by its key's value and the text between them kept. */
  lemma FillsTemplate(ps: seq<Piece>, m: Mapping)
    requires TemplateOk(ps, m) && MappingOk(m)
    ensures RunSubst(Template(ps, m), Steps(m)) == Filled(ps, m)
  {
    RenderStart(ps, m);
    RenderEnd(ps, m);
    SubstFrom(ps, m, 0);
    assert Steps(m)[0..] == Steps(m);
  }

  /** The same for a run of a body paragraph of the document. */
  lemma BodyRunFilled(d: Document, m: Mapping, i: int, k: int, ps: seq<Piece>)
    requires 0 <= i < |d.paragraphs| && 0 <= k < |d.paragraphs[i].runs|
    requires TemplateOk(ps, m) && MappingOk(m) && d.paragraphs[i].runs[k] == Template(ps, m)
    ensures ReplacePlaceholders(d, m).paragraphs[i].runs[k] == Filled(ps, m)
  {
    FillsTemplate(ps, m);
  }

  /** The same for a run of a table cell. */
  lemma CellRunFilled(d: Document, m: Mapping, t: int, ri: int, ci: int, j: int, k: int, ps: seq<Piece>)
    requires 0 <= t < |d.tables| && 0 <= ri < |d.tables[t].rows|
    requires 0 <= ci < |d.tables[t].rows[ri].cells|
    requires 0 <= j < |d.tables[t].rows[ri].cells[ci].paragraphs|
    requires 0 <= k < |d.tables[t].rows[ri].cells[ci].paragraphs[j].runs|
    requires TemplateOk(ps, m) && MappingOk(m)
    requires d.tables[t].rows[ri].cells[ci].paragraphs[j].runs[k] == Template(ps, m)
    ensures var r := ReplacePlaceholders(d, m);
            |r.tables| == |d.tables| && |r.tables[t].rows| == |d.tables[t].rows|
            && |r.tables[t].rows[ri].cells| == |d.tables[t].rows[ri].cells|
            && |r.tables[t].rows[ri].cells[ci].paragraphs| == |d.tables[t].rows[ri].cells[ci].paragraphs|
            && |r.tables[t].rows[ri].cells[ci].paragraphs[j].runs| == |d.tables[t].rows[ri].cells[ci].paragraphs[j].runs|
            && r.tables[t].rows[ri].cells[ci].paragraphs[j].runs[k] == Filled(ps, m)
  {
    FillsTemplate(ps, m);
  }
}
