/**
 The delimiter grammars of the detectors and `re.findall` over them.

 Every pattern the detectors use has the shape `open ([^X]+) close`, where the
 negated class X contains the first character of `close`. The greedy run of
 allowed characters therefore stops exactly where `close` would have to start,
 and backtracking to a shorter run can never let `close` match (the character
 after a shorter run is an allowed one, so it is not the first character of
 `close`). `re.findall` over such a pattern is thus the deterministic scan
 below: at each position, if `open` is there, take the maximal run of allowed
 characters; when that run is non-empty and `close` follows, report it and
 resume after `close`; otherwise move on by one character.
 */
module Scanner {
  import opened Text

  datatype Grammar = Grammar(opener: string, closer: string, excluded: set<char>)

  /** The shape every detector pattern has; it is what makes the scan deterministic. */
  predicate WellFormed(g: Grammar) {
    |g.opener| > 0 && |g.closer| > 0 && g.closer[0] in g.excluded
  }

  /** `{{([^}]+)}}`, used by both variants. */
  const DoubleBrace := Grammar("{{", "}}", {'}'})
  /** `{([^{}]+)}` of app.py. */
  const AppBrace := Grammar("{", "}", {'{', '}'})
  /** `\[([^\[\]]+)\]` of app.py. */
  const AppBracket := Grammar("[", "]", {'[', ']'})
  /** `<<([^<>]+)>>` of app.py. */
  const AppAngle := Grammar("<<", ">>", {'<', '>'})
  /** `{([^}]+)}` of LegalMate.py: only the closing brace is excluded. */
  const LegacyBrace := Grammar("{", "}", {'}'})
  /** `\[([^]]+)\]` of LegalMate.py: only the closing bracket is excluded. */
  const LegacyBracket := Grammar("[", "]", {']'})
  /** `<<([^>]+)>>` of LegalMate.py. */
  const LegacyAngle := Grammar("<<", ">>", {'>'})

  /** End of the maximal run of allowed characters that starts at `k`. */
  function RunEnd(text: string, k: nat, excluded: set<char>): (j: nat)
    requires k <= |text|
    ensures k <= j <= |text|
    ensures forall i :: k <= i < j ==> text[i] !in excluded
    ensures j == |text| || text[j] in excluded
    decreases |text| - k
  {
    if k == |text| || text[k] in excluded then k else RunEnd(text, k + 1, excluded)
  }

  /** What a capture of grammar `g` in `text` is: a non-empty run of allowed
      characters that occurs in `text` between the opening and closing delimiter. */
  predicate Delimited(text: string, g: Grammar, c: string) {
    && |c| > 0
    && (forall i :: 0 <= i < |c| ==> c[i] !in g.excluded)
    && Contains(text, g.opener + c + g.closer)
  }

  /** The capture `c` stands between the delimiters that start at `pos`. */
  predicate DelimitedAt(text: string, g: Grammar, c: string, pos: int) {
    && |c| > 0
    && (forall i :: 0 <= i < |c| ==> c[i] !in g.excluded)
    && OccursAt(text, g.opener + c + g.closer, pos)
  }

  /** The captures `caps` stand at the positions `pos`, none before `i`, left
      to right, each match ending before the next one starts. */
  predicate InTextOrder(text: string, g: Grammar, caps: seq<string>, pos: seq<int>, i: int) {
    && |pos| == |caps|
    && (forall k :: 0 <= k < |caps| ==> i <= pos[k] && DelimitedAt(text, g, caps[k], pos[k]))
    && (forall k :: 0 <= k < |caps| - 1 ==> pos[k] + |g.opener + caps[k] + g.closer| <= pos[k + 1])
  }

  /** What the scan does at position `i < |text|`: the capture found there,
      if any, and the position it resumes from. */
  function ScanStep(text: string, g: Grammar, i: nat): (r: (seq<string>, nat))
    requires WellFormed(g) && i < |text|
    ensures i < r.1 <= |text| && |r.0| <= 1
    ensures forall k :: 0 <= k < |r.0| ==> Delimited(text, g, r.0[k])
  {
    if OccursAt(text, g.opener, i) then
      var start := i + |g.opener|;
      var j := RunEnd(text, start, g.excluded);
      if start < j && OccursAt(text, g.closer, j) then
        var c := text[start..j];
        assert text[i..j + |g.closer|] == g.opener + c + g.closer;
        assert OccursAt(text, g.opener + c + g.closer, i);
        ([c], j + |g.closer|)
      else ([], i + 1)
    else ([], i + 1)
  }

  /** `re.findall` from position `i` on. */
  function ScanFrom(text: string, g: Grammar, i: nat): (caps: seq<string>)
    requires WellFormed(g) && i <= |text|
    ensures forall k :: 0 <= k < |caps| ==> Delimited(text, g, caps[k])
    decreases |text| - i
  {
    if i == |text| then []
    else
      var (found, next) := ScanStep(text, g, i);
      found + ScanFrom(text, g, next)
  }

  /** Where each capture of the scan from `i` on was found. */
  function MatchStarts(text: string, g: Grammar, i: nat): (pos: seq<int>)
    requires WellFormed(g) && i <= |text|
    ensures InTextOrder(text, g, ScanFrom(text, g, i), pos, i)
    decreases |text| - i
  {
    if i == |text| then []
    else
      var rest := MatchStarts(text, g, ScanStep(text, g, i).1);
      MatchStartsStep(text, g, i, rest);
      (if |ScanStep(text, g, i).0| == 1 then [i] else []) + rest
  }

  /** One step of the scan puts its match, if any, in front of the later ones. */
  lemma MatchStartsStep(text: string, g: Grammar, i: nat, rest: seq<int>)
    requires WellFormed(g) && i < |text|
    requires InTextOrder(text, g, ScanFrom(text, g, ScanStep(text, g, i).1), rest, ScanStep(text, g, i).1)
    ensures InTextOrder(text, g, ScanFrom(text, g, i),
                        (if |ScanStep(text, g, i).0| == 1 then [i] else []) + rest, i)
  {
    var st := ScanStep(text, g, i);
    var later := ScanFrom(text, g, st.1);
    ScanFromUnfold(text, g, i);
    StepMatchAt(text, g, i);
    if |st.0| == 1 {
      InTextOrderCons(text, g, st.0[0], i, later, rest, st.1);
      assert [st.0[0]] == st.0;
    } else {
      assert st.0 + later == later;
      InTextOrderLater(text, g, later, rest, st.1, i);
      assert [] + rest == rest;
    }
  }

  /** A capture of one step stands at the step's position, and the scan resumes after its closer. */
  lemma StepMatchAt(text: string, g: Grammar, i: nat)
    requires WellFormed(g) && i < |text|
    ensures var st := ScanStep(text, g, i);
            |st.0| == 1 ==> DelimitedAt(text, g, st.0[0], i) && st.1 == i + |g.opener + st.0[0] + g.closer|
  {
    var st := ScanStep(text, g, i);
    if |st.0| == 1 {
      var start := i + |g.opener|;
      var j := RunEnd(text, start, g.excluded);
      assert OccursAt(text, g.opener, i) && start < j && OccursAt(text, g.closer, j);
      var c := text[start..j];
      assert st == ([c], j + |g.closer|);
      assert text[i..j + |g.closer|] == g.opener + c + g.closer;
    }
  }

  /** One step of `ScanFrom`, spelled out. */
  lemma ScanFromUnfold(text: string, g: Grammar, i: nat)
    requires WellFormed(g) && i < |text|
    ensures ScanFrom(text, g, i) == ScanStep(text, g, i).0 + ScanFrom(text, g, ScanStep(text, g, i).1)
  {
  }

  /** A match in front of matches that start after it keeps the order. */
  lemma InTextOrderCons(text: string, g: Grammar, c: string, p: int, caps: seq<string>, pos: seq<int>, next: int)
    requires DelimitedAt(text, g, c, p) && p + |g.opener + c + g.closer| <= next
    requires InTextOrder(text, g, caps, pos, next)
    ensures InTextOrder(text, g, [c] + caps, [p] + pos, p)
  {
    var cs, ps := [c] + caps, [p] + pos;
    forall k | 0 <= k < |cs| ensures p <= ps[k] && DelimitedAt(text, g, cs[k], ps[k]) {
      if k > 0 {
        assert cs[k] == caps[k - 1] && ps[k] == pos[k - 1];
      }
    }
    forall k | 0 <= k < |cs| - 1 ensures ps[k] + |g.opener + cs[k] + g.closer| <= ps[k + 1] {
      if k > 0 {
        assert cs[k] == caps[k - 1] && ps[k] == pos[k - 1] && ps[k + 1] == pos[k];
      }
    }
  }

  /** Order from a later position is order from an earlier one. */
  lemma InTextOrderLater(text: string, g: Grammar, caps: seq<string>, pos: seq<int>, next: int, i: int)
    requires InTextOrder(text, g, caps, pos, next) && i <= next
    ensures InTextOrder(text, g, caps, pos, i)
  {
  }

  /** `re.findall` reports its matches left to right, and they do not overlap. */
  lemma FindAllInTextOrder(text: string, g: Grammar)
    requires WellFormed(g)
    ensures exists pos :: InTextOrder(text, g, FindAll(text, g), pos, 0)
  {
    var pos := MatchStarts(text, g, 0);
    assert InTextOrder(text, g, FindAll(text, g), pos, 0);
  }

  /** `re.findall(pattern, text)` for a pattern with one group. */
  function FindAll(text: string, g: Grammar): (caps: seq<string>)
    requires WellFormed(g)
    ensures forall k :: 0 <= k < |caps| ==> Delimited(text, g, caps[k])
  {
    ScanFrom(text, g, 0)
  }

  lemma {:induction false} ScanFromNoOpener(text: string, g: Grammar, i: nat)
    requires WellFormed(g) && i <= |text|
    requires forall p :: i <= p <= |text| ==> !OccursAt(text, g.opener, p)
    ensures ScanFrom(text, g, i) == []
    decreases |text| - i
  {
    if i < |text| {
      ScanFromNoOpener(text, g, i + 1);
    }
  }

  /** Text without the opening delimiter yields no capture. */
  lemma FindAllNoOpener(text: string, g: Grammar)
    requires WellFormed(g) && !Contains(text, g.opener)
    ensures FindAll(text, g) == []
  {
    ScanFromNoOpener(text, g, 0);
  }

  /* ----- completeness for the app.py grammars ----- */

  /** A grammar whose opening delimiter is made of excluded characters and
      whose closing delimiter does not hold the opening one's first character:
      no scan can run past an occurrence of the opening delimiter, and no
      closing delimiter can overlap one. All three single-character-class
      grammars of app.py have this shape; the double-brace grammar and
      LegalMate.py's do not. */
  predicate Separating(g: Grammar) {
    && WellFormed(g)
    && (forall t :: 0 <= t < |g.opener| ==> g.opener[t] in g.excluded)
    && (forall t :: 0 <= t < |g.closer| ==> g.closer[t] != g.opener[0])
  }

  lemma AppGrammarsSeparating()
    ensures Separating(AppBrace) && Separating(AppBracket) && Separating(AppAngle)
  {
  }

  /** The characters of an occurrence of `t` at `i`. */
  lemma OccursChars(s: string, t: string, i: int)
    requires OccursAt(s, t, i)
    ensures forall k :: i <= k < i + |t| ==> s[k] == t[k - i]
  {
    forall k | i <= k < i + |t| ensures s[k] == t[k - i] {
      assert s[i..i + |t|][k - i] == s[k];
    }
  }

  /** The characters of an occurrence of `opener + c + closer` at `pos`. */
  lemma DelimitedChars(text: string, g: Grammar, c: string, pos: int)
    requires OccursAt(text, g.opener + c + g.closer, pos)
    ensures forall t :: pos <= t < pos + |g.opener| ==> text[t] == g.opener[t - pos]
    ensures forall t :: pos + |g.opener| <= t < pos + |g.opener| + |c| ==> text[t] == c[t - pos - |g.opener|]
    ensures forall t :: pos + |g.opener| + |c| <= t < pos + |g.opener| + |c| + |g.closer| ==>
              text[t] == g.closer[t - pos - |g.opener| - |c|]
  {
    var w := g.opener + c + g.closer;
    assert forall t :: pos <= t < pos + |w| ==> text[t] == w[t - pos] by {
      forall t | pos <= t < pos + |w| ensures text[t] == w[t - pos] {
        assert text[pos..pos + |w|][t - pos] == text[t];
      }
    }
  }

  /** The run of allowed characters that starts right after an opening
      delimiter at `pos` is the capture `c`. */
  lemma RunEndAtCapture(text: string, g: Grammar, c: string, pos: int)
    requires WellFormed(g) && 0 <= pos && OccursAt(text, g.opener + c + g.closer, pos)
    requires forall t :: 0 <= t < |c| ==> c[t] !in g.excluded
    ensures RunEnd(text, pos + |g.opener|, g.excluded) == pos + |g.opener| + |c|
    ensures OccursAt(text, g.opener, pos) && OccursAt(text, g.closer, pos + |g.opener| + |c|)
    ensures text[pos + |g.opener|..pos + |g.opener| + |c|] == c
  {
    DelimitedChars(text, g, c, pos);
    var start, e := pos + |g.opener|, pos + |g.opener| + |c|;
    assert text[e] == g.closer[0];
    var j := RunEnd(text, start, g.excluded);
    assert forall t :: start <= t < e ==> text[t] !in g.excluded;
    assert j == e;
    assert text[pos..pos + |g.opener|] == g.opener;
    assert text[e..e + |g.closer|] == g.closer;
    assert text[start..e] == c;
  }

  /** At an occurrence of `opener + c + closer` the scan reports `c`. */
  lemma StepAtCapture(text: string, g: Grammar, c: string, pos: nat)
    requires WellFormed(g) && OccursAt(text, g.opener + c + g.closer, pos)
    requires |c| > 0 && forall t :: 0 <= t < |c| ==> c[t] !in g.excluded
    ensures pos < |text| && ScanStep(text, g, pos).0 == [c]
  {
    RunEndAtCapture(text, g, c, pos);
  }

  /** A scan that starts before an occurrence of `opener + c + closer`
      resumes at or before it: a capture cannot run over the occurrence's
      opening delimiter, and a closing delimiter cannot overlap it. */
  lemma StepStaysBefore(text: string, g: Grammar, c: string, pos: int, i: nat)
    requires Separating(g) && i < pos && OccursAt(text, g.opener + c + g.closer, pos)
    ensures ScanStep(text, g, i).1 <= pos
  {
    DelimitedChars(text, g, c, pos);
    var o, cl := g.opener, g.closer;
    assert text[pos] == o[0] && text[pos] in g.excluded;
    assert forall t :: pos <= t < pos + |o| ==> text[t] in g.excluded;
    if OccursAt(text, o, i) {
      var start := i + |o|;
      var j := RunEnd(text, start, g.excluded);
      if start < j && OccursAt(text, cl, j) {
        assert start <= pos;
        assert j <= pos;
        OccursChars(text, cl, j);
        assert j + |cl| <= pos;
      }
    }
  }

  /** With a separating grammar, the scan from any position up to an
      occurrence of `opener + c + closer` reports `c`. */
  lemma {:induction false} ScanFromFinds(text: string, g: Grammar, c: string, pos: int, i: nat)
    requires Separating(g) && i <= pos && OccursAt(text, g.opener + c + g.closer, pos)
    requires |c| > 0 && forall t :: 0 <= t < |c| ==> c[t] !in g.excluded
    ensures c in ScanFrom(text, g, i)
    decreases |text| - i
  {
    var r := ScanStep(text, g, i);
    assert ScanFrom(text, g, i) == r.0 + ScanFrom(text, g, r.1);
    if i == pos {
      StepAtCapture(text, g, c, pos);
    } else {
      StepStaysBefore(text, g, c, pos, i);
      ScanFromFinds(text, g, c, pos, r.1);
    }
  }

  /** With a separating grammar every capture in the text is reported. */
  lemma FindAllComplete(text: string, g: Grammar, c: string)
    requires Separating(g) && Delimited(text, g, c)
    ensures c in FindAll(text, g)
  {
    var pos :| 0 <= pos <= |text| && OccursAt(text, g.opener + c + g.closer, pos);
    ScanFromFinds(text, g, c, pos, 0);
  }

  /** For the single-character-class grammars of app.py, `re.findall` reports
      exactly the captures of the text. */
  lemma AppFindAllExact(text: string, g: Grammar, c: string)
    requires g == AppBrace || g == AppBracket || g == AppAngle
    ensures c in FindAll(text, g) <==> Delimited(text, g, c)
  {
    AppGrammarsSeparating();
    if Delimited(text, g, c) {
      FindAllComplete(text, g, c);
    }
  }

  /* ----- how the grammars see `{{Name}}` ----- */

  lemma DoubleBraceScan()
    ensures FindAll("{{Name}}", DoubleBrace) == ["Name"]
  {
    var t := "{{Name}}";
    assert OccursAt(t, "{{", 0);
    assert RunEnd(t, 2, {'}'}) == 6;
    assert OccursAt(t, "}}", 6);
    assert t[2..6] == "Name";
    assert ScanFrom(t, DoubleBrace, 8) == [];
  }

  /** app.py's single-brace pattern excludes `{`, so it re-finds the inner label
      of a double-brace placeholder and nothing else. */
  lemma AppBraceInsideDoubleBrace()
    ensures FindAll("{{Name}}", AppBrace) == ["Name"]
  {
    var t := "{{Name}}";
    assert OccursAt(t, "{", 0);
    assert RunEnd(t, 1, {'{', '}'}) == 1;
    assert OccursAt(t, "{", 1);
    assert RunEnd(t, 2, {'{', '}'}) == 6;
    assert OccursAt(t, "}", 6);
    assert t[2..6] == "Name";
    assert t[7..8] == "}";
    assert !OccursAt(t, "{", 7);
    assert ScanFrom(t, AppBrace, 8) == [];
  }

  /** LegalMate.py's single-brace pattern lets `{` into the label, so it
      captures the inner brace together with the label. */
  lemma LegacyBraceInsideDoubleBrace()
    ensures FindAll("{{Name}}", LegacyBrace) == ["{Name"]
  {
    var t := "{{Name}}";
    assert OccursAt(t, "{", 0);
    assert RunEnd(t, 1, {'}'}) == 6;
    assert OccursAt(t, "}", 6);
    assert t[1..6] == "{Name";
    assert t[7..8] == "}";
    assert !OccursAt(t, "{", 7);
    assert ScanFrom(t, LegacyBrace, 8) == [];
  }

  /** LegalMate.py's single-brace pattern is not complete: `Name` sits
      between `{` and `}` in `{{Name}}`, but the scan reports `{Name` instead. */
  lemma LegacyBraceMissesInnerLabel()
    ensures Delimited("{{Name}}", LegacyBrace, "Name")
    ensures "Name" !in FindAll("{{Name}}", LegacyBrace)
  {
    DelimitedByOccurrence("{{Name}}", LegacyBrace, "Name", 1);
    LegacyBraceInsideDoubleBrace();
  }

  /** The same holds for brackets: `[[x]]` gives `[x`, not `x`. */
  lemma LegacyBracketInsideDoubleBracket()
    ensures FindAll("[[x]]", LegacyBracket) == ["[x"]
  {
    var t := "[[x]]";
    assert OccursAt(t, "[", 0);
    assert RunEnd(t, 1, {']'}) == 3;
    assert OccursAt(t, "]", 3);
    assert t[1..3] == "[x";
    assert t[4..5] == "]";
    assert !OccursAt(t, "[", 4);
    assert ScanFrom(t, LegacyBracket, 5) == [];
  }

  lemma LegacyBracketMissesInnerLabel()
    ensures Delimited("[[x]]", LegacyBracket, "x")
    ensures "x" !in FindAll("[[x]]", LegacyBracket)
  {
    DelimitedByOccurrence("[[x]]", LegacyBracket, "x", 1);
    LegacyBracketInsideDoubleBracket();
  }

  /** An occurrence of opener, label and closer at `i` makes the label delimited. */
  lemma DelimitedByOccurrence(text: string, g: Grammar, c: string, i: nat)
    requires |c| > 0 && forall k :: 0 <= k < |c| ==> c[k] !in g.excluded
    requires i + |g.opener + c + g.closer| <= |text|
    requires text[i..i + |g.opener + c + g.closer|] == g.opener + c + g.closer
    ensures Delimited(text, g, c)
  {
    assert OccursAt(text, g.opener + c + g.closer, i);
  }
}
