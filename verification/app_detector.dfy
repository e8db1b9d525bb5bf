/**
 Placeholder detection of app.py (`extract_text_and_placeholders` and
 `find_context_for_blank`): four grammars scanned one after the other, every
 capture stripped, then a filter chain that keeps the first occurrence of each
 accepted label. The result is in grammar order (all `{{...}}` labels, then
 `{...}`, then `[...]`, then `<<...>>`), not in document order.
 */
module AppDetector {
  import opened Text
  import opened Lists
  import opened Scanner
  import opened Docx

  /** The formatting artifacts app.py refuses as labels (compared after lower-casing). */
  const SkipWords: seq<string> := [
    "underline", "bold", "italic", "strike", "strikethrough",
    "excluding", "other than", "provided", "including",
    "without limitation", "e.g.", "i.e.", "etc"
  ]

  /** `re.match(r'^[cls]+$', p)`: one or more class characters up to the end,
      where `$` may also match just before a final "\n". */
  predicate WholeMatch(p: string, cls: char -> bool) {
    || (|p| > 0 && forall i :: 0 <= i < |p| ==> cls(p[i]))
    || (|p| > 1 && p[|p| - 1] == '\n' && forall i :: 0 <= i < |p| - 1 ==> cls(p[i]))
  }

  /** The class `[^\w\s]` of punctuation. */
  predicate PunctuationChar(c: char) { !IsWordChar(c) && !IsSpace(c) }

  /** A label made only of underscores, whitespace and dashes. */
  predicate IsBlankRun(p: string) { WholeMatch(p, BlankChar) }

  predicate IsPunctuationOnly(p: string) { WholeMatch(p, PunctuationChar) }

  /** `re.search(r'[a-zA-Z_]', p)`. */
  predicate HasLetterOrUnderscore(p: string) {
    exists i :: 0 <= i < |p| && (IsLetter(p[i]) || p[i] == '_')
  }

  /** The bracketed literal `[blank]` that `find_context_for_blank` looks for. */
  function Bracketed(blank: string): string {
    "[" + blank + "]"
  }

  /* ----- find_context_for_blank ----- */

  datatype FieldTag = AmountField | PriceField | CurrencyField | DateField | NameField | BlankField

  predicate IsMoneyTag(t: FieldTag) {
    t.AmountField? || t.PriceField? || t.CurrencyField?
  }

  const DateWords: seq<string> := ["date", "dated", "day of"]
  const NameWords: seq<string> := ["name", "named", "by and between"]

  /** The tag for the text seen before a blank: a `$` among its last 10
      characters decides first, then date words and name words among its last 30. */
  function ClassifyBlank(before: string): FieldTag {
    var b := Lower(before);
    if '$' in Last(b, 10) then
      if Contains(b, "amount") then AmountField
      else if Contains(b, "price") || Contains(b, "value") then PriceField
      else CurrencyField
    else if ContainsAny(Last(b, 30), DateWords) then DateField
    else if ContainsAny(Last(b, 30), NameWords) then NameField
    else BlankField
  }

  /* ----- the look-behind search ----- */

  /** No newline among `text[s..q]`: the characters `.` matches. */
  predicate NoNewline(text: string, s: int, q: int)
    requires 0 <= s <= q <= |text|
  {
    forall t :: s <= t < q ==> text[t] != '\n'
  }

  /** `(.{0,100})` followed by `pat` can match with its group spanning
      `text[s..q]`: at most 100 characters, no newline, then `pat` at `q`. */
  predicate WindowAt(text: string, pat: string, s: int, q: int) {
    && 0 <= s <= q
    && q - s <= 100
    && OccursAt(text, pat, q)
    && NoNewline(text, s, q)
  }

  /** The greedy group from `s`: the longest window that ends at or before `q`. */
  function GreedyEnd(text: string, pat: string, s: nat, q: int): (r: Option<nat>)
    ensures r.Some? ==> s <= r.value <= q && WindowAt(text, pat, s, r.value)
    ensures forall q' :: (if r.Some? then r.value else s - 1) < q' <= q ==> !WindowAt(text, pat, s, q')
    decreases q - s
  {
    if q < s then None
    else if WindowAt(text, pat, s, q) then Some(q)
    else GreedyEnd(text, pat, s, q - 1)
  }

  /** `re.search` from start `s` on: the leftmost start with a window, and
      there the longest window. The result is the group's bounds. */
  function SearchFrom(text: string, pat: string, s: nat): (r: Option<(nat, nat)>)
    ensures r.Some? ==> s <= r.value.0 && WindowAt(text, pat, r.value.0, r.value.1)
    ensures r.Some? ==> forall q' :: r.value.1 < q' ==> !WindowAt(text, pat, r.value.0, q')
    ensures forall s', q' :: s <= s' && (r.Some? ==> s' < r.value.0) ==> !WindowAt(text, pat, s', q')
    decreases |text| + 1 - s
  {
    if s > |text| then None
    else match GreedyEnd(text, pat, s, s + 100)
      case Some(q) => Some((s, q))
      case None => SearchFrom(text, pat, s + 1)
  }

  /** The search finds a match exactly when `pat` occurs: a window may be empty. */
  lemma SearchFindsOccurrence(text: string, pat: string)
    ensures SearchFrom(text, pat, 0).None? <==> !Contains(text, pat)
  {
    var r := SearchFrom(text, pat, 0);
    if Contains(text, pat) {
      var i :| 0 <= i <= |text| && OccursAt(text, pat, i);
      assert WindowAt(text, pat, i, i);
    }
    if r.Some? {
      assert OccursAt(text, pat, r.value.1);
    }
  }

  /** The group `match.group(1)` of `re.search(r'(.{0,100})' + re.escape('[blank]'), text)`.
      The blank has no letters, so ignoring case changes nothing. */
  function LookBehind(text: string, blank: string): (r: Option<string>)
    ensures r.None? <==> !Contains(text, Bracketed(blank))
    ensures r.Some? ==> |r.value| <= 100 && '\n' !in r.value
  {
    SearchFindsOccurrence(text, Bracketed(blank));
    match SearchFrom(text, Bracketed(blank), 0)
    case None => None
    case Some((s, q)) => Some(text[s..q])
  }

  /** The group is not "the text before the first blank": the greedy window
      runs on to a later occurrence within reach. */
  lemma GroupReachesLaterBlank()
    ensures LookBehind("ab[___] cd [___]", "___") == Some("ab[___] cd ")
  {
    var text, pat := "ab[___] cd [___]", "[___]";
    assert Bracketed("___") == pat;
    assert OccursAt(text, pat, 11) by { assert text[11..16] == pat; }
    assert NoNewline(text, 0, 11);
    assert WindowAt(text, pat, 0, 11);
    var r := SearchFrom(text, pat, 0);
    assert r.Some? && r.value == (0, 11);
    assert text[0..11] == "ab[___] cd ";
  }

  /** `find_context_for_blank(text, blank)`: None when `[blank]` is absent;
      otherwise the tag for the look-behind group. */
  function FindContextForBlank(text: string, blank: string): (r: Option<FieldTag>)
    ensures r.None? <==> !Contains(text, Bracketed(blank))
    ensures r.Some? ==> LookBehind(text, blank).Some?
                        && (IsMoneyTag(r.value) <==> '$' in Last(Lower(LookBehind(text, blank).value), 10))
  {
    match LookBehind(text, blank)
    case None => None
    case Some(before) =>
      ClassifyBlankCases(before);
      Some(ClassifyBlank(before))
  }

  /** The tag, case by case: the `$` test takes priority over every word test. */
  lemma ClassifyBlankCases(before: string)
    ensures var b := Lower(before);
            var t := ClassifyBlank(before);
            && (t == AmountField <==> '$' in Last(b, 10) && Contains(b, "amount"))
            && (t == PriceField <==> '$' in Last(b, 10) && !Contains(b, "amount")
                                     && (Contains(b, "price") || Contains(b, "value")))
            && (t == CurrencyField <==> '$' in Last(b, 10) && !Contains(b, "amount")
                                        && !Contains(b, "price") && !Contains(b, "value"))
            && (t == DateField <==> '$' !in Last(b, 10) && ContainsAny(Last(b, 30), DateWords))
            && (t == NameField <==> '$' !in Last(b, 10) && !ContainsAny(Last(b, 30), DateWords)
                                    && ContainsAny(Last(b, 30), NameWords))
            && (t == BlankField <==> '$' !in Last(b, 10) && !ContainsAny(Last(b, 30), DateWords)
                                     && !ContainsAny(Last(b, 30), NameWords))
  {
  }

  /* ----- the filter chain ----- */

  /** The filter chain of app.py, test by test in the order the source applies them. */
  predicate Accept(p: string, text: string) {
    if |p| == 0 then false
    else if IsBlankRun(p) then
      (Count(p, '_') >= 3 || Count(p, '-') >= 3) && Contains(text, Bracketed(p))
    else if Lower(p) in SkipWords then false
    else if IsPunctuationOnly(p) then false
    else if IsDigits(p) then false
    else if |p| == 1 then false
    else HasLetterOrUnderscore(p)
  }

  function Acceptor(text: string): string -> bool {
    p => Accept(p, text)
  }

  /** What an accepted label is: a blank run with three underscores or three
      dashes whose bracketed form is in the text, or a label of two or more
      characters, not a skip word, not punctuation, not digits, with a letter or `_`. */
  predicate AcceptedShape(p: string, text: string) {
    || (IsBlankRun(p) && (Count(p, '_') >= 3 || Count(p, '-') >= 3) && Contains(text, Bracketed(p)))
    || (&& !IsBlankRun(p)
        && |p| > 1
        && Lower(p) !in SkipWords
        && !IsPunctuationOnly(p)
        && !IsDigits(p)
        && HasLetterOrUnderscore(p))
  }

  lemma AcceptIffShape(p: string, text: string)
    ensures Accept(p, text) <==> AcceptedShape(p, text)
  {
  }

  /* ----- extraction ----- */

  /** The stripped captures of the four grammars, grammar after grammar. */
  function RawLabels(text: string): seq<string> {
    StripAll(FindAll(text, DoubleBrace)) + StripAll(FindAll(text, AppBrace))
    + StripAll(FindAll(text, AppBracket)) + StripAll(FindAll(text, AppAngle))
  }

  /** One of the four grammars app.py scans. */
  predicate AppGrammar(g: Grammar) {
    g == DoubleBrace || g == AppBrace || g == AppBracket || g == AppAngle
  }

  /** A stripped capture of one grammar is a stripped delimited label. */
  lemma CaptureOf(text: string, g: Grammar, x: string)
    requires WellFormed(g) && x in StripAll(FindAll(text, g))
    ensures exists c :: Delimited(text, g, c) && Strip(c) == x
  {
    var caps := FindAll(text, g);
    var k :| 0 <= k < |caps| && StripAll(caps)[k] == x;
    assert Delimited(text, g, caps[k]);
  }

  /** Every raw label is the stripped text between the delimiters of one of the four grammars. */
  lemma RawLabelsDelimited(text: string)
    ensures forall x :: x in RawLabels(text) ==>
              exists g, c :: AppGrammar(g) && Delimited(text, g, c) && Strip(c) == x
  {
    var d := StripAll(FindAll(text, DoubleBrace));
    var e := StripAll(FindAll(text, AppBrace));
    var f := StripAll(FindAll(text, AppBracket));
    var h := StripAll(FindAll(text, AppAngle));
    assert RawLabels(text) == d + e + f + h;
    forall x | x in RawLabels(text)
      ensures exists g, c :: AppGrammar(g) && Delimited(text, g, c) && Strip(c) == x
    {
      var g := if x in d then DoubleBrace else if x in e then AppBrace
               else if x in f then AppBracket else AppAngle;
      CaptureOf(text, g, x);
      var c :| Delimited(text, g, c) && Strip(c) == x;
      assert AppGrammar(g);
    }
  }

  /** The converse for the single-character grammars and `<<...>>`: every
      delimited label is captured, stripped, among the raw labels. */
  lemma DelimitedInRawLabels(text: string, g: Grammar, c: string)
    requires g == AppBrace || g == AppBracket || g == AppAngle
    requires Delimited(text, g, c)
    ensures Strip(c) in RawLabels(text)
  {
    AppFindAllExact(text, g, c);
    var caps := FindAll(text, g);
    var k :| 0 <= k < |caps| && caps[k] == c;
    assert StripAll(caps)[k] == Strip(c);
    var d := StripAll(FindAll(text, DoubleBrace));
    var e := StripAll(FindAll(text, AppBrace));
    var f := StripAll(FindAll(text, AppBracket));
    var h := StripAll(FindAll(text, AppAngle));
    assert RawLabels(text) == d + e + f + h;
    assert Strip(c) in e + f + h;
  }

  /** The filtering loop: `acc` is the list built so far (the `seen` set is its
      element set); a label is appended when it is new and passes the chain. */
  function KeepFirst(raw: seq<string>, text: string, acc: seq<string>): (r: seq<string>)
    requires NoDup(acc)
    ensures NoDup(r)
    ensures |acc| <= |r| && r[..|acc|] == acc
    ensures forall x :: x in r <==> x in acc || (x in raw && Accept(x, text))
    decreases |raw|
  {
    if |raw| == 0 then acc
    else if raw[0] in acc then KeepFirst(raw[1..], text, acc)
    else if !Accept(raw[0], text) then KeepFirst(raw[1..], text, acc)
    else KeepFirst(raw[1..], text, acc + [raw[0]])
  }

  function Placeholders(text: string): seq<string> {
    KeepFirst(RawLabels(text), text, [])
  }

  /** `extract_text_and_placeholders`: the linear text and its placeholder labels. */
  function ExtractTextAndPlaceholders(d: Document): (r: (string, seq<string>))
    ensures r.0 == DocumentText(d)
    ensures NoDup(r.1)
    ensures forall x :: x in r.1 <==> x in RawLabels(r.0) && AcceptedShape(x, r.0)
  {
    var text := DocumentText(d);
    var labels := Placeholders(text);
    assert forall x :: x in labels ==> AcceptedShape(x, text) by {
      forall x | x in labels ensures AcceptedShape(x, text) {
        AcceptIffShape(x, text);
      }
    }
    assert forall x :: x in RawLabels(text) && AcceptedShape(x, text) ==> x in labels by {
      forall x | x in RawLabels(text) && AcceptedShape(x, text) ensures x in labels {
        AcceptIffShape(x, text);
      }
    }
    (text, labels)
  }

  /* ----- properties of the result ----- */

  lemma {:induction false} KeepFirstIsDedupe(prefix: seq<string>, raw: seq<string>, text: string)
    ensures KeepFirst(raw, text, Dedupe(Select(prefix, Acceptor(text))))
            == Dedupe(Select(prefix + raw, Acceptor(text)))
    decreases |raw|
  {
    if |raw| == 0 {
      assert prefix + raw == prefix;
    } else {
      var p := raw[0];
      assert (prefix + [p]) + raw[1..] == prefix + raw;
      assert Acceptor(text)(p) == Accept(p, text);
      DedupeSelectSnoc(prefix, p, Acceptor(text));
      KeepFirstIsDedupe(prefix + [p], raw[1..], text);
    }
  }

  /** The labels are exactly the first occurrences of the accepted raw labels,
      in the order of the raw list. */
  lemma PlaceholdersAreFirstOccurrences(text: string)
    ensures Placeholders(text) == Dedupe(Select(RawLabels(text), Acceptor(text)))
  {
    KeepFirstIsDedupe([], RawLabels(text), text);
    assert [] + RawLabels(text) == RawLabels(text);
  }

  /** No label twice, and the labels appear in the raw list in the same order. */
  lemma PlaceholdersSubsequence(text: string)
    ensures NoDup(Placeholders(text))
    ensures IsSubsequence(Placeholders(text), RawLabels(text))
  {
    PlaceholdersAreFirstOccurrences(text);
    var selected := Select(RawLabels(text), Acceptor(text));
    var a := SelectEmbeds(RawLabels(text), Acceptor(text));
    var b := DedupeEmbeds(selected);
    var c := ComposeEmbeds(Dedupe(selected), selected, RawLabels(text), b, a);
  }

  /** Every label is an accepted blank run or passes every test of the chain. */
  lemma PlaceholdersFiltered(text: string)
    ensures forall x :: x in Placeholders(text) ==> AcceptedShape(x, text) && |x| > 0 && IsStripped(x)
  {
    var raw := RawLabels(text);
    var d := StripAll(FindAll(text, DoubleBrace));
    var e := StripAll(FindAll(text, AppBrace));
    var f := StripAll(FindAll(text, AppBracket));
    var g := StripAll(FindAll(text, AppAngle));
    assert raw == d + e + f + g;
    forall x | x in Placeholders(text)
      ensures AcceptedShape(x, text) && |x| > 0 && IsStripped(x)
    {
      AcceptIffShape(x, text);
      var i :| 0 <= i < |raw| && raw[i] == x;
      assert x in d || x in e || x in f || x in g;
    }
  }

  /** Completeness for `{...}`, `[...]` and `<<...>>`: a label written
      as `{label}`, `[label]` or `<<label>>`, with none of the class's
      excluded characters inside, whose stripped text passes the filter
      chain, is among the placeholders. */
  lemma DelimitedLabelFound(text: string, g: Grammar, c: string)
    requires g == AppBrace || g == AppBracket || g == AppAngle
    requires Delimited(text, g, c) && Accept(Strip(c), text)
    ensures Strip(c) in Placeholders(text)
  {
    DelimitedInRawLabels(text, g, c);
  }

  /** Text with no `{`, `[` or `<` has no placeholder. */
  lemma NoMarkersNoPlaceholders(text: string)
    requires '{' !in text && '[' !in text && '<' !in text
    ensures Placeholders(text) == []
  {
    NotContains(text, DoubleBrace.opener);
    NotContains(text, AppBrace.opener);
    NotContains(text, AppBracket.opener);
    NotContains(text, AppAngle.opener);
    FindAllNoOpener(text, DoubleBrace);
    FindAllNoOpener(text, AppBrace);
    FindAllNoOpener(text, AppBracket);
    FindAllNoOpener(text, AppAngle);
    assert RawLabels(text) == [];
  }

  /* ----- a double-brace placeholder is asked for once ----- */

  lemma NameAccepted(text: string)
    ensures Accept("Name", text)
  {
    var p := "Name";
    assert !BlankChar(p[0]);
    assert !IsBlankRun(p);
    assert Lower(p) == "name";
    assert !PunctuationChar(p[0]);
    assert !IsDigitChar(p[0]);
    assert IsLetter(p[0]);
  }

  lemma NoBracketsInDoubleBrace()
    ensures FindAll("{{Name}}", AppBracket) == []
    ensures FindAll("{{Name}}", AppAngle) == []
  {
    var t := "{{Name}}";
    NotContains(t, "[");
    NotContains(t, "<<");
    FindAllNoOpener(t, AppBracket);
    FindAllNoOpener(t, AppAngle);
  }

  lemma StripName()
    ensures StripAll(["Name"]) == ["Name"]
  {
    StripStripped("Name");
  }

  /** `{{Name}}` is captured twice: by the double-brace and by the single-brace pattern. */
  lemma RawLabelsOfDoubleBrace()
    ensures RawLabels("{{Name}}") == ["Name", "Name"]
  {
    DoubleBraceScan();
    AppBraceInsideDoubleBrace();
    NoBracketsInDoubleBrace();
    StripName();
  }

  lemma KeepName(t: string)
    ensures KeepFirst(["Name", "Name"], t, []) == ["Name"]
  {
    NameAccepted(t);
    var raw := ["Name", "Name"];
    assert raw[1..] == ["Name"];
    assert KeepFirst(["Name"], t, ["Name"]) == ["Name"];
  }

  /** The `seen` set drops the second capture. */
  lemma DoubleBraceCountedOnce()
    ensures Placeholders("{{Name}}") == ["Name"]
  {
    RawLabelsOfDoubleBrace();
    KeepName("{{Name}}");
  }
}
