/**
 The variant in LegalMate.py (Your_LegalMate.py is the same file): the
 same linear text, four looser patterns whose captures are collected in a set,
 stripped, filtered on length and digits only, and returned sorted. Its
 question is a fixed sentence around the capitalised readable label.
 */
module LegalMate {
  import opened Text
  import opened Lists
  import opened Scanner
  import opened Docx
  import opened Readable

  /** Every capture of the four patterns, pattern after pattern. */
  function Captures(text: string): (caps: seq<string>)
    ensures forall c :: c in caps ==>
              || Delimited(text, DoubleBrace, c) || Delimited(text, LegacyBrace, c)
              || Delimited(text, LegacyBracket, c) || Delimited(text, LegacyAngle, c)
  {
    FindAll(text, DoubleBrace) + FindAll(text, LegacyBrace)
    + FindAll(text, LegacyBracket) + FindAll(text, LegacyAngle)
  }

  /** The only filter: longer than one character and not all digits. */
  predicate Keep(x: string) {
    |x| > 1 && !IsDigits(x)
  }

  /** Some capture strips to `x`. */
  predicate Captured(text: string, x: string) {
    exists c :: c in Captures(text) && Strip(c) == x
  }

  /** `sorted(list(set(...)))` of the kept stripped captures. */
  function Placeholders(text: string): (r: seq<string>)
    ensures StrictlyAscending(r) && NoDup(r)
    ensures forall x :: x in r <==> Captured(text, x) && Keep(x)
  {
    StrippedIffCaptured(text);
    AscendingNoDup(SortUnique(Select(StripAll(Captures(text)), Keep)));
    SortUnique(Select(StripAll(Captures(text)), Keep))
  }

  lemma StrippedIffCaptured(text: string)
    ensures forall x :: x in StripAll(Captures(text)) <==> Captured(text, x)
  {
    var caps := Captures(text);
    var stripped := StripAll(caps);
    forall x ensures x in stripped <==> Captured(text, x) {
      if x in stripped {
        var i :| 0 <= i < |stripped| && stripped[i] == x;
        assert caps[i] in caps;
      }
      if Captured(text, x) {
        var c :| c in caps && Strip(c) == x;
        var i :| 0 <= i < |caps| && caps[i] == c;
        assert stripped[i] == x;
      }
    }
  }

  /** `extract_text_and_placeholders` of LegalMate.py. */
  function ExtractTextAndPlaceholders(d: Document): (r: (string, seq<string>))
    ensures r.0 == DocumentText(d)
    ensures StrictlyAscending(r.1)
    ensures forall x :: x in r.1 <==> Captured(r.0, x) && Keep(x)
  {
    var text := DocumentText(d);
    (text, Placeholders(text))
  }

  /** The result does not depend on the order in which the set is iterated:
      any strictly ascending list of exactly the kept labels is the result. */
  lemma PlaceholdersOrderIndependent(text: string, s: seq<string>)
    requires StrictlyAscending(s)
    requires forall x :: x in s <==> Captured(text, x) && Keep(x)
    ensures s == Placeholders(text)
  {
    AscendingUnique(s, Placeholders(text));
  }

  /** Every label is stripped, longer than one character, and not a number. */
  lemma PlaceholdersShape(text: string)
    ensures forall x :: x in Placeholders(text) ==> IsStripped(x) && |x| > 1 && !IsDigits(x)
  {
    forall x | x in Placeholders(text) ensures IsStripped(x) && |x| > 1 && !IsDigits(x) {
      var c :| c in Captures(text) && Strip(c) == x;
    }
  }

  /** Text with no `{`, `[` or `<` has no placeholder. */
  lemma NoMarkersNoPlaceholders(text: string)
    requires '{' !in text && '[' !in text && '<' !in text
    ensures Placeholders(text) == []
  {
    NotContains(text, DoubleBrace.opener);
    NotContains(text, LegacyBrace.opener);
    NotContains(text, LegacyBracket.opener);
    NotContains(text, LegacyAngle.opener);
    FindAllNoOpener(text, DoubleBrace);
    FindAllNoOpener(text, LegacyBrace);
    FindAllNoOpener(text, LegacyBracket);
    FindAllNoOpener(text, LegacyAngle);
    assert Captures(text) == [];
  }

  /* ----- `{{Name}}` yields a second, brace-prefixed label ----- */

  lemma NoBracketsInDoubleBrace()
    ensures FindAll("{{Name}}", LegacyBracket) == []
    ensures FindAll("{{Name}}", LegacyAngle) == []
  {
    var t := "{{Name}}";
    NotContains(t, "[");
    NotContains(t, "<<");
    FindAllNoOpener(t, LegacyBracket);
    FindAllNoOpener(t, LegacyAngle);
  }

  lemma CapturesOfDoubleBrace()
    ensures Captures("{{Name}}") == ["Name", "{Name"]
  {
    DoubleBraceScan();
    LegacyBraceInsideDoubleBrace();
    NoBracketsInDoubleBrace();
  }

  lemma StripLabels()
    ensures StripAll(["Name", "{Name"]) == ["Name", "{Name"]
  {
    var s := ["Name", "{Name"];
    assert IsStripped(s[0]) by {
      assert !IsSpace(s[0][0]) && !IsSpace(s[0][3]);
    }
    assert IsStripped(s[1]) by {
      assert !IsSpace(s[1][0]) && !IsSpace(s[1][4]);
    }
    StripStripped(s[0]);
    StripStripped(s[1]);
    var r := StripAll(s);
    assert r[0] == s[0] && r[1] == s[1];
  }

  lemma KeptLabels()
    ensures Select(["Name", "{Name"], Keep) == ["Name", "{Name"]
  {
    var s := ["Name", "{Name"];
    assert Keep("Name") by {
      assert !IsDigitChar("Name"[0]);
    }
    assert Keep("{Name") by {
      assert !IsDigitChar("{Name"[0]);
    }
    assert s[..1] == ["Name"];
    assert ["Name"][..0] == [];
    assert Select(s[..1], Keep) == ["Name"];
  }

  lemma SortedLabels()
    ensures SortUnique(["Name", "{Name"]) == ["Name", "{Name"]
  {
    var s := ["Name", "{Name"];
    assert Less("Name", "{Name");
    assert StrictlyAscending(s);
    AscendingUnique(s, SortUnique(s));
  }

  /** One double-brace placeholder in the document is offered as two labels. */
  lemma DoubleBraceGivesTwoLabels()
    ensures Placeholders("{{Name}}") == ["Name", "{Name"]
  {
    CapturesOfDoubleBrace();
    StripLabels();
    KeptLabels();
    SortedLabels();
  }

  /* ----- generate_question_from_placeholder ----- */

  /** The readable label: separators to spaces, camel case split, stripped and capitalised. */
  function LegacyLabel(p: string): (r: string)
    ensures IsStripped(r)
    ensures '_' !in r && '-' !in r
    ensures |r| > 0 ==> !IsLowerChar(r[0])
    ensures forall i :: 1 <= i < |r| ==> !IsUpperChar(r[i])
    ensures Lower(NonBlank(r)) == Lower(NonBlank(p))
    ensures SameUpToCase(r, Strip(SpaceAfterHumps(SeparatorsToSpaces(p))))
  {
    var s := Strip(SplitCamelCase(SeparatorsToSpaces(p)));
    SplitCamelCaseSpacesHumps(SeparatorsToSpaces(p));
    var r := Capitalize(s);
    NonBlankSeparatorsToSpaces(p);
    NonBlankSplitCamelCase(SeparatorsToSpaces(p));
    NonBlankStrip(SplitCamelCase(SeparatorsToSpaces(p)));
    NonBlankUpToCase(r, s);
    LabelCaseKeepsStripped(r, s);
    SplitAfterSeparatorsChars(p);
    StrippedChars(SplitCamelCase(SeparatorsToSpaces(p)));
    SeparatorFreeUpToCase(r, s);
    r
  }

  /** `generate_question_from_placeholder`; `useLlm` and `apiKey` select a branch
      whose body does nothing, so they never change the question. */
  function Question(p: string, useLlm: bool, apiKey: Option<string>): (r: string)
    ensures |r| >= 13 && r[..12] == "What is the " && r[|r| - 1] == '?'
    ensures var l := r[12..|r| - 1];
            && IsStripped(l) && '_' !in l && '-' !in l
            && (|l| > 0 ==> !IsLowerChar(l[0]))
            && (forall i :: 1 <= i < |l| ==> !IsUpperChar(l[i]))
            && Lower(NonBlank(l)) == Lower(NonBlank(p))
            && SameUpToCase(l, Strip(SpaceAfterHumps(SeparatorsToSpaces(p))))
  {
    var l := LegacyLabel(p);
    var r := "What is the " + l + "?";
    assert r[..12] == "What is the ";
    assert r[12..|r| - 1] == l;
    r
  }

  /** The language-model switch and key have no effect. */
  lemma QuestionIgnoresLlm(p: string, u1: bool, k1: Option<string>, u2: bool, k2: Option<string>)
    ensures Question(p, u1, k1) == Question(p, u2, k2)
  {
  }

  /* ----- helpers about case changes and stripping ----- */

  /** Characters of a stripped string come from the string. */
  lemma StrippedChars(s: string)
    ensures forall c :: c in Strip(s) ==> c in s
  {
    var r := Strip(s);
    var i := SkipSpaces(s, 0);
    forall c | c in r ensures c in s {
      var k :| 0 <= k < |r| && r[k] == c;
      assert s[i + k] == c;
    }
  }

  /** Changing only letter case keeps a string stripped. */
  lemma LabelCaseKeepsStripped(a: string, b: string)
    requires SameUpToCase(a, b) && IsStripped(b)
    ensures IsStripped(a)
  {
    assert |a| == |b| by {
      assert |Lower(a)| == |Lower(b)|;
    }
    if |a| > 0 {
      SameUpToCaseKeepsNonLetters(a, b, 0);
      SameUpToCaseKeepsNonLetters(a, b, |a| - 1);
    }
  }

  /** Changing only letter case neither adds nor removes `_` and `-`. */
  lemma SeparatorFreeUpToCase(a: string, b: string)
    requires SameUpToCase(a, b) && '_' !in b && '-' !in b
    ensures '_' !in a && '-' !in a
  {
    assert |a| == |b| by {
      assert |Lower(a)| == |Lower(b)|;
    }
    forall i | 0 <= i < |a| ensures a[i] != '_' && a[i] != '-' {
      SameUpToCaseKeepsNonLetters(a, b, i);
    }
  }

  /* ----- `zipCode` ----- */

  lemma StripZipCode()
    ensures Strip("zip Code") == "zip Code"
  {
    var t := "zip Code";
    assert IsStripped(t) by {
      assert !IsSpace(t[0]) && !IsSpace(t[7]);
    }
    StripStripped(t);
  }

  lemma CapitalizeZipCode()
    ensures Capitalize("zip Code") == "Zip code"
  {
    var t := "zip Code";
    assert t[1..] == "ip Code";
    var l := Lower("ip Code");
    assert l[0] == 'i' && l[1] == 'p' && l[2] == ' ' && l[3] == 'c' && l[4] == 'o' && l[5] == 'd' && l[6] == 'e';
    assert l == "ip code";
    assert ToUpperChar('z') == 'Z';
  }

  lemma ZipCodeLabel()
    ensures LegacyLabel("zipCode") == "Zip code"
  {
    assert '_' !in "zipCode" && '-' !in "zipCode";
    SeparatorsToSpacesNoSeparator("zipCode");
    SplitZipCode();
    StripZipCode();
    CapitalizeZipCode();
  }

  lemma QuestionAround(p: string, l: string, useLlm: bool, apiKey: Option<string>)
    requires LegacyLabel(p) == l
    ensures Question(p, useLlm, apiKey) == "What is the " + l + "?"
  {
  }

  lemma ZipCodeText()
    ensures "What is the " + "Zip code" + "?" == "What is the Zip code?"
  {
  }

  /** A camel-case label becomes a sentence-case question, whatever the
      language-model settings. */
  lemma ZipCodeQuestion(useLlm: bool, apiKey: Option<string>)
    ensures Question("zipCode", useLlm, apiKey) == "What is the Zip code?"
  {
    ZipCodeLabel();
    QuestionAround("zipCode", "Zip code", useLlm, apiKey);
    ZipCodeText();
  }
}
