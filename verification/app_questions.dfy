/**
 `generate_question_from_placeholder` of app.py: a blank fill-in gets a fixed
 prompt; any other label is made readable (separators to spaces, camel case
 split, whitespace normalised) and matched, on its lower-cased form, against an
 ordered keyword table whose first hit picks the wording and the format hint.
 */
module AppQuestions {
  import opened Text
  import opened Readable
  import AppDetector

  /** The question in structured form. */
  datatype Prompt = BlankPrompt | Ask(subject: string, hint: string) | Provide(subject: string)

  const BlankQuestion := "Please provide the value for this blank field:"

  /** The question as the user sees it. */
  function Render(q: Prompt): string {
    match q
    case BlankPrompt => BlankQuestion
    case Ask(subject, hint) => "What is the " + subject + "?" + hint
    case Provide(subject) => "Please provide the " + subject + ":"
  }

  const MoneyWords: seq<string> :=
    ["amount", "price", "payment", "fee", "cost", "salary", "wage", "compensation"]
  const ValuationWords: seq<string> := ["valuation", "cap", "value"]
  const DateWords: seq<string> := ["date", "day", "month", "year", "when"]
  const CompanyWords: seq<string> := ["company", "business", "organization", "entity"]
  const PersonWords: seq<string> := ["person", "individual", "party", "client", "employee", "investor"]
  const ZipWords: seq<string> := ["zip", "postal", "postcode"]
  const RegionWords: seq<string> := ["state", "province", "region"]
  const TitleWords: seq<string> := ["title", "position", "role", "designation"]
  const NumberWords: seq<string> := ["number", "num", "no", "#", "id", "identifier"]
  const PercentWords: seq<string> := ["percent", "percentage", "rate", "%"]
  const DescriptionWords: seq<string> := ["description", "details", "notes", "comments"]
  const SignatureWords: seq<string> := ["signature", "signed", "sign"]
  const YesNoWords: seq<string> := ["yes/no", "y/n", "true/false"]
  const DurationWords: seq<string> := ["duration", "period", "term", "time"]
  const QuantityWords: seq<string> := ["quantity", "count", "total", "units"]

  const MoneyHint := " (e.g., 50000 or $50,000)"
  const ValuationHint := " (e.g., 5000000)"
  const DateHint := " (e.g., January 15, 2024 or 01/15/2024)"
  const CompanyNameHint := " (Full legal name)"
  const PersonNameHint := " (Full name)"
  const EmailHint := " (e.g., user@example.com)"
  const PhoneHint := " (e.g., +1-555-123-4567 or (555) 123-4567)"
  const AddressHint := " (Full address including city, state, ZIP)"
  const ZipHint := " (e.g., 12345 or 12345-6789)"
  const CityHint := " (e.g., San Francisco)"
  const RegionHint := " (e.g., California, New York)"
  const CountryHint := " (e.g., United States, Canada)"
  const TitleHint := " (e.g., CEO, Manager, Director)"
  const TaxIdHint := " (e.g., 12-3456789)"
  const PercentHint := " (e.g., 5 or 5.5)"
  const SignatureHint := " (Name for signature)"
  const YesNoHint := " (Yes or No)"
  const DurationHint := " (e.g., 12 months, 2 years)"
  const QuantityHint := " (Enter a number)"

  /** Every hint the table can attach, the empty one included. */
  const Hints: set<string> := {
    "", MoneyHint, ValuationHint, DateHint, CompanyNameHint, PersonNameHint, EmailHint,
    PhoneHint, AddressHint, ZipHint, CityHint, RegionHint, CountryHint, TitleHint,
    TaxIdHint, PercentHint, SignatureHint, YesNoHint, DurationHint, QuantityHint
  }

  /** The readable label: separators to spaces, camel case split, `' '.join(s.split())`. */
  function ReadableLabel(p: string): (r: string)
    ensures IsNormalized(r)
    ensures '_' !in r && '-' !in r
    ensures NonBlank(r) == NonBlank(p)
    ensures Words(r) == Words(SpaceAfterHumps(SeparatorsToSpaces(p)))
  {
    var s := SplitCamelCase(SeparatorsToSpaces(p));
    SplitCamelCaseSpacesHumps(SeparatorsToSpaces(p));
    WordsOfJoin(Words(s));
    NonBlankSeparatorsToSpaces(p);
    NonBlankSplitCamelCase(SeparatorsToSpaces(p));
    NonBlankNormalize(s);
    NormalizeSpacesIsNormalized(s);
    NoSeparatorAfterNormalize(p);
    NormalizeSpaces(s)
  }

  lemma NoSeparatorAfterNormalize(p: string)
    ensures var r := NormalizeSpaces(SplitCamelCase(SeparatorsToSpaces(p)));
            '_' !in r && '-' !in r
  {
    var s := SplitCamelCase(SeparatorsToSpaces(p));
    SplitAfterSeparatorsChars(p);
    if '_' in NormalizeSpaces(s) {
      NormalizeSpacesChars(s, '_');
    }
    if '-' in NormalizeSpaces(s) {
      NormalizeSpacesChars(s, '-');
    }
  }

  /** No keyword of the table occurs in the lower-cased label. */
  predicate NoKeyword(lr: string) {
    && !ContainsAny(lr, MoneyWords) && !ContainsAny(lr, ValuationWords)
    && !ContainsAny(lr, DateWords) && !Contains(lr, "name")
    && !Contains(lr, "email") && !Contains(lr, "e-mail")
    && !Contains(lr, "phone") && !Contains(lr, "telephone") && !Contains(lr, "mobile")
    && !Contains(lr, "address") && !ContainsAny(lr, ZipWords) && !Contains(lr, "city")
    && !ContainsAny(lr, RegionWords) && !Contains(lr, "country") && !ContainsAny(lr, TitleWords)
    && !ContainsAny(lr, NumberWords) && !ContainsAny(lr, PercentWords)
    && !ContainsAny(lr, DescriptionWords) && !ContainsAny(lr, SignatureWords)
    && !ContainsAny(lr, YesNoWords) && !ContainsAny(lr, DurationWords)
    && !ContainsAny(lr, QuantityWords)
  }

  /** The default branch: an all-lower label is capitalised, an all-upper subject
      longer than three characters is title-cased, anything else is kept. */
  function SmartCase(readable: string): (r: string)
    ensures SameUpToCase(r, readable)
  {
    if IsLowerStr(readable) then Capitalize(readable)
    else if IsUpperStr(readable) && |readable| > 3 then Title(readable)
    else readable
  }

  /** The ordered keyword table; the first test that holds decides. */
  function KeywordPrompt(readable: string): (q: Prompt)
    ensures !q.BlankPrompt? && SameUpToCase(q.subject, readable)
    ensures q.Ask? ==> q.hint in Hints
  {
    var lr := Lower(readable);
    if ContainsAny(lr, MoneyWords) then Ask(readable, MoneyHint)
    else if ContainsAny(lr, ValuationWords) then Ask(readable, ValuationHint)
    else if ContainsAny(lr, DateWords) then Ask(readable, DateHint)
    else if Contains(lr, "name") then
      if ContainsAny(lr, CompanyWords) then Ask(readable, CompanyNameHint)
      else if ContainsAny(lr, PersonWords) then Ask(readable, PersonNameHint)
      else Ask(readable, "")
    else if Contains(lr, "email") || Contains(lr, "e-mail") then Ask(readable, EmailHint)
    else if Contains(lr, "phone") || Contains(lr, "telephone") || Contains(lr, "mobile") then
      Ask(readable, PhoneHint)
    else if Contains(lr, "address") then
      if Contains(lr, "email") then Ask(readable, EmailHint) else Ask(readable, AddressHint)
    else if ContainsAny(lr, ZipWords) then Ask(readable, ZipHint)
    else if Contains(lr, "city") then Ask(readable, CityHint)
    else if ContainsAny(lr, RegionWords) then Ask(readable, RegionHint)
    else if Contains(lr, "country") then Ask(readable, CountryHint)
    else if ContainsAny(lr, TitleWords) then Ask(readable, TitleHint)
    else if ContainsAny(lr, NumberWords) then
      if Contains(lr, "tax") || Contains(lr, "ein") || Contains(lr, "ssn") then Ask(readable, TaxIdHint)
      else Ask(readable, "")
    else if ContainsAny(lr, PercentWords) then Ask(readable, PercentHint)
    else if ContainsAny(lr, DescriptionWords) then Provide(readable)
    else if ContainsAny(lr, SignatureWords) then Ask(readable, SignatureHint)
    else if ContainsAny(lr, YesNoWords) then Ask(readable, YesNoHint)
    else if ContainsAny(lr, DurationWords) then Ask(readable, DurationHint)
    else if ContainsAny(lr, QuantityWords) then Ask(readable, QuantityHint)
    else Ask(SmartCase(readable), "")
  }

  /** The question for a label, in structured form. */
  function QuestionFor(p: string): (q: Prompt)
    ensures q.BlankPrompt? <==> AppDetector.IsBlankRun(p)
    ensures !q.BlankPrompt? ==> SameUpToCase(q.subject, ReadableLabel(p))
    ensures !q.BlankPrompt? ==> IsNormalized(q.subject) && '_' !in q.subject && '-' !in q.subject
    ensures q.Ask? ==> q.hint in Hints
  {
    if AppDetector.IsBlankRun(p) then BlankPrompt
    else
      var readable := ReadableLabel(p);
      var q := KeywordPrompt(readable);
      LabelCaseKeepsShape(q.subject, readable);
      q
  }

  /** A label that is not a blank run goes through the keyword table. */
  lemma QuestionForLabel(p: string)
    requires !AppDetector.IsBlankRun(p)
    ensures QuestionFor(p) == KeywordPrompt(ReadableLabel(p))
  {
  }

  /** Changing only letter case keeps the label's spacing and its lack of separators. */
  lemma LabelCaseKeepsShape(a: string, b: string)
    requires SameUpToCase(a, b) && IsNormalized(b) && '_' !in b && '-' !in b
    ensures IsNormalized(a) && '_' !in a && '-' !in a
  {
    forall i | 0 <= i < |a|
      ensures !IsLetter(a[i]) ==> a[i] == b[i]
      ensures IsLetter(a[i]) <==> IsLetter(b[i])
    {
      SameUpToCaseKeepsNonLetters(a, b, i);
    }
    assert |a| == |b| by {
      assert |Lower(a)| == |Lower(b)|;
    }
    forall i | 0 <= i < |a| && IsSpace(a[i])
      ensures a[i] == ' ' && 0 < i < |a| - 1 && !IsSpace(a[i + 1])
    {
      assert b[i] == a[i];
      if !IsLetter(a[i + 1]) {
        assert a[i + 1] == b[i + 1];
      }
    }
  }

  /** `generate_question_from_placeholder(placeholder)`. */
  function GenerateQuestion(p: string): (r: string)
    ensures AppDetector.IsBlankRun(p) ==> r == BlankQuestion
    ensures !AppDetector.IsBlankRun(p) ==>
              (|r| > 12 && r[..12] == "What is the ") || (|r| > 19 && r[..19] == "Please provide the ")
  {
    var q := QuestionFor(p);
    var r := Render(q);
    assert q.Ask? ==> |r| > 12 && r[..12] == "What is the ";
    assert q.Provide? ==> |r| > 19 && r[..19] == "Please provide the ";
    r
  }

  /** Money words are tested first: a label mentioning one gets the money hint
      whatever else it mentions. */
  lemma MoneyFirst(p: string)
    requires !AppDetector.IsBlankRun(p)
    requires ContainsAny(Lower(ReadableLabel(p)), MoneyWords)
    ensures QuestionFor(p) == Ask(ReadableLabel(p), MoneyHint)
  {
  }

  /** A label that matches no keyword is only re-cased. */
  lemma UnmatchedLabel(p: string)
    requires !AppDetector.IsBlankRun(p)
    requires NoKeyword(Lower(ReadableLabel(p)))
    ensures var r := ReadableLabel(p);
            && (IsLowerStr(r) ==> QuestionFor(p) == Ask(Capitalize(r), ""))
            && (!IsLowerStr(r) && IsUpperStr(r) && |r| > 3 ==> QuestionFor(p) == Ask(Title(r), ""))
            && (!IsLowerStr(r) && !(IsUpperStr(r) && |r| > 3) ==> QuestionFor(p) == Ask(r, ""))
  {
  }

  /** The `e-mail` test can never succeed: dashes became spaces before it. */
  lemma DashedEmailNeverMatches(p: string)
    ensures !Contains(Lower(ReadableLabel(p)), "e-mail")
  {
    var r := ReadableLabel(p);
    var l := Lower(r);
    forall i | 0 <= i <= |l| ensures !OccursAt(l, "e-mail", i) {
      if i + 6 <= |l| {
        assert r[i + 1] != '-';
        assert l[i + 1] != '-';
        assert l[i..i + 6][1] == l[i + 1];
      }
    }
  }

  /** The "Please provide" wording is reached only by labels without "no", since
      the number row (which lists "no") is tested first; a label like "notes"
      is therefore asked as "What is the notes?". */
  lemma ProvideExcludesNo(p: string)
    ensures QuestionFor(p).Provide? ==> !Contains(Lower(ReadableLabel(p)), "no")
  {
    if QuestionFor(p).Provide? {
      KeywordProvideExcludesNo(ReadableLabel(p));
    }
  }

  lemma KeywordProvideExcludesNo(readable: string)
    requires KeywordPrompt(readable).Provide?
    ensures !Contains(Lower(readable), "no")
  {
    assert NumberWords[2] == "no";
  }

  /* ----- `fee_date` ----- */

  lemma FeeDateSeparators()
    ensures SeparatorsToSpaces("fee_date") == "fee date"
  {
    var r := SeparatorsToSpaces("fee_date");
    assert r[0] == 'f' && r[1] == 'e' && r[2] == 'e' && r[3] == ' ';
    assert r[4] == 'd' && r[5] == 'a' && r[6] == 't' && r[7] == 'e';
  }

  lemma FeeDateSplit()
    ensures SplitCamelCase("fee date") == "fee date"
  {
    var t := "fee date";
    assert NoHump(t) by {
      forall i | 0 <= i < |t| ensures !HumpAt(t, i) {
        if i < |t| - 1 {
          assert !IsUpperChar(t[i + 1]);
        }
      }
    }
    SplitCamelCaseFixpoint(t);
  }

  lemma FeeDateNormal()
    ensures NormalizeSpaces("fee date") == "fee date"
  {
    var t := "fee date";
    assert IsNormalized(t) by {
      forall i | 0 <= i < |t| && IsSpace(t[i])
        ensures t[i] == ' ' && 0 < i < |t| - 1 && !IsSpace(t[i + 1])
      {
        assert i == 3;
      }
    }
    NormalizedIsFixpoint(t);
  }

  lemma FeeDateReadable()
    ensures ReadableLabel("fee_date") == "fee date"
  {
    FeeDateSeparators();
    FeeDateSplit();
    FeeDateNormal();
  }

  lemma FeeDateIsMoney()
    ensures ContainsAny(Lower("fee date"), MoneyWords)
  {
    var l := Lower("fee date");
    assert l[0] == 'f' && l[1] == 'e' && l[2] == 'e';
    assert OccursAt(l, "fee", 0);
    assert MoneyWords[3] == "fee";
  }

  lemma FeeDatePrompt()
    ensures QuestionFor("fee_date") == Ask("fee date", MoneyHint)
  {
    FeeDateNotBlank();
    QuestionForLabel("fee_date");
    FeeDateReadable();
    FeeDateKeyword();
  }

  lemma FeeDateNotBlank()
    ensures !AppDetector.IsBlankRun("fee_date")
  {
    assert !BlankChar("fee_date"[0]);
  }

  lemma FeeDateKeyword()
    ensures KeywordPrompt("fee date") == Ask("fee date", MoneyHint)
  {
    FeeDateIsMoney();
  }

  lemma RenderAsk(p: string, s: string, h: string)
    requires QuestionFor(p) == Ask(s, h)
    ensures GenerateQuestion(p) == "What is the " + s + "?" + h
  {
  }

  lemma FeeDateText()
    ensures "What is the " + "fee date" + "?" + MoneyHint == "What is the fee date? (e.g., 50000 or $50,000)"
  {
  }

  /** A date field whose name mentions a fee is asked for as an amount: the
      money row of the table is tested before the date row. */
  lemma FeeDateAskedAsMoney()
    ensures GenerateQuestion("fee_date") == "What is the fee date? (e.g., 50000 or $50,000)"
  {
    FeeDatePrompt();
    RenderAsk("fee_date", "fee date", MoneyHint);
    FeeDateText();
  }
}
