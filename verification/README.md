# LegalMate placeholder engine, modelled in Dafny

LegalMate fills in legal document templates. It reads a Word document and
collects the placeholders in it: `{{x}}`, `{x}`, `[x]`, `<<x>>` and
blank fill-ins such as `[_____]`. It asks one question per placeholder, then
writes the answers back into the document.

The repository has two versions of this engine:

- `app.py`;
- `LegalMate.py`, of which `Your_LegalMate.py` is a byte-identical copy, so
  one module covers both files.

This project models the three operations of each version:

- extraction: the document's linear text and its placeholder labels;
- question generation;
- substitution.

The document is the structure the word-processing library exposes: body
paragraphs made of runs, then tables of rows of cells, each cell holding
paragraphs. Everything is modelled on that structure. Strings are
`seq<char>`, with Python's string operations on ASCII written out in `Text`:

- `strip`, `split`, `lower`, `capitalize`, `title`, `islower`, `isupper`,
  `isdigit`, `count`, `replace` and `join`.

String comparison `<` and `sorted(set(...))` are in `Lists`.

Modules, in dependency order:

- `Text`: Python string primitives.
- `Lists`: duplicate-free lists, first-occurrence dedupe and subsequences;
  also Python's string ordering and `sorted(set(...))`.
- `Docx`: the document datatypes and the linear text the detectors scan.
- `Scanner`: the delimiter grammars, and `re.findall` over them as a
  deterministic scan. Every pattern has the shape `open([^X]+)close`, where X
  holds the closer's first character. The greedy match is therefore the
  maximal run of allowed characters, and no backtracking can change it.
- `AppDetector`: `extract_text_and_placeholders` and `find_context_for_blank`
  of `app.py`, including the `(.{0,100})[blank]` search.
- `Readable`: the separator and camel-case rewriting that both question
  generators share.
- `AppQuestions`: `generate_question_from_placeholder` of `app.py`.
- `LegalMate`: extraction and question generation of `LegalMate.py` and
  `Your_LegalMate.py`.
- `Substitution`: `replace_placeholders_in_docx`, which is the same code in
  both versions.
- `Filling`: what substitution does to a run that is plain text with forms of
  several keys in it.

Behaviour the model pins down:

- `app.py` returns labels in grammar order, not document order: every
  `{{...}}` label comes first, then `{...}`, then `[...]`, then `<<...>>`.
  Within that order it keeps the first occurrence of each accepted label.
  `{{Name}}` is captured by two patterns but listed once
  (`AppDetector.DoubleBraceCountedOnce`).
- `LegalMate.py`'s single-brace pattern `\{([^}]+)\}` lets `{` into a label.
  So `{{Name}}` yields both `Name` and `{Name`
  (`LegalMate.DoubleBraceGivesTwoLabels`). Its bracket pattern `\[([^]]+)\]`
  does the same: `[[x]]` yields `[x` and never `x`
  (`Scanner.LegacyBracketMissesInnerLabel`).
- For `app.py`'s `{x}`, `[x]` and `<<x>>` patterns the scan is exact: a label
  is captured exactly when it stands between the delimiters without an
  excluded character (`Scanner.AppFindAllExact`). This fails for the legacy
  patterns, whose classes admit the opener.
- A blank fill-in is accepted only if it satisfies both of these:
  - it has three underscores or three dashes;
  - its bracketed form `[blank]` appears in the text.

  A blank written as `{____}` is therefore asked for only when `[____]`
  also appears somewhere in the text.
- `app.py` tests keywords in a fixed order, and the first hit wins:
  - `fee_date` is asked for as a money amount
    (`AppQuestions.FeeDateAskedAsMoney`);
  - `notes` matches the number row through `no`, so the "Please provide"
    wording never applies to it;
  - the `e-mail` test can never succeed, because dashes have already become
    spaces.
- The blank look-behind `(.{0,100})[blank]` takes the leftmost start from
  which a match exists and then the longest group. The group can therefore
  run past the first `[blank]` to a later one within reach
  (`AppDetector.GroupReachesLaterBlank`).
- Substitution never needs its `pattern in para.text` and
  `pattern in cell.text` guards. Each run ends up exactly as it would if it
  went alone through every (form, value) replacement in loop order. Two
  consequences:
  - a placeholder split across runs is never filled;
  - a value inserted earlier is searched again by later keys' forms.

  When the keys are distinct and hold no delimiter, and neither the values nor
  the text around the forms hold `{`, `[` or `<`, every form in a run ends as
  its key's value and the text around it is kept (`Filling.FillsTemplate`). A
  run with no form of any key comes back unchanged
  (`Substitution.RunWithoutFormsUnchanged`).

The code has no key normalisation or merging of the four forms, no `${x}` or
single-angle grammar, and no configurable thresholds.

## Model

| member | source | states |
|---|---|---|
| Text.Strip | app.py:40 | the result has no whitespace at either end; it is the infix that starts right after the leading whitespace, and only whitespace follows it |
| Text.ReplaceAbsent | app.py:271 | a string without the pattern comes back unchanged |
| Text.ReplaceAtFront | app.py:271 | an occurrence at the front becomes the replacement, and the search resumes after it, so replaced occurrences never overlap |
| Text.ReplaceSkipsNoMatch | app.py:271 | text at none of whose positions the pattern starts is copied unchanged |
| Text.NonBlankStrip | LegalMate.py:44 | stripping removes whitespace only: the characters other than whitespace, `_` and `-` are the same before and after |
| Text.NonBlankNormalize | app.py:154 | collapsing whitespace keeps every character other than whitespace, `_` and `-`, in order |
| Lists.SortUnique | LegalMate.py:31 | strictly ascending, and holds exactly the input's elements |
| Lists.AscendingUnique | LegalMate.py:31 | two strictly ascending lists with the same elements are equal, so the input's order cannot matter |
| Docx.DocumentTextLayout | app.py:16-26 | the linear text is the paragraph texts, a newline, then the cell texts, all newline-joined |
| Docx.CellTextInTables | app.py:21-24 | every cell of every table contributes its text to the cell texts |
| Docx.ParagraphRunVisible | app.py:19-26 | a literal inside one run of a body paragraph occurs in the linear text |
| Docx.CellRunVisible | app.py:21-26 | a literal inside one run of a table cell occurs in the linear text |
| Scanner.RunEnd | app.py:30-33 | the greedy class run stops at the first excluded character or the end |
| Scanner.ScanFrom | app.py:37-38 | every capture is a non-empty run of allowed characters that occurs between the delimiters |
| Scanner.FindAll | app.py:37-38 | every `re.findall` capture is delimited in the text |
| Scanner.MatchStarts | app.py:37-38 | the scan's captures stand at these positions, left to right, each match ending before the next starts |
| Scanner.FindAllInTextOrder | app.py:37-40 | `re.findall` reports its matches in text order and without overlap, so the raw labels of one pattern are in document order |
| Scanner.FindAllComplete | app.py:37-38 | when no opener character is allowed inside and the closer does not start with the opener's first character, every delimited label is captured |
| Scanner.AppFindAllExact | app.py:30-38 | for the patterns of `{x}`, `[x]` and `<<x>>`, a label is captured exactly when it is delimited |
| Scanner.FindAllNoOpener | app.py:37-38 | text without the opening delimiter yields no capture |
| Scanner.AppBraceInsideDoubleBrace | app.py:31 | the pattern `\{([^{}]+)\}` finds `Name` inside `{{Name}}` |
| Scanner.LegacyBraceInsideDoubleBrace | LegalMate.py:22 | the pattern `\{([^}]+)\}` finds `{Name` inside `{{Name}}` |
| Scanner.LegacyBraceMissesInnerLabel | LegalMate.py:22 | `Name` stands between `{` and `}` in `{{Name}}`, yet the pattern does not capture it |
| Scanner.LegacyBracketInsideDoubleBracket | LegalMate.py:23 | the pattern `\[([^]]+)\]` finds `[x` inside `[[x]]` |
| Scanner.LegacyBracketMissesInnerLabel | LegalMate.py:23 | `x` stands between `[` and `]` in `[[x]]`, yet the pattern does not capture it |
| AppDetector.GreedyEnd | app.py:112 | the longest window from a start: at most 100 characters without a newline, followed by the pattern |
| AppDetector.SearchFrom | app.py:112-113 | the match of `re.search`: no start before it has a window, and no longer window exists from it |
| AppDetector.SearchFindsOccurrence | app.py:112-114 | the search matches exactly when the pattern occurs in the text |
| AppDetector.LookBehind | app.py:108-116 | a group exactly when `[blank]` occurs; the group has at most 100 characters and no newline |
| AppDetector.GroupReachesLaterBlank | app.py:112-113 | in `ab[___] cd [___]` the group is `ab[___] cd `, which runs up to the second blank |
| AppDetector.FindContextForBlank | app.py:103-138 | no context exactly when `[blank]` is absent from the text; otherwise a money tag exactly when `$` is among the last 10 characters of the lower-cased group |
| AppDetector.ClassifyBlankCases | app.py:115-136 | each tag holds exactly when its test succeeds and no earlier test did |
| AppDetector.AcceptIffShape | app.py:46-93 | the filter chain accepts exactly the accepted shapes: a qualifying blank run, or a label that passes every later test |
| AppDetector.CaptureOf | app.py:37-40 | every stripped capture of a pattern is the stripped text of a delimited label |
| AppDetector.RawLabelsDelimited | app.py:29-40 | every raw label is the stripped text between the delimiters of one of the four patterns |
| AppDetector.DelimitedInRawLabels | app.py:29-40 | a label delimited as `{x}`, `[x]` or `<<x>>` is among the raw labels, stripped |
| AppDetector.DelimitedLabelFound | app.py:10-93 | a label written `{x}`, `[x]` or `<<x>>` whose stripped text passes the filter chain is among the placeholders |
| AppDetector.KeepFirst | app.py:43-93 | the result has no duplicates, extends what was kept before, and holds exactly the earlier labels plus the accepted raw ones |
| AppDetector.ExtractTextAndPlaceholders | app.py:9-96 | returns the linear text; the labels have no duplicates and are exactly the raw captures of accepted shape |
| AppDetector.KeepFirstIsDedupe | app.py:43-93 | the loop with its `seen` set equals "select accepted, then keep first occurrences" |
| AppDetector.PlaceholdersAreFirstOccurrences | app.py:36-96 | the labels are the first occurrences of the accepted stripped captures, in grammar order |
| AppDetector.PlaceholdersSubsequence | app.py:36-96 | the labels are duplicate-free and a subsequence of the raw capture list |
| AppDetector.PlaceholdersFiltered | app.py:36-93 | every label is non-empty, stripped, and of accepted shape |
| AppDetector.NoMarkersNoPlaceholders | app.py:29-40 | text with no `{`, `[` or `<` has no label |
| AppDetector.RawLabelsOfDoubleBrace | app.py:29-40 | `{{Name}}` is captured twice, by the double- and the single-brace pattern |
| AppDetector.DoubleBraceCountedOnce | app.py:46-49 | the `seen` set reduces the two captures of `{{Name}}` to one label |
| Readable.SeparatorsToSpaces | app.py:152 | same length, no `_` or `-` left, every other character kept |
| Readable.SplitCamelCase | app.py:153 | no lower-to-upper transition remains, and the first character is kept |
| Readable.SplitCamelCaseSpacesHumps | app.py:153 | the result is the input with one space after each lower-case letter that an upper-case letter follows, and no other change |
| Readable.NonBlankSplitCamelCase | app.py:153 | the characters other than whitespace, `_` and `-` are kept, in order |
| Readable.NonBlankSeparatorsToSpaces | app.py:152 | the characters other than whitespace, `_` and `-` are kept, in order |
| Readable.SplitCamelCaseFixpoint | app.py:153 | text without a lower-to-upper transition is unchanged |
| Readable.SplitCamelCaseIdempotent | LegalMate.py:43 | splitting twice equals splitting once |
| AppQuestions.ReadableLabel | app.py:152-154 | the readable label is space-normalised, has no `_` or `-`, and keeps every other non-whitespace character of the placeholder, in order; its words are those of the placeholder with `_` and `-` turned into spaces and a space after each lower-case letter that an upper-case one follows |
| AppQuestions.SmartCase | app.py:239-243 | the default branch changes letter case only |
| AppQuestions.KeywordPrompt | app.py:155-245 | every branch of the keyword table keeps the readable label up to letter case and offers one of the table's hints |
| AppQuestions.QuestionFor | app.py:141-245 | the blank prompt exactly for blank runs; otherwise the wording's label is the readable label up to case, normalised, and without separators, and the hint is one of the table's |
| AppQuestions.GenerateQuestion | app.py:141-245 | blank runs get the fixed blank prompt; every other question starts "What is the " or "Please provide the " |
| AppQuestions.MoneyFirst | app.py:159-161 | a label with a money word gets the money hint, whatever else it mentions |
| AppQuestions.UnmatchedLabel | app.py:239-245 | a label with no keyword is capitalised if all lower-case, title-cased if all upper-case and longer than 3, else kept |
| AppQuestions.DashedEmailNeverMatches | app.py:152-180 | the lower-cased readable label never contains `e-mail` |
| AppQuestions.ProvideExcludesNo | app.py:209-221 | the "Please provide" wording is only reached by labels without `no` |
| AppQuestions.FeeDateAskedAsMoney | app.py:159-168 | `fee_date` is asked as "What is the fee date? (e.g., 50000 or $50,000)" |
| LegalMate.Captures | LegalMate.py:20-29 | every capture is delimited by one of the four patterns |
| LegalMate.Placeholders | LegalMate.py:26-31 | strictly ascending and without duplicates, and holds exactly the stripped captures longer than one character that are not all digits |
| LegalMate.ExtractTextAndPlaceholders | LegalMate.py:9-31 | returns the linear text and the sorted, kept labels |
| LegalMate.PlaceholdersOrderIndependent | LegalMate.py:26-31 | any ascending list of exactly the kept labels is the result, whatever the set's iteration order |
| LegalMate.PlaceholdersShape | LegalMate.py:30 | every label is stripped, longer than one character and not a number |
| LegalMate.NoMarkersNoPlaceholders | LegalMate.py:20-29 | text with no `{`, `[` or `<` has no label |
| LegalMate.DoubleBraceGivesTwoLabels | LegalMate.py:20-31 | `{{Name}}` gives the two labels `Name` and `{Name` |
| LegalMate.LegacyLabel | LegalMate.py:42-44 | the label is stripped, has no `_` or `-`, starts with a non-lower-case character and has no upper-case letter after that; up to case it is the placeholder with `_` and `-` turned into spaces, a space after each lower-case letter that an upper-case one follows, stripped |
| LegalMate.Question | LegalMate.py:36-45 | the question is "What is the ", a label and "?"; the label is stripped, sentence-cased, without `_` or `-`, and up to case it is the placeholder with separators turned into spaces, camel case split and stripped |
| LegalMate.QuestionIgnoresLlm | LegalMate.py:37-41 | `use_llm` and `api_key` never change the question |
| LegalMate.ZipCodeQuestion | LegalMate.py:42-45 | `zipCode` is asked as "What is the Zip code?" |
| Substitution.Forms | app.py:260-265 | four forms per key, each longer than the key and starting with `{`, `[` or `<` |
| Substitution.Steps | app.py:258-271 | the steps take each item in order and then its four forms in order |
| Substitution.ReplaceInRuns | app.py:268-271 | every run gets the replacement; the per-run test is redundant |
| Substitution.GuardedParagraphUnchanged | app.py:268 | when the paragraph text lacks the form, no run would change |
| Substitution.GuardedCellUnchanged | app.py:286 | when the cell text lacks the form, no run of the cell would change |
| Substitution.ParagraphStep | app.py:267-271 | one guarded step changes each run exactly as an unguarded replace would |
| Substitution.CellStep | app.py:285-290 | one guarded step on a cell changes each run exactly as an unguarded replace would |
| Substitution.ParagraphSteps | app.py:257-271 | a body paragraph ends as each run put through every step on its own |
| Substitution.CellSteps | app.py:274-290 | a cell ends as each of its runs put through every step on its own |
| Substitution.ReplacePlaceholders | app.py:248-290 | the result has the document's shape, and every run, in the body and in cells, has gone through every step on its own |
| Substitution.RunWithoutFormsUnchanged | app.py:257-271 | a run in which no step's form occurs goes through every step unchanged |
| Substitution.BodyRunWithoutFormsKept | app.py:257-271 | in a whole document, a body run holding no form of any key comes back unchanged |
| Substitution.CellRunWithoutFormsKept | app.py:274-290 | in a whole document, a cell run holding no form of any key comes back unchanged |
| Substitution.RunWithoutOpenerUnchanged | app.py:267-271 | a run with no `{`, `[` or `<` is never changed |
| Substitution.ShortRunUnchanged | app.py:267-271 | a run shorter than every form is never changed |
| Substitution.EmptyMappingKeepsDocument | app.py:248-290 | with no answers, the document comes back unchanged |
| Substitution.SingleItemFillsEachForm | app.py:258-271 | a run that is exactly one of the four forms becomes the value |
| Substitution.FillsFormInText | app.py:258-271 | a form amid plain text in one run is replaced, and the surrounding text is kept |
| Substitution.FillsBodyRun | LegalMate.py:47-62 | in a whole document, a body run holding a form amid plain text receives the value |
| Substitution.SplitPlaceholderNotFilled | LegalMate.py:55-62 | `[Name]` split over the runs `[Na` and `me]` stays unfilled |
| Filling.FormOccurrence | app.py:260-265 | a form of a plain key occurs inside another form only at its start and as that same form, or as `{k}` one character into `{{k}}` |
| Filling.StepOnRender | app.py:267-271 | one step fills exactly the holes of its own form and leaves every other piece as it was |
| Filling.FillsTemplate | app.py:257-271 | a run of plain text and forms of distinct plain keys ends as the text with each form replaced by its key's value |
| Filling.BodyRunFilled | LegalMate.py:51-63 | in a whole document, such a body run ends with every form replaced by its value |
| Filling.CellRunFilled | LegalMate.py:64-79 | in a whole document, such a cell run ends with every form replaced by its value |

## Left out

- Streamlit UI: the page layout, chat flow, session state and download buttons (`app.py` from line 303, `LegalMate.py` from line 92). They are interface code around the three operations.
- Reading and writing `.docx` bytes: the document is the parsed structure, and saving is not modelled.
- Exception handlers: the model has no failing inputs. Library errors on corrupt files are outside it.
- Merged cells: python-docx repeats a merged cell in `row.cells`. The model lists each cell once. It therefore does not repeat the cell's text in the linear text. It also does not send the cell's runs through the steps a second time, as the loop at `app.py` line 276 does on the repeated cell.
- Nested tables inside cells: python-docx's `cell.text` and `doc.tables` do not reach them either.
- The language-model call in `LegalMate.py`: its `try` body is `pass`, so only its absence of effect is modelled.
- `docx_to_pdf_fallback` and timestamped download file names: they do not affect any document content.
- Unicode: character classes (`\s`, `\w`, case mapping, `isdigit`) are those of ASCII.
- Case-insensitive matching of `re.search` in `find_context_for_blank`: a blank holds no letters, so ignoring case cannot change the match.
- Filling.FillsTemplate: proved only for keys without delimiter characters, distinct keys, and values and text without `{`, `[` or `<`. Outside that, a value or a neighbouring form can create or hide a later form, and the result depends on the order of the dictionary.
- `str(value)`: values are strings in both callers, so the conversion is the identity.
