# StealthOCR table transformer, modelled in Dafny

StealthOCR turns the OCR text of a reprogramming-action PDF into a fixed
sixteen-column table: appropriation category, code and activity, branch, fiscal
years, budget activity, PEM, budget title, program base (congressional and DoD),
reprogramming amount, revised program total, explanation and file. This project
models the text-processing core of that pipeline and proves what it computes.

The core has five parts:

- **The exact-CSV transformer** (`src/pdf_to_exact_csv_transformer.py`):
  - the OCR cleaner;
  - the keyword gate;
  - the section locator;
  - the chain of appropriation lines;
  - the per-section fields: budget activity, budget title, explanation, amounts with their revised total, and the decrease amount;
  - the 16-column table with the optional `file` override.
- **The Excel transformer** (`src/pdf_to_excel_transformer.py`): metadata, funding and table items, program details, narrative, and the 1000-character raw-text chunks.
- **The browser library** (`js/excel-display.js`): the five-row appropriation parser, the exact CSV data with its defaults, chunks, financial items, sheet rows and their total.
- **The cell sanitiser** `clean_text_for_csv` (`extract_pdf_to_csv.py`).
- **The stand-alone script** `test_real_ocr_csv.py`: three fixed rows gated on service names, the explanation lookup with its fallback, and the fully quoted CSV serialiser. A reader proves that the serialiser's lines read back.

How the model is built:

- **Regular expressions.** Each one is written as the scan a backtracking matcher performs:
  - the leftmost start wins;
  - alternatives are tried in order;
  - greedy `\s*` gives characters back one at a time;
  - lazy groups grow one character at a time;
  - lemmas then state what a match *means*, independently of the scan.
- **Case-insensitive matching** (`re.IGNORECASE`, `str.upper()`, the `/i` flag) is comparison after ASCII upper-casing.
- **White space and `$`.** Python's `\s` and `strip()` use the `str.isspace` set. JavaScript's `\s` and `trim()` use WhiteSpace and LineTerminator. Python `$` also matches before a final newline.
- **Dictionary rows** have datatype keys (`Schema.Field`), each with its header string. Dialect differences are a `Dialect` parameter (`Py` or `Js`).

Modules (one per file):

| Module | Contents |
|---|---|
| `Text` | characters, strings, literal search, strip, split and join |
| `Regex` | the regex building blocks |
| `Normalize` | the OCR cleaner |
| `CsvCell` | quote doubling and `clean_text_for_csv` |
| `Numbers` | digit strings, `int()`, `str()` and `{:,}` |
| `Schema` | the sixteen columns |
| `Sections` | `_extract_section` and `_extract_multiple_sections` |
| `Fields` | the per-section patterns |
| `ExactCsv` | the exact transformer |
| `Report` | the searches the Excel transformer and the browser share |
| `ExcelTransformer` | the Excel transformer |
| `ExcelDisplay` | the browser library |
| `Chunks` | chunking |
| `RealOcrCsv` | the stand-alone script |

Where the code and the documents describing it disagree, the model follows the
code:

- **Zeros in amounts.** Cleaning replaces every `0` by `O` before amounts are read. A `+25,000` in the OCR text therefore gives the reprogramming amount `25,`, not `25,000` (`Fields.ZeroFixCutsAmount`), and no amount cell of any row holds a `0` (`ExactCsv.ParseOcrTextZeroFreeAmounts`).
- **No newline survives cleaning.** Every `(?:\n|$)` group therefore runs to the end of its section, and the budget-title pattern never matches (`ExactCsv.ParseOcrTextNoBudgetTitle`). The newline-collapsing step of the cleaner never finds anything to do.
- **The Python funding numbering counts every match.** `enumerate` runs over all the matches, so a match whose group holds only commas leaves a gap. Items are numbered 1..n only when every match parses.

## Model

| member | source | states |
|---|---|---|
| Normalize.CleanText | src/pdf_to_exact_csv_transformer.py:80-92 | the cleaned text is single-spaced, has no `\|`, no `0` and nothing to strip; its visible characters are the input's with `\|`→`I` and `0`→`O` |
| Normalize.CleanTextWords | src/pdf_to_exact_csv_transformer.py:80-92 | the cleaned text is exactly `' '.join` of the input's `split()` words, each with `\|`→`I` and `0`→`O` applied, and every word of it is non-empty and free of white space |
| Normalize.WordsCollapse | src/pdf_to_exact_csv_transformer.py:83 | collapsing white-space runs changes no word |
| Normalize.WordsOcrFix | src/pdf_to_exact_csv_transformer.py:86-87 | the words of the fixed text are the input's words, each fixed |
| Normalize.WordsStrip | src/pdf_to_exact_csv_transformer.py:92 | stripping changes no word |
| Normalize.JoinedWords | src/pdf_to_exact_csv_transformer.py:80-92 | a single-spaced text with nothing to strip is its words joined by single spaces |
| Normalize.CleanTextIdempotent | src/pdf_to_excel_transformer.py:93-105 | cleaning twice equals cleaning once |
| Normalize.CleanTextOfClean | src/pdf_to_exact_csv_transformer.py:80-92 | clean text is a fixed point of the cleaner |
| Normalize.CleanedHasNoNewline | src/pdf_to_exact_csv_transformer.py:83 | no `\n` or `\r` survives the white-space collapse |
| Normalize.CollapseSpaces | src/pdf_to_exact_csv_transformer.py:83 | `\s+`→space gives single-spaced text with the same visible characters, empty only for empty input |
| Normalize.CollapseSingleSpaced | src/pdf_to_exact_csv_transformer.py:83 | single-spaced text is left unchanged by the collapse |
| Normalize.CollapseNewlines | src/pdf_to_exact_csv_transformer.py:90 | `\n+`→`\n` leaves no two adjacent newlines |
| Normalize.CollapseNewlinesNoop | src/pdf_to_exact_csv_transformer.py:90 | on text without a newline the newline collapse changes nothing |
| Normalize.OcrFixes | src/pdf_to_exact_csv_transformer.py:86-87 | the two OCR replacements keep single spacing and leave no `\|` or `0` |
| Normalize.StripSingleSpaced | src/pdf_to_exact_csv_transformer.py:90-92 | the last two cleaning steps turn fixed single-spaced text into clean text with the same visible characters |
| Normalize.StripKeepsClean | src/pdf_to_exact_csv_transformer.py:92 | stripping fixed single-spaced text gives clean text |
| Normalize.VisibleStrip | src/pdf_to_exact_csv_transformer.py:92 | strip removes white space only |
| Normalize.VisibleReplace | src/pdf_to_exact_csv_transformer.py:86-87 | replacing a visible character by another commutes with dropping white space |
| Text.Strip | src/pdf_to_exact_csv_transformer.py:92 | `strip()` is the slice between the leading and trailing white-space runs and starts and ends with non-space |
| Text.StripSliceLacks | src/pdf_to_exact_csv_transformer.py:206 | a stripped slice of a text that lacks a character (a newline, a `0`) lacks it too |
| Text.Find | src/pdf_to_exact_csv_transformer.py:198 | a literal search finds an occurrence at or after its start |
| Text.FindFirst | src/pdf_to_exact_csv_transformer.py:198 | nothing between the start and the found position is an occurrence |
| Text.UpperString | src/pdf_to_exact_csv_transformer.py:99 | `upper()` upper-cases every character, and only ASCII letters change |
| Text.SplitJoin | test_real_ocr_csv.py:157 | joining parts that lack the separator and splitting again gives the parts back |
| Text.JoinSplit | test_real_ocr_csv.py:157 | splitting and joining again gives the text back |
| ExactCsv.RecognisedIgnoresCase | src/pdf_to_exact_csv_transformer.py:97-101 | the gate holds exactly when one of its five keywords occurs up to case |
| ExactCsv.UpperOccurs | src/pdf_to_exact_csv_transformer.py:99 | an upper-case keyword occurs in the upper-cased text exactly where it occurs up to case |
| ExactCsv.ExtractAppropriationData | src/pdf_to_exact_csv_transformer.py:94-127 | the gate, then one row appended per line, gives the rows of the text |
| ExactCsv.RowsFor | src/pdf_to_exact_csv_transformer.py:103-126 | the loop appends the row of each line in order |
| ExactCsv.AppropriationDataRows | src/pdf_to_exact_csv_transformer.py:94-127 | no rows without a gate keyword; otherwise one row per slot in chain order, with all sixteen keys, the slot's branch and category, and the file placeholder |
| ExactCsv.RowSchema | src/pdf_to_exact_csv_transformer.py:106-125 | a row has all sixteen fields, the line's value for each of the fifteen line keys, and the given file |
| ExactCsv.LineRow | src/pdf_to_exact_csv_transformer.py:106-125 | a row carries the line's fiscal years, branch and category and the `file` value |
| ExactCsv.RowsOfSlots | src/pdf_to_exact_csv_transformer.py:103-126 | there is one row per slot, each following the schema for its slot |
| ExactCsv.DocumentInfo | src/pdf_to_exact_csv_transformer.py:129-151 | the document info always holds the file placeholder |
| ExactCsv.DocumentInfoEntries | src/pdf_to_exact_csv_transformer.py:132-147 | each label entry is present exactly when its pattern matches, and holds the matched value |
| ExactCsv.ExtractAppropriationLines | src/pdf_to_exact_csv_transformer.py:153-192 | the five searches and the Air Force loop give the lines of the text |
| ExactCsv.ParseSingle | src/pdf_to_exact_csv_transformer.py:157-162 | a single-section kind appends a line only for a non-empty section |
| ExactCsv.ParseAirForce | src/pdf_to_exact_csv_transformer.py:171-177 | one Air Force line is appended per Air Force section |
| ExactCsv.LinesAreSlots | src/pdf_to_exact_csv_transformer.py:153-192 | the lines are those of the slots: one per non-empty section, with its kind |
| ExactCsv.SlotsInChainOrder | src/pdf_to_exact_csv_transformer.py:153-192 | slots come in the order Army, Navy, Air Force×N, Defense-Wide increase, Defense-Wide decrease, and hold non-empty sections |
| ExactCsv.SlotsFromInChainOrder | src/pdf_to_exact_csv_transformer.py:153-192 | any five searches' sections give slots in chain order |
| ExactCsv.LinesOfKinds | src/pdf_to_exact_csv_transformer.py:158-190 | each line has its slot's fixed branch and category, and only the decrease line is negated |
| ExactCsv.SlotsFromSingle | src/pdf_to_exact_csv_transformer.py:156-191 | a single-section kind has a slot exactly when its section is non-empty, and that slot holds the section |
| ExactCsv.SlotsFromAirForce | src/pdf_to_exact_csv_transformer.py:171-177 | every Air Force slot holds one of the Air Force sections |
| ExactCsv.KeptOnce | src/pdf_to_exact_csv_transformer.py:158-162 | a kept section is its kind's only slot, there exactly when non-empty |
| ExactCsv.SlotsFromSections | src/pdf_to_exact_csv_transformer.py:156-191 | every slot holds one of the five searches' sections |
| ExactCsv.ParseAppropriationLine | src/pdf_to_exact_csv_transformer.py:230-280 | filling the initial dict field by field gives the line of the section |
| ExactCsv.Get | src/pdf_to_exact_csv_transformer.py:232-248 | the line has a value for exactly the fifteen line keys |
| ExactCsv.LineProgramBase | src/pdf_to_exact_csv_transformer.py:262-265 | both program-base fields carry the same value, non-empty exactly when `Program Base` has a number, and then that number |
| ExactCsv.LineRevisedTotal | src/pdf_to_exact_csv_transformer.py:262-267 | the revised total is non-empty exactly when both amounts read as integers; then it is their sum, comma-grouped, and without its commas exactly `str` of the sum |
| ExactCsv.LineAmounts | src/pdf_to_exact_csv_transformer.py:262-267 | the amount fields are the section's amounts |
| ExactCsv.RevisedOfAmounts | src/pdf_to_exact_csv_transformer.py:265-267 | the `.get(..., '')` reads of an amounts dict keep the revised-total law |
| ExactCsv.LineReprogramming | src/pdf_to_exact_csv_transformer.py:274-278 | a decrease line with a `-` number has one `-` followed by only digits and commas; otherwise the `+` number or `""` |
| ExactCsv.LineOfOneLine | src/pdf_to_exact_csv_transformer.py:251-272 | on newline-free sections the budget title is empty, and the activity title and the explanation run to the section's end |
| ExactCsv.ParseOcrTextNoBudgetTitle | src/pdf_to_exact_csv_transformer.py:257-259 | every row of cleaned OCR text has an empty budget title |
| ExactCsv.ParseOcrTextZeroFreeAmounts | src/pdf_to_exact_csv_transformer.py:87 | no program-base or reprogramming cell of any row of OCR text holds a `0`: the cleaning turns every zero into `O` before the amounts are read |
| ExactCsv.LineAmountsFromText | src/pdf_to_exact_csv_transformer.py:262-278 | the program-base and reprogramming fields of a line hold no character the section lacks, apart from the leading `-` |
| ExactCsv.SlotsLack | src/pdf_to_exact_csv_transformer.py:153-192 | the sections of a text that lacks a character lack it too |
| ExactCsv.SlotsNoBudgetTitle | src/pdf_to_exact_csv_transformer.py:257-259 | no line of newline-free text has a budget title |
| ExactCsv.CreateCsvFile | src/pdf_to_exact_csv_transformer.py:314-332 | a given source file overwrites `file` of every row in place and nothing else; the table is the header then the rows in column order |
| ExactCsv.Cells | src/pdf_to_exact_csv_transformer.py:326-332 | one row of cells per row, each in column order |
| ExactCsv.TableCells | src/pdf_to_exact_csv_transformer.py:314-332 | the transformer's table has the header and one 16-cell line per row, with the source file or the placeholder in `file` and every other cell unchanged |
| ExactCsv.TableOfRows | src/pdf_to_exact_csv_transformer.py:318-332 | for complete rows with the placeholder, the table has the header and one line per row, with the override affecting only `file` |
| Schema.ColumnsAreTheSchema | src/pdf_to_exact_csv_transformer.py:22-39 | sixteen columns, every field among them, with pairwise different names |
| Schema.Header | src/pdf_to_exact_csv_transformer.py:22-39 | the header holds each column's name in column order |
| Schema.ColumnIndex | src/pdf_to_exact_csv_transformer.py:332 | each field has its place in the column order |
| Schema.Project | src/pdf_to_exact_csv_transformer.py:326-332 | a row laid out in column order has sixteen cells, with `""` for a missing column |
| Schema.ColumnNameOneLine | src/pdf_to_exact_csv_transformer.py:22-39 | no column name holds a newline |
| Sections.ExtractSectionAt | src/pdf_to_exact_csv_transformer.py:194-206 | after the first start match (up to case), the section is the trimmed text from the keyword's end to where the end search stops |
| Sections.ExtractSectionMissing | src/pdf_to_exact_csv_transformer.py:196-198 | without a start match the section is `""` |
| Sections.SectionExcludesEnds | src/pdf_to_exact_csv_transformer.py:194-206 | a section holds no end keyword, up to case |
| Sections.SectionLacks | src/pdf_to_exact_csv_transformer.py:194-206 | the section of a text that lacks a character lacks it too |
| Sections.EndOfStops | src/pdf_to_exact_csv_transformer.py:201-204 | the end search stops at an end keyword, at the end, or before a final newline |
| Sections.EndOfFirst | src/pdf_to_exact_csv_transformer.py:201-204 | no end keyword occurs before where the end search stops |
| Sections.OccursInTrimmed | src/pdf_to_exact_csv_transformer.py:206 | an occurrence in a trimmed slice is an occurrence in the text inside that slice |
| Sections.ExtractMultipleSections | src/pdf_to_exact_csv_transformer.py:208-228 | the loop over the start matches gives the non-empty trimmed sections |
| Sections.CollectSections | src/pdf_to_exact_csv_transformer.py:214-226 | the loop keeps each start match's trimmed section when it is non-empty |
| Sections.OccurrencesAreMatches | src/pdf_to_exact_csv_transformer.py:213 | every start match is an occurrence at or after the search start |
| Sections.OccurrencesOrdered | src/pdf_to_exact_csv_transformer.py:213 | each start match begins after the previous one has ended |
| Sections.OccurrencesGap | src/pdf_to_exact_csv_transformer.py:213 | no occurrence is skipped between two consecutive start matches |
| Sections.OccurrencesFirst | src/pdf_to_exact_csv_transformer.py:213 | no occurrence comes before the first start match |
| Sections.MultipleSectionsInOrder | src/pdf_to_exact_csv_transformer.py:208-228 | at most one section per start match, in text order, and every non-empty one kept |
| Sections.MultipleSectionsNonEmpty | src/pdf_to_exact_csv_transformer.py:225 | no yielded section is empty |
| Sections.MultipleSectionsExclude | src/pdf_to_exact_csv_transformer.py:208-228 | no yielded section holds the start keyword or an end keyword, up to case |
| Sections.MultipleSectionsLack | src/pdf_to_exact_csv_transformer.py:208-228 | every yielded section of a text that lacks a character lacks it too |
| Sections.SectionTextExcludes | src/pdf_to_exact_csv_transformer.py:216-224 | the section of a start match holds neither the start keyword nor an end keyword |
| Sections.NonEmptyKeeps | src/pdf_to_exact_csv_transformer.py:225-226 | dropping empty sections keeps the non-empty ones in order |
| Sections.SectionTextsAt | src/pdf_to_exact_csv_transformer.py:216-224 | the section of the `k`-th match is the trimmed slice up to the first end keyword before the next match |
| Fields.ActivityHeader | src/pdf_to_exact_csv_transformer.py:251 | a header match is `Budget Activity `, digits and a colon |
| Fields.BudgetActivity | src/pdf_to_exact_csv_transformer.py:251-254 | the activity number is a non-empty digit string, and the title is stripped |
| Fields.BudgetActivityToEnd | src/pdf_to_exact_csv_transformer.py:251-254 | on newline-free text the title is the stripped text after the first header's colon, up to the end |
| Fields.ActivitySearchFirst | src/pdf_to_exact_csv_transformer.py:251 | no header matches before the one found |
| Fields.TitleGroupToEnd | src/pdf_to_exact_csv_transformer.py:251 | on newline-free text the title group matches when something follows the colon, and then runs to the end |
| Fields.BudgetTitle | src/pdf_to_exact_csv_transformer.py:257-259 | a budget title is stripped |
| Fields.BudgetTitleNeedsNewline | src/pdf_to_exact_csv_transformer.py:257-259 | the budget-title pattern never matches text without a newline |
| Fields.BudgetTitleHasNewline | src/pdf_to_exact_csv_transformer.py:257-259 | a budget title implies a newline in the text |
| Fields.Explanation | src/pdf_to_exact_csv_transformer.py:270-272 | the explanation is stripped |
| Fields.ExplanationToEnd | src/pdf_to_exact_csv_transformer.py:270-272 | on newline-free text the explanation is the stripped rest after the first `Explanation:`, present exactly when something follows it |
| Fields.ProgramBaseSearch | src/pdf_to_exact_csv_transformer.py:292 | the program base found is a non-empty run of digits and commas |
| Fields.ExtractAmounts | src/pdf_to_exact_csv_transformer.py:282-305 | filling the amounts dict gives the amounts of the text |
| Fields.AmountsFound | src/pdf_to_exact_csv_transformer.py:287-295 | the reprogramming and program-base entries are present exactly when their patterns match, and hold the groups |
| Fields.AmountsRevisedTotal | src/pdf_to_exact_csv_transformer.py:297-303 | the revised total is present exactly when both amounts parse; it is their sum, comma-grouped, and without its commas exactly `str` of the sum (no leading zero) |
| Fields.GroupValueDefined | src/pdf_to_exact_csv_transformer.py:299-300 | a digit-and-comma group parses exactly when it holds a digit |
| Fields.RemoveCommasKeepsDigits | src/pdf_to_exact_csv_transformer.py:299-300 | removing commas leaves something exactly when there is a digit |
| Fields.DecreaseAmount | src/pdf_to_exact_csv_transformer.py:307-312 | `""` exactly when no `-` number occurs, else digits and commas |
| Fields.SignedNumberFromText | src/pdf_to_exact_csv_transformer.py:287 | a `+` or `-` number found holds no character the text lacks |
| Fields.ProgramBaseFromText | src/pdf_to_exact_csv_transformer.py:292 | the program-base group holds no character the text lacks |
| Fields.AmountsFromText | src/pdf_to_exact_csv_transformer.py:286-294 | the two amounts found hold no character the text lacks |
| Fields.ZeroFixCutsAmount | src/pdf_to_exact_csv_transformer.py:87 | an instance: after the `0`→`O` fix, `+25,000` yields the amount `25,` |
| Numbers.FormatThousands | src/pdf_to_exact_csv_transformer.py:301 | `{:,}` gives comma-grouped digits which, without the commas, are exactly `str(n)` (no leading zero), and which read back as the number |
| Numbers.Group | src/pdf_to_exact_csv_transformer.py:301 | grouping digits gives a grouped string whose commas removed are the digits |
| Numbers.GroupStep | src/pdf_to_exact_csv_transformer.py:301 | adding three digits after a comma keeps the grouping law |
| Numbers.Decimal | src/pdf_to_excel_transformer.py:149 | `str(n)` is the decimal digits of `n` without a leading zero |
| Numbers.ParseInt | src/pdf_to_exact_csv_transformer.py:300 | on a string over `[0-9]`, `int()` succeeds exactly when the string is non-empty (the white space, sign and `_` it also accepts never reach it here) |
| Numbers.RemoveCommas | src/pdf_to_exact_csv_transformer.py:299 | `replace(',', '')` leaves no comma |
| Numbers.RemoveCommasOfDigits | src/pdf_to_exact_csv_transformer.py:299 | removing commas from a digit-and-comma run leaves digits |
| Regex.LabelValue | src/pdf_to_exact_csv_transformer.py:132-147 | a label value is stripped |
| Regex.LabelValueMatches | src/pdf_to_excel_transformer.py:112-134 | a label pattern succeeds exactly when the text holds a match, and the value is that match's stripped group |
| Regex.LabelSearchMatch | src/pdf_to_excel_transformer.py:112 | what the search returns is the group of a real match, stopped at the first `\n` or `$` |
| Regex.LabelSearchSound | src/pdf_to_excel_transformer.py:112 | a found group comes from a label tried at some start position |
| Regex.LabelMatchFound | src/pdf_to_excel_transformer.py:112 | any match in the text makes the search succeed |
| Regex.SpacesThenLazyToEnd | src/pdf_to_exact_csv_transformer.py:254 | when nothing can stop the group before the end, `\s*(.+?)` matches exactly when something follows, running to the end |
| Regex.SingleLabelToEnd | src/pdf_to_exact_csv_transformer.py:270-272 | a single-label pattern whose group can only stop at the end matches at the first label, when something follows it |
| Regex.SignedNumber | src/pdf_to_exact_csv_transformer.py:287 | `X([\d,]+)` gives a non-empty run of digits and commas |
| Regex.SignedNumberNone | src/pdf_to_exact_csv_transformer.py:287 | without a sign followed by a digit or comma there is no match |
| Regex.SignedNumberFinds | src/pdf_to_exact_csv_transformer.py:287 | a sign followed by a digit or comma makes the search succeed |
| Regex.LazyFromFirst | src/pdf_to_exact_csv_transformer.py:270 | a lazy group stops at the first place its tail matches |
| Regex.TailSearchStops | src/pdf_to_exact_csv_transformer.py:201 | an end search stops where its tail matches |
| Regex.TailSearchFirst | src/pdf_to_exact_csv_transformer.py:201 | an end search stops at the first such place |
| Regex.AllMatchesAt | src/pdf_to_excel_transformer.py:143 | each `finditer` match starts at or after the previous end, with no match in between |
| Regex.AllMatchesEnd | src/pdf_to_excel_transformer.py:143 | nothing matches after the last `finditer` match |
| Regex.LeftmostFirst | src/pdf_to_excel_transformer.py:112 | nothing before the leftmost match matches |
| Regex.LeftmostFinds | src/pdf_to_excel_transformer.py:112 | any match makes the leftmost search succeed |
| Report.ExtractMetadata | src/pdf_to_excel_transformer.py:107-136 | filling the metadata entry by entry gives the metadata of the text |
| Report.MetadataEntries | src/pdf_to_excel_transformer.py:107-136 | each label entry is present exactly when its pattern matches; the transfer entry is `Yes` or `No` up to case |
| Report.TransferValueIsAnswer | js/excel-display.js:222 | the transfer answer is `Yes` or `No` up to case, with nothing to strip |
| Report.AnswerAt | src/pdf_to_excel_transformer.py:26 | the `(Yes\|No)` group is one of the two words and needs no strip |
| Report.TransferFoundHere | src/pdf_to_excel_transformer.py:127-129 | a question followed by white space and an answer makes the transfer entry present |
| Report.FundingMatchIs | src/pdf_to_excel_transformer.py:143 | each funding match is a real match starting after the previous one |
| Report.FundingGap | src/pdf_to_excel_transformer.py:143 | no funding match is skipped between consecutive ones |
| Report.FundingMatchesAt | src/pdf_to_excel_transformer.py:143 | funding matches are in text order, do not overlap, and none is missed |
| Report.FundingGroup | src/pdf_to_excel_transformer.py:33 | the funding group is the whole run of digits and commas |
| Report.WordMatchesAt | js/excel-display.js:261-270 | every table match is one of the four headings up to case, in text order without overlap |
| Report.WordAtIsHeading | src/pdf_to_excel_transformer.py:175 | a heading match is one of the four headings |
| Report.MarkerGroupSound | src/pdf_to_excel_transformer.py:199-201 | the description group starts right after a marker and stops at the first place its tail matches |
| Report.MarkerGroupFirst | src/pdf_to_excel_transformer.py:199-201 | when the tail matches at the end, the marker group starts after a marker occurrence at or before every marker occurrence that has a character after it: the leftmost match |
| Report.DescriptionFound | src/pdf_to_excel_transformer.py:199-201 | a marker with something after it gives a description |
| Report.PeriodTail | src/pdf_to_excel_transformer.py:34 | `(?:\.\|$)` matches at a period or at the end |
| ExcelTransformer.ParseOcrText | src/pdf_to_excel_transformer.py:66-91 | the parsed data: cleaned raw text, metadata, funding then table items, program details and narrative of the cleaned text |
| ExcelTransformer.ExtractFundingItems | src/pdf_to_excel_transformer.py:142-155 | the loop over the funding matches gives the funding items |
| ExcelTransformer.FundingItemsAre | src/pdf_to_excel_transformer.py:143-155 | the items are those of the parsing matches in match order, each numbered by its match's index plus one |
| ExcelTransformer.FundingItemsNumbered | src/pdf_to_excel_transformer.py:143-153 | when every match parses, items are `Funding Item 1..n` in order, one per match, with the match as context |
| ExcelTransformer.FundingItemMeaning | src/pdf_to_excel_transformer.py:145-155 | a match gives no item exactly when its group is all commas; an item's amount is the digits' value, its text exactly `"$" + FormatThousands(amount)`: `$`, then the value grouped by thousands that without its commas is its decimal digits with no leading zero (`f"${amount:,}"`) |
| ExcelTransformer.EnumerateKept | src/pdf_to_excel_transformer.py:144 | `enumerate` with a skip keeps the items of the kept indices, in order |
| ExcelTransformer.ExtractTableData | src/pdf_to_excel_transformer.py:163-184 | the loop gives the table items of the text |
| ExcelTransformer.TableItemsShape | src/pdf_to_excel_transformer.py:163-184 | no items without the heading; otherwise one per heading word in the next 1000 characters, in order, amount 0 and `TBD` |
| ExcelTransformer.TableWindow | src/pdf_to_excel_transformer.py:171-172 | the window is at most 1000 characters |
| ExcelTransformer.TableItemsOf | src/pdf_to_excel_transformer.py:176-182 | one item per match, the word as item and context, amount 0, `TBD` |
| ExcelTransformer.WindowItems | src/pdf_to_excel_transformer.py:175-182 | the items of a window follow its heading matches |
| ExcelTransformer.WordIsHeading | src/pdf_to_excel_transformer.py:175 | each table match's text is one of the four headings up to case |
| ExcelTransformer.ExtractFinancialData | src/pdf_to_excel_transformer.py:138-161 | the funding items, then the table items |
| ExcelTransformer.ExtractProgramDetails | src/pdf_to_excel_transformer.py:186-203 | the two flags hold exactly when their phrases occur up to case; the description is the marker group |
| ExcelTransformer.NotFound | src/pdf_to_excel_transformer.py:191 | a failed search means the phrase does not occur |
| ExcelTransformer.DescriptionMeaning | src/pdf_to_excel_transformer.py:198-201 | the description is the stripped text after a marker occurrence, with no marker that has a character after it occurring earlier (`re.search`'s leftmost match), up to the first `.` or the end |
| ExcelTransformer.NarrativeOfMarker | src/pdf_to_excel_transformer.py:208-211 | with a marker the narrative is the stripped text after the leftmost marker occurrence that has a character after it, up to the first end phrase or the end |
| ExcelTransformer.NarrativeFallback | src/pdf_to_excel_transformer.py:213-219 | without a marker: the first paragraph longer than 100 characters once stripped, stripped; else the text, cut to 500 characters plus `...` when longer |
| ExcelTransformer.FirstLongParagraphIsFirst | src/pdf_to_excel_transformer.py:214-217 | the paragraph returned is the first long one, and none means all are short |
| ExcelTransformer.NarrativeOfCleanText | src/pdf_to_excel_transformer.py:213-219 | on cleaned text without a marker the narrative is the whole text |
| ExcelTransformer.SplitWithoutNewline | src/pdf_to_excel_transformer.py:214 | newline-free text is a single paragraph |
| Chunks.SplitIntoChunks | src/pdf_to_excel_transformer.py:317-326 | the chunk loop gives the chunking of the text |
| Chunks.ChunkedShape | src/pdf_to_excel_transformer.py:321-326 | chunks concatenate to the text, number 1..⌈n/1000⌉ in order, hold 1000 characters each but the last, which is non-empty |
| Chunks.ConcatChunksFrom | src/pdf_to_excel_transformer.py:321-322 | chunks from a position concatenate to the rest of the text |
| Chunks.ChunksFromCount | src/pdf_to_excel_transformer.py:321 | there are ⌈(n − i)/1000⌉ chunks from `i` |
| Chunks.ChunksFromAt | src/pdf_to_excel_transformer.py:322-325 | the `k`-th chunk is numbered by its start and holds the next 1000 characters |
| Chunks.ChunkEnd | src/pdf_to_excel_transformer.py:322 | a chunk ends after its start, at most 1000 later, within the text |
| ExcelDisplay.CreateRawTextData | js/excel-display.js:202-215 | the chunks of `text \|\| ''` |
| ExcelDisplay.ParseAppropriationData | js/excel-display.js:89-148 | the five blocks give the appropriation rows |
| ExcelDisplay.MatchRow | js/excel-display.js:93-101 | one block gives the kind's row when its pattern matches |
| ExcelDisplay.AppropriationRowsShape | js/excel-display.js:89-148 | at most five rows, one per kind with `Explanation:` after its keyword, in chain order, each with its kind's fixed fields |
| ExcelDisplay.PresentRows | js/excel-display.js:89-148 | one row per matching kind, and only those |
| ExcelDisplay.ExplanationAfterFound | js/excel-display.js:93 | an explanation pattern matches exactly when `Explanation:` follows the keyword up to case |
| ExcelDisplay.ExplanationStopsAtEnd | js/excel-display.js:93 | the group stops at the first end keyword or the end, and holds none |
| ExcelDisplay.ExtractAmount | js/excel-display.js:150-153 | `extractAmount` gives a run of digits and commas |
| ExcelDisplay.ExtractAmountMeaning | js/excel-display.js:98 | `''` exactly when no sign-and-number follows the keyword |
| ExcelDisplay.DecreaseRowAmount | js/excel-display.js:142 | the decrease amount starts with `-`, followed by digits and commas; it is exactly `-` when no `-number` follows the keyword |
| ExcelDisplay.CreateExactCsvData | js/excel-display.js:35-87 | the header then one mapped row per parsed row |
| ExcelDisplay.CsvRows | js/excel-display.js:42-86 | the header push and the `forEach` give the header and mapped rows |
| ExcelDisplay.JsHeaderIsHeader | js/excel-display.js:45-62 | the browser header is the exact-CSV header |
| ExcelDisplay.CsvRow | js/excel-display.js:66-83 | a data row has sixteen cells |
| ExcelDisplay.CsvDataShape | js/excel-display.js:42-86 | one more line than rows, header first, each data row following its defaults |
| ExcelDisplay.CsvRowCells | js/excel-display.js:66-83 | each set field is in its column; fiscal years default to `2025`, the rest and `file` to `''` |
| ExcelDisplay.ExtractFinancialData | js/excel-display.js:238-273 | the two `exec` loops give the financial items |
| ExcelDisplay.FinancialItemsShape | js/excel-display.js:238-273 | funding items first, numbered 1..n in match order, then one zero-amount item per table match |
| ExcelDisplay.FundingItemsHold | js/excel-display.js:246-258 | one funding item per match, in order: numbered from 1, its amount the group's digits, its amount text `$` and that amount grouped by thousands, its description the fixed funding text and its context the match |
| ExcelDisplay.TableItemsHold | js/excel-display.js:262-270 | one table item per heading match, in order: the word as written, amount 0, amount text `TBD`, the fixed component description and the match as context |
| ExcelDisplay.CreateFinancialData | js/excel-display.js:175-189 | the sheet rows of the financial items |
| ExcelDisplay.SheetRowsOfText | js/excel-display.js:175-189 | the single placeholder row when there are no items, otherwise one row per item in order with its fields unchanged |
| ExcelDisplay.ItemFilled | js/excel-display.js:250-269 | every item's text fields are non-empty, so no default applies |
| ExcelDisplay.TotalIsFunding | js/excel-display.js:299-301 | the total is the sum of the funding amounts |
| ExcelDisplay.TotalAmountAppend | js/excel-display.js:299-301 | the total of two lists is the sum of their totals |
| ExcelDisplay.FundingItemsTotal | js/excel-display.js:299-301 | the funding items total their match amounts |
| ExcelDisplay.TableItemsTotal | js/excel-display.js:299-301 | table items add nothing to the total |
| CsvCell.CleanTextForCsv | extract_pdf_to_csv.py:19-27 | the output has no `\n` or `\r`, is single-spaced with nothing to strip, and its visible characters are the input's with quotes doubled |
| CsvCell.CleanTextForCsvWords | extract_pdf_to_csv.py:19-27 | the output is exactly `' '.join` of the input's `split()` words, each with its quotes doubled |
| CsvCell.WordsDoubleQuotes | extract_pdf_to_csv.py:24 | the words of the quote-doubled text are the input's words, each doubled |
| CsvCell.CleanTextForCsvQuotes | extract_pdf_to_csv.py:24 | the output has twice as many `"` as the input |
| CsvCell.CleanTextForCsvEmpty | extract_pdf_to_csv.py:22-27 | the output is empty exactly for empty or all-white-space input |
| CsvCell.DoubleQuotes | extract_pdf_to_csv.py:24 | the doubled text is empty only for empty input |
| CsvCell.UndoubleDoubleQuotes | test_real_ocr_csv.py:153 | un-doubling gives back the doubled text |
| CsvCell.DoubleQuotesCount | extract_pdf_to_csv.py:24 | doubling doubles the number of quotes |
| CsvCell.DoubleQuotesSingleSpaced | extract_pdf_to_csv.py:24 | doubling keeps single spacing |
| CsvCell.VisibleDoubleQuotes | extract_pdf_to_csv.py:24 | doubling commutes with dropping white space |
| CsvCell.StripSingleSpacedText | extract_pdf_to_csv.py:27 | stripping keeps single spacing and newline-freedom |
| RealOcrCsv.ExtractExplanation | test_real_ocr_csv.py:119-135 | the loop over the three patterns gives the explanation of the service |
| RealOcrCsv.ExplanationChoice | test_real_ocr_csv.py:130-135 | the fallback when no pattern gives a non-blank group, else the first such group |
| RealOcrCsv.ExplanationFromFallback | test_real_ocr_csv.py:135 | with no candidate the result is the fallback |
| RealOcrCsv.Fallback | test_real_ocr_csv.py:135 | the first 200 characters (or all) followed by `...` |
| RealOcrCsv.CandidateStripped | test_real_ocr_csv.py:132-133 | a candidate is non-blank and stripped |
| RealOcrCsv.CaptureFound | test_real_ocr_csv.py:125-131 | a pattern matches exactly when the keyword follows the service up to case |
| RealOcrCsv.CaptureStops | test_real_ocr_csv.py:125-131 | the group runs to the first blank line or the end, and holds none |
| RealOcrCsv.ParseAppropriationData | test_real_ocr_csv.py:44-117 | the three conditional appends give the rows |
| RealOcrCsv.AppropriationRowsShape | test_real_ocr_csv.py:44-117 | at most three rows, one per mentioned service, in order Army, Navy, Air Force, with sixteen fields, its explanation and the document name |
| RealOcrCsv.ServiceRowHolds | test_real_ocr_csv.py:53-70 | a service row has all sixteen fields, the service as branch, the explanation and the file |
| RealOcrCsv.CreateCsvContent | test_real_ocr_csv.py:137-157 | the nested loops give the CSV content |
| RealOcrCsv.QuoteRow | test_real_ocr_csv.py:149-155 | one quoted field per column, in column order |
| RealOcrCsv.CsvHeadersAreHeader | test_real_ocr_csv.py:139-144 | the script's headers are the exact-CSV header |
| RealOcrCsv.QuotedFieldInside | test_real_ocr_csv.py:153-154 | a field is wrapped in quotes and its inside un-doubles to the value |
| RealOcrCsv.MissingKeyField | test_real_ocr_csv.py:151 | a missing key gives `""` |
| RealOcrCsv.HeaderLineFirst | test_real_ocr_csv.py:146 | the first line is the headers joined by `,` |
| RealOcrCsv.CsvContentLines | test_real_ocr_csv.py:146-157 | without newlines in values, `len(data) + 1` lines: the header, then each row's line, which reads back as the row |
| RealOcrCsv.RecordLineReadsBack | test_real_ocr_csv.py:148-155 | reading a row's line back gives the row's cells in column order |
| RealOcrCsv.ParseQuoted | test_real_ocr_csv.py:154-155 | quoted fields joined by `,` read back as the values |
| RealOcrCsv.UnquoteDoubled | test_real_ocr_csv.py:153-154 | the rest of a doubled field after its opening quote reads back as the value |
| RealOcrCsv.RecordLineLacksNewline | test_real_ocr_csv.py:155 | a row of newline-free values gives a newline-free line |

## Left out

- **I/O and plumbing.** These are file and library I/O, clocks, or plumbing with nothing to prove in this model:
  - the OCR engines;
  - pandas and openpyxl writing (`to_csv`, `ExcelWriter`, sheet layout, column widths);
  - `datetime.now()` file names and timestamps;
  - logging and `print`;
  - `main`;
  - the `extract_pdf_to_csv` function;
  - the DOM, SheetJS and async parts of the browser library.
- **Browser functions not modelled.** `createSummaryData`, `createProgramData` and `extractProgramDetails` are not named in the core. They only format fields for display.
- **Excel sheets not modelled.** `_create_summary_sheet`, `_create_financial_sheet` and `_create_program_sheet` only lay out pandas frames. Of the raw-text sheet, the chunk loop is modelled (`Chunks.SplitIntoChunks`).
- **Floats.** `float()`, `parseFloat` and the `{:,.0f}` format are modelled on natural numbers. This ignores float rounding above 2^53 and the precision of a formatted float.
  - Numbers.DigitsValue: a digit string denotes its exact value.
- **Number formatting.** `toLocaleString()` is taken to be the en-US format, comma-grouped digits. Other locales are left out.
- **Unicode.**
  - Case-insensitive matching and `str.upper()` are ASCII upper-casing. Python's Unicode case folding of non-ASCII letters is left out.
  - `\d` is ASCII digits. Python also accepts other Unicode digits.
  - Browser strings are modelled as sequences of characters, not of UTF-16 code units. The browser's regular expressions here are ASCII patterns without the `u` flag, so their matches and groups are the same strings either way; only counting and cutting by position differ (the chunks, below).
- ExcelDisplay.CreateExactCsvData: `ocrData` is modelled by its `text` field alone, as an `Option` for a missing or empty text. An `ocrData` that is not an object is not modelled.
- ExcelDisplay.CreateFinancialData: takes the text directly. A missing `ocrData.text`, on which `exec` would search the string `"undefined"`, is not modelled.
- **Browser rows.** A row of `parseAppropriationData` is the four-field record `ExcelDisplay.JsRow`. Its other fields are absent, which the `|| ''` defaults handle.
- **TotalAmount.** `item.amount || 0` counts a missing amount as 0. The model's items always carry an amount, so the default never applies; `parseFloat(...) || 0` gives 0 for a group of commas, and so does the model.
- **Python dict keys** are the datatype `Schema.Field`. `row.get(header, '')` is `Schema.Project`. `str(value)` is applied to string values only, since every row value in these sources is a string.
- Schema.Project: pandas fills a column missing from only some rows with NaN rather than `''`. The rows built by `_extract_appropriation_data` always hold every key, so this case does not arise.
- ExcelTransformer.ExtractProgramDetails: a flag key that the source omits when its phrase is absent is modelled as `false`.
- **Two identical copies.**
  - The two Python `_clean_text` methods are textually identical and are modelled once, as `Normalize.CleanText`.
  - The chunk loops of the Excel transformer and the browser have the same shape, and are modelled once, as `Chunks.SplitIntoChunks` over a sequence of characters. They agree exactly only on text inside the Basic Multilingual Plane; see the next line.
- ExcelDisplay.CreateRawTextData: JavaScript's `length` and `substring` count UTF-16 code units, while the model, like Python, counts Unicode characters. On text holding a character outside the Basic Multilingual Plane, the browser cuts every 1000 code units, can split a surrogate pair between two chunks, and makes ⌈code units/1000⌉ chunks; the model's chunks and count are those of the Python loop.
- **The `page_break` pattern** of the Excel transformer is never used, and is not modelled.
