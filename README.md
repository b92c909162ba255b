# DMP register of sensitive research: a verified model

The core of two scripts that build reports from plans exported from DMP
Online.

`DMP_stats_v1.4.py` builds the register of sensitive research:
- It reads the JSON exports of two plan templates: the GDPR form and the
  certified faculty template.
- It cleans every free-text answer. Markup is stripped, the lines are joined
  with `_-_`, and the HTML entities and semicolons are removed or replaced.
- It joins the option answers into strings separated by " - ".
- It assembles one row per plan in a fixed column layout.
- It keeps only the certified plans that answer "Yes" to the personal-data
  question.
- It joins the rows with project start and end dates from the metadata API.
- It classifies each plan's faculty from its "faculty situated" answer.

`DMPs_updates.py` compares regular plan dumps with the last register:
- It selects the dump files.
- It drops duplicate rows.
- It requests metadata in batches of 150 identifiers.
- It reads the metadata pages, which may hold `None` pages.
- It joins the plans with their project dates.
- It flags with `Register` = 1 each plan that is in the register.

Every operation is modelled on values:
- JSON documents are a `Value` datatype (`json_value.dfy`).
- A folder of exported files is a listing of names plus a map from name to
  parsed content.
- Whatever makes the Python run stop (an uncaught `KeyError`, `IndexError`,
  `TypeError` or `NameError`) is the `Fatal` outcome of a `Result`
  (`outcomes.dfy`).

The loops of the scripts are methods. Each method is proved equal to the
function that specifies it, and the source's promises are lemmas about those
functions.

Modules:

- `PyText`, `JsonValue`, `Outcomes`: Python string operations, JSON values
  and lookups, and outcomes.
- `Sanitizer`: `remove_html` and the clean-up of answers.
- `Extractor`: per-question blocks, option aggregation and the
  "Unknown" rules.
- `Schema`, `Templates`: the register's columns and the per-field extraction
  tables of both templates.
- `Normalizer`: one row per plan file.
- `Pages`: the two-level iteration over pages and documents.
- `Screening`: the certified personal-data filter.
- `Metadata`: project dates.
- `Batching`: metadata requests in batches.
- `Tables`: inner merge and `drop_duplicates`.
- `Faculty`: the faculty classifier.
- `Register`: steps 6 to 11 of the stats script.
- `RunDate`: the run-year rule.
- `Updates`: the updates script.

## Where the text description and the code differ

The model follows the code in each case.

- Cleaning an answer twice is not the same as cleaning it once.
  - Stripping markup is idempotent (`Sanitizer.StripMarkupIdempotent`).
  - The whole clean-up is not (`Sanitizer.CleaningNotIdempotent`). Once cleaned,
    plain text no longer starts with `<`, so `remove_html` raises on it.
- `remove_html` reads `tag` before assigning it.
  - It returns only for an empty text or one that starts with `<` or `>`.
  - Otherwise the `try` turns the `NameError` into "Unknown".
- Deleting semicolons can create a new entity: `&nb;sp` becomes `&nbsp`
  (`Sanitizer.DeletionRecreatesEntity`).
- A question answered with zero options gives the empty string, not
  "Unknown", in the options-only fields (`Extractor.ZeroOptions`).
- The metadata loop of the stats script does not skip `None` pages. The
  updates script does.

## Model

| member | source | states |
|---|---|---|
| Sanitizer.RemoveHtml | DMP_stats_v1.4.py:168-182 | `remove_html` raises exactly when the text is non-empty and starts with neither `<` nor `>`; otherwise it returns the text with every tag removed |
| Sanitizer.StepItem | DMP_stats_v1.4.py:173-181 | one list element raises exactly when it lies outside a tag and is not a string |
| Sanitizer.ScanItemsStops | DMP_stats_v1.4.py:173-181 | once an element raises, the scan of the whole list raises |
| Sanitizer.RemoveHtmlList | DMP_stats_v1.4.py:168-182 | `remove_html` on a list scans its elements: the first must be `<` or `>`, and string elements outside tags are appended whole |
| Sanitizer.CharItems | DMP_stats_v1.4.py:173 | the list of a string's characters has one one-character string per character |
| Sanitizer.ScanCharItems | DMP_stats_v1.4.py:173-181 | scanning the list of a string's characters gives the state of scanning the string |
| Sanitizer.CharItemsLikeString | DMP_stats_v1.4.py:168-182 | `remove_html` on the list of a string's characters equals `remove_html` on the string |
| Sanitizer.ListElementsNotScanned | DMP_stats_v1.4.py:173-181 | a string element is appended whole, markup inside it included, and a tag's elements are dropped whatever they hold |
| Sanitizer.NonStringOutsideTagRaises | DMP_stats_v1.4.py:180-181 | a non-string element outside every tag makes `remove_html` raise |
| Sanitizer.ScanKeepsInvariant | DMP_stats_v1.4.py:173-181 | the scanner's state stays reachable; output is only appended to, and every appended character comes from the input and is not `<` or `>` |
| Sanitizer.StripMarkupChars | DMP_stats_v1.4.py:168-182 | the stripped text contains no `<` or `>`, and each of its characters occurs in the input |
| Sanitizer.PlainTextUnchanged | DMP_stats_v1.4.py:168-182 | a text without `<` or `>` passes through unchanged |
| Sanitizer.StripMarkupIdempotent | DMP_stats_v1.4.py:168-182 | stripping markup twice equals stripping it once |
| Sanitizer.QuotedTagDropped | DMP_stats_v1.4.py:174-179 | a tag with a quoted attribute value is dropped whole, even when the value contains `>` |
| Sanitizer.PlainTagDropped | DMP_stats_v1.4.py:174-179 | a tag without quotes is dropped whole |
| Sanitizer.QuotedAttributeExample | DMP_stats_v1.4.py:174-179 | a link whose quoted href contains `>` strips to its text |
| Sanitizer.Outside | DMP_stats_v1.4.py:180-181 | outside a tag, text without angle brackets is copied to the output |
| Sanitizer.InsideUnquoted | DMP_stats_v1.4.py:176-179 | inside a tag, characters other than `>` and quotes are dropped |
| Sanitizer.InsideQuoted | DMP_stats_v1.4.py:174-179 | inside a quoted value, every character up to the closing quote is dropped, `>` and `<` included |
| Sanitizer.ReplaceListed | DMP_stats_v1.4.py:250-255 | the entity and semicolon loops apply `str.replace` for each listed pattern in turn |
| Sanitizer.CleanAnswer | DMP_stats_v1.4.py:246-255 | the line-joining plus replacement loop computes the cleaned answer |
| Sanitizer.JoinLinesHasNoBreak | DMP_stats_v1.4.py:248 | joining `splitlines()` with `_-_` leaves no line boundary character |
| Sanitizer.JoinLinesChars | DMP_stats_v1.4.py:248 | every joined character comes from the text or from `_-_` |
| Sanitizer.CleanedIsOneLine | DMP_stats_v1.4.py:246-255 | a cleaned answer is a single line |
| Sanitizer.CleanedHasNoSemicolon | DMP_stats_v1.4.py:253-255 | a cleaned answer contains no `;` when the replacement does not |
| Sanitizer.PeriodSubstitutedHasNoEntity | DMP_stats_v1.4.py:1221-1227 | a title cleaned with `.` for `;` contains neither an entity nor `;` |
| Sanitizer.DeletionRecreatesEntity | DMP_stats_v1.4.py:250-255 | deleting `;` from `&nb;sp` creates `&nbsp` |
| Sanitizer.CleanedOfPlain | DMP_stats_v1.4.py:246-255 | a printable one-line text without entities is cleaned by the semicolon replacement alone |
| Sanitizer.RawSemicolonGuardEquivalent | DMP_stats_v1.4.py:321-326 | checking for `;` in the markup-free text rather than the joined one gives the same result |
| Sanitizer.CleaningNotIdempotent | DMP_stats_v1.4.py:240-258 | cleaning `<b>x</b>` gives `x`, and cleaning `x` again raises |
| Extractor.RemoveHtmlOf | DMP_stats_v1.4.py:168-182 | a string text is scanned by character and a list by element; a dict of `<`/`>` keys yields the empty string and one without them raises; any other value raises |
| Extractor.Node | DMP_stats_v1.4.py:236-237 | a found question node is element `question` of the section's question list, and its key count is `len(node)` |
| Extractor.OptionText | DMP_stats_v1.4.py:299 | an option's text exists exactly when the option has a string `text` key |
| Extractor.AggregateOptions | DMP_stats_v1.4.py:295-301 | the option loop computes the separated concatenation of the option texts |
| Extractor.AggregatedIsSeparatedConcat | DMP_stats_v1.4.py:295-301 | when every option has a text, the aggregate is each text preceded by the separator |
| Extractor.AggregatedFailsOnBadOption | DMP_stats_v1.4.py:299 | one option without a string text makes the whole aggregate fail |
| Extractor.TwoOptionsExample | DMP_stats_v1.4.py:295-301 | two options `a`, `b` give ` - a - b` |
| Extractor.ZeroOptions | DMP_stats_v1.4.py:555-564 | zero options give "Unknown" where the block tests for emptiness and the empty string elsewhere |
| Extractor.NoSeparatorConcatenates | DMP_stats_v1.4.py:759-768 | with an empty separator the options are simply concatenated, and every text is no longer than the result |
| Extractor.ReadText | DMP_stats_v1.4.py:240-258 | the text half of a block computes the text answer rule |
| Extractor.ReadOptions | DMP_stats_v1.4.py:291-304 | the options half of a block computes the options answer rule |
| Extractor.ReadBlock | DMP_stats_v1.4.py:236-258 | one question block computes its cells |
| Extractor.BlockCellsColumns | DMP_stats_v1.4.py:236-304 | a block's cells name exactly the block's columns, in order |
| Extractor.LookupFailureIsFatal | DMP_stats_v1.4.py:236-237 | a missing section, question or unsized node stops the run, because the lookup is outside the `try` |
| Extractor.ShortNodeIsUnknown | DMP_stats_v1.4.py:241-242 | a node with fewer than seven keys gives "Unknown" in every column of the block |
| Extractor.PairHalvesFailTogether | DMP_stats_v1.4.py:534-568 | in a text-plus-options block, a failure in either half makes both columns "Unknown"; otherwise each column holds its half |
| Extractor.GuardedBlockSkips | DMP_stats_v1.4.py:384-412 | the "other DMP url" block gives "Unknown" when the section has exactly the counted number of questions |
| Extractor.PlainTextAnswerIsLost | DMP_stats_v1.4.py:240-258 | a non-empty text answer that starts with neither `<` nor `>` is lost, because `remove_html` raises |
| Extractor.EmptyTextAnswer | DMP_stats_v1.4.py:394-396 | an empty text answer gives "Unknown" under the blocks that test for it, and the empty string otherwise |
| Extractor.TextAnswerIsClean | DMP_stats_v1.4.py:246-255 | a text answer other than "Unknown" is one line without `;`, and without entities when `;` becomes `.` |
| Extractor.SpecialCategoriesLeak | DMP_stats_v1.4.py:1575-1590 | as written, the certified special-categories cell is the GDPR loop's stale `dclist`, not the block's own options |
| Extractor.TextFailureIsUnknown | DMP_stats_v1.4.py:1938-1965 | under the rule the other text blocks follow, a failing text answer gives "Unknown" |
| Extractor.ArchivePeriodLeak | DMP_stats_v1.4.py:1960-1965 | as written, a failing archive-period answer repeats the previous plan's value, or stops the run when there is none |
| Extractor.PublishedEntitiesHarmless | DMP_stats_v1.4.py:1980-1983 | the `answerpubl` slip does nothing when the answer contains no entity |
| Extractor.PublishedEntitiesStale | DMP_stats_v1.4.py:1980-1983 | when the answer contains the first entity, the slip replaces the answer by the stale variable |
| Extractor.PublishedEntityLeak | DMP_stats_v1.4.py:1970-1990 | the answer `&ndash` becomes the stale `y`, where the cleaning gives a blank |
| Extractor.PublishedTextStale | DMP_stats_v1.4.py:1970-1990 | as written, an answer containing `&ndash` is reported as the GDPR loop's last dataset-publication answer |
| Normalizer.CleanTitle | DMP_stats_v1.4.py:1220-1228 | a string title is cleaned with `.` for `;`; a list or dict title is kept unless it contains a listed entity or `;`, which stops the run; any other title stops the run |
| Normalizer.CleanTitleOf | DMP_stats_v1.4.py:1220-1228 | the title loops compute the cleaned title |
| Normalizer.MetaValues | DMP_stats_v1.4.py:1219-1236 | the metadata cells align with the metadata columns; the first is `str(id)` and the sixth is the file name |
| Normalizer.ReadMeta | DMP_stats_v1.4.py:223-232 | reading the metadata fields computes the metadata cells |
| Normalizer.MakeRow | DMP_stats_v1.4.py:1079-1123 | a row has the register layout: metadata cells first, then the answers as strings in column order |
| Normalizer.NormalizedRow | DMP_stats_v1.4.py:1079-1123 | a plan's row has the register layout |
| Normalizer.AnswerValues | DMP_stats_v1.4.py:1079-1123 | the answers are one per column |
| Normalizer.ColumnOutcomes | DMP_stats_v1.4.py:1079-1123 | one block outcome per answer column, each that column's value |
| Normalizer.AnswerValuesByColumn | DMP_stats_v1.4.py:1079-1123 | the answers exist exactly when every column's block succeeds, and each answer is its column's value |
| Normalizer.RowCells | DMP_stats_v1.4.py:1079-1123 | a row is made exactly when the metadata and every answer column succeed, and each answer cell holds its column's value |
| Normalizer.RowIdentity | DMP_stats_v1.4.py:225-227 | a row's first cell is `str(id)` and its sixth is the file name |
| Normalizer.ReadAnswers | DMP_stats_v1.4.py:236-1075 | the block loop computes the answers |
| Normalizer.NormalizeDocument | DMP_stats_v1.4.py:223-1124 | the per-plan loop computes the plan's row |
| Normalizer.FileRow | DMP_stats_v1.4.py:1077-1124 | a file's row has the register layout |
| Normalizer.FileRowCases | DMP_stats_v1.4.py:1077-1124 | a file with several plans stops the run; one plan gives that plan's row; no plan gives the row without id after an earlier document, and stops the run before any |
| Normalizer.FileRowHasDocument | DMP_stats_v1.4.py:1077-1124 | a file gives a row with an id exactly when it holds a document |
| Normalizer.ReadFile | DMP_stats_v1.4.py:205-1127 | reading one file computes its row |
| Normalizer.FolderFrame | DMP_stats_v1.4.py:205-1127 | the table after k files has one entry per file, each that file's row given whether a document came before it |
| Normalizer.FolderFrameOk | DMP_stats_v1.4.py:205-1127 | the table after k files exists exactly when each of those files gives its entry |
| Normalizer.FolderFrameSnoc | DMP_stats_v1.4.py:1124-1125 | reading one more file appends its entry to the table |
| Normalizer.FolderRows | DMP_stats_v1.4.py:1128 | `dropna(subset=['id'])` keeps the rows with an id in file order, each a listed file's row; with no file at all it stops the run |
| Normalizer.FolderRowsOk | DMP_stats_v1.4.py:205-1128 | the folder is read exactly when it holds a file and every file gives its entry |
| Normalizer.FileStopsFolder | DMP_stats_v1.4.py:205-1127 | one file that stops the run stops the whole folder |
| Normalizer.EmptyFileAddsNothing | DMP_stats_v1.4.py:1088-1128 | a file without documents after a document adds only a row without id, which `dropna` removes |
| Normalizer.FileRowAppends | DMP_stats_v1.4.py:1077-1128 | a file with a document appends its row to the final table |
| Normalizer.EmptyFileFirstStops | DMP_stats_v1.4.py:1088 | a file without documents before any document stops the run, because its name is unbound |
| Normalizer.ReadFolder | DMP_stats_v1.4.py:205-1128 | the file loop with its `dropna` computes the folder table |
| Normalizer.ColumnsOfAppend | DMP_stats_v1.4.py:2130-2132 | the column names of concatenated rows are the concatenated names |
| Templates.TemplateFillsAnswerColumns | DMP_stats_v1.4.py:1079-1123 | each template has a block for exactly the answer columns, and each block names its column |
| Templates.GdprKeys | DMP_stats_v1.4.py:236-1075 | the GDPR template covers exactly the answer columns |
| Templates.GdprBlocksNameTheirColumn | DMP_stats_v1.4.py:236-1075 | each GDPR block fills the column it is filed under |
| Templates.CertifiedKeys | DMP_stats_v1.4.py:1238-2087 | the certified template covers exactly the answer columns |
| Templates.CertifiedBlocksNameTheirColumn | DMP_stats_v1.4.py:1238-2087 | each certified block fills the column it is filed under |
| Templates.RepeatedPositions | DMP_stats_v1.4.py:642-1052 | two pairs of GDPR columns are read from the same question position |
| Schema.SituatedIsLast | DMP_stats_v1.4.py:1088-1123 | `Faculty_situated` is the last column of the layout and occurs nowhere else |
| Pages.PageDocuments | DMP_stats_v1.4.py:223-224 | a page yields its documents when each is a dict, and nothing when it is not a list |
| Pages.DocumentsOf | DMP_stats_v1.4.py:223-224 | every document read from the pages is a dict |
| Pages.Documents | DMP_stats_v1.4.py:223-224 | every document read from a file is a dict |
| Pages.ReadDocuments | DMP_stats_v1.4.py:223-224 | the nested page loop computes the documents |
| Pages.FatalPropagates | DMP_stats_v1.4.py:223-224 | a page that stops the run ends the whole read |
| Pages.PrefixFatal | DMP_stats_v1.4.py:223-224 | a failing prefix of the pages makes the whole read fail |
| Pages.Present | DMPs_updates.py:168-169 | the pages kept are pages of the file, and none is `None` |
| Pages.SkipNoneReadsPresentPages | DMPs_updates.py:168-170 | skipping `None` pages is the same as reading only the pages that are present |
| Pages.NonePageIsFatal | DMP_stats_v1.4.py:2202-2203 | without the skip, a `None` page stops the run |
| Pages.DocumentsFlatten | DMP_stats_v1.4.py:223-224 | pages that are lists of dicts read as their concatenation |
| Pages.Entries | DMPs_updates.py:168-173 | the records are one per document, each that document's record |
| Pages.EntriesOk | DMPs_updates.py:168-173 | the records exist exactly when every document gives one |
| Pages.DocumentBeforeSome | DMP_stats_v1.4.py:205-224 | a document was read before file k exactly when one of the first k files holds a document |
| Pages.DocumentBeforePrefix | DMP_stats_v1.4.py:205-224 | whether a document came before file k depends only on the first k files |
| Pages.FolderEntriesFatal | DMPs_updates.py:157-181 | a failing file stops reading of the whole folder |
| Pages.ReadFolderEntries | DMPs_updates.py:157-181 | the file loop computes the folder's records |
| Screening.FirstOptionText | DMP_stats_v1.4.py:1174 | the first option's text exists only under `answer`/`options` |
| Screening.PersonalDataCheck | DMP_stats_v1.4.py:1166-1178 | the check is readable exactly when section 1, question 0 is found |
| Screening.ScreeningOf | DMP_stats_v1.4.py:1160-1186 | a screened file carries its own file name |
| Screening.ScreeningHasDocument | DMP_stats_v1.4.py:1160-1186 | a file gives a screening row with an id exactly when it holds a document |
| Screening.ScreenAfter | DMP_stats_v1.4.py:1152-1191 | the table after k files is the previous table plus the file's row, re-filtered |
| Screening.ScreeningsEntries | DMP_stats_v1.4.py:1152-1186 | entry i of the unfiltered rows is file i's screening given whether a document came before it |
| Screening.RefilterSnoc | DMP_stats_v1.4.py:1186-1190 | filtering the filtered table plus one row equals filtering all rows once |
| Screening.Filter | DMP_stats_v1.4.py:1188-1190 | exactly the rows answering "Yes" with an id at most `"id"` are kept, and no more than given |
| Screening.Screenings | DMP_stats_v1.4.py:1152-1191 | one screening per listed file, each that file's screening |
| Screening.FilterAppend | DMP_stats_v1.4.py:1188-1190 | filtering distributes over concatenation |
| Screening.FilterIdempotent | DMP_stats_v1.4.py:1188-1190 | filtering twice equals filtering once |
| Screening.ScreenFiltersOnce | DMP_stats_v1.4.py:1152-1191 | filtering the growing table after every file equals filtering all screenings once |
| Screening.KeptPlansAnsweredYes | DMP_stats_v1.4.py:1188 | a kept file holds one plan whose personal-data question has seven keys or more and whose first option is the screened answer |
| Screening.DigitIdsPass | DMP_stats_v1.4.py:1190 | an all-digit id passes the `le('id')` test |
| Screening.ScreenedFilesListed | DMP_stats_v1.4.py:1152-1191 | every kept row comes from a listed file, is that file's screening and is accepted |
| Screening.ReadScreening | DMP_stats_v1.4.py:1153-1186 | reading one file computes its screening |
| Screening.ScreenFolder | DMP_stats_v1.4.py:1152-1191 | the screening loop computes the screened table |
| Screening.ScreenFatalPropagates | DMP_stats_v1.4.py:1152-1191 | one file that stops the run ends the screening |
| Screening.EmptyFileFirstStopsScreening | DMP_stats_v1.4.py:1185 | a file without documents before any document stops the screening, because `Personal_data_check` is unbound |
| Screening.EmptyFileScreensNothing | DMP_stats_v1.4.py:1185-1190 | a file without documents after a document leaves the screened table unchanged: its row without id fails the `le('id')` test |
| Register.KeptFiles | DMP_stats_v1.4.py:1196-1203 | one file name per kept screening |
| Register.ReadCertified | DMP_stats_v1.4.py:1196-1203 | the certified loop reads the kept files' rows |
| Register.FolderLayout | DMP_stats_v1.4.py:205-1127 | every row of a folder table has the register layout |
| Register.CertifiedLayout | DMP_stats_v1.4.py:1196-2119 | every certified row read a second time has the register layout |
| Register.CombinedAligned | DMP_stats_v1.4.py:2126-2132 | the concatenated table has the register columns in every row, and the certified rows come first |
| Register.RegisterIds | DMP_stats_v1.4.py:2136-2139 | one id per register row |
| Register.CellTextAt | DMP_stats_v1.4.py:2229 | the first cell with a column name holds the value read by that name |
| Register.CellTextExtend | DMP_stats_v1.4.py:2219-2233 | adding columns does not change what an existing column reads |
| Register.MergedColumns | DMP_stats_v1.4.py:2219-2233 | a merged and classified row has the register columns plus project start, project end, faculty name and separator count |
| Register.RegisterRows | DMP_stats_v1.4.py:2224-2247 | one classified row per merged row |
| Register.RegisterRowsSpec | DMP_stats_v1.4.py:2218-2247 | every register row combines a plan row with the metadata of the same id, plus its faculty columns |
| Register.FacultyCells | DMP_stats_v1.4.py:2229-2247 | a row's faculty name is the classifier's result on its situated answer (NaN without a hit), and its count is the number of separators |
| Register.AddFacultyColumns | DMP_stats_v1.4.py:2229-2247 | the classification loop computes the register rows |
| Register.RegisterTable | DMP_stats_v1.4.py:2122-2220 | a register exists only when the GDPR folder holds a file, some certified plan passes the screening and the metadata folder holds a file |
| Register.BuildRegister | DMP_stats_v1.4.py:1150-2247 | the stats pipeline computes the register; when it succeeds, the metadata requests are the batches of the combined ids |
| Metadata.FirstTen | DMPs_updates.py:172-173 | `[0:10]` keeps a prefix of at most ten elements of a string or list, and stops the run on anything else |
| Metadata.MetadataEntry | DMPs_updates.py:171-173 | a record's id is the identifier without its 40-character prefix; its dates are the project's start and end |
| Metadata.WellFormedEntry | DMPs_updates.py:171-173 | a well-formed document gives the id suffix and the dates cut to ten characters; prefix plus id restores the identifier |
| Metadata.ReadMetadata | DMPs_updates.py:157-181 | the metadata loop computes the metadata table |
| Metadata.FileRecords | DMPs_updates.py:168-173 | a file's records are one per document, each that document's record |
| Batching.Requests | DMPs_updates.py:109-141 | fewer than 151 ids make one request of all of them; otherwise one request per block of 150 |
| Batching.PlanRequests | DMPs_updates.py:128-141 | the batching loop computes the requests |
| Batching.ChunkStartsInside | DMPs_updates.py:130-133 | every batch starts inside the id list |
| Batching.ConcatPrefix | DMPs_updates.py:128-141 | the first k batches hold the first 150·k ids |
| Batching.RequestsCoverIds | DMPs_updates.py:109-141 | the batches together are exactly the ids, in order |
| Batching.RequestSizes | DMPs_updates.py:128-141 | batch k is written to file k; every batch holds 1 to 150 ids, and all but the last exactly 150 |
| Batching.RequestCount | DMPs_updates.py:128-141 | the batch count is the least that holds all ids |
| Batching.NrOfMlBounds | DMPs_updates.py:120 | the printed number of sublists is the real count or one more |
| Batching.NrOfMlOvercounts | DMPs_updates.py:119-126 | for 300 ids two batches are made while three are announced |
| RunDate.Padded | DMP_stats_v1.4.py:39 | zero padding reaches the width |
| RunDate.Stamp | DMP_stats_v1.4.py:29-40 | on 1 January the run year is the previous year and the run day its 31 December; otherwise the current year and date |
| RunDate.FourDigits | DMP_stats_v1.4.py:38-40 | a four-digit year prints as four characters |
| RunDate.RunDayInRunYear | DMP_stats_v1.4.py:29-40 | the run day always begins with the run year and a dash |
| RunDate.NewYearBelongsToPreviousYear | DMP_stats_v1.4.py:32-36 | 1 and 2 January of the same year get different run years |
| RunDate.IntTextInjective | DMP_stats_v1.4.py:34 | different years print differently |
| Faculty.Zip | DMP_stats_v1.4.py:2227 | `zip` stops at the shorter column |
| Faculty.AssignKeys | DMP_stats_v1.4.py:2227 | assigning a key keeps an existing key's position and adds a new key last |
| Faculty.AssignLookup | DMP_stats_v1.4.py:2227 | after assigning, the key reads the new value and other keys are unchanged |
| Faculty.DictOfSpec | DMP_stats_v1.4.py:2227 | the dict's keys are the names at first occurrence, and each name maps to the last abbreviation given for it |
| Faculty.FirstContainedSpec | DMP_stats_v1.4.py:2244-2247 | no hit exactly when no name occurs in the answer; otherwise the hit is the first name in dict order that occurs |
| Faculty.ClassifyFaculties | DMP_stats_v1.4.py:2238-2247 | the row loop with its early `break` gives each row its faculty |
| Faculty.SeparatorCountDecides | DMP_stats_v1.4.py:2233-2247 | two or more separators give MultiFaculty and none gives Unknown; NaN only for one separator and no name found |
| Tables.MatchesMembers | DMP_stats_v1.4.py:2220 | one left row's matches are exactly its combinations with right rows of equal key |
| Tables.JoinMembers | DMP_stats_v1.4.py:2220 | a merged row exists for a left and a right row exactly when their keys are equal |
| Tables.FirstOccurrencesSpec | DMPs_updates.py:90 | `drop_duplicates(keep="first")` keeps each value once, all values, in the order of their first occurrences |
| Tables.Table.DropDuplicates | DMPs_updates.py:90 | the in-place de-duplication leaves the first occurrences |
| Tables.FirstIndex | DMPs_updates.py:90 | the position found is a first occurrence |
| Updates.MatchesDotCsvAt | DMPs_updates.py:53 | the regex `.csv` matches exactly when some character other than a newline precedes `csv` |
| Updates.SelectFilesSpec | DMPs_updates.py:51-53 | the kept files are exactly the given files over 1025 bytes whose name does not match `.csv` |
| Updates.SelectFilesAppend | DMPs_updates.py:51-56 | selection distributes over concatenation |
| Updates.CsvFilesDropped | DMPs_updates.py:53 | a name ending in `.csv` is dropped whatever its size |
| Updates.DotMatchesAnyCharacter | DMPs_updates.py:53 | a JSON dump named `..._csv.json` is dropped too, because `.` matches any character |
| Updates.Names | DMPs_updates.py:67 | one name per file |
| Updates.UpdateEntry | DMPs_updates.py:75-79 | a record exists exactly when the id, `last_updated` and `creation_date` exist and the id prints; it holds those values |
| Updates.UpdateIds | DMPs_updates.py:104 | one id per row |
| Updates.ChangesSpec | DMPs_updates.py:186-188 | the changes list holds no row twice, and exactly the combinations of an update and metadata of equal id |
| Updates.Positions | DMPs_updates.py:218 | exactly the register positions that hold the id |
| Updates.ChangeIds | DMPs_updates.py:216 | one id per change |
| Updates.RowsForSpec | DMPs_updates.py:218 | each change yields at least one row, each consistent with the register |
| Updates.LeftRowsSpec | DMPs_updates.py:218 | the left rows come from the changes and cover every change |
| Updates.RightOnlyRowsSpec | DMPs_updates.py:218 | the right-only rows are exactly the register positions whose id is not among the changes |
| Updates.LeftRowsContainRowsFor | DMPs_updates.py:218 | a change's own rows are among the left rows |
| Updates.OuterMergeSpec | DMPs_updates.py:216-218 | every row of the outer merge is consistent, every change appears, and every register position appears |
| Updates.RegisterPositionCovered | DMPs_updates.py:218 | each register row appears in the outer merge, met by a change with its id or as a right-only row |
| Updates.Flag | DMPs_updates.py:223-224 | the flag is 0 or 1, and 1 exactly when the register index is present and passes the `>= 0` or `== 1` tests |
| Updates.FlagRegister | DMPs_updates.py:223-224 | the two in-place assignments turn each cell into its flag |
| Updates.ComputeFlags | DMPs_updates.py:223-224 | flagging the merged table's `Register` column in place yields each row's flag |
| Updates.FlagMeansRegistered | DMPs_updates.py:218-224 | a row is flagged 1 exactly when its id is in the register |
| Updates.ReportSpec | DMPs_updates.py:51-224 | one flag per compared row, 0 or 1, and 1 exactly for ids in the register; the changes list has no duplicates |
| Updates.UpdatesReport | DMPs_updates.py:63-187 | a report exists only when some dump file is selected and the metadata folder holds a file |
| Updates.RunUpdates | DMPs_updates.py:51-224 | the updates script computes the report |
| JsonValue.Key | DMP_stats_v1.4.py:225 | `d[k]` exists exactly on a dict with that key |
| JsonValue.At | DMP_stats_v1.4.py:236 | `v[i]` exists on a list or string with the index in range |
| JsonValue.Len | DMP_stats_v1.4.py:237 | `len` is defined on strings, lists and dicts and gives their size |
| JsonValue.ScalarText | DMP_stats_v1.4.py:225 | `str(v)` is modelled for scalars only, and is the string itself on a string |
| Outcomes.Require | DMP_stats_v1.4.py:225 | a missing value stops the run |
| Outcomes.SomesSnoc | DMP_stats_v1.4.py:1128 | dropping the rows without id distributes over appending a row |
| Outcomes.SomesMembers | DMP_stats_v1.4.py:1128 | the rows kept are exactly the entries that have an id |
| Outcomes.AllOkByIndex | DMP_stats_v1.4.py:1079-1123 | a sequence of uncaught steps succeeds exactly when each step does, and yields each step's value |

## Left out

- File and directory I/O are not modelled: `open`, `json.load`, `to_csv`, `mkdir` and `os.listdir`. A folder is a listing and a map from names to parsed content.
- The clock is a parameter of `RunDate.Stamp`.
- The network is not modelled. The calls into `api_v0.py` and `api_v1.py` are absent; the requests are computed and the metadata files are given.
- `day_job.py` is not part of this model.
- Choosing the newest register file (DMPs_updates.py:190-212) is left out. The register's ids are a parameter.
- The `Date` column of the register list and the `File_Date` and `Year` columns (DMPs_updates.py:47-48, :207-208) are left out. Nothing reads them.
- The results of `sort_values` and the column selection (DMPs_updates.py:93-94) are discarded, so they do not change the table and are not modelled. The sort still raises `KeyError` when no dump file is selected, and the model states that failure (`Updates.UpdatesReport`).
- `print`, `logger.debug` and the `nrofml` and `getnums` bookkeeping are left out. `nrofml` is described only by `Batching.NrOfMlBounds` and `Batching.NrOfMlOvercounts`.
- The pandas `.str` accessor can raise when a column holds no strings at all. This is not modelled; non-string cells simply fail the filter.
- `drop_duplicates` treats `True == 1` and unhashable cells specially. This is not modelled; rows are compared as model values.
- Floating-point numbers are not modelled. Numbers are integers.
- `str()` of a list or dict, used for an id or an identifier, is modelled as stopping the run.
- `dropna(subset=['id'])` (DMP_stats_v1.4.py:1128, :2122) is modelled by what it can meet. A file without documents read after a document makes a row without id: its lists are the previous document's, and pandas re-indexes the empty frame to their length. `dropna` drops exactly these rows. With no file at all, the frame has no `id` column and `dropna` raises. The other cells of the row without id are not modelled; it is `None`.
- Extractor.RemoveHtmlOf: a dict text with two or more keys, one of them `<` or `>` and one of them neither, is modelled as raising. The result depends on key order, which the model's dicts do not keep.
- Step 13 is left out: the concatenation with the older overview (DMP_stats_v1.4.py:2255-2267) and the final exports.
- Updates.OuterMergeSpec: row membership and consistency are stated, but not the row order the outer merge produces, which is sorted by key.
- Tables.JoinMembers: states which rows the inner merge yields, not their multiplicity or order.
- The column drop and rename after the outer merge (DMPs_updates.py:220-221) are left out. The `Register` column is modelled directly as the register's row index.
- NaN cells in the faculty lookup table are not modelled. Its columns are sequences of strings.
- Blocks of one plan are evaluated as independent cells. Python's order of evaluation matters only through the stale variables listed under Findings.
- `DMP_cert_data_temp.File_name[v]` is a label lookup (DMP_stats_v1.4.py:1196-1203). It is modelled by position, which agrees with the source. Each file adds one row, and only the newest row can be removed, so the labels stay contiguous.

## Findings

| source | as written | input that shows it | evidently intended | confidence | as-written member | corrected member |
|---|---|---|---|---|---|---|
| DMP_stats_v1.4.py:1584 | the certified special-categories cell is set to `dclist`, the GDPR loop's leftover accumulator | a certified plan that ticks special categories after a GDPR plan that ticked others | the block's own options list `dchlist` | not executed | Extractor.SpecialCategoriesLeak | Extractor.PairHalvesFailTogether |
| DMP_stats_v1.4.py:1963 | the `except` assigns `answerterm`, so `answertermh` keeps the previous plan's value, or raises when there is none | a certified plan whose archive-period text is plain text (so `remove_html` raises) after one with an answer | "Unknown" in the archive-period column | not executed | Extractor.ArchivePeriodLeak | Extractor.TextFailureIsUnknown |
| DMP_stats_v1.4.py:1983 | an answer containing an entity is replaced by `answerpubl.replace(...)`, the GDPR loop's last dataset-publication answer | a certified dataset-publication answer `&ndash` after a GDPR plan answered `y` | the block's own answer with entities replaced by a blank | not executed | Extractor.PublishedTextStale | Extractor.TextAnswerIsClean |
