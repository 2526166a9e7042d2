# Teacher activity report, modelled in Dafny

The application turns spreadsheet exports of teaching sessions into a report
workbook. This project models its two pieces of record logic.

- **The center directory** (`CenterMap`) is a fixed table.
  - It maps 22 center codes to 13 area labels.
  - It maps 15 numeric ids to center codes.
  - It has getters for the key set, the value set and both maps.
  - `lookup_area` returns a center's area.
  - `lookup_centers` returns the centers of an area.
  - Both lookups raise an error on an unknown argument. The model returns a `Failure` carrying the same information.
- **The report pipeline** (`generate_report`) turns one concatenated table into a dict of sheets.
  - It normalises the header names.
  - It drops the all-empty columns, then drops seven administrative columns.
  - From the parsed date it derives `time`, `month_` and `date`.
  - From the teacher text it derives `center` (the first parenthesised group), `teacher_clean` (title-cased, every parenthesised group and the spaces before it removed) and `area` (the directory's area of the center, or missing).
  - It removes duplicate rows.
  - It keeps eight columns and renames them.
  - It builds a summary pivot counting rows per (Area, Teacher, Month), with the latest month first.
  - It fills a dict with that summary, one sheet per area (JKT 1, JKT 2, JKT 3, BDG, SBY, CIK), the rows without an area, and the cleaned table.

Files:

- `wrappers.dfy`: `Option` and `Result`.
- `center_map.dfy`: the directory.
- `strings.dfy`: the string rules:
  - header normalisation;
  - ASCII title-casing;
  - the two regular expressions, `\((.*?)\)` and `\s*\(.*?\)`, written as scans.
- `ordering.dfy`: lexicographic string order and the sorting used by the pivot.
- `frame.dfy`: a table as column labels plus rows of cells, with the table operations the pipeline uses.
- `report.dfy`: the cleaning chain.
- `summary.dfy`: the counting and pivot.
- `sheets.dfy`: the per-sheet tables and the method that fills the result dict.

A table is `Table(columns, rows)`. A cell is `Null` (a missing value), `Text(s)`, or `Scalar(code)`, which stands for any other spreadsheet value.

Date parsing belongs to a calendar library, so it is a parameter of the model. `parse: Cell -> Option<Stamp>` stands for parsing that table's `date` column, since `pd.to_datetime` infers one format for the whole column. It gives the three renderings of a parsed date (time of day, `%Y-%m`, `%d %b %Y`), or `None` when the cell cannot be parsed (`errors="coerce"`). A missing cell never parses.

Errors come out in the order Python raises them. The first applies:

1. A `KeyError` listing the absent administrative columns, in request order.
2. A `KeyError` for a missing `date`.
3. A `KeyError` for a missing `teacher`.
4. A `TypeError` when a teacher cell is not text.
5. A `KeyError` for a missing `class_type`.

## Model

| member | source | states |
|---|---|---|
| CenterMap.Centers | src/center_map.py:45-46 | The center set is exactly the directory's keys, and there are 22 of them. |
| CenterMap.Areas | src/center_map.py:48-49 | The area set is exactly the values the directory maps to, and there are 13 of them. |
| CenterMap.CenterIdMap | src/center_map.py:51-52 | The id map has 15 entries, and every one names a known center. |
| CenterMap.CenterAreaMap | src/center_map.py:54-55 | The center→area map has 22 entries, and every value is a known area. |
| CenterMap.LookupArea | src/center_map.py:57-62 | Succeeds exactly for known centers, with that center's area. Otherwise fails with an error naming the center and the valid centers. |
| CenterMap.LookupCenters | src/center_map.py:64-69 | Succeeds exactly for known areas. The result is the non-empty set of centers mapped to that area. Otherwise fails with an error naming the area and the valid areas. |
| CenterMap.LookupRoundTrip | src/center_map.py:57-69 | Every known center is among the centers of its own area. |
| CenterMap.AreasPartitionCenters | src/center_map.py:45-69 | The center sets of distinct areas are disjoint, and together they are all the centers. |
| CenterMap.CenterIdsAreKnown | src/center_map.py:3-43 | Every center named by an id is a key of the center→area table, and there are 15 distinct ids. |
| CenterMap.TableFacts | src/center_map.py:3-43 | The key sets, value sets and sizes of both literal tables: 22 centers, 13 areas, 15 ids. |
| Strings.NormalizeHeader | src/processor.py:53 | The label is the stripped name, character by character: each space becomes `_` and every other character is lower-cased. No space is left. |
| Strings.Lower | src/processor.py:53 | Keeps the length, whitespace and which characters are letters. No upper-case letter is left. Letters keep their upper-case form, and other characters are unchanged. |
| Strings.NormalizedForm | src/processor.py:53 | A normalised header has no whitespace at either end, no upper-case letter and no space. |
| Strings.NormalizeIdempotent | src/processor.py:53 | Normalising a header twice gives the same label as normalising it once. |
| Report.NormalizeHeaders | src/processor.py:53 | Every column label is normalised, in place. The cells are unchanged. |
| Report.NormalizeHeadersIdempotent | src/processor.py:53 | Renaming the columns a second time changes nothing. |
| Strings.Title | src/processor.py:83 | Keeps the length and which characters are letters. Each letter stays the same letter ignoring case. A letter is upper-case exactly when the character immediately before it is not a letter. Other characters are unchanged. |
| Strings.Strip | src/processor.py:53 | The result is a slice of the input with only whitespace before and after it, and with no whitespace at either end. Text without whitespace is unchanged. |
| Strings.ColumnLabel | src/processor.py:101 | An output header has no `_`, no whitespace at either end, and is no longer than the label it came from. |
| Strings.LabelRoundTrip | src/processor.py:53-101 | For a label with no upper-case letter, no space, and neither whitespace nor `_` at its ends, normalising its output header gives the label back. |
| Frame.DropEmptyColumns | src/processor.py:54 | Every remaining column holds a value. Every column that held a value remains. Rows keep their number and only lose cells. |
| Frame.DropEmptyColumnsKeeps | src/processor.py:54 | The kept columns are exactly those holding a value, in their original order. Each row keeps the cells of those columns. |
| Frame.DropEmptyColumnsGet | src/processor.py:54 | Under every label whose column holds a value, each row reads the same cell after the pass. |
| Frame.DropEmptyColumnsIdempotent | src/processor.py:54-55 | The second all-empty-column pass is a no-op. |
| Report.TrimmedOnce | src/processor.py:53-55 | Normalising and dropping the empty columns twice equals doing it once. |
| Report.Trimmed | src/processor.py:53-55 | The trimmed table keeps its row count, and every column it keeps holds a value. |
| Report.TrimmedGet | src/processor.py:53-55 | Under every normalised label whose column holds a value, each row reads the cell it had before trimming. |
| Frame.Missing | src/processor.py:56-66 | The absent labels, in request order. The list is empty exactly when every label is present. |
| Frame.MissingAppend | src/processor.py:56-66 | The absent labels of a joined request are those of its first part followed by those of its second part. |
| Frame.DropColumns | src/processor.py:56-66 | Succeeds exactly when every named label is a column. The result has every other column. On failure the error lists the absent labels. |
| Frame.DropColumnsGet | src/processor.py:56-66 | Dropping columns leaves the cell under every other label unchanged. |
| Report.Prepare | src/processor.py:56-66 | The administrative columns are dropped. The step fails exactly when one is absent, with a KeyError naming the absent ones in order. |
| Strings.CloseAt | src/processor.py:77 | Finds the nearest `)` reachable without crossing a newline, as the lazy `.*?` does. With no result, every later `)` lies past a newline. |
| Strings.SearchGroup | src/processor.py:77-78 | Finds the first `(` that has a reachable `)`. No earlier `(` has one. |
| Strings.Center | src/processor.py:75-81 | The first group's content has no `)` and no newline. The result itself is given by CenterGeneral (a match) and CenterEmptyWithoutMatch (no match). |
| Strings.CenterGeneral | src/processor.py:75-81 | For any text, `center` is the text after the first `(` that has a `)` reachable before a newline, up to the nearest such `)`. |
| Strings.CenterIsFirstGroup | src/processor.py:75-81 | For newline-free text, `center` is the text between the first `(` and the nearest following `)`. |
| Strings.CenterEmptyWithoutGroup | src/processor.py:75-81 | For text with no `(` followed later by a `)`, `center` is empty. |
| Strings.CenterEmptyWithoutMatch | src/processor.py:75-81 | When no `(` has a `)` reachable before a newline, the regex finds no match and `center` is empty. With CenterGeneral this covers both outcomes of the search. |
| Strings.MatchLength | src/processor.py:84 | A match of `\s*\(.*?\)` at the start ends with `)` and is at least two characters long. |
| Strings.MatchLengthMeans | src/processor.py:84 | A match of length n exists exactly when the text is whitespace, then `(`, then no `)` or newline, then `)` at position n - 1. |
| Strings.RemoveGroups | src/processor.py:84 | The substitution never lengthens the text. Text without `(` is unchanged. RemoveGroupsKeepsPrefix and RemoveGroupsNoMatch give what is kept, and RemoveGroupsDropsMatch gives what happens at a match. |
| Strings.RemoveGroupsKeepsPrefix | src/processor.py:84 | A prefix in which no match of the pattern starts passes through unchanged, including any `(` in it that opens no match. |
| Strings.RemoveGroupsNoMatch | src/processor.py:84 | Text in which no match of the pattern starts is left unchanged. |
| Strings.RemoveGroupsDropsMatch | src/processor.py:84 | After a prefix in which no match starts, the first match is deleted and the scan continues after it. |
| Strings.UnclosedGroupKept | src/processor.py:84 | The unclosed "Jane (Gc" has no match and is kept whole. |
| Strings.RemoveGroupsDropsGroup | src/processor.py:84 | After a prefix without `(` that does not end in whitespace, a match of the pattern is deleted and the scan continues after it: the prefix is kept and the rest is substituted in turn. |
| Strings.RemoveGroupsKeepsChars | src/processor.py:84 | The substitution only deletes: its output is a subsequence of its input. |
| Strings.RemoveGroupsOnlyFrom | src/processor.py:84 | Every character of the output occurs in the input. |
| Strings.RemoveGroupsLeavesNoGroup | src/processor.py:84 | For newline-free text, no `(` in the result is followed later by a `)`. |
| Strings.RemoveGroupsPlainPrefix | src/processor.py:84 | A prefix without `(` that does not end in whitespace passes through unchanged. |
| Strings.TeacherClean | src/processor.py:82-84 | `teacher_clean` is no longer than the teacher text. Without `(` it is the title-cased teacher text. TeacherCleanNoMatch gives what is kept and TeacherCleanDropsGroup what happens at a group. |
| Strings.TeacherCleanNoMatch | src/processor.py:82-84 | When no match starts in the title-cased text, `teacher_clean` is the title-cased text. |
| Strings.TeacherCleanDropsGroup | src/processor.py:82-84 | When the title-cased text is a plain prefix, then a group, then a rest, `teacher_clean` is the prefix followed by the cleaned rest. |
| Strings.TeacherCleanHasNoGroup | src/processor.py:82-84 | For newline-free teacher text, `teacher_clean` holds no `(`…`)` group. |
| Strings.NewlineLetsGroupThrough | src/processor.py:82-84 | With a newline inside a group, a `(`…`)` group can survive in `teacher_clean`. |
| Strings.TitleBeforeRemoval | src/processor.py:82-84 | Title-casing before the removal differs from removing first: "jane(gc)x" gives "JaneX", not "Janex". |
| Strings.JaneDoeExample | src/processor.py:75-84 | "Jane Doe (GC)" gives center "GC" and teacher_clean "Jane Doe". |
| Report.AreaCell | src/processor.py:85 | The area is text exactly for a known center, and is then the directory's area for it. An unknown center gives a missing area, never an error. |
| Frame.AssignColumn | src/processor.py:67-86 | Assignment overwrites an existing column in place or appends a new one. |
| Frame.AssignColumnGet | src/processor.py:67-86 | After an assignment each row reads the new value under that label, and its old cell under every other label. |
| Report.Coerce | src/processor.py:68-74 | A missing cell gives no timestamp. Any other cell gives its parse. |
| Report.Stamps | src/processor.py:68-74 | One entry per row: the coerced parse of that row's date cell. A missing date cell gives no timestamp. |
| Report.DateStage | src/processor.py:67-74 | Adds `time`, `month_` and `date` to the labels and keeps the row count. |
| Report.DateStageGet | src/processor.py:67-74 | Each row reads the three renderings of its own timestamp under `time`, `month_` and `date`, and its old cell under every other label. |
| Report.TeacherStage | src/processor.py:75-84 | Adds `center` and `teacher_clean` to the labels and keeps the row count. |
| Report.TeacherStageGet | src/processor.py:75-84 | Each row reads the center and the cleaned name of its own teacher text, and its old cell under every other label. |
| Report.AreaStage | src/processor.py:85 | Adds `area` to the labels and keeps the row count. |
| Report.AreaStageGet | src/processor.py:85 | Each row reads the area of its own center under `area`, and its old cell under every other label. |
| Report.AssignDerived | src/processor.py:67-86 | The six assignments keep the table rectangular and its row count. |
| Report.DerivedGet | src/processor.py:67-86 | After the six assignments, each row reads its area, center, teacher_clean, time, month and date from its own teacher text and timestamp, and its old cell under every other label. |
| Report.AssignDerivedFields | src/processor.py:67-86 | Every row's derived cells follow from its own teacher text and timestamp, and no other label changes. |
| Report.Derive | src/processor.py:67-86 | Success exactly when `date` and `teacher` exist and every teacher cell is text. Otherwise the error is a KeyError for `date` (checked first), a KeyError for `teacher`, or a TypeError. The derived labels are added. |
| Report.DeriveFields | src/processor.py:67-86 | Each row gets time, month and date from one parse of its date cell. It gets center, teacher_clean and area from its teacher text. Other labels keep their cells. |
| Frame.Dedup | src/processor.py:87 | No two output rows are equal. The output holds exactly the input's rows. |
| Frame.FirstOccurrencesAreNew | src/processor.py:87 | Each listed position holds a row that does not occur earlier. |
| Frame.FirstOccurrencesIncrease | src/processor.py:87 | The listed positions are strictly increasing. |
| Frame.FirstOccurrencesComplete | src/processor.py:87 | Every position whose row does not occur earlier is listed. |
| Frame.DedupKeepsFirst | src/processor.py:87 | De-duplication keeps each row's first occurrence, in input order. |
| Report.Deduplicated | src/processor.py:87 | Deduplication is over whole rows. The columns are unchanged, the same rows occur, and no two rows are equal. The rows are those of `Dedup`, so the first occurrence of each is kept, in order. |
| Frame.SelectLabels | src/processor.py:88-100 | The listed columns, in the listed order. It fails exactly when one is absent, naming the absent ones. |
| Frame.SelectColumns | src/processor.py:88-100 | The chosen columns, in the chosen order, with each row's cells taken from those positions. |
| Report.OutputLabels | src/processor.py:101 | The rename rule maps the eight kept labels to "Teacher" … "Month". |
| Report.Renamed | src/processor.py:101 | Renaming the kept columns gives the report's eight headers. The rows are unchanged. |
| Report.Clean | src/processor.py:52-102 | A cleaned table has exactly the eight report columns. |
| Report.CleanTrimmed | src/processor.py:56-102 | On success, the trimmed table becomes a rectangular table with exactly the eight report columns. |
| Report.CleanOutcome | src/processor.py:52-102 | Cleaning succeeds exactly when the trimmed table has the needed columns and text teachers. |
| Report.CleanErrors | src/processor.py:56-101 | Each of the five failure cases gets the error Python raises first: the absent administrative columns, then `date`, then `teacher`, then a non-text teacher, then `class_type`. |
| Report.CleanRows | src/processor.py:52-102 | Every report row is the expected row of some input row. Every input row's expected row appears in the report. |
| Report.RowSource | src/processor.py:67-101 | A report row is the expected row of some input row. |
| Report.RowResult | src/processor.py:67-101 | The expected row of each input row is a report row. |
| Report.Expected | src/processor.py:67-101 | The report row computed from one input row has one cell per report column. |
| Report.CleanRowShape | src/processor.py:52-102 | In each report row, Teacher Clean, Center and Area follow from Teacher, and Area is missing or a known area. Date, Time and Month are missing together. Teacher Clean has no group when Teacher has no newline. |
| Report.NoRowsFails | src/processor.py:54-66 | With no rows every column is dropped as empty, so the report fails with a KeyError naming all seven administrative columns. |
| Report.BlankRowFails | src/processor.py:37-86 | A row with every cell missing is not dropped, and the report fails. |
| Summary.GroupCounts | src/processor.py:108-110 | Each key that occurs is mapped to its number of occurrences. |
| Summary.Summarize | src/processor.py:108-118 | The pivot's rows and month columns are exactly the keys that occur. Each cell is the number of occurrences of its key, and 0 when there are none. |
| Summary.SummaryOrdered | src/processor.py:113-118 | The (Area, Teacher) rows are strictly ascending. The month columns are strictly descending. |
| Ordering.LessIsStrictTotal | src/processor.py:113-114 | Python's string comparison is irreflexive, transitive and total on distinct strings. |
| Ordering.PairLessIsStrictTotal | src/processor.py:113-114 | The comparison of (Area, Teacher) pairs is a strict total order. |
| Ordering.InsertSorted | src/processor.py:113-114 | Inserting into a strictly sorted sequence keeps it strictly sorted. |
| Ordering.SortedDistinct | src/processor.py:113-114 | Sorting with duplicates removed keeps exactly the values of the input. |
| Ordering.SortedDistinctIsSorted | src/processor.py:113-114 | Sorting with duplicates removed gives a strictly ascending sequence. |
| Ordering.Reverse | src/processor.py:118 | The reversal has the same length, holds the input's elements in opposite order, and has the same values. |
| Ordering.ReverseDescends | src/processor.py:118 | Reversing an ascending sequence gives a descending one. |
| Sheets.TallyOf | src/processor.py:109 | A row is counted exactly when its Area, Teacher Clean and Month are present, under those three values. |
| Sheets.Tallies | src/processor.py:108-110 | The counted keys are exactly those of the rows with all three cells present. |
| Sheets.TalliesCount | src/processor.py:108-110 | Each key occurs as many times as there are rows carrying it. |
| Sheets.SummaryCounts | src/processor.py:108-117 | Each summary cell equals the number of cleaned rows with that Area, Teacher and Month, and 0 when there are none. Its rows and months are exactly the keys that occur. |
| Sheets.UncountedRow | src/processor.py:108-117 | A row with a missing Area or Month changes no cell of the summary. |
| Sheets.WithArea | src/processor.py:123-125 | The selected rows are exactly those with that Area cell. |
| Sheets.WithAreaCount | src/processor.py:123-125 | The selection keeps every copy of a matching row, and no copy of any other. |
| Sheets.WithAreaAppend | src/processor.py:123-125 | The selection keeps the row order. |
| Sheets.AreaSheet | src/processor.py:122-124 | An area sheet holds that area's rows in order, without the Month column. |
| Sheets.UnmappedSheet | src/processor.py:125 | "Unmapped" holds exactly the rows with a missing Area, with every column. |
| Sheets.Routing | src/processor.py:119-127 | A row is in "Unmapped" exactly when its Area is missing. It is in an area's sheet exactly when that is its Area. A row with another known area is in neither. |
| Sheets.Put | src/processor.py:119-127 | Dict assignment: a new key goes last, an existing one keeps its place, and the keys stay distinct. |
| Sheets.AddAreaSheets | src/processor.py:122-124 | The loop adds the six area sheets after "Summary", in order. |
| Sheets.AddSheetsFor | src/processor.py:122-124 | Over distinct new names, the loop appends each name's sheet in order and leaves the first entry unchanged. |
| Sheets.LastSheets | src/processor.py:125-127 | The "Unmapped" and "Raw Data" assignments complete the dict: it then has all nine keys in order, each holding its sheet. |
| Sheets.BuildResult | src/processor.py:104-129 | The keys are, in order, Summary, the six areas, Unmapped and Raw Data, each holding its sheet. |
| Sheets.GenerateReport | src/processor.py:31-129 | The report fails exactly when the cleaning does, with the same error. Otherwise it is the assembled dict of the cleaned table. |

## Left out

- `load_files` (src/processor.py:7-13) reads and concatenates spreadsheet files, which is file I/O. The model takes the concatenated table as its input, so the case of no files, which gives `None`, is not modelled.
- `create_download_link` (src/processor.py:16-28) serialises the dict to xlsx through a foreign library.
- src/main.py is the web user interface: uploads, download button and a sleep. It is not part of this model.
- Date parsing and the `strftime`/`.dt.time` renderings are a library's calendar logic, and are the `parse` parameter. Only the facts that all three derived cells come from one parse and are missing together are modelled.
- Case mapping is ASCII only: `lower()` and `title()` on non-ASCII letters are not modelled. Python's `title()` also counts a non-ASCII letter as part of a word, so `"éa"` becomes `"Éa"`, while `Strings.Title` gives `"éA"`: after a non-ASCII letter the model also moves the word boundary for the ASCII letters that follow. Whitespace is Python's full `str.isspace` set.
- The model reads every column by its first occurrence. Tables with duplicate column labels are not modelled.
- pandas details are not modelled: index labels (`reset_index`), dtypes, NaN versus None, and `astype(int)`. Counts are natural numbers.
- A `Scalar` cell under Area, Teacher Clean or Month is treated like a missing one by the counting. Such cells cannot occur in a cleaned table, whose three key columns hold text or nothing.
- The docstring (src/processor.py:37) says rows with all values missing are dropped. The code drops only columns, and the model follows the code: `Report.BlankRowFails` shows that such a row aborts the report.
- Strings.TeacherCleanHasNoGroup: proved for teacher text without newlines only. In Python's regex `.` does not match a newline, so a group spanning a line break is left in place, as `Strings.NewlineLetsGroupThrough` shows.
- Strings.RemoveGroupsLeavesNoGroup: proved for text without newlines only, for the same reason.
- Strings.CenterIsFirstGroup: proved for text without newlines only. A `(` whose `)` lies past a newline is not a group for the regex.
- Report.CleanRowShape: the "no group in Teacher Clean" clause holds only for rows whose Teacher has no newline, for the same reason.
- Headers are strings in the model. A non-string column label makes `x.strip()` (src/processor.py:53) raise `AttributeError`; that error is not modelled.
