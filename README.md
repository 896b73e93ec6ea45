# Audience sorting and synchronisation, modelled in Dafny

This project models the core of the audience tool. The tool keeps customers in
a local table and sorts them into three recency segments: `current` (ordered in
the last 90 days), `lapsed` (91 to 730 days) and `extra lapsed` (older). It also
keeps one custom audience per segment in an advertising account.

The modules follow the two source files:

- **Segments** models `return_segment`. It keeps the source's boundaries, its
  label `extra lapsed` with a space, and its `None` for an order dated today or later.
- **Customers** models the customer table: a class holding the rows as a
  sequence, and `save()` of one record.
- **Passes** holds the specification functions for the sorter's two passes:
  - the routing of the first import into the three push lists;
  - the "newest file only" selection on later imports, by maximum `file_parse_date`;
  - the ageing sweep that moves `current` to `lapsed` and `lapsed` to
    `extra lapsed`, saves each moved record, and stops at the first record
    whose order date cannot be read (missing, or not in `%Y-%m-%d` form).
- **Sorting** models the `Sorter` class. Its methods update the six lists in
  place and are proved equal to the Passes functions. The list of
  extra-lapsed deletes is never filled, as in the source.
- **Audiences** models the `Adapter`:
  - the audience list, with a last-match lookup by name;
  - creating and deleting audiences;
  - adding and removing users in batches. Adds above 10000 go in slices of
    2500; removes above 500 go in slices of 500.
  - the requests sent to the advertising API, recorded as a log of values.
- **Chunking** holds the slicing shared by `_batch_users` and `data_generator`.
- **Ingest** models `process_csv_bytestring` and `process_xlsx_bytestring`:
  - header normalisation;
  - the order-date rewrite to ISO text;
  - the segment, `record_create_date` and `file_parse_date` stamps;
  - removal of the six address columns from wide CSV records;
  - every `KeyError`/`ValueError` path, as an error value.
- **FtpSelect** models the file selection of `stream_ftp`:
  - the keyword filter;
  - the sort key of each file: the date in a CSV name, or the number at the end
    of a workbook name, read as Python's `int()` reads it;
  - the single sort over (key, name) pairs;
  - the import jobs built from the sorted names, including the failures
    (`IndexError` on a name without `_`, `ValueError` on a bad date or number).
- **Calendar** and **Strings** hold Python's date arithmetic, and a small
  `strptime` for the three formats used. **Strings** also has `lower`,
  `split`, `replace` and `in`. **Arith** and **Wrappers** are helpers.

## Model

| member | source | states |
|---|---|---|
| Segments.ReturnSegment | audience/utils.py:143-160 | None exactly when the order is today or later; `current` exactly for 1-90 days ago, `lapsed` exactly for 91-730, `extra lapsed` exactly beyond 730 |
| Segments.LabelsDistinct | audience/utils.py:155-160 | the three segment strings are pairwise different, so a label identifies its segment |
| Segments.OlderIsNeverMoreRecent | audience/utils.py:151-160 | an older order date never gets a more recent segment than a newer one on the same day |
| Segments.SegmentOnlyAges | audience/utils.py:151-160 | as today advances, a fixed order date's segment never becomes more recent |
| Segments.NoSegmentFromToday | audience/utils.py:155-160 | on calendar dates, no segment exactly when the order date is not strictly before today |
| Customers.UpdatedAt | audience/audience.py:73-80 | saving a record replaces exactly the row with its key and keeps keys unique |
| Customers.Table.constructor | audience/audience.py:36-40 | the table holds the given rows, keyed uniquely |
| Customers.Table.Save | audience/audience.py:73-80 | the new rows are the old rows with the record's row replaced; nothing else changes |
| Passes.InitialRouting | audience/audience.py:98-105 | the first import's three push lists together hold, as a multiset, exactly the emails whose segment is known |
| Passes.StampLeFacts | audience/audience.py:107-108 | the `file_parse_date` order (text order, NULL lowest) is reflexive, total, transitive and antisymmetric |
| Passes.NewestStamp | audience/audience.py:107-108 | the result is some row's stamp and no row's stamp is greater |
| Passes.Arrivals | audience/audience.py:106-111 | later imports fail exactly on an empty table |
| Passes.ArrivalsCarryNewestStamp | audience/audience.py:107-111 | later imports push exactly the rows that carry the newest stamp |
| Passes.MoveOf | audience/audience.py:69-79 | a record moves to lapsed exactly when it is current and 91-730 days old; to extra lapsed exactly when it is lapsed and over 730 days old; nothing else moves |
| Passes.MoveFollowsClassifier | audience/audience.py:69-79 | the sweep moves a record exactly when `return_segment` of its order date gives the next segment |
| Passes.SweepOf | audience/audience.py:67-80 | the swept table has one row per row; a stop is at an existing row whose order date cannot be read; each row adds at most one delete |
| Passes.SweepStep | audience/audience.py:67-80 | one more row extends the sweep by that row's outcome |
| Passes.SweepExtend | audience/audience.py:67-80 | a row with an order date is advanced and saved, and the delete lists grow by its move |
| Passes.SweepHalts | audience/audience.py:67-80 | a row whose order date is missing or malformed ends the pass at that index |
| Passes.SweepAfterStop | audience/audience.py:67-80 | after the stop, later rows are left untouched and the lists stay as they were |
| Passes.SweepShape | audience/audience.py:67-80 | every row before the stop is advanced, and every row from the stop on is unchanged |
| Passes.SweepTransitions | audience/audience.py:69-79 | a row only ever stays, goes current to lapsed, or goes lapsed to extra lapsed |
| Passes.SweepEmitsRewrites | audience/audience.py:69-80 | the delete lists are exactly the emails whose segment the pass changed, from current and from lapsed |
| Passes.MovedStays | audience/audience.py:69-79 | a moved record does not move again on the same day |
| Passes.SweepIdempotent | audience/audience.py:67-80 | sweeping the swept table again changes nothing and emits no deletes |
| Passes.SweepSettles | audience/audience.py:67-80 | after a complete pass no row is due for another move |
| Passes.SweepReclassifies | audience/audience.py:69-79 | a record segmented on import day holds `return_segment`'s segment for today after the pass, except a current record now over 730 days old, which the source leaves current |
| Sorting.Sorter.constructor | audience/audience.py:36-43 | the sorter holds the table, and its six lists are empty |
| Sorting.Sorter.GeneratePushes | audience/audience.py:82-111 | on the first import the push lists are the routing by segment; on later imports every row with the newest stamp goes to the current push list and the other two are empty; an empty table is an error; the delete lists are unchanged |
| Sorting.Sorter.GenerateDeletes | audience/audience.py:45-80 | the table and the two delete lists are the sweep's; the lapsed and extra-lapsed push lists equal those deletes; the extra-lapsed deletes stay empty; it fails exactly where a row's order date cannot be read |
| Sorting.Sorter.Current | audience/audience.py:124-129 | returns the current push list as the last sort left it |
| Sorting.Sorter.LapsedList | audience/audience.py:131-136 | returns the lapsed push list as the last sort left it |
| Sorting.Sorter.ExtraLapsed | audience/audience.py:138-143 | returns the extra-lapsed push list as the last sort left it |
| Sorting.Sorter.CurrentDeletes | audience/audience.py:145-150 | returns the current delete list as the last sort left it |
| Sorting.Sorter.LapsedDeletes | audience/audience.py:152-157 | returns the lapsed delete list as the last sort left it |
| Sorting.Sorter.ExtraLapsedDeletes | audience/audience.py:159-164 | returns the extra-lapsed delete list, which no sort fills |
| Sorting.Sorter.Visit | audience/audience.py:67-80 | one loop step agrees with the sweep on the prefix visited so far, or stops where the sweep stops |
| Sorting.Sorter.Reclassify | audience/audience.py:69-80 | the record is advanced, saved in the table, and appended to the matching delete list |
| Sorting.Sorter.AddSort | audience/audience.py:113-116 | the push lists become the initial routing; the delete lists are unchanged |
| Sorting.Sorter.AddRemoveSort | audience/audience.py:118-122 | the rows with the newest stamp go to the current push list, then the sweep sets the table, the delete lists and the lapsed and extra-lapsed push lists; an empty table fails and changes no row |
| Audiences.LastMatch | audience/audience.py:194-205 | None exactly when no audience has the name; otherwise the last index with that name |
| Audiences.Without | audience/audience.py:237-250 | exactly the audiences whose id differs from the deleted one |
| Audiences.BatchUsers | audience/audience.py:207-218 | the batches concatenate to the users, each is non-empty and at most the size, and there are none for no users |
| Audiences.AddBatchesCover | audience/audience.py:252-274 | the add batches cover the users in order; one batch exactly up to 10000 users, else ceil(n/2500) batches |
| Audiences.RemoveBatchesCover | audience/audience.py:276-297 | the remove batches cover the users in order; one batch exactly up to 500 users, else ceil(n/500) batches |
| Audiences.TwelveThousandAdds | audience/audience.py:268-272 | 12000 adds go out in five requests, the last of 2000 users |
| Audiences.DeleteRemovesName | audience/audience.py:237-250 | with unique names, deleting an audience removes its name from the account |
| Audiences.Adapter.constructor | audience/audience.py:185-192 | the adapter starts with the account's audiences and no requests |
| Audiences.Adapter.GetAudience | audience/audience.py:194-205 | fails exactly when no audience has the name; otherwise the id of the last match |
| Audiences.Adapter.CreateAudience | audience/audience.py:220-235 | an existing name leaves everything unchanged; a new name appends one audience and logs one create request |
| Audiences.Adapter.DeleteAudience | audience/audience.py:237-250 | a missing name fails without change; otherwise that audience is removed and one delete request is logged |
| Audiences.Adapter.AddUsersTo | audience/audience.py:252-274 | no users is a pass with no requests; a missing audience fails; otherwise one add request per batch, in order |
| Audiences.Adapter.RemoveUsersFrom | audience/audience.py:276-297 | no users is a pass with no requests; a missing audience fails; otherwise one remove request per batch of at most 500 |
| Audiences.Adapter.Send | audience/audience.py:269-272 | the request log grows by one request per batch, in order |
| Chunking.Chunks | audience/utils.py:188-198 | none exactly for empty input; every slice is non-empty and at most the size; every slice but the last is full |
| Chunking.ChunksCount | audience/utils.py:194 | there are ceil(n/size) slices, one per step of the range |
| Chunking.ChunksConcat | audience/utils.py:194-198 | the slices joined give back the input |
| Chunking.ChunkAt | audience/utils.py:194-198 | slice k is the input from k*size to k*size+size, clipped at the end |
| Chunking.DataGenerator | audience/utils.py:188-198 | the slices of at most 90 rows joined give back the data |
| Calendar.Strptime | audience/audience.py:68 | a date that is read is a valid calendar date; no match, unconverted text, or an impossible day gives None |
| Calendar.OrdinalOrder | audience/audience.py:68-69 | day numbers order like the dates, so day differences measure age |
| Calendar.DateKeyOrder | audience/utils.py:120-125 | the numeric CSV date key orders like the dates |
| Calendar.IsoRoundTrip | audience/utils.py:52-58 | reading an ISO date written from a valid date gives that date back |
| Calendar.UsRoundTrip | audience/utils.py:52-58 | reading an `m/d/Y` date written from a valid date gives that date back |
| Calendar.UsRejectsIso | audience/utils.py:52-57 | an ISO date is not an `m/d/Y` date, so the first parse fails and the second one is used |
| Calendar.CompactRoundTrip | audience/utils.py:121-122 | reading a compact `YYYYMMDD` date written from a valid date gives that date back |
| Strings.JoinSplit | audience/utils.py:36 | splitting on a separator and joining with it gives the text back |
| Strings.ContainsAt | audience/utils.py:118 | `in` on strings holds exactly when the pattern occurs at some index |
| Strings.LowerShape | audience/utils.py:46 | lowering keeps the length and leaves no upper-case ASCII letter |
| Strings.StrLeTotal | audience/utils.py:125-126 | Python's string order is total, the tie-breaker of the file sort |
| Ingest.CleanHeaderNormalised | audience/utils.py:39-46 | a cleaned CSV header has no space, hyphen or upper-case letter |
| Ingest.XlsxHeaderNormalised | audience/utils.py:85-86 | a cleaned workbook header has no space, hyphen or upper-case letter |
| Ingest.ZipKeys | audience/utils.py:51 | a record has exactly the headers as keys |
| Ingest.ZipLastWins | audience/utils.py:51 | a header's value comes from its last column, as the dict constructor keeps it |
| Ingest.ReadOrderDate | audience/utils.py:52-57 | an order date that is read is a valid calendar date |
| Ingest.OrderDateRewrite | audience/utils.py:52-58 | both accepted spellings of a date read back as that date |
| Ingest.DeleteKeysSpec | audience/utils.py:62-68 | deletion succeeds exactly when every key is present, and then drops exactly those keys; otherwise it names the first missing one |
| Ingest.AddressKeysDistinct | audience/utils.py:63-68 | the six address keys are distinct |
| Ingest.StampKeysKept | audience/utils.py:58-68 | the stamped keys are not address keys, so stripping keeps them |
| Ingest.StampAndStripFields | audience/utils.py:58-68 | a stamped, stripped record carries the order date, its segment, today and the file date |
| Ingest.StampAndStripKeys | audience/utils.py:58-68 | the keys after stripping are the stamped keys minus the address keys, when there are more than eleven |
| Ingest.CsvRecordFields | audience/utils.py:48-69 | a successful CSV record has a readable order date and carries all four stamps |
| Ingest.CsvAddressStripping | audience/utils.py:62-68 | a record with more than eleven keys loses exactly the six address keys; a shorter one keeps all |
| Ingest.CsvMissingAddress | audience/utils.py:62-68 | a wide record missing an address key fails with `KeyError` |
| Ingest.CsvRecordsCount | audience/utils.py:48-69 | one record per line with as many fields as headers, each the record of that line |
| Ingest.CsvRecordsFailFast | audience/utils.py:48-69 | the first failing line decides the import's error |
| Ingest.CsvHeaders | audience/utils.py:39-46 | one cleaned header per column of the first line, each normalised |
| Ingest.MakeCsvRecord | audience/utils.py:49-69 | the loop body's record is the CSV record function |
| Ingest.StripAddress | audience/utils.py:62-68 | address keys are deleted only from records with more than eleven keys |
| Ingest.CsvRecordsStamped | audience/utils.py:48-69 | at most one record per line, each carrying the four stamps of the order date its line held |
| Ingest.CsvImport | audience/utils.py:25-71 | a successful import has fewer records than the text has lines, each with the four stamps of some valid order date |
| Ingest.CsvLines | audience/utils.py:48-69 | the line loop's result is the records of the lines, stopping at the first failing line |
| Ingest.ProcessCsv | audience/utils.py:25-71 | the importer's result is the CSV import function |
| Ingest.XlsxHeaders | audience/utils.py:85-86 | fails exactly on a non-text header cell; otherwise one cleaned header per cell |
| Ingest.XlsxRecordsFailFast | audience/utils.py:88-96 | the first failing row decides the import's error |
| Ingest.XlsxRecordsStamped | audience/utils.py:88-96 | one record per row with an order date, in order; record k is the record of the k-th dated row, with that row's timestamp date, its segment, today and the fixed file date |
| Ingest.XlsxSkipsEmptyDates | audience/utils.py:90-91 | a row is skipped exactly when its order date cell is empty |
| Ingest.MakeXlsxRecord | audience/utils.py:89-96 | the loop body's record is the workbook record function |
| Ingest.XlsxImport | audience/utils.py:74-98 | an empty sheet fails with `IndexError`; a successful import has fewer records than the sheet has rows, each stamped |
| Ingest.XlsxRows | audience/utils.py:88-96 | the row loop's result is the records of the dated rows, stopping at the first failing row |
| Ingest.ProcessXlsx | audience/utils.py:74-98 | the importer's result is the workbook import function |
| FtpSelect.FilterMembers | audience/utils.py:117-119 | a name is kept exactly when it is listed and contains the keyword |
| FtpSelect.FilterAppend | audience/utils.py:117-119 | the filter runs over the listing in order |
| FtpSelect.FilterNames | audience/utils.py:117-119 | the loop keeps exactly the filtered names |
| FtpSelect.PyIntDigits | audience/utils.py:123-124 | `int()` of plain digits is their decimal value |
| FtpSelect.PyIntNeedsDigit | audience/utils.py:123-124 | `int()` fails on text with no digit |
| FtpSelect.CsvNameKey | audience/utils.py:120-122 | a name `prefix_YYYYMMDD.csv` gets that date's key |
| FtpSelect.XlsxNameKey | audience/utils.py:123-124 | a workbook name whose last nine characters are four digits and `.xlsx` gets the value of those digits |
| FtpSelect.EntryLeFacts | audience/utils.py:125-126 | the (key, name) order is reflexive, total, transitive and antisymmetric |
| FtpSelect.SortEntries | audience/utils.py:125-126 | the sorted entries are in order and a permutation of the input |
| FtpSelect.SortedUnique | audience/utils.py:125-126 | two sorted permutations of the same entries are equal, so the result is the one `sorted` returns |
| FtpSelect.GroupFailFast | audience/utils.py:120-124 | the first name whose key cannot be read decides the error |
| FtpSelect.GroupOk | audience/utils.py:120-124 | grouping succeeds exactly when every key is read |
| FtpSelect.GroupContents | audience/utils.py:120-124 | names with `_` go to the CSV group and the rest to the workbook group, with their keys |
| FtpSelect.ClassifyOk | audience/utils.py:120-124 | classifying succeeds exactly when every kept name's key is read |
| FtpSelect.ClassifyGroups | audience/utils.py:120-124 | the two groups hold, as a multiset, exactly the kept names, each in the group its `_` decides |
| FtpSelect.ClassifyNames | audience/utils.py:120-124 | the loop's result is the classification, stopping at the first error |
| FtpSelect.CollectFailFast | audience/utils.py:128-137 | the first file whose job cannot be built decides the error |
| FtpSelect.JobsOk | audience/utils.py:128-137 | building jobs succeeds exactly when every file's job is built |
| FtpSelect.JobsFollowFiles | audience/utils.py:128-137 | there is one job per file, in order, each the job of that file |
| FtpSelect.JobKind | audience/utils.py:132-137 | a job keeps its file's name, and is a workbook job exactly when the name contains `xlsx` |
| FtpSelect.CsvNameJob | audience/utils.py:133-137 | a `prefix_YYYYMMDD.csv` file gets a CSV job with that date in ISO form |
| FtpSelect.MakeJobs | audience/utils.py:128-137 | the loop's jobs are the jobs of the files, stopping at the first error |
| FtpSelect.Selection | audience/utils.py:117-137 | the first unreadable key is the error; otherwise one job per kept name, or the first job that cannot be built fails |
| FtpSelect.SelectFiles | audience/utils.py:117-137 | the method's result is the selection function over the listing |
| FtpSelect.ArrangeGroups | audience/utils.py:125-127 | the arranged names place every workbook before every CSV |
| FtpSelect.SelectionPermutes | audience/utils.py:117-137 | a successful selection's jobs name exactly the kept files, as a multiset |
| FtpSelect.SelectionWorkbooksFirst | audience/utils.py:125-127 | in a successful selection, no name without `_` comes after one with `_` |
| FtpSelect.SelectionByDate | audience/utils.py:120-127 | CSV jobs come in non-decreasing order of the dates in their names |
| FtpSelect.SelectionByNumber | audience/utils.py:123-127 | workbook jobs come in non-decreasing order of their trailing numbers |

## Left out

- FTP connection, login, listing and downloads: the listing is a parameter of
  `FtpSelect.SelectFiles`. The per-file import calls after the selection are
  not modelled; the model ends at the ordered jobs.
- The advertising SDK calls: `Audiences.Adapter` records each create, delete,
  add and remove as a request value in a log. The SDK's responses and errors
  are not modelled.
- SQLite and peewee (`sqlite_import`, `truncate`, `write_database`): the
  customer table is a sequence of records in `Customers.Table`.
- openpyxl workbook loading: `Ingest.ProcessXlsx` takes the sheet's cell values.
- `date.today()` is a parameter everywhere: a day number for the sorter and
  `return_segment`, a date for the importers.
- `print` calls, `__repr__`, and the configuration module and command-line entry point.
- The getters' `False` branches are not modelled. They return `False` when the
  list attribute is missing, but the constructor always creates all six lists,
  so the branch cannot be taken. The getters are plain field reads.
- The `TypeError` raised by the adapter for a non-list user argument does not
  arise: the argument is typed as a sequence.
- Audiences.BatchUsers: requires a batch size above zero. A size of zero
  would make the source's `range` raise `ValueError`; the source only calls it
  with 2500 and 500.
- Chunking.Chunks: requires a size above zero, for the same reason.
- Strings.Lower: only lowers ASCII letters. Python's `lower()` also maps
  non-ASCII letters.
- FtpSelect.PyInt: strips only the ASCII whitespace (space, tab to carriage
  return, and the separators 0x1C-0x1F), and reads only ASCII digits. Python's
  `int()` also accepts non-ASCII Unicode spaces and decimal digits.
- Calendar.Strptime: `%Y`, `%m` and `%d` match only ASCII digits. Python's
  `strptime` matches any Unicode decimal digit there, so a date such as a
  full-width `２０２０-01-05` parses in Python but gives `None` here. This
  affects `Calendar.ParseIso`, `Calendar.ParseUs` and `Calendar.ParseCompact`
  and their users: the sweep stops with `BadOrderDate`, the CSV importer
  reports `BadDate`, and the file selection reports `UnreadableDate`, where
  Python would go on.
- FtpSelect.CsvNameKey: the CSV sort key is the number `y*10000 + m*100 + d`
  instead of a date object. `Calendar.DateKeyOrder` proves the two order alike
  on valid dates, so the sorted result is the same.
- The add batching follows the code. The comment at
  `audience/audience.py:268` gives a limit of about 10000, but `_batch_users`
  defaults to 2500. So 12000 adds go out in five calls
  (`Audiences.TwelveThousandAdds`).
