# A verified model of the DASA sample-management system's decision logic

The system is a Laravel and React web application, with Python capture
scripts, for registering patients and storing microscope samples together with
their measurements. This project models the deterministic logic underneath
the system in Dafny and proves what that logic promises.

- **Listings** (`listings.dfy`). The sample list is `AMOSTRA LEFT JOIN
  PACIENTE` and the dashboard is `PACIENTE LEFT JOIN AMOSTRA`. Both are
  ordered by `DATA_AMOSTRA` descending, with SQL NULL below every date. The
  proofs cover which rows survive each join, how many rows each sample or
  patient gets, where the rows come from, and the order.
- **Client-side tables**:
  - `table_data.dfy`: rows as JavaScript objects.
  - `table_view.dfy`: the search filter, the `toggleSort` state machine, the
    pagination, and the table state as a class.
  - `table_sort.dfy`: the comparator and the sorted copy.
  - `csv_export.dfy`: the CSV export, proved to read back field by field.
- **Profile**:
  - `profile.dfy`: `ProfileController::update` as a transaction over a
    `Database` class, and the `edit` license lookup.
  - `profile_form.dfy`: the role label and the initial values of the profile
    form.
- **Analyzer launcher** (`launcher.dfy`). This models
  `MicroscopioController::run`:
  - the interpreter search;
  - the order of the guards;
  - the environment and the argument vector;
  - how the diagnostic result is classified.
- **Capture scripts**:
  - `capture.dfy`: the capture app (`parse_user`, the CPF lookup, the margin
    region, and the state of the `Microscope` class).
  - `measurement.dfy`: the "second largest, else largest, else 0" selection.
  - `sample_insert.dfy`: the three `inserir_print` variants.
  - `process_image.dfy`: the exit codes of `process_image_file`.
- **Modals**:
  - `patient_form.dfy`: the new-patient form as a class.
  - `sample_details.dfy`: the sample-details view.
- **Shared helpers**:
  - `wrappers.dfy`: `Option` and `Result`.
  - `seqs.dfy`: filter and count.
  - `sorting.dfy`: a stable insertion sort by a comparison, and its
    properties.
  - `text.dfy`: digit filtering, trimming by a character class (Python's
    `strip`, PHP's `trim`, JavaScript's `Number`), integer rendering and
    parsing (Python's `int()`, PHP's `FILTER_VALIDATE_INT`), and ASCII upper
    case.

Outside effects are given as inputs:

- the database;
- the file system;
- the Python interpreter;
- the image analysis;
- the AI service;
- the clock;
- the engine's `Number`/`Date` coercions.

Tables are sequences of records when their order matters and maps keyed by
their key column when it does not.

A role change keeps the old role's license row: `ProfileController::update`
upserts the new role's row and issues no delete, so a physician who becomes a
nurse still has a MEDICO row (`Profile.RoleSwitchKeepsOldLicense`).

## Model

| member | source | states |
|---|---|---|
| Listings.SampleJoin | app/Http/Controllers/AmostraController.php:18-19 | `AMOSTRA LEFT JOIN PACIENTE`: each sample's matching rows, or one row with NULL patient columns, sample by sample; its rows are described by Listings.SampleJoinRowOrigin, Listings.SampleJoinCount and Listings.SampleBlockInJoin |
| Listings.SampleList | app/Http/Controllers/AmostraController.php:14-33 | the sample list is that join ordered by DATA_AMOSTRA descending; Listings.SampleListKeepsEverySample, Listings.SampleListOneRowPerSample, Listings.SampleListRowOrigin and Listings.SampleListOrdered state what it holds |
| Listings.OrderByDesc | app/Http/Controllers/AmostraController.php:32 | ordering the rows keeps every row, each as often as before |
| Listings.OrderByDescSorted | app/Http/Controllers/AmostraController.php:32 | after `ORDER BY ... DESC` every row's date is at least every later row's, NULL dates last |
| Listings.SampleListKeepsEverySample | app/Http/Controllers/AmostraController.php:14-19 | every sample appears in the list with its own columns; one without a matching patient appears with NULL patient columns |
| Listings.JoinRowListed | app/Http/Controllers/AmostraController.php:18-33 | ordering loses no row of the join |
| Listings.SampleJoinAppend | app/Http/Controllers/AmostraController.php:18-19 | the join of two runs of samples is their joins one after the other |
| Listings.SampleBlockInJoin | app/Http/Controllers/AmostraController.php:18-19 | a sample's rows sit in the join between those of the samples before and after it |
| Listings.SampleListRowOrigin | app/Http/Controllers/AmostraController.php:18-33 | every listed row is a row the left join produces for some sample, with that sample's columns and a matching patient or NULLs |
| Listings.SampleJoinRowOrigin | app/Http/Controllers/AmostraController.php:18-19 | every joined row comes from some sample in the same way |
| Listings.SampleListOneRowPerSample | app/Http/Controllers/AmostraController.php:14-19 | with unique patient ids, the rows for a sample id are exactly as many as the samples with that id |
| Listings.SampleJoinCount | app/Http/Controllers/AmostraController.php:18-19 | the same count before ordering |
| Listings.AtMostOneMatch | app/Http/Controllers/AmostraController.php:19 | with unique patient ids a foreign key matches at most one patient |
| Listings.NoneMatch | app/Http/Controllers/AmostraController.php:19 | a foreign key equal to no patient id (or NULL) matches nothing |
| Listings.SampleListOrdered | app/Http/Controllers/AmostraController.php:32 | the sample list is non-increasing in DATA_AMOSTRA, NULL dates last |
| Listings.PatientJoin | app/Http/Controllers/DashboardController.php:12-13 | `PACIENTE LEFT JOIN AMOSTRA`: each patient's samples, or one row without sample columns, patient by patient; Listings.PatientJoinCount and Listings.PatientJoinRowOrigin describe it |
| Listings.Dashboard | app/Http/Controllers/DashboardController.php:12-27 | the dashboard is that join ordered by DATA_AMOSTRA descending; Listings.DashboardRowsPerPatient, Listings.DashboardRowOrigin and Listings.DashboardOrdered state what it holds |
| Listings.DashboardRowsPerPatient | app/Http/Controllers/DashboardController.php:12-13 | with unique patient ids a patient with k samples has max(1, k) rows; one without samples has a row with NULL sample columns |
| Listings.PatientRowsInJoin | app/Http/Controllers/DashboardController.php:12-13 | a patient's rows are in the join |
| Listings.PatientJoinCount | app/Http/Controllers/DashboardController.php:12-13 | the same count before ordering |
| Listings.BlockCount | app/Http/Controllers/DashboardController.php:13 | a patient's block counts whole for its own id and not at all for another |
| Listings.SameOwnerCount | app/Http/Controllers/DashboardController.php:13 | rows that all belong to one patient count whole for its id and not at all for another |
| Listings.OtherPatientsCount | app/Http/Controllers/DashboardController.php:12-13 | patients with other ids contribute no rows for an id |
| Listings.DashboardRowOrigin | app/Http/Controllers/DashboardController.php:12-27 | every dashboard row's patient is a patient, and its sample columns, when present, are those of a sample whose foreign key is that patient's id, so a sample with a NULL or unmatched foreign key never appears |
| Listings.PatientJoinRowOrigin | app/Http/Controllers/DashboardController.php:12-13 | the same before ordering |
| Listings.DashboardOrdered | app/Http/Controllers/DashboardController.php:26 | the dashboard is non-increasing in DATA_AMOSTRA, rows without a sample last |
| TableData.Get | resources/js/Components/PatientsSamplesTable.jsx:58 | a property the row lacks reads as `undefined` |
| TableData.TextOrEmpty | resources/js/Components/SamplesTable.jsx:53-56 | `String(v \|\| '')` is the text of a truthy value and empty otherwise |
| TableData.TextOrBlank | resources/js/Components/PatientsSamplesTable.jsx:86-94 | `String(v ?? '')` is empty for null and undefined and the value's text otherwise |
| TableView.NameText | resources/js/Components/PatientsSamplesTable.jsx:15-17 | the sample list searches `NOME_PACIENTE \|\| ''`, while the dashboard searches a null name as the text "null" |
| TableView.Filtered | resources/js/Components/SamplesTable.jsx:49-58 | the search: every row for an empty query, else the rows whose name, CPF or annotation contains the normalised query; its properties are in TableView.FilteredEmptyQuery, TableView.FilteredIsSubsequence and TableView.FilteredKeepsIff |
| TableView.FilteredEmptyQuery | resources/js/Components/SamplesTable.jsx:49-50 | an empty query shows every row, in order |
| TableView.FilteredIsSubsequence | resources/js/Components/SamplesTable.jsx:49-58 | the search keeps rows in their order and only drops rows |
| TableView.FilteredKeepsIff | resources/js/Components/PatientsSamplesTable.jsx:43-52 | for a non-empty query, a row is shown exactly when it is one of the rows and its name, CPF or an annotation matches |
| TableView.FilteredFindsCpf | resources/js/Components/SamplesTable.jsx:54 | a row whose CPF contains the query as typed is always found |
| TableView.Toggled | resources/js/Components/SamplesTable.jsx:44-47 | a click sorts the clicked column, flipping the direction on the current column and ascending on another |
| TableView.ToggledTwice | resources/js/Components/PatientsSamplesTable.jsx:38-41 | two clicks on the current column restore the sort |
| TableView.ToggledNewColumnTwice | resources/js/Components/PatientsSamplesTable.jsx:38-41 | two clicks on a new column sort it descending |
| TableView.PageCount | resources/js/Components/SamplesTable.jsx:82-83 | the page count is the fewest pages of ten that hold the rows, and at least one |
| TableView.SliceBound | resources/js/Components/SamplesTable.jsx:84 | a slice bound is clamped into the sequence, and an in-range bound is kept |
| TableView.Slice | resources/js/Components/SamplesTable.jsx:84 | a slice is never longer than the sequence |
| TableView.Visible | resources/js/Components/SamplesTable.jsx:84 | a page shows at most ten rows, the k-th being row `(page - 1) * 10 + k` |
| TableView.RowOnItsPage | resources/js/Components/PatientsSamplesTable.jsx:77-79 | every row appears on page `i / 10 + 1`, at position `i % 10`, and that page exists |
| TableView.PagePastLastIsEmpty | resources/js/Components/PatientsSamplesTable.jsx:78-79 | a page past the last one is empty |
| TableView.TableState.constructor | resources/js/Components/SamplesTable.jsx:22-24 | a table starts with no query, sorted by date descending, on page 1 |
| TableView.TableState.ToggleSort | resources/js/Components/SamplesTable.jsx:44-47 | a header click goes back to page 1 and toggles the sort, keeping the query |
| TableView.TableState.SetQuery | resources/js/Components/SamplesTable.jsx:152 | typing in the search box sets the query and goes back to page 1, keeping the sort |
| TableView.TableState.Previous | resources/js/Components/SamplesTable.jsx:191 | "Anterior" moves one page back, but never before page 1 |
| TableView.TableState.Next | resources/js/Components/SamplesTable.jsx:199 | "Próxima" moves one page on, but never past the last page |
| Sorting.Insert | resources/js/Components/SamplesTable.jsx:62-79 | inserting adds exactly the one element to the contents |
| Sorting.SortBy | resources/js/Components/SamplesTable.jsx:62-79 | the sorted copy has the same elements, each as often as before |
| Sorting.InsertSorted | resources/js/Components/SamplesTable.jsx:62-79 | inserting into an ordered sequence, under a total preorder, keeps it ordered |
| Sorting.SortBySorted | resources/js/Components/SamplesTable.jsx:62-79 | under a total preorder on the elements, the sorted copy is ordered |
| Sorting.SortByAllTies | resources/js/Components/SamplesTable.jsx:62-79 | when every comparison ties, the order stays as it was (stability) |
| Sorting.InsertAgree | resources/js/Components/SamplesTable.jsx:62-79 | two comparators that agree on the elements involved insert alike |
| Sorting.SortByAgree | resources/js/Components/SamplesTable.jsx:62-79 | two comparators that agree on the elements of a sequence sort it alike |
| TableSort.StrCmp | resources/js/Components/SamplesTable.jsx:75-77 | the string comparison is negative, zero or positive |
| TableSort.StrCmpAntisymmetric | resources/js/Components/SamplesTable.jsx:75-77 | swapping two strings negates their comparison |
| TableSort.StrCmpZeroIffEqual | resources/js/Components/SamplesTable.jsx:75-77 | two strings tie exactly when they are equal |
| TableSort.StrCmpTransitive | resources/js/Components/SamplesTable.jsx:75-77 | the string order is transitive |
| TableSort.Compare | resources/js/Components/SamplesTable.jsx:63-78 | the page's comparator as written, nulls, then numbers, then dates, then the NaN difference of two text cells; TableSort.CompareTiesOnText and TableSort.CompareAgreesOffText state how it behaves |
| TableSort.CompareIntended | resources/js/Components/SamplesTable.jsx:63-78 | the comparator with text cells compared by the string order, as the `localeCompare` branch intends; its order properties are TableSort.CompareIntendedAntisymmetric, TableSort.CompareIntendedTransitive and TableSort.CompareIntendedNullRule |
| TableSort.CompareIntendedAntisymmetric | resources/js/Components/SamplesTable.jsx:63-78 | swapping the operands negates the intended comparison |
| TableSort.CompareIntendedDescReversesAsc | resources/js/Components/SamplesTable.jsx:63-78 | descending order is ascending order with the operands swapped |
| TableSort.CompareIntendedNullRule | resources/js/Components/SamplesTable.jsx:65-67 | two nulls tie; a null is below any value ascending and above it descending |
| TableSort.CompareTiesOnText | resources/js/Components/SamplesTable.jsx:72-77 | on two values that are neither numbers nor valid dates the comparator as written ties, while the intended one ties only on equal text |
| TableSort.CompareIntendedTransitive | resources/js/Components/SamplesTable.jsx:63-78 | on values of one kind the intended comparator is transitive |
| TableSort.SortedRows | resources/js/Components/PatientsSamplesTable.jsx:54-75 | the corrected `sorted`: a stable sort of the filtered rows by the clicked column; TableSort.SortedRowsPermutation, TableSort.SortedRowsOrdered and TableSort.SortedRowsNullPlacement state it |
| TableSort.SortedRowsAsWritten | resources/js/Components/PatientsSamplesTable.jsx:54-75 | the page's `sorted` under the comparator as written; TableSort.AsWrittenLeavesTextUnsorted and TableSort.SortedRowsAsWrittenAgrees state how it differs and where it agrees |
| TableSort.SortedRowsPermutation | resources/js/Components/PatientsSamplesTable.jsx:54-75 | the sorted rows are the filtered rows, each as often as before |
| TableSort.RowOrderPreorder | resources/js/Components/PatientsSamplesTable.jsx:57-73 | on a column whose values convert uniformly the row order is a total preorder |
| TableSort.SortedRowsOrdered | resources/js/Components/PatientsSamplesTable.jsx:54-75 | on such a column no row compares above a later one |
| TableSort.SortedRowsNullPlacement | resources/js/Components/PatientsSamplesTable.jsx:59-61 | rows with a null value come first ascending and last descending |
| TableSort.AsWrittenLeavesTextUnsorted | resources/js/Components/SamplesTable.jsx:72-77 | as written, sorting a column of plain text leaves the rows as they were |
| TableSort.CompareAgreesOffText | resources/js/Components/SamplesTable.jsx:63-78 | on nulls, numbers and valid dates of one kind the comparator as written and the intended one give the same result |
| TableSort.SortedRowsAsWrittenAgrees | resources/js/Components/PatientsSamplesTable.jsx:54-75 | on a numeric or date column (nulls allowed) the page's `sorted` is the corrected sort |
| TableSort.SortedRowsAsWrittenOrdered | resources/js/Components/PatientsSamplesTable.jsx:54-75 | on such a column the page's `sorted` has no row comparing above a later one under the comparator as written |
| TableSort.SortedRowsAsWrittenNullPlacement | resources/js/Components/PatientsSamplesTable.jsx:59-61 | on such a column the page's `sorted` puts null rows first ascending and last descending |
| TableSort.NameSortExample | resources/js/Components/SamplesTable.jsx:63-78 | "Bruno", "Ana" by name ascending: as written the order stays, as intended "Ana" comes first |
| CsvExport.DropBreaks | resources/js/Components/PatientsSamplesTable.jsx:92-93 | the greedy part of `[\r\n]+`: the result is no longer than its input and starts with no break; CsvExport.DropBreaksRun states that a whole run is consumed |
| CsvExport.HeaderJoinsColumns | resources/js/Components/PatientsSamplesTable.jsx:82-83 | the header line is the eight column titles joined with `;` |
| CsvExport.CollapseBreaks | resources/js/Components/PatientsSamplesTable.jsx:92-93 | the annotation text holds no CR or LF afterwards, and text without them is unchanged |
| CsvExport.CollapseBreaksRun | resources/js/Components/PatientsSamplesTable.jsx:92-93 | a whole run of CR and LF between break-free text becomes exactly one space |
| CsvExport.CollapseBreaksRunAlone | resources/js/Components/PatientsSamplesTable.jsx:92-93 | a run of CR and LF at the start becomes one space |
| CsvExport.DropBreaksRun | resources/js/Components/PatientsSamplesTable.jsx:92-93 | a run of breaks followed by a non-break character is consumed whole |
| CsvExport.FormatDate | resources/js/Components/PatientsSamplesTable.jsx:7-13 | a falsy date is written as the empty string; a truthy one that is not a valid date is written as given; a valid one as the locale's short date of its time |
| CsvExport.Fields | resources/js/Components/PatientsSamplesTable.jsx:85-93 | a row gives eight fields in the column order, each missing or null value empty, and the two annotations without line breaks |
| CsvExport.DoubleQuotes | resources/js/Components/PatientsSamplesTable.jsx:94 | `replace(/"/g, '""')`: the text grows by one character per quote; CsvExport.ReadQuotedBody proves that it reads back |
| CsvExport.Quote | resources/js/Components/PatientsSamplesTable.jsx:94 | the field between quotes with its quotes doubled; CsvExport.ParseJoinedFields proves such fields parse back |
| CsvExport.QuoteAll | resources/js/Components/PatientsSamplesTable.jsx:94 | every field is quoted, one quoted field per field |
| CsvExport.Line | resources/js/Components/PatientsSamplesTable.jsx:85-94 | a row's eight quoted fields joined with `;`; CsvExport.LineParsesBack and CsvExport.LineHasNoLineFeed state what it holds |
| CsvExport.Lines | resources/js/Components/PatientsSamplesTable.jsx:83-96 | the lines are the header, then one line per sorted row in order |
| CsvExport.LinesAppend | resources/js/Components/PatientsSamplesTable.jsx:84-96 | pushing a row's line extends the lines of the rows before it by that line |
| CsvExport.Export | resources/js/Components/PatientsSamplesTable.jsx:81-97 | the loop's file text is the byte-order mark followed by the lines joined with line feeds |
| CsvExport.SplitJoin | resources/js/Components/PatientsSamplesTable.jsx:97 | splitting the joined text at line feeds gives back the lines when none holds a line feed |
| CsvExport.ReadQuotedBody | resources/js/Components/PatientsSamplesTable.jsx:94 | a field with its quotes doubled reads back as the field, up to its closing quote |
| CsvExport.ParseJoinedFields | resources/js/Components/PatientsSamplesTable.jsx:94 | quoted fields joined with `;` parse back into exactly those fields, `;` and quotes inside fields included |
| CsvExport.LineParsesBack | resources/js/Components/PatientsSamplesTable.jsx:85-94 | every row's line parses back into the row's eight fields |
| CsvExport.LineHasNoLineFeed | resources/js/Components/PatientsSamplesTable.jsx:85-94 | a row's line holds no line feed when its non-annotation fields hold none |
| CsvExport.HeaderHasNoLineFeed | resources/js/Components/PatientsSamplesTable.jsx:82-83 | the header holds no line feed |
| CsvExport.ExportReadsBack | resources/js/Components/PatientsSamplesTable.jsx:81-97 | the exported text starts with the byte-order mark and splits into the header and exactly one line per sorted row, in order, each parsing back into that row's fields |
| Profile.Validate | app/Http/Controllers/ProfileController.php:90-96 | validation succeeds exactly when all five rules hold (`required` refusing blank strings, `integer` as `FILTER_VALIDATE_INT`, `in` compared loosely); a failure names exactly the failing fields; a success carries the submitted values, the role's integer value from 1 to 3, a license number of at most 100 and a state of exactly 2 characters |
| Profile.RequiredString | app/Http/Controllers/ProfileController.php:91-95 | `required` on a string: some character that `trim()` keeps; Profile.RequiredStringTrim proves it equal to `trim(s) !== ''` |
| Profile.CargoOk | app/Http/Controllers/ProfileController.php:93 | the `required`, `integer` and `in:1,2,3` rules on the role: an integer 1 to 3, or a string that `FILTER_VALIDATE_INT` reads as one; the Profile.Cargo lemmas state what it accepts and refuses |
| Profile.RequiredStringTrim | app/Http/Controllers/ProfileController.php:91-95 | `required` refuses a string exactly when `trim()` reduces it to the empty string |
| Profile.CargoAcceptsPadded | app/Http/Controllers/ProfileController.php:93 | a role digit from 1 to 3 padded with spaces, tabs or line breaks is accepted with its value |
| Profile.CargoAcceptsSigned | app/Http/Controllers/ProfileController.php:93 | a role digit after a plus sign, padded or not, is accepted with its value |
| Profile.CargoOfFilter | app/Http/Controllers/ProfileController.php:93 | a string that `FILTER_VALIDATE_INT` reads as 1, 2 or 3 is accepted as that role |
| Profile.CargoRefusesLeadingZero | app/Http/Controllers/ProfileController.php:93 | a number written with a leading zero (`"02"`) is refused |
| Profile.CargoRefusesNonDigit | app/Http/Controllers/ProfileController.php:93 | a value with anything but digits after an optional sign (`"2.0"`) is refused |
| Profile.CargoRefusesBlank | app/Http/Controllers/ProfileController.php:93 | a blank value, the empty string included, is refused |
| Profile.CargoRefusesOtherCodes | app/Http/Controllers/ProfileController.php:93 | a number other than 1, 2 or 3 (`"4"`, `"0"`) is refused |
| Profile.BlankIsMissing | app/Http/Controllers/ProfileController.php:91-95 | a name or state of blanks only is refused, a two-letter state accepted |
| Profile.Detached | app/Http/Controllers/ProfileController.php:111-113 | the same samples, with exactly those attributed to the user set to NULL |
| Profile.AfterUpdate | app/Http/Controllers/ProfileController.php:98-148 | the tables after a committed save; Profile.AfterUpdateUser, Profile.AfterUpdateSamples, Profile.AfterUpdateLicenses and Profile.AfterUpdateIdempotent state it |
| Profile.AfterUpdateUser | app/Http/Controllers/ProfileController.php:104-107 | the user's row holds the validated name, e-mail and role; no other user row changes |
| Profile.AfterUpdateSamples | app/Http/Controllers/ProfileController.php:109-114 | a sample changes exactly when it was the user's and the user leaves the physician role, and then it becomes NULL; none is added or removed |
| Profile.AfterUpdateLicenses | app/Http/Controllers/ProfileController.php:116-147 | the new role's table holds the submitted number and the upper-cased state for the user; each license table keeps exactly its keys, plus the user in the new role's table; every other row is as before |
| Profile.AfterUpdateIdempotent | app/Http/Controllers/ProfileController.php:98-148 | saving the same profile twice leaves the tables as saving it once |
| Profile.RoleSwitchKeepsOldLicense | app/Http/Controllers/ProfileController.php:116-147 | a physician who becomes a nurse keeps the old MEDICO row and gains an ENFERMEIRO row |
| Profile.EditLicense | app/Http/Controllers/ProfileController.php:28-60 | number and state are both present or both null, present exactly when the table of the user's role (0 when missing) holds a row for the user, and then they are that row's number and state |
| Profile.EditAfterUpdate | app/Http/Controllers/ProfileController.php:28-60 | after a committed update the form is shown the license just saved |
| Profile.Database.constructor | app/Http/Controllers/ProfileController.php:98 | the tables start as given |
| Profile.Database.Restore | app/Http/Controllers/ProfileController.php:98-148 | a rollback puts every table back as it was at the start of the transaction |
| Profile.Database.Update | app/Http/Controllers/ProfileController.php:86-151 | invalid input writes nothing and reports its errors; valid input either commits exactly the update's effect, when no statement it runs is rejected, or rolls every table back |
| ProcessImage.NormalizeCpf | app/Http/Scripts/mensureScript/process_image_file.py:26 | the normalised CPF holds no dot and no dash |
| ProcessImage.RemoveCharAppend | app/Http/Scripts/mensureScript/process_image_file.py:26 | removing a character from two joined texts removes it from each |
| ProcessImage.RemoveCharAbsent | app/Http/Scripts/mensureScript/process_image_file.py:26 | removing a character that does not occur changes nothing |
| ProcessImage.NoDigitIsPunctuation | app/Http/Scripts/mensureScript/process_image_file.py:26 | a digit string holds no dot and no dash |
| ProcessImage.NormalizeDigits | app/Http/Scripts/mensureScript/process_image_file.py:26 | a CPF given as plain digits is passed on unchanged |
| ProcessImage.RemoveCharAfter | app/Http/Scripts/mensureScript/process_image_file.py:26 | removing a character whose first occurrence follows a prefix free of it keeps that prefix |
| ProcessImage.StripFormattedCpf | app/Http/Scripts/mensureScript/process_image_file.py:26 | stripping does not change a formatted CPF |
| ProcessImage.RemoveDotsFormattedCpf | app/Http/Scripts/mensureScript/process_image_file.py:26 | removing dots from a formatted CPF leaves the digit groups and the dash |
| ProcessImage.RemoveDashFormattedCpf | app/Http/Scripts/mensureScript/process_image_file.py:26 | removing the dash joins the two digit groups |
| ProcessImage.NormalizeFormattedCpf | app/Http/Scripts/mensureScript/process_image_file.py:26 | a CPF written `ddd.ddd.ddd-dd` becomes its digits |
| ProcessImage.UserIdArg | app/Http/Scripts/mensureScript/process_image_file.py:41 | an empty argument is no user; any other is accepted exactly when it reads as an integer, and then it is that integer |
| ProcessImage.UserIdArgOfInt | app/Http/Scripts/mensureScript/process_image_file.py:41 | a rendered integer id reads back as itself |
| ProcessImage.Run | app/Http/Scripts/mensureScript/process_image_file.py:11-54 | the exit code is 2 exactly for a missing file, 3 exactly for an undecodable one, 1 exactly when the analysis succeeds and the database cannot be reached (the `SystemExit` of `exit(1)` passes the `except Exception` handler), 0 exactly when the unpacking matches and every later step succeeds, else 10; a sample is stored exactly when the code is 0 |
| ProcessImage.ProcessImageFile | app/Http/Scripts/mensureScript/process_image_file.py:30 | as written, every existing, decodable image ends with code 10 and stores nothing |
| ProcessImage.ProcessImageFileIntended | app/Http/Scripts/mensureScript/process_image_file.py:11-54 | with two names unpacked, an existing, decodable image ends with 0 and its sample stored exactly when every later step succeeds, with 1 exactly when the analysis succeeds and the connection fails, else 10; nothing is stored unless the code is 0 |
| ProcessImage.StoredSample | app/Http/Scripts/mensureScript/process_image_file.py:30-43 | the sample the corrected script stores; ProcessImage.StoredSampleContents states its columns |
| ProcessImage.StoredSampleContents | app/Http/Scripts/mensureScript/process_image_file.py:30-43 | the stored sample carries the analyzer's height and width in their own columns, the patient found for the normalised CPF, the AI answer, and no user for an empty argument |
| PatientForm.StrLessIrreflexive | resources/js/Components/NewPatientModal.jsx:24 | no string is below itself |
| PatientForm.StrLessConcat | resources/js/Components/NewPatientModal.jsx:24 | comparing strings that start with pieces of one length compares those pieces, or what follows when they agree |
| PatientForm.DigitOrder | resources/js/Components/NewPatientModal.jsx:24 | digit strings of one length compare as the numbers they denote |
| PatientForm.IsoStringOrder | resources/js/Components/NewPatientModal.jsx:23-24 | two `YYYY-MM-DD` dates compare as strings exactly as they compare by year, month and day |
| PatientForm.ValidCpf | resources/js/Components/NewPatientModal.jsx:18-19 | `/^\d{11}$/`: eleven characters, all digits; PatientForm.CpfInputAccepted states when the typed CPF meets it |
| PatientForm.DateAfter | resources/js/Components/NewPatientModal.jsx:23-24 | a date later than another by year, month and day; PatientForm.IsoStringOrder proves the page's string comparison agrees with it |
| PatientForm.Validate | resources/js/Components/NewPatientModal.jsx:16-27 | no error exactly when the CPF is eleven digits and the birth date is not after today; a bad CPF gives only the CPF error; a good CPF and a future date give only the date error |
| PatientForm.BirthDateCheck | resources/js/Components/NewPatientModal.jsx:23-27 | an empty birth date and today's date pass; a well-formed date passes exactly when it is not after today |
| PatientForm.CpfInput | resources/js/Components/NewPatientModal.jsx:73-74 | the field holds at most eleven characters, all digits |
| PatientForm.CpfInputAccepted | resources/js/Components/NewPatientModal.jsx:18-19 | the field's CPF is accepted exactly when at least eleven characters are typed and the first eleven are digits, and it is then those eleven |
| PatientForm.NewPatientForm.constructor | resources/js/Components/NewPatientModal.jsx:5-10 | all fields empty, sex `O`, no errors |
| PatientForm.NewPatientForm.ChangeCpf | resources/js/Components/NewPatientModal.jsx:73-74 | the CPF field becomes the filtered input; nothing else changes |
| PatientForm.NewPatientForm.Submit | resources/js/Components/NewPatientModal.jsx:14-43 | posts exactly when validation passes, the fields as they are; on a failed check shows that error and changes nothing else; on a saved reply hands the patient to onCreated, closes and resets; on a server error shows it |
| SampleDetails.ImageRoute | resources/js/Components/SampleDetailsModal.jsx:12-22 | the helper's URL when the helper exists and does not throw, otherwise `/amostras/{id}/imagem` |
| SampleDetails.ImageSource | resources/js/Components/SampleDetailsModal.jsx:40-42 | there is a source exactly when the data URL or the id is truthy |
| SampleDetails.ImageSourceChoice | resources/js/Components/SampleDetailsModal.jsx:40-42 | a data URL wins; without one a truthy id gives its route, the plain path without a helper; with neither there is none |
| SampleDetails.Shown | resources/js/Components/SampleDetailsModal.jsx:68 | null and undefined show the dash; any other value shows its text |
| SampleDetails.FalsyValuesShown | resources/js/Components/SampleDetailsModal.jsx:68 | a falsy value such as 0 or an empty string is shown, not replaced by the dash |
| SampleDetails.Details | resources/js/Components/SampleDetailsModal.jsx:28-38 | one entry per labelled field, in order, then the AI note, each shown by the dash rule |
| SampleDetails.Render | resources/js/Components/SampleDetailsModal.jsx:24-98 | nothing while closed; otherwise the details, and the image with alt text `Amostra {id}` exactly when the image source is a non-empty string (`imageSrc` truthy), else the no-image message |
| SampleDetails.EmptyRouteShowsMessage | resources/js/Components/SampleDetailsModal.jsx:40-98 | a route helper that yields an empty URL leaves the modal showing the no-image message |
| SampleDetails.EmptySample | resources/js/Components/SampleDetailsModal.jsx:24 | the modal without a sample shows the dash everywhere and no image |
| ProfileForm.ToNumber | resources/js/Pages/Profile/Partials/UpdateProfileInformationForm.jsx:9 | a role held as a number converts to itself |
| Text.JsSpace | resources/js/Pages/Profile/Partials/UpdateProfileInformationForm.jsx:9 | the white space and line terminators `Number()` trims; ProfileForm.ToNumber uses it |
| ProfileForm.CargoLabel | resources/js/Pages/Profile/Partials/UpdateProfileInformationForm.jsx:8-15 | CRM, CRBM and COREN exactly for roles 1, 2 and 3, and `Registro` exactly for anything else |
| ProfileForm.CargoLabelOfRendered | resources/js/Pages/Profile/Partials/UpdateProfileInformationForm.jsx:64-65 | a role labels the same as a number and as the string the select reports |
| ProfileForm.CargoLabelOfEmpty | resources/js/Pages/Profile/Partials/UpdateProfileInformationForm.jsx:24 | the empty choice is labelled `Registro` |
| ProfileForm.InitialForm | resources/js/Pages/Profile/Partials/UpdateProfileInformationForm.jsx:21-27 | name and e-mail fall back to the legacy column names, the role to the empty choice, both license fields start empty |
| ProfileForm.InitialLabel | resources/js/Pages/Profile/Partials/UpdateProfileInformationForm.jsx:24 | the first label shown follows the user's role |
| ProfileForm.UpperCase | resources/js/Pages/Profile/Partials/UpdateProfileInformationForm.jsx:97 | under a one-to-one character mapping the result keeps the length and maps each character |
| ProfileForm.LicenseStateInput | resources/js/Pages/Profile/Partials/UpdateProfileInformationForm.jsx:97-99 | under a one-to-one mapping, the first two typed characters (or all, when fewer), each upper-cased |
| ProfileForm.LicenseStateInputAscii | resources/js/Pages/Profile/Partials/UpdateProfileInformationForm.jsx:97-99 | with the ASCII mapping, the first two typed characters upper-cased and no lower-case letter |
| ProfileForm.LicenseStateInputExpands | resources/js/Pages/Profile/Partials/UpdateProfileInformationForm.jsx:97-99 | a character whose upper case is two characters (`ß`) makes the field hold three |
| ProfileForm.LicenseStateInputStable | resources/js/Pages/Profile/Partials/UpdateProfileInformationForm.jsx:97-99 | under a one-to-one idempotent mapping, retyping what the field shows leaves it unchanged |
| Launcher.UserId | app/Http/Controllers/MicroscopioController.php:33 | `$user->id ?? $user->ID_USUARIO ?? null`; Launcher.Run states how a missing or falsy id is refused |
| Launcher.UserName | app/Http/Controllers/MicroscopioController.php:34 | `$user->name ?? $user->NOME_USUARIO ?? 'Usuário'`; Capture.UserHandedOver proves the capture app reads it back |
| Launcher.ResolvedPython | app/Http/Controllers/MicroscopioController.php:127-152 | the venv interpreter when executable, else the first accepted candidate; Launcher.ResolvedPythonNeverNull and Launcher.ResolvePythonPath state it |
| Launcher.FirstAccepted | app/Http/Controllers/MicroscopioController.php:143-151 | the result is the first candidate that is the bare `python3` or executable, with every earlier one refused; none only when every candidate is refused |
| Launcher.ResolvedPythonNeverNull | app/Http/Controllers/MicroscopioController.php:127-152 | the lookup always yields an interpreter, one of the venv path and the four candidates, so the "Python 3 not found" answer is unreachable |
| Launcher.ResolvePythonPath | app/Http/Controllers/MicroscopioController.php:127-152 | the loop returns the venv interpreter when executable, else the first accepted candidate in order |
| Launcher.ProcessEnv | app/Http/Controllers/MicroscopioController.php:60-68 | the process environment is the ambient one with AUTH_USER_ID and AUTH_USER_NAME set to the user's values and every other variable unchanged |
| Launcher.DiagResponse | app/Http/Controllers/MicroscopioController.php:75-91 | a failed diagnostic run reports its error output then its output, a successful one its output; a timeout is the generic start error |
| Launcher.Run | app/Http/Controllers/MicroscopioController.php:18-122 | no user, a falsy id and a missing script are refused with their messages and start nothing; otherwise the interpreter and the script are started in the project directory with the user's environment, and the answer follows the diagnostic outcome, or whether the start and the wait on the app's output, which lasts until the app exits, end without an exception |
| Launcher.LaunchShape | app/Http/Controllers/MicroscopioController.php:60-72 | the process gets exactly the interpreter and the script as arguments, and the user's id in its environment |
| Capture.ParseUser | app/Http/Scripts/microscopio.py:337-354 | a truthy `--user-id` wins; otherwise the id is AUTH_USER_ID read by `int()` and missing, blank or malformed ids give no user; the name is the truthy option, else the environment's, else `Usuario {id}`, and is never empty |
| Capture.BlankIdRefused | app/Http/Scripts/microscopio.py:346-347 | a blank id string is refused, as `int()` would refuse it |
| Capture.UserHandedOver | app/Http/Scripts/microscopio.py:343-354 | the user the launcher puts in the environment is read back with the same id, and with the launcher's name or the default name |
| Capture.FindPatientByCpf | app/Http/Scripts/microscopio.py:39-46 | a query is made exactly when the CPF has a digit; the query string is the CPF's digits and nothing else, and the patient found is the table's answer for it; with no query there is no patient |
| Capture.FindPatientByCpfQuery | app/Http/Scripts/microscopio.py:40 | the query holds exactly the characters of the CPF that are digits, in their order |
| Capture.DigitsOnlyKeepsDigits | app/Http/Scripts/microscopio.py:40-45 | a CPF made only of digits is looked up as typed, and an empty one makes no query |
| Capture.FormattedCpf | app/Http/Scripts/microscopio.py:40-45 | a CPF written `ddd.ddd.ddd-dd` is looked up by its digits alone, and the patient found is the one with those digits |
| Capture.MarginIsTwoPixels | app/Http/Scripts/microscopio.py:150-151 | the 0.2 mm margin is 2 pixels at the app's scale |
| Capture.Roi | app/Http/Scripts/microscopio.py:248-253 | the margin's region never leaves the frame |
| Capture.RoiCoversBox | app/Http/Scripts/microscopio.py:249-252 | for a box inside the frame, the region contains the box |
| Capture.RoiAwayFromEdges | app/Http/Scripts/microscopio.py:249-252 | away from the frame's edges, the region is the box grown by the margin on every side |
| Capture.FrameSize | app/Http/Scripts/microscopio.py:219 | the frame is cut to at most 640 by 480 pixels, each side kept when smaller |
| Capture.Microscope.constructor | app/Http/Scripts/microscopio.py:140-199 | the app starts with the signed-in user, no width, height or margin verdict, and an empty form |
| Capture.Microscope.UpdateVideo | app/Http/Scripts/microscopio.py:212-263 | no frame: the app stops and the state stays; otherwise the state is cleared and, for a dark object, set from its box in millimetres with the margin verdict of its border strips; the three values are present together, and the form is not touched |
| Capture.CaptureOutcome | app/Http/Scripts/microscopio.py:280-322 | for a removed sample, a blank CPF and an unknown CPF are refused with their messages; otherwise the AI service is asked as the measurements say, and the sample is stored, for the patient found (none when not removed), with the selected sizes, the annotation and the AI answer, exactly when neither the AI call nor the insert raises; an exception from the insert comes after the success message, one from the AI call before it |
| Capture.Microscope.CaptureAndSave | app/Http/Scripts/microscopio.py:280-322 | the button's result is Capture.CaptureOutcome of the form and the measurements as they were; the measurements stay; the form is cleared exactly when the sample is stored, and kept after a refusal or an exception |
| Capture.RemovedSampleKeepsPatient | app/Http/Scripts/microscopio.py:104-106 | a stored capture of a removed sample always has the patient column |
| Measurement.Widths | app/Http/Scripts/microscopio.py:66 | one width per box, the box's pixel width times the horizontal scale |
| Measurement.Heights | app/Http/Scripts/microscopio.py:67 | one height per box, the box's pixel height times the vertical scale |
| Measurement.Kept | app/Http/Scripts/microscopio.py:64-71 | the boxes with neither side under 2 mm, in contour order; Measurement.KeptLarge, Measurement.KeptAppend and Measurement.KeptAllLarge state it |
| Measurement.KeptAppend | app/Http/Scripts/microscopio.py:64-71 | one more contour adds its box to the kept boxes exactly when it passes the size test |
| Measurement.KeptLarge | app/Http/Scripts/microscopio.py:68-69 | every kept box passes the size test |
| Measurement.Measure | app/Http/Scripts/microscopio.py:63-71 | the lists hold the millimetre sizes of exactly the boxes with neither side under 2 mm, in contour order, each at least 2 mm |
| Measurement.SortDesc | app/Http/Scripts/microscopio.py:73-74 | sorting keeps every size, each as often as before |
| Measurement.SortDescSorted | app/Http/Scripts/microscopio.py:73-74 | the sorted list is largest first |
| Measurement.SecondLargest | app/Http/Scripts/microscopio.py:73-76 | index 1 of the descending sizes, else index 0, else 0; Measurement.SecondLargestMeaning characterises it without the sort |
| Measurement.Selected | app/Http/Scripts/microscopio.py:63-76 | the stored width and height: the second largest of the kept widths and, separately, of the kept heights; Measurement.SizesFromDifferentObjects shows they can come from different boxes |
| Measurement.SecondOfDescending | app/Http/Scripts/microscopio.py:75-76 | on a descending list of two or more sizes, at most one size is above the second and at least two are not below it |
| Measurement.SecondLargestMeaning | app/Http/Scripts/microscopio.py:73-76 | with two or more sizes the stored value is one of them with at most one size larger and two at least as large (the second largest counting repeats); one size gives that size; none gives 0 |
| Measurement.KeptAllLarge | app/Http/Scripts/microscopio.py:68-71 | boxes that all pass the test are all kept, in order |
| Measurement.SortThreeDescending | app/Http/Scripts/microscopio.py:73 | three sizes already in descending order stay as they are |
| Measurement.SortThreeRotated | app/Http/Scripts/microscopio.py:73 | smallest, largest, middle sorts to largest, middle, smallest |
| Measurement.SizesFromDifferentObjects | app/Http/Scripts/microscopio.py:73-76 | widths and heights are ranked separately, so the stored pair can be a width and a height of two different objects, matching no single box |
| SampleInsert.PatientZero | app/Http/Scripts/microscopio.py:104 | a patient id of 0 is attached by the capture app's `is not None` test and dropped by the batch script's truth test; no test attaches a missing id |
| SampleInsert.Repeat | app/Http/Scripts/microscopio.py:108 | n copies of the string |
| SampleInsert.Names | app/Http/Scripts/microscopio.py:109 | one column name per column, in order |
| SampleInsert.PlaceholderCount | app/Http/Scripts/microscopio.py:108 | the placeholder list has exactly one `%s` per value |
| SampleInsert.Columns | app/Http/Scripts/microscopio.py:85-106 | the seven base columns, then the patient column when the version's test accepts the id; SampleInsert.ColumnsDistinct and SampleInsert.BuildInsert state it |
| SampleInsert.InsertSql | app/Http/Scripts/microscopio.py:107-109 | the statement names the columns and has exactly one `%s` marker per column, so one value fills each |
| SampleInsert.ColumnsDistinct | app/Http/Scripts/microscopio.py:85-106 | no column is named twice in either version's list |
| SampleInsert.BuildInsert | app/Http/Scripts/microscopio.py:85-106 | seven columns, plus the patient's exactly when the version's test accepts the id; each value sits at its column's index |
| SampleInsert.MeasuredSample | app/Http/Scripts/microscopio.py:63-76 | the stored width and height are the selected second-largest sizes; the other fields are the inputs |
| SampleInsert.CaptureInsert | app/Http/Scripts/microscopio.py:49-115 | the capture app stores the selected sizes with the inserted columns aligned to their values; a failure is raised to the caller |
| SampleInsert.FixedColumnsAligned | app/Http/Scripts/controllers/Inserir_print.py:43-49 | the controller module's value tuple lines up with its eight fixed columns |
| SampleInsert.ControllerInsert | app/Http/Scripts/controllers/Inserir_print.py:6-55 | the controller module always binds eight values, the patient id last (NULL when absent); a failure is rolled back and not raised |
| SampleInsert.BatchInsert | app/Http/Scripts/mensureScript/inserir_print.py:7-43 | the batch script adds the patient column only for a truthy id, aligns every value with its column and re-raises a failure |
| SampleInsert.HeightAndWidthAligned | app/Http/Scripts/microscopio.py:85-102 | in every version the second and third columns are height and width and carry the height and the width |
| Text.DigitsOnly | app/Http/Scripts/microscopio.py:40 | the result holds only digits (with `FilterMembership`, exactly the input's digits in order) |
| Text.Strip | app/Http/Scripts/mensureScript/process_image_file.py:26 | the result neither starts nor ends with Python white space, and text that already does not is unchanged |
| Text.StripBy | app/Http/Scripts/mensureScript/process_image_file.py:26 | the result neither starts nor ends with a stripped character, and text that already does not is unchanged |
| Text.StripByEmpty | app/Http/Controllers/ProfileController.php:91-95 | stripping leaves nothing exactly when every character is stripped |
| Text.StripByPadded | app/Http/Controllers/ProfileController.php:93 | padding on both sides of unpadded text is removed exactly |
| Text.TrimLeft | app/Http/Scripts/mensureScript/process_image_file.py:26 | only leading stripped characters are removed |
| Text.TrimRight | app/Http/Scripts/mensureScript/process_image_file.py:26 | only trailing stripped characters are removed |
| Text.TrimLeftSkips | app/Http/Scripts/mensureScript/process_image_file.py:26 | leading padding does not change what trimming the left leaves |
| Text.TrimRightSkips | app/Http/Scripts/mensureScript/process_image_file.py:26 | trailing padding does not change what trimming the right leaves |
| Text.PhpTrimChar | app/Http/Controllers/ProfileController.php:91-95 | the characters PHP's `trim()` removes: space, tab, LF, CR, NUL and VT; Profile.RequiredStringTrim uses it |
| Text.PhpFilterInt | app/Http/Controllers/ProfileController.php:93 | an accepted value fits in a 64-bit integer |
| Text.PhpIntLiteral | app/Http/Controllers/ProfileController.php:93 | an accepted literal fits in a 64-bit integer |
| Text.PhpFilterIntOfIntToString | app/Http/Controllers/ProfileController.php:93 | PHP's rendering of a 64-bit integer is accepted with its own value |
| Text.PhpFilterIntIgnoresPadding | app/Http/Controllers/ProfileController.php:93 | spaces, tabs and line breaks around a value do not change the result |
| Text.PhpFilterIntDigits | app/Http/Controllers/ProfileController.php:93 | digits without a leading zero are accepted with their value |
| Text.PhpFilterIntMinus | app/Http/Controllers/ProfileController.php:93 | a minus sign and digits without a leading zero are accepted with the negated value |
| Text.PhpFilterIntPlus | app/Http/Controllers/ProfileController.php:93 | a plus sign and digits without a leading zero are accepted with their value |
| Text.PhpIntLiteralMinus | app/Http/Controllers/ProfileController.php:93 | without padding, a minus sign and digits read as the negated value |
| Text.PhpIntLiteralPlus | app/Http/Controllers/ProfileController.php:93 | without padding, a plus sign and digits read as their value |
| Text.NatToString | app/Http/Scripts/microscopio.py:354 | a natural renders as one or more digits without a leading zero |
| Text.IntToString | app/Http/Controllers/MicroscopioController.php:61 | an integer renders as an optional minus sign, then digits; the sign appears exactly for negatives |
| Text.ParseNatToString | app/Http/Scripts/microscopio.py:349 | a rendered natural reads back as itself |
| Text.PythonInt | app/Http/Scripts/microscopio.py:349 | Python's `int()` on a string: whitespace stripped, then an optionally signed decimal; Capture.BlankIdRefused and Text.PythonIntOfIntToString state it |
| Text.PythonIntOfIntToString | app/Http/Scripts/microscopio.py:349 | `int()` of a rendered integer gives back that integer |
| Text.UpperAscii | app/Http/Controllers/ProfileController.php:123 | upper-casing keeps the length and upper-cases each character |
| Text.UpperAsciiIdempotent | app/Http/Controllers/ProfileController.php:123 | upper-casing twice is upper-casing once |
| Text.RemoveChar | app/Http/Scripts/mensureScript/process_image_file.py:26 | the result holds exactly the input's characters other than the removed one |
| Seqs.FilterIsSubsequence | resources/js/Components/SamplesTable.jsx:51 | filtering keeps elements in order and only drops elements |
| Seqs.FilterMembership | resources/js/Components/SamplesTable.jsx:51 | an element is kept exactly when it is in the input and passes the test |
| Seqs.FilterKeepsAll | resources/js/Components/NewPatientModal.jsx:73 | filtering a sequence whose every element passes returns it unchanged |
| Seqs.CountPermutation | resources/js/Components/SamplesTable.jsx:62-79 | two arrangements of the same elements have equal counts for any test |

## Left out

- Image processing with OpenCV is not modelled, because it is a foreign library working on floating-point pixels. This covers thresholding, contours, masks, `minAreaRect`, image encoding and decoding, and `analisar_imagem_colorida`. Contour bounding boxes, the margin verdict and the analyzer's result are inputs.
- `round(…, 2)` on the stored measurements is not modelled: sizes are exact reals.
- The AI service (prompt building, the Gemini call and its formatting) is not modelled. Its answer is an input.
- Database connections, raw SQL execution, `conectar_banco`, the reconnect logic and `Login.py` are not part of this model. Tables are values, and whether a statement succeeds is an input.
- The Tk/customtkinter windows, the camera loop, the background save thread and `main.py` are not modelled, because they are UI and concurrency. The capture app's state is a class whose methods receive each frame's result.
- The launcher's process handling is not modelled: `Process::start`, `waitUntil`, the timeout and the appends to the log file are operating-system plumbing. The process outcome is an input. The wait is not a background one: `waitUntil`'s callback always returns false, so `run` answers only after the capture app exits.
- `argparse` errors for a non-integer `--user-id` are not modelled: the option reaches `parse_user` already converted, or absent.
- Endpoints that the routes name but no controller defines (`upload`, `show`, `imagem`) are not modelled, and neither is the dashboard's "+ Nova amostra" button, which posts to a route that does not exist.
- `exportPDF` (`SamplesTable.jsx`, built on jsPDF) is not modelled, because it is document layout in a foreign library.
- `CameraCapture.jsx` (the browser camera, `fetch` and `FormData`) is not modelled, because it is browser media I/O.
- The CSV file's download (the `Blob`, the link and its file name dated by the clock) is not modelled. `CsvExport.Export` yields the file's text.
- `Intl.DateTimeFormat` in the CSV export is a parameter. The time difference `new Date(a) - new Date(b)` is taken between the time values the cells carry.
- `normalize` (NFD decomposition, diacritic stripping, locale lower-casing) is a parameter of the filter.
- `Number(v)`, `Boolean(v)`, `String(v)` and `new Date(v)` on table cells are data that each cell carries, not computations made from the text.
- React rendering, `useMemo`, asynchronous `setState` and the Inertia post are not modelled as such. `PatientForm.NewPatientForm.Submit` folds the post and its `onSuccess`/`onError` callback into one step whose server reply is an input.
- The browser's `maxLength` is modelled in `PatientForm.CpfInput` and `ProfileForm.LicenseStateInput` as keeping the first characters of what was typed. It counts UTF-16 code units, and the model counts characters.
- JavaScript's `toUpperCase` in the license-state field is a parameter of `ProfileForm.LicenseStateInput` (the full Unicode case mapping, which may turn one character into several). `ProfileForm.LicenseStateInputAscii` instantiates it with the ASCII mapping.
- The sort in place on a copied array (`copy.sort`) is modelled by its result: a stable insertion sort on a sequence (`Sorting.SortBy`). The `filtered` sequence it starts from is a value, so it is never changed.
- `TableSort.StrCmp`: stands in for `localeCompare` by comparing character codes, because locale collation is not available. The properties proved (antisymmetry, equality exactly on equal strings, transitivity) are the ones a collation also has.
- `PatientForm.Validate`: takes today's date as a parameter instead of the UTC date that `new Date().toISOString()` yields.
- `ProfileForm.ToNumber`: models `Number(s)` only for strings that are blank or an optionally signed decimal integer once JavaScript's white space is trimmed. A value such as "1.0", "1e0" or "0x1", which `Number` reads as 1, converts to no number here and so falls under `Registro`.
- `Text.DigitsOnly`: keeps the ASCII digits 0 to 9. This is exact for the `/\D/g` filter of the CPF field, which has no `u` flag. Python's `str.isdigit` also accepts other Unicode digits (other scripts' decimal digits, superscripts), which the model drops.
- `Text.PythonInt` (used by `Capture.ParseUser` and `ProcessImage.UserIdArg`): accepts ASCII white space, one sign and ASCII digits. Python's underscores between digits and its non-ASCII digits and spaces are not modelled.
- `Text.Strip`: strips the ASCII white space Python recognises (including U+001C to U+001F), not the non-ASCII spaces (U+0085, U+00A0, U+2000 and others) that `str.strip` also removes.
- `Profile.Validate`: the e-mail syntax rule is a parameter (`isEmail`). Laravel's handling of a value that is neither a string nor an integer (an array, a float, a boolean) is reduced to a missing field. Laravel's default global middleware `TrimStrings` and `ConvertEmptyStringsToNull` run before the validator; `Validate` takes the request as the validator receives it, after them, and the middleware themselves (which turn " Ana " into "Ana" and "  " into null) are not modelled.
- `Profile.AfterUpdate`: stores the role as its integer value, the value MySQL stores when `update` assigns the validated string (such as "+2") to the integer column CARGO_ID_CARGO.
- `Capture.Microscope.CaptureAndSave`: the message boxes, the PNG file that `inserir_print` writes and the reconnection in `garantir_conexao` (after which `conectar_banco` exits the app when the database cannot be reached) are not modelled. The AI call and the insert either return or raise (`ai`, `insertSucceeds`); a raised result records whether the success message had already been shown.
- `ProcessImage.Run`: the batch script's own `conectar_banco` module is not part of this model. Both visible versions of it (app/Http/Scripts/microscopio.py:34-36 and app/Http/Scripts/providers/DataBaseConnection.py:26-28) answer a `pymysql.MySQLError` with `exit(1)`, and the model assumes the batch one does the same: a failed connection ends the script with status 1, not with the handler's 10.
- Logging and console output are not modelled: `Log::info`, `Log::error` and `Log::debug` in MicroscopioController.php, the `print(..., file=sys.stderr)` and `traceback.print_exc` calls in process_image_file.py, and the `print` calls in microscopio.py. None of them changes a result or a stored value.
- `Profile.Database.Update`: the statements that may fail are given as a set. A failure is modelled by the rollback it causes, and the exception that carries it is not modelled.
- `Launcher.DiagResponse`: only the choice of message and of error or success is modelled. The redirect back and the session flash (`withErrors`, `with('success', …)`) are not.

## Findings

| source | as written | input that shows it | evidently intended | confidence | as-written member | corrected member |
|---|---|---|---|---|---|---|
| resources/js/Components/SamplesTable.jsx:72-77 | the text fallback is guarded by `Number.isNaN(new Date(v))`, which is false for every Date object; for two values that are neither numbers nor valid dates the comparator returns `NaN`, which the sort treats as a tie | sorting the names "Bruno", "Ana" ascending leaves "Bruno" first | test the date's time value (`isNaN(getTime())`) and fall back to `localeCompare`, so text columns sort | not executed | TableSort.AsWrittenLeavesTextUnsorted | TableSort.SortedRowsOrdered |
| app/Http/Scripts/mensureScript/process_image_file.py:30 | the analyzer's result is unpacked into three names, but `analisar_imagem_colorida` returns two values | any existing, decodable image: the unpacking raises `ValueError`, so the run answers 10 and stores nothing | unpack the width and the height, and keep the decoded frame | not executed | ProcessImage.ProcessImageFile | ProcessImage.ProcessImageFileIntended |
