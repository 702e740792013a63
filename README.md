# SEC Form 5.07 Finder: verified model of the per-company loop

The Form 5.07 finder reads a batch of companies, or one CIK typed in by
hand. For each company it looks for an 8-K filing from 2024 that reports
item 5.07 (the shareholder-vote item). It writes one result row per
company: `Form_5.07_Available` set to `Yes`, `No`, `No CIK Found` or
`Error`, and `Form_5.07_Link` set to the filing's EDGAR index page, the
`NotFound.htm` fallback, `Not Available`, or None.

This project models the loop that produces those rows and proves what it
promises. There are four modules:

- `PyValues` (`py_values.dfy`) models the Python values the loop works with:
  - a cell is text or an integer;
  - an attribute is absent, None, or present with a value;
  - `not cik` is truthiness;
  - `f"{cik}"` is `Render`;
  - `code in text` is `ContainsText`.
- `EdgarLinks` (`edgar_links.dfy`) models the two links.
  - `StripDashes` is `accession_number.replace('-', '')`.
  - `IndexLink` and `NotFoundLink` build the links.
  - `SplitIndexLink` reads an index link back into its parts. It exists to state the round trip.
- `FilingScan` (`filing_scan.dfy`) models the scan over one company's filings.
  - `Examine` is one loop iteration, in Python's evaluation order.
  - `Scan` is the whole scan as a function.
  - `ScanFilings` is the loop itself, with `break`. It is proved equal to `Scan`.
- `FormChecker` (`form_checker.dfy`) models the rest of the loop.
  - `RowRecord` is the record built for one row.
  - `CheckCompanies` is the outer loop that appends one record per row. It is proved against `RowRecord` and `RequestedCiks`.
  - `ManualEntryRow` is the row built from a CIK typed in by hand.

The network call `Company(cik).get_filings(form="8-K")` is the parameter
`network: Cell -> FetchOutcome`. For a CIK it gives either the filings, in
the order the library returns them, or a failure. `CheckCompanies` also
returns `requested`, the CIKs it asked for, in order. That is how the model
states which rows cause a fetch.

What the loop does, stated as facts about the code:

- Each company gets at most one link: the first filing, in library order, that is selected. The item code `5.07` and the year prefix `2024` are fixed in the code (`ScanIsFirstStop`).
- The link's CIK segment is `f"{cik}"` of the cell as read.
  - A numeric cell is written as its decimal digits with no leading zeros (`RenderPositiveNumber`).
  - A text cell is copied verbatim, leading zeros and all; the CIK is not zero-padded.
- One iteration of the filing loop raises in exactly three cases (`ExamineRaises`):
  - `items` is None, so `'5.07' in filing.items` raises;
  - the items mention 5.07 and `filing_date` is None, so `.strftime` raises;
  - the items mention 5.07, the filing year is 2024, and `accession_number` is absent or None, so `.replace` raises.
- A raising filing turns the row into `Error` only when the scan reaches it, that is, when every earlier filing was passed over (`ErrorRecord`).
- Every other filing is passed over (`ExamineSelects`, `ExamineRaises`, `ExamineSkipsMissingAttributes`). That is a filing with no `items` attribute, or one whose `items` value is not None and does not mention 5.07. When the items do mention 5.07, it is also a filing with no `filing_date` attribute, or one whose year is not 2024.
- `'5.07' in items` is a substring test when `items` is a string (`ContainsText`). It is a membership test when `items` is a list.
- The error row writes Python None in the link column. The no-CIK row writes the text `Not Available`.
- Input rows are read under the keys `Issuer id` and `Analyst name`. Output records use `Issuer ID` and `Analyst Name`. The model names both `issuerId` and `analystName`.

## Model

| member | source | states |
|---|---|---|
| `PyValues.Digits` | sec_form_checker2.py:80 | `str(n)` for a natural number is non-empty, all decimal digits, and has no leading zero unless n is 0 |
| `PyValues.DigitsRoundTrip` | sec_form_checker2.py:80 | reading back the digits written for n gives n |
| `PyValues.RenderPositiveNumber` | sec_form_checker2.py:80 | a positive numeric CIK is written into the link as its decimal digits: no sign, no leading zero, and it reads back as the CIK |
| `PyValues.ContainsTextAt` | sec_form_checker2.py:74 | Python's `code in text` holds exactly when `code` occurs in `text` at some offset |
| `EdgarLinks.StripDashes` | sec_form_checker2.py:79 | removing dashes leaves no `-`, is no longer than the input, and keeps every other character exactly as many times as it occurs |
| `EdgarLinks.StripDashesAppend` | sec_form_checker2.py:79 | dash removal distributes over concatenation, so the kept characters stay in their original order |
| `EdgarLinks.StripDashesDashFree` | sec_form_checker2.py:79 | an accession number without dashes is unchanged, so stripping twice equals stripping once |
| `EdgarLinks.IndexLinkDashes` | sec_form_checker2.py:79-80 | every `-` in an index link lies in the CIK segment; none comes from the accession number or the fixed URL parts |
| `EdgarLinks.IndexLinkRoundTrip` | sec_form_checker2.py:80 | when the CIK text holds no `/`, an index link splits back into exactly that CIK and the dash-free accession number |
| `EdgarLinks.NotFoundIsNotIndexLink` | sec_form_checker2.py:89 | the `NotFound.htm` fallback link never reads as an index link |
| `FilingScan.FiledIn2024` | sec_form_checker2.py:76-77 | the `%Y-%m-%d` rendering of a date starts with `2024` if and only if the filing year is 2024 |
| `FilingScan.ExamineSelects` | sec_form_checker2.py:74-80 | a filing is selected if and only if it has items mentioning 5.07 and a 2024 date and an accession number, and then it is selected with that accession number; a filing meeting the condition is never passed over |
| `FilingScan.ExamineSkipsMissingAttributes` | sec_form_checker2.py:74-75 | a filing without an `items` attribute, or without a `filing_date` attribute while its items are not None, is passed over |
| `PyValues.Truthy` | sec_form_checker2.py:52 | `not cik` on a looked-up cell: None, `""` and 0 are falsy; its behaviour in the loop is stated by `NoCikRecord` and `RequestedCiksUsable` |
| `PyValues.Render` | sec_form_checker2.py:80 | `f"{cik}"` of a cell: text verbatim, an integer as `str(n)`; stated by `RenderPositiveNumber` and `Digits` |
| `EdgarLinks.IndexLink` | sec_form_checker2.py:79-80 | the selected filing's index link; its shape is stated by `IndexLinkRoundTrip` and `IndexLinkDashes` |
| `EdgarLinks.NotFoundLink` | sec_form_checker2.py:89 | the fallback link; `NotFoundIsNotIndexLink` states it never reads as an index link |
| `FilingScan.IsoDate` | sec_form_checker2.py:76 | `strftime('%Y-%m-%d')`; `FiledIn2024` states when it starts with `2024` |
| `FilingScan.Mentions` | sec_form_checker2.py:74 | `'5.07' in items` on a string or a list; `ContainsTextAt` states the string case |
| `FilingScan.Examine` | sec_form_checker2.py:74-81 | one iteration of the filing loop; `ExamineSelects`, `ExamineRaises` and `ExamineSkipsMissingAttributes` state when it selects, raises or passes |
| `FilingScan.ExamineRaises` | sec_form_checker2.py:74-79 | an iteration raises if and only if `items` is None, or the items mention 5.07 and either the date is None or the year is 2024 with no accession number |
| `FilingScan.Scan` | sec_form_checker2.py:73-81 | the filing loop with `break` as a function; stated by `ScanIsFirstStop`, `ScanAppend` and `ScanFilings` |
| `FormChecker.ManualEntryRow` | sec_form_checker2.py:43 | the single row built from a hand-typed CIK; stated by `ManualEntryRecord` |
| `FormChecker.RowRecord` | sec_form_checker2.py:47-101 | the record appended for one row; stated by `NoCikRecord`, `PassThroughFields`, `YesRecord`, `NoRecord` and `ErrorRecord` |
| `FormChecker.LabelDeterminesStatus` | sec_form_checker2.py:59-99 | the four `Form_5.07_Available` texts (`No CIK Found`, `Yes`, `No`, `Error`) are pairwise different, so the column text determines the outcome |
| `FilingScan.FirstNonPass` | sec_form_checker2.py:73-81 | the index of the first filing the scan does not pass over: every earlier filing is passed over, and the one at the index (if any) is not |
| `FilingScan.ScanIsFirstStop` | sec_form_checker2.py:73-81 | the scan finds nothing exactly when every filing is passed over; otherwise its outcome is the first non-passed filing's link, or an exception if that filing raises |
| `FilingScan.ScanFoundWithoutErrors` | sec_form_checker2.py:73-81 | when no filing raises, a link is found if and only if some filing is selectable, and it is the link of the first such filing |
| `FilingScan.ScanAppend` | sec_form_checker2.py:73-81 | filings after the deciding one never change the outcome (the `break`); after an all-passed prefix, the outcome is that of the rest |
| `FilingScan.ScanIgnoresPassed` | sec_form_checker2.py:73-77 | removing a passed-over filing from anywhere in the list leaves the outcome unchanged, so such a filing can never be selected |
| `FilingScan.ScanFilings` | sec_form_checker2.py:70-81 | the loop with `form_507_found`, `form_507_link` and `break` returns exactly the outcome of the first-stop scan |
| `FormChecker.CheckCompanies` | sec_form_checker2.py:46-101 | one record per input row, in input order, each the row's record; the CIKs fetched are exactly those of the rows with a usable CIK, in order |
| `FormChecker.NoCikRecord` | sec_form_checker2.py:52-62 | a record is `No CIK Found` if and only if the row's CIK is falsy; such a record has CIK `Unknown`, link `Not Available`, and does not depend on the network |
| `FormChecker.PassThroughFields` | sec_form_checker2.py:47-58 | company name, issuer id and analyst name are copied from the row, defaulting to `Unknown`, in every outcome; a usable CIK is copied as read |
| `FormChecker.YesRecord` | sec_form_checker2.py:83-90 | `Yes` if and only if the CIK is usable, the fetch succeeds and the first filing the scan stops at is selected; the link is then that filing's index link |
| `FormChecker.NoRecord` | sec_form_checker2.py:83-90 | `No` if and only if the CIK is usable, the fetch succeeds and every filing is passed over; the link is then the `NotFound.htm` page for the CIK |
| `FormChecker.ErrorRecord` | sec_form_checker2.py:66-101 | `Error` if and only if the CIK is usable and either the fetch fails or the first filing the scan stops at raises; the link is then None |
| `FormChecker.YesLinkShape` | sec_form_checker2.py:79-88 | a `Yes` link splits back into the row's CIK and some dash-free accession number, and all of its dashes lie in the CIK segment |
| `FormChecker.ManualEntryRecord` | sec_form_checker2.py:25-43 | a hand-typed CIK, which is non-empty whenever the loop runs, is always fetched; its record carries that CIK, `Manual Entry` and `N/A` twice |
| `FormChecker.RequestedCiksUsable` | sec_form_checker2.py:52-68 | every fetched CIK is usable, and there is at most one fetch per row |
| `FormChecker.RequestedSkipsMissing` | sec_form_checker2.py:52-68 | a row without a usable CIK causes no fetch: taking it out of the batch leaves the fetched CIKs unchanged |

## Left out

- The Streamlit interface is display only and is not modelled: title, sidebar, email input, file uploader, manual-entry widget, and the warning, error and progress messages (lines 7-22, 53, 64, 93, 105, 113-118).
- `set_identity` and `Company(cik).get_filings(form="8-K")` are network and library calls (lines 3, 15, 67-68). They are the `network` parameter. Because it is a function of the CIK, two rows with the same CIK get the same answer in the model.
- Reading the spreadsheet, stripping column names, `to_dict`, and the Excel export through `ExcelWriter` and `BytesIO` are file I/O (lines 30-40, 104-111). A row is given directly as its four dictionary entries.
- The missing `CIK` column path (lines 36-37) only shows an error. After it, line 46 would read an unbound `process_list`, so there is no record logic to model.
- Cell values other than text and integers are not modelled: pandas `NaN`, floats, booleans. So the model does not capture a float CIK column rendering `320193` as `320193.0` in a link.
- `items` values other than a string or a list are not modelled. Exceptions raised inside `hasattr` itself are not modelled either.
- `FilingScan.IsoDate` writes the year with four digits. The padding of `%Y` for years below 1000 depends on the platform. This does not affect the `2024` test (`FiledIn2024`).
- Day-of-month validity per month is not modelled: a day is any value from 1 to 31.
- The text of a caught exception (`e`, line 93) only goes to the display and is not modelled.
