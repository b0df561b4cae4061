# Anapath case ledger — a Dafny model

Anapath is a single-operator tool for a pathology laboratory. It keeps two
tables. The case ledger (`anapath_db.csv`) holds one row per analysis. The
late-case ledger (`late_cases.csv`) holds declarations of delayed analyses.
Three pages work on them:

- intake (`enregistrement`) registers a case under a generated dossier number
  `ANA-YYYYMMDD-NNN`;
- search (`recherche`) filters the case ledger and changes a case's status and
  pickup flag;
- late declaration (`retards`) records a delay and marks the matching cases
  "En retard".

This project models the record bookkeeping of those pages and proves what it
does. The modelled code is the body of `generate_dossier_number` and of the three
page handlers, with the widgets taken away. The state is a class `Store` with
two sequence fields, one per table. Every page reads a table whole and rewrites
it whole, so a save is an assignment to the field. Clock readings are
parameters: the date used for the dossier number, and the creation, update and
declaration timestamps.

Modules, one per component:

- `Text`: decimal rendering and zero padding (`f"{n:03d}"`), ASCII case
  folding, and the substring test.
- `Seqs`: row selection by a boolean mask (`df[mask]`), and subsequences.
- `Clock`: dates and timestamps, with their three text forms:
  `strftime("%Y%m%d")`, `str(date)` and `str(datetime)`.
- `Records`: the two row types, and the closed value sets of the status, pickup
  and delay-reason columns with their stored labels.
- `Dossier`: the dossier-number generator.
- `Cases`: intake, the search filter chain and the status update.
- `LateCases`: late declaration and its cross-link to the case ledger.
- `Anapath`: the `Store` class, whose methods perform each page action on the
  two tables.

Each page action is a `Store` method. Its `ensures` ties the new tables to a
function of the old ones. Lemmas then prove what the source promises about
those functions.

## Where the code departs from its stated intent

The model follows the code in each of these places:

- **The dossier counter is always 1.** The docstring of
  `generate_dossier_number` (app.py:103) promises a unique number built from
  the date and a counter, and the comment at app.py:108 says the counter counts
  today's analyses. The code compares the compact date `YYYYMMDD` with the
  start of each row's `created_at`. But `created_at` is written as
  `str(datetime.now())`, which is `YYYY-MM-DD HH:MM:SS…`. Index 4 is a digit in
  the first and a `-` in the second, so no row ever matches. Every number ends
  in `-001`, and two intakes on the same day get the same number
  (`Dossier.DossierSuffixAlwaysOne`, `Cases.SameDayIntakesShareDossier`).
- **The status update saves only the search view.** The button handler
  (app.py:267-271) rewrites the rows of the filtered frame and then saves that
  frame as the whole case ledger. Rows hidden by an active filter are dropped
  from the file (`Cases.StatusUpdateKeepsAllRowsIff`,
  `Cases.FilteredStatusUpdateLosesRow`). The page offers the update only under
  a non-empty view and takes the dossier number from the view's rows
  (app.py:215, app.py:248), so `Anapath.Store.UpdateStatus` requires the number
  to be in the view. `Cases.StatusUpdateOfAbsentDossier` describes lines
  268-271 taken on their own, for a number outside the view.
- **Identifiers can repeat.** A new case gets `id = row count + 1`. Intake and
  late declaration keep row i numbered i + 1 (`Cases.IntakeKeepsIdsSequential`,
  `LateCases.DeclarationKeepsIdsSequential`). After a filtered status update
  drops rows, the next intake reuses an identifier that is still in the table
  (`Cases.FilteredStatusUpdateLosesRow`).
- **A late declaration marks every matching case.** It sets every case row
  carrying the dossier number to "En retard", not just one row. It does not
  change those rows' `updated_at`. The back-reference is the identifier of the
  first matching row.

## Model

| member | source | states |
|---|---|---|
| `Text.Digits` | app.py:114 | the decimal text of n is one or more digits, with a leading '0' only for n = 0 |
| `Text.PadNumber` | app.py:114 | no contract of its own: `f"{n:03d}"` is padding of the decimal text; its shape and read-back are stated by `Text.PadNumberReadsBack` and `Text.PadNumberExact` |
| `Text.PadNumberExact` | app.py:114 | a number below 10^width pads to exactly width digits |
| `Text.ZeroPad` | app.py:114 | padding to a width keeps the whole text as a suffix, adds only '0's in front, and gives at least that width |
| `Text.PadNumberReadsBack` | app.py:114 | `f"{n:03d}"` is all digits, has max(3, number of digits) characters (never truncated), and parses back to n |
| `Text.ContainsIgnoreCase` | app.py:199-201 | no contract of its own: `str.contains(term, case=False)` as a substring test on folded text; characterised by `Text.ContainsAt` and `Text.ContainsIgnoreCaseOfFolded` |
| `Text.ContainsAt` | app.py:199-201 | the substring test holds exactly when the term occurs at some position of the field |
| `Text.ContainsIgnoreCaseOfFolded` | app.py:199-201 | the case-insensitive test gives the same answer for the term, its lower-case form and its upper-case form |
| `Seqs.Select` | app.py:198-212 | a mask selection keeps a value exactly when it is in the table and passes the mask; it never grows the table |
| `Seqs.SelectIsSubsequence` | app.py:198-212 | a mask selection keeps the stored order of the rows |
| `Seqs.SelectSelect` | app.py:204-212 | re-selecting a selection is one selection by the conjunction of the two masks |
| `Seqs.SelectKeepsAllIff` | app.py:198-212 | a selection keeps every row exactly when every row passes the mask |
| `Clock.CompactDate` | app.py:104 | no contract of its own: `strftime("%Y%m%d")`; characterised by `Clock.CompactDateReadsBack` and `Clock.CompactDateInjective` |
| `Clock.CompactDateReadsBack` | app.py:104 | `strftime("%Y%m%d")` is eight digits that parse back to year, month and day |
| `Clock.CompactDateInjective` | app.py:104 | different days have different compact dates |
| `Clock.IsoDateShape` | app.py:156-157 | `str(date)` is ten characters with '-' at indexes 4 and 7 |
| `Clock.TimestampText` | app.py:162-163 | no contract of its own: `str(datetime)`; its shape is stated by `Clock.TimestampTextShape` |
| `Clock.TimestampTextShape` | app.py:162-163 | `str(datetime)` starts with `str(date)` and a space, so it has a '-' at index 4 |
| `Clock.CompactDateNeverPrefixesTimestamp` | app.py:104-109 | no compact date is a prefix of any `str(datetime)` text |
| `Records.LabelsIdentify` | app.py:187-189 | two statuses (or pickup flags) have the same stored text exactly when they are the same value, so the filters' exact text match is an equality of values |
| `Dossier.CreatedWithPrefix` | app.py:109-110 | no contract of its own: the size of the mask selection of rows whose creation text starts with the prefix; `Dossier.NoRowCreatedWithCompactDate` shows it is 0 for the compact date |
| `Dossier.DayCounter` | app.py:107-112 | the counter is between 1 and one more than the number of rows; `Dossier.DayCounterIsOne` shows it is always 1 |
| `Dossier.NextDossierNumber` | app.py:102-114 | no contract of its own: characterised by `Dossier.DossierNumberReadsBack` and `Dossier.DossierSuffixAlwaysOne` |
| `Dossier.DossierNumberReadsBack` | app.py:102-114 | the number reads back as "ANA-", the compact date, '-', and the counter in at least three digits; the counter is 1 for an empty ledger and otherwise the count of prefix matches plus 1 |
| `Dossier.NoRowCreatedWithCompactDate` | app.py:104-110 | no row's creation text starts with today's compact date |
| `Dossier.DayCounterIsOne` | app.py:107-112 | the counter is 1 whatever the ledger holds |
| `Dossier.DossierSuffixAlwaysOne` | app.py:102-114 | the generated number is always "ANA-" + compact date + "-001" |
| `Cases.Intake` | app.py:146-164 | intake fails exactly when a required field is empty, and a new row is numbered row count + 1; the full row is stated by `Cases.IntakeOutcome` |
| `Cases.IntakeOutcome` | app.py:146-164 | intake fails exactly when last name, first name, phone or diagnostic is empty; otherwise the row has id = row count + 1, dossier "ANA-<date>-001", status "En cours", pickup "Non", the form's fields and the given timestamps |
| `Cases.IntakeKeepsIdsSequential` | app.py:151 | appending the intake row keeps row i numbered i + 1 |
| `Cases.SameDayIntakesShareDossier` | app.py:125 | two successive intakes on the same day get the same dossier number |
| `Cases.Search` | app.py:196-212 | the view never has more rows than the ledger; its contents are stated by `Cases.SearchIsSelection` and `Cases.SearchFinds` |
| `Cases.TextHit` | app.py:197-202 | no contract of its own: the term occurs, ignoring ASCII case, in the dossier number, the last name or the first name; its case-independence is `Cases.SearchIgnoresTermCase` |
| `Cases.SearchIsSelection` | app.py:196-212 | the filter chain (term, then status, then pickup, then reception date) equals one selection by the conjunction of the active criteria |
| `Cases.SearchFinds` | app.py:196-212 | the view keeps stored order, and a row is in it exactly when it is in the ledger and passes every active criterion |
| `Cases.SearchWithoutCriteria` | app.py:177-212 | an empty term with every filter on "Tous" and no date shows the whole ledger in order |
| `Cases.SearchIgnoresTermCase` | app.py:197-202 | the term in lower or upper case finds the same rows |
| `Cases.UpdateWhere` | app.py:268-270 | a masked assignment rewrites exactly the rows with the dossier number and keeps the others and the row count |
| `Cases.StatusUpdate` | app.py:267-271 | the saved table never has more rows than the ledger; its contents are stated by `Cases.StatusUpdateRewritesView` and `Cases.StatusUpdateKeepsAllRowsIff` |
| `Cases.StatusUpdateRewritesView` | app.py:267-271 | the saved table is the view, where rows of the selected dossier number carry the new status, pickup and time with every other field kept, and other rows are unchanged |
| `Cases.StatusUpdateKeepsAllRowsIff` | app.py:267-271 | the saved table has as many rows as the ledger exactly when every row passes the active criteria |
| `Cases.UnfilteredStatusUpdate` | app.py:267-271 | with no criterion active, only the rows of the selected dossier number change and no row is lost |
| `Cases.StatusUpdateOfAbsentDossier` | app.py:267-271 | lines 268-271 taken on their own: a dossier number absent from the view saves the view unchanged (the page never offers such a number) |
| `Cases.FilteredStatusUpdateLosesRow` | app.py:267-271 | filtering a two-row ledger by one row's status and updating it saves one row, and the next intake reuses that row's id |
| `LateCases.LinkedCaseId` | app.py:330-333 | the back-reference is empty exactly when no case row has the dossier number |
| `LateCases.Declaration` | app.py:307-325 | a declaration fails exactly when a required field is empty; otherwise it carries the form's dossier number and the back-reference; the full record is stated by `LateCases.DeclarationOutcome` |
| `LateCases.CasesAfterDeclaration` | app.py:328-334 | the case ledger keeps its row count; which rows change is stated by `LateCases.DeclarationMarksCases` |
| `LateCases.FirstMatch` | app.py:330-333 | the match is the first row with the dossier number, and there is none exactly when no row has it |
| `LateCases.DeclarationOutcome` | app.py:307-333 | a declaration fails exactly when the dossier number, last name, first name, phone or diagnostic is empty; otherwise it copies the form and links to the first matching case's id, or to nothing when there is none |
| `LateCases.DeclarationMarksCases` | app.py:328-334 | a valid declaration sets every case with its dossier number to "En retard" and keeps every other field and row; an invalid one changes nothing |
| `LateCases.OrphanDeclarationKeepsCases` | app.py:328-335 | a dossier number no case has leaves the case ledger unchanged and the back-reference empty |
| `LateCases.DeclarationKeepsIdsSequential` | app.py:332 | marking cases late keeps row i numbered i + 1 |
| `Anapath.Store.constructor` | app.py:72-91 | a first run starts with both tables empty |
| `Anapath.Store.GenerateDossierNumber` | app.py:102-114 | the number generated from the stored ledger is "ANA-" + compact date + "-001" |
| `Anapath.Store.RegisterCase` | app.py:146-168 | a valid form appends exactly one row numbered after the old rows and keeps the old rows; an invalid one changes nothing; the late-case ledger is untouched |
| `Anapath.Store.Find` | app.py:196-212 | the view is an order-preserving subsequence of the ledger holding exactly the rows that pass the criteria |
| `Anapath.Store.UpdateStatus` | app.py:215-271 | for a dossier number taken from the non-empty view, the ledger becomes the updated view, and keeps its row count exactly when every row passes the criteria; the late-case ledger is untouched |
| `Anapath.Store.DeclareLate` | app.py:307-339 | a valid form appends exactly one late record and marks the matching cases late; an invalid one changes neither table |

## Left out

- CSV storage (`init_dbs`, `load_db`, `save_db`): file I/O through pandas. A
  save is an assignment to the table's field and a load is a read of it. The
  lenient read, which returns an empty table when the file cannot be read, is
  not modelled.
- Streamlit: page setup, CSS, forms, widgets, messages, the sidebar (`main`),
  the row colouring `style_row`, the default choices of the status-update
  widgets (app.py:248-265) and the display of the late-case list
  (app.py:344-358). The late-case list is the `lateCases` field as stored.
- `run.py` only starts the Streamlit server.
- The clock: each reading of `datetime.now()` is a parameter of the action that
  makes it.
- Upper-casing of the last name and capitalising of the first name at input
  (app.py:132-133, app.py:290-291): the forms hold the names as stored.
- `pd.to_datetime` of the reception dates (app.py:211): dates are stored as
  structured values and compared for equality.
- `Text.ContainsIgnoreCase`: pandas' `str.contains` reads the term as a regular
  expression and folds case over all of Unicode. The model matches the term
  literally and folds ASCII letters only. The two agree on terms without
  regular-expression metacharacters and on ASCII names.
- Empty cells read back as NaN never match the search term (`na=False`). In the
  model such a field is the empty string, which contains no non-empty term.
- Dates are limited to Python's years 1 to 9999. The model always pads the year
  to four digits; `strftime("%Y")` before the year 1000 depends on the platform.
