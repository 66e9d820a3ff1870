# Ranking page model

A Dafny model of the data shaping done by the leaderboard page of casbin-oa
(`web/src/RankingPage.js`). Once the page has its students, reports, rounds and
program, it does the following:

- it joins them into one row per student, with a total score and one report cell per round;
- a placeholder report fills any missing cell;
- it sorts the rows by total, highest first;
- it builds the table's columns (four fixed ones, then one per round) and the CSV export;
- it drives a two-field report editor dialog.

The model has one module per concern:

- `Entities` (`entities.dfy`): programs, rounds, reports and students as datatypes. A
  student's per-round properties are a `cells: map<string, Report>`.
- `ReportView` (`report_view.dfy`): the placeholder report (`newReport`), the status
  tag (`getTag`), whether a round is current, and the field coercion and field
  write of the editor.
- `ScoreSort` (`score_sort.dfy`): the descending stable sort. It has a functional
  insertion sort with its properties and an in-place insertion sort on an array
  proved equal to it.
- `Join` (`join.dfy`): the join. It has one specification function per loop of
  `componentWillMount` and one method per loop, each working on an array. `JoinTable`
  runs them on its own copy of the fetched students and returns the sorted rows or
  the first report naming an unknown student.
- `Csv` (`csv.dfy`): the column list and `initCsv`.
- `ReportEditor` (`report_editor.dfy`): the dialog as a class with the fields
  `reportVisible` and `report`.
- `RankingPage` (`ranking_page.dfy`): the whole mount step and a worked two-student example.

Behaviour of the code that the model keeps:

- Totals sum every report naming the student. This includes several reports for
  one (round, student) pair and reports for rounds that are not in the round list.
  Such a report also adds a cell under its round name.
- `studentMap` keeps the last student of each name. With two students of one name,
  the later one receives all their reports; the earlier keeps total 0 and only
  placeholders.
- `handleReportOk` hides the dialog at once, whatever the outcome of the save.
- The CSV headers are always the first four columns (`realName`, `github`,
  `mentor`, `score`), however many round columns the data rows carry.

## Model

| member | source | states |
|---|---|---|
| `ReportView.NewReport` | web/src/RankingPage.js:111-122 | the placeholder has owner `"admin"`, empty text, score 0, the program, round and student names, and the name `report_<program>_<round>_<student>` |
| `ReportView.CurrentRoundBounds` | web/src/RankingPage.js:73-76 | a round is current from its start date (if it lasts at all) up to but excluding its end date, and never before its start |
| `ReportView.AtMostOneCurrent` | web/src/RankingPage.js:73-76 | of two rounds where one ends by the time the other starts, at most one is current at any instant |
| `ReportView.TagColor` | web/src/RankingPage.js:85-109 | N/A and error are drawn in the colour `error`, and no other tag is; warning, processing and success are drawn in `warning`, `processing` and `success` |
| `ReportView.NewReportDependsOnNames` | web/src/RankingPage.js:111-122 | a placeholder depends on the program, round and student only through their names |
| `ReportView.GetTag` | web/src/RankingPage.js:85-109 | each of the five categories holds exactly when its condition does: empty text gives N/A whatever the score; otherwise score ≤ 0 gives error, 1–2 warning, 3–4 processing, ≥ 5 success |
| `ReportView.PlaceholderIsNotAvailable` | web/src/RankingPage.js:85-90 | every placeholder report is tagged N/A, in the error colour |
| `ReportView.TagIsMonotone` | web/src/RankingPage.js:92-108 | among reports with text, a higher score never gets a lower category |
| `ReportView.ParseReportField` | web/src/RankingPage.js:302-307 | the value for key `score` becomes the parsed integer; any other key's value passes through unchanged |
| `ReportView.SetFieldGetField` | web/src/RankingPage.js:309-317 | writing a field reads back the written value and leaves every other field as it was |
| `ReportView.ParsedScoreFits` | web/src/RankingPage.js:302-317 | a score edit always yields an integer and changes the report's score alone |
| `ScoreSort.SortByScoreSpec` | web/src/RankingPage.js:177-179 | the sorted students are a permutation of the input with non-increasing scores, and students of equal score keep their input order |
| `ScoreSort.StableSortUnique` | web/src/RankingPage.js:177-179 | two lists sorted by score whose equal-score students appear in the same order are equal |
| `ScoreSort.StableSortIsSortByScore` | web/src/RankingPage.js:177-179 | any stable descending sort of the students, the engine's included, gives the modelled result |
| `ScoreSort.SortByScoreInPlace` | web/src/RankingPage.js:177-179 | sorting the array in place leaves it holding the stable descending sort of its old contents |
| `Join.NameIndexSpec` | web/src/RankingPage.js:154-158 | `studentMap` knows exactly the students' names; each name goes to the last student carrying it, and a student receives reports iff no later student shares its name |
| `Join.ResetAndIndex` | web/src/RankingPage.js:154-158 | the students loop sets every total to 0, changes nothing else, and builds `studentMap` |
| `Join.WithPlaceholders` | web/src/RankingPage.js:163-165 | adding placeholders changes a student's cells and nothing else |
| `Join.WithPlaceholdersSpec` | web/src/RankingPage.js:159-166 | after the rounds loop a student has a cell for every round name, holding that round's placeholder, and keeps its cells under other names |
| `Join.FillPlaceholders` | web/src/RankingPage.js:159-166 | the rounds loop gives every student every round's placeholder |
| `Join.ReportCellsSpec` | web/src/RankingPage.js:168-175 | a student has a report cell for a round iff some report of that round names it; the cell holds the last such report in the list |
| `Join.NoReportsTotalZero` | web/src/RankingPage.js:156-174 | a student named by no report totals 0 |
| `Join.OverlaySpec` | web/src/RankingPage.js:168-175 | the reports loop adds to the receiving student the scores of all reports naming it and cells holding their last reports per round; other students are untouched |
| `Join.LayReports` | web/src/RankingPage.js:168-175 | the reports loop does the overlay when every report's student is known, and otherwise stops at the first unknown one |
| `Join.PlacedRow` | web/src/RankingPage.js:154-166 | before the reports loop, a row has the student's fields, total 0, and a placeholder under every round name |
| `Join.JoinedRow` | web/src/RankingPage.js:154-175 | each joined row keeps its student's fields. If the student receives its name's reports (no later student shares the name), its total is the sum of the reports naming it and each round's cell is the last report of that round naming it, else the placeholder; otherwise its total is 0 and every round's cell is the placeholder |
| `Join.JoinedTotals` | web/src/RankingPage.js:168-175 | with distinct names, every student's total is the sum of the scores of all reports naming it |
| `Join.JoinTable` | web/src/RankingPage.js:154-179 | the join succeeds iff every report names a known student and then gives the sorted joined rows; otherwise it fails at the first report naming an unknown student |
| `Csv.StaticColumns` | web/src/RankingPage.js:28-70 | the four fixed columns are titled `Name`, `GitHub`, `Mentor`, `Score` (the CSV header labels) and keyed `realName`, `github`, `mentor`, `score`, none highlighted |
| `Csv.BuildRoundColumns` | web/src/RankingPage.js:131-152 | one column per round in round order, titled and keyed by the round's name, highlighted iff `start <= now < end` |
| `Csv.Lookup` | web/src/RankingPage.js:222-230 | `student[key]` reads the student's own field for `name`, `realName`, `github`, `mentor`, `score`; otherwise the cell of that name if there is one; it is `undefined` exactly when the key is neither a field nor a cell |
| `Csv.CsvHeaders` | web/src/RankingPage.js:232-235 | the headers are the first four columns' titles and keys, or all columns when there are fewer |
| `Csv.InitCsv` | web/src/RankingPage.js:220-241 | one data row per student in order; each row maps exactly the column keys, each to the stringified `student[key]`; headers as `CsvHeaders` |
| `Csv.CsvHeadersAreStatic` | web/src/RankingPage.js:232-235 | whatever the round columns, the headers are those of the four fixed columns: labels `Name`, `GitHub`, `Mentor`, `Score` with their keys |
| `Csv.RoundCellsAreReports` | web/src/RankingPage.js:225-227 | a round column of a joined row exports that round's report, never `undefined` |
| `ReportEditor.ReportModal.constructor` | web/src/RankingPage.js:16-25 | the dialog starts hidden with no report |
| `ReportEditor.ReportModal.OpenReport` | web/src/RankingPage.js:78-83 | opening shows the dialog and holds the given report |
| `ReportEditor.ReportModal.HandleReportOk` | web/src/RankingPage.js:289-294 | save submits the held report and hides the dialog, keeping the held report |
| `ReportEditor.ReportModal.HandleReportCancel` | web/src/RankingPage.js:296-300 | cancel hides the dialog and keeps the held report |
| `ReportEditor.ReportModal.UpdateReportField` | web/src/RankingPage.js:309-317 | the held report becomes a copy with the one field set to the parsed value; visibility is unchanged |
| `ReportEditor.OpenAndRate` | web/src/RankingPage.js:346-348 | after opening a cell's report and rating it, the dialog's report is the cell's report with the parsed score and nothing else changed; it is tagged N/A exactly when the cell's report has no text |
| `RankingPage.ColumnKeysOfPage` | web/src/RankingPage.js:181 | the page's column keys are the four fixed keys plus every round name |
| `RankingPage.LoadRanking` | web/src/RankingPage.js:124-189 | on success the page holds the sorted joined rows, the reports and the program. Its columns are the four fixed ones, then one per round. The CSV has one row per student keyed by every column key, and the headers of the fixed columns. It fails iff some report names an unknown student |
| `RankingPage.TwoStudentExample` | web/src/RankingPage.js:154-179 | with rounds R1, R2, Alice scoring 3 and 5 and Bob −1 in R1 only: Alice leads with 8, Bob has −1, and Bob's R2 cell is tagged N/A |

## Left out

- Rendering is not modelled: JSX, the antd `Table`, the tags' icons and labels, `Modal`, `Rate`, `ReactMarkdown`, the `CSVLink` button, links and column widths. It has no behaviour to state.
- The four backend fetches, the `Promise.all` barrier and the loading state are not modelled; they are asynchronous I/O. The fetched lists are parameters.
- The network call in `submitReportEdit` is not modelled, nor its notifications or the page reload; they are I/O. `HandleReportOk` returns the report it would submit.
- The clock is a parameter: `moment()` in `isCurrentRound` becomes the `now` argument, and round dates are integer instants.
- Csv.BuildRoundColumns: one clock reading `now` serves every round column, where the page reads the clock once per round. A boundary crossed during the loop could highlight two back-to-back rounds in the page; `ReportView.AtMostOneCurrent` holds for one reading only.
- A report's `createdTime` is not modelled; it is the clock reading taken when a placeholder is built.
- `Setting.toCsv` and `Setting.myParseInt` are function parameters (`toCsv`, `parseInt`), because their code is not part of this model. `Setting.deepCopy` is a value copy, which is all a datatype copy can be.
- The page puts round reports on the student object itself. A round named like a student field (`name`, `realName`, `github`, `mentor`, `score`) would overwrite that field. The model keeps reports in `cells`, apart from the fields, so such a clash is not modelled. `Csv.RoundCellsAreReports` excludes these names.
- Properties of the fetched student objects beyond name, real name, GitHub handle, mentor and score are not modelled; `Csv.Lookup` reads them as `undefined`.
- Scores are integers. The `+=` string concatenation JavaScript would do on a non-numeric score is not modelled.
- The sort is an insertion sort, not the engine's algorithm. `ScoreSort.StableSortIsSortByScore` shows every stable sort gives the same order, so nothing observable is lost.
- Join.JoinTable: on failure it returns an error and no rows. The page's callback throws part-way, leaving the fetched student objects partly updated, but nothing reads them afterwards.
- ReportView.SetField: the page would add a property for a key that names no report field, or store a value of another type (a number in a text field). The model leaves the report unchanged instead. A score edit always fits (`ReportView.ParsedScoreFits`).
- ReportEditor.OpenAndRate: reports are values, so the sharing between a table cell's report and the dialog's report after `openReport` is not modelled, nor the `deepCopy` in `updateReportField` that keeps an edit from writing through to the table. That the table's report stays as it is follows from value semantics alone and is not stated as a property.
- React's asynchronous batching of `setState` is not modelled; each dialog method's update takes effect at once.
- `object/round_test.go` is not part of this model: it is database seeding code built on library date arithmetic.
