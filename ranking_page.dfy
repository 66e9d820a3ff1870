/**
 * What the page holds once its fetches resolve: the sorted students, the
 * reports, the program, the columns (four fixed, then one per round) and the
 * CSV rows and headers derived from them.
 */
module RankingPage {
  import opened Wrappers
  import opened Entities
  import ReportView
  import opened ScoreSort
  import opened Join
  import opened Csv

  datatype PageState = PageState(
    students: seq<Student>,
    reports: seq<Report>,
    columns: seq<Column>,
    program: Program,
    csvData: seq<map<string, string>>,
    csvHeaders: seq<Header>)

  lemma ColumnKeysOfPage(roundColumns: seq<Column>, rounds: seq<Round>)
    requires |roundColumns| == |rounds|
    requires forall j :: 0 <= j < |rounds| ==> roundColumns[j].key == rounds[j].name
    ensures ColumnKeys(StaticColumns() + roundColumns) == ColumnKeys(StaticColumns()) + RoundNames(rounds)
  {
    var cols := StaticColumns() + roundColumns;
    forall k | k in ColumnKeys(StaticColumns()) + RoundNames(rounds)
      ensures k in ColumnKeys(cols)
    {
      if k in RoundNames(rounds) {
        var j :| 0 <= j < |rounds| && rounds[j].name == k;
        assert cols[4 + j].key == k;
      } else {
        var c :| 0 <= c < 4 && StaticColumns()[c].key == k;
        assert cols[c].key == k;
      }
    }
    forall k | k in ColumnKeys(cols)
      ensures k in ColumnKeys(StaticColumns()) + RoundNames(rounds)
    {
      var c :| 0 <= c < |cols| && cols[c].key == k;
      if c >= 4 {
        assert rounds[c - 4].name == k;
      } else {
        assert StaticColumns()[c].key == k;
      }
    }
  }

  /**
   * The page's mount: build the round columns, run the join, append the round
   * columns to the fixed ones and derive the CSV data. A report naming an unknown
   * student leaves the page without a state, as the failed callback does.
   */
  method LoadRanking(
    students: seq<Student>, reports: seq<Report>, rounds: seq<Round>, program: Program,
    now: int, toCsv: Value -> string)
    returns (r: Result<PageState, JoinError>)
    ensures r.Ok? <==> AllResolved(reports, Names(students))
    ensures r.Err? ==> FirstUnresolved(reports, Names(students), r.error.report)
    ensures r.Ok? ==>
      var page := r.value;
      && page.students == Table(students, reports, rounds, program)
      && |page.students| == |students|
      && page.reports == reports && page.program == program
      && |page.columns| == 4 + |rounds|
      && page.columns[..4] == StaticColumns()
      && (forall j :: 0 <= j < |rounds| ==> page.columns[4 + j] == RoundColumn(rounds[j], now))
      && |page.csvData| == |students|
      && (forall i :: 0 <= i < |students| ==> page.csvData[i].Keys == ColumnKeys(StaticColumns()) + RoundNames(rounds))
      && (forall i, c :: 0 <= i < |students| && 0 <= c < |page.columns| ==>
            page.columns[c].key in page.csvData[i] &&
            page.csvData[i][page.columns[c].key] == toCsv(Lookup(page.students[i], page.columns[c].key)))
      && page.csvHeaders == CsvHeaders(StaticColumns())
  {
    var roundColumns := BuildRoundColumns(rounds, now);
    var joined := JoinTable(students, reports, rounds, program);
    if joined.Err? {
      return Err(joined.error);
    }
    var table := joined.value;
    assert |table| == |students| by {
      SortByScoreSpec(Joined(students, reports, rounds, program));
    }
    var columns := StaticColumns() + roundColumns;
    assert forall j :: 0 <= j < |rounds| ==> roundColumns[j] == RoundColumn(rounds[j], now);
    ColumnKeysOfPage(roundColumns, rounds);
    CsvHeadersAreStatic(roundColumns);
    var csvData, csvHeaders := InitCsv(table, columns, toCsv);
    r := Ok(PageState(table, reports, columns, program, csvData, csvHeaders));
  }

  // Two rounds; Alice scored 3 and 5, Bob -1 in the first round only.
  const EXAMPLE_PROGRAM := Program("p", "Program")
  const EXAMPLE_ROUNDS := [Round("R1", 0, 7), Round("R2", 7, 14)]
  const EXAMPLE_STUDENTS := [
    Student("alice", "Alice", "alice-gh", "mentor", 0, map[]),
    Student("bob", "Bob", "bob-gh", "mentor", 0, map[])]
  const EXAMPLE_REPORTS := [
    Report("admin", "a1", "p", "R1", "alice", "done", 3),
    Report("admin", "a2", "p", "R2", "alice", "done", 5),
    Report("admin", "b1", "p", "R1", "bob", "late", -1)]

  lemma ExampleReportSums()
    ensures TotalFor(EXAMPLE_REPORTS, "alice") == 8
    ensures TotalFor(EXAMPLE_REPORTS, "bob") == -1
    ensures "R2" !in ReportCells(EXAMPLE_REPORTS, "bob")
  {
    var reports := EXAMPLE_REPORTS;
    var first, firstTwo := reports[..1], reports[..2];
    assert first == [reports[0]] && first[..0] == [] && firstTwo[..1] == first;
    assert reports[0].student == "alice" && reports[1].student == "alice";
    assert reports[2].student == "bob";
    assert "alice" != "bob" by {
      assert "alice"[0] != "bob"[0];
    }
    assert TotalFor(first, "alice") == TotalFor([], "alice") + 3 == 3;
    assert TotalFor(first, "bob") == TotalFor([], "bob") + 0 == 0;
    assert TotalFor(firstTwo, "alice") == TotalFor(first, "alice") + 5 == 8;
    assert TotalFor(firstTwo, "bob") == TotalFor(first, "bob") + 0 == 0;
    assert reports[..2] == firstTwo;
    ReportCellsSpec(reports, "bob", "R2");
  }

  lemma ExampleJoined()
    ensures AllResolved(EXAMPLE_REPORTS, Names(EXAMPLE_STUDENTS))
    ensures var joined := Joined(EXAMPLE_STUDENTS, EXAMPLE_REPORTS, EXAMPLE_ROUNDS, EXAMPLE_PROGRAM);
      && joined[0].name == "alice" && joined[0].score == 8
      && joined[1].name == "bob" && joined[1].score == -1
      && "R2" in joined[1].cells && joined[1].cells["R2"].text == ""
  {
    var ss, reports := EXAMPLE_STUDENTS, EXAMPLE_REPORTS;
    assert Names(ss) == {"alice", "bob"} by {
      assert ss[0].name == "alice" && ss[1].name == "bob";
    }
    assert ReceivesReports(ss, 0) && ReceivesReports(ss, 1);
    ExampleReportSums();
    JoinedRow(ss, reports, EXAMPLE_ROUNDS, EXAMPLE_PROGRAM, 0);
    JoinedRow(ss, reports, EXAMPLE_ROUNDS, EXAMPLE_PROGRAM, 1);
    assert EXAMPLE_ROUNDS[1].name == "R2";
  }

  /**
   * Alice totals 8 and leads, Bob totals -1, and Bob's second-round cell is an
   * unavailable placeholder.
   */
  lemma TwoStudentExample()
    ensures AllResolved(EXAMPLE_REPORTS, Names(EXAMPLE_STUDENTS))
    ensures var table := Table(EXAMPLE_STUDENTS, EXAMPLE_REPORTS, EXAMPLE_ROUNDS, EXAMPLE_PROGRAM);
      && |table| == 2
      && table[0].name == "alice" && table[0].score == 8
      && table[1].name == "bob" && table[1].score == -1
      && "R2" in table[1].cells
      && ReportView.GetTag(table[1].cells["R2"]) == ReportView.NotAvailable
  {
    ExampleJoined();
    var joined := Joined(EXAMPLE_STUDENTS, EXAMPLE_REPORTS, EXAMPLE_ROUNDS, EXAMPLE_PROGRAM);
    assert joined[..1] == [joined[0]] && joined[..1][..0] == [];
    assert SortByScore(joined[..1]) == [joined[0]];
    assert SortByScore(joined) == Insert(joined[1], [joined[0]]);
  }
}
