/**
 * The table's columns and the CSV export: four fixed columns followed by one
 * column per round, one data row per student keyed by column key, and a header
 * list cut to the first four columns.
 */
module Csv {
  import opened Entities
  import opened ReportView

  /** A table column: its title, the student property it shows, and whether it is highlighted as the current round. */
  datatype Column = Column(title: string, key: string, highlighted: bool)

  /** A CSV header entry: the column's title (its label) and its key. */
  datatype Header = Header(caption: string, key: string)

  /** The four fixed columns: name, GitHub handle, mentor and total score. */
  function StaticColumns(): (cols: seq<Column>)
    ensures |cols| == 4
    ensures cols[0].key == "realName" && cols[1].key == "github" && cols[2].key == "mentor" && cols[3].key == "score"
    ensures cols[0].title == "Name" && cols[1].title == "GitHub" && cols[2].title == "Mentor" && cols[3].title == "Score"
    ensures forall c :: 0 <= c < 4 ==> !cols[c].highlighted
  {
    [Column("Name", "realName", false), Column("GitHub", "github", false),
     Column("Mentor", "mentor", false), Column("Score", "score", false)]
  }

  /** The column of one round: titled and keyed by the round's name, highlighted while the round is current. */
  function RoundColumn(round: Round, now: int): Column {
    Column(round.name, round.name, IsCurrentRound(round, now))
  }

  /** The loop that pushes one column per round, in the order of the rounds. */
  method BuildRoundColumns(rounds: seq<Round>, now: int) returns (cols: seq<Column>)
    ensures |cols| == |rounds|
    ensures forall j :: 0 <= j < |rounds| ==>
      && cols[j].key == rounds[j].name
      && cols[j].title == rounds[j].name
      && (cols[j].highlighted <==> rounds[j].startDate <= now < rounds[j].endDate)
  {
    cols := [];
    var j := 0;
    while j < |rounds|
      invariant 0 <= j <= |rounds|
      invariant |cols| == j
      invariant forall k :: 0 <= k < j ==> cols[k] == RoundColumn(rounds[k], now)
    {
      cols := cols + [RoundColumn(rounds[j], now)];
      j := j + 1;
    }
  }

  /** A property of a student object as the CSV export reads it. */
  datatype Value = TextValue(s: string) | NumberValue(n: int) | ReportValue(report: Report) | Undefined

  /** The student's own fields, which take precedence over a cell of the same name. */
  const FIELD_KEYS: set<string> := {"name", "realName", "github", "mentor", "score"}

  /** `student[key]`: one of the student's own fields, else the cell of that round, else undefined. */
  function Lookup(st: Student, key: string): (v: Value)
    ensures v.Undefined? <==> key !in FIELD_KEYS && key !in st.cells
    ensures v.ReportValue? <==> key !in FIELD_KEYS && key in st.cells
    ensures v.ReportValue? ==> v.report == st.cells[key]
    ensures key == "name" ==> v == TextValue(st.name)
    ensures key == "realName" ==> v == TextValue(st.realName)
    ensures key == "github" ==> v == TextValue(st.github)
    ensures key == "mentor" ==> v == TextValue(st.mentor)
    ensures key == "score" ==> v == NumberValue(st.score)
  {
    if key == "name" then TextValue(st.name)
    else if key == "realName" then TextValue(st.realName)
    else if key == "github" then TextValue(st.github)
    else if key == "mentor" then TextValue(st.mentor)
    else if key == "score" then NumberValue(st.score)
    else if key in st.cells then ReportValue(st.cells[key])
    else Undefined
  }

  /** The keys of the columns. */
  function ColumnKeys(columns: seq<Column>): set<string> {
    set c | 0 <= c < |columns| :: columns[c].key
  }

  /** The header list: the columns' titles and keys, cut to the first four. */
  function CsvHeaders(columns: seq<Column>): (hs: seq<Header>)
    ensures |hs| == if |columns| < 4 then |columns| else 4
    ensures forall h :: 0 <= h < |hs| ==> hs[h] == Header(columns[h].title, columns[h].key)
  {
    var n := if |columns| < 4 then |columns| else 4;
    seq(n, h requires 0 <= h < n => Header(columns[h].title, columns[h].key))
  }

  /**
   * The export: one row per student in the given order, each mapping every
   * column key to the stringified property, and the headers of the first four
   * columns. `toCsv` is the page's stringify helper, not part of this model.
   */
  method InitCsv(students: seq<Student>, columns: seq<Column>, toCsv: Value -> string)
    returns (data: seq<map<string, string>>, headers: seq<Header>)
    ensures |data| == |students|
    ensures forall i :: 0 <= i < |data| ==> data[i].Keys == ColumnKeys(columns)
    ensures forall i, c :: 0 <= i < |data| && 0 <= c < |columns| ==>
      columns[c].key in data[i] && data[i][columns[c].key] == toCsv(Lookup(students[i], columns[c].key))
    ensures headers == CsvHeaders(columns)
  {
    data := [];
    var i := 0;
    while i < |students|
      invariant 0 <= i <= |students|
      invariant |data| == i
      invariant forall k :: 0 <= k < i ==> data[k].Keys == ColumnKeys(columns)
      invariant forall k, c :: 0 <= k < i && 0 <= c < |columns| ==>
        columns[c].key in data[k] && data[k][columns[c].key] == toCsv(Lookup(students[k], columns[c].key))
    {
      var row := map[];
      var c := 0;
      while c < |columns|
        invariant 0 <= c <= |columns|
        invariant row.Keys == ColumnKeys(columns[..c])
        invariant forall d :: 0 <= d < c ==> columns[d].key in row && row[columns[d].key] == toCsv(Lookup(students[i], columns[d].key))
      {
        assert ColumnKeys(columns[..c + 1]) == ColumnKeys(columns[..c]) + {columns[c].key} by {
          assert forall d :: 0 <= d < c ==> columns[..c + 1][d] == columns[..c][d];
        }
        row := row[columns[c].key := toCsv(Lookup(students[i], columns[c].key))];
        c := c + 1;
      }
      assert columns[..|columns|] == columns;
      data := data + [row];
      i := i + 1;
    }
    headers := CsvHeaders(columns);
  }

  /** Whatever the rounds, the export's headers are the four fixed columns. */
  lemma CsvHeadersAreStatic(roundColumns: seq<Column>)
    ensures CsvHeaders(StaticColumns() + roundColumns) == CsvHeaders(StaticColumns())
    ensures |CsvHeaders(StaticColumns() + roundColumns)| == 4
    ensures forall h :: 0 <= h < 4 ==>
      CsvHeaders(StaticColumns() + roundColumns)[h] == Header(StaticColumns()[h].title, StaticColumns()[h].key)
  {
    var cols := StaticColumns() + roundColumns;
    assert forall h :: 0 <= h < 4 ==> cols[h] == StaticColumns()[h];
  }

  /**
   * A student that has a cell for every round column reads a report in each of
   * them, never `undefined`, unless a round is named after one of the student's
   * own fields.
   */
  lemma RoundCellsAreReports(st: Student, rounds: seq<Round>, now: int, j: nat)
    requires j < |rounds|
    requires RoundNames(rounds) <= st.cells.Keys
    requires rounds[j].name !in FIELD_KEYS
    ensures Lookup(st, RoundColumn(rounds[j], now).key) == ReportValue(st.cells[rounds[j].name])
  {
    assert rounds[j].name in RoundNames(rounds);
  }
}
