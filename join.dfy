/**
 * The join the page runs once its four fetches resolve: every student's total is
 * reset to 0, every student gets a placeholder report for every round, the real
 * reports are laid over the placeholders by (round, student) and added to their
 * student's total, and the students are sorted by total, highest first.
 */
module Join {
  import opened Wrappers
  import opened Entities
  import opened ReportView
  import opened ScoreSort

  /** `studentMap`: each name to the index of the last student that carries it. */
  function NameIndex(ss: seq<Student>): map<string, nat> {
    if ss == [] then map[] else NameIndex(ss[..|ss| - 1])[ss[|ss| - 1].name := |ss| - 1]
  }

  /** Student `i` is the one the reports naming it go to: no later student has its name. */
  predicate ReceivesReports(ss: seq<Student>, i: nat)
    requires i < |ss|
  {
    forall j :: i < j < |ss| ==> ss[j].name != ss[i].name
  }

  /** `studentMap` knows exactly the students' names. */
  lemma {:induction false} NameIndexKeys(ss: seq<Student>)
    ensures NameIndex(ss).Keys == Names(ss)
  {
    if ss != [] {
      var ss', last := ss[..|ss| - 1], ss[|ss| - 1];
      NameIndexKeys(ss');
      assert ss == ss' + [last];
      NamesAppend(ss', last);
    }
  }

  /** `studentMap` sends every name to a student carrying it. */
  lemma {:induction false} NameIndexPoints(ss: seq<Student>)
    ensures forall name :: name in NameIndex(ss) ==>
      NameIndex(ss)[name] < |ss| && ss[NameIndex(ss)[name]].name == name
  {
    if ss != [] {
      var ss' := ss[..|ss| - 1];
      NameIndexPoints(ss');
      assert forall i :: 0 <= i < |ss'| ==> ss'[i] == ss[i];
    }
  }

  /** Student `i` is where `studentMap` sends its name exactly when no later student shares that name. */
  lemma {:induction false} NameIndexLast(ss: seq<Student>)
    ensures forall i :: 0 <= i < |ss| ==>
      ss[i].name in NameIndex(ss) && (NameIndex(ss)[ss[i].name] == i <==> ReceivesReports(ss, i))
  {
    if ss != [] {
      var ss', last := ss[..|ss| - 1], ss[|ss| - 1];
      NameIndexLast(ss');
      forall i | 0 <= i < |ss|
        ensures ss[i].name in NameIndex(ss) && (NameIndex(ss)[ss[i].name] == i <==> ReceivesReports(ss, i))
      {
        if i < |ss'| {
          assert ss'[i] == ss[i];
          if ss[i].name != last.name {
            assert ReceivesReports(ss, i) == ReceivesReports(ss', i) by {
              assert forall j :: i < j < |ss'| ==> ss'[j] == ss[j];
            }
          } else {
            assert !ReceivesReports(ss, i);
          }
        }
      }
    }
  }

  /** `studentMap` knows exactly the students' names and sends each to the last student carrying it. */
  lemma NameIndexSpec(ss: seq<Student>)
    ensures NameIndex(ss).Keys == Names(ss)
    ensures forall name :: name in NameIndex(ss) ==>
      NameIndex(ss)[name] < |ss| && ss[NameIndex(ss)[name]].name == name
    ensures forall i :: 0 <= i < |ss| ==> (NameIndex(ss)[ss[i].name] == i <==> ReceivesReports(ss, i))
  {
    NameIndexKeys(ss);
    NameIndexPoints(ss);
    NameIndexLast(ss);
  }

  /** The students with every total reset to 0. */
  function ResetScores(ss: seq<Student>): seq<Student> {
    seq(|ss|, i requires 0 <= i < |ss| => ss[i].(score := 0))
  }

  /** `st` after the round loop has given it a placeholder report for each round in turn. */
  function WithPlaceholders(st: Student, rounds: seq<Round>, program: Program): (r: Student)
    ensures r.(cells := st.cells) == st
  {
    if rounds == [] then st
    else
      var prev := WithPlaceholders(st, rounds[..|rounds| - 1], program);
      var round := rounds[|rounds| - 1];
      prev.(cells := prev.cells[round.name := NewReport(program, round, prev)])
  }

  /** Every student with its placeholders. */
  function AddPlaceholders(ss: seq<Student>, rounds: seq<Round>, program: Program): seq<Student> {
    seq(|ss|, i requires 0 <= i < |ss| => WithPlaceholders(ss[i], rounds, program))
  }

  /**
   * The placeholders add a cell for every round name and keep the cells already
   * there under other names; each round's cell is the placeholder for that round.
   */
  lemma {:induction false} WithPlaceholdersSpec(st: Student, rounds: seq<Round>, program: Program)
    ensures WithPlaceholders(st, rounds, program).cells.Keys == st.cells.Keys + RoundNames(rounds)
    ensures forall j :: 0 <= j < |rounds| ==>
      WithPlaceholders(st, rounds, program).cells[rounds[j].name] == NewReport(program, rounds[j], st)
    ensures forall k :: k in st.cells && k !in RoundNames(rounds) ==>
      WithPlaceholders(st, rounds, program).cells[k] == st.cells[k]
  {
    if rounds != [] {
      var rounds', round := rounds[..|rounds| - 1], rounds[|rounds| - 1];
      var prev := WithPlaceholders(st, rounds', program);
      var r := WithPlaceholders(st, rounds, program);
      WithPlaceholdersSpec(st, rounds', program);
      assert rounds == rounds' + [round];
      RoundNamesAppend(rounds', round);
      assert r.cells == prev.cells[round.name := NewReport(program, round, prev)];
      forall j | 0 <= j < |rounds|
        ensures r.cells[rounds[j].name] == NewReport(program, rounds[j], st)
      {
        if rounds[j].name == round.name {
          NewReportDependsOnNames(program, round, prev, program, rounds[j], st);
        } else {
          assert j < |rounds'| && rounds'[j] == rounds[j];
        }
      }
    }
  }

  /** Every key of `idx` points at a student of `ps` with that name. */
  predicate IndexInto(ps: seq<Student>, idx: map<string, nat>) {
    forall name :: name in idx ==> idx[name] < |ps| && ps[idx[name]].name == name
  }

  /** Every report names a known student. */
  predicate AllResolved(reports: seq<Report>, known: set<string>) {
    forall q :: 0 <= q < |reports| ==> reports[q].student in known
  }

  /** `reports[q]` is the first report naming no known student. */
  predicate FirstUnresolved(reports: seq<Report>, known: set<string>, q: nat) {
    && q < |reports|
    && reports[q].student !in known
    && AllResolved(reports[..q], known)
  }

  /** The students after the report loop has laid each report over its student's cell and total. */
  function Overlay(ps: seq<Student>, reports: seq<Report>, idx: map<string, nat>): (r: seq<Student>)
    requires IndexInto(ps, idx) && AllResolved(reports, idx.Keys)
    ensures |r| == |ps|
  {
    if reports == [] then ps
    else
      var prev := Overlay(ps, reports[..|reports| - 1], idx);
      var report := reports[|reports| - 1];
      var i := idx[report.student];
      prev[i := prev[i].(cells := prev[i].cells[report.round := report], score := prev[i].score + report.score)]
  }

  /** The sum of the scores of all reports naming `name`: duplicates and unknown rounds included. */
  function TotalFor(reports: seq<Report>, name: string): int {
    if reports == [] then 0
    else
      var report := reports[|reports| - 1];
      TotalFor(reports[..|reports| - 1], name) + (if report.student == name then report.score else 0)
  }

  /** For each round, the last report of that round naming `name`. */
  function ReportCells(reports: seq<Report>, name: string): map<string, Report> {
    if reports == [] then map[]
    else
      var prev := ReportCells(reports[..|reports| - 1], name);
      var report := reports[|reports| - 1];
      if report.student == name then prev[report.round := report] else prev
  }

  /** `reports[q]` is a report of round `round` naming `name`. */
  predicate IsReportOf(reports: seq<Report>, q: int, round: string, name: string)
    requires 0 <= q < |reports|
  {
    reports[q].round == round && reports[q].student == name
  }

  /** A student with no report totals 0. */
  lemma {:induction false} NoReportsTotalZero(reports: seq<Report>, name: string)
    requires forall q :: 0 <= q < |reports| ==> reports[q].student != name
    ensures TotalFor(reports, name) == 0
  {
    if reports != [] {
      NoReportsTotalZero(reports[..|reports| - 1], name);
    }
  }

  /**
   * A student has a report cell for a round exactly when some report of that
   * round names it, and the cell holds the last such report of the list.
   */
  lemma {:induction false} ReportCellsSpec(reports: seq<Report>, name: string, round: string)
    ensures round in ReportCells(reports, name) <==>
      exists q :: 0 <= q < |reports| && IsReportOf(reports, q, round, name)
    ensures round in ReportCells(reports, name) ==>
      exists q :: 0 <= q < |reports| && IsReportOf(reports, q, round, name)
        && ReportCells(reports, name)[round] == reports[q]
        && forall q' :: q < q' < |reports| ==> !IsReportOf(reports, q', round, name)
  {
    if reports != [] {
      var reports', report := reports[..|reports| - 1], reports[|reports| - 1];
      var n := |reports| - 1;
      ReportCellsSpec(reports', name, round);
      if IsReportOf(reports, n, round, name) {
        assert ReportCells(reports, name)[round] == reports[n];
      } else {
        assert round in ReportCells(reports, name) <==> round in ReportCells(reports', name);
        if exists q :: 0 <= q < |reports| && IsReportOf(reports, q, round, name) {
          var q :| 0 <= q < |reports| && IsReportOf(reports, q, round, name);
          assert IsReportOf(reports', q, round, name);
        }
        if round in ReportCells(reports', name) {
          assert ReportCells(reports, name)[round] == ReportCells(reports', name)[round];
          var q :| 0 <= q < |reports'| && IsReportOf(reports', q, round, name)
            && ReportCells(reports', name)[round] == reports'[q]
            && forall q' :: q < q' < |reports'| ==> !IsReportOf(reports', q', round, name);
          assert IsReportOf(reports, q, round, name);
          forall q' | q < q' < |reports|
            ensures !IsReportOf(reports, q', round, name)
          {
            if q' < n {
              assert !IsReportOf(reports', q', round, name);
            }
          }
        }
      }
    }
  }

  /**
   * After the report loop, the student that `studentMap` sends its name to has
   * gained the score of every report naming it and a cell holding the last report
   * of each of their rounds; every other student is as it was.
   */
  lemma {:induction false} OverlaySpec(ps: seq<Student>, reports: seq<Report>, idx: map<string, nat>, i: nat)
    requires IndexInto(ps, idx) && AllResolved(reports, idx.Keys)
    requires i < |ps|
    ensures var r := Overlay(ps, reports, idx)[i];
      var owner := ps[i].name in idx && idx[ps[i].name] == i;
      && r.(cells := ps[i].cells, score := ps[i].score) == ps[i]
      && r.score == ps[i].score + (if owner then TotalFor(reports, ps[i].name) else 0)
      && r.cells == (if owner then ps[i].cells + ReportCells(reports, ps[i].name) else ps[i].cells)
  {
    if reports != [] {
      var reports', report := reports[..|reports| - 1], reports[|reports| - 1];
      OverlaySpec(ps, reports', idx, i);
      var name := ps[i].name;
      var owner := name in idx && idx[name] == i;
      if idx[report.student] == i {
        assert report.student == name;
        var rc' := ReportCells(reports', name);
        assert (ps[i].cells + rc')[report.round := report] == ps[i].cells + rc'[report.round := report];
      } else if owner {
        assert report.student != name;
      }
    }
  }

  /** The rows before sorting: placeholders for every round, real reports laid over them. */
  function Joined(ss: seq<Student>, reports: seq<Report>, rounds: seq<Round>, program: Program): (r: seq<Student>)
    requires AllResolved(reports, Names(ss))
    ensures |r| == |ss|
  {
    NameIndexSpec(ss);
    var ps := AddPlaceholders(ResetScores(ss), rounds, program);
    assert forall i :: 0 <= i < |ss| ==> ps[i].name == ss[i].name;
    Overlay(ps, reports, NameIndex(ss))
  }

  /** The leaderboard: the joined rows by total, highest first. */
  function Table(ss: seq<Student>, reports: seq<Report>, rounds: seq<Round>, program: Program): seq<Student>
    requires AllResolved(reports, Names(ss))
  {
    SortByScore(Joined(ss, reports, rounds, program))
  }

  /** A row after the first two loops: the student's fields, total 0, and a placeholder for every round. */
  lemma PlacedRow(ss: seq<Student>, rounds: seq<Round>, program: Program, i: nat)
    requires i < |ss|
    ensures var row := AddPlaceholders(ResetScores(ss), rounds, program)[i];
      && row.(cells := ss[i].cells, score := ss[i].score) == ss[i]
      && row.score == 0
      && row.cells.Keys == ss[i].cells.Keys + RoundNames(rounds)
      && forall j :: 0 <= j < |rounds| ==> row.cells[rounds[j].name] == NewReport(program, rounds[j], ss[i])
  {
    var reset := ResetScores(ss)[i];
    assert reset == ss[i].(score := 0);
    WithPlaceholdersSpec(reset, rounds, program);
    forall j | 0 <= j < |rounds|
      ensures NewReport(program, rounds[j], reset) == NewReport(program, rounds[j], ss[i])
    {
      NewReportDependsOnNames(program, rounds[j], reset, program, rounds[j], ss[i]);
    }
  }

  /** A joined row keeps its student's fields and totals the reports naming it, if it receives them. */
  lemma JoinedRowTotal(ss: seq<Student>, reports: seq<Report>, rounds: seq<Round>, program: Program, i: nat)
    requires AllResolved(reports, Names(ss)) && i < |ss|
    ensures var row := Joined(ss, reports, rounds, program)[i];
      && row.(cells := ss[i].cells, score := ss[i].score) == ss[i]
      && row.score == (if ReceivesReports(ss, i) then TotalFor(reports, ss[i].name) else 0)
  {
    var ps := AddPlaceholders(ResetScores(ss), rounds, program);
    var idx := NameIndex(ss);
    NameIndexSpec(ss);
    PlacedRow(ss, rounds, program, i);
    assert IndexInto(ps, idx) && AllResolved(reports, idx.Keys);
    OverlaySpec(ps, reports, idx, i);
  }

  /** A joined row's cells: its own, the rounds' placeholders, and over them the last report per round naming it. */
  lemma JoinedRowCells(ss: seq<Student>, reports: seq<Report>, rounds: seq<Round>, program: Program, i: nat)
    requires AllResolved(reports, Names(ss)) && i < |ss|
    ensures var row := Joined(ss, reports, rounds, program)[i];
      var cells := ReportCells(reports, ss[i].name);
      && row.cells.Keys == ss[i].cells.Keys + RoundNames(rounds)
           + (if ReceivesReports(ss, i) then cells.Keys else {})
      && forall j :: 0 <= j < |rounds| ==>
           row.cells[rounds[j].name] ==
             if ReceivesReports(ss, i) && rounds[j].name in cells then cells[rounds[j].name]
             else NewReport(program, rounds[j], ss[i])
  {
    var ps := AddPlaceholders(ResetScores(ss), rounds, program);
    var idx := NameIndex(ss);
    NameIndexSpec(ss);
    PlacedRow(ss, rounds, program, i);
    assert IndexInto(ps, idx) && AllResolved(reports, idx.Keys);
    OverlaySpec(ps, reports, idx, i);
  }

  /**
   * One joined row: the student's own fields, a total that is the sum of the
   * reports naming it, and for every round the last report of that round naming it
   * or else the placeholder. With two students of one name, the later one takes
   * all their reports and the earlier keeps total 0 and placeholders.
   */
  lemma JoinedRow(ss: seq<Student>, reports: seq<Report>, rounds: seq<Round>, program: Program, i: nat)
    requires AllResolved(reports, Names(ss)) && i < |ss|
    ensures var row := Joined(ss, reports, rounds, program)[i];
      var name := ss[i].name;
      var cells := ReportCells(reports, name);
      && row.(cells := ss[i].cells, score := ss[i].score) == ss[i]
      && row.score == (if ReceivesReports(ss, i) then TotalFor(reports, name) else 0)
      && row.cells.Keys == ss[i].cells.Keys + RoundNames(rounds)
           + (if ReceivesReports(ss, i) then cells.Keys else {})
      && forall j :: 0 <= j < |rounds| ==>
           row.cells[rounds[j].name] ==
             if ReceivesReports(ss, i) && rounds[j].name in cells then cells[rounds[j].name]
             else NewReport(program, rounds[j], ss[i])
  {
    JoinedRowTotal(ss, reports, rounds, program, i);
    JoinedRowCells(ss, reports, rounds, program, i);
  }

  /** With distinct names, every student's total is the sum of the scores of all reports naming it. */
  lemma JoinedTotals(ss: seq<Student>, reports: seq<Report>, rounds: seq<Round>, program: Program)
    requires AllResolved(reports, Names(ss))
    requires forall i, j :: 0 <= i < j < |ss| ==> ss[i].name != ss[j].name
    ensures forall i :: 0 <= i < |ss| ==>
      Joined(ss, reports, rounds, program)[i].score == TotalFor(reports, ss[i].name)
  {
    forall i | 0 <= i < |ss|
      ensures Joined(ss, reports, rounds, program)[i].score == TotalFor(reports, ss[i].name)
    {
      JoinedRow(ss, reports, rounds, program, i);
    }
  }

  /** The join fails on a report whose student is not in the student list. */
  datatype JoinError = UnknownStudent(report: nat, student: string)

  /** The students loop: every total set to 0 while `studentMap` is filled. */
  method ResetAndIndex(a: array<Student>) returns (studentMap: map<string, nat>)
    modifies a
    ensures a[..] == ResetScores(old(a[..]))
    ensures studentMap == NameIndex(old(a[..]))
  {
    ghost var s := a[..];
    studentMap := map[];
    var i := 0;
    while i < a.Length
      invariant 0 <= i <= a.Length
      invariant forall k :: 0 <= k < i ==> a[k] == s[k].(score := 0)
      invariant forall k :: i <= k < a.Length ==> a[k] == s[k]
      invariant studentMap == NameIndex(s[..i])
    {
      assert s[..i + 1][..i] == s[..i];
      a[i] := a[i].(score := 0);
      studentMap := studentMap[a[i].name := i];
      i := i + 1;
    }
    assert s[..a.Length] == s;
  }

  /** The rounds loop: for each round, every student gets that round's placeholder. */
  method FillPlaceholders(a: array<Student>, rounds: seq<Round>, program: Program)
    modifies a
    ensures a[..] == AddPlaceholders(old(a[..]), rounds, program)
  {
    ghost var s := a[..];
    var j := 0;
    while j < |rounds|
      invariant 0 <= j <= |rounds|
      invariant forall k :: 0 <= k < a.Length ==> a[k] == WithPlaceholders(s[k], rounds[..j], program)
    {
      var round := rounds[j];
      assert rounds[..j + 1][..j] == rounds[..j];
      var i := 0;
      while i < a.Length
        invariant 0 <= i <= a.Length
        invariant forall k :: 0 <= k < i ==> a[k] == WithPlaceholders(s[k], rounds[..j + 1], program)
        invariant forall k :: i <= k < a.Length ==> a[k] == WithPlaceholders(s[k], rounds[..j], program)
      {
        a[i] := a[i].(cells := a[i].cells[round.name := NewReport(program, round, a[i])]);
        i := i + 1;
      }
      j := j + 1;
    }
    assert rounds[..|rounds|] == rounds;
  }

  /**
   * The reports loop: each report replaces its student's cell for its round and
   * adds to that student's total. It stops at the first report whose student
   * `studentMap` does not know and returns that report's index.
   */
  method LayReports(a: array<Student>, reports: seq<Report>, studentMap: map<string, nat>)
    returns (unknown: Option<nat>)
    requires IndexInto(a[..], studentMap)
    modifies a
    ensures unknown.None? <==> AllResolved(reports, studentMap.Keys)
    ensures unknown.Some? ==> FirstUnresolved(reports, studentMap.Keys, unknown.value)
    ensures unknown.None? ==> a[..] == Overlay(old(a[..]), reports, studentMap)
  {
    ghost var s := a[..];
    var q := 0;
    while q < |reports|
      invariant 0 <= q <= |reports|
      invariant AllResolved(reports[..q], studentMap.Keys)
      invariant a[..] == Overlay(s, reports[..q], studentMap)
    {
      var report := reports[q];
      if report.student !in studentMap {
        return Some(q);
      }
      OverlayStep(s, reports, studentMap, q);
      var k := studentMap[report.student];
      a[k] := a[k].(cells := a[k].cells[report.round := report], score := a[k].score + report.score);
      q := q + 1;
    }
    assert reports[..|reports|] == reports;
    unknown := None;
  }

  /** One more report laid over the students. */
  lemma OverlayStep(ps: seq<Student>, reports: seq<Report>, idx: map<string, nat>, q: nat)
    requires IndexInto(ps, idx) && q < |reports| && reports[q].student in idx
    requires AllResolved(reports[..q], idx.Keys)
    ensures AllResolved(reports[..q + 1], idx.Keys)
    ensures var prev := Overlay(ps, reports[..q], idx);
      var report := reports[q];
      var k := idx[report.student];
      Overlay(ps, reports[..q + 1], idx)
        == prev[k := prev[k].(cells := prev[k].cells[report.round := report], score := prev[k].score + report.score)]
  {
    assert reports[..q + 1][..q] == reports[..q];
  }

  /**
   * The join, as the page runs it on its own copy of the fetched students: reset
   * the totals while filling `studentMap`, add the placeholders round by round,
   * lay the reports over them, and sort in place. A report naming an unknown
   * student stops it, where the page's field write on `undefined` throws.
   */
  method JoinTable(students: seq<Student>, reports: seq<Report>, rounds: seq<Round>, program: Program)
    returns (r: Result<seq<Student>, JoinError>)
    ensures r.Ok? <==> AllResolved(reports, Names(students))
    ensures r.Ok? ==> r.value == Table(students, reports, rounds, program)
    ensures r.Err? ==>
      && FirstUnresolved(reports, Names(students), r.error.report)
      && r.error.student == reports[r.error.report].student
  {
    var a := new Student[|students|](i requires 0 <= i < |students| => students[i]);
    assert a[..] == students;
    var studentMap := ResetAndIndex(a);
    FillPlaceholders(a, rounds, program);
    NameIndexSpec(students);
    assert IndexInto(a[..], studentMap);
    var unknown := LayReports(a, reports, studentMap);
    if unknown.Some? {
      return Err(UnknownStudent(unknown.value, reports[unknown.value].student));
    }
    SortByScoreInPlace(a);
    r := Ok(a[..]);
  }
}
