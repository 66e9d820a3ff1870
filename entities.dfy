/**
 * The records the ranking page receives from its backends: programs, rounds,
 * weekly reports and students.
 */
module Entities {

  /** A program; only its name and its title are used by the page. */
  datatype Program = Program(name: string, title: string)

  /** An evaluation round. Its dates are instants on one time line. */
  datatype Round = Round(name: string, startDate: int, endDate: int)

  /**
   * A weekly report of one student in one round of one program.
   * The report's creation time is not part of the model.
   */
  datatype Report = Report(
    owner: string,
    name: string,
    program: string,
    round: string,
    student: string,
    text: string,
    score: int)

  /**
   * A student row of the leaderboard. `score` is the total the page computes,
   * and `cells` holds the properties the page adds to the student object, one per
   * round name, each holding that round's report.
   */
  datatype Student = Student(
    name: string,
    realName: string,
    github: string,
    mentor: string,
    score: int,
    cells: map<string, Report>)

  /** The names of the students in `ss`. */
  function Names(ss: seq<Student>): set<string> {
    set i | 0 <= i < |ss| :: ss[i].name
  }

  /** The names of the rounds in `rounds`. */
  function RoundNames(rounds: seq<Round>): set<string> {
    set j | 0 <= j < |rounds| :: rounds[j].name
  }

  /** Appending a student adds its name. */
  lemma {:induction false} NamesAppend(ss: seq<Student>, st: Student)
    ensures Names(ss + [st]) == Names(ss) + {st.name}
  {
    var all := ss + [st];
    assert all[|ss|].name == st.name;
    forall k | k in Names(all)
      ensures k in Names(ss) + {st.name}
    {
      var i :| 0 <= i < |all| && all[i].name == k;
      if i < |ss| {
        assert all[i] == ss[i];
      }
    }
    forall k | k in Names(ss)
      ensures k in Names(all)
    {
      var i :| 0 <= i < |ss| && ss[i].name == k;
      assert all[i] == ss[i];
    }
  }

  /** Appending a round adds its name. */
  lemma {:induction false} RoundNamesAppend(rounds: seq<Round>, round: Round)
    ensures RoundNames(rounds + [round]) == RoundNames(rounds) + {round.name}
  {
    var all := rounds + [round];
    assert all[|rounds|].name == round.name;
    forall k | k in RoundNames(all)
      ensures k in RoundNames(rounds) + {round.name}
    {
      var j :| 0 <= j < |all| && all[j].name == k;
      if j < |rounds| {
        assert all[j] == rounds[j];
      }
    }
    forall k | k in RoundNames(rounds)
      ensures k in RoundNames(all)
    {
      var j :| 0 <= j < |rounds| && rounds[j].name == k;
      assert all[j] == rounds[j];
    }
  }
}
