/**
 * How the page shows and edits one report: the placeholder it synthesises for a
 * missing submission, the status tag of a cell, whether a round is current, and
 * how one field of the report under edit is replaced.
 */
module ReportView {
  import opened Wrappers
  import opened Entities

  /** The owner the page writes into every placeholder report. */
  const PLACEHOLDER_OWNER := "admin"

  /**
   * The empty report standing in for a student who submitted nothing in a round:
   * owned by the fixed administrator, no text, score 0, and named after the
   * program, the round and the student.
   */
  function NewReport(program: Program, round: Round, student: Student): (r: Report)
    ensures r.owner == PLACEHOLDER_OWNER && r.text == "" && r.score == 0
    ensures r.program == program.name && r.round == round.name && r.student == student.name
    ensures r.name == "report_" + program.name + "_" + round.name + "_" + student.name
  {
    Report(
      PLACEHOLDER_OWNER,
      "report_" + program.name + "_" + round.name + "_" + student.name,
      program.name,
      round.name,
      student.name,
      "",
      0)
  }

  /** A placeholder depends on the three records only through their names. */
  lemma NewReportDependsOnNames(p: Program, r: Round, s: Student, p': Program, r': Round, s': Student)
    requires p.name == p'.name && r.name == r'.name && s.name == s'.name
    ensures NewReport(p, r, s) == NewReport(p', r', s')
  {
  }

  /** True when `now` falls in the half-open interval of the round's dates. */
  predicate IsCurrentRound(round: Round, now: int) {
    round.startDate <= now < round.endDate
  }

  /** A round is current from its start date, if it lasts at all, up to but excluding its end date. */
  lemma CurrentRoundBounds(round: Round)
    ensures IsCurrentRound(round, round.startDate) <==> round.startDate < round.endDate
    ensures !IsCurrentRound(round, round.endDate)
    ensures forall now :: now < round.startDate ==> !IsCurrentRound(round, now)
  {
  }

  /** Of two rounds where one ends by the time the next starts, at most one is current. */
  lemma AtMostOneCurrent(round: Round, next: Round, now: int)
    requires round.endDate <= next.startDate
    ensures !(IsCurrentRound(round, now) && IsCurrentRound(next, now))
  {
  }

  /** The five status categories a report cell is shown with. */
  datatype Tag = NotAvailable | Error | Warning | Processing | Success

  /**
   * The status category of a report: no text means not available whatever the
   * score; otherwise the score picks error, warning, processing or success.
   */
  function GetTag(report: Report): (t: Tag)
    ensures t == NotAvailable <==> report.text == ""
    ensures t == Error <==> report.text != "" && report.score <= 0
    ensures t == Warning <==> report.text != "" && 1 <= report.score <= 2
    ensures t == Processing <==> report.text != "" && 3 <= report.score <= 4
    ensures t == Success <==> report.text != "" && 5 <= report.score
  {
    if report.text == "" then NotAvailable
    else if report.score <= 0 then Error
    else if report.score <= 2 then Warning
    else if report.score <= 4 then Processing
    else Success
  }

  /** The colour the tag is drawn in; a missing report shares the error colour. */
  function TagColor(t: Tag): (c: string)
    ensures c == "error" <==> t == NotAvailable || t == Error
    ensures t == Warning ==> c == "warning"
    ensures t == Processing ==> c == "processing"
    ensures t == Success ==> c == "success"
    ensures c in {"error", "warning", "processing", "success"}
  {
    match t
    case NotAvailable => "error"
    case Error => "error"
    case Warning => "warning"
    case Processing => "processing"
    case Success => "success"
  }

  /** Every placeholder report is shown as not available. */
  lemma PlaceholderIsNotAvailable(program: Program, round: Round, student: Student)
    ensures GetTag(NewReport(program, round, student)) == NotAvailable
    ensures TagColor(GetTag(NewReport(program, round, student))) == "error"
  {
  }

  /** The rank of a category among the categories of a report that has text. */
  function Severity(t: Tag): nat {
    match t
    case NotAvailable => 0
    case Error => 0
    case Warning => 1
    case Processing => 2
    case Success => 3
  }

  /** Among reports with text, a higher score never gets a lower category. */
  lemma TagIsMonotone(r1: Report, r2: Report)
    requires r1.text != "" && r2.text != ""
    requires r1.score <= r2.score
    ensures Severity(GetTag(r1)) <= Severity(GetTag(r2))
  {
  }

  /** A value the report editor writes into a field: a string or an integer. */
  datatype FieldValue = StringField(s: string) | IntField(n: int)

  /** The editor's input coerced for `key`: the score is parsed as an integer, any other key passes through. */
  function ParseReportField(key: string, value: FieldValue, parseInt: FieldValue -> int): (v: FieldValue)
    ensures key == "score" ==> v == IntField(parseInt(value))
    ensures key != "score" ==> v == value
  {
    if key == "score" then IntField(parseInt(value)) else value
  }

  /** The report's property named `key`, if it has one. */
  function GetField(r: Report, key: string): Option<FieldValue> {
    if key == "owner" then Some(StringField(r.owner))
    else if key == "name" then Some(StringField(r.name))
    else if key == "program" then Some(StringField(r.program))
    else if key == "round" then Some(StringField(r.round))
    else if key == "student" then Some(StringField(r.student))
    else if key == "text" then Some(StringField(r.text))
    else if key == "score" then Some(IntField(r.score))
    else None
  }

  /** `key` names a field of the report whose type `v` has. */
  predicate Fits(key: string, v: FieldValue) {
    if key == "score" then v.IntField?
    else v.StringField? && key in {"owner", "name", "program", "round", "student", "text"}
  }

  /** A copy of `r` whose field `key` holds `v`. */
  function SetField(r: Report, key: string, v: FieldValue): Report {
    match v
    case IntField(n) => if key == "score" then r.(score := n) else r
    case StringField(s) =>
      if key == "owner" then r.(owner := s)
      else if key == "name" then r.(name := s)
      else if key == "program" then r.(program := s)
      else if key == "round" then r.(round := s)
      else if key == "student" then r.(student := s)
      else if key == "text" then r.(text := s)
      else r
  }

  /** Writing a fitting value is read back, and no other field changes. */
  lemma SetFieldGetField(r: Report, key: string, v: FieldValue)
    ensures Fits(key, v) ==> GetField(SetField(r, key, v), key) == Some(v)
    ensures forall other :: other != key ==> GetField(SetField(r, key, v), other) == GetField(r, other)
    ensures !Fits(key, v) ==> SetField(r, key, v) == r
  {
  }

  /** Whatever the editor's input, writing a parsed score replaces exactly the score. */
  lemma ParsedScoreFits(r: Report, value: FieldValue, parseInt: FieldValue -> int)
    ensures Fits("score", ParseReportField("score", value, parseInt))
    ensures SetField(r, "score", ParseReportField("score", value, parseInt)) == r.(score := parseInt(value))
  {
  }
}
