/**
 * `pytest_report_teststatus`: the decision table from a report's outcome
 * and phase to the one-letter glyph the reporter draws.
 */
module Status {
  import opened Wrappers

  /** The phase a report belongs to (`report.when`). */
  datatype Phase = Setup | Call | Teardown

  /**
   * A test report as the layout sees it. `outcome` is pytest's outcome
   * string ("passed", "skipped", "failed", or another one such as "rerun");
   * `wasXfail` says whether the report carries the `wasxfail` attribute.
   */
  datatype Report = Report(nodeid: string, when: Phase, outcome: string, wasXfail: bool)

  /** The `(category, letter, word)` triple returned to pytest. */
  datatype TestStatus = TestStatus(category: string, letter: char, word: string)

  /** Every glyph the table can produce. */
  const Glyphs: set<char> := {'.', 's', 'F', 'f', 'x', 'X', 'R', '?'}

  predicate Passed(r: Report) { r.outcome == "passed" }
  predicate Skipped(r: Report) { r.outcome == "skipped" }
  predicate Failed(r: Report) { r.outcome == "failed" }

  function UpperChar(c: char): char {
    if 'a' <= c <= 'z' then (c as int - 32) as char else c
  }

  /** `str.upper` on the ASCII letters. */
  function Upper(s: string): (u: string)
    ensures |u| == |s|
    ensures forall i :: 0 <= i < |s| ==> u[i] == UpperChar(s[i])
  {
    if s == [] then [] else [UpperChar(s[0])] + Upper(s[1..])
  }

  /** The letter chosen before the `wasxfail` override. */
  function PlainLetter(r: Report): char {
    if Passed(r) then '.'
    else if Skipped(r) then 's'
    else if Failed(r) then (if r.when != Call then 'f' else 'F')
    else if r.outcome == "rerun" then 'R'
    else '?'
  }

  /**
   * `pytest_report_teststatus(report)`; `enabled` stands for the plugin's
   * global switch, and `None` for the bare `return` when it is off.
   */
  function ReportStatus(enabled: bool, r: Report): (s: Option<TestStatus>)
    ensures s.Some? <==> enabled
    ensures s.Some? ==> s.value.letter == Letter(r)
    ensures s.Some? ==> s.value.letter in Glyphs
    ensures s.Some? ==> (s.value.letter == '.' <==> Passed(r) && !r.wasXfail)
    ensures s.Some? ==> (s.value.letter == 's' <==> Skipped(r) && !r.wasXfail)
    ensures s.Some? ==> (s.value.letter == 'x' <==> Skipped(r) && r.wasXfail)
    ensures s.Some? ==> (s.value.letter == 'X' <==> Passed(r) && r.wasXfail)
    ensures s.Some? ==> (s.value.letter == 'F' <==> Failed(r) && r.when == Call)
    ensures s.Some? ==> (s.value.letter == 'f' <==> Failed(r) && r.when != Call)
    ensures s.Some? ==> (s.value.letter == 'R' <==> r.outcome == "rerun")
    ensures s.Some? ==> (s.value.letter == '?' <==>
              r.outcome !in {"passed", "skipped", "failed", "rerun"})
    ensures s.Some? && !(r.wasXfail && (Passed(r) || Skipped(r))) ==>
              s.value.category == r.outcome && s.value.word == Upper(r.outcome)
    ensures s.Some? && r.wasXfail && Skipped(r) ==> s.value == TestStatus("xfailed", 'x', "xfail")
    ensures s.Some? && r.wasXfail && Passed(r) ==> s.value == TestStatus("xpassed", 'X', "XPASS")
  {
    if !enabled then None
    else if r.wasXfail && Skipped(r) then Some(TestStatus("xfailed", Letter(r), "xfail"))
    else if r.wasXfail && Passed(r) then Some(TestStatus("xpassed", Letter(r), "XPASS"))
    else Some(TestStatus(r.outcome, Letter(r), Upper(r.outcome)))
  }

  /**
   * The letter of the triple: the plain letter, unless `wasxfail` turns a
   * skip into `'x'` or a pass into `'X'`. The reporter draws this letter.
   */
  function Letter(r: Report): (c: char)
    ensures c in Glyphs
  {
    if r.wasXfail && Skipped(r) then 'x'
    else if r.wasXfail && Passed(r) then 'X'
    else PlainLetter(r)
  }
}
