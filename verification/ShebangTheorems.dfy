/** Whole runs of the shell runner: every test is accounted for, and the report is balanced and accurate. */
module ShebangTheorems {
  import opened Wrappers
  import opened XmlText
  import opened ShebangRunner
  import Sequences

  // ---------- Which tests succeed, and which setups hold ----------

  /** The test is a success: its setup or else its teardown exits with 0, or everything that is there ends with 0. */
  predicate Succeeds(t: Test) {
    || t.setup == Exits(0)
    || (!t.setup.Exits? && t.teardown == Exits(0))
    || (t.setup in {Absent, Returns(0)} && t.body == 0 && t.teardown in {Absent, Returns(0)})
  }

  /** There is no global setup, or it returns 0. */
  predicate SetsUp(setup: Call) {
    setup in {Absent, Returns(0)}
  }

  /** Running a test counts one success or one failure, and nothing else; it counts the success if and only if its setup
      exits with 0, or its setup does not exit and either its teardown exits with 0 or setup, body and teardown end with 0. */
  lemma {:induction false} TestCounts(st: State, t: Test)
    ensures var r := RunTest(st, t);
            && r.skipped == st.skipped && r.successful + r.failing == st.successful + st.failing + 1
            && (r.successful == st.successful + 1 <==>
                  || t.setup == Exits(0)
                  || (!t.setup.Exits? && t.teardown == Exits(0))
                  || ((t.setup == Absent || t.setup == Returns(0)) && t.body == 0 && (t.teardown == Absent || t.teardown == Returns(0))))
            && (r.successful == st.successful + 1 <==> r.failing == st.failing)
  {
  }

  datatype Verdict = Passed | Failed | Omitted

  function VerdictOf(t: Test): Verdict {
    if Succeeds(t) then Passed else Failed
  }

  function Marks(v: Verdict): seq<Line> {
    match v
    case Passed => []
    case Failed => [Open(FailureTag), Close(Fail)]
    case Omitted => [Open(SkippedTag), Close(Skip)]
  }

  /** The lines of one finished test case. */
  function CaseLines(name: string, suite: string, time: nat, v: Verdict, out: string, err: string): seq<Line> {
    [Open(TestCase(Escape(name), suite, Some(time)))] + Marks(v) + Outputs(out, err) + [Close(Case)]
  }

  function RanLines(tests: seq<Test>, suite: string): seq<Line> {
    if tests == [] then []
    else
      var t := tests[0];
      CaseLines(t.name, suite, t.time, VerdictOf(t), t.out, t.err) + RanLines(tests[1..], suite)
  }

  function OmittedLines(tests: seq<Test>, suite: string): seq<Line> {
    if tests == [] then [] else CaseLines(tests[0].name, suite, 0, Omitted, "", "") + OmittedLines(tests[1..], suite)
  }

  // ---------- Placeholders ----------

  /** No test case still waits for its time. */
  ghost predicate Timed(report: seq<Line>) {
    forall l | l in report && l.Open? && l.tag.TestCase? :: l.tag.time.Some?
  }

  lemma {:induction false} SetTimeTimed(report: seq<Line>, time: nat)
    requires Timed(report)
    ensures SetTime(report, time) == report
  {
    if report != [] {
      assert report[0] in report && forall l | l in report[1..] :: l in report;
      SetTimeTimed(report[1..], time);
    }
  }

  lemma {:induction false} SetTimeConcat(a: seq<Line>, b: seq<Line>, time: nat)
    ensures SetTime(a + b, time) == SetTime(a, time) + SetTime(b, time)
  {
    if a == [] {
      assert a + b == b;
    } else {
      SetTimeConcat(a[1..], b, time);
      assert (a + b)[1..] == a[1..] + b;
    }
  }

  /** Ending a test sets the time of that test and of no other. */
  lemma {:induction false} CaseEnds(report: seq<Line>, name: string, suite: string, time: nat, marks: seq<Line>)
    requires Timed(report) && Timed(marks)
    ensures SetTime(report + [Open(TestCase(name, suite, None))] + marks, time) ==
            report + [Open(TestCase(name, suite, Some(time)))] + marks
  {
    var open := [Open(TestCase(name, suite, None))];
    SetTimeConcat(report + open, marks, time);
    SetTimeConcat(report, open, time);
    SetTimeTimed(report, time);
    SetTimeTimed(marks, time);
  }

  lemma {:induction false} Regroup(report: seq<Line>, open: Line, marks: seq<Line>, outputs: seq<Line>, close: Line)
    ensures report + [open] + marks + outputs + [close] == report + ([open] + marks + outputs + [close])
  {
  }

  lemma {:induction false} RunTestIs(st: State, t: Test)
    requires Timed(st.report)
    ensures var r := RunTest(st, t);
            && r == st.(report := r.report, successful := r.successful, failing := r.failing)
            && r.report == st.report + CaseLines(t.name, st.suite, t.time, VerdictOf(t), t.out, t.err)
            && r.successful == st.successful + (if Succeeds(t) then 1 else 0)
            && r.failing == st.failing + (if Succeeds(t) then 0 else 1)
  {
    var marks := Marks(VerdictOf(t));
    var name, start := Escape(t.name), st.report;
    assert start + [Open(TestCase(name, st.suite, None))] + [] == start + [Open(TestCase(name, st.suite, None))];
    CaseEnds(start, name, st.suite, t.time, marks);
    Regroup(start, Open(TestCase(name, st.suite, Some(t.time))), marks, Outputs(t.out, t.err), Close(Case));
  }

  lemma {:induction false} SkipTestIs(st: State, t: Test)
    requires Timed(st.report)
    ensures SkipTest(st, t) == st.(skipped := st.skipped + 1,
                                   report := st.report + CaseLines(t.name, st.suite, 0, Omitted, "", ""))
  {
    var marks, name := [Open(SkippedTag), Close(Skip)], Escape(t.name);
    CaseEnds(st.report, name, st.suite, 0, marks);
    Regroup(st.report, Open(TestCase(name, st.suite, Some(0))), marks, Outputs("", ""), Close(Case));
  }

  lemma {:induction false} CaseTimed(name: string, suite: string, time: nat, v: Verdict, out: string, err: string)
    ensures Timed(CaseLines(name, suite, time, v, out, err))
  {
  }

  // ---------- Test lists ----------

  function Passing(tests: seq<Test>): nat {
    if tests == [] then 0 else (if Succeeds(tests[0]) then 1 else 0) + Passing(tests[1..])
  }

  function Failing(tests: seq<Test>): nat {
    if tests == [] then 0 else (if Succeeds(tests[0]) then 0 else 1) + Failing(tests[1..])
  }

  lemma {:induction false} PassOrFail(tests: seq<Test>)
    ensures Passing(tests) + Failing(tests) == |tests|
  {
    if tests != [] {
      PassOrFail(tests[1..]);
    }
  }

  lemma {:induction false} RunTestsIs(st: State, tests: seq<Test>)
    requires Timed(st.report)
    ensures RunTests(st, tests) ==
            st.(report := st.report + RanLines(tests, st.suite),
                successful := st.successful + Passing(tests), failing := st.failing + Failing(tests))
    ensures Timed(RunTests(st, tests).report)
    decreases |tests|
  {
    if tests == [] {
      assert st.report + [] == st.report;
    } else {
      var t := tests[0];
      var lines := CaseLines(t.name, st.suite, t.time, VerdictOf(t), t.out, t.err);
      RunTestIs(st, t);
      CaseTimed(t.name, st.suite, t.time, VerdictOf(t), t.out, t.err);
      RunTestsIs(RunTest(st, t), tests[1..]);
      Sequences.Assoc(st.report, lines, RanLines(tests[1..], st.suite));
    }
  }

  lemma {:induction false} SkipTestsIs(st: State, tests: seq<Test>)
    requires Timed(st.report)
    ensures SkipTests(st, tests) ==
            st.(report := st.report + OmittedLines(tests, st.suite), skipped := st.skipped + |tests|)
    ensures Timed(SkipTests(st, tests).report)
    decreases |tests|
  {
    if tests == [] {
      assert st.report + [] == st.report;
    } else {
      SkipTestIs(st, tests[0]);
      CaseTimed(tests[0].name, st.suite, 0, Omitted, "", "");
      SkipTestsIs(SkipTest(st, tests[0]), tests[1..]);
      Sequences.Assoc(st.report, CaseLines(tests[0].name, st.suite, 0, Omitted, "", ""), OmittedLines(tests[1..], st.suite));
    }
  }

  // ---------- Files ----------

  /** The flag a file leaves behind: a file that exits while it is sourced leaves the flag of the file before. */
  function FlagAfter(flag: Option<bool>, f: File): Option<bool> {
    if f.sources then Some(!SetsUp(f.globalSetup)) else flag
  }

  datatype Fate = Ran | AllSkipped | Lost

  function FateOf(flag: Option<bool>, f: File): Fate {
    if FlagAfter(flag, f) == Some(true) then AllSkipped else if f.sources then Ran else Lost
  }

  function FileCases(flag: Option<bool>, f: File): seq<Line> {
    match FateOf(flag, f)
    case Ran => RanLines(f.tests, SuiteName(f.name))
    case AllSkipped => OmittedLines(f.tests, SuiteName(f.name))
    case Lost => []
  }

  function FileLines(flag: Option<bool>, f: File): seq<Line> {
    [Open(TestSuite(SuiteName(f.name), |f.tests|))] + FileCases(flag, f) + Outputs(f.out, f.err) + [Close(Suite)]
  }

  function FilesLines(flag: Option<bool>, files: seq<File>): seq<Line>
    decreases |files|
  {
    if files == [] then [] else FileLines(flag, files[0]) + FilesLines(FlagAfter(flag, files[0]), files[1..])
  }

  /** The state once the cases of a file have been run, skipped or lost. */
  function Sourced(started: State, f: File): State {
    var fate := FateOf(started.setupFailed, f);
    started.(setupFailed := FlagAfter(started.setupFailed, f),
             report := started.report + FileCases(started.setupFailed, f),
             successful := started.successful + (if fate.Ran? then Passing(f.tests) else 0),
             failing := started.failing + (if fate.Ran? then Failing(f.tests) else 0),
             skipped := started.skipped + (if fate.AllSkipped? then |f.tests| else 0))
  }

  lemma {:induction false} CasesAre(started: State, f: File)
    requires Timed(started.report) && started.suite == SuiteName(f.name)
    ensures var sourced := SourceFile(started, f);
            Sourced(started, f) == if sourced.setupFailed == Some(true) then SkipTests(sourced, f.tests) else sourced
    ensures Timed(Sourced(started, f).report)
  {
    match FateOf(started.setupFailed, f)
    case Ran => RunTestsIs(started.(setupFailed := Some(false)), f.tests);
    case AllSkipped => SkipTestsIs(SourceFile(started, f), f.tests);
    case Lost => Sequences.EmptyUnit(started.report);
  }

  lemma {:induction false} TimedEnd(report: seq<Line>, out: string, err: string)
    requires Timed(report)
    ensures Timed(report + Outputs(out, err) + [Close(Suite)])
  {
  }

  /** What one file adds to the counters and to the report, by its fate. */
  lemma {:induction false} RunFileIs(st: State, f: File)
    requires Timed(st.report)
    ensures var r, fate := RunFile(st, f), FateOf(st.setupFailed, f);
            && r.report == st.report + FileLines(st.setupFailed, f) && Timed(r.report)
            && r.setupFailed == FlagAfter(st.setupFailed, f) && r.suite == ""
            && r.successful == st.successful + (if fate.Ran? then Passing(f.tests) else 0)
            && r.failing == st.failing + (if fate.Ran? then Failing(f.tests) else 0)
            && r.skipped == st.skipped + (if fate.AllSkipped? then |f.tests| else 0)
  {
    var cases := FileCases(st.setupFailed, f);
    CasesAre(StartFile(st, f), f);
    TimedEnd(StartFile(st, f).report + cases, f.out, f.err);
    Regroup(st.report, Open(TestSuite(SuiteName(f.name), |f.tests|)), cases, Outputs(f.out, f.err), Close(Suite));
  }

  /** A file that sources runs all its tests when it has no global setup or that returns 0, and skips them all when the setup
      returns anything else or exits with whatever status. */
  lemma {:induction false} GlobalSetupDecides(st: State, f: File)
    requires Timed(st.report) && f.sources
    ensures f.globalSetup == Absent || f.globalSetup == Returns(0) ==>
              && RunFile(st, f).skipped == st.skipped
              && RunFile(st, f).successful + RunFile(st, f).failing == st.successful + st.failing + |f.tests|
    ensures (exists n :: f.globalSetup == Returns(n) && n != 0) || f.globalSetup.Exits? ==>
              && RunFile(st, f).skipped == st.skipped + |f.tests|
              && RunFile(st, f).successful == st.successful && RunFile(st, f).failing == st.failing
  {
    RunFileIs(st, f);
    PassOrFail(f.tests);
  }

  function Count(fate: Fate, flag: Option<bool>, files: seq<File>): nat
    decreases |files|
  {
    if files == [] then 0
    else (if FateOf(flag, files[0]) == fate then |files[0].tests| else 0) + Count(fate, FlagAfter(flag, files[0]), files[1..])
  }

  function FailingIn(flag: Option<bool>, files: seq<File>): nat
    decreases |files|
  {
    if files == [] then 0
    else (if FateOf(flag, files[0]).Ran? then Failing(files[0].tests) else 0) + FailingIn(FlagAfter(flag, files[0]), files[1..])
  }

  lemma {:induction false} RunFilesIs(st: State, files: seq<File>)
    requires Timed(st.report)
    ensures var r, flag := RunFiles(st, files), st.setupFailed;
            && r.report == st.report + FilesLines(flag, files)
            && r.successful + r.failing == st.successful + st.failing + Count(Ran, flag, files)
            && r.failing == st.failing + FailingIn(flag, files)
            && r.skipped == st.skipped + Count(AllSkipped, flag, files)
    decreases |files|
  {
    if files == [] {
      assert st.report + [] == st.report;
    } else {
      RunFileIs(st, files[0]);
      PassOrFail(files[0].tests);
      RunFilesIs(RunFile(st, files[0]), files[1..]);
      Sequences.Assoc(st.report, FileLines(st.setupFailed, files[0]), FilesLines(FlagAfter(st.setupFailed, files[0]), files[1..]));
    }
  }

  // ---------- Accounting ----------

  function TotalTests(files: seq<File>): nat {
    if files == [] then 0 else |files[0].tests| + TotalTests(files[1..])
  }

  /** Each file that exits while it is sourced has no tests, or comes after a file whose global setup failed, with
      only such files in between. */
  predicate AllAccounted(flag: Option<bool>, files: seq<File>)
    decreases |files|
  {
    files == [] ||
    ((files[0].sources || files[0].tests == [] || flag == Some(true)) && AllAccounted(FlagAfter(flag, files[0]), files[1..]))
  }

  lemma {:induction false} LostIsUnaccounted(flag: Option<bool>, files: seq<File>)
    ensures Count(Ran, flag, files) + Count(AllSkipped, flag, files) + Count(Lost, flag, files) == TotalTests(files)
    ensures Count(Lost, flag, files) == 0 <==> AllAccounted(flag, files)
    decreases |files|
  {
    if files != [] {
      LostIsUnaccounted(FlagAfter(flag, files[0]), files[1..]);
    }
  }

  /** Successes, failures and skips add up to the tests of all files, if and only if no file loses its tests. */
  lemma {:induction false} EveryTestIsCounted(files: seq<File>)
    ensures var r := RunAll(files);
            && (r.successful + r.failing + r.skipped == TotalTests(files) <==> AllAccounted(None, files))
            && r.failing == FailingIn(None, files)
            && r.skipped == Count(AllSkipped, None, files)
  {
    RunFilesIs(START, files);
    LostIsUnaccounted(None, files);
  }

  lemma {:induction false} SourcedFilesAreAccounted(flag: Option<bool>, files: seq<File>)
    requires forall f | f in files :: f.sources
    ensures AllAccounted(flag, files)
    decreases |files|
  {
    if files != [] {
      assert files[0] in files && forall f | f in files[1..] :: f in files;
      SourcedFilesAreAccounted(FlagAfter(flag, files[0]), files[1..]);
    }
  }

  // ---------- Balance ----------

  /** The kinds still open after the lines, innermost first; None when a line closes something else. */
  function Scan(lines: seq<Line>, stack: seq<Kind>): Option<seq<Kind>>
    decreases |lines|
  {
    if lines == [] then Some(stack)
    else match lines[0]
      case Prolog => Scan(lines[1..], stack)
      case Text(_) => Scan(lines[1..], stack)
      case Open(tag) => Scan(lines[1..], [KindOf(tag)] + stack)
      case Close(kind) => if stack != [] && stack[0] == kind then Scan(lines[1..], stack[1..]) else None
  }

  ghost predicate Neutral(lines: seq<Line>) {
    forall stack :: Scan(lines, stack) == Some(stack)
  }

  lemma {:induction false} ScanConcat(a: seq<Line>, b: seq<Line>, stack: seq<Kind>)
    ensures Scan(a + b, stack) == if Scan(a, stack).None? then None else Scan(b, Scan(a, stack).value)
    decreases |a|
  {
    if a == [] {
      assert a + b == b;
    } else {
      assert (a + b)[1..] == a[1..] + b;
      match a[0]
      case Prolog => ScanConcat(a[1..], b, stack);
      case Text(_) => ScanConcat(a[1..], b, stack);
      case Open(tag) => ScanConcat(a[1..], b, [KindOf(tag)] + stack);
      case Close(kind) =>
        if stack != [] && stack[0] == kind {
          ScanConcat(a[1..], b, stack[1..]);
        }
    }
  }

  lemma {:induction false} NeutralConcat(a: seq<Line>, b: seq<Line>)
    requires Neutral(a) && Neutral(b)
    ensures Neutral(a + b)
  {
    forall stack
      ensures Scan(a + b, stack) == Some(stack)
    {
      ScanConcat(a, b, stack);
    }
  }

  lemma {:induction false} Wrapped(tag: Tag, inner: seq<Line>)
    requires Neutral(inner)
    ensures Neutral([Open(tag)] + inner + [Close(KindOf(tag))])
  {
    var open, close := [Open(tag)], [Close(KindOf(tag))];
    forall stack: seq<Kind>
      ensures Scan(open + inner + close, stack) == Some(stack)
    {
      var inside := [KindOf(tag)] + stack;
      assert open[1..] == [] && close[1..] == [] && inside[1..] == stack;
      ScanConcat(open + inner, close, stack);
      ScanConcat(open, inner, stack);
      assert Scan(open, stack) == Some(inside);
    }
  }

  lemma {:induction false} OutputNeutral(tag: Tag, text: string)
    ensures Neutral(Output(tag, text))
  {
    if text != "" {
      var inner := [Text(Escape(text))];
      assert inner[1..] == [];
      Wrapped(tag, inner);
      assert [Open(tag)] + inner + [Close(KindOf(tag))] == Output(tag, text);
    }
  }

  lemma {:induction false} OutputsNeutral(out: string, err: string)
    ensures Neutral(Outputs(out, err))
  {
    OutputNeutral(SystemOut, out);
    OutputNeutral(SystemErr, err);
    NeutralConcat(Output(SystemOut, out), Output(SystemErr, err));
  }

  lemma {:induction false} MarksNeutral(v: Verdict)
    ensures Neutral(Marks(v))
  {
    var none: seq<Line> := [];
    Wrapped(FailureTag, none);
    Wrapped(SkippedTag, none);
    assert [Open(FailureTag)] + none + [Close(Fail)] == [Open(FailureTag), Close(Fail)];
    assert [Open(SkippedTag)] + none + [Close(Skip)] == [Open(SkippedTag), Close(Skip)];
  }

  lemma {:induction false} CaseNeutral(name: string, suite: string, time: nat, v: Verdict, out: string, err: string)
    ensures Neutral(CaseLines(name, suite, time, v, out, err))
  {
    var open := TestCase(Escape(name), suite, Some(time));
    MarksNeutral(v);
    OutputsNeutral(out, err);
    NeutralConcat(Marks(v), Outputs(out, err));
    Wrapped(open, Marks(v) + Outputs(out, err));
    Sequences.Assoc([Open(open)], Marks(v), Outputs(out, err));
  }

  lemma {:induction false} RanNeutral(tests: seq<Test>, suite: string)
    ensures Neutral(RanLines(tests, suite)) && Neutral(OmittedLines(tests, suite))
  {
    if tests != [] {
      var t := tests[0];
      RanNeutral(tests[1..], suite);
      CaseNeutral(t.name, suite, t.time, VerdictOf(t), t.out, t.err);
      CaseNeutral(t.name, suite, 0, Omitted, "", "");
      NeutralConcat(CaseLines(t.name, suite, t.time, VerdictOf(t), t.out, t.err), RanLines(tests[1..], suite));
      NeutralConcat(CaseLines(t.name, suite, 0, Omitted, "", ""), OmittedLines(tests[1..], suite));
    }
  }

  lemma {:induction false} FileNeutral(flag: Option<bool>, f: File)
    ensures Neutral(FileLines(flag, f))
  {
    var tag, inner := TestSuite(SuiteName(f.name), |f.tests|), FileCases(flag, f) + Outputs(f.out, f.err);
    RanNeutral(f.tests, SuiteName(f.name));
    OutputsNeutral(f.out, f.err);
    NeutralConcat(FileCases(flag, f), Outputs(f.out, f.err));
    Wrapped(tag, inner);
    Sequences.Assoc([Open(tag)], FileCases(flag, f), Outputs(f.out, f.err));
  }

  lemma {:induction false} FilesNeutral(flag: Option<bool>, files: seq<File>)
    ensures Neutral(FilesLines(flag, files))
    decreases |files|
  {
    if files != [] {
      FileNeutral(flag, files[0]);
      FilesNeutral(FlagAfter(flag, files[0]), files[1..]);
      NeutralConcat(FileLines(flag, files[0]), FilesLines(FlagAfter(flag, files[0]), files[1..]));
    }
  }

  lemma {:induction false} Framed(first: Line, open: Line, lines: seq<Line>, close: Line)
    ensures [first, open] + lines + [close] == [first] + ([open] + lines + [close])
    ensures [first, open] + lines + [close] == [first, open] + (lines + [close])
  {
  }

  lemma {:induction false} ReportIs(files: seq<File>)
    ensures RunAll(files).report == [Prolog, Open(TestSuites)] + FilesLines(None, files) + [Close(Suites)]
  {
    RunFilesIs(START, files);
  }

  /** Every run writes a balanced report: each tag is closed by its own closing tag. */
  lemma {:induction false} ReportIsBalanced(files: seq<File>)
    ensures Scan(RunAll(files).report, []) == Some([])
  {
    var lines := FilesLines(None, files);
    ReportIs(files);
    FilesNeutral(None, files);
    Wrapped(TestSuites, lines);
    Framed(Prolog, Open(TestSuites), lines, Close(Suites));
  }

  // ---------- Accuracy ----------

  /** The test cases opened before the suite is closed. */
  function CasesAhead(lines: seq<Line>): nat {
    if lines == [] || lines[0] == Close(Suite) then 0
    else (if lines[0].Open? && lines[0].tag.TestCase? then 1 else 0) + CasesAhead(lines[1..])
  }

  /** Every suite holds as many test cases as its `tests` attribute says. */
  predicate Accurate(lines: seq<Line>) {
    lines == [] ||
    ((lines[0].Open? && lines[0].tag.TestSuite? ==> CasesAhead(lines[1..]) == lines[0].tag.tests) && Accurate(lines[1..]))
  }

  function CountCases(lines: seq<Line>): nat {
    if lines == [] then 0 else (if lines[0].Open? && lines[0].tag.TestCase? then 1 else 0) + CountCases(lines[1..])
  }

  predicate InsideSuite(lines: seq<Line>) {
    forall l | l in lines :: l != Close(Suite) && !(l.Open? && l.tag.TestSuite?)
  }

  lemma {:induction false} AheadInside(inner: seq<Line>, rest: seq<Line>)
    requires InsideSuite(inner)
    ensures CasesAhead(inner + rest) == CountCases(inner) + CasesAhead(rest)
    ensures Accurate(inner + rest) <==> Accurate(rest)
  {
    if inner == [] {
      assert inner + rest == rest;
    } else {
      assert inner[0] in inner && forall l | l in inner[1..] :: l in inner;
      assert (inner + rest)[1..] == inner[1..] + rest;
      AheadInside(inner[1..], rest);
    }
  }

  lemma {:induction false} CountConcat(a: seq<Line>, b: seq<Line>)
    ensures CountCases(a + b) == CountCases(a) + CountCases(b)
  {
    if a == [] {
      assert a + b == b;
    } else {
      CountConcat(a[1..], b);
      assert (a + b)[1..] == a[1..] + b;
    }
  }

  /** Lines that neither open a case nor open or close a suite. */
  ghost predicate Quiet(lines: seq<Line>) {
    CountCases(lines) == 0 && InsideSuite(lines)
  }

  lemma {:induction false} InsideConcat(a: seq<Line>, b: seq<Line>)
    requires InsideSuite(a) && InsideSuite(b)
    ensures InsideSuite(a + b) && CountCases(a + b) == CountCases(a) + CountCases(b)
  {
    CountConcat(a, b);
  }

  lemma {:induction false} QuietOutput(tag: Tag, text: string)
    requires tag == SystemOut || tag == SystemErr
    ensures Quiet(Output(tag, text))
  {
    if text != "" {
      InsideConcat([Open(tag)], [Text(Escape(text))]);
      InsideConcat([Open(tag)] + [Text(Escape(text))], [Close(KindOf(tag))]);
      assert Output(tag, text) == [Open(tag)] + [Text(Escape(text))] + [Close(KindOf(tag))];
    }
  }

  lemma {:induction false} QuietOutputs(out: string, err: string)
    ensures Quiet(Outputs(out, err))
  {
    QuietOutput(SystemOut, out);
    QuietOutput(SystemErr, err);
    InsideConcat(Output(SystemOut, out), Output(SystemErr, err));
  }

  lemma {:induction false} QuietMarks(tag: Tag)
    requires tag == FailureTag || tag == SkippedTag
    ensures Quiet([Open(tag), Close(KindOf(tag))])
  {
    InsideConcat([Open(tag)], [Close(KindOf(tag))]);
    assert [Open(tag)] + [Close(KindOf(tag))] == [Open(tag), Close(KindOf(tag))];
  }

  lemma {:induction false} OneCase(name: string, suite: string, time: nat, v: Verdict, out: string, err: string)
    ensures var lines := CaseLines(name, suite, time, v, out, err);
            CountCases(lines) == 1 && InsideSuite(lines)
  {
    var open := [Open(TestCase(Escape(name), suite, Some(time)))];
    var marks := Marks(v);
    assert open[1..] == [];
    QuietMarks(FailureTag);
    QuietMarks(SkippedTag);
    QuietOutputs(out, err);
    InsideConcat(open, marks);
    InsideConcat(open + marks, Outputs(out, err));
    InsideConcat(open + marks + Outputs(out, err), [Close(Case)]);
  }

  lemma {:induction false} CasesOf(tests: seq<Test>, suite: string)
    ensures CountCases(RanLines(tests, suite)) == |tests| && InsideSuite(RanLines(tests, suite))
    ensures CountCases(OmittedLines(tests, suite)) == |tests| && InsideSuite(OmittedLines(tests, suite))
  {
    if tests != [] {
      var t := tests[0];
      CasesOf(tests[1..], suite);
      OneCase(t.name, suite, t.time, VerdictOf(t), t.out, t.err);
      OneCase(t.name, suite, 0, Omitted, "", "");
      CountConcat(CaseLines(t.name, suite, t.time, VerdictOf(t), t.out, t.err), RanLines(tests[1..], suite));
      CountConcat(CaseLines(t.name, suite, 0, Omitted, "", ""), OmittedLines(tests[1..], suite));
    }
  }

  lemma {:induction false} FileInner(flag: Option<bool>, f: File)
    ensures var inner := FileCases(flag, f) + Outputs(f.out, f.err);
            InsideSuite(inner) && CountCases(inner) == if FateOf(flag, f).Lost? then 0 else |f.tests|
  {
    CasesOf(f.tests, SuiteName(f.name));
    QuietOutputs(f.out, f.err);
    InsideConcat(FileCases(flag, f), Outputs(f.out, f.err));
  }

  lemma {:induction false} FilesAccurate(flag: Option<bool>, files: seq<File>, rest: seq<Line>)
    ensures Accurate(FilesLines(flag, files) + rest) <==> AllAccounted(flag, files) && Accurate(rest)
    decreases |files|
  {
    if files == [] {
      assert FilesLines(flag, files) + rest == rest;
    } else {
      var f, later := files[0], FilesLines(FlagAfter(flag, files[0]), files[1..]) + rest;
      var inner := FileCases(flag, f) + Outputs(f.out, f.err);
      var open := [Open(TestSuite(SuiteName(f.name), |f.tests|))];
      FileSplits(flag, files, rest);
      FileInner(flag, f);
      AheadInside(inner, [Close(Suite)] + later);
      assert ([Close(Suite)] + later)[1..] == later;
      assert (open + (inner + ([Close(Suite)] + later)))[1..] == inner + ([Close(Suite)] + later);
      FilesAccurate(FlagAfter(flag, f), files[1..], rest);
    }
  }

  lemma {:induction false} FileSplits(flag: Option<bool>, files: seq<File>, rest: seq<Line>)
    requires files != []
    ensures var f := files[0];
            FilesLines(flag, files) + rest ==
            [Open(TestSuite(SuiteName(f.name), |f.tests|))] +
            ((FileCases(flag, f) + Outputs(f.out, f.err)) + ([Close(Suite)] + (FilesLines(FlagAfter(flag, f), files[1..]) + rest)))
  {
    var f := files[0];
    var open, cases, outputs := [Open(TestSuite(SuiteName(f.name), |f.tests|))], FileCases(flag, f), Outputs(f.out, f.err);
    var next := FilesLines(FlagAfter(flag, f), files[1..]);
    Sequences.Assoc(FileLines(flag, f), next, rest);
    Sequences.Assoc(open + cases + outputs, [Close(Suite)], next + rest);
    Sequences.Assoc(open, cases, outputs);
    Sequences.Assoc(open, cases + outputs, [Close(Suite)] + (next + rest));
  }

  /** Each suite of the report holds exactly the test cases it announces, if and only if no file loses its tests. */
  lemma {:induction false} ReportIsAccurate(files: seq<File>)
    ensures Accurate(RunAll(files).report) <==> AllAccounted(None, files)
  {
    var lines, tail, head := FilesLines(None, files), [Close(Suites)], [Prolog, Open(TestSuites)];
    ReportIs(files);
    Framed(Prolog, Open(TestSuites), lines, Close(Suites));
    AheadInside(head, lines + tail);
    FilesAccurate(None, files, tail);
  }

  /** No test that runs fails, and no file skips a test: its own setup holds, or it exits while it is sourced after a setup
      that held, or it has no tests. */
  predicate AllSucceed(flag: Option<bool>, files: seq<File>)
    decreases |files|
  {
    files == [] ||
    (var f := files[0];
     && (f.sources && SetsUp(f.globalSetup) ==> forall t | t in f.tests :: Succeeds(t))
     && ((f.sources && !SetsUp(f.globalSetup)) || (!f.sources && flag == Some(true)) ==> f.tests == [])
     && AllSucceed(FlagAfter(flag, f), files[1..]))
  }

  lemma {:induction false} NoneFails(tests: seq<Test>)
    ensures Failing(tests) == 0 <==> forall t | t in tests :: Succeeds(t)
  {
    if tests != [] {
      NoneFails(tests[1..]);
      Sequences.HeadTail(tests);
    }
  }

  lemma {:induction false} AllSucceedIff(flag: Option<bool>, files: seq<File>)
    ensures FailingIn(flag, files) == 0 && Count(AllSkipped, flag, files) == 0 <==> AllSucceed(flag, files)
    decreases |files|
  {
    if files != [] {
      NoneFails(files[0].tests);
      AllSucceedIff(FlagAfter(flag, files[0]), files[1..]);
    }
  }

  /** A run is successful if and only if no test that runs fails and none is skipped; lost tests do not matter. */
  lemma {:induction false} SuccessIff(files: seq<File>)
    ensures Successful(RunAll(files)) <==> AllSucceed(None, files)
  {
    EveryTestIsCounted(files);
    AllSucceedIff(None, files);
  }

  /** A file that exits while it is sourced loses its tests, and the run still counts as successful. */
  lemma {:induction false} LostTestsGoUnnoticed(t: Test)
    ensures var f := File("a_test.sh", false, Absent, [t], "", "");
            Successful(RunAll([f])) && RunAll([f]).successful == 0 && TotalTests([f]) == 1
  {
    var f := File("a_test.sh", false, Absent, [t], "", "");
    assert [f][1..] == [];
    RunFilesIs(START, [f]);
  }
}
