/** The shell test runner: its result counters, its global setup flag and its JUnit report (tests/shebang-unit). */
module ShebangRunner {
  import opened Wrappers
  import opened XmlText
  import Sequences

  /** How a function that a test file may define ends: it returns a status, or exits the shell it runs in. */
  datatype Call = Absent | Returns(code: nat) | Exits(code: nat)

  /** One test: how its setup, body and teardown end, how long it takes, and what it prints. */
  datatype Test = Test(name: string, setup: Call, body: nat, teardown: Call, time: nat, out: string, err: string)

  /** One test file; `sources` says whether sourcing it comes back instead of exiting the shell. */
  datatype File = File(name: string, sources: bool, globalSetup: Call, tests: seq<Test>, out: string, err: string)

  datatype Tag =
    | TestSuites
    | TestSuite(name: string, tests: nat)
    | TestCase(name: string, classname: string, time: Option<nat>)
    | FailureTag
    | SkippedTag
    | SystemOut
    | SystemErr

  datatype Line = Prolog | Open(tag: Tag) | Close(kind: Kind) | Text(text: string)

  datatype Kind = Suites | Suite | Case | Fail | Skip | Out | Err

  function KindOf(tag: Tag): Kind {
    match tag
    case TestSuites => Suites
    case TestSuite(_, _) => Suite
    case TestCase(_, _, _) => Case
    case FailureTag => Fail
    case SkippedTag => Skip
    case SystemOut => Out
    case SystemErr => Err
  }

  /** The file database, as far as the counters, the flag and the reporter use it, and the report file. */
  datatype State = State(successful: nat, failing: nat, skipped: nat, setupFailed: Option<bool>, suite: string, report: seq<Line>)

  // ---------- Statuses ----------

  /** The status of the subshell of a test (tests/shebang-unit:396-403): an exit in setup or teardown decides it alone. */
  function TestStatus(t: Test): nat {
    if t.setup.Exits? then t.setup.code
    else
      var first := if t.setup.Returns? && t.setup.code != 0 then t.setup.code else t.body;
      if t.teardown.Exits? then t.teardown.code
      else if (t.teardown.Absent? || t.teardown.code == 0) && first == 0 then 0 else 1
  }

  /** The flag is set before the global setup and cleared only if that returns 0 (tests/shebang-unit:267-271). */
  predicate SetupFails(setup: Call) {
    setup.Exits? || (setup.Returns? && setup.code != 0)
  }

  // ---------- The report ----------

  /** The elapsed time replaces its placeholder wherever the report holds it (tests/shebang-unit:715-722). */
  function SetTime(report: seq<Line>, time: nat): seq<Line> {
    if report == [] then []
    else
      var line := report[0];
      [if line.Open? && line.tag.TestCase? && line.tag.time.None? then Open(line.tag.(time := Some(time))) else line]
      + SetTime(report[1..], time)
  }

  function Output(tag: Tag, text: string): seq<Line> {
    if text == "" then [] else [Open(tag), Text(Escape(text)), Close(KindOf(tag))]
  }

  /** tests/shebang-unit:762-788 */
  function Outputs(out: string, err: string): seq<Line> {
    Output(SystemOut, out) + Output(SystemErr, err)
  }

  /** tests/shebang-unit:734-739, on the path relative to the test directory */
  function SuiteName(file: string): string {
    Escape(Replace(Replace(file, '.', "_"), '/', "."))
  }

  // ---------- Tests ----------

  function StartTest(st: State, name: string): State {
    st.(report := st.report + [Open(TestCase(Escape(name), st.suite, None))])
  }

  function EndTest(st: State, time: nat, out: string, err: string): State {
    st.(report := SetTime(st.report, time) + Outputs(out, err) + [Close(Case)])
  }

  /** tests/shebang-unit:391-428 */
  function RunTest(st: State, t: Test): State {
    var started := StartTest(st, t.name);
    var judged :=
      if TestStatus(t) == 0 then started.(successful := st.successful + 1)
      else started.(failing := st.failing + 1, report := started.report + [Open(FailureTag), Close(Fail)]);
    EndTest(judged, t.time, t.out, t.err)
  }

  /** tests/shebang-unit:438-444 */
  function SkipTest(st: State, t: Test): State {
    var started := StartTest(st, t.name);
    EndTest(started.(skipped := st.skipped + 1, report := started.report + [Open(SkippedTag), Close(Skip)]), 0, "", "")
  }

  function RunTests(st: State, tests: seq<Test>): State
    decreases |tests|
  {
    if tests == [] then st else RunTests(RunTest(st, tests[0]), tests[1..])
  }

  function SkipTests(st: State, tests: seq<Test>): State
    decreases |tests|
  {
    if tests == [] then st else SkipTests(SkipTest(st, tests[0]), tests[1..])
  }

  // ---------- Files ----------

  function StartFile(st: State, f: File): State {
    st.(suite := SuiteName(f.name), report := st.report + [Open(TestSuite(SuiteName(f.name), |f.tests|))])
  }

  /** The subshell of a file (tests/shebang-unit:221-224). */
  function SourceFile(st: State, f: File): State {
    if !f.sources then st
    else if SetupFails(f.globalSetup) then st.(setupFailed := Some(true))
    else RunTests(st.(setupFailed := Some(false)), f.tests)
  }

  function EndFile(st: State, f: File): State {
    st.(suite := "", report := st.report + Outputs(f.out, f.err) + [Close(Suite)])
  }

  /** tests/shebang-unit:216-227 */
  function RunFile(st: State, f: File): State {
    var sourced := SourceFile(StartFile(st, f), f);
    EndFile(if sourced.setupFailed == Some(true) then SkipTests(sourced, f.tests) else sourced, f)
  }

  function RunFiles(st: State, files: seq<File>): State
    decreases |files|
  {
    if files == [] then st else RunFiles(RunFile(st, files[0]), files[1..])
  }

  const START := State(0, 0, 0, None, "", [Prolog, Open(TestSuites)])

  /** tests/shebang-unit:182-199 */
  function RunAll(files: seq<File>): State {
    var st := RunFiles(START, files);
    st.(report := st.report + [Close(Suites)])
  }

  /** tests/shebang-unit:210-213 */
  predicate Successful(st: State) {
    st.failing == 0 && st.skipped == 0
  }

  // ---------- The program ----------

  class Runner {
    var successful: nat
    var failing: nat
    var skipped: nat
    var setupFailed: Option<bool>
    var suite: string
    var report: seq<Line>

    ghost function Snapshot(): State
      reads this
    {
      State(successful, failing, skipped, setupFailed, suite, report)
    }

    method WriteLine(line: Line)
      modifies this`report
      ensures report == old(report) + [line]
    {
      report := report + [line];
    }

    /** tests/shebang-unit:767-788 */
    method FlushOutput(tag: Tag, text: string)
      modifies this`report
      ensures report == old(report) + Output(tag, text)
    {
      if text != "" {
        WriteLine(Open(tag));
        var encoded := EncodeText(text);
        WriteLine(Text(encoded));
        WriteLine(Close(KindOf(tag)));
      }
    }

    /** tests/shebang-unit:762-765 */
    method FlushOutputs(out: string, err: string)
      modifies this`report
      ensures report == old(report) + Outputs(out, err)
    {
      FlushOutput(SystemOut, out);
      FlushOutput(SystemErr, err);
      Sequences.Assoc(old(report), Output(SystemOut, out), Output(SystemErr, err));
    }

    /** tests/shebang-unit:715-722 */
    method WriteTime(time: nat)
      modifies this`report
      ensures report == SetTime(old(report), time)
    {
      var content := [];
      for i := 0 to |report|
        invariant report == old(report)
        invariant content + SetTime(report[i..], time) == SetTime(report, time)
      {
        Sequences.SuffixStep(report, i);
        var line := report[i];
        if line.Open? && line.tag.TestCase? && line.tag.time.None? {
          line := Open(line.tag.(time := Some(time)));
        }
        Sequences.Assoc(content, [line], SetTime(report[i + 1..], time));
        content := content + [line];
      }
      assert report[|report|..] == [] && content + [] == content;
      report := content;
    }

    method TestStarts(name: string)
      modifies this`report
      ensures Snapshot() == StartTest(old(Snapshot()), name)
    {
      var encoded := EncodeText(name);
      WriteLine(Open(TestCase(encoded, suite, None)));
    }

    method TestEnds(time: nat, out: string, err: string)
      modifies this`report
      ensures Snapshot() == EndTest(old(Snapshot()), time, out, err)
    {
      WriteTime(time);
      FlushOutputs(out, err);
      WriteLine(Close(Case));
    }

    method RunOne(t: Test)
      modifies this
      ensures Snapshot() == RunTest(old(Snapshot()), t)
    {
      TestStarts(t.name);
      if TestStatus(t) == 0 {
        successful := successful + 1;
      } else {
        failing := failing + 1;
        ghost var before := report;
        WriteLine(Open(FailureTag));
        WriteLine(Close(Fail));
        assert report == before + [Open(FailureTag), Close(Fail)];
      }
      TestEnds(t.time, t.out, t.err);
    }

    method SkipOne(t: Test)
      modifies this
      ensures Snapshot() == SkipTest(old(Snapshot()), t)
    {
      TestStarts(t.name);
      skipped := skipped + 1;
      ghost var before := report;
      WriteLine(Open(SkippedTag));
      WriteLine(Close(Skip));
      assert report == before + [Open(SkippedTag), Close(Skip)];
      TestEnds(0, "", "");
    }

    /** tests/shebang-unit:233-238 */
    method CallAllTests(tests: seq<Test>)
      modifies this
      ensures Snapshot() == RunTests(old(Snapshot()), tests)
    {
      for i := 0 to |tests|
        invariant RunTests(Snapshot(), tests[i..]) == RunTests(old(Snapshot()), tests)
      {
        assert tests[i..][0] == tests[i] && tests[i..][1..] == tests[i + 1..];
        RunOne(tests[i]);
      }
      assert tests[|tests|..] == [];
    }

    /** tests/shebang-unit:240-245 */
    method SkipAllTests(tests: seq<Test>)
      modifies this
      ensures Snapshot() == SkipTests(old(Snapshot()), tests)
    {
      for i := 0 to |tests|
        invariant SkipTests(Snapshot(), tests[i..]) == SkipTests(old(Snapshot()), tests)
      {
        assert tests[i..][0] == tests[i] && tests[i..][1..] == tests[i + 1..];
        SkipOne(tests[i]);
      }
      assert tests[|tests|..] == [];
    }

    method RunTestFile(f: File)
      modifies this
      ensures Snapshot() == RunFile(old(Snapshot()), f)
    {
      var relative := Replace(Replace(f.name, '.', "_"), '/', ".");
      suite := EncodeText(relative);
      WriteLine(Open(TestSuite(suite, |f.tests|)));
      if f.sources {
        setupFailed := Some(true);
        if !SetupFails(f.globalSetup) {
          setupFailed := Some(false);
          CallAllTests(f.tests);
        }
      }
      if setupFailed == Some(true) {
        SkipAllTests(f.tests);
      }
      FlushOutputs(f.out, f.err);
      WriteLine(Close(Suite));
      suite := "";
    }

    constructor (files: seq<File>)
      ensures Snapshot() == RunAll(files)
    {
      successful, failing, skipped, setupFailed, suite := 0, 0, 0, None, "";
      report := [Prolog, Open(TestSuites)];
      new;
      for i := 0 to |files|
        invariant RunFiles(Snapshot(), files[i..]) == RunFiles(START, files)
      {
        assert files[i..][0] == files[i] && files[i..][1..] == files[i + 1..];
        RunTestFile(files[i]);
      }
      assert files[|files|..] == [];
      WriteLine(Close(Suites));
    }
  }
}
