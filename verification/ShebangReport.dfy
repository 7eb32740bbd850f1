/** The JUnit report read back: what a reader of the file learns about every suite and every test. */
module ShebangReport {
  import opened Wrappers
  import opened XmlText
  import opened ShebangRunner
  import opened ShebangTheorems
  import Sequences

  // ---------- A reader ----------

  /** A test case as read: names and outputs are decoded, and an output element that is not there is None. */
  datatype CaseRead = CaseRead(name: string, suite: string, time: nat, failed: bool, skipped: bool, out: Option<string>, err: Option<string>)

  datatype SuiteRead = SuiteRead(name: string, tests: nat, cases: seq<CaseRead>, out: Option<string>, err: Option<string>)

  /** What was read from the front of the lines, and the lines that follow. */
  datatype Read<T> = Read(found: T, rest: seq<Line>)

  function ReadOut(lines: seq<Line>): Read<Option<string>> {
    if |lines| >= 3 && lines[0] == Open(SystemOut) && lines[1].Text? && lines[2] == Close(Out) then
      Read(Some(Unescape(lines[1].text)), lines[3..])
    else Read(None, lines)
  }

  function ReadErr(lines: seq<Line>): Read<Option<string>> {
    if |lines| >= 3 && lines[0] == Open(SystemErr) && lines[1].Text? && lines[2] == Close(Err) then
      Read(Some(Unescape(lines[1].text)), lines[3..])
    else Read(None, lines)
  }

  function ReadFailure(lines: seq<Line>): Read<bool> {
    if |lines| >= 2 && lines[0] == Open(FailureTag) && lines[1] == Close(Fail) then Read(true, lines[2..]) else Read(false, lines)
  }

  function ReadSkipped(lines: seq<Line>): Read<bool> {
    if |lines| >= 2 && lines[0] == Open(SkippedTag) && lines[1] == Close(Skip) then Read(true, lines[2..]) else Read(false, lines)
  }

  function ReadCase(lines: seq<Line>): Option<Read<CaseRead>> {
    if lines == [] || !lines[0].Open? || !lines[0].tag.TestCase? || lines[0].tag.time.None? then None
    else
      var tag := lines[0].tag;
      var failure := ReadFailure(lines[1..]);
      var skipped := ReadSkipped(failure.rest);
      var out := ReadOut(skipped.rest);
      var err := ReadErr(out.rest);
      if err.rest == [] || err.rest[0] != Close(Case) then None
      else
        Some(Read(CaseRead(Unescape(tag.name), Unescape(tag.classname), tag.time.value, failure.found, skipped.found, out.found, err.found),
                  err.rest[1..]))
  }

  /** Cases for as long as there are any. */
  function ReadCases(lines: seq<Line>): Read<seq<CaseRead>>
    decreases |lines|
  {
    match ReadCase(lines)
    case None => Read([], lines)
    case Some(Read(first, rest)) =>
      if |rest| >= |lines| then Read([], lines)
      else var more := ReadCases(rest); Read([first] + more.found, more.rest)
  }

  function ReadSuite(lines: seq<Line>): Option<Read<SuiteRead>> {
    if lines == [] || !lines[0].Open? || !lines[0].tag.TestSuite? then None
    else
      var tag := lines[0].tag;
      var cases := ReadCases(lines[1..]);
      var out := ReadOut(cases.rest);
      var err := ReadErr(out.rest);
      if err.rest == [] || err.rest[0] != Close(Suite) then None
      else Some(Read(SuiteRead(Unescape(tag.name), tag.tests, cases.found, out.found, err.found), err.rest[1..]))
  }

  function ReadSuites(lines: seq<Line>): Read<seq<SuiteRead>>
    decreases |lines|
  {
    match ReadSuite(lines)
    case None => Read([], lines)
    case Some(Read(first, rest)) =>
      if |rest| >= |lines| then Read([], lines)
      else var more := ReadSuites(rest); Read([first] + more.found, more.rest)
  }

  /** A whole report: the prolog, and suites between the outermost tags with nothing after them. */
  function ReadReport(lines: seq<Line>): Option<seq<SuiteRead>> {
    if |lines| < 2 || lines[0] != Prolog || lines[1] != Open(TestSuites) then None
    else
      var suites := ReadSuites(lines[2..]);
      if suites.rest == [Close(Suites)] then Some(suites.found) else None
  }

  // ---------- What should be read ----------

  /** A captured output has an element if and only if it is not empty. */
  function Captured(text: string): Option<string> {
    if text == "" then None else Some(text)
  }

  /** The path with each dot as an underscore and each slash as a dot. */
  function AsSuite(path: string): string {
    if path == "" then ""
    else [if path[0] == '.' then '_' else if path[0] == '/' then '.' else path[0]] + AsSuite(path[1..])
  }

  function RanCase(t: Test, suite: string): CaseRead {
    CaseRead(t.name, suite, t.time, !Succeeds(t), false, Captured(t.out), Captured(t.err))
  }

  function OmittedCase(t: Test, suite: string): CaseRead {
    CaseRead(t.name, suite, 0, false, true, None, None)
  }

  function RanCases(tests: seq<Test>, suite: string): seq<CaseRead> {
    if tests == [] then [] else [RanCase(tests[0], suite)] + RanCases(tests[1..], suite)
  }

  function OmittedCases(tests: seq<Test>, suite: string): seq<CaseRead> {
    if tests == [] then [] else [OmittedCase(tests[0], suite)] + OmittedCases(tests[1..], suite)
  }

  function SuiteOf(flag: Option<bool>, f: File): SuiteRead {
    var name := AsSuite(f.name);
    var cases := match FateOf(flag, f)
      case Ran => RanCases(f.tests, name)
      case AllSkipped => OmittedCases(f.tests, name)
      case Lost => [];
    SuiteRead(name, |f.tests|, cases, Captured(f.out), Captured(f.err))
  }

  function SuitesOf(flag: Option<bool>, files: seq<File>): seq<SuiteRead>
    decreases |files|
  {
    if files == [] then [] else [SuiteOf(flag, files[0])] + SuitesOf(FlagAfter(flag, files[0]), files[1..])
  }

  // ---------- Names ----------

  lemma {:induction false} AsSuiteIs(path: string)
    ensures Replace(Replace(path, '.', "_"), '/', ".") == AsSuite(path)
  {
    if path != "" {
      AsSuiteIs(path[1..]);
      var first := if path[0] == '.' then "_" else [path[0]];
      Sequences.HeadTail(path);
      ReplaceConcat(first, Replace(path[1..], '.', "_"), '/', ".");
      assert first[1..] == "";
    }
  }

  /** The two replacements of a suite's path are one simultaneous renaming, and the attribute decodes to it. */
  lemma {:induction false} SuiteNameDecodes(path: string)
    ensures Unescape(SuiteName(path)) == AsSuite(path)
  {
    AsSuiteIs(path);
    UnescapeEscape(AsSuite(path));
  }

  // ---------- Reading what was written ----------

  /** Lines that do not begin with an output element. */
  ghost predicate NoOutput(lines: seq<Line>) {
    lines != [] && lines[0] != Open(SystemOut) && lines[0] != Open(SystemErr)
  }

  lemma {:induction false} ErrReads(text: string, rest: seq<Line>)
    requires NoOutput(rest)
    ensures ReadErr(Output(SystemErr, text) + rest) == Read(Captured(text), rest)
    ensures (Output(SystemErr, text) + rest)[0] != Open(SystemOut)
  {
    if text != "" {
      UnescapeEscape(text);
    }
  }

  lemma {:induction false} OutReads(text: string, rest: seq<Line>)
    requires rest != [] && rest[0] != Open(SystemOut)
    ensures ReadOut(Output(SystemOut, text) + rest) == Read(Captured(text), rest)
  {
    if text != "" {
      UnescapeEscape(text);
    }
  }

  lemma {:induction false} OutputsRead(out: string, err: string, rest: seq<Line>)
    requires NoOutput(rest)
    ensures ReadOut(Outputs(out, err) + rest).found == Captured(out)
    ensures ReadErr(ReadOut(Outputs(out, err) + rest).rest) == Read(Captured(err), rest)
  {
    Sequences.Assoc(Output(SystemOut, out), Output(SystemErr, err), rest);
    ErrReads(err, rest);
    OutReads(out, Output(SystemErr, err) + rest);
  }

  /** Lines that a mark is not the first of. */
  ghost predicate NoMark(lines: seq<Line>) {
    lines != [] && lines[0] != Open(FailureTag) && lines[0] != Open(SkippedTag)
  }

  lemma {:induction false} MarksRead(v: Verdict, rest: seq<Line>)
    requires NoMark(rest)
    ensures ReadFailure(Marks(v) + rest).found == (v == Failed)
    ensures ReadSkipped(ReadFailure(Marks(v) + rest).rest) == Read(v == Omitted, rest)
  {
    match v
    case Passed => Sequences.EmptyUnit(rest);
    case Failed =>
    case Omitted =>
  }

  lemma {:induction false} CaseSplits(open: Line, marks: seq<Line>, outputs: seq<Line>, close: Line, rest: seq<Line>)
    ensures var lines := [open] + marks + outputs + [close] + rest;
            && lines[0] == open && lines[1..] == marks + (outputs + ([close] + rest))
            && ([close] + rest)[0] == close && ([close] + rest)[1..] == rest
  {
  }

  lemma {:induction false} CaseReads(name: string, suite: string, time: nat, v: Verdict, out: string, err: string, rest: seq<Line>)
    ensures ReadCase(CaseLines(name, suite, time, v, out, err) + rest) ==
            Some(Read(CaseRead(name, Unescape(suite), time, v == Failed, v == Omitted, Captured(out), Captured(err)), rest))
    ensures |rest| < |CaseLines(name, suite, time, v, out, err) + rest|
  {
    var open, after := Open(TestCase(Escape(name), suite, Some(time))), [Close(Case)] + rest;
    CaseSplits(open, Marks(v), Outputs(out, err), Close(Case), rest);
    MarksRead(v, Outputs(out, err) + after);
    OutputsRead(out, err, after);
    UnescapeEscape(name);
  }

  /** Lines that do not begin with a test case. */
  ghost predicate NoCase(lines: seq<Line>) {
    lines == [] || !lines[0].Open? || !lines[0].tag.TestCase?
  }

  lemma {:induction false} RanRead(tests: seq<Test>, suite: string, rest: seq<Line>)
    requires NoCase(rest)
    ensures ReadCases(RanLines(tests, suite) + rest) == Read(RanCases(tests, Unescape(suite)), rest)
  {
    if tests == [] {
      Sequences.EmptyUnit(rest);
    } else {
      var t, more := tests[0], RanLines(tests[1..], suite) + rest;
      var first := CaseLines(t.name, suite, t.time, VerdictOf(t), t.out, t.err);
      Sequences.Assoc(first, RanLines(tests[1..], suite), rest);
      CaseReads(t.name, suite, t.time, VerdictOf(t), t.out, t.err, more);
      RanRead(tests[1..], suite, rest);
    }
  }

  lemma {:induction false} OmittedRead(tests: seq<Test>, suite: string, rest: seq<Line>)
    requires NoCase(rest)
    ensures ReadCases(OmittedLines(tests, suite) + rest) == Read(OmittedCases(tests, Unescape(suite)), rest)
  {
    if tests == [] {
      Sequences.EmptyUnit(rest);
    } else {
      var t, more := tests[0], OmittedLines(tests[1..], suite) + rest;
      Sequences.Assoc(CaseLines(t.name, suite, 0, Omitted, "", ""), OmittedLines(tests[1..], suite), rest);
      CaseReads(t.name, suite, 0, Omitted, "", "", more);
      OmittedRead(tests[1..], suite, rest);
    }
  }

  lemma {:induction false} FileReads(flag: Option<bool>, f: File, rest: seq<Line>)
    ensures ReadSuite(FileLines(flag, f) + rest) == Some(Read(SuiteOf(flag, f), rest))
    ensures |rest| < |FileLines(flag, f) + rest|
  {
    var name, after := SuiteName(f.name), [Close(Suite)] + rest;
    var outputs := Outputs(f.out, f.err);
    CaseSplits(Open(TestSuite(name, |f.tests|)), FileCases(flag, f), outputs, Close(Suite), rest);
    SuiteNameDecodes(f.name);
    match FateOf(flag, f) {
      case Ran => RanRead(f.tests, name, outputs + after);
      case AllSkipped => OmittedRead(f.tests, name, outputs + after);
      case Lost => NoneRead(outputs + after);
    }
    OutputsRead(f.out, f.err, after);
  }

  lemma {:induction false} NoneRead(rest: seq<Line>)
    requires NoCase(rest)
    ensures ReadCases([] + rest) == Read([], rest)
  {
    Sequences.EmptyUnit(rest);
  }

  lemma {:induction false} FilesRead(flag: Option<bool>, files: seq<File>, rest: seq<Line>)
    requires rest == [Close(Suites)]
    ensures ReadSuites(FilesLines(flag, files) + rest) == Read(SuitesOf(flag, files), rest)
    decreases |files|
  {
    if files == [] {
      Sequences.EmptyUnit(rest);
    } else {
      var f, more := files[0], FilesLines(FlagAfter(flag, files[0]), files[1..]);
      Sequences.Assoc(FileLines(flag, f), more, rest);
      FileReads(flag, f, more + rest);
      FilesRead(FlagAfter(flag, f), files[1..], rest);
    }
  }

  /** Whatever the tests are called and print, the report of a run reads back to what happened: every suite with its path,
      its number of tests and its outputs, and every test that ran or was skipped with its time, verdict and outputs. */
  lemma {:induction false} ReportReadsBack(files: seq<File>)
    ensures ReadReport(RunAll(files).report) == Some(SuitesOf(None, files))
  {
    var lines, tail := FilesLines(None, files), [Close(Suites)];
    ReportIs(files);
    Framed(Prolog, Open(TestSuites), lines, Close(Suites));
    assert ([Prolog, Open(TestSuites)] + (lines + tail))[2..] == lines + tail;
    FilesRead(None, files, tail);
  }

  // ---------- Nothing raw ----------

  /** Neither a text nor a name in the line holds a character that could be taken for markup or end an attribute. */
  predicate Plain(text: string) {
    forall c | c in text :: c != '<' && c != '>' && c != '"' && c != '\''
  }

  predicate LineIsSafe(l: Line) {
    match l
    case Text(text) => Plain(text)
    case Open(TestSuite(name, _)) => Plain(name)
    case Open(TestCase(name, classname, _)) => Plain(name) && Plain(classname)
    case Open(_) => true
    case Close(_) => true
    case Prolog => true
  }

  ghost predicate Safe(lines: seq<Line>) {
    forall l | l in lines :: LineIsSafe(l)
  }

  lemma {:induction false} EscapeIsPlain(s: string)
    ensures Plain(Escape(s))
  {
    EscapeIsSafe(s);
  }

  lemma {:induction false} OutputsSafe(out: string, err: string)
    ensures Safe(Outputs(out, err))
  {
    EscapeIsPlain(out);
    EscapeIsPlain(err);
  }

  lemma {:induction false} CaseSafe(name: string, suite: string, time: nat, v: Verdict, out: string, err: string)
    requires Plain(suite)
    ensures Safe(CaseLines(name, suite, time, v, out, err))
  {
    EscapeIsPlain(name);
    OutputsSafe(out, err);
  }

  lemma {:induction false} CasesSafe(tests: seq<Test>, suite: string)
    requires Plain(suite)
    ensures Safe(RanLines(tests, suite)) && Safe(OmittedLines(tests, suite))
  {
    if tests != [] {
      var t := tests[0];
      CaseSafe(t.name, suite, t.time, VerdictOf(t), t.out, t.err);
      CaseSafe(t.name, suite, 0, Omitted, "", "");
      CasesSafe(tests[1..], suite);
    }
  }

  lemma {:induction false} FileSafe(flag: Option<bool>, f: File)
    ensures Safe(FileLines(flag, f))
  {
    EscapeIsPlain(Replace(Replace(f.name, '.', "_"), '/', "."));
    CasesSafe(f.tests, SuiteName(f.name));
    OutputsSafe(f.out, f.err);
  }

  lemma {:induction false} FilesSafe(flag: Option<bool>, files: seq<File>)
    ensures Safe(FilesLines(flag, files))
    decreases |files|
  {
    if files != [] {
      FileSafe(flag, files[0]);
      FilesSafe(FlagAfter(flag, files[0]), files[1..]);
    }
  }

  /** No text and no name of the report holds a raw `<`, `>`, double or single quote. */
  lemma {:induction false} ReportIsSafe(files: seq<File>)
    ensures Safe(RunAll(files).report)
  {
    ReportIs(files);
    FilesSafe(None, files);
  }
}
