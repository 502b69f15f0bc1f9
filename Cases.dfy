/** One test case of the GstValidate harness: how a CSV row becomes a case,
    how the validator is invoked for it, what its log file is called and
    holds, how the child process's outcome is classified, and the report row
    it contributes. Everything here is a pure rule applied inside the row loop
    of `run_tests`. */
module Cases {
  import opened Text

  datatype Option<T> = None | Some(value: T)

  /** A non-comment, non-empty CSV row: the media file and the scenario to
      validate it against. */
  datatype TestCase = TestCase(fileName: string, scenarioName: string)

  datatype Status = Pass | Fail | Timeout

  /** What the report shows in brackets after the log link: the child's raw
      return code, or `KILLED` when the harness terminated it. */
  datatype ExitRecord = Code(code: int) | Killed

  /** What one run of the validator produced: it exited with a return code
      (negative when a signal ended it), or it was still running when the
      timeout fired. `output` is the combined stdout/stderr the child wrote
      into the log file before it ended or was killed. */
  datatype Outcome = Exited(returnCode: int, output: string) | TimedOut(output: string)

  datatype Verdict = Verdict(status: Status, exitCode: ExitRecord)

  /** One `<tr>` of the HTML table, with the values it interpolates. */
  datatype ReportRow = ReportRow(
    scenario: string,
    file: string,
    status: Status,
    colour: string,
    logLink: string,
    exitCode: ExitRecord)

  const BaseScenarioPath: string := "/usr/share/gstreamer-1.0/validate/scenarios/"
  const Validator: string := "gst-validate-1.0"
  const UriPrefix: string := "file:///streams/"
  const SeparatorWidth: nat := 50
  const TimeoutNotice: string := "\n\n[!!!] TEST TIMEOUT EXCEEDED (10 MINUTES) - KILLED BY SCRIPT\n"

  /** The comment rule: an empty row, or a first field that starts with `#`
      as read, before any stripping. */
  predicate IsSkipped(row: seq<string>)
    ensures IsSkipped(row) <==> row == [] || StartsWith(row[0], "#")
  {
    row == [] || (row[0] != [] && row[0][0] == '#')
  }

  /** A row is skipped, or read as (stripped first field, stripped second
      field or else the stripped first field again). */
  function ParseRow(row: seq<string>): (r: Option<TestCase>)
    ensures r.None? <==> IsSkipped(row)
    ensures r.Some? ==> r.value.fileName == Strip(row[0])
    ensures r.Some? && |row| > 1 ==> r.value.scenarioName == Strip(row[1])
    ensures r.Some? && |row| == 1 ==> r.value.scenarioName == r.value.fileName
  {
    if IsSkipped(row) then None
    else
      var fileName := Strip(row[0]);
      var scenarioName := if |row| > 1 then Strip(row[1]) else Strip(row[0]);
      Some(TestCase(fileName, scenarioName))
  }

  /** A case written back as a two-column row is read back unchanged, as long
      as its fields carry no surrounding whitespace and the file name does
      not look like a comment. */
  lemma ParseRowRoundTrip(tc: TestCase)
    requires tc.fileName == [] || (!IsSpace(tc.fileName[0]) && !IsSpace(tc.fileName[|tc.fileName| - 1]))
    requires tc.scenarioName == [] || (!IsSpace(tc.scenarioName[0]) && !IsSpace(tc.scenarioName[|tc.scenarioName| - 1]))
    requires tc.fileName == [] || tc.fileName[0] != '#'
    ensures ParseRow([tc.fileName, tc.scenarioName]) == Some(tc)
  {
    var row := [tc.fileName, tc.scenarioName];
    assert row[0] == tc.fileName && row[1] == tc.scenarioName;
    assert !IsSkipped(row);
    TrimmedIsFixed(tc.fileName);
    TrimmedIsFixed(tc.scenarioName);
  }

  /** The comment test looks at the unstripped field: a `#` after leading
      blanks does not make a comment, and an empty first field is a case. */
  lemma IndentedHashIsNotComment()
    ensures ParseRow([" #x"]) == Some(TestCase("#x", "#x"))
  {
    var row := [" #x"];
    assert row[0] == " #x" && !IsSkipped(row);
    assert TrimStart(" #x"[1..]) == "#x";
    assert TrimStart(" #x") == "#x";
    assert TrimEnd("#x") == "#x";
  }

  lemma EmptyFirstFieldIsACase()
    ensures ParseRow(["", "x"]) == Some(TestCase("", "x"))
  {
    var row := ["", "x"];
    assert row[0] == "" && row[1] == "x" && !IsSkipped(row);
    TrimmedIsFixed("");
    TrimmedIsFixed("x");
  }

  function Uri(tc: TestCase): (u: string)
    ensures StartsWith(u, UriPrefix) && |u| == |UriPrefix| + |tc.fileName|
  {
    UriPrefix + tc.fileName
  }

  /** Where gst-validate looks for the scenario: `os.path.join` of the fixed
      base directory and `<scenario>.scenario`. */
  function ScenarioPath(tc: TestCase): (p: string)
    ensures EndsWith(p, tc.scenarioName + ".scenario")
  {
    PathJoin(BaseScenarioPath, tc.scenarioName + ".scenario")
  }

  /** The validator's argument vector. */
  function Command(tc: TestCase): (argv: seq<string>)
    ensures |argv| == 6 && argv[0] == Validator
  {
    [Validator, "playbin", "uri=" + Uri(tc), "flags=99", "--set-scenario", ScenarioPath(tc)]
  }

  /** The file name and the scenario name can be read back from the command:
      the third argument is `uri=file:///streams/` followed by the file name,
      and a relative scenario name lands inside the base directory with the
      `.scenario` extension while an absolute one replaces it. */
  lemma CommandCarriesCase(tc: TestCase)
    ensures var argv := Command(tc);
      StartsWith(argv[2], "uri=" + UriPrefix) && argv[2][|"uri=" + UriPrefix|..] == tc.fileName
    ensures var p := Command(tc)[5];
      !StartsWith(tc.scenarioName, "/") ==>
        StartsWith(p, BaseScenarioPath) && EndsWith(p, ".scenario")
        && p[|BaseScenarioPath|..|p| - |".scenario"|] == tc.scenarioName
    ensures StartsWith(tc.scenarioName, "/") ==> Command(tc)[5] == tc.scenarioName + ".scenario"
  {
    var argv := Command(tc);
    assert argv[2] == ("uri=" + UriPrefix) + tc.fileName;
    var name := tc.scenarioName + ".scenario";
    if StartsWith(tc.scenarioName, "/") {
      assert name[..1] == tc.scenarioName[..1];
    } else {
      assert BaseScenarioPath[|BaseScenarioPath| - 1] == '/';
      assert argv[5] == BaseScenarioPath + tc.scenarioName + ".scenario";
    }
  }

  function LogFileName(tc: TestCase): (n: string)
    ensures |n| == |tc.scenarioName| + 4 && StartsWith(n, tc.scenarioName) && EndsWith(n, ".log")
  {
    tc.scenarioName + ".log"
  }

  /** The file the child's output is written to. */
  function LogPath(logDir: string, tc: TestCase): (p: string)
    ensures EndsWith(p, tc.scenarioName + ".log")
  {
    PathJoin(logDir, LogFileName(tc))
  }

  /** For a relative scenario name the log path starts with the log
      directory as text; a name with `..` components can still lead out of
      that directory on disk. */
  lemma LogPathStaysInLogDir(logDir: string, tc: TestCase)
    ensures !StartsWith(tc.scenarioName, "/") ==> StartsWith(LogPath(logDir, tc), logDir)
  {
    AbsoluteIgnoresSuffix(tc.scenarioName, ".log");
  }

  /** The `href` the report uses, built by plain concatenation. */
  function LogLink(logDir: string, tc: TestCase): (l: string)
    ensures StartsWith(l, logDir + "/")
  {
    logDir + "/" + LogFileName(tc)
  }

  /** The report links to the file the log was written to whenever the log
      directory is given without a trailing slash and the scenario name is
      relative; an absolute scenario name sends the log outside the log
      directory while the link still points inside it. */
  lemma LinkMatchesLogPath(logDir: string, tc: TestCase)
    ensures logDir != [] && !EndsWith(logDir, "/") && !StartsWith(tc.scenarioName, "/")
      ==> LogLink(logDir, tc) == LogPath(logDir, tc)
    ensures StartsWith(tc.scenarioName, "/") ==> LogPath(logDir, tc) == tc.scenarioName + ".log"
    ensures StartsWith(tc.scenarioName, "/") ==> LogLink(logDir, tc) != LogPath(logDir, tc)
  {
    var name := LogFileName(tc);
    if StartsWith(tc.scenarioName, "/") {
      assert name[..1] == tc.scenarioName[..1];
      assert |LogLink(logDir, tc)| > |LogPath(logDir, tc)|;
    }
  }

  /** What the harness writes before the child runs: the command line and a
      rule of `=` characters. */
  function LogHeader(tc: TestCase): (h: string)
    ensures StartsWith(h, "Command: " + Join(" ", Command(tc)) + "\n")
    ensures EndsWith(h, Repeat('=', SeparatorWidth) + "\n")
    ensures |h| == |"Command: " + Join(" ", Command(tc)) + "\n"| + SeparatorWidth + 1
  {
    "Command: " + Join(" ", Command(tc)) + "\n" + Repeat('=', SeparatorWidth) + "\n"
  }

  /** The whole log file of a case once the child has ended: the header, the
      child's combined output, and, after a timeout, the harness's notice. */
  function LogText(tc: TestCase, o: Outcome): (t: string)
    ensures StartsWith(t, LogHeader(tc))
    ensures o.TimedOut? ==> EndsWith(t, TimeoutNotice)
  {
    match o
    case Exited(_, output) => LogHeader(tc) + output
    case TimedOut(output) => LogHeader(tc) + output + TimeoutNotice
  }

  /** The child's output sits unchanged right after the header, followed
      only by the notice after a timeout. */
  lemma LogTextHoldsOutput(tc: TestCase, o: Outcome)
    ensures var t, h := LogText(tc, o), LogHeader(tc);
      |t| == |h| + |o.output| + (if o.TimedOut? then |TimeoutNotice| else 0)
      && t[|h|..|h| + |o.output|] == o.output
  {
    var h := LogHeader(tc);
    assert (h + o.output)[|h|..|h| + |o.output|] == o.output;
    if o.TimedOut? {
      assert (h + o.output + TimeoutNotice)[|h|..|h| + |o.output|] == o.output;
    }
  }

  /** The first line of every log is the exact command line, provided the
      names in it contain no line break. */
  lemma {:induction false} LogFirstLineIsCommand(tc: TestCase, o: Outcome)
    requires '\n' !in tc.fileName && '\n' !in tc.scenarioName
    ensures FirstLine(LogText(tc, o)) == "Command: " + Join(" ", Command(tc))
  {
    CommandHasNoLineBreak(tc);
    var argv := Command(tc);
    var line := "Command: " + Join(" ", argv);
    var rest := Repeat('=', SeparatorWidth) + "\n" + (LogText(tc, o)[|LogHeader(tc)|..]);
    assert LogText(tc, o) == line + "\n" + rest;
    FirstLineOf(line, rest);
  }

  lemma CommandHasNoLineBreak(tc: TestCase)
    requires '\n' !in tc.fileName && '\n' !in tc.scenarioName
    ensures '\n' !in "Command: " + Join(" ", Command(tc))
  {
    ArgumentsHaveNoLineBreak(tc);
    JoinAvoids(" ", Command(tc), '\n');
  }

  /** No argument of the command holds a line break unless a name does. */
  lemma ArgumentsHaveNoLineBreak(tc: TestCase)
    requires '\n' !in tc.fileName && '\n' !in tc.scenarioName
    ensures forall k :: 0 <= k < |Command(tc)| ==> '\n' !in Command(tc)[k]
  {
    var argv := Command(tc);
    assert argv[2] == "uri=" + UriPrefix + tc.fileName;
    ScenarioPathHasNoLineBreak(tc);
  }

  lemma ScenarioPathHasNoLineBreak(tc: TestCase)
    requires '\n' !in tc.scenarioName
    ensures '\n' !in ScenarioPath(tc)
  {
    var name := tc.scenarioName + ".scenario";
    assert '\n' !in name;
    if !StartsWith(name, "/") {
      assert '\n' !in BaseScenarioPath;
      assert BaseScenarioPath[|BaseScenarioPath| - 1] == '/';
      assert ScenarioPath(tc) == BaseScenarioPath + name;
    }
  }

  /** Return code 0 passes, any other return code fails, a timeout is
      recorded as killed; return codes are reported unchanged. */
  function Classify(o: Outcome): (v: Verdict)
    ensures v.status == Pass <==> o.Exited? && o.returnCode == 0
    ensures v.status == Fail <==> o.Exited? && o.returnCode != 0
    ensures v.status == Timeout <==> o.TimedOut?
    ensures v.exitCode == Killed <==> o.TimedOut?
    ensures o.Exited? ==> v.exitCode == Code(o.returnCode)
  {
    match o
    case Exited(code, _) => if code == 0 then Verdict(Pass, Code(code)) else Verdict(Fail, Code(code))
    case TimedOut(_) => Verdict(Timeout, Killed)
  }

  /** Background of a report row: green for a pass, yellow for a timeout,
      red otherwise. */
  function Colour(s: Status): (c: string)
    ensures |c| == 7 && c[0] == '#'
  {
    match s
    case Pass => "#d4edda"
    case Timeout => "#fff3cd"
    case Fail => "#f8d7da"
  }

  /** The three statuses get three different colours, so the colour alone
      tells the status. */
  lemma ColourDistinguishesStatus(a: Status, b: Status)
    ensures Colour(a) == Colour(b) <==> a == b
  {
    if a != b {
      assert Colour(a)[1] != Colour(b)[1] || Colour(a)[2] != Colour(b)[2];
    }
  }

  /** The report row of one case. */
  function MakeRow(logDir: string, tc: TestCase, o: Outcome): (row: ReportRow)
    ensures row.scenario == tc.scenarioName && row.file == tc.fileName
    ensures row.status == Classify(o).status && row.exitCode == Classify(o).exitCode
    ensures row.colour == Colour(row.status)
    ensures EndsWith(row.logLink, LogFileName(tc))
  {
    var v := Classify(o);
    ReportRow(tc.scenarioName, tc.fileName, v.status, Colour(v.status), LogLink(logDir, tc), v.exitCode)
  }
}
