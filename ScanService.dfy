/**
  The scan service: it runs a scanner over a working directory, turns what
  the scanner prints into a `ClamScanResult`, and turns any exception into
  an error result. The process run itself is a parameter of the model.
 */
module ClamavScanService {
  import opened Wrappers
  import opened DotNetText
  import opened FoundPattern
  import opened ScanCommand
  import opened Models

  /** The literal a line must contain before the pattern is tried. */
  const Marker: string := "FOUND"

  /** The finding one output line contributes, if any. */
  function ReportOf(line: string): Option<ScanFile>
    requires '\n' !in line
  {
    if Contains(line, Marker) then
      match Match(line)
      case Some(g) => Some(ScanFile(g.path, g.virus, Infected))
      case None => None
    else None
  }

  /** The same, as the zero or one elements it appends to the list. */
  function LineFindings(line: string): seq<ScanFile>
    requires '\n' !in line
  {
    match ReportOf(line) case Some(f) => [f] case None => []
  }

  predicate AreLines(lines: seq<string>) {
    forall k | 0 <= k < |lines| :: '\n' !in lines[k]
  }

  /** The findings of a sequence of lines, line by line. */
  function Findings(lines: seq<string>): seq<ScanFile>
    requires AreLines(lines)
  {
    if lines == [] then []
    else
      assert forall k | 0 <= k < |lines| - 1 :: lines[1..][k] == lines[k + 1];
      LineFindings(lines[0]) + Findings(lines[1..])
  }

  /** The findings of the lines still to be read from position `pos`. */
  function FindingsFrom(output: string, pos: nat): seq<ScanFile> {
    Findings(LinesFrom(output, pos))
  }

  /** The counts the service derives from the findings. */
  function FromFindings(files: seq<ScanFile>): ClamScanResult {
    var infected := |files|;
    NewResult(0).(files := files, infectedFiles := infected,
                  scannedFiles := if infected > 0 then infected else 0)
  }

  /** What `ParseScanResult` computes from the scanner's standard output. */
  function ScanResultOf(output: string): ClamScanResult {
    if IsNullOrWhiteSpace(output) then NewResult(0)
    else FromFindings(Findings(Lines(output)))
  }

  /** The parser: blank output is a clean result; otherwise every line read
      from the output that contains "FOUND" and matches the pattern adds one
      infected file, and the counts follow from the list. */
  method ParseScanResult(output: string) returns (result: ClamScanResult)
    ensures result == ScanResultOf(output)
    ensures WellFormed(result) && result.errorCode == 0
  {
    result := NewResult(0);
    if IsNullOrWhiteSpace(output) {
      ScanResultOfWellFormed(output);
      return;
    }
    var pos: nat := 0;
    assert result.files + FindingsFrom(output, pos) == FindingsFrom(output, 0) by {
      assert result.files == [];
    }
    while true
      invariant pos <= |output|
      invariant result == NewResult(0).(files := result.files)
      invariant result.files + FindingsFrom(output, pos) == FindingsFrom(output, 0)
      decreases |output| - pos
    {
      var read := ReadLine(output, pos);
      if read.None? {
        break;
      }
      var line := read.value.line;
      ParseStep(output, pos, result.files);
      ghost var before := result.files;
      pos := read.value.next;
      if Contains(line, Marker) {
        var m := Match(line);
        if m.Some? {
          result := result.(files := result.files + [ScanFile(m.value.path, m.value.virus, Infected)]);
        }
      }
      assert result.files == before + LineFindings(line);
    }
    assert LinesFrom(output, pos) == [];
    assert result.files == FindingsFrom(output, 0);
    result := result.(infectedFiles := |result.files|);
    result := result.(scannedFiles := if result.infectedFiles > 0 then result.infectedFiles else 0);
    ScanResultOfWellFormed(output);
  }

  /** One turn of the parse loop keeps the findings so far followed by the
      findings still to come equal to all the findings. */
  lemma ParseStep(output: string, pos: nat, done: seq<ScanFile>)
    requires ReadLine(output, pos).Some?
    requires done + FindingsFrom(output, pos) == FindingsFrom(output, 0)
    ensures var lr := ReadLine(output, pos).value;
      (done + LineFindings(lr.line)) + FindingsFrom(output, lr.next) == FindingsFrom(output, 0)
  {
    var lr := ReadLine(output, pos).value;
    FindingsOfNextLine(output, pos);
    assert done + (LineFindings(lr.line) + FindingsFrom(output, lr.next))
        == (done + LineFindings(lr.line)) + FindingsFrom(output, lr.next);
  }

  /** Reading one more line adds that line's findings in front of the rest. */
  lemma FindingsOfNextLine(output: string, pos: nat)
    requires ReadLine(output, pos).Some?
    ensures var lr := ReadLine(output, pos).value;
      Findings(LinesFrom(output, pos)) == LineFindings(lr.line) + Findings(LinesFrom(output, lr.next))
  {
    var lr := ReadLine(output, pos).value;
    var lines := LinesFrom(output, pos);
    assert lines == [lr.line] + LinesFrom(output, lr.next);
    assert lines[1..] == LinesFrom(output, lr.next);
  }

  /** The `Contains("FOUND")` filter never rejects a line the pattern
      matches, so a line adds a finding exactly when it matches, and that
      finding is the line read as `<path>: <virus> FOUND<rest>`. */
  lemma ReportOfLine(line: string)
    requires '\n' !in line
    ensures ReportOf(line).Some? <==> Match(line).Some?
    ensures ReportOf(line).Some? ==>
      var f := ReportOf(line).value;
      && f.status == Infected
      && Match(line) == Some(Groups(f.filePath, f.virus))
      && line == f.filePath + ": " + f.virus + " FOUND" + line[|f.filePath| + |f.virus| + 8..]
  {
    if Match(line).Some? {
      MatchImpliesMarker(line);
      MatchShape(line);
    }
  }

  /** Findings of consecutive blocks of lines come block by block. */
  lemma {:induction false} FindingsAppend(a: seq<string>, b: seq<string>)
    requires AreLines(a) && AreLines(b)
    ensures AreLines(a + b) && Findings(a + b) == Findings(a) + Findings(b)
  {
    assert AreLines(a + b) by {
      forall k | 0 <= k < |a + b| ensures '\n' !in (a + b)[k] {
        if k >= |a| { assert (a + b)[k] == b[k - |a|]; }
      }
    }
    if a == [] {
      assert a + b == b;
    } else {
      FindingsAppend(a[1..], b);
      assert (a + b)[1..] == a[1..] + b;
      assert (a + b)[0] == a[0];
      calc {
        Findings(a + b);
        LineFindings(a[0]) + Findings(a[1..] + b);
        LineFindings(a[0]) + (Findings(a[1..]) + Findings(b));
        Findings(a) + Findings(b);
      }
    }
  }

  /** The finding (or none) of every line, position by position. */
  function Reports(lines: seq<string>): (rs: seq<Option<ScanFile>>)
    requires AreLines(lines)
    ensures |rs| == |lines| && forall k | 0 <= k < |lines| :: rs[k] == ReportOf(lines[k])
  {
    seq(|lines|, k requires 0 <= k < |lines| => ReportOf(lines[k]))
  }

  lemma {:induction false} FindingsAreValues(lines: seq<string>)
    requires AreLines(lines)
    ensures Findings(lines) == Values(Reports(lines))
  {
    if lines != [] {
      FindingsAreValues(lines[1..]);
      assert Reports(lines)[1..] == Reports(lines[1..]);
    }
  }

  /** The findings are exactly the lines that yield one, in line order: the
      k-th finding comes from the k-th such line, each such line gives one
      finding, and no other line gives any. */
  lemma FindingsFollowLines(lines: seq<string>)
    requires AreLines(lines)
    ensures var idx, fs := PresentFrom(Reports(lines), 0), Findings(lines);
      && |idx| == |fs|
      && (forall k | 0 <= k < |idx| :: idx[k] < |lines| && ReportOf(lines[idx[k]]) == Some(fs[k]))
      && (forall k1, k2 | 0 <= k1 < k2 < |idx| :: idx[k1] < idx[k2])
      && (forall j | 0 <= j < |lines| :: ReportOf(lines[j]).Some? <==> j in idx)
  {
    var rs := Reports(lines);
    FindingsAreValues(lines);
    PresentFromSpec(rs, 0);
    ValuesAtPresent(rs, 0);
    assert rs[0..] == rs;
  }

  /** Every finding is marked "INFECTED". */
  lemma {:induction false} FindingsAreInfected(lines: seq<string>)
    requires AreLines(lines)
    ensures forall k | 0 <= k < |Findings(lines)| :: Findings(lines)[k].status == Infected
  {
    if lines != [] {
      FindingsAreInfected(lines[1..]);
    }
  }

  /** Lines read from a text that never says "FOUND" yield no finding. */
  lemma {:induction false} NoMarkerNoFindings(output: string, pos: nat)
    requires !Contains(output, Marker)
    ensures Findings(LinesFrom(output, pos)) == []
    decreases |output| - pos
  {
    if ReadLine(output, pos).Some? {
      var lr := ReadLine(output, pos).value;
      FindingsOfNextLine(output, pos);
      if Contains(lr.line, Marker) {
        LineContentsInText(output, pos, 0, Marker);
      }
      NoMarkerNoFindings(output, lr.next);
    }
  }

  /** Blank output never says "FOUND" ('F' is not white space). */
  lemma BlankHasNoMarker(output: string)
    requires IsNullOrWhiteSpace(output)
    ensures !Contains(output, Marker)
  {
    forall i | OccursAt(output, Marker, i) ensures false {
      FirstOfOccurrence(output, Marker, i);
      assert false;
    }
  }

  /** The blank-output shortcut changes nothing: the result is always the
      one that the line-by-line parse alone gives. */
  lemma BlankShortcutAgrees(output: string)
    ensures ScanResultOf(output) == FromFindings(Findings(Lines(output)))
  {
    if IsNullOrWhiteSpace(output) {
      BlankHasNoMarker(output);
      NoMarkerNoFindings(output, 0);
    }
  }

  /** Output that never says "FOUND" (empty, blank, or only other lines)
      gives a clean result: error code 0, both counts 0 and no files. */
  lemma NoMarkerIsClean(output: string)
    requires !Contains(output, Marker)
    ensures ScanResultOf(output) == ClamScanResult(0, 0, 0, None, [])
  {
    NoMarkerNoFindings(output, 0);
  }

  /** Every parse result is well formed and reports success. */
  lemma ScanResultOfWellFormed(output: string)
    ensures WellFormed(ScanResultOf(output)) && ScanResultOf(output).errorCode == 0
  {
    if !IsNullOrWhiteSpace(output) {
      FindingsAreInfected(Lines(output));
    }
  }

  /** The line the scanner prints for an infected file. */
  function ReportLine(f: ScanFile): string {
    f.filePath + ": " + f.virus + " FOUND"
  }

  /** The lines the scanner prints for a list of infected files. */
  function ReportLines(files: seq<ScanFile>): seq<string> {
    if files == [] then [] else [ReportLine(files[0])] + ReportLines(files[1..])
  }

  /** The output the scanner prints for a list of infected files (one
      report line each, summary suppressed). */
  function ReportOutput(files: seq<ScanFile>): string {
    JoinLines(ReportLines(files))
  }

  /** Files the report format can carry unambiguously: marked infected, no
      line break in path or name, no ": " in the name. */
  predicate Reportable(f: ScanFile) {
    f.status == Infected && HasNoLineBreak(f.filePath) && HasNoLineBreak(f.virus) && !Contains(f.virus, ": ")
  }

  lemma ReportLineFindings(f: ScanFile)
    requires Reportable(f)
    ensures HasNoLineBreak(ReportLine(f)) && LineFindings(ReportLine(f)) == [f]
  {
    var line := ReportLine(f);
    ReportLineHasNoBreak(f);
    MatchReportLine(f.filePath, f.virus);
    MatchImpliesMarker(line);
    assert ReportOf(line) == Some(f);
  }

  lemma ReportLineHasNoBreak(f: ScanFile)
    requires HasNoLineBreak(f.filePath) && HasNoLineBreak(f.virus)
    ensures HasNoLineBreak(ReportLine(f))
  {
  }

  lemma {:induction false} FindingsOfReportLines(files: seq<ScanFile>)
    requires forall k | 0 <= k < |files| :: Reportable(files[k])
    ensures var lines := ReportLines(files);
      && (forall k | 0 <= k < |lines| :: HasNoLineBreak(lines[k]))
      && AreLines(lines) && Findings(lines) == files
  {
    if files != [] {
      ReportLineFindings(files[0]);
      FindingsOfReportLines(files[1..]);
      var lines := ReportLines(files);
      assert lines[0] == ReportLine(files[0]);
      assert lines[1..] == ReportLines(files[1..]);
      assert forall k | 1 <= k < |lines| :: lines[k] == lines[1..][k - 1];
      assert files == [files[0]] + files[1..];
    }
  }

  /** Round trip: parsing the scanner's report of a list of infected files
      gives back exactly that list, in order, with the counts set to its
      length. */
  lemma ParseReportOutput(files: seq<ScanFile>)
    requires forall k | 0 <= k < |files| :: Reportable(files[k])
    ensures ScanResultOf(ReportOutput(files)) == ClamScanResult(|files|, |files|, 0, None, files)
  {
    FindingsOfReportLines(files);
    LinesOfJoinLines(ReportLines(files));
    BlankShortcutAgrees(ReportOutput(files));
  }

  /** How a run of the scanner ended, as the service sees it: the process
      exited (with any code) and its streams were captured, or an exception
      was raised (the process could not start, the 900-second timeout
      cancelled it, or anything else failed). */
  datatype ProcessOutcome =
    | Exited(exitCode: int, standardOutput: string, standardError: string)
    | Faulted(message: string)

  /** The result a scan ends with: the parse of standard output whatever the
      exit code, or error code 1 with the exception's message. */
  function Classify(outcome: ProcessOutcome): ClamScanResult {
    match outcome
    case Exited(_, out, _) => ScanResultOf(out)
    case Faulted(message) => NewResult(1).(errorMessage := Some(message))
  }

  /** The message of the `ArgumentNullException` that `Union` throws when
      the caller passes `null` for the parameters. */
  const NullParamsMessage: string := "Value cannot be null. (Parameter 'second')"

  /** `ClamavscanAsync` (engine `Clamscan`) and `ClamdscanAsync` (engine
      `Clamdscan`): build the command, run it through `run`, and classify.
      `None` stands for a `null` parameter array, which makes `Union` throw
      before anything runs. */
  method Scan(engine: Engine, workingDirPath: string, userParams: Option<seq<string>>,
              run: Command -> ProcessOutcome) returns (result: ClamScanResult)
    ensures userParams.None? ==> result == Classify(Faulted(NullParamsMessage))
    ensures userParams.Some? ==>
      result == Classify(run(BuildCommand(engine, workingDirPath, userParams.value)))
    ensures WellFormed(result)
  {
    if userParams.None? {
      result := NewResult(1).(errorMessage := Some(NullParamsMessage));
      return;
    }
    var command := BuildCommand(engine, workingDirPath, userParams.value);
    var outcome := run(command);
    match outcome
    case Faulted(message) =>
      result := NewResult(1).(errorMessage := Some(message));
    case Exited(_, out, _) =>
      result := ParseScanResult(out);
  }

  /** A fault yields error code 1 with the exception's message and nothing
      else; a run that exited never yields a non-zero error code, whatever
      its exit code; every result is well formed. */
  lemma ClassifyOutcome(outcome: ProcessOutcome)
    ensures Classify(outcome).errorCode != 0 <==> outcome.Faulted?
    ensures outcome.Faulted? ==>
      Classify(outcome) == ClamScanResult(0, 0, 1, Some(outcome.message), [])
    ensures WellFormed(Classify(outcome))
  {
    if outcome.Exited? {
      ScanResultOfWellFormed(outcome.standardOutput);
    }
  }

  /** The exit code and standard error do not affect the result; only
      standard output does. A non-zero exit with no "FOUND" in the output
      is a clean success. */
  lemma ExitCodeIgnored(code1: int, code2: int, output: string, err1: string, err2: string)
    ensures Classify(Exited(code1, output, err1)) == Classify(Exited(code2, output, err2))
    ensures !Contains(output, Marker) ==>
      Classify(Exited(code1, output, err1)) == ClamScanResult(0, 0, 0, None, [])
  {
    if !Contains(output, Marker) {
      NoMarkerIsClean(output);
    }
  }
}
