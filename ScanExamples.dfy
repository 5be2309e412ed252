/** Particular cases of the model: the scanner output quoted beside the
    service, two reports, paths and names holding ": ", a clean file the
    parser takes for infected, repeated parameters, and the controller's
    call. */
module ScanExamples {
  import opened Wrappers
  import opened DotNetText
  import opened FoundPattern
  import opened Linq
  import opened ScanCommand
  import opened Models
  import opened ClamavScanService

  /** One report line is one infected file, whatever its path and name. */
  lemma SingleReport(path: string, virus: string)
    requires '\r' !in path && '\n' !in path
    requires '\r' !in virus && '\n' !in virus && !Contains(virus, ": ")
    ensures ScanResultOf(path + ": " + virus + " FOUND" + "\n")
         == ClamScanResult(1, 1, 0, None, [ScanFile(path, virus, Infected)])
  {
    var f := ScanFile(path, virus, Infected);
    ParseReportOutput([f]);
    OutputOfOne(f);
  }

  lemma OutputOfOne(f: ScanFile)
    ensures ReportOutput([f]) == ReportLine(f) + "\n"
  {
    assert ReportLines([f]) == [ReportLine(f)] + ReportLines([]);
    var line := ReportLine(f);
    assert [line][1..] == [];
    assert JoinLines([line]) == line + "\n" + JoinLines([]);
    assert line + "\n" + "" == line + "\n";
  }

  lemma OutputOfTwo(f: ScanFile, g: ScanFile)
    ensures ReportOutput([f, g]) == ReportLine(f) + "\n" + (ReportLine(g) + "\n")
  {
    assert [f, g][1..] == [g];
    assert ReportLines([f, g]) == [ReportLine(f)] + ReportLines([g]);
    var lines := ReportLines([f, g]);
    assert lines[1..] == ReportLines([g]);
    OutputOfOne(g);
  }

  /** `/app/test: Eicar-Signature FOUND` is one infected file. */
  lemma EicarOutput()
    ensures ScanResultOf("/app/test" + ": " + "Eicar-Signature" + " FOUND" + "\n")
         == ClamScanResult(1, 1, 0, None, [ScanFile("/app/test", "Eicar-Signature", Infected)])
  {
    ColonFreeHasNoSeparator("Eicar-Signature");
    SingleReport("/app/test", "Eicar-Signature");
  }

  /** Two report lines give two files, in the order of their lines. */
  lemma TwoReportsInOrder(f: ScanFile, g: ScanFile)
    requires Reportable(f) && Reportable(g)
    ensures ScanResultOf(ReportLine(f) + "\n" + (ReportLine(g) + "\n"))
         == ClamScanResult(2, 2, 0, None, [f, g])
  {
    ParseReportOutput([f, g]);
    OutputOfTwo(f, g);
  }

  /** A line without ':' adds nothing, even when it says "FOUND". */
  lemma LineWithoutSeparator(line: string)
    requires '\r' !in line && '\n' !in line && ':' !in line
    ensures ScanResultOf(line + "\n") == ClamScanResult(0, 0, 0, None, [])
  {
    var out := line + "\n";
    assert [line][1..] == [];
    assert out == JoinLines([line]);
    LinesOfJoinLines([line]);
    NoColonNoMatch(line);
    BlankShortcutAgrees(out);
    assert Findings([line]) == LineFindings(line) + Findings([]);
  }

  lemma MarkerLineWithoutShape()
    ensures ScanResultOf("Database FOUND outdated" + "\n") == ClamScanResult(0, 0, 0, None, [])
  {
    LineWithoutSeparator("Database FOUND outdated");
  }

  /** The scanner also prints `<path>: OK` for a clean file. A clean file
      whose path itself reads `<g1>: <g2> FOUND<r>` is still taken for an
      infected one. */
  lemma CleanFileWithMarkerInPath(g1: string, g2: string, r: string)
    requires '\n' !in g1 && '\n' !in g2 && '\n' !in r
    ensures var line := g1 + ": " + g2 + " FOUND" + r + ": OK";
      '\n' !in line && |LineFindings(line)| == 1
  {
    var line := g1 + ": " + g2 + " FOUND" + r + ": OK";
    assert line == g1 + ": " + g2 + " FOUND" + (r + ": OK");
    MatchIsGreedy(line, g1, g2, r + ": OK");
    MatchImpliesMarker(line);
  }

  /** Greedy group 1: a path holding ": " is kept whole. */
  lemma SeparatorInPath()
    ensures Match("/srv/a: b/c.doc" + ": " + "Doc.Macro" + " FOUND")
         == Some(Groups("/srv/a: b/c.doc", "Doc.Macro"))
  {
    ColonFreeHasNoSeparator("Doc.Macro");
    MatchReportLine("/srv/a: b/c.doc", "Doc.Macro");
  }

  /** A signature name holding ": " (here "Sig: Variant") loses its first
      part to the path. */
  lemma SeparatorInName()
    ensures Match("/srv/x.bin" + ": " + "Sig" + ": " + "Variant" + " FOUND")
         == Some(Groups("/srv/x.bin" + ": " + "Sig", "Variant"))
  {
    ColonFreeHasNoSeparator("Variant");
    MatchReportLine("/srv/x.bin" + ": " + "Sig", "Variant");
  }

  /** A repeated parameter and a repeated "--no-summary" are passed once,
      in the order of their first appearance. */
  lemma RepeatedArguments(r: string, i: string)
    requires r != NoSummary && i != NoSummary && r != i
    ensures Arguments([r, NoSummary, r, i]) == [NoSummary, r, i]
  {
    var n := NoSummary;
    assert BuiltInArguments + [r, n, r, i] == [n, r, n, r, i];
    assert [n, r, n, r, i][1..] == [r, n, r, i] && {} + {n} == {n};
    LaterArguments(n, r, i);
  }

  lemma LaterArguments(n: string, r: string, i: string)
    requires r != n && i != n && r != i
    ensures DistinctFrom([r, n, r, i], {n}) == [r, i]
  {
    assert [r, n, r, i][1..] == [n, r, i] && {n} + {r} == {n, r};
    LastArgument(n, r, i);
  }

  lemma LastArgument(n: string, r: string, i: string)
    requires r != n && i != n && r != i
    ensures DistinctFrom([n, r, i], {n, r}) == [i]
  {
    assert [n, r, i][1..] == [r, i] && [r, i][1..] == [i] && [i][1..] == [];
    assert DistinctFrom([i], {n, r}) == [i] + DistinctFrom([], {n, r, i});
  }

  /** The controller's call, with no parameters, runs `clamdscan --no-summary`
      in the given directory. */
  lemma ControllerCommand(workingDirPath: string)
    ensures BuildCommand(Clamdscan, workingDirPath, [])
         == Command("/usr/bin/clamdscan", "--no-summary", workingDirPath)
  {
    ArgumentsOfDistinct([]);
    assert BuiltInArguments + [] == ["--no-summary"];
    assert ArgumentLine(["--no-summary"]) == AddArguments(AddArgument("", "--no-summary"), []);
  }
}
