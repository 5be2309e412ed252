# ClamAV scan service, modelled in Dafny

This project models the scan service of `dotnet-clamav-api`, a small ASP.NET
API that hands uploaded files to ClamAV. The service (`ClamavScanService`)
does three things:

- it builds a scanner command: `/usr/bin/clamscan` or `/usr/bin/clamdscan`,
  with the built-in `--no-summary` united with the caller's parameters and
  passed to CliWrap without escaping, run in the caller's working directory;
- it runs that command and, whatever the exit code, parses the scanner's
  standard output into a `ClamScanResult`;
- it turns any exception into a result with error code 1 and the
  exception's message.

The parser reads the output with `StringReader.ReadLine`. It keeps each line
that contains `FOUND` and that the regular expression `(.*): (.*) FOUND`
matches. Each such line adds a `ScanFile` holding the two captured groups and
the status `INFECTED`. The infected count is the number of files, and the
scanned count is set equal to it.

Modules:

- `Wrappers`: `Option`, and the values and positions of the present entries
  of a sequence of options.
- `DotNetText`: the .NET behaviour the parser relies on. This covers
  `char.IsWhiteSpace`, `string.IsNullOrWhiteSpace`, ordinal `Contains`, and
  `StringReader.ReadLine` (breaks at `\n`, `\r` and `\r\n`, with no empty
  line after a final break).
- `FoundPattern`: the backtracking semantics of `(.*): (.*) FOUND` on one
  line. Both groups are greedy, so the engine tries the longest group 1 first
  and, for it, the longest group 2.
- `Linq`: `Enumerable.Union`, that is, concatenation with every repeat after
  the first occurrence dropped.
- `ScanCommand`: the executable, the argument list, CliWrap's unescaped
  argument line and the command record.
- `Models`: `ScanFile`, `ClamScanResult` and the well-formedness every
  result satisfies.
- `ClamavScanService`: the parser as an imperative loop (`ParseScanResult`),
  proved against the specification function `ScanResultOf`. It also holds the
  two scan entry points as one method `Scan` over an `Engine`, with the
  process run given as a parameter `run`.
- `ScanExamples`: particular cases.

### Behaviour worth knowing

The pattern does not end the path at the first `": "` of a report line.
Greedy group 1 ends at the last `": "` that still has a `" FOUND"` after it,
and group 2 ends at the last `" FOUND"`.

- `MatchTakesLastMarkers` states this rule.
- `SeparatorInPath` shows that a path holding `": "` is kept whole.
- `SeparatorInName` shows that a signature name holding `": "` loses its
  first part to the path.

`Union` drops repeats and a caller-supplied `--no-summary`, so the
parameters are not passed on exactly as given (`ScanCommand.Arguments`,
`ScanExamples.RepeatedArguments`).

Without `--infected`, clamscan also prints `<path>: OK` for clean files. A
clean file whose path itself reads `<a>: <b> FOUND<c>` is therefore reported
as infected (`CleanFileWithMarkerInPath`).

## Model

| member | source | states |
|---|---|---|
| DotNetText.BreakIndex | ClamAV/Services/ClamavScanService.cs:150 | the index where the current line ends: no `\r`/`\n` before it, and a `\r` or `\n` at it unless it is the end of the text |
| DotNetText.ReadLine | ClamAV/Services/ClamavScanService.cs:150 | `null` exactly when the reader is at the end; otherwise the line is the text up to the next break and holds no break, and the reader moves past that break, with `\r\n` counting as one break |
| DotNetText.LinesFrom | ClamAV/Services/ClamavScanService.cs:145-150 | the lines that successive `ReadLine` calls yield, and none of them holds a line break |
| DotNetText.ReadLineAt | ClamAV/Services/ClamavScanService.cs:150 | a break-free line followed by `\n` is read whole, and the reader stops right after the `\n` |
| DotNetText.LinesFromJoined | ClamAV/Services/ClamavScanService.cs:145-150 | reading `prefix + lines joined by \n` from behind the prefix gives back exactly those lines |
| DotNetText.LinesOfJoinLines | ClamAV/Services/ClamavScanService.cs:145-150 | round trip: splitting "\n"-terminated break-free lines with `ReadLine` gives the lines back |
| DotNetText.LineContentsInText | ClamAV/Services/ClamavScanService.cs:150-152 | whatever a line read from the output contains, the output contains |
| FoundPattern.Group2End | ClamAV/Services/ClamavScanService.cs:148 | group 2 backs off from the end of the line to the last `" FOUND"` at or after its start, or fails when there is none |
| FoundPattern.Group1End | ClamAV/Services/ClamavScanService.cs:148 | group 1 backs off to the longest `": "` position that still lets group 2 close; its choice precedes every other split in backtracking order; it fails only when no split exists |
| FoundPattern.Match | ClamAV/Services/ClamavScanService.cs:148-160 | matches exactly when the line reads `g1: g2 FOUND…` in some way; groups 1 and 2 are the line's slices, and the split is the first one in backtracking order |
| FoundPattern.MatchShape | ClamAV/Services/ClamavScanService.cs:154-160 | a successful match is the line read as `path + ": " + virus + " FOUND" + rest` |
| FoundPattern.MatchIsGreedy | ClamAV/Services/ClamavScanService.cs:148-160 | every reading `g1: g2 FOUND rest` of the line makes the match succeed, with groups no shorter in backtracking order |
| FoundPattern.MatchTakesLastMarkers | ClamAV/Services/ClamavScanService.cs:148-160 | group 2 ends at the last `" FOUND"` of the line, and group 1 at the last `": "` before it |
| FoundPattern.MatchImpliesMarker | ClamAV/Services/ClamavScanService.cs:152-155 | the `Contains("FOUND")` filter never rejects a line the pattern matches |
| FoundPattern.NoColonNoMatch | ClamAV/Services/ClamavScanService.cs:148-155 | a line without `:` never matches |
| FoundPattern.MatchReportLine | ClamAV/Services/ClamavScanService.cs:148-160 | round trip with the report format `<path>: <virus> FOUND`: the groups give back the path (whatever it holds) and the name (when it holds no `": "`) |
| Linq.DistinctFrom | ClamAV/Services/ClamavScanService.cs:26 | the result has no repeats, holds exactly the elements that were not seen before, and keeps the order of their first occurrences |
| Linq.DistinctFromOfDistinct | ClamAV/Services/ClamavScanService.cs:26 | a sequence without repeats whose elements were not seen passes through unchanged |
| ScanCommand.Arguments | ClamAV/Services/ClamavScanService.cs:21-26 | the argument list starts with `--no-summary` and has no repeats; it holds exactly the user parameters other than `--no-summary`, in the order of their first occurrence |
| ScanCommand.ArgumentsOfDistinct | ClamAV/Services/ClamavScanService.cs:21-26 | distinct parameters without `--no-summary` are passed on exactly as given, after it |
| ScanCommand.AddArgumentsAfterStart | ClamAV/Services/ClamavScanService.cs:26 | once the argument line is non-empty, CliWrap puts a space before every further value |
| ScanCommand.ArgumentLineRoundTrip | ClamAV/Services/ClamavScanService.cs:26 | splitting the unescaped argument line at its spaces recovers the argument list when no argument holds a space and the first is non-empty |
| ScanCommand.CommandArguments | ClamAV/Services/ClamavScanService.cs:25-26 | the argument line begins with `--no-summary`, and for space-free parameters it splits back into the united argument list |
| ScanCommand.EnginesShareArguments | ClamAV/Services/ClamavScanService.cs:86-87 | both entry points build the same argument line and working directory and differ only in the executable |
| ClamavScanService.ParseScanResult | ClamAV/Services/ClamavScanService.cs:132-175 | the loop computes `ScanResultOf(output)`, and its result is well formed with error code 0 |
| ClamavScanService.ParseStep | ClamAV/Services/ClamavScanService.cs:150-165 | one turn of the read loop keeps "files so far + findings of the unread lines" equal to all findings |
| ClamavScanService.ReportOfLine | ClamAV/Services/ClamavScanService.cs:152-163 | a line adds a file exactly when the pattern matches it; the file is marked infected and is the line read as `<path>: <virus> FOUND<rest>` |
| ClamavScanService.FindingsAppend | ClamAV/Services/ClamavScanService.cs:150-165 | the findings of two blocks of lines are the findings of the first block followed by those of the second |
| ClamavScanService.FindingsFollowLines | ClamAV/Services/ClamavScanService.cs:150-165 | the k-th file comes from the k-th line that yields one, these lines come in ascending order, and a line yields a file exactly when it is one of them |
| ClamavScanService.FindingsAreInfected | ClamAV/Services/ClamavScanService.cs:157-162 | every file found has the status `INFECTED` |
| ClamavScanService.NoMarkerNoFindings | ClamAV/Services/ClamavScanService.cs:150-152 | lines read from an output that never says `FOUND` yield no file |
| ClamavScanService.BlankHasNoMarker | ClamAV/Services/ClamavScanService.cs:140-143 | blank output never says `FOUND` |
| ClamavScanService.BlankShortcutAgrees | ClamAV/Services/ClamavScanService.cs:140-143 | the early return for blank output gives the same result as the line-by-line parse |
| ClamavScanService.NoMarkerIsClean | ClamAV/Services/ClamavScanService.cs:140-172 | output that never says `FOUND` gives error code 0, both counts 0 and no files |
| ClamavScanService.ScanResultOfWellFormed | ClamAV/Services/ClamavScanService.cs:168-172 | every parse result is well formed (infected count = number of files = scanned count, all files infected) and has error code 0 |
| ClamavScanService.ReportLineFindings | ClamAV/Services/ClamavScanService.cs:152-162 | the report line of a reportable file yields exactly that file |
| ClamavScanService.FindingsOfReportLines | ClamAV/Services/ClamavScanService.cs:150-165 | the report lines of reportable files yield exactly those files, in order |
| ClamavScanService.ParseReportOutput | ClamAV/Services/ClamavScanService.cs:132-175 | round trip: parsing the scanner's report of a list of reportable files (marked infected, no line break in path or name, no `": "` in the name) gives that list back, in order, with both counts equal to its length |
| ClamavScanService.Scan | ClamAV/Services/ClamavScanService.cs:17-130 | a null parameter array gives error code 1 with `Union`'s message; otherwise the result classifies the outcome of running the built command; every result is well formed |
| ClamavScanService.ClassifyOutcome | ClamAV/Services/ClamavScanService.cs:45-69 | the error code is non-zero exactly when an exception was raised; then it is 1 with the exception's message and no files |
| ClamavScanService.ExitCodeIgnored | ClamAV/Services/ClamavScanService.cs:45-58 | the exit code and standard error never change the result; a non-zero exit without `FOUND` in the output is a clean success |
| ScanExamples.SingleReport | ClamAV/Services/ClamavScanService.cs:54-58 | one report line gives one infected file with that path and name |
| ScanExamples.EicarOutput | ClamAV/Services/ClamavScanService.cs:54-58 | the output `/app/test: Eicar-Signature FOUND` gives one infected file `/app/test` with virus `Eicar-Signature` |
| ScanExamples.TwoReportsInOrder | ClamAV/Services/ClamavScanService.cs:157-162 | two report lines give two files, in the order of the lines |
| ScanExamples.LineWithoutSeparator | ClamAV/Services/ClamavScanService.cs:152-155 | a line without `:` adds nothing, even when it says `FOUND` |
| ScanExamples.MarkerLineWithoutShape | ClamAV/Services/ClamavScanService.cs:152-155 | `Database FOUND outdated` alone gives a clean result |
| ScanExamples.CleanFileWithMarkerInPath | ClamAV/Services/ClamavScanService.cs:148-163 | a clean file's `<path>: OK` line adds one file when the path reads `<a>: <b> FOUND<c>` |
| ScanExamples.SeparatorInPath | ClamAV/Services/ClamavScanService.cs:148 | `/srv/a: b/c.doc: Doc.Macro FOUND` keeps the whole path `/srv/a: b/c.doc` |
| ScanExamples.SeparatorInName | ClamAV/Services/ClamavScanService.cs:148 | in `/srv/x.bin: Sig: Variant FOUND` the path becomes `/srv/x.bin: Sig` and the name `Variant` |
| ScanExamples.RepeatedArguments | ClamAV/Services/ClamavScanService.cs:21-26 | parameters `r, --no-summary, r, i` are passed as `--no-summary, r, i` |
| ScanExamples.ControllerCommand | ClamAV/Controllers/ClamavScanController.cs:53 | the controller's call with no parameters runs `/usr/bin/clamdscan --no-summary` in the given directory |

## Left out

- Process execution (CliWrap's `ExecuteAsync` and the piping of both streams into string builders) is the parameter `run` of `Scan`. What the scanner prints is therefore arbitrary in the model.
- The 900-second `CancellationTokenSource` is not modelled. A cancelled run and a process that cannot start are both a `Faulted` outcome with some message.
- Asynchrony (`async`/`Task`) has no effect on the result and is left out.
- Logging through Serilog and the `command.ToString()` debug string are left out. Neither affects the result.
- Standard error is captured but only logged; the model keeps it in `Exited` and proves it is ignored.
- `int` overflow of the counts is not modelled; counts are unbounded integers. A list of more than 2^31-1 files cannot arise in practice.
- `ScanCommand.ArgumentLineRoundTrip` and `ScanCommand.CommandArguments`: the operating system's parsing of the unescaped argument line is modelled as splitting at single spaces, and only for arguments without spaces. Quoting and backslash rules are not modelled.
- `null` is modelled only for the parameter array, as `None`. A `null` working directory or a `null` element of the array is left out, because CliWrap's handling of them is not among the source files.
- The regular expression engine is modelled only for the one pattern the service uses, on single lines. This is enough because `ReadLine` never returns a line holding `\n`, the only character `.` does not match.
- `ScanFile`'s class definition is not part of this model. Its three fields are the ones set in the parser.
- The controller (`ClamavScanController`: saving uploads, building `ScanResponse`, deleting the folder) and the interface `IClamavScanService` are outside this model. The only exception is the parameters its call passes, covered in `ScanExamples.ControllerCommand`.
- `ClamavScanService.Scan`: the message of the `ArgumentNullException` that `Union` throws for a `null` parameter array is fixed to the English text of current .NET runtimes. That text is a runtime resource that depends on culture and version, and it is not in the source.
- Strings are modelled as sequences of Unicode scalar values, while .NET strings are UTF-16 code units. This does not change the results: the markers and line breaks are ASCII, every white-space character is in the Basic Multilingual Plane, and `.` consumes any character.
