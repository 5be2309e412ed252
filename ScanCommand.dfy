/**
  The command the scan service runs: the scanner executable of the chosen
  engine, the built-in "--no-summary" united with the caller's parameters,
  rendered into one argument line without escaping, and the working
  directory the caller gives.
 */
module ScanCommand {
  import opened Linq

  /** The two entry points differ only in the executable they run. */
  datatype Engine = Clamscan | Clamdscan

  function Executable(engine: Engine): string {
    match engine
    case Clamscan => "/usr/bin/clamscan"
    case Clamdscan => "/usr/bin/clamdscan"
  }

  /** Suppresses the scanner's own summary footer. */
  const NoSummary: string := "--no-summary"

  const BuiltInArguments: seq<string> := [NoSummary]

  /** `commandArgs.Union(userParams)`: "--no-summary" first, then each user
      parameter once, at its first occurrence, and never "--no-summary" again. */
  function Arguments(userParams: seq<string>): (args: seq<string>)
    ensures |args| >= 1 && args[0] == NoSummary
    ensures NoDuplicates(args)
    ensures forall x | x in args[1..] :: x in userParams && x != NoSummary
    ensures forall x | x in userParams && x != NoSummary :: x in args[1..]
    ensures forall i, j | 1 <= i < j < |args| ::
      FirstIndex(userParams, args[i]) < FirstIndex(userParams, args[j])
  {
    var s := BuiltInArguments + userParams;
    assert s[1..] == userParams;
    assert forall y | y in userParams && y != NoSummary :: FirstIndex(s, y) == FirstIndex(userParams, y) + 1;
    Union(BuiltInArguments, userParams)
  }

  /** Parameters that are already distinct and leave out "--no-summary" are
      passed on exactly as given, after it. */
  lemma ArgumentsOfDistinct(userParams: seq<string>)
    requires NoDuplicates(userParams) && NoSummary !in userParams
    ensures Arguments(userParams) == [NoSummary] + userParams
  {
    var s := BuiltInArguments + userParams;
    assert forall k | 0 <= k < |s| - 1 :: s[k + 1] == userParams[k];
    DistinctFromOfDistinct(s, {});
  }

  /** CliWrap's `ArgumentsBuilder.Add(value, escape: false)`: a space before
      every value except when the line is still empty, and no quoting. */
  function AddArgument(line: string, value: string): string {
    if |line| > 0 then line + " " + value else line + value
  }

  function AddArguments(line: string, values: seq<string>): string
    decreases |values|
  {
    if values == [] then line else AddArguments(AddArgument(line, values[0]), values[1..])
  }

  /** The argument line the process is started with. */
  function ArgumentLine(args: seq<string>): string {
    AddArguments("", args)
  }

  /** " v1 v2 ..." : every value after a separating space. */
  function SpacePrefixed(values: seq<string>): string {
    if values == [] then "" else " " + values[0] + SpacePrefixed(values[1..])
  }

  /** The index of the first `c` in `s`, or `|s|`. */
  function IndexOf(s: string, c: char): (i: nat)
    ensures i <= |s| && c !in s[..i] && (i < |s| ==> s[i] == c)
  {
    if s == [] then 0
    else if s[0] == c then 0
    else
      var i := IndexOf(s[1..], c) + 1;
      assert s[..i] == [s[0]] + s[1..][..i - 1];
      i
  }

  /** Cuts a line at every single space; the inverse of the argument line
      for values without spaces. */
  function SplitOnSpace(s: string): seq<string>
    decreases |s|
  {
    var i := IndexOf(s, ' ');
    if i == |s| then [s] else [s[..i]] + SplitOnSpace(s[i + 1..])
  }

  /** Once the line is non-empty, every further value gets its space. */
  lemma {:induction false} AddArgumentsAfterStart(line: string, values: seq<string>)
    requires |line| > 0
    ensures AddArguments(line, values) == line + SpacePrefixed(values)
    decreases |values|
  {
    if values != [] {
      var next := AddArgument(line, values[0]);
      assert next == line + " " + values[0];
      AddArgumentsAfterStart(next, values[1..]);
      var rest := SpacePrefixed(values[1..]);
      assert SpacePrefixed(values) == " " + values[0] + rest;
      assert next + rest == line + (" " + values[0] + rest);
    }
  }

  lemma {:induction false} SplitSpacePrefixed(first: string, values: seq<string>)
    requires ' ' !in first && forall k | 0 <= k < |values| :: ' ' !in values[k]
    ensures SplitOnSpace(first + SpacePrefixed(values)) == [first] + values
    decreases |values|
  {
    var s := first + SpacePrefixed(values);
    assert s[..|first|] == first;
    if values == [] {
      assert s == first;
    } else {
      var tail := values[0] + SpacePrefixed(values[1..]);
      assert s == first + " " + tail;
      assert s[|first|] == ' ';
      assert IndexOf(s, ' ') == |first|;
      assert s[|first| + 1..] == tail;
      SplitSpacePrefixed(values[0], values[1..]);
    }
  }

  /** Round trip: splitting the rendered line at its spaces recovers the
      argument list, as long as no argument holds a space and the first is
      not empty (otherwise the unescaped line runs arguments together or
      apart). */
  lemma ArgumentLineRoundTrip(args: seq<string>)
    requires |args| > 0 && |args[0]| > 0
    requires forall k | 0 <= k < |args| :: ' ' !in args[k]
    ensures SplitOnSpace(ArgumentLine(args)) == args
  {
    assert AddArgument("", args[0]) == args[0];
    AddArgumentsAfterStart(args[0], args[1..]);
    SplitSpacePrefixed(args[0], args[1..]);
    assert [args[0]] + args[1..] == args;
  }

  /** The command prepared for one scan. */
  datatype Command = Command(targetFilePath: string, arguments: string, workingDirPath: string)

  function BuildCommand(engine: Engine, workingDirPath: string, userParams: seq<string>): Command {
    Command(Executable(engine), ArgumentLine(Arguments(userParams)), workingDirPath)
  }

  /** The argument line starts with "--no-summary", and for user parameters
      without spaces it splits back into "--no-summary" followed by the
      de-duplicated parameters. */
  lemma CommandArguments(engine: Engine, workingDirPath: string, userParams: seq<string>)
    ensures var line := BuildCommand(engine, workingDirPath, userParams).arguments;
      |line| >= |NoSummary| && line[..|NoSummary|] == NoSummary
    ensures (forall k | 0 <= k < |userParams| :: ' ' !in userParams[k]) ==>
      SplitOnSpace(BuildCommand(engine, workingDirPath, userParams).arguments) == Arguments(userParams)
  {
    var args := Arguments(userParams);
    assert AddArgument("", args[0]) == args[0];
    AddArgumentsAfterStart(args[0], args[1..]);
    var line := ArgumentLine(args);
    assert line == args[0] + SpacePrefixed(args[1..]);
    assert line[..|args[0]|] == args[0];
    if forall k | 0 <= k < |userParams| :: ' ' !in userParams[k] {
      forall k | 0 <= k < |args| ensures ' ' !in args[k] {
        if k > 0 { assert args[k] == args[1..][k - 1]; }
      }
      ArgumentLineRoundTrip(args);
    }
  }

  /** Both engines build the same argument line and working directory. */
  lemma EnginesShareArguments(workingDirPath: string, userParams: seq<string>)
    ensures var c1, c2 := BuildCommand(Clamscan, workingDirPath, userParams),
                          BuildCommand(Clamdscan, workingDirPath, userParams);
      c1.arguments == c2.arguments && c1.workingDirPath == c2.workingDirPath == workingDirPath
      && c1.targetFilePath != c2.targetFilePath
  {
    assert |Executable(Clamscan)| != |Executable(Clamdscan)|;
  }
}
