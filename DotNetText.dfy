/**
  The few .NET string facilities the scan service relies on, with the
  behaviour the runtime gives them: `char.IsWhiteSpace`,
  `string.IsNullOrWhiteSpace`, ordinal `string.Contains` and
  `StringReader.ReadLine`, which splits a text at "\n", "\r" or "\r\n".
 */
module DotNetText {
  import opened Wrappers

  /** `char.IsWhiteSpace`: the Unicode space, line and paragraph separators,
      U+0009 to U+000D and U+0085. */
  predicate IsWhiteSpace(c: char) {
    || c == ' ' || ('\t' <= c <= '\r') || c == '\U{0085}' || c == '\U{00A0}'
    || c == '\U{1680}' || ('\U{2000}' <= c <= '\U{200A}') || c == '\U{2028}'
    || c == '\U{2029}' || c == '\U{202F}' || c == '\U{205F}' || c == '\U{3000}'
  }

  /** `string.IsNullOrWhiteSpace` on a non-null string: every character is white space. */
  predicate IsNullOrWhiteSpace(s: string) {
    forall i | 0 <= i < |s| :: IsWhiteSpace(s[i])
  }

  /** `pat` occurs in `s` starting at index `i`. */
  predicate OccursAt(s: string, pat: string, i: int) {
    0 <= i && i + |pat| <= |s| && s[i..i + |pat|] == pat
  }

  /** Ordinal `string.Contains(string)`. */
  predicate Contains(s: string, pat: string) {
    exists i | 0 <= i <= |s| - |pat| :: OccursAt(s, pat, i)
  }

  /** An occurrence inside a slice is an occurrence in the whole text. */
  lemma OccursInSlice(s: string, lo: int, hi: int, pat: string, k: int)
    requires 0 <= lo <= hi <= |s|
    requires OccursAt(s[lo..hi], pat, k)
    ensures OccursAt(s, pat, lo + k)
  {
    var window := s[lo..hi][k..k + |pat|];
    assert forall m | 0 <= m < |pat| :: window[m] == s[lo + k + m];
    assert window == s[lo + k..lo + k + |pat|];
  }

  /** The two characters at which `ReadLine` ends a line. */
  predicate IsLineBreak(c: char) {
    c == '\r' || c == '\n'
  }

  predicate HasNoLineBreak(s: string) {
    '\r' !in s && '\n' !in s
  }

  /** The index of the first '\r' or '\n' at or after `pos`, or `|s|` when
      there is none (`IndexOfAny` on the two characters). */
  function BreakIndex(s: string, pos: nat): (i: nat)
    requires pos <= |s|
    ensures pos <= i <= |s|
    ensures forall k | pos <= k < i :: !IsLineBreak(s[k])
    ensures i < |s| ==> IsLineBreak(s[i])
    decreases |s| - pos
  {
    if pos == |s| || IsLineBreak(s[pos]) then pos else BreakIndex(s, pos + 1)
  }

  /** What one `ReadLine` call returns, and where the reader stands after it. */
  datatype LineRead = LineRead(line: string, next: nat)

  /** `StringReader.ReadLine` on a reader positioned at `pos`: `None` (the
      `null` of .NET) once the text is exhausted; otherwise the characters up
      to the next line break, after which the reader skips that break, and a
      "\r\n" pair counts as one break. */
  function ReadLine(s: string, pos: nat): (r: Option<LineRead>)
    ensures r.None? <==> pos >= |s|
    ensures r.Some? ==>
      var end := pos + |r.value.line|;
      && end <= |s| && r.value.line == s[pos..end]
      && HasNoLineBreak(r.value.line)
      && (end == |s| ==> r.value.next == |s|)
      && (end < |s| ==> IsLineBreak(s[end]) &&
                        r.value.next == if s[end] == '\r' && end + 1 < |s| && s[end + 1] == '\n'
                                        then end + 2 else end + 1)
  {
    if pos >= |s| then None
    else
      var i := BreakIndex(s, pos);
      if i == |s| then Some(LineRead(s[pos..], |s|))
      else if s[i] == '\r' && i + 1 < |s| && s[i + 1] == '\n' then Some(LineRead(s[pos..i], i + 2))
      else Some(LineRead(s[pos..i], i + 1))
  }

  /** The lines that successive `ReadLine` calls return from position `pos`
      until the first `null`. */
  function LinesFrom(s: string, pos: nat): (lines: seq<string>)
    ensures forall k | 0 <= k < |lines| :: HasNoLineBreak(lines[k])
    decreases |s| - pos
  {
    match ReadLine(s, pos)
    case None => []
    case Some(lr) => [lr.line] + LinesFrom(s, lr.next)
  }

  /** The lines a fresh `StringReader` over `s` yields. */
  function Lines(s: string): seq<string> {
    LinesFrom(s, 0)
  }

  /** Every line ends at a "\n": the inverse of `Lines` for break-free lines. */
  function JoinLines(lines: seq<string>): string {
    if lines == [] then "" else lines[0] + "\n" + JoinLines(lines[1..])
  }

  /** One `ReadLine` call, then the rest. */
  lemma LinesFromStep(s: string, pos: nat)
    requires ReadLine(s, pos).Some?
    ensures var lr := ReadLine(s, pos).value;
      LinesFrom(s, pos) == [lr.line] + LinesFrom(s, lr.next)
  {
  }

  /** A break-free line `l` at `pos`, followed by "\n", is read whole, and
      the reader stops right after the "\n". */
  lemma ReadLineAt(s: string, pos: nat, l: string)
    requires HasNoLineBreak(l) && pos + |l| < |s|
    requires s[pos..pos + |l|] == l && s[pos + |l|] == '\n'
    ensures ReadLine(s, pos) == Some(LineRead(l, pos + |l| + 1))
  {
    forall m | pos <= m < pos + |l| ensures !IsLineBreak(s[m]) {
      assert s[m] == l[m - pos] && l[m - pos] in l;
    }
    assert BreakIndex(s, pos) == pos + |l|;
  }

  /** The lines read from behind `prefix` in `prefix + JoinLines(lines)`. */
  lemma {:induction false} LinesFromJoined(prefix: string, lines: seq<string>)
    requires forall k | 0 <= k < |lines| :: HasNoLineBreak(lines[k])
    ensures LinesFrom(prefix + JoinLines(lines), |prefix|) == lines
    decreases |lines|
  {
    var s := prefix + JoinLines(lines);
    if lines == [] {
      assert s == prefix;
      assert ReadLine(s, |prefix|).None?;
    } else {
      var l, tail := lines[0], lines[1..];
      var rest := JoinLines(tail);
      var next := prefix + l + "\n";
      assert JoinLines(lines) == l + "\n" + rest;
      assert s == next + rest;
      assert s[|prefix|..|prefix| + |l|] == l;
      assert s[|prefix| + |l|] == '\n';
      ReadLineAt(s, |prefix|, l);
      LinesFromStep(s, |prefix|);
      assert forall k | 0 <= k < |tail| :: tail[k] == lines[k + 1];
      LinesFromJoined(next, tail);
      assert |next| == |prefix| + |l| + 1;
      assert LinesFrom(s, |next|) == tail;
      var lr := ReadLine(s, |prefix|).value;
      assert lr.line == l && lr.next == |next|;
      assert LinesFrom(s, |prefix|) == [l] + LinesFrom(s, |next|);
      assert lines == [l] + tail;
    }
  }

  /** Round trip: splitting the "\n"-joined lines gives the lines back. */
  lemma LinesOfJoinLines(lines: seq<string>)
    requires forall k | 0 <= k < |lines| :: HasNoLineBreak(lines[k])
    ensures Lines(JoinLines(lines)) == lines
  {
    LinesFromJoined("", lines);
    assert "" + JoinLines(lines) == JoinLines(lines);
  }

  /** Whatever a line read from `s` contains, `s` contains too. */
  lemma {:induction false} LineContentsInText(s: string, pos: nat, k: nat, pat: string)
    requires k < |LinesFrom(s, pos)| && Contains(LinesFrom(s, pos)[k], pat)
    ensures Contains(s, pat)
    decreases |s| - pos
  {
    var lr := ReadLine(s, pos).value;
    if k == 0 {
      var j :| 0 <= j <= |lr.line| - |pat| && OccursAt(lr.line, pat, j);
      OccursInSlice(s, pos, pos + |lr.line|, pat, j);
    } else {
      LineContentsInText(s, lr.next, k - 1, pat);
    }
  }
}
