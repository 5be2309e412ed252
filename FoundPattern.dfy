/**
  The pattern `(.*): (.*) FOUND` that the scan service applies to a report
  line with `Regex.Match`. Within one line `.` matches every character, so
  the match starts at index 0: group 1 ends where a ": " begins, group 2
  ends where a " FOUND" begins, and whatever follows that " FOUND" is not
  part of the groups. Both groups are greedy, so the engine's backtracking
  tries the longest group 1 first and, for it, the longest group 2.
 */
module FoundPattern {
  import opened Wrappers
  import opened DotNetText

  /** A way the pattern can match `line`: ": " at `a` closes group 1 and
      " FOUND" at `b` closes group 2. */
  predicate IsSplit(line: string, a: int, b: int) {
    OccursAt(line, ": ", a) && a + 2 <= b && OccursAt(line, " FOUND", b)
  }

  /** Backtracking order: the engine reaches (a, b) before (a2, b2) when
      group 1 is longer, or as long and group 2 is longer. */
  predicate TriedFirst(a: int, b: int, a2: int, b2: int) {
    a2 < a || (a2 == a && b2 <= b)
  }

  /** The match's two end points. */
  datatype Split = Split(colon: nat, marker: nat)

  /** Group 2 starts at a + 2 and backs off from the end `b` of the line
      until " FOUND" follows it. */
  function Group2End(line: string, a: nat, b: int): (r: Option<nat>)
    ensures r.Some? ==>
      && a + 2 <= r.value <= b && OccursAt(line, " FOUND", r.value)
      && forall j | r.value < j <= b :: !OccursAt(line, " FOUND", j)
    ensures r.None? ==> forall j | a + 2 <= j <= b :: !OccursAt(line, " FOUND", j)
    decreases b - a
  {
    if b < a + 2 then None
    else if OccursAt(line, " FOUND", b) then Some(b)
    else Group2End(line, a, b - 1)
  }

  /** Group 1 backs off from length `a` until ": " follows it and group 2
      can then be closed. */
  function Group1End(line: string, a: int): (r: Option<Split>)
    ensures r.Some? ==>
      && r.value.colon <= a && IsSplit(line, r.value.colon, r.value.marker)
      && forall a2, b2 | a2 <= a && IsSplit(line, a2, b2) ::
           TriedFirst(r.value.colon, r.value.marker, a2, b2)
    ensures r.None? ==> forall a2, b2 | a2 <= a :: !IsSplit(line, a2, b2)
    decreases a
  {
    if a < 0 then None
    else if OccursAt(line, ": ", a) then
      match Group2End(line, a, |line|)
      case Some(b) => Some(Split(a, b))
      case None => Group1End(line, a - 1)
    else Group1End(line, a - 1)
  }

  /** The two captured groups of a successful match. */
  datatype Groups = Groups(path: string, virus: string)

  /** `Regex.Match` of `(.*): (.*) FOUND` on one line (a line never holds
      '\n', the one character `.` does not match). */
  function Match(line: string): (r: Option<Groups>)
    requires '\n' !in line
    ensures r.None? <==> forall a, b :: !IsSplit(line, a, b)
    ensures r.Some? ==>
      var a, b := |r.value.path|, |r.value.path| + 2 + |r.value.virus|;
      && IsSplit(line, a, b)
      && r.value.path == line[..a] && r.value.virus == line[a + 2..b]
      && forall a2, b2 | IsSplit(line, a2, b2) :: TriedFirst(a, b, a2, b2)
  {
    match Group1End(line, |line|)
    case None => None
    case Some(sp) => Some(Groups(line[..sp.colon], line[sp.colon + 2..sp.marker]))
  }

  /** A match is the line read as `path + ": " + virus + " FOUND" + rest`. */
  lemma MatchShape(line: string)
    requires '\n' !in line && Match(line).Some?
    ensures var g := Match(line).value;
      line == g.path + ": " + g.virus + " FOUND" + line[|g.path| + |g.virus| + 8..]
  {
    var g := Match(line).value;
    var a, b := |g.path|, |g.path| + 2 + |g.virus|;
    assert line == line[..a] + line[a..a + 2] + line[a + 2..b] + line[b..b + 6] + line[b + 6..];
  }

  /** Every reading of the line as `g1 + ": " + g2 + " FOUND" + rest` makes
      the match succeed, and the match's groups are never shorter in
      backtracking order than that reading's. */
  lemma MatchIsGreedy(line: string, g1: string, g2: string, rest: string)
    requires '\n' !in line
    requires line == g1 + ": " + g2 + " FOUND" + rest
    ensures Match(line).Some?
    ensures var g := Match(line).value;
      |g1| < |g.path| || (|g1| == |g.path| && |g2| <= |g.virus|)
  {
    var a, b := |g1|, |g1| + 2 + |g2|;
    assert line[a..a + 2] == ": ";
    assert line[b..b + 6] == " FOUND";
    assert IsSplit(line, a, b);
  }

  /** Greedy groups in plain words: group 2 ends at the LAST " FOUND" of the
      line, and group 1 at the last ": " that still leaves room before it. */
  lemma MatchTakesLastMarkers(line: string)
    requires '\n' !in line && Match(line).Some?
    ensures var g := Match(line).value;
      var a, b := |g.path|, |g.path| + 2 + |g.virus|;
      && (forall j | OccursAt(line, " FOUND", j) :: j <= b)
      && (forall i | OccursAt(line, ": ", i) && i + 2 <= b :: i <= a)
  {
    var g := Match(line).value;
    var a, b := |g.path|, |g.path| + 2 + |g.virus|;
    forall j | OccursAt(line, " FOUND", j) ensures j <= b {
      assert a + 2 <= j ==> IsSplit(line, a, j);
    }
    forall i | OccursAt(line, ": ", i) && i + 2 <= b ensures i <= a {
      assert IsSplit(line, i, b);
    }
  }

  /** A line the pattern matches always passes the `Contains("FOUND")`
      filter that precedes the match. */
  lemma MatchImpliesMarker(line: string)
    requires '\n' !in line && Match(line).Some?
    ensures Contains(line, "FOUND")
  {
    var g := Match(line).value;
    var b := |g.path| + 2 + |g.virus|;
    assert line[b + 1..b + 6] == line[b..b + 6][1..];
    assert OccursAt(line, "FOUND", b + 1);
  }

  /** An occurrence starts with the pattern's first character. */
  lemma FirstOfOccurrence(s: string, pat: string, i: int)
    requires OccursAt(s, pat, i) && |pat| > 0
    ensures s[i] == pat[0]
  {
    assert s[i..i + |pat|][0] == s[i];
  }

  /** A line without a colon never matches. */
  lemma NoColonNoMatch(line: string)
    requires '\n' !in line && ':' !in line
    ensures Match(line).None?
  {
    forall a, b | IsSplit(line, a, b) ensures false {
      FirstOfOccurrence(line, ": ", a);
      assert false;
    }
  }

  /** In `path + ": " + virus + " FOUND"` a ": " that ends before the final
      " FOUND" and starts after the path lies inside `virus`. */
  lemma ColonInsideVirus(path: string, virus: string, i: int)
    requires var line := path + ": " + virus + " FOUND";
      OccursAt(line, ": ", i) && |path| < i && i + 2 <= |path| + 2 + |virus|
    ensures OccursAt(virus, ": ", i - |path| - 2)
  {
    var line := path + ": " + virus + " FOUND";
    if i == |path| + 1 {
      FirstOfOccurrence(line, ": ", i);
      assert false;
    } else {
      var j := i - |path| - 2;
      assert line[i] == virus[j] && line[i + 1] == virus[j + 1];
      assert line[i..i + 2] == virus[j..j + 2];
    }
  }

  /** Round trip with the scanner's report format `<path>: <virus> FOUND`:
      the groups give back the path and the signature name, whatever the
      path holds, provided the signature name holds no ": ". */
  lemma MatchReportLine(path: string, virus: string)
    requires '\n' !in path && '\n' !in virus && !Contains(virus, ": ")
    ensures Match(path + ": " + virus + " FOUND") == Some(Groups(path, virus))
  {
    var line := path + ": " + virus + " FOUND";
    var a0, b0 := |path|, |path| + 2 + |virus|;
    assert line == path + ": " + virus + " FOUND" + "";
    MatchIsGreedy(line, path, virus, "");
    var g := Match(line).value;
    var a, b := |g.path|, |g.path| + 2 + |g.virus|;
    assert b <= b0 by {
      assert OccursAt(line, " FOUND", b);
    }
    if a > a0 {
      ColonInsideVirus(path, virus, a);
      assert false;
    }
    assert line[..a0] == path;
    assert line[a0 + 2..b0] == virus;
  }

  /** A text without ':' holds no ": ". */
  lemma ColonFreeHasNoSeparator(s: string)
    requires ':' !in s
    ensures !Contains(s, ": ")
  {
    forall i | OccursAt(s, ": ", i) ensures false {
      FirstOfOccurrence(s, ": ", i);
      assert false;
    }
  }
}
