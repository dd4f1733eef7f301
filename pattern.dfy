/**
 The three fixed regular expressions of the counter, each of the form
 `prefix(.*)terminator`, searched for anywhere in a string:

   /hls/(.*)-\d+\.ts               (the stream name in a segment URL)
   <name>(.*)</name>                (a stream name in the stats report)
   <nclients>(.*)</nclients>        (a connection count in the stats report)

 `FindStringSubmatch` of Go's RE2 engine uses leftmost-first semantics: the
 reported match is the one that starts leftmost, and among those starting
 there the greedy `.*` takes the longest capture for which the rest still
 matches. `.` matches any character except a newline, and `\d` is an ASCII
 digit. The reference semantics below say exactly that; `Find` computes it.
 */
module Pattern {
  import opened Wrappers
  import opened Text

  /** What must follow the capture group. */
  datatype Terminator =
    | Literal(text: string)   // a fixed string, as in `(.*)</name>`
    | SegmentNumber           // `-\d+\.ts`: a dash, one or more digits, then ".ts"

  /** A regular expression `prefix(.*)terminator`. */
  datatype Shape = Shape(prefix: string, terminator: Terminator)

  // ---------------------------------------------------------------------
  // Reference semantics
  // ---------------------------------------------------------------------

  ghost predicate DigitsBetween(s: string, lo: int, hi: int)
    requires 0 <= lo <= hi <= |s|
  {
    forall k :: lo <= k < hi ==> IsDigit(s[k])
  }

  /** The terminator matches `s` starting at position `j`. */
  ghost predicate TerminatorMatchesAt(t: Terminator, s: string, j: int)
  {
    match t
    case Literal(x) => 0 <= j && j + |x| <= |s| && s[j..j + |x|] == x
    case SegmentNumber =>
      0 <= j < |s| && s[j] == '-' &&
      exists e :: DigitsThenTs(s, j, e)
  }

  /** `s[j + 1..e]` is one or more digits and ".ts" follows at `e`. */
  ghost predicate DigitsThenTs(s: string, j: int, e: int)
  {
    0 <= j && j + 1 < e && e + 3 <= |s| && DigitsBetween(s, j + 1, e) && s[e..e + 3] == ".ts"
  }

  /** The shape matches `s` with the prefix at `i` and the capture ending at `j`. */
  ghost predicate MatchAt(sh: Shape, s: string, i: int, j: int)
  {
    0 <= i && i + |sh.prefix| <= j <= |s| && s[i..i + |sh.prefix|] == sh.prefix
    && (forall k :: i + |sh.prefix| <= k < j ==> s[k] != '\n')
    && TerminatorMatchesAt(sh.terminator, s, j)
  }

  /** The match a leftmost-first engine reports: leftmost start, then longest capture. */
  ghost predicate PreferredMatch(sh: Shape, s: string, i: int, j: int)
  {
    MatchAt(sh, s, i, j)
    && (forall i', j' :: 0 <= i' < i ==> !MatchAt(sh, s, i', j'))
    && (forall j' :: j < j' ==> !MatchAt(sh, s, i, j'))
  }

  // ---------------------------------------------------------------------
  // The search
  // ---------------------------------------------------------------------

  /** End of the run of digits that starts at `k`. */
  function DigitRunEnd(s: string, k: nat): (e: nat)
    requires k <= |s|
    ensures k <= e <= |s|
    ensures forall m :: k <= m < e ==> IsDigit(s[m])
    ensures e < |s| ==> !IsDigit(s[e])
    decreases |s| - k
  {
    if k < |s| && IsDigit(s[k]) then DigitRunEnd(s, k + 1) else k
  }

  /** Position of the first newline at or after `k`, or `|s|`. */
  function FirstNewline(s: string, k: nat): (e: nat)
    requires k <= |s|
    ensures k <= e <= |s|
    ensures forall m :: k <= m < e ==> s[m] != '\n'
    ensures e < |s| ==> s[e] == '\n'
    decreases |s| - k
  {
    if k < |s| && s[k] != '\n' then FirstNewline(s, k + 1) else k
  }

  /** Executable test for the terminator at `j`: a digit run must end right before ".ts". */
  predicate TerminatesAt(t: Terminator, s: string, j: nat)
  {
    match t
    case Literal(x) => j + |x| <= |s| && s[j..j + |x|] == x
    case SegmentNumber =>
      j < |s| && s[j] == '-' &&
      var e := DigitRunEnd(s, j + 1);
      j + 1 < e && e + 3 <= |s| && s[e..e + 3] == ".ts"
  }

  /** The executable test agrees with the reference semantics of the terminator. */
  lemma TerminatesAtSpec(t: Terminator, s: string, j: nat)
    ensures TerminatesAt(t, s, j) <==> TerminatorMatchesAt(t, s, j)
  {
    if t.SegmentNumber? && j < |s| && s[j] == '-' {
      var e := DigitRunEnd(s, j + 1);
      if TerminatorMatchesAt(t, s, j) {
        var e' :| DigitsThenTs(s, j, e');
        assert s[e'] == s[e'..e' + 3][0] == '.';
        assert e == e';
      }
      if TerminatesAt(t, s, j) {
        assert DigitsThenTs(s, j, e);
      }
    }
  }

  /** The largest `j` in `[lo, hi]` at which the terminator matches. */
  function LastTerminator(t: Terminator, s: string, lo: nat, hi: nat): (r: Option<nat>)
    requires lo <= hi <= |s|
    ensures r.Some? ==> lo <= r.value <= hi && TerminatesAt(t, s, r.value)
    ensures r.Some? ==> forall j :: r.value < j <= hi ==> !TerminatesAt(t, s, j)
    ensures r.None? ==> forall j :: lo <= j <= hi ==> !TerminatesAt(t, s, j)
    decreases hi - lo
  {
    if TerminatesAt(t, s, hi) then Some(hi)
    else if lo == hi then None
    else LastTerminator(t, s, lo, hi - 1)
  }

  /** The captures found by trying every start from `i` on, leftmost first. */
  function FindFrom(sh: Shape, s: string, i: nat): Option<string>
    requires i <= |s|
    decreases |s| - i
  {
    var p := |sh.prefix|;
    if i + p > |s| then None
    else
      var last := LastMatchEnd(sh, s, i);
      if last.Some? then Some(s[i + p..last.value])
      else if i == |s| then None
      else FindFrom(sh, s, i + 1)
  }

  /** `FindStringSubmatch(s)[1]`, or `None` when there is no match. */
  function Find(sh: Shape, s: string): Option<string>
  {
    FindFrom(sh, s, 0)
  }

  /** With the prefix at `i`, the matches starting at `i` are the terminator positions up to the first newline. */
  lemma MatchesAtStart(sh: Shape, s: string, i: nat, j: int)
    requires i + |sh.prefix| <= |s| && s[i..i + |sh.prefix|] == sh.prefix
    ensures MatchAt(sh, s, i, j) <==>
            i + |sh.prefix| <= j <= FirstNewline(s, i + |sh.prefix|) && TerminatesAt(sh.terminator, s, j)
  {
    var p := |sh.prefix|;
    var e := FirstNewline(s, i + p);
    if 0 <= j {
      TerminatesAtSpec(sh.terminator, s, j);
    }
  }

  /** No match starts at `i` or later. */
  ghost predicate NoMatchFrom(sh: Shape, s: string, i: int)
  {
    forall i', j :: i <= i' ==> !MatchAt(sh, s, i', j)
  }

  /** `(i', j)` is the leftmost-first match among those starting at `i` or later. */
  ghost predicate FirstMatchFrom(sh: Shape, s: string, i: int, i': int, j: int)
  {
    i <= i' && MatchAt(sh, s, i', j)
    && (forall i'', j' :: i <= i'' < i' ==> !MatchAt(sh, s, i'', j'))
    && (forall j' :: j < j' ==> !MatchAt(sh, s, i', j'))
  }

  /** When nothing matches at `i`, the matches from `i` on are those from `i + 1` on. */
  lemma SkipStart(sh: Shape, s: string, i: int)
    requires forall j :: !MatchAt(sh, s, i, j)
    ensures NoMatchFrom(sh, s, i) <==> NoMatchFrom(sh, s, i + 1)
    ensures forall i', j :: FirstMatchFrom(sh, s, i + 1, i', j) ==> FirstMatchFrom(sh, s, i, i', j)
  {
  }

  /** The candidate capture end for a match starting at `i`, if any. */
  function LastMatchEnd(sh: Shape, s: string, i: nat): Option<nat>
    requires i + |sh.prefix| <= |s|
  {
    var p := |sh.prefix|;
    if s[i..i + p] == sh.prefix
    then LastTerminator(sh.terminator, s, i + p, FirstNewline(s, i + p))
    else None
  }

  lemma MatchEndsAtStart(sh: Shape, s: string, i: nat)
    requires i + |sh.prefix| <= |s|
    ensures LastMatchEnd(sh, s, i).Some? ==> FirstMatchFrom(sh, s, i, i, LastMatchEnd(sh, s, i).value)
    ensures LastMatchEnd(sh, s, i).None? ==> forall j :: !MatchAt(sh, s, i, j)
  {
    var p := |sh.prefix|;
    var last := LastMatchEnd(sh, s, i);
    if last.Some? {
      var j := last.value;
      MatchesAtStart(sh, s, i, j);
      forall j' | j < j' ensures !MatchAt(sh, s, i, j') {
        MatchesAtStart(sh, s, i, j');
      }
    } else {
      forall j ensures !MatchAt(sh, s, i, j) {
        if s[i..i + p] == sh.prefix {
          MatchesAtStart(sh, s, i, j);
        }
      }
    }
  }

  /**
   `r` is what a leftmost-first search from `i` on must report: nothing when
   no match starts at `i` or later, and otherwise the capture of the first one.
   */
  ghost predicate FoundFrom(sh: Shape, s: string, i: int, r: Option<string>)
  {
    && (r.None? <==> NoMatchFrom(sh, s, i))
    && (r.Some? ==> exists i', j :: FirstMatchFrom(sh, s, i, i', j) && r.value == s[i' + |sh.prefix|..j])
  }

  lemma NoRoom(sh: Shape, s: string, i: int)
    requires i + |sh.prefix| > |s|
    ensures FoundFrom(sh, s, i, None)
  {
  }

  lemma FoundAtStart(sh: Shape, s: string, i: nat)
    requires i + |sh.prefix| <= |s| && LastMatchEnd(sh, s, i).Some?
    ensures FoundFrom(sh, s, i, Some(s[i + |sh.prefix|..LastMatchEnd(sh, s, i).value]))
  {
    MatchEndsAtStart(sh, s, i);
    assert FirstMatchFrom(sh, s, i, i, LastMatchEnd(sh, s, i).value);
  }

  lemma FoundAtEnd(sh: Shape, s: string, i: nat)
    requires i == |s| && i + |sh.prefix| <= |s| && LastMatchEnd(sh, s, i).None?
    ensures FoundFrom(sh, s, i, None)
  {
    MatchEndsAtStart(sh, s, i);
  }

  lemma FoundLater(sh: Shape, s: string, i: nat, r: Option<string>)
    requires i + |sh.prefix| <= |s| && LastMatchEnd(sh, s, i).None?
    requires FoundFrom(sh, s, i + 1, r)
    ensures FoundFrom(sh, s, i, r)
  {
    MatchEndsAtStart(sh, s, i);
    SkipStart(sh, s, i);
    if r.Some? {
      var i', j :| FirstMatchFrom(sh, s, i + 1, i', j) && r.value == s[i' + |sh.prefix|..j];
      assert FirstMatchFrom(sh, s, i, i', j);
    }
  }

  lemma {:induction false} FindFromSpec(sh: Shape, s: string, i: nat)
    requires i <= |s|
    ensures FoundFrom(sh, s, i, FindFrom(sh, s, i))
    decreases |s| - i
  {
    var p := |sh.prefix|;
    if i + p > |s| {
      NoRoom(sh, s, i);
    } else if LastMatchEnd(sh, s, i).Some? {
      FoundAtStart(sh, s, i);
    } else if i == |s| {
      FoundAtEnd(sh, s, i);
    } else {
      FindFromSpec(sh, s, i + 1);
      FoundLater(sh, s, i, FindFrom(sh, s, i + 1));
    }
  }

  /** The expression matches nowhere in `s`. */
  ghost predicate NoMatch(sh: Shape, s: string)
  {
    forall i, j :: !MatchAt(sh, s, i, j)
  }

  /** `c` is the capture group of the match a leftmost-first engine reports in `s`. */
  ghost predicate Captures(sh: Shape, s: string, c: string)
  {
    exists i, j :: PreferredMatch(sh, s, i, j) && c == s[i + |sh.prefix|..j]
  }

  /**
   `Find` reports no match exactly when the expression matches nowhere, and
   otherwise the capture of the leftmost-first (greedy) match.
   */
  lemma FindSpec(sh: Shape, s: string)
    ensures Find(sh, s).None? <==> NoMatch(sh, s)
    ensures Find(sh, s).Some? ==> Captures(sh, s, Find(sh, s).value)
  {
    FindFromSpec(sh, s, 0);
    if Find(sh, s).Some? {
      var i, j :| FirstMatchFrom(sh, s, 0, i, j) && Find(sh, s).value == s[i + |sh.prefix|..j];
      assert PreferredMatch(sh, s, i, j);
    }
  }

  /** A match that no earlier start and no longer capture can beat is the one `Find` reports. */
  lemma FindPreferred(sh: Shape, s: string, i: int, j: int)
    requires MatchAt(sh, s, i, j)
    requires forall i', j' :: 0 <= i' < i ==> !MatchAt(sh, s, i', j')
    requires forall j' :: j < j' ==> !MatchAt(sh, s, i, j')
    ensures Find(sh, s) == Some(s[i + |sh.prefix|..j])
  {
    FindSpec(sh, s);
    var i', j' :| PreferredMatch(sh, s, i', j') && Find(sh, s).value == s[i' + |sh.prefix|..j'];
    assert i' == i;
  }

  /** A string that is exactly `prefix + x + suffix` captures `x`, whatever `x` holds besides newlines. */
  lemma FindEnclosed(prefix: string, x: string, suffix: string)
    requires '\n' !in x
    ensures Find(Shape(prefix, Literal(suffix)), prefix + x + suffix) == Some(x)
  {
    var sh, s := Shape(prefix, Literal(suffix)), prefix + x + suffix;
    var j := |prefix| + |x|;
    assert s[..|prefix|] == prefix;
    assert s[|prefix|..j] == x;
    assert s[j..] == suffix;
    forall k | |prefix| <= k < j ensures s[k] != '\n' {
      assert s[k] == x[k - |prefix|];
    }
    assert MatchAt(sh, s, 0, j);
    FindPreferred(sh, s, 0, j);
  }

  /** Nothing matches in a string that does not contain the prefix. */
  lemma FindNeedsPrefix(sh: Shape, s: string)
    requires !Contains(s, sh.prefix)
    ensures Find(sh, s) == None
  {
    FindSpec(sh, s);
    forall i, j ensures !MatchAt(sh, s, i, j) {
      assert MatchAt(sh, s, i, j) ==> OccursAt(s, sh.prefix, i);
    }
  }

}
