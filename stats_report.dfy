/**
 The scan of the external statistics report in `getRTMPStreamData`. The
 report body is split into lines; every line up to and including the first
 one containing `<live>` is skipped, and the scan stops at the first later
 line containing `</live>`. In between, a `<name>X</name>` line records X
 with 0 and makes X the pending stream; the next `<nclients>N</nclients>`
 line stores N - 1 for the pending stream (the report counts one publishing
 connection besides the viewers) and clears it. An empty pending name means
 "none".
 */
module StatsReport {
  import opened Wrappers
  import opened Text
  import opened Pattern
  import opened Decimal

  const StartMarker: string := "<live>"
  const EndMarker: string := "</live>"

  /** `<name>(?P<streamName>.*)</name>` */
  const NamePattern: Shape := Shape("<name>", Literal("</name>"))

  /** `<nclients>(?P<viewerCount>.*)</nclients>` */
  const ViewersPattern: Shape := Shape("<nclients>", Literal("</nclients>"))

  /** Scanner state inside the stream list. */
  datatype Scan = Scan(pending: string, data: map<string, int>)

  /** A pending stream has already been recorded. */
  predicate Consistent(st: Scan)
  {
    st.pending == "" || st.pending in st.data
  }

  /** Effect of one line of the stream list that holds no end marker. */
  function ScanLine(line: string, st: Scan): Scan
  {
    match Find(NamePattern, line)
    case Some(name) => Scan(name, st.data[name := 0])
    case None =>
      if st.pending == "" then st
      else
        match Find(ViewersPattern, line)
        case None => st
        case Some(text) =>
          match ParseInt32(text)
          case None => Scan("", st.data)
          case Some(n) => Scan("", st.data[st.pending := n - 1])
  }

  /** The counts once the stream-list lines `lines` are scanned from state `st`. */
  function SectionData(lines: seq<string>, st: Scan): map<string, int>
    decreases |lines|
  {
    if lines == [] || Contains(lines[0], EndMarker) then st.data
    else SectionData(lines[1..], ScanLine(lines[0], st))
  }

  /** The counts the report with lines `lines` yields. */
  function ReportData(lines: seq<string>): map<string, int>
  {
    if lines == [] then map[]
    else if Contains(lines[0], StartMarker) then SectionData(lines[1..], Scan("", map[]))
    else ReportData(lines[1..])
  }

  /** The scanning loop of `getRTMPStreamData`, over the lines of the body. */
  method ParseReport(lines: seq<string>) returns (data: map<string, int>)
    ensures data == ReportData(lines)
  {
    var isStreamList := false;
    var lastStreamName := "";
    data := map[];
    var i := 0;
    while i < |lines|
      invariant 0 <= i <= |lines|
      invariant !isStreamList ==> data == map[] && lastStreamName == "" && ReportData(lines) == ReportData(lines[i..])
      invariant isStreamList ==> ReportData(lines) == SectionData(lines[i..], Scan(lastStreamName, data))
    {
      var line := lines[i];
      assert lines[i..][1..] == lines[i + 1..];
      if !isStreamList {
        if Contains(line, StartMarker) {
          isStreamList := true;
        }
        i := i + 1;
        continue;
      } else if Contains(line, EndMarker) {
        return;
      }

      var name := Find(NamePattern, line);
      if name.Some? {
        data := data[name.value := 0];
        lastStreamName := name.value;
        i := i + 1;
        continue;
      }

      if lastStreamName != "" {
        var viewersText := Find(ViewersPattern, line);
        if viewersText.Some? {
          var viewers := ParseInt32(viewersText.value);
          if viewers.None? {
            lastStreamName := "";
            i := i + 1;
            continue;
          }
          data := data[lastStreamName := viewers.value - 1];
          lastStreamName := "";
        }
      }
      i := i + 1;
    }
  }

  // ---------------------------------------------------------------------
  // Section bounds
  // ---------------------------------------------------------------------

  /** A report with no `<live>` line yields no counts. */
  lemma {:induction false} NoStreamList(lines: seq<string>)
    requires forall k :: 0 <= k < |lines| ==> !Contains(lines[k], StartMarker)
    ensures ReportData(lines) == map[]
    decreases |lines|
  {
    if lines != [] {
      assert forall k :: 0 <= k < |lines| - 1 ==> lines[1..][k] == lines[k + 1];
      NoStreamList(lines[1..]);
    }
  }

  /** Everything up to and including the first `<live>` line is ignored. */
  lemma {:induction false} StreamListStart(lines: seq<string>, k: nat)
    requires k < |lines| && Contains(lines[k], StartMarker)
    requires forall k' :: 0 <= k' < k ==> !Contains(lines[k'], StartMarker)
    ensures ReportData(lines) == SectionData(lines[k + 1..], Scan("", map[]))
    decreases k
  {
    if k > 0 {
      assert forall k' :: 0 <= k' < k - 1 ==> lines[1..][k'] == lines[k' + 1];
      StreamListStart(lines[1..], k - 1);
      assert lines[1..][k..] == lines[k + 1..];
    }
  }

  /** The first `</live>` line ends the scan: nothing from it on has any effect. */
  lemma {:induction false} StreamListEnd(before: seq<string>, endLine: string, after: seq<string>, st: Scan)
    requires Contains(endLine, EndMarker)
    ensures SectionData(before + [endLine] + after, st) == SectionData(before, st)
    decreases |before|
  {
    var lines := before + [endLine] + after;
    if before != [] && !Contains(before[0], EndMarker) {
      assert lines[1..] == before[1..] + [endLine] + after;
      StreamListEnd(before[1..], endLine, after, ScanLine(before[0], st));
    }
  }

  // ---------------------------------------------------------------------
  // Names and counts
  // ---------------------------------------------------------------------

  /** The names of the `<name>` lines among `lines`. */
  ghost function NamesIn(lines: seq<string>): set<string>
  {
    set k | 0 <= k < |lines| && Find(NamePattern, lines[k]).Some? :: Find(NamePattern, lines[k]).value
  }

  lemma NamesInCons(lines: seq<string>)
    requires lines != []
    ensures NamesIn(lines) ==
            (if Find(NamePattern, lines[0]).Some? then {Find(NamePattern, lines[0]).value} else {}) + NamesIn(lines[1..])
  {
    var rest := lines[1..];
    forall x | x in NamesIn(lines)
      ensures x in (if Find(NamePattern, lines[0]).Some? then {Find(NamePattern, lines[0]).value} else {}) + NamesIn(rest)
    {
      var k :| 0 <= k < |lines| && Find(NamePattern, lines[k]).Some? && Find(NamePattern, lines[k]).value == x;
      if k > 0 { assert rest[k - 1] == lines[k]; }
    }
    forall x | x in NamesIn(rest) ensures x in NamesIn(lines) {
      var k :| 0 <= k < |rest| && Find(NamePattern, rest[k]).Some? && Find(NamePattern, rest[k]).value == x;
      assert lines[k + 1] == rest[k];
    }
  }

  /**
   In a stream list without an end marker, the streams reported are exactly
   those named by a `<name>` line (whether or not a count followed).
   */
  lemma {:induction false} SectionStreams(lines: seq<string>, st: Scan)
    requires Consistent(st)
    requires forall k :: 0 <= k < |lines| ==> !Contains(lines[k], EndMarker)
    ensures SectionData(lines, st).Keys == st.data.Keys + NamesIn(lines)
    decreases |lines|
  {
    if lines != [] {
      assert forall k :: 0 <= k < |lines| - 1 ==> lines[1..][k] == lines[k + 1];
      SectionStreams(lines[1..], ScanLine(lines[0], st));
      NamesInCons(lines);
    }
  }

  /**
   A recorded count is final once its stream is no longer pending and no
   later line names it again.
   */
  lemma {:induction false} CountSettled(lines: seq<string>, st: Scan, x: string)
    requires x in st.data && (x == "" || st.pending != x)
    requires forall k :: 0 <= k < |lines| ==> Find(NamePattern, lines[k]) != Some(x)
    ensures x in SectionData(lines, st) && SectionData(lines, st)[x] == st.data[x]
    decreases |lines|
  {
    if lines != [] && !Contains(lines[0], EndMarker) {
      assert forall k :: 0 <= k < |lines| - 1 ==> lines[1..][k] == lines[k + 1];
      CountSettled(lines[1..], ScanLine(lines[0], st), x);
    }
  }

  /** A line that names no stream, holds no count and no end marker. */
  predicate Quiet(line: string)
  {
    !Contains(line, EndMarker) && Find(NamePattern, line).None? && Find(ViewersPattern, line).None?
  }

  /** Quiet lines change nothing, pending name included. */
  lemma {:induction false} QuietLines(quiet: seq<string>, rest: seq<string>, st: Scan)
    requires forall k :: 0 <= k < |quiet| ==> Quiet(quiet[k])
    ensures SectionData(quiet + rest, st) == SectionData(rest, st)
    decreases |quiet|
  {
    if quiet != [] {
      assert (quiet + rest)[0] == quiet[0];
      assert ScanLine(quiet[0], st) == st;
      assert (quiet + rest)[1..] == quiet[1..] + rest;
      assert forall k :: 0 <= k < |quiet| - 1 ==> quiet[1..][k] == quiet[k + 1];
      QuietLines(quiet[1..], rest, st);
    } else {
      assert quiet + rest == rest;
    }
  }

  /**
   A `<name>X</name>` line, then lines that name nothing and count nothing,
   then an `<nclients>N</nclients>` line: X is reported with N - 1 when N is
   a 32-bit decimal and with 0 when it is not, unless a later line names X
   again.
   */
  lemma NameThenCount(nameLine: string, quiet: seq<string>, countLine: string, rest: seq<string>,
                      st: Scan, x: string, text: string)
    requires !Contains(nameLine, EndMarker) && Find(NamePattern, nameLine) == Some(x) && x != ""
    requires forall k :: 0 <= k < |quiet| ==> Quiet(quiet[k])
    requires !Contains(countLine, EndMarker) && Find(NamePattern, countLine).None?
    requires Find(ViewersPattern, countLine) == Some(text)
    requires forall k :: 0 <= k < |rest| ==> Find(NamePattern, rest[k]) != Some(x)
    ensures var result := SectionData([nameLine] + quiet + [countLine] + rest, st);
            x in result && result[x] == match ParseInt32(text) case Some(n) => n - 1 case None => 0
  {
    var lines := [nameLine] + quiet + [countLine] + rest;
    var named := Scan(x, st.data[x := 0]);
    assert lines[1..] == quiet + ([countLine] + rest);
    QuietLines(quiet, [countLine] + rest, named);
    var counted := ScanLine(countLine, named);
    assert ([countLine] + rest)[1..] == rest;
    CountSettled(rest, counted, x);
  }

  /** A count with no pending stream (after another count, or before any name) is ignored. */
  lemma UnclaimedCount(countLine: string, rest: seq<string>, data: map<string, int>)
    requires !Contains(countLine, EndMarker) && Find(NamePattern, countLine).None?
    ensures SectionData([countLine] + rest, Scan("", data)) == SectionData(rest, Scan("", data))
  {
    assert ([countLine] + rest)[1..] == rest;
  }

  // ---------------------------------------------------------------------
  // Scenarios
  // ---------------------------------------------------------------------

  /**
   A report whose markers and tags all stand on one line yields nothing: the
   line holding `<live>` is skipped whole.
   */
  lemma OneLineReport(line: string)
    ensures ReportData([line]) == map[]
  {
  }

  /**
   A report whose stream list holds one stream `x` with `<nclients>n</nclients>`,
   each tag on its own line, reports `x` with n - 1.
   */
  lemma SingleStreamReport(live: string, nameLine: string, x: string, countLine: string, n: int, end: string)
    requires live == StartMarker && end == EndMarker
    requires nameLine == NamePattern.prefix + x + NamePattern.terminator.text
    requires x != "" && '\n' !in x && !Contains(nameLine, EndMarker)
    requires countLine == ViewersPattern.prefix + FormatInt(n) + ViewersPattern.terminator.text
    requires MinInt32 <= n <= MaxInt32
    ensures ReportData([live, nameLine, countLine, end]) == map[x := n - 1]
  {
    var lines := [live, nameLine, countLine, end];
    MarkerLine(live, StartMarker);
    assert lines[1..] == [nameLine, countLine, end];
    SingleStreamSection(nameLine, x, countLine, n, end);
  }

  lemma SingleStreamSection(nameLine: string, x: string, countLine: string, n: int, end: string)
    requires end == EndMarker
    requires nameLine == NamePattern.prefix + x + NamePattern.terminator.text
    requires x != "" && '\n' !in x && !Contains(nameLine, EndMarker)
    requires countLine == ViewersPattern.prefix + FormatInt(n) + ViewersPattern.terminator.text
    requires MinInt32 <= n <= MaxInt32
    ensures SectionData([nameLine, countLine, end], Scan("", map[])) == map[x := n - 1]
  {
    FindEnclosed(NamePattern.prefix, x, NamePattern.terminator.text);
    var named := ScanLine(nameLine, Scan("", map[]));
    assert named == Scan(x, map[x := 0]);
    assert [nameLine, countLine, end][1..] == [countLine, end];
    CountSection(countLine, n, end, named);
  }

  lemma CountSection(countLine: string, n: int, end: string, named: Scan)
    requires end == EndMarker && named.pending != ""
    requires countLine == ViewersPattern.prefix + FormatInt(n) + ViewersPattern.terminator.text
    requires MinInt32 <= n <= MaxInt32
    ensures SectionData([countLine, end], named) == named.data[named.pending := n - 1]
  {
    MarkerLine(end, EndMarker);
    CountLine(countLine, n);
    var counted := ScanLine(countLine, named);
    assert counted == Scan("", named.data[named.pending := n - 1]);
    assert [countLine, end][1..] == [end];
  }

  lemma MarkerLine(line: string, marker: string)
    requires line == marker
    ensures Contains(line, marker)
  {
    assert line[..|marker|] == marker;
  }

  /** An `<nclients>n</nclients>` line: no end marker, no name, and count text `n`. */
  lemma CountLine(countLine: string, n: int)
    requires countLine == ViewersPattern.prefix + FormatInt(n) + ViewersPattern.terminator.text
    requires MinInt32 <= n <= MaxInt32
    ensures !Contains(countLine, EndMarker) && Find(NamePattern, countLine).None?
    ensures Find(ViewersPattern, countLine) == Some(FormatInt(n))
    ensures ParseInt32(FormatInt(n)) == Some(n)
  {
    CountLineChars(countLine, n);
    MissingChar(countLine, EndMarker, 'v');
    MissingChar(countLine, NamePattern.prefix, 'm');
    FindNeedsPrefix(NamePattern, countLine);
    FindEnclosed(ViewersPattern.prefix, FormatInt(n), ViewersPattern.terminator.text);
    ParseFormat(n);
  }

  lemma CountLineChars(countLine: string, n: int)
    requires countLine == ViewersPattern.prefix + FormatInt(n) + ViewersPattern.terminator.text
    ensures 'v' !in countLine && 'm' !in countLine
  {
    FormatIntChars(n);
    var digits := FormatInt(n);
    assert 'v' !in digits && 'm' !in digits;
    MissingFromAll(ViewersPattern.prefix, digits, ViewersPattern.terminator.text, 'v');
    MissingFromAll(ViewersPattern.prefix, digits, ViewersPattern.terminator.text, 'm');
  }

  lemma MissingFromAll(a: string, b: string, c: string, ch: char)
    requires ch !in a && ch !in b && ch !in c
    ensures ch !in a + b + c
  {
  }

}
