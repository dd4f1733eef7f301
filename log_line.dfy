/**
 Extraction of a viewer sighting from one access-log line (`processLine`,
 up to the point where the registry is updated). The line is split on single
 spaces; token 0 is the client and token 6 the requested URL, in which the
 stream name is the capture of `/hls/(.*)-\d+\.ts`.
 */
module LogLine {
  import opened Wrappers
  import opened Text
  import opened Pattern

  /** One request for a segment of `stream` by `client`. */
  datatype Sighting = Sighting(client: string, stream: string)

  const ClientField: nat := 0
  const UrlField: nat := 6
  const MinFields: nat := 7

  /** `/hls/(?P<streamName>.*)-\d+\.ts` */
  const StreamNamePattern: Shape := Shape("/hls/", SegmentNumber)

  /** The sighting a log line records, or `None` when the line is dropped. */
  function ParseLine(line: string): Option<Sighting>
  {
    var parts := Split(line, ' ');
    if |parts| < MinFields then None
    else
      match Find(StreamNamePattern, parts[UrlField])
      case None => None
      case Some(name) => Some(Sighting(parts[ClientField], name))
  }

  /**
   A line is dropped exactly when it has fewer than seven space-separated
   tokens (six spaces; empty tokens count) or its seventh token does not
   match the stream pattern anywhere. Otherwise the client is the first token
   and the stream is the capture of the leftmost, longest match.
   */
  lemma ParseLineSpec(line: string)
    ensures Count(line, ' ') < 6 ==> ParseLine(line).None?
    ensures Count(line, ' ') >= 6 ==>
              var url := Split(line, ' ')[UrlField];
              && (ParseLine(line).None? <==> NoMatch(StreamNamePattern, url))
              && (ParseLine(line).Some? ==>
                    && ParseLine(line).value.client == Split(line, ' ')[ClientField]
                    && Captures(StreamNamePattern, url, ParseLine(line).value.stream))
  {
    var parts := Split(line, ' ');
    if |parts| >= MinFields {
      var url := parts[UrlField];
      FindSpec(StreamNamePattern, url);
      match Find(StreamNamePattern, url)
      case None =>
        assert ParseLine(line).None?;
      case Some(name) =>
        assert ParseLine(line) == Some(Sighting(parts[ClientField], name));
    }
  }

  /** The segment URL `lead/hls/<name>-<digits>.ts<trail>`. */
  function SegmentUrl(lead: string, name: string, digits: string, trail: string): string
  {
    lead + "/hls/" + name + "-" + digits + ".ts" + trail
  }

  /**
   In a segment URL the stream name is exactly the text between `/hls/` and
   the final `-<digits>.ts`, provided nothing before `/hls/` could start an
   earlier match and nothing after `.ts` could end a later one. The name may
   itself contain `-`, `/` or even `-<digits>.ts`.
   */
  lemma SegmentUrlStream(lead: string, name: string, digits: string, trail: string)
    requires '/' !in lead && '\n' !in name && '-' !in trail
    requires digits != [] && forall k :: 0 <= k < |digits| ==> IsDigit(digits[k])
    ensures Find(StreamNamePattern, SegmentUrl(lead, name, digits, trail)) == Some(name)
  {
    var url := SegmentUrl(lead, name, digits, trail);
    var sh := StreamNamePattern;
    var i, j := |lead|, |lead| + 5 + |name|;
    SegmentUrlMatches(lead, name, digits, trail);
    forall i', j' | 0 <= i' < i ensures !MatchAt(sh, url, i', j') {
      NoMatchInLead(lead, name, digits, trail, i', j');
    }
    forall j' | j < j' ensures !MatchAt(sh, url, i, j') {
      NoDashAfterName(lead, name, digits, trail, j');
    }
    FindPreferred(sh, url, i, j);
    assert url[i + 5..j] == name;
  }

  lemma SegmentUrlMatches(lead: string, name: string, digits: string, trail: string)
    requires '\n' !in name
    requires digits != [] && forall k :: 0 <= k < |digits| ==> IsDigit(digits[k])
    ensures MatchAt(StreamNamePattern, SegmentUrl(lead, name, digits, trail), |lead|, |lead| + 5 + |name|)
  {
    var url := SegmentUrl(lead, name, digits, trail);
    var i, j := |lead|, |lead| + 5 + |name|;
    var e := j + 1 + |digits|;
    assert url[i..i + 5] == "/hls/";
    assert url[j] == '-';
    assert url[e..e + 3] == ".ts";
    assert DigitsThenTs(url, j, e) by {
      forall k | j + 1 <= k < e ensures IsDigit(url[k]) {
        assert url[k] == digits[k - j - 1];
      }
    }
    forall k | i + 5 <= k < j ensures url[k] != '\n' {
      assert url[k] == name[k - i - 5];
    }
  }

  lemma NoMatchInLead(lead: string, name: string, digits: string, trail: string, i: int, j: int)
    requires '/' !in lead && 0 <= i < |lead|
    ensures !MatchAt(StreamNamePattern, SegmentUrl(lead, name, digits, trail), i, j)
  {
    var url := SegmentUrl(lead, name, digits, trail);
    assert url[i] == lead[i];
  }

  lemma NoDashAfterName(lead: string, name: string, digits: string, trail: string, j: int)
    requires '-' !in trail
    requires forall k :: 0 <= k < |digits| ==> IsDigit(digits[k])
    requires |lead| + 5 + |name| < j
    ensures !TerminatorMatchesAt(SegmentNumber, SegmentUrl(lead, name, digits, trail), j)
  {
    var url := SegmentUrl(lead, name, digits, trail);
    var e := |lead| + 5 + |name| + 1 + |digits|;
    if j < |url| {
      if j < e {
        assert url[j] == digits[j - e + |digits|];
      } else if j < e + 3 {
        assert url[e..e + 3] == ".ts";
        assert url[j] == url[e..e + 3][j - e];
      } else {
        assert url[j] == trail[j - e - 3];
      }
    }
  }

  /**
   A line made of at least seven space-free fields is recorded for its first
   field as client and the stream named in its seventh field's segment URL.
   */
  lemma ParseSegmentRequest(fields: seq<string>, lead: string, name: string, digits: string, trail: string)
    requires |fields| >= MinFields && forall k :: 0 <= k < |fields| ==> ' ' !in fields[k]
    requires fields[UrlField] == SegmentUrl(lead, name, digits, trail)
    requires '/' !in lead && '\n' !in name && '-' !in trail
    requires digits != [] && forall k :: 0 <= k < |digits| ==> IsDigit(digits[k])
    ensures ParseLine(Join(fields, ' ')) == Some(Sighting(fields[ClientField], name))
  {
    SplitJoin(fields, ' ');
    SegmentUrlStream(lead, name, digits, trail);
  }

  /** A typical access-log line, its fields joined by single spaces, records its client for stream "alpha". */
  lemma ParseAccessLogExample()
    ensures ParseLine(Join(["1.2.3.4", "-", "-", "-", "-", "-", "/hls/alpha-000001.ts", "200"], ' '))
            == Some(Sighting("1.2.3.4", "alpha"))
  {
    var fields := ["1.2.3.4", "-", "-", "-", "-", "-", "/hls/alpha-000001.ts", "200"];
    assert forall k :: 0 <= k < |fields| ==> ' ' !in fields[k];
    assert forall k :: 0 <= k < 6 ==> IsDigit("000001"[k]);
    assert SegmentUrl("", "alpha", "000001", "") == "/hls/alpha-000001.ts";
    ParseSegmentRequest(fields, "", "alpha", "000001", "");
  }

}
