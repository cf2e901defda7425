/** One search of the monitor: fetch, match, write out, group. */
module IdentitySearch {
  import opened Prelude
  import opened Domain
  import opened Consistency
  import opened Matching
  import opened EntryScan
  import opened Grouping
  import BatchClient
  import TileClient

  /** A search of the entries (start, end]. */
  datatype Scan = Scan(start: int, end: int)

  /** What a search hands to the notifications. */
  datatype Report = Report(groups: seq<Group>, failed: seq<FailedEntry>)

  /** The log as one search reaches it. */
  datatype LogServer = BatchServer(batch: BatchClient.Server) | TileServer(tile: TileClient.Server)

  function LogOf(server: LogServer): seq<Body> {
    match server
    case BatchServer(s) => s.log
    case TileServer(s) => s.log
  }

  function VersionOf(server: LogServer): Version {
    if server.BatchServer? then V1 else V2
  }

  predicate InLog(log: seq<Body>, scan: Scan) {
    -1 <= scan.start <= scan.end && (scan.start < scan.end ==> scan.end < |log|)
  }

  /** The entries one search fetches: the range itself in v1, from the tile client's first index in v2. */
  function FetchedBy(version: Version, log: seq<Body>, scan: Scan): seq<Entry>
    requires InLog(log, scan)
  {
    if scan.start == scan.end then []
    else match version
      case V1 => Numbered(log, scan.start + 1, scan.end + 1)
      case V2 => Numbered(log, TileClient.First(scan.start, scan.end), scan.end + 1)
  }

  /** A search sees the same entries in any later state of an append-only log. */
  lemma LaterLogSameEntries(version: Version, earlier: seq<Body>, later: seq<Body>, scan: Scan)
    requires earlier <= later && InLog(earlier, scan)
    ensures InLog(later, scan) && FetchedBy(version, earlier, scan) == FetchedBy(version, later, scan)
  {
  }

  /** The report groups exactly the matches of the fetched entries and lists exactly their failures. */
  ghost predicate Reports(version: Version, o: Oracle, mvs: MonitoredValues, log: seq<Body>, scan: Scan,
                          report: Report)
  {
    && InLog(log, scan)
    && var entries := FetchedBy(version, log, scan);
       && IsGrouping(report.groups, Known(AllMatched(o, mvs, entries), IdentitiesList(mvs)))
       && report.failed == AllFailed(o, mvs, entries)
  }

  /** All requests of the search are answered. */
  predicate FetchGoes(server: LogServer, start: int, end: int) {
    match server
    case BatchServer(s) =>
      start <= end && BatchClient.StaysInInt64(start, end) && BatchClient.AllGo(s, BatchClient.Batches(start, end))
    case TileServer(s) =>
      start <= end && (start < end ==> TileClient.AllServed(s, TileClient.Plan(start, end)))
  }

  /** When they are, from the answers alone: the log reaches the end of the range, and each request for a part of
      it is answered. */
  ghost predicate Answered(server: LogServer, start: int, end: int) {
    match server
    case BatchServer(s) =>
      && start + 1 + 10 * ((end - start + 9) / 10) <= MAX_INT64
      && (start < end ==>
            && end < |s.log| && (end - start + 9) / 10 <= s.deadline
            && forall n: nat :: start + 1 + 10 * n <= end ==>
                 s.answers(BatchClient.Indices(start + 1 + 10 * n,
                                               BatchClient.ComputeMin(start + 11 + 10 * n, end + 1))))
    case TileServer(s) =>
      start < end ==>
        && end < |s.log| && s.answers(TileClient.Request(end / 256, (end + 1) % 256))
        && forall tile :: (start + 1) / 256 <= tile < end / 256 ==> s.answers(TileClient.Request(tile, 0))
  }

  lemma FetchGoesExactly(server: LogServer, start: int, end: int)
    requires -1 <= start <= MAX_INT64 && end < MAX_INT64
    ensures FetchGoes(server, start, end) <==> start <= end && Answered(server, start, end)
  {
    if start <= end {
      match server
      case BatchServer(s) => BatchClient.AnsweredExactly(s, start, end);
      case TileServer(s) => if start < end { TileClient.AnsweredExactly(s, start, end); }
    }
  }

  method FetchEntries(server: LogServer, start: int, end: int) returns (r: Result<seq<Entry>>)
    requires InInt64(start) && InInt64(end)
    ensures r.Ok? <==> FetchGoes(server, start, end)
    ensures -1 <= start && end < MAX_INT64 ==> (r.Ok? <==> start <= end && Answered(server, start, end))
    ensures r.Ok? && start >= -1 ==>
              && InLog(LogOf(server), Scan(start, end))
              && r.value == FetchedBy(VersionOf(server), LogOf(server), Scan(start, end))
  {
    if -1 <= start && end < MAX_INT64 {
      FetchGoesExactly(server, start, end);
    }
    match server
    case BatchServer(s) =>
      var entries, _ := BatchClient.GetEntriesByIndexRange(s, start, end);
      r := entries;
    case TileServer(s) =>
      var entries, _ := TileClient.GetEntriesByIndexRange(s, start, end);
      r := entries;
      if -1 <= start < end && r.Ok? {
        TileClient.ServedEndIsSmall(s, start, end);
        TileClient.RangeRefinement(s, start, end);
      }
  }

  /** What both versions do with the fetched entries; `written` is whether the output files take them. */
  method MatchAndGroup(o: Oracle, mvs: MonitoredValues, entries: seq<Entry>, written: bool) returns (r: Result<Report>)
    ensures r.Ok? <==> ValidValues(mvs) && written
    ensures r.Ok? ==> IsGrouping(r.value.groups, Known(AllMatched(o, mvs, entries), IdentitiesList(mvs)))
    ensures r.Ok? ==> multiset(Flatten(r.value.groups)) == multiset(AllMatched(o, mvs, entries))
    ensures r.Ok? ==> r.value.failed == AllFailed(o, mvs, entries)
  {
    var matched := MatchedIndices(o, entries, mvs);
    if matched.Err? {
      return Err("error matching indices");
    }
    if !written {
      return Err("failed to write entry");
    }
    var identities := CreateIdentitiesList(mvs);
    var monitoredIdentities := CreateMonitoredIdentities(matched.value.0, identities);
    NothingDropped(o, mvs, entries, monitoredIdentities);
    return Ok(Report(monitoredIdentities, matched.value.1));
  }

  /** IdentitySearch of either version: it succeeds exactly when every part of it does. */
  method Search(server: LogServer, o: Oracle, mvs: MonitoredValues, start: int, end: int, written: bool)
    returns (r: Result<Report>)
    requires InInt64(start) && InInt64(end)
    ensures r.Ok? <==> FetchGoes(server, start, end) && ValidValues(mvs) && written
    ensures r.Ok? && start >= -1 ==>
              Reports(VersionOf(server), o, mvs, LogOf(server), Scan(start, end), r.value)
  {
    var entries := FetchEntries(server, start, end);
    if entries.Err? {
      return Err("error getting entries by index range");
    }
    r := MatchAndGroup(o, mvs, entries.value, written);
  }

  // ----- nothing a report should carry is missing from it

  /** A match in an entry of the searched range is in the report's groups. */
  lemma MatchIsReported(version: Version, o: Oracle, mvs: MonitoredValues, log: seq<Body>, scan: Scan, report: Report,
                        i: int, x: LogEntry)
    requires Reports(version, o, mvs, log, scan, report) && scan.start < i <= scan.end
    requires x in Examine(o, mvs, Entry(log[i], i)).matched
    ensures x in Flatten(report.groups)
  {
    var entries := FetchedBy(version, log, scan);
    var k := PositionIn(version, log, scan, i);
    MatchesAreKept(o, mvs, entries, k, x);
    NothingDropped(o, mvs, entries, report.groups);
    assert x in multiset(AllMatched(o, mvs, entries));
    assert x in multiset(Flatten(report.groups));
  }

  /** An entry of the searched range that could not be examined is among the report's failures. */
  lemma FailureIsReported(version: Version, o: Oracle, mvs: MonitoredValues, log: seq<Body>, scan: Scan,
                          report: Report, i: int)
    requires Reports(version, o, mvs, log, scan, report) && scan.start < i <= scan.end
    requires Examine(o, mvs, Entry(log[i], i)).disposition.FailedAt?
    ensures FailedEntry(i, log[i].uuid, Examine(o, mvs, Entry(log[i], i)).disposition.stage) in report.failed
  {
    var k := PositionIn(version, log, scan, i);
    FailuresAreKept(o, mvs, FetchedBy(version, log, scan), k);
  }

  /** What a report's groups are: each is named after a value found in the entry of every match it holds, each
      match of the range is in the group of the value it was found by, and matches share a group exactly when these
      values are equal. */
  lemma ReportsByValue(version: Version, o: Oracle, mvs: MonitoredValues, log: seq<Body>, scan: Scan, report: Report)
    requires Reports(version, o, mvs, log, scan, report)
    ensures forall g, x :: g in report.groups && x in g.entries ==>
              exists i :: 0 <= i < |log| && MatchOf(o, mvs, Entry(log[i], i), x, g.identity)
    ensures forall i, x, v :: scan.start < i <= scan.end && MatchOf(o, mvs, Entry(log[i], i), x, v) ==>
              exists g :: g in report.groups && g.identity == v && x in g.entries
    ensures forall g, h, x, y, e, f, v, w ::
              g in report.groups && h in report.groups && x in g.entries && y in h.entries
              && MatchOf(o, mvs, e, x, v) && MatchOf(o, mvs, f, y, w) ==>
                (g == h <==> v == w)
  {
    forall g, x | g in report.groups && x in g.entries
      ensures exists i :: 0 <= i < |log| && MatchOf(o, mvs, Entry(log[i], i), x, g.identity)
    {
      var i := IndexInGroup(version, o, mvs, log, scan, report, g, x);
    }
    forall i, x, v | scan.start < i <= scan.end && MatchOf(o, mvs, Entry(log[i], i), x, v)
      ensures exists g :: g in report.groups && g.identity == v && x in g.entries
    {
      var k := PositionIn(version, log, scan, i);
      var g := GroupOf(o, mvs, FetchedBy(version, log, scan), report.groups, Entry(log[i], i), x, v);
    }
    GroupsByValue(o, mvs, FetchedBy(version, log, scan), report.groups);
  }

  lemma IndexInGroup(version: Version, o: Oracle, mvs: MonitoredValues, log: seq<Body>, scan: Scan, report: Report,
                     g: Group, x: LogEntry)
    returns (i: int)
    requires Reports(version, o, mvs, log, scan, report) && g in report.groups && x in g.entries
    ensures 0 <= i < |log| && MatchOf(o, mvs, Entry(log[i], i), x, g.identity)
  {
    var e := GroupedBy(o, mvs, FetchedBy(version, log, scan), report.groups, g, x);
    FetchedOwnIndex(version, log, scan, e);
    i := e.index;
  }

  lemma FetchedOwnIndex(version: Version, log: seq<Body>, scan: Scan, e: Entry)
    requires InLog(log, scan) && e in FetchedBy(version, log, scan)
    ensures 0 <= e.index < |log| && e == Entry(log[e.index], e.index)
  {
  }

  lemma PositionIn(version: Version, log: seq<Body>, scan: Scan, i: int) returns (k: nat)
    requires InLog(log, scan) && scan.start < i <= scan.end
    ensures k < |FetchedBy(version, log, scan)| && FetchedBy(version, log, scan)[k] == Entry(log[i], i)
  {
    k := i - if version == V1 then scan.start + 1 else TileClient.First(scan.start, scan.end);
  }
}
