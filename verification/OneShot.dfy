/** What one process sends, all its searches together, is what they find; in v1 that is what one search over the whole
    span finds. */
module OneShot {
  import opened Prelude
  import opened Domain
  import opened Consistency
  import opened Matching
  import opened EntryScan
  import opened Grouping
  import opened IdentitySearch
  import opened MonitorProtocol
  import opened Coverage
  import opened EndToEnd
  import Incremental

  // ----- what the searches find

  predicate AllInLog(log: seq<Body>, scans: seq<Scan>) {
    forall k :: 0 <= k < |scans| ==> InLog(log, scans[k])
  }

  /** The matches of all searches, in order. */
  function FoundIn(cfg: Config, log: seq<Body>, scans: seq<Scan>): seq<LogEntry>
    requires AllInLog(log, scans)
  {
    if scans == [] then []
    else
      var fetched := FetchedBy(cfg.version, log, scans[|scans| - 1]);
      FoundIn(cfg, log, scans[..|scans| - 1]) + AllMatched(cfg.oracle, cfg.values, fetched)
  }

  function FailedIn(cfg: Config, log: seq<Body>, scans: seq<Scan>): seq<FailedEntry>
    requires AllInLog(log, scans)
  {
    if scans == [] then []
    else
      var fetched := FetchedBy(cfg.version, log, scans[|scans| - 1]);
      FailedIn(cfg, log, scans[..|scans| - 1]) + AllFailed(cfg.oracle, cfg.values, fetched)
  }

  function AllFetched(log: seq<Body>, scans: seq<Scan>): seq<Entry>
    requires AllInLog(log, scans)
  {
    if scans == [] then [] else AllFetched(log, scans[..|scans| - 1]) + FetchedBy(V1, log, scans[|scans| - 1])
  }

  lemma {:induction false} FoundInAllFetched(cfg: Config, log: seq<Body>, scans: seq<Scan>)
    requires cfg.version == V1 && AllInLog(log, scans)
    ensures FoundIn(cfg, log, scans) == AllMatched(cfg.oracle, cfg.values, AllFetched(log, scans))
    ensures FailedIn(cfg, log, scans) == AllFailed(cfg.oracle, cfg.values, AllFetched(log, scans))
    decreases |scans|
  {
    if scans != [] {
      var front := scans[..|scans| - 1];
      FoundInAllFetched(cfg, log, front);
      SearchDistributes(cfg.oracle, cfg.values, AllFetched(log, front), FetchedBy(V1, log, scans[|scans| - 1]));
    }
  }

  /** The span from the first search's start to the last one's end. */
  function Whole(scans: seq<Scan>): Scan
    requires scans != []
  {
    Scan(scans[0].start, scans[|scans| - 1].end)
  }

  /** Two abutting searches fetch what one over both ranges does. */
  lemma FetchExtends(log: seq<Body>, start: int, scan: Scan)
    requires InLog(log, Scan(start, scan.start)) && InLog(log, scan)
    ensures InLog(log, Scan(start, scan.end))
    ensures FetchedBy(V1, log, Scan(start, scan.start)) + FetchedBy(V1, log, scan) ==
            FetchedBy(V1, log, Scan(start, scan.end))
  {
    if start < scan.start < scan.end {
      NumberedJoins(log, start + 1, scan.start + 1, scan.end + 1);
    }
  }

  /** Abutting v1 searches fetch each entry of the whole span once, in order. */
  lemma {:induction false} AbuttingFetchesAddUp(log: seq<Body>, scans: seq<Scan>)
    requires scans != [] && AllInLog(log, scans) && Incremental.Abut(scans)
    ensures InLog(log, Whole(scans)) && AllFetched(log, scans) == FetchedBy(V1, log, Whole(scans))
    decreases |scans|
  {
    var front, last := scans[..|scans| - 1], scans[|scans| - 1];
    if front == [] {
      assert AllFetched(log, front) == [];
    } else {
      assert front[|front| - 1].end == last.start;
      AbuttingFetchesAddUp(log, front);
      FetchExtends(log, scans[0].start, last);
    }
  }

  // ----- what is sent

  /** All matches in the notifications. */
  function SentMatches(sent: seq<Notice>): seq<LogEntry> {
    if sent == [] then []
    else SentMatches(sent[..|sent| - 1]) + match sent[|sent| - 1]
      case Found(_, groups) => Flatten(groups)
      case Unreadable(_, _) => []
  }

  /** All entries reported as not examined. */
  function SentFailures(sent: seq<Notice>): seq<FailedEntry> {
    if sent == [] then []
    else SentFailures(sent[..|sent| - 1]) + match sent[|sent| - 1]
      case Found(_, _) => []
      case Unreadable(_, failed) => failed
  }

  /** The notifications sent hold what the recorded searches found, and these groups and failures besides. */
  ghost predicate Tally(cfg: Config, log: seq<Body>, scans: seq<Scan>, sent: seq<Notice>, groups: seq<Group>,
          failed: seq<FailedEntry>)
  {
    && AllInLog(log, scans)
    && multiset(SentMatches(sent)) == multiset(FoundIn(cfg, log, scans)) + multiset(Flatten(groups))
    && SentFailures(sent) == FailedIn(cfg, log, scans) + failed
  }

  /** While notifying, the part of the current report whose notification has gone out is sent besides. */
  ghost predicate SentIsFound(cfg: Config, log: seq<Body>, s: State) {
    match s.phase
    case Down => true
    case Searched(_, _, _, report, foundDue, failedDue) =>
      && s.start.Some? && s.end.Some? && ReportsOn(cfg, log, Range(s), report)
      && Tally(cfg, log, s.scans, s.sent,
               if foundDue then [] else report.groups, if failedDue then [] else report.failed)
    case _ => Tally(cfg, log, s.scans, s.sent, [], [])
  }

  lemma FoundIsSent(cfg: Config, log: seq<Body>, scans: seq<Scan>, sent: seq<Notice>, failed: seq<FailedEntry>,
                    scan: Scan, groups: seq<Group>)
    requires Tally(cfg, log, scans, sent, [], failed)
    ensures Tally(cfg, log, scans, sent + [Found(scan, groups)], groups, failed)
  {
    assert (sent + [Found(scan, groups)])[..|sent|] == sent;
    assert SentFailures(sent) + [] == SentFailures(sent);
  }

  lemma FailedIsSent(cfg: Config, log: seq<Body>, scans: seq<Scan>, sent: seq<Notice>, groups: seq<Group>,
                     scan: Scan, failed: seq<FailedEntry>)
    requires Tally(cfg, log, scans, sent, groups, [])
    ensures Tally(cfg, log, scans, sent + [Unreadable(scan, failed)], groups, failed)
  {
    assert (sent + [Unreadable(scan, failed)])[..|sent|] == sent;
    assert SentMatches(sent) + [] == SentMatches(sent);
    assert FailedIn(cfg, log, scans) + [] == FailedIn(cfg, log, scans);
  }

  lemma ScanIsDone(cfg: Config, log: seq<Body>, scans: seq<Scan>, sent: seq<Notice>, scan: Scan, report: Report)
    requires Tally(cfg, log, scans, sent, report.groups, report.failed) && ReportsOn(cfg, log, scan, report)
    ensures Tally(cfg, log, scans + [scan], sent, [], [])
  {
    FoundInOneMore(cfg, log, scans, scan);
    NothingDropped(cfg.oracle, cfg.values, FetchedBy(cfg.version, log, scan), report.groups);
    assert FailedIn(cfg, log, scans + [scan]) + [] == FailedIn(cfg, log, scans + [scan]);
  }

  lemma FoundInOneMore(cfg: Config, log: seq<Body>, scans: seq<Scan>, scan: Scan)
    requires AllInLog(log, scans) && InLog(log, scan)
    ensures AllInLog(log, scans + [scan])
    ensures var entries := FetchedBy(cfg.version, log, scan);
            && FoundIn(cfg, log, scans + [scan]) ==
               FoundIn(cfg, log, scans) + AllMatched(cfg.oracle, cfg.values, entries)
            && FailedIn(cfg, log, scans + [scan]) ==
               FailedIn(cfg, log, scans) + AllFailed(cfg.oracle, cfg.values, entries)
  {
    assert (scans + [scan])[..|scans|] == scans;
  }

  lemma SearchKeepsFound(cfg: Config, site: Site, log: seq<Body>, s: State, e: Event, t: State)
    requires SentIsFound(cfg, log, s) && Bounded(cfg, site, s) && Step(cfg, s, e) == Some(t) && e.Search?
    requires Honest(cfg, e) && e.log <= log
    ensures SentIsFound(cfg, log, t)
  {
    assert t.scans == s.scans && t.sent == s.sent;
    if e.result.Some? {
      ReportStaysTrue(cfg, e.log, log, e.scan, e.result.value);
    }
  }

  lemma NoticeStep(cfg: Config, s: State, e: Event, t: State)
    requires Step(cfg, s, e) == Some(t) && (e.NotifyFound? || e.NotifyFailed?)
    ensures s.phase.Searched? && Searching(cfg, s)
    ensures e.NotifyFound? ==> s.phase.foundDue
    ensures e.NotifyFailed? ==> !s.phase.foundDue && s.phase.failedDue
    ensures var report := s.phase.report;
            var n := if e.NotifyFound? then Found(Range(s), report.groups) else Unreadable(Range(s), report.failed);
            t == if e.ok
                 then s.(phase := Searched(s.phase.prev, s.phase.cur, s.phase.inputEnd, report, false,
                                           e.NotifyFound? && s.phase.failedDue),
                         sent := s.sent + [n])
                 else Stop(s)
  {
  }

  lemma NoticeKeepsFound(cfg: Config, log: seq<Body>, s: State, e: Event, t: State)
    requires SentIsFound(cfg, log, s) && Step(cfg, s, e) == Some(t) && (e.NotifyFound? || e.NotifyFailed?)
    ensures SentIsFound(cfg, log, t)
  {
    NoticeStep(cfg, s, e, t);
    if e.ok {
      var report := s.phase.report;
      if e.NotifyFound? {
        var failed := if s.phase.failedDue then [] else report.failed;
        FoundIsSent(cfg, log, s.scans, s.sent, failed, Range(s), report.groups);
      } else {
        FailedIsSent(cfg, log, s.scans, s.sent, report.groups, Range(s), report.failed);
      }
    }
  }

  lemma HandOverKeepsFound(cfg: Config, log: seq<Body>, s: State, t: State)
    requires SentIsFound(cfg, log, s) && Step(cfg, s, HandOver) == Some(t)
    ensures SentIsFound(cfg, log, t)
  {
    HandOverStep(cfg, s, t);
    if s.phase.Searched? {
      ScanIsDone(cfg, log, s.scans, s.sent, Range(s), s.phase.report);
    }
  }

  lemma OtherStep(cfg: Config, s: State, e: Event, t: State)
    requires Step(cfg, s, e) == Some(t)
    requires !e.HandOver? && !e.NotifyFound? && !e.NotifyFailed? && !e.Search? && !e.Start?
    ensures t.scans == s.scans && t.sent == s.sent && !t.phase.Searched?
    ensures s.phase.Searched? || s.phase.Down? ==> t.phase.Down?
  {
  }

  lemma OtherKeepsFound(cfg: Config, log: seq<Body>, s: State, e: Event, t: State)
    requires SentIsFound(cfg, log, s) && Step(cfg, s, e) == Some(t)
    requires !e.HandOver? && !e.NotifyFound? && !e.NotifyFailed? && !e.Search? && !e.Start?
    ensures SentIsFound(cfg, log, t)
  {
    OtherStep(cfg, s, e, t);
  }

  /** What the run is assumed to do from here on. */
  ghost predicate HonestFrom(cfg: Config, site: Site, log: seq<Body>, es: seq<Event>) {
    SteadyRun(cfg, site, es) && HonestRun(cfg, log, es) && Incremental.NoRestart(es)
  }

  lemma HonestRest(cfg: Config, site: Site, log: seq<Body>, es: seq<Event>)
    requires es != [] && HonestFrom(cfg, site, log, es)
    ensures HonestFrom(cfg, site, log, es[1..])
  {
    assert forall k :: 0 <= k < |es| - 1 ==> es[1..][k] == es[k + 1];
  }

  lemma StepKeepsFound(cfg: Config, site: Site, log: seq<Body>, s: State, e: Event, t: State)
    requires SentIsFound(cfg, log, s) && Bounded(cfg, site, s) && Step(cfg, s, e) == Some(t)
    requires HonestFrom(cfg, site, log, [e])
    ensures SentIsFound(cfg, log, t)
  {
    assert [e][0] == e;
    if e.HandOver? {
      HandOverKeepsFound(cfg, log, s, t);
    } else if e.NotifyFound? || e.NotifyFailed? {
      NoticeKeepsFound(cfg, log, s, e, t);
    } else if e.Search? {
      SearchKeepsFound(cfg, site, log, s, e, t);
    } else {
      OtherKeepsFound(cfg, log, s, e, t);
    }
  }

  lemma {:induction false} ExecKeepsFound(cfg: Config, site: Site, log: seq<Body>, s: State, es: seq<Event>, t: State)
    requires Setting(cfg, site) && SentIsFound(cfg, log, s) && Bounded(cfg, site, s) && Exec(cfg, s, es) == Some(t)
    requires FromMinusOne(cfg.startIndex) && HonestFrom(cfg, site, log, es)
    ensures SentIsFound(cfg, log, t)
    decreases |es|
  {
    if es != [] {
      var u := Step(cfg, s, es[0]).value;
      StepKeepsFound(cfg, site, log, s, es[0], u);
      StepKeepsBounded(cfg, site, s, es[0], u);
      HonestRest(cfg, site, log, es);
      ExecKeepsFound(cfg, site, log, u, es[1..], t);
    }
  }

  /** While one process runs and is not in the middle of notifying, what it has sent is exactly what its searches
      found: the matches as a multiset, the failures in order. */
  lemma SentEqualsFound(cfg: Config, site: Site, log: seq<Body>, s: State, es: seq<Event>, t: State)
    requires Setting(cfg, site) && FirstStart(cfg, site, s) && FromMinusOne(cfg.startIndex)
    requires Exec(cfg, s, [Start] + es) == Some(t)
    requires SteadyRun(cfg, site, es) && HonestRun(cfg, log, es) && Incremental.NoRestart(es)
    requires !t.phase.Down? && !t.phase.Searched?
    ensures AllInLog(log, t.scans)
    ensures multiset(SentMatches(t.sent)) == multiset(FoundIn(cfg, log, t.scans))
    ensures SentFailures(t.sent) == FailedIn(cfg, log, t.scans)
  {
    ExecCons(cfg, s, Start, es);
    var u := Step(cfg, s, Start).value;
    assert Tally(cfg, log, u.scans, u.sent, [], []);
    ExecKeepsFound(cfg, site, log, u, es, t);
    assert FailedIn(cfg, log, t.scans) + [] == FailedIn(cfg, log, t.scans);
  }

  /** Over any v1 run of one process, failed checks included, the matches sent are, as a multiset, those of a single
      search over the whole span, and the failures sent are its failures. */
  lemma IncrementalEqualsOneShot(cfg: Config, site: Site, log: seq<Body>, s: State, es: seq<Event>, t: State)
    requires cfg.version == V1 && Setting(cfg, site) && Plain(cfg) && FirstStart(cfg, site, s)
    requires s.file.Saved? ==> Fits(site, s.file.checkpoint)
    requires Exec(cfg, s, [Start] + es) == Some(t)
    requires SteadyRun(cfg, site, es) && FitRun(site, es) && Incremental.NoRestart(es)
    requires HonestRun(cfg, log, es)
    requires t.scans != [] && !t.phase.Down? && !t.phase.Searched?
    ensures InLog(log, Whole(t.scans))
    ensures var entries := FetchedBy(V1, log, Whole(t.scans));
            && multiset(SentMatches(t.sent)) == multiset(AllMatched(cfg.oracle, cfg.values, entries))
            && SentFailures(t.sent) == AllFailed(cfg.oracle, cfg.values, entries)
  {
    SentEqualsFound(cfg, site, log, s, es, t);
    Incremental.ScansAbut(cfg, site, s, es, t);
    AbuttingFetchesAddUp(log, t.scans);
    FoundInAllFetched(cfg, log, t.scans);
  }
}
