/** From index coverage to matches: what the searches of a run report, taken together. */
module EndToEnd {
  import opened Prelude
  import opened Domain
  import opened Consistency
  import opened Matching
  import opened EntryScan
  import opened Carried
  import opened Grouping
  import opened IdentitySearch
  import opened MonitorProtocol
  import opened Coverage
  import opened MonitorLoop
  import opened LoopCoverage
  import Incremental
  import TileClient

  // ----- v2: how often the searches of one process read an entry

  function Ends(scans: seq<Scan>): seq<int>
    requires scans != []
  {
    seq(|scans| + 1, k requires 0 <= k < |scans| + 1 => if k == 0 then scans[0].start else scans[k - 1].end)
  }

  function Reads(scans: seq<Scan>, i: int): nat {
    if scans == [] then 0
    else (if TileClient.FetchesIndex(scans[0].start, scans[0].end, i) then 1 else 0) + Reads(scans[1..], i)
  }

  lemma {:induction false} ReadsAreFetches(scans: seq<Scan>, i: int)
    requires scans != [] && Incremental.Abut(scans)
    ensures Reads(scans, i) == TileClient.Fetches(Ends(scans), i)
    decreases |scans|
  {
    if |scans| > 1 {
      var rest := scans[1..];
      assert Incremental.Abut(rest) by {
        assert forall k :: 0 < k < |rest| ==> rest[k] == scans[k + 1] && rest[k - 1] == scans[k];
      }
      ReadsAreFetches(rest, i);
      assert Ends(scans)[1..] == Ends(rest);
    } else {
      assert Ends(scans)[1..] == [scans[0].end];
      assert scans[1..] == [];
    }
  }

  lemma AbuttingReads(scans: seq<Scan>, i: int)
    requires scans != [] && Incremental.Abut(scans) && Incremental.InRange(scans)
    requires scans[0].start < i <= scans[|scans| - 1].end
    ensures 1 <= Reads(scans, i) <= TileClient.TILE_WIDTH - i % TileClient.TILE_WIDTH
  {
    ReadsAreFetches(scans, i);
    var ends := Ends(scans);
    forall k | 0 < k < |ends|
      ensures ends[k - 1] <= ends[k]
    {
      assert ends[k - 1] == scans[k - 1].start;
    }
    TileClient.BoundedRepetition(ends, i);
  }

  /** Over any v2 run of one process, every entry past the first search's start, up to the last one's end, is
      read at least once and at most 256 - i mod 256 times. */
  lemma BoundedReads(cfg: Config, site: Site, s: State, es: seq<Event>, t: State, i: int)
    requires cfg.version == V2 && Setting(cfg, site) && Plain(cfg) && FirstStart(cfg, site, s)
    requires s.file.Saved? ==> Fits(site, s.file.checkpoint)
    requires Exec(cfg, s, [Start] + es) == Some(t)
    requires SteadyRun(cfg, site, es) && FitRun(site, es) && EmptiesAreSeen(es) && Incremental.NoRestart(es)
    requires t.scans != [] && t.scans[0].start < i <= t.scans[|t.scans| - 1].end
    ensures 1 <= Reads(t.scans, i) <= TileClient.TILE_WIDTH - i % TileClient.TILE_WIDTH
  {
    Incremental.ScansAbut(cfg, site, s, es, t);
    AbuttingReads(t.scans, i);
  }

  // ----- no match is lost

  ghost predicate MatchSent(sent: seq<Notice>, x: LogEntry) {
    exists n :: n in sent && n.Found? && x in Flatten(n.groups)
  }

  ghost predicate FailureSent(sent: seq<Notice>, f: FailedEntry) {
    exists n :: n in sent && n.Unreadable? && f in n.failed
  }

  ghost predicate ReportsOn(cfg: Config, log: seq<Body>, scan: Scan, report: Report) {
    Reports(cfg.version, cfg.oracle, cfg.values, log, scan, report)
  }

  /** The report is the true one for this search, and what it holds was sent. */
  ghost predicate ReportSent(cfg: Config, log: seq<Body>, sent: seq<Notice>, scan: Scan, report: Report) {
    && ReportsOn(cfg, log, scan, report)
    && (report.groups != [] ==> Found(scan, report.groups) in sent)
    && (report.failed != [] ==> Unreadable(scan, report.failed) in sent)
  }

  /** A report that was true when the search was made is still true of the log as it grew. */
  lemma ReportStaysTrue(cfg: Config, earlier: seq<Body>, later: seq<Body>, scan: Scan, report: Report)
    requires ReportsOn(cfg, earlier, scan, report) && earlier <= later
    ensures ReportsOn(cfg, later, scan, report)
  {
    LaterLogSameEntries(cfg.version, earlier, later, scan);
  }

  /** Every search reported the truth about the log it saw, and the log only grew, to `log` in the end. */
  ghost predicate HonestRun(cfg: Config, log: seq<Body>, es: seq<Event>) {
    forall k :: 0 <= k < |es| ==> Honest(cfg, es[k]) && (es[k].Search? ==> es[k].log <= log)
  }

  ghost predicate PhaseSent(cfg: Config, log: seq<Body>, s: State) {
    match s.phase
    case Searched(_, _, _, report, foundDue, failedDue) =>
      && s.start.Some? && s.end.Some? && ReportsOn(cfg, log, Range(s), report)
      && (report.groups != [] && !foundDue ==> Found(Range(s), report.groups) in s.sent)
      && (report.failed != [] && !failedDue ==> Unreadable(Range(s), report.failed) in s.sent)
    case _ => true
  }

  ghost predicate ScanSent(cfg: Config, log: seq<Body>, sent: seq<Notice>, scan: Scan) {
    exists report :: ReportSent(cfg, log, sent, scan, report)
  }

  /** The report of every recorded search was sent. */
  ghost predicate SentInv(cfg: Config, log: seq<Body>, s: State) {
    && (forall k :: 0 <= k < |s.scans| ==> ScanSent(cfg, log, s.sent, s.scans[k]))
    && PhaseSent(cfg, log, s)
  }

  predicate FromMinusOne(index: Option<int>) {
    index.Some? ==> index.value >= -1
  }

  ghost predicate PhaseBounded(cfg: Config, site: Site, s: State) {
    match s.phase
    case Down => true
    case Ready => FromMinusOne(s.start)
    case Checked(_, cur, inputEnd) =>
      HeadInv(cfg, site, cur) && FromMinusOne(s.start) && (inputEnd.None? ==> FromMinusOne(s.end))
    case Searched(_, cur, inputEnd, _, _, _) =>
      HeadInv(cfg, site, cur) && FromMinusOne(s.start) && (inputEnd.None? ==> FromMinusOne(s.end))
    case HandedOver(_, cur, inputEnd) => HeadInv(cfg, site, cur) && (inputEnd.None? ==> FromMinusOne(s.start))
    case Writing(cur, inputEnd) => HeadInv(cfg, site, cur) && (inputEnd.None? ==> FromMinusOne(s.start))
    case Written(_, inputEnd) => inputEnd.None? ==> FromMinusOne(s.start)
  }

  /** No search starts below -1. */
  ghost predicate Bounded(cfg: Config, site: Site, s: State) {
    (s.file.Saved? ==> FromSite(cfg, site, s.file.checkpoint)) && PhaseBounded(cfg, site, s)
  }

  lemma CheckKeepsBounded(cfg: Config, site: Site, s: State, reply: Reply, seen: bool)
    requires Setting(cfg, site) && Bounded(cfg, site, s) && s.phase.Ready? && Steady(cfg, site, reply)
    ensures Bounded(cfg, site, Step(cfg, s, RunCheck(reply, seen)).value)
  {
    var file := Seen(s.file, seen);
    var outcome := Check(cfg.version, cfg.accepts, file, reply);
    if outcome.Passed? {
      PassedCheck(cfg, site, file, reply);
      IndexBounds(cfg, site, outcome.cur, outcome.cur.head.size);
      if file.Saved? {
        IndexBounds(cfg, site, outcome.cur, file.checkpoint.size);
      }
    }
  }

  lemma StepKeepsBounded(cfg: Config, site: Site, s: State, e: Event, t: State)
    requires Setting(cfg, site) && Bounded(cfg, site, s) && Step(cfg, s, e) == Some(t)
    requires FromMinusOne(cfg.startIndex) && (e.RunCheck? ==> Steady(cfg, site, e.reply))
    ensures Bounded(cfg, site, t)
  {
    if e.RunCheck? {
      CheckKeepsBounded(cfg, site, s, e.reply, e.seen);
    }
  }

  lemma SentStays(cfg: Config, log: seq<Body>, sent: seq<Notice>, more: Notice, scan: Scan)
    requires ScanSent(cfg, log, sent, scan)
    ensures ScanSent(cfg, log, sent + [more], scan)
  {
    var report :| ReportSent(cfg, log, sent, scan, report);
    assert ReportSent(cfg, log, sent + [more], scan, report);
  }

  lemma HandOverKeepsSent(cfg: Config, log: seq<Body>, s: State, t: State)
    requires SentInv(cfg, log, s) && Step(cfg, s, HandOver) == Some(t)
    ensures SentInv(cfg, log, t)
  {
    HandOverStep(cfg, s, t);
    if s.phase.Searched? {
      assert ReportSent(cfg, log, t.sent, Range(s), s.phase.report);
      assert ScanSent(cfg, log, t.sent, Range(s));
    }
  }

  lemma NoticeKeepsSent(cfg: Config, log: seq<Body>, s: State, e: Event, t: State)
    requires SentInv(cfg, log, s) && Step(cfg, s, e) == Some(t) && (e.NotifyFound? || e.NotifyFailed?)
    ensures SentInv(cfg, log, t)
  {
    assert t.scans == s.scans;
    if t.sent != s.sent {
      var more := t.sent[|s.sent|];
      assert t.sent == s.sent + [more];
      forall k | 0 <= k < |t.scans|
        ensures ScanSent(cfg, log, t.sent, t.scans[k])
      {
        SentStays(cfg, log, s.sent, more, s.scans[k]);
      }
    }
  }

  lemma SearchKeepsSent(cfg: Config, site: Site, log: seq<Body>, s: State, e: Event, t: State)
    requires SentInv(cfg, log, s) && Bounded(cfg, site, s) && Step(cfg, s, e) == Some(t) && e.Search?
    requires Honest(cfg, e) && e.log <= log
    ensures SentInv(cfg, log, t)
  {
    assert t.scans == s.scans && t.sent == s.sent;
    if e.result.Some? {
      ReportStaysTrue(cfg, e.log, log, e.scan, e.result.value);
    }
  }

  lemma OtherKeepsSent(cfg: Config, log: seq<Body>, s: State, e: Event, t: State)
    requires SentInv(cfg, log, s) && Step(cfg, s, e) == Some(t)
    requires !e.HandOver? && !e.NotifyFound? && !e.NotifyFailed? && !e.Search?
    ensures SentInv(cfg, log, t)
  {
    assert t.scans == s.scans && t.sent == s.sent && !t.phase.Searched?;
  }

  lemma StepKeepsSent(cfg: Config, site: Site, log: seq<Body>, s: State, e: Event, t: State)
    requires SentInv(cfg, log, s) && Bounded(cfg, site, s) && Step(cfg, s, e) == Some(t)
    requires Honest(cfg, e) && (e.Search? ==> e.log <= log)
    ensures SentInv(cfg, log, t)
  {
    if e.HandOver? {
      HandOverKeepsSent(cfg, log, s, t);
    } else if e.NotifyFound? || e.NotifyFailed? {
      NoticeKeepsSent(cfg, log, s, e, t);
    } else if e.Search? {
      SearchKeepsSent(cfg, site, log, s, e, t);
    } else {
      OtherKeepsSent(cfg, log, s, e, t);
    }
  }

  lemma {:induction false} ExecKeepsSent(cfg: Config, site: Site, log: seq<Body>, s: State, es: seq<Event>, t: State)
    requires Setting(cfg, site) && SentInv(cfg, log, s) && Bounded(cfg, site, s) && Exec(cfg, s, es) == Some(t)
    requires FromMinusOne(cfg.startIndex) && SteadyRun(cfg, site, es) && HonestRun(cfg, log, es)
    ensures SentInv(cfg, log, t) && Bounded(cfg, site, t)
    decreases |es|
  {
    if es != [] {
      var u := Step(cfg, s, es[0]).value;
      StepKeepsSent(cfg, site, log, s, es[0], u);
      StepKeepsBounded(cfg, site, s, es[0], u);
      assert SteadyRun(cfg, site, es[1..]) && HonestRun(cfg, log, es[1..]) by {
        assert forall k :: 0 <= k < |es| - 1 ==> es[1..][k] == es[k + 1];
      }
      ExecKeepsSent(cfg, site, log, u, es[1..], t);
    }
  }

  /** What a searched entry holds was sent. */
  lemma DeliveredIsSent(cfg: Config, log: seq<Body>, s: State, i: int)
    requires SentInv(cfg, log, s) && Delivered(s.scans, i) && 0 <= i < |log|
    ensures var examined := Examine(cfg.oracle, cfg.values, Entry(log[i], i));
            && (forall x :: x in examined.matched ==> MatchSent(s.sent, x))
            && (examined.disposition.FailedAt? ==>
                  FailureSent(s.sent, FailedEntry(i, log[i].uuid, examined.disposition.stage)))
  {
    var k :| 0 <= k < |s.scans| && s.scans[k].start < i <= s.scans[k].end;
    assert ScanSent(cfg, log, s.sent, s.scans[k]);
    var report :| ReportSent(cfg, log, s.sent, s.scans[k], report);
    var examined := Examine(cfg.oracle, cfg.values, Entry(log[i], i));
    forall x | x in examined.matched
      ensures MatchSent(s.sent, x)
    {
      MatchIsReported(cfg.version, cfg.oracle, cfg.values, log, s.scans[k], report, i, x);
      assert Found(s.scans[k], report.groups) in s.sent;
    }
    if examined.disposition.FailedAt? {
      FailureIsReported(cfg.version, cfg.oracle, cfg.values, log, s.scans[k], report, i);
      assert Unreadable(s.scans[k], report.failed) in s.sent;
    }
  }

  /** A match went out in the group that is named after the value it was found by. */
  ghost predicate SentUnder(sent: seq<Notice>, x: LogEntry, v: string) {
    exists n, g :: n in sent && n.Found? && g in n.groups && g.identity == v && x in g.entries
  }

  lemma DeliveredIsSentUnder(cfg: Config, log: seq<Body>, s: State, i: int, x: LogEntry, v: string)
    requires SentInv(cfg, log, s) && Delivered(s.scans, i) && 0 <= i < |log|
    requires MatchOf(cfg.oracle, cfg.values, Entry(log[i], i), x, v)
    ensures SentUnder(s.sent, x, v)
  {
    var k :| 0 <= k < |s.scans| && s.scans[k].start < i <= s.scans[k].end;
    var scan := s.scans[k];
    assert ScanSent(cfg, log, s.sent, scan);
    var report :| ReportSent(cfg, log, s.sent, scan, report);
    var at := PositionIn(cfg.version, log, scan, i);
    var g := GroupOf(cfg.oracle, cfg.values, FetchedBy(cfg.version, log, scan), report.groups, Entry(log[i], i), x, v);
    assert Found(scan, report.groups) in s.sent;
  }

  /** What a searched, trusted entry carries of the monitored values was sent, or the entry itself was, as one that
      could not be examined. A fingerprint is never lost to such a failure. */
  lemma CarriedIsSent(cfg: Config, log: seq<Body>, s: State, i: int, x: LogEntry, v: string)
    requires SentInv(cfg, log, s) && Delivered(s.scans, i) && 0 <= i < |log|
    requires log[i].parse.Parsed? && cfg.oracle.trusts(log[i].parse.certs)
    requires Carries(cfg.oracle, cfg.values, Entry(log[i], i), x, v)
    ensures CarriesFingerprint(cfg.values, Entry(log[i], i), x, v) ==> SentUnder(s.sent, x, v)
    ensures SentUnder(s.sent, x, v) || exists stage :: FailureSent(s.sent, FailedEntry(i, log[i].uuid, stage))
  {
    var examined := Examine(cfg.oracle, cfg.values, Entry(log[i], i));
    CarriedIsMatched(cfg.oracle, cfg.values, Entry(log[i], i), x, v);
    if x in examined.matched {
      DeliveredIsSentUnder(cfg, log, s, i, x, v);
    } else {
      DeliveredIsSent(cfg, log, s, i);
      assert FailureSent(s.sent, FailedEntry(i, log[i].uuid, examined.disposition.stage));
    }
  }

  lemma LastIsCovered(cfg: Config, site: Site, log: seq<Body>, s: State, es: seq<Event>, t: State, i: int)
    requires Setting(cfg, site) && FirstStart(cfg, site, s) && FromMinusOne(cfg.startIndex)
    requires Exec(cfg, s, es) == Some(t) && SteadyRun(cfg, site, es) && PresetFits(cfg, site, t.stores)
    requires AllLandWithin(cfg, site, s, es) && HonestRun(cfg, log, es)
    requires t.stores != []
    requires LastIndex(site, t.stores[0]) < i <= LastIndex(site, t.stores[|t.stores| - 1])
    ensures SentInv(cfg, log, t) && Delivered(t.scans, i)
  {
    FirstStartInv(cfg, site, s);
    CoverageExactly(cfg, site, s, es, t);
    InvCovers(cfg, site, t);
    ExecKeepsSent(cfg, site, log, s, es, t);
  }

  /** In every run whose checkpoints land within the mark (see CoverageExactly), crashes, write errors and
      restarts included, each match in any entry between the first and the current stored checkpoint went out
      in a notification. The searches saw the log at their own times; `log` is what it grew to. */
  lemma NoMatchIsLost(cfg: Config, site: Site, log: seq<Body>, s: State, es: seq<Event>, t: State, i: int, x: LogEntry)
    requires Setting(cfg, site) && FirstStart(cfg, site, s) && FromMinusOne(cfg.startIndex)
    requires Exec(cfg, s, es) == Some(t) && SteadyRun(cfg, site, es) && PresetFits(cfg, site, t.stores)
    requires AllLandWithin(cfg, site, s, es) && HonestRun(cfg, log, es)
    requires t.stores != [] && 0 <= i < |log|
    requires LastIndex(site, t.stores[0]) < i <= LastIndex(site, t.stores[|t.stores| - 1])
    requires x in Examine(cfg.oracle, cfg.values, Entry(log[i], i)).matched
    ensures MatchSent(t.sent, x)
  {
    LastIsCovered(cfg, site, log, s, es, t, i);
    DeliveredIsSent(cfg, log, t, i);
  }

  /** Nor is an entry that could not be examined. */
  lemma NoFailureIsLost(cfg: Config, site: Site, log: seq<Body>, s: State, es: seq<Event>, t: State, i: int)
    requires Setting(cfg, site) && FirstStart(cfg, site, s) && FromMinusOne(cfg.startIndex)
    requires Exec(cfg, s, es) == Some(t) && SteadyRun(cfg, site, es) && PresetFits(cfg, site, t.stores)
    requires AllLandWithin(cfg, site, s, es) && HonestRun(cfg, log, es)
    requires t.stores != [] && 0 <= i < |log|
    requires LastIndex(site, t.stores[0]) < i <= LastIndex(site, t.stores[|t.stores| - 1])
    requires Examine(cfg.oracle, cfg.values, Entry(log[i], i)).disposition.FailedAt?
    ensures FailureSent(t.sent,
              FailedEntry(i, log[i].uuid, Examine(cfg.oracle, cfg.values, Entry(log[i], i)).disposition.stage))
  {
    LastIsCovered(cfg, site, log, s, es, t, i);
    DeliveredIsSent(cfg, log, t, i);
  }

  /** Said of the log and the monitored values alone: in every such run a monitored fingerprint that a trusted
      entry has went out, in a group of that name. */
  lemma NoFingerprintIsLost(cfg: Config, site: Site, log: seq<Body>, s: State, es: seq<Event>, t: State, i: int,
                            f: string)
    requires Setting(cfg, site) && FirstStart(cfg, site, s) && FromMinusOne(cfg.startIndex)
    requires Exec(cfg, s, es) == Some(t) && SteadyRun(cfg, site, es) && PresetFits(cfg, site, t.stores)
    requires AllLandWithin(cfg, site, s, es) && HonestRun(cfg, log, es)
    requires t.stores != [] && 0 <= i < |log|
    requires LastIndex(site, t.stores[0]) < i <= LastIndex(site, t.stores[|t.stores| - 1])
    requires log[i].parse.Parsed? && cfg.oracle.trusts(log[i].parse.certs)
    requires f in cfg.values.fingerprints && f in log[i].parse.fingerprints
    ensures SentUnder(t.sent, LogEntry(f, ByFingerprint, "", "", f, "", i, log[i].uuid, [], ""), f)
  {
    LastIsCovered(cfg, site, log, s, es, t, i);
    CarriedIsSent(cfg, log, t, i, LogEntry(f, ByFingerprint, "", "", f, "", i, log[i].uuid, [], ""), f);
  }

  /** And whatever else it carries: a subject or a certificate that a pattern matches, an extension value. */
  lemma NothingCarriedIsLost(cfg: Config, site: Site, log: seq<Body>, s: State, es: seq<Event>, t: State, i: int,
                             x: LogEntry, v: string)
    requires Setting(cfg, site) && FirstStart(cfg, site, s) && FromMinusOne(cfg.startIndex)
    requires Exec(cfg, s, es) == Some(t) && SteadyRun(cfg, site, es) && PresetFits(cfg, site, t.stores)
    requires AllLandWithin(cfg, site, s, es) && HonestRun(cfg, log, es)
    requires t.stores != [] && 0 <= i < |log|
    requires LastIndex(site, t.stores[0]) < i <= LastIndex(site, t.stores[|t.stores| - 1])
    requires log[i].parse.Parsed? && cfg.oracle.trusts(log[i].parse.certs)
    requires Carries(cfg.oracle, cfg.values, Entry(log[i], i), x, v)
    ensures SentUnder(t.sent, x, v) || exists stage :: FailureSent(t.sent, FailedEntry(i, log[i].uuid, stage))
  {
    LastIsCovered(cfg, site, log, s, es, t, i);
    CarriedIsSent(cfg, log, t, i, x, v);
  }

  /** The same for the loop, run after run: what its searches return makes every step of it honest. */
  lemma LoopKeepsSent(cfg: Config, site: Site, log: seq<Body>, s: State, passes: seq<Pass>)
    requires Setting(cfg, site) && FromMinusOne(cfg.startIndex) && s.phase.Down?
    requires SentInv(cfg, log, s) && Bounded(cfg, site, s)
    requires SteadyPasses(cfg, site, passes) && PassesFit(cfg, Loaded(cfg, s), passes)
    requires forall n :: 0 <= n < |passes| ==> LogOf(passes[n].tick.server) <= log
    ensures SentInv(cfg, log, RunLoop(cfg, s, passes)) && Bounded(cfg, site, RunLoop(cfg, s, passes))
  {
    var es := LoopIsSteps(cfg, s, passes);
    var all := [Start] + es;
    forall k | 0 <= k < |all|
      ensures Honest(cfg, all[k]) && (all[k].Search? ==> all[k].log <= log)
      ensures all[k].RunCheck? ==> exists n :: 0 <= n < |passes| && passes[n].tick.reply == all[k].reply
    {
      if k > 0 && all[k] != Crash {
        assert all[k] == es[k - 1];
        var n :| 0 <= n < |passes| && FromPass(es[k - 1], passes[n]);
      }
    }
    ExecKeepsSent(cfg, site, log, s, all, RunLoop(cfg, s, passes));
  }

  /** The process is run again and again on the same file. */
  function Runs(cfg: Config, s: State, runs: seq<seq<Pass>>): (t: State)
    requires s.phase.Down?
    ensures t.phase.Down?
    decreases |runs|
  {
    if runs == [] then s else Runs(cfg, RunLoop(cfg, s, runs[0]), runs[1..])
  }

  /** One run against the watched shard, whose log grows to `log`: its searches return what the identity search
      may return, and its checkpoints land within the mark. */
  ghost predicate RunFits(cfg: Config, site: Site, log: seq<Body>, s: State, passes: seq<Pass>)
    requires s.phase.Down?
  {
    && SteadyPasses(cfg, site, passes) && PassesFit(cfg, Loaded(cfg, s), passes)
    && (forall n :: 0 <= n < |passes| ==> LogOf(passes[n].tick.server) <= log)
    && LandThroughout(cfg, site, Visited(cfg, Loaded(cfg, s), passes))
  }

  ghost predicate RunsFit(cfg: Config, site: Site, log: seq<Body>, s: State, runs: seq<seq<Pass>>)
    requires s.phase.Down?
    decreases |runs|
  {
    runs != [] ==> RunFits(cfg, site, log, s, runs[0]) && RunsFit(cfg, site, log, RunLoop(cfg, s, runs[0]), runs[1..])
  }

  lemma RunStores(cfg: Config, s: State, passes: seq<Pass>)
    requires s.phase.Down?
    ensures s.stores <= RunLoop(cfg, s, passes).stores
  {
    var es := LoopIsSteps(cfg, s, passes);
    StoresGrow(cfg, s, [Start] + es, RunLoop(cfg, s, passes));
  }

  lemma {:induction false} RunsStores(cfg: Config, s: State, runs: seq<seq<Pass>>)
    requires s.phase.Down?
    ensures s.stores <= Runs(cfg, s, runs).stores
    decreases |runs|
  {
    if runs != [] {
      RunStores(cfg, s, runs[0]);
      RunsStores(cfg, RunLoop(cfg, s, runs[0]), runs[1..]);
    }
  }

  lemma {:induction false} RunsKeepAll(cfg: Config, site: Site, log: seq<Body>, s: State, runs: seq<seq<Pass>>)
    requires Setting(cfg, site) && FromMinusOne(cfg.startIndex) && s.phase.Down?
    requires Inv(cfg, site, s) && SentInv(cfg, log, s) && Bounded(cfg, site, s)
    requires RunsFit(cfg, site, log, s, runs) && PresetFits(cfg, site, Runs(cfg, s, runs).stores)
    ensures Inv(cfg, site, Runs(cfg, s, runs)) && SentInv(cfg, log, Runs(cfg, s, runs))
    decreases |runs|
  {
    if runs != [] {
      var t := RunLoop(cfg, s, runs[0]);
      RunsStores(cfg, t, runs[1..]);
      LoopCoverageExactly(cfg, site, s, runs[0]);
      LoopKeepsSent(cfg, site, log, s, runs[0]);
      RunsKeepAll(cfg, site, log, t, runs[1..]);
    }
  }

  lemma RunsDeliver(cfg: Config, site: Site, log: seq<Body>, s: State, runs: seq<seq<Pass>>, i: int)
    requires Setting(cfg, site) && FirstStart(cfg, site, s) && FromMinusOne(cfg.startIndex)
    requires RunsFit(cfg, site, log, s, runs)
    requires var t := Runs(cfg, s, runs);
             && PresetFits(cfg, site, t.stores) && t.stores != []
             && LastIndex(site, t.stores[0]) < i <= LastIndex(site, t.stores[|t.stores| - 1])
    ensures SentInv(cfg, log, Runs(cfg, s, runs)) && Delivered(Runs(cfg, s, runs).scans, i)
  {
    FirstStartInv(cfg, site, s);
    RunsKeepAll(cfg, site, log, s, runs);
    InvCovers(cfg, site, Runs(cfg, s, runs));
  }

  /** However often the process is run: nothing between the first and the current stored checkpoint goes unsent,
      neither a match nor an entry that could not be examined. */
  lemma RunsLoseNothing(cfg: Config, site: Site, log: seq<Body>, s: State, runs: seq<seq<Pass>>, i: int)
    requires Setting(cfg, site) && FirstStart(cfg, site, s) && FromMinusOne(cfg.startIndex)
    requires RunsFit(cfg, site, log, s, runs)
    requires var t := Runs(cfg, s, runs);
             && PresetFits(cfg, site, t.stores) && t.stores != [] && 0 <= i < |log|
             && LastIndex(site, t.stores[0]) < i <= LastIndex(site, t.stores[|t.stores| - 1])
    ensures var t := Runs(cfg, s, runs);
            var examined := Examine(cfg.oracle, cfg.values, Entry(log[i], i));
            && (forall x :: x in examined.matched ==> MatchSent(t.sent, x))
            && (examined.disposition.FailedAt? ==>
                  FailureSent(t.sent, FailedEntry(i, log[i].uuid, examined.disposition.stage)))
  {
    RunsDeliver(cfg, site, log, s, runs, i);
    DeliveredIsSent(cfg, log, Runs(cfg, s, runs), i);
  }

  // ----- the conditions on the outside world alone

  /** A preset start that cannot be past the first stored checkpoint: before the shard's first entry, or within what
      the file holds to begin with. */
  predicate PresetSafe(cfg: Config, site: Site, s: State) {
    cfg.startIndex.Some? ==>
      || cfg.startIndex.value < site.inactive
      || (s.file.Saved? && cfg.startIndex.value <= LastIndex(site, s.file.checkpoint))
  }

  lemma PresetSafeFits(cfg: Config, site: Site, s: State, stores: seq<Checkpoint>)
    requires Setting(cfg, site) && FirstStart(cfg, site, s) && PresetSafe(cfg, site, s) && s.stores <= stores
    ensures PresetFits(cfg, site, stores)
  {
    if s.file.Saved? {
      assert stores[0] == s.stores[0];
    }
  }

  /** A run of the loop against the watched shard, in which every check sees the file, no write breaks off before
      its first byte, and the searches return what the identity search may return. */
  ghost predicate CarefulRun(cfg: Config, site: Site, log: seq<Body>, s: State, passes: seq<Pass>)
    requires s.phase.Down?
  {
    && SteadyPasses(cfg, site, passes) && AllCareful(site, passes) && PassesFit(cfg, Loaded(cfg, s), passes)
    && forall n :: 0 <= n < |passes| ==> LogOf(passes[n].tick.server) <= log
  }

  ghost predicate CarefulRuns(cfg: Config, site: Site, log: seq<Body>, s: State, runs: seq<seq<Pass>>)
    requires s.phase.Down?
    decreases |runs|
  {
    runs != [] ==>
      CarefulRun(cfg, site, log, s, runs[0]) && CarefulRuns(cfg, site, log, RunLoop(cfg, s, runs[0]), runs[1..])
  }

  lemma {:induction false} CarefulRunsFit(cfg: Config, site: Site, log: seq<Body>, s: State, runs: seq<seq<Pass>>)
    requires Setting(cfg, site) && cfg.endIndex.None? && s.phase.Down? && Kept(cfg, site, s)
    requires CarefulRuns(cfg, site, log, s, runs) && PresetFits(cfg, site, Runs(cfg, s, runs).stores)
    ensures RunsFit(cfg, site, log, s, runs)
    decreases |runs|
  {
    if runs != [] {
      var t := RunLoop(cfg, s, runs[0]);
      RunsStores(cfg, t, runs[1..]);
      LoopKeepsCoverage(cfg, site, s, runs[0]);
      CarefulRunsFit(cfg, site, log, t, runs[1..]);
    }
  }

  /** However often the process is run with nothing forgotten in between: all conditions are on what happens
      outside, and nothing between the first and the current stored checkpoint goes unsent. */
  lemma CarefulRunsLoseNothing(cfg: Config, site: Site, log: seq<Body>, s: State, runs: seq<seq<Pass>>, i: int)
    requires Setting(cfg, site) && cfg.endIndex.None? && FirstStart(cfg, site, s)
    requires FromMinusOne(cfg.startIndex) && PresetSafe(cfg, site, s)
    requires s.file.Saved? ==> Fits(site, s.file.checkpoint)
    requires CarefulRuns(cfg, site, log, s, runs)
    requires var t := Runs(cfg, s, runs);
             && t.stores != [] && 0 <= i < |log|
             && LastIndex(site, t.stores[0]) < i <= LastIndex(site, t.stores[|t.stores| - 1])
    ensures var t := Runs(cfg, s, runs);
            var examined := Examine(cfg.oracle, cfg.values, Entry(log[i], i));
            && (forall x :: x in examined.matched ==> MatchSent(t.sent, x))
            && (examined.disposition.FailedAt? ==>
                  FailureSent(t.sent, FailedEntry(i, log[i].uuid, examined.disposition.stage)))
  {
    CarefulRunsAreFit(cfg, site, log, s, runs);
    RunsLoseNothing(cfg, site, log, s, runs, i);
  }

  lemma CarefulRunsAreFit(cfg: Config, site: Site, log: seq<Body>, s: State, runs: seq<seq<Pass>>)
    requires Setting(cfg, site) && cfg.endIndex.None? && FirstStart(cfg, site, s)
    requires FromMinusOne(cfg.startIndex) && PresetSafe(cfg, site, s)
    requires s.file.Saved? ==> Fits(site, s.file.checkpoint)
    requires CarefulRuns(cfg, site, log, s, runs)
    ensures RunsFit(cfg, site, log, s, runs) && PresetFits(cfg, site, Runs(cfg, s, runs).stores)
  {
    FirstStartInv(cfg, site, s);
    FirstStartAttached(cfg, site, s);
    RunsStores(cfg, s, runs);
    PresetSafeFits(cfg, site, s, Runs(cfg, s, runs).stores);
    CarefulRunsFit(cfg, site, log, s, runs);
  }

  /** In particular no monitored fingerprint that a trusted entry has, whatever else fails in that entry. */
  lemma CarefulRunsSendFingerprints(cfg: Config, site: Site, log: seq<Body>, s: State, runs: seq<seq<Pass>>, i: int,
                                    f: string)
    requires Setting(cfg, site) && cfg.endIndex.None? && FirstStart(cfg, site, s)
    requires FromMinusOne(cfg.startIndex) && PresetSafe(cfg, site, s)
    requires s.file.Saved? ==> Fits(site, s.file.checkpoint)
    requires CarefulRuns(cfg, site, log, s, runs)
    requires var t := Runs(cfg, s, runs);
             && t.stores != [] && 0 <= i < |log|
             && LastIndex(site, t.stores[0]) < i <= LastIndex(site, t.stores[|t.stores| - 1])
    requires log[i].parse.Parsed? && cfg.oracle.trusts(log[i].parse.certs)
    requires f in cfg.values.fingerprints && f in log[i].parse.fingerprints
    ensures SentUnder(Runs(cfg, s, runs).sent, LogEntry(f, ByFingerprint, "", "", f, "", i, log[i].uuid, [], ""), f)
  {
    CarefulRunsAreFit(cfg, site, log, s, runs);
    RunsDeliver(cfg, site, log, s, runs, i);
    var x := LogEntry(f, ByFingerprint, "", "", f, "", i, log[i].uuid, [], "");
    CarriedIsSent(cfg, log, Runs(cfg, s, runs), i, x, f);
  }
}
