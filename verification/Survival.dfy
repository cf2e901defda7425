/** When the loop goes on and when it ends, said of what happens outside: the answers, the search results, the
    notifications and the writes. */
module Survival {
  import opened Prelude
  import opened Consistency
  import opened CheckpointFile
  import opened Matching
  import opened IdentitySearch
  import opened MonitorProtocol
  import opened MonitorLoop
  import opened Coverage

  // ----- the check, from the reply

  /** A shard that the check needs has no client: a nil dereference. */
  predicate MissingShard(cfg: Config, s: State, tick: Tick) {
    && cfg.version == V2 && tick.reply.ShardsReply?
    && var (shards, latest) := (tick.reply.shards, tick.reply.latest);
       || latest !in shards
       || (shards[latest].Some? && tick.seen && s.file.Saved? && s.file.checkpoint.origin !in shards)
  }

  /** The log answers, and what the check sees in the file is nothing, or a checkpoint proved consistent. */
  predicate Passes(cfg: Config, s: State, tick: Tick) {
    match tick.reply
    case Unavailable => false
    case LogInfoReply(info) =>
      cfg.version == V1 && (tick.seen ==>
        !s.file.Torn? && (s.file.Saved? ==> cfg.accepts(s.file.checkpoint, info.head)))
    case ShardsReply(shards, latest) =>
      cfg.version == V2 && latest in shards && shards[latest].Some? && (tick.seen ==>
        !s.file.Torn? && (s.file.Saved? ==>
          && s.file.checkpoint.origin in shards && shards[s.file.checkpoint.origin].Some?
          && cfg.accepts(s.file.checkpoint, shards[s.file.checkpoint.origin].value)))
  }

  lemma CheckExactly(cfg: Config, s: State, tick: Tick)
    ensures Checks(cfg, s, tick).Passed? <==> Passes(cfg, s, tick)
    ensures Checks(cfg, s, tick).Panicked? <==> MissingShard(cfg, s, tick)
    ensures var outcome := Checks(cfg, s, tick);
            outcome.Passed? ==>
              && outcome.prev == (if tick.seen && s.file.Saved? then Some(s.file.checkpoint) else None)
              && HeadOf(tick.reply) == Some(outcome.cur.head)
              && outcome.cur.inactive == if tick.reply.LogInfoReply? then tick.reply.info.inactive else []
  {
  }

  /** The log does not answer, the stored checkpoint cannot be read, or its proof is refused. */
  predicate Unproved(cfg: Config, s: State, tick: Tick) {
    match tick.reply
    case Unavailable => true
    case LogInfoReply(info) =>
      tick.seen && (s.file.Torn? || (s.file.Saved? && !cfg.accepts(s.file.checkpoint, info.head)))
    case ShardsReply(shards, latest) =>
      latest in shards
      && (|| shards[latest].None?
          || (tick.seen && s.file.Torn?)
          || (tick.seen && s.file.Saved? && s.file.checkpoint.origin in shards
              && (|| shards[s.file.checkpoint.origin].None?
                  || !cfg.accepts(s.file.checkpoint, shards[s.file.checkpoint.origin].value))))
  }

  /** A failing check is survived with file, indices and history as they were; with `once` it ends the process. */
  lemma FailingCheckChangesNothing(cfg: Config, s: State, pass: Pass)
    requires s.phase.Ready? && Unproved(cfg, s, pass.tick)
    ensures !cfg.once ==> Iterate(cfg, s, pass) == s
    ensures cfg.once ==> Iterate(cfg, s, pass) == s.(phase := Down, start := None, end := None)
  {
    CheckExactly(cfg, s, pass.tick);
  }

  // ----- the rest of an iteration

  function Inactive(tick: Tick): seq<int> {
    if tick.reply.LogInfoReply? then tick.reply.info.inactive else []
  }

  /** Where the search starts: where the last one ended or the preset says, else at the stored checkpoint. */
  function StartOf(cfg: Config, s: State, tick: Tick): Option<int> {
    if s.start.Some? then s.start
    else if tick.seen && s.file.Saved? then IndexOf(cfg.version, Inactive(tick), s.file.checkpoint.size)
    else None
  }

  function EndOf(cfg: Config, s: State, tick: Tick): Option<int> {
    if s.end.Some? then s.end
    else if HeadOf(tick.reply).None? then None
    else IndexOf(cfg.version, Inactive(tick), HeadOf(tick.reply).value.size)
  }

  predicate Monitors(cfg: Config) {
    !(cfg.values.certIdentities == [] && cfg.values.fingerprints == [] && cfg.values.subjects == []
      && cfg.values.oidMatchers == [])
  }

  /** Something is monitored, and both ends of the range are known. */
  predicate SearchDue(cfg: Config, s: State, tick: Tick) {
    Monitors(cfg) && StartOf(cfg, s, tick).Some? && EndOf(cfg, s, tick).Some?
  }

  /** The search that is due has its range the right way round, succeeds, and its notifications go out. */
  predicate SearchWent(cfg: Config, s: State, pass: Pass) {
    SearchDue(cfg, s, pass.tick) ==>
      && StartOf(cfg, s, pass.tick).value <= EndOf(cfg, s, pass.tick).value && pass.result.Some?
      && (pass.result.value.groups != [] ==> pass.tick.foundSent)
      && (pass.result.value.failed != [] ==> pass.tick.failedSent)
  }

  /** There is something to write: the head is not empty, and not what the check saw stored. */
  predicate WriteDue(cfg: Config, s: State, tick: Tick)
    requires HeadOf(tick.reply).Some?
  {
    var head := HeadOf(tick.reply).value;
    && head.size > 0
    && (tick.seen && s.file.Saved? ==>
          s.file.checkpoint.size != head.size || (cfg.version == V2 && s.file.checkpoint.origin != head.origin))
  }

  lemma WriteDueExactly(cfg: Config, s: State, tick: Tick)
    requires Passes(cfg, s, tick)
    ensures ShouldWrite(cfg.version, HeadOf(tick.reply).value, Checks(cfg, s, tick).prev) <==> WriteDue(cfg, s, tick)
  {
    CheckExactly(cfg, s, tick);
  }

  lemma RangeExactly(cfg: Config, s: State, tick: Tick)
    requires Passes(cfg, s, tick)
    ensures var outcome := Checks(cfg, s, tick);
            var t := AfterCheck(cfg, s, outcome.prev, outcome.cur);
            && (Searching(cfg, t) <==> SearchDue(cfg, s, tick))
            && (MonitoredValuesExist(cfg.values) ==>
                  t.start == StartOf(cfg, s, tick) && t.end == EndOf(cfg, s, tick))
            && (!MonitoredValuesExist(cfg.values) ==> t == s)
  {
    CheckExactly(cfg, s, tick);
  }

  /** The iteration is survived: no shard is missing and, if the check passes, search and write go through. */
  predicate Survives(cfg: Config, s: State, pass: Pass) {
    && !MissingShard(cfg, s, pass.tick)
    && (Passes(cfg, s, pass.tick) ==>
          SearchWent(cfg, s, pass) && (WriteDue(cfg, s, pass.tick) ==> pass.tick.write.Complete?))
  }

  /** When a process that does not run once is ready for the next iteration. A preset end lasts for one passed
      check. */
  lemma ReadyExactly(cfg: Config, s: State, pass: Pass)
    requires s.phase.Ready?
    ensures cfg.once ==> Iterate(cfg, s, pass).phase.Down?
    ensures !cfg.once && s.end.None? ==> (Iterate(cfg, s, pass).phase.Ready? <==> Survives(cfg, s, pass))
    ensures !cfg.once && s.end.Some? ==>
              (Iterate(cfg, s, pass).phase.Ready? <==>
                 !MissingShard(cfg, s, pass.tick) && !Passes(cfg, s, pass.tick))
    ensures Iterate(cfg, s, pass).phase.Ready? && s.end.None? ==> Iterate(cfg, s, pass).end.None?
  {
    CheckExactly(cfg, s, pass.tick);
    if Passes(cfg, s, pass.tick) {
      WriteDueExactly(cfg, s, pass.tick);
      RangeExactly(cfg, s, pass.tick);
    }
  }

  // ----- what an iteration does

  /** What is sent about a search whose report is this: the first notification that fails is the last one tried. */
  function SentAbout(tick: Tick, scan: Scan, report: Report): seq<Notice> {
    (if report.groups != [] && tick.foundSent then [Found(scan, report.groups)] else [])
    + (if report.failed != [] && tick.failedSent && (report.groups == [] || tick.foundSent)
       then [Unreadable(scan, report.failed)] else [])
  }

  /** The searches and notifications of an iteration whose check passes. */
  lemma SearchEffects(cfg: Config, s: State, pass: Pass)
    requires s.phase.Ready? && Passes(cfg, s, pass.tick)
    ensures var t, start, end := Iterate(cfg, s, pass), StartOf(cfg, s, pass.tick), EndOf(cfg, s, pass.tick);
            if SearchDue(cfg, s, pass.tick) && start.value <= end.value && pass.result.Some? then
              var scan := Scan(start.value, end.value);
              && t.sent == s.sent + SentAbout(pass.tick, scan, pass.result.value)
              && t.scans == (if SearchWent(cfg, s, pass) then s.scans + [scan] else s.scans)
            else t.sent == s.sent && t.scans == s.scans
  {
    RangeExactly(cfg, s, pass.tick);
    var outcome := Checks(cfg, s, pass.tick);
    AfterWritingKeeps(cfg, AfterHandOver(cfg, AfterNotices(cfg, AfterCheck(cfg, s, outcome.prev, outcome.cur), pass)),
                      outcome.prev, outcome.cur.head, pass.tick.write);
  }

  lemma AfterWritingKeeps(cfg: Config, s: State, prev: Option<Checkpoint>, head: Checkpoint, write: WriteResult)
    ensures var t := AfterWriting(cfg, s, prev, head, write).0;
            t.sent == s.sent && t.scans == s.scans && t.start == s.start && t.end == s.end && t.phase == s.phase
  {
  }

  /** The file after such an iteration: a search that did not go through leaves it alone, and so does a write that is
      not due; else it holds what the write left. */
  lemma WriteEffects(cfg: Config, s: State, pass: Pass)
    requires s.phase.Ready? && Passes(cfg, s, pass.tick)
    ensures var t, head := Iterate(cfg, s, pass), HeadOf(pass.tick.reply).value;
            if SearchWent(cfg, s, pass) && WriteDue(cfg, s, pass.tick) && !pass.tick.write.Unopened? then
              && t.file == (if pass.tick.write.Complete? then cfg.disk.whole(head)
                            else cfg.disk.part(head, pass.tick.write.written))
              && t.stores == s.stores + if t.file.Saved? then [t.file.checkpoint] else []
            else t.file == s.file && t.stores == s.stores
  {
    CheckExactly(cfg, s, pass.tick);
    WriteDueExactly(cfg, s, pass.tick);
    RangeExactly(cfg, s, pass.tick);
  }

  /** The indices that a survived iteration hands on. */
  lemma HandOverEffects(cfg: Config, s: State, pass: Pass)
    requires s.phase.Ready? && Passes(cfg, s, pass.tick) && Iterate(cfg, s, pass).phase.Ready?
    ensures Iterate(cfg, s, pass).end == None
    ensures Iterate(cfg, s, pass).start == if Monitors(cfg) then EndOf(cfg, s, pass.tick) else s.start
  {
    RangeExactly(cfg, s, pass.tick);
  }

  // ----- whole runs

  lemma {:induction false} DownStays(cfg: Config, s: State, passes: seq<Pass>, n: nat)
    requires s.phase.Ready? || s == Stop(s)
    requires n <= |passes| && Iterations(cfg, s, passes[..n]).phase.Down?
    ensures Iterations(cfg, s, passes).phase.Down?
    decreases |passes|
  {
    if s.phase.Ready? && passes != [] {
      assert n > 0;
      assert passes[..n][0] == passes[0] && passes[..n][1..] == passes[1..][..n - 1];
      DownStays(cfg, Iterate(cfg, s, passes[0]), passes[1..], n - 1);
    }
  }

  /** When a process without `once` and without a preset end ends by itself. It is ready after all passes if and only
      if it survived each: no missing shard, no range upside down, no failed search, notification or write. */
  lemma {:induction false} ProcessSurvivesExactly(cfg: Config, s: State, passes: seq<Pass>)
    requires s.phase.Ready? && !cfg.once && s.end.None?
    ensures Iterations(cfg, s, passes).phase.Ready? <==>
            forall n :: 0 <= n < |passes| && Iterations(cfg, s, passes[..n]).phase.Ready? ==>
              Survives(cfg, Iterations(cfg, s, passes[..n]), passes[n])
    ensures Iterations(cfg, s, passes).phase.Ready? ==> Iterations(cfg, s, passes).end.None?
    decreases |passes|
  {
    if passes != [] {
      var last := |passes| - 1;
      var front := passes[..last];
      ProcessSurvivesExactly(cfg, s, front);
      assert front + [passes[last]] == passes;
      assert forall n :: 0 <= n < last ==> front[..n] == passes[..n] && front[n] == passes[n];
      var t := Iterations(cfg, s, front);
      if t.phase.Ready? {
        OneMore(cfg, s, front, passes[last]);
        ReadyExactly(cfg, t, passes[last]);
      } else {
        DownStays(cfg, s, passes, last);
      }
    }
  }

  /** With nothing to monitor nothing is searched or sent. */
  lemma {:induction false} NothingMonitored(cfg: Config, s: State, passes: seq<Pass>)
    requires (s.phase.Ready? || s == Stop(s)) && !Monitors(cfg)
    ensures Iterations(cfg, s, passes).sent == s.sent && Iterations(cfg, s, passes).scans == s.scans
    decreases |passes|
  {
    if passes != [] && s.phase.Ready? {
      NothingMonitored(cfg, Iterate(cfg, s, passes[0]), passes[1..]);
    }
  }

  // ----- a healthy process keeps running

  /** The log holds every entry that the head speaks of, and answers every request for them in time. */
  ghost predicate Serves(cfg: Config, site: Site, tick: Tick) {
    && VersionOf(tick.server) == cfg.version
    && (HeadOf(tick.reply).Some? ==> LastIndex(site, HeadOf(tick.reply).value) < |LogOf(tick.server)|)
    && match tick.server
       case BatchServer(server) =>
         |server.log| + 10 <= MAX_INT64 && |server.log| <= server.deadline && forall batch :: server.answers(batch)
       case TileServer(server) => |server.log| <= MAX_INT64 && forall q :: server.answers(q)
  }

  /** Everything but the check itself goes well: it may still fail, but sees the file and finds its shard. */
  ghost predicate Healthy(cfg: Config, site: Site, tick: Tick) {
    && Steady(cfg, site, tick.reply) && Serves(cfg, site, tick)
    && (tick.reply.ShardsReply? ==> site.origin in tick.reply.shards)
    && tick.seen && tick.written && tick.foundSent && tick.failedSent && tick.write.Complete?
  }

  /** Between its iterations the process continues at the stored checkpoint, or before the first entry. */
  ghost predicate InStep(cfg: Config, site: Site, s: State) {
    && s.phase.Ready? && s.end.None?
    && (s.file.Saved? ==> s.file.checkpoint.size > 0 && FromSite(cfg, site, s.file.checkpoint)
                          && Fits(site, s.file.checkpoint))
    && (s.start.Some? ==>
          s.start.value == if s.file.Saved? then LastIndex(site, s.file.checkpoint) else site.inactive - 1)
  }

  /** The range of a healthy iteration: from the stored checkpoint, or the shard's start, to a head not before it. */
  lemma HealthyRange(cfg: Config, site: Site, s: State, tick: Tick)
    requires Setting(cfg, site) && Plain(cfg) && InStep(cfg, site, s) && Healthy(cfg, site, tick)
    requires Passes(cfg, s, tick)
    ensures var head := HeadOf(tick.reply).value;
            && Framed(cfg.disk, head) && Fits(site, head)
            && (s.file.Saved? ==> s.file.checkpoint.size <= head.size && FromSite(cfg, site, head))
            && EndOf(cfg, s, tick) == EndIndex(cfg, site, head)
            && (StartOf(cfg, s, tick).Some? ==>
                  StartOf(cfg, s, tick).value ==
                  if s.file.Saved? then LastIndex(site, s.file.checkpoint) else site.inactive - 1)
  {
    CheckExactly(cfg, s, tick);
    PassedCheck(cfg, site, s.file, tick.reply);
    var cur := Checks(cfg, s, tick).cur;
    IndexBounds(cfg, site, cur, cur.head.size);
    if s.file.Saved? {
      IndexBounds(cfg, site, cur, s.file.checkpoint.size);
      assert Ordered(cfg.accepts, s.file.checkpoint, cur.head);
    }
  }

  lemma HealthySearch(cfg: Config, site: Site, s: State, pass: Pass)
    requires Setting(cfg, site) && Plain(cfg) && InStep(cfg, site, s) && Healthy(cfg, site, pass.tick)
    requires Passes(cfg, s, pass.tick) && ValidValues(cfg.values) && PassFits(cfg, s, pass)
    ensures SearchWent(cfg, s, pass)
  {
    HealthyRange(cfg, site, s, pass.tick);
    RangeExactly(cfg, s, pass.tick);
    CheckExactly(cfg, s, pass.tick);
    if SearchDue(cfg, s, pass.tick) {
      var start, end := StartOf(cfg, s, pass.tick).value, EndOf(cfg, s, pass.tick).value;
      assert -1 <= start <= end < |LogOf(pass.tick.server)|;
      FetchGoesExactly(pass.tick.server, start, end);
      assert ResultFits(cfg, Scan(start, end), pass.tick, pass.result);
    }
  }

  lemma HealthyIteration(cfg: Config, site: Site, s: State, pass: Pass)
    requires Setting(cfg, site) && Plain(cfg) && !cfg.once && InStep(cfg, site, s) && Healthy(cfg, site, pass.tick)
    requires ValidValues(cfg.values) && PassFits(cfg, s, pass)
    ensures InStep(cfg, site, Iterate(cfg, s, pass))
  {
    CheckExactly(cfg, s, pass.tick);
    ReadyExactly(cfg, s, pass);
    if Passes(cfg, s, pass.tick) {
      HealthySearch(cfg, site, s, pass);
      HealthyRange(cfg, site, s, pass.tick);
      WriteEffects(cfg, s, pass);
      HandOverEffects(cfg, s, pass);
    }
  }

  /** Checks that fail, for whatever reason, are survived; and as long as the log serves what it commits to, the
      notifications go out and the file can be written, the process never ends by itself. */
  lemma {:induction false} HealthyProcessSurvives(cfg: Config, site: Site, s: State, passes: seq<Pass>)
    requires Setting(cfg, site) && Plain(cfg) && !cfg.once && ValidValues(cfg.values) && InStep(cfg, site, s)
    requires PassesFit(cfg, s, passes)
    requires forall n :: 0 <= n < |passes| ==> Healthy(cfg, site, passes[n].tick)
    ensures Iterations(cfg, s, passes).phase.Ready?
    decreases |passes|
  {
    if passes != [] {
      HealthyIteration(cfg, site, s, passes[0]);
      assert forall n :: 0 <= n < |passes| - 1 ==> passes[1..][n] == passes[n + 1];
      HealthyProcessSurvives(cfg, site, Iterate(cfg, s, passes[0]), passes[1..]);
    }
  }

  /** The same from the start of the process, on whatever the file holds at first. */
  lemma HealthyRunSurvives(cfg: Config, site: Site, s: State, passes: seq<Pass>)
    requires Setting(cfg, site) && Plain(cfg) && !cfg.once && ValidValues(cfg.values) && FirstStart(cfg, site, s)
    requires s.file.Saved? ==> Fits(site, s.file.checkpoint)
    requires PassesFit(cfg, Loaded(cfg, s), passes)
    requires forall n :: 0 <= n < |passes| ==> Healthy(cfg, site, passes[n].tick)
    ensures Iterations(cfg, Loaded(cfg, s), passes).phase.Ready?
  {
    HealthyProcessSurvives(cfg, site, Loaded(cfg, s), passes);
  }
}
