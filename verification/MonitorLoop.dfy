/** The monitor loop itself, over one scripted answer of the outside world per iteration. */
module MonitorLoop {
  import opened Prelude
  import opened Consistency
  import opened CheckpointFile
  import opened Matching
  import opened IdentitySearch
  import opened MonitorProtocol

  /** What happens outside the process during one iteration. */
  datatype Tick = Tick(
    reply: Reply,
    seen: bool,            // the stat call on the checkpoint file does not fail
    server: LogServer,     // the log as the search reaches it
    written: bool,         // the output files take the matches
    foundSent: bool,       // the notifications about either list got through
    failedSent: bool,
    write: WriteResult)    // how the checkpoint write ends, if there is one

  /** One iteration: what happened outside, and the search's result if there was a search. */
  datatype Pass = Pass(tick: Tick, result: Option<Report>)

  /** The outcome of the iteration's check. */
  function Checks(cfg: Config, s: State, tick: Tick): Outcome {
    Check(cfg.version, cfg.accepts, Seen(s.file, tick.seen), tick.reply)
  }

  function AfterCheck(cfg: Config, s: State, prev: Option<Checkpoint>, cur: LogInfo): State {
    s.(start := StartFor(cfg, s, prev, cur), end := EndFor(cfg, s, cur))
  }

  /** There is a search to make, and it succeeds. */
  predicate SearchSucceeds(cfg: Config, s: State, result: Option<Report>) {
    Searching(cfg, s) && s.start.value <= s.end.value && result.Some?
  }

  predicate NoticesGo(tick: Tick, report: Report) {
    (report.groups != [] ==> tick.foundSent) && (report.failed != [] ==> tick.failedSent)
  }

  /** The search, if there is one to make, goes through with all its notifications. */
  predicate SearchGoes(cfg: Config, s: State, pass: Pass) {
    Searching(cfg, s) ==> SearchSucceeds(cfg, s, pass.result) && NoticesGo(pass.tick, pass.result.value)
  }

  /** The notifications that get through: failing to send the first keeps the second from being tried. */
  function Notices(tick: Tick, scan: Scan, report: Report): seq<Notice> {
    if report.groups != [] && !tick.foundSent then []
    else
      (if report.groups != [] then [Found(scan, report.groups)] else [])
      + (if report.failed != [] && tick.failedSent then [Unreadable(scan, report.failed)] else [])
  }

  /** The state once the search and its notifications are over, and before the indices are handed on. */
  function AfterNotices(cfg: Config, s: State, pass: Pass): State {
    if SearchSucceeds(cfg, s, pass.result)
    then s.(sent := s.sent + Notices(pass.tick, Range(s), pass.result.value))
    else s
  }

  function AfterHandOver(cfg: Config, s: State): State {
    if !MonitoredValuesExist(cfg.values) then s
    else s.(start := s.end, end := None, scans := if Searching(cfg, s) then s.scans + [Range(s)] else s.scans)
  }

  /** The state after the checkpoint write, and whether the loop goes on. */
  function AfterWriting(cfg: Config, s: State, prev: Option<Checkpoint>, head: Checkpoint, write: WriteResult)
    : (State, bool)
  {
    if !ShouldWrite(cfg.version, head, prev) then (s, true)
    else match write
      case Unopened => (s, false)
      case Broken(written) => (Landed(s, cfg.disk.part(head, written)), false)
      case Complete => (Landed(s, cfg.disk.whole(head)), true)
  }

  /** The rest of an iteration whose check has passed. */
  function AfterPassedCheck(cfg: Config, s: State, prev: Option<Checkpoint>, cur: LogInfo, inputEnd: Option<int>,
          pass: Pass): State
  {
    var t := AfterNotices(cfg, s, pass);
    if !SearchGoes(cfg, s, pass) then Stop(t)
    else
      var (u, goesOn) := AfterWriting(cfg, AfterHandOver(cfg, t), prev, cur.head, pass.tick.write);
      if !goesOn || cfg.once || inputEnd.Some? then Stop(u) else u
  }

  /** One whole iteration: ready for the next one, or down after a return from the loop. */
  function Iterate(cfg: Config, s: State, pass: Pass): State
    requires s.phase.Ready?
  {
    match Checks(cfg, s, pass.tick)
    case Failed => if cfg.once then Stop(s) else s
    case Panicked => Stop(s)
    case Passed(prev, cur) => AfterPassedCheck(cfg, AfterCheck(cfg, s, prev, cur), prev, cur, s.end, pass)
  }

  function Iterations(cfg: Config, s: State, passes: seq<Pass>): State
    requires s.phase.Ready? || s == Stop(s)
    ensures Iterations(cfg, s, passes).phase.Ready? || Iterations(cfg, s, passes) == Stop(Iterations(cfg, s, passes))
    decreases |passes|
  {
    if passes == [] || s.phase.Down? then s else Iterations(cfg, Iterate(cfg, s, passes[0]), passes[1..])
  }

  function Loaded(cfg: Config, s: State): State {
    s.(phase := Ready, start := cfg.startIndex, end := cfg.endIndex)
  }

  /** One run of the process: presets loaded, one iteration per pass, then the shutdown signal. */
  function RunLoop(cfg: Config, s: State, passes: seq<Pass>): State
    requires s.phase.Down?
  {
    Stop(Iterations(cfg, Loaded(cfg, s), passes))
  }

  // ----- what a search in the loop may return

  /** The result is one the identity search can give for this range. */
  ghost predicate ResultFits(cfg: Config, scan: Scan, tick: Tick, result: Option<Report>) {
    && (result.Some? <==>
          && VersionOf(tick.server) == cfg.version && FetchGoes(tick.server, scan.start, scan.end)
          && ValidValues(cfg.values) && tick.written)
    && (result.Some? && scan.start >= -1 ==>
          Reports(cfg.version, cfg.oracle, cfg.values, LogOf(tick.server), scan, result.value))
  }

  /** If the iteration searches, its result is the search's. */
  ghost predicate PassFits(cfg: Config, s: State, pass: Pass)
    requires s.phase.Ready?
  {
    var outcome := Checks(cfg, s, pass.tick);
    outcome.Passed? ==>
      var s1 := AfterCheck(cfg, s, outcome.prev, outcome.cur);
      Searching(cfg, s1) && s1.start.value <= s1.end.value ==> ResultFits(cfg, Range(s1), pass.tick, pass.result)
  }

  ghost predicate PassesFit(cfg: Config, s: State, passes: seq<Pass>)
    requires s.phase.Ready? || s == Stop(s)
    decreases |passes|
  {
    passes != [] && s.phase.Ready? ==>
      PassFits(cfg, s, passes[0]) && PassesFit(cfg, Iterate(cfg, s, passes[0]), passes[1..])
  }

  // ----- every iteration is a sequence of protocol steps

  /** The step comes from this iteration's outside world. */
  predicate FromPass(e: Event, pass: Pass) {
    && e != Start
    && (e.RunCheck? ==> e.reply == pass.tick.reply && e.seen == pass.tick.seen)
    && (e.Search? ==> e.log == LogOf(pass.tick.server) && e.result == pass.result)
    && (e.BreakOff? ==> pass.tick.write == Broken(e.written))
  }

  predicate FromPasses(es: seq<Event>, passes: seq<Pass>) {
    forall k :: 0 <= k < |es| ==> es[k] == Crash || exists j :: 0 <= j < |passes| && FromPass(es[k], passes[j])
  }

  function NotifySteps(tick: Tick, report: Report): seq<Event> {
    (if report.groups != [] then [NotifyFound(tick.foundSent)] else [])
    + (if report.failed != [] && (report.groups != [] ==> tick.foundSent) then [NotifyFailed(tick.failedSent)] else [])
  }

  lemma NotifyIsSteps(cfg: Config, s: State, tick: Tick, report: Report)
    requires s.phase.Searched? && Searching(cfg, s) && s.phase.report == report
    requires s.phase.foundDue == (report.groups != []) && s.phase.failedDue == (report.failed != [])
    ensures var t := s.(sent := s.sent + Notices(tick, Range(s), report));
            Exec(cfg, s, NotifySteps(tick, report)) == Some(
              if NoticesGo(tick, report)
              then t.(phase := Searched(s.phase.prev, s.phase.cur, s.phase.inputEnd, report, false, false))
              else Stop(t))
  {
    var second := if report.failed != [] && (report.groups != [] ==> tick.foundSent)
                  then [NotifyFailed(tick.failedSent)] else [];
    if report.groups == [] {
      assert NotifySteps(tick, report) == second;
      var n := if report.failed != [] && tick.failedSent then [Unreadable(Range(s), report.failed)] else [];
      assert Notices(tick, Range(s), report) == n;
      SecondNoticeIsStep(cfg, s, tick, report, second);
    } else {
      assert NotifySteps(tick, report) == [NotifyFound(tick.foundSent)] + second;
      ExecCons(cfg, s, NotifyFound(tick.foundSent), second);
      if tick.foundSent {
        var t := Step(cfg, s, NotifyFound(true)).value;
        SecondNoticeIsStep(cfg, t, tick, report, second);
        assert forall n: seq<Notice> :: s.sent + [Found(Range(s), report.groups)] + n ==
                                        s.sent + ([Found(Range(s), report.groups)] + n);
      } else {
        assert s.sent + [] == s.sent;
      }
    }
  }

  lemma SecondNoticeIsStep(cfg: Config, s: State, tick: Tick, report: Report, es: seq<Event>)
    requires s.phase.Searched? && Searching(cfg, s) && s.phase.report == report
    requires !s.phase.foundDue && s.phase.failedDue == (report.failed != [])
    requires es == if report.failed != [] then [NotifyFailed(tick.failedSent)] else []
    ensures var n := if report.failed != [] && tick.failedSent then [Unreadable(Range(s), report.failed)] else [];
            var t := s.(sent := s.sent + n);
            Exec(cfg, s, es) == Some(
              if report.failed != [] ==> tick.failedSent
              then t.(phase := Searched(s.phase.prev, s.phase.cur, s.phase.inputEnd, report, false, false))
              else Stop(t))
  {
    assert s.sent + [] == s.sent;
    if report.failed != [] {
      assert es == [NotifyFailed(tick.failedSent)] + [];
      ExecCons(cfg, s, NotifyFailed(tick.failedSent), []);
    }
  }

  lemma NotifiedSearchIsSteps(cfg: Config, s: State, pass: Pass) returns (es: seq<Event>)
    requires s.phase.Checked? && SearchSucceeds(cfg, s, pass.result)
    ensures var report := pass.result.value;
            var t := AfterNotices(cfg, s, pass);
            Exec(cfg, s, es) == Some(
              if NoticesGo(pass.tick, report)
              then t.(phase := Searched(s.phase.prev, s.phase.cur, s.phase.inputEnd, report, false, false))
              else Stop(t))
    ensures es == [Search(Range(s), LogOf(pass.tick.server), pass.result)] + NotifySteps(pass.tick, pass.result.value)
  {
    var report := pass.result.value;
    var search := Search(Range(s), LogOf(pass.tick.server), pass.result);
    var t := Step(cfg, s, search).value;
    NotifyIsSteps(cfg, t, pass.tick, report);
    ExecCons(cfg, s, search, NotifySteps(pass.tick, report));
    es := [search] + NotifySteps(pass.tick, report);
  }

  lemma NotifiedHandOver(cfg: Config, s: State, es: seq<Event>, t: State)
    requires Exec(cfg, s, es) == Some(t) && t.phase.Searched? && Searching(cfg, t)
    requires !t.phase.foundDue && !t.phase.failedDue
    ensures Exec(cfg, s, es + [HandOver]) ==
            Some(AfterHandOver(cfg, t).(phase := HandedOver(t.phase.prev, t.phase.cur, t.phase.inputEnd)))
  {
    ExecConcat(cfg, s, es, [HandOver]);
  }

  /** The steps of the search part: they belong to this pass, check and write nothing, and search its range. */
  predicate SearchSteps(cfg: Config, s: State, pass: Pass, es: seq<Event>) {
    forall k :: 0 <= k < |es| ==>
      && FromPass(es[k], pass) && !es[k].RunCheck? && !IsWrite(es[k])
      && (es[k].Search? ==> Searching(cfg, s) && s.start.value <= s.end.value && es[k].scan == Range(s))
  }

  lemma StepsOfSuccess(cfg: Config, s: State, pass: Pass, es: seq<Event>)
    requires SearchSucceeds(cfg, s, pass.result)
    requires es == [Search(Range(s), LogOf(pass.tick.server), pass.result)] + NotifySteps(pass.tick, pass.result.value)
    ensures SearchSteps(cfg, s, pass, es) && SearchSteps(cfg, s, pass, es + [HandOver])
  {
    var notify := NotifySteps(pass.tick, pass.result.value);
    assert forall k :: 0 <= k < |notify| ==> notify[k].NotifyFound? || notify[k].NotifyFailed?;
  }

  lemma SuccessIsSteps(cfg: Config, s: State, pass: Pass) returns (es: seq<Event>)
    requires s.phase.Checked? && SearchSucceeds(cfg, s, pass.result)
    ensures var t := AfterNotices(cfg, s, pass);
            Exec(cfg, s, es) == Some(
              if NoticesGo(pass.tick, pass.result.value)
              then AfterHandOver(cfg, t).(phase := HandedOver(s.phase.prev, s.phase.cur, s.phase.inputEnd))
              else Stop(t))
    ensures SearchSteps(cfg, s, pass, es)
  {
    es := NotifiedSearchIsSteps(cfg, s, pass);
    StepsOfSuccess(cfg, s, pass, es);
    if NoticesGo(pass.tick, pass.result.value) {
      var u := Exec(cfg, s, es).value;
      NotifiedHandOver(cfg, s, es, u);
      assert AfterHandOver(cfg, u).(phase := HandedOver(s.phase.prev, s.phase.cur, s.phase.inputEnd)) ==
             AfterHandOver(cfg, AfterNotices(cfg, s, pass))
             .(phase := HandedOver(s.phase.prev, s.phase.cur, s.phase.inputEnd));
      es := es + [HandOver];
    }
  }

  lemma SearchIsSteps(cfg: Config, s: State, pass: Pass) returns (es: seq<Event>)
    requires s.phase.Checked?
    ensures var t := AfterNotices(cfg, s, pass);
            Exec(cfg, s, es) == Some(
              if SearchGoes(cfg, s, pass)
              then AfterHandOver(cfg, t).(phase := HandedOver(s.phase.prev, s.phase.cur, s.phase.inputEnd))
              else Stop(t))
    ensures SearchSteps(cfg, s, pass, es)
  {
    if !Searching(cfg, s) {
      es := [HandOver];
    } else if s.start.value > s.end.value {
      es := [Refuse];
    } else if pass.result.None? {
      es := [Search(Range(s), LogOf(pass.tick.server), None)];
    } else {
      es := SuccessIsSteps(cfg, s, pass);
    }
  }

  lemma OpenedWriteIsSteps(cfg: Config, s: State, write: WriteResult) returns (es: seq<Event>)
    requires s.phase.HandedOver? && ShouldWrite(cfg.version, s.phase.cur.head, s.phase.prev) && !write.Unopened?
    ensures Exec(cfg, s, es) == Some(
              var cur := s.phase.cur;
              if write.Broken? then Stop(Landed(s, cfg.disk.part(cur.head, write.written)))
              else Landed(s, cfg.disk.whole(cur.head)).(phase := Written(cur, s.phase.inputEnd)))
    ensures es == [Truncate, if write.Broken? then BreakOff(write.written) else Save]
  {
    var t := Step(cfg, s, Truncate).value;
    var e := if write.Broken? then BreakOff(write.written) else Save;
    es := [Truncate] + [e];
    ExecCons(cfg, s, Truncate, [e]);
    ExecCons(cfg, t, e, []);
    assert [e] + [] == [e];
  }

  lemma FinishIsStep(cfg: Config, s: State, es: seq<Event>, t: State)
    requires Exec(cfg, s, es) == Some(t) && t.phase.Written?
    ensures Exec(cfg, s, es + [Finish]) ==
            Some(if cfg.once || t.phase.inputEnd.Some? then Stop(t) else t.(phase := Ready))
  {
    ExecConcat(cfg, s, es, [Finish]);
  }

  lemma WriteIsSteps(cfg: Config, s: State, pass: Pass) returns (es: seq<Event>)
    requires s.phase.HandedOver?
    ensures var (t, goesOn) := AfterWriting(cfg, s, s.phase.prev, s.phase.cur.head, pass.tick.write);
            Exec(cfg, s, es) == Some(
              if !goesOn || cfg.once || s.phase.inputEnd.Some? then Stop(t) else t.(phase := Ready))
    ensures forall k :: 0 <= k < |es| ==> FromPass(es[k], pass) && !es[k].RunCheck? && !es[k].Search?
    ensures WritesLast(es)
  {
    if !ShouldWrite(cfg.version, s.phase.cur.head, s.phase.prev) {
      var t := Step(cfg, s, SkipWrite).value;
      assert Exec(cfg, s, [SkipWrite]) == Some(t);
      FinishIsStep(cfg, s, [SkipWrite], t);
      es := [SkipWrite] + [Finish];
    } else if pass.tick.write.Unopened? {
      es := [OpenFails];
    } else {
      es := OpenedWriteIsSteps(cfg, s, pass.tick.write);
      if pass.tick.write.Complete? {
        FinishIsStep(cfg, s, es, Exec(cfg, s, es).value);
        es := es + [Finish];
      }
    }
  }

  /** The phase is a position in the protocol only: the iteration's functions carry it along. */
  lemma PhaseIsCarried(cfg: Config, s: State, phase: Phase, pass: Pass)
    ensures var t := s.(phase := phase);
            && SearchGoes(cfg, t, pass) == SearchGoes(cfg, s, pass)
            && AfterNotices(cfg, t, pass) == AfterNotices(cfg, s, pass).(phase := phase)
            && AfterHandOver(cfg, t) == AfterHandOver(cfg, s).(phase := phase)
  {
  }

  lemma WritingCarriesPhase(cfg: Config, s: State, phase: Phase, prev: Option<Checkpoint>, head: Checkpoint,
                            write: WriteResult)
    ensures var (u, goesOn) := AfterWriting(cfg, s, prev, head, write);
            AfterWriting(cfg, s.(phase := phase), prev, head, write) == (u.(phase := phase), goesOn)
  {
  }

  lemma CheckedIsSteps(cfg: Config, s: State, prev: Option<Checkpoint>, cur: LogInfo, inputEnd: Option<int>, pass: Pass)
    returns (es: seq<Event>)
    requires s.phase.Ready?
    ensures Exec(cfg, s.(phase := Checked(prev, cur, inputEnd)), es) ==
            Some(AfterPassedCheck(cfg, s, prev, cur, inputEnd, pass))
    ensures forall k :: 0 <= k < |es| ==> FromPass(es[k], pass) && !es[k].RunCheck?
    ensures WritesLast(es)
    ensures forall k :: 0 <= k < |es| && es[k].Search? ==>
              Searching(cfg, s) && s.start.value <= s.end.value && es[k].scan == Range(s)
  {
    var c := s.(phase := Checked(prev, cur, inputEnd));
    PhaseIsCarried(cfg, s, c.phase, pass);
    es := SearchIsSteps(cfg, c, pass);
    if SearchGoes(cfg, s, pass) {
      var handedOver := HandedOver(prev, cur, inputEnd);
      var v := AfterNotices(cfg, s, pass);
      PhaseIsCarried(cfg, v, c.phase, pass);
      var u := AfterHandOver(cfg, v).(phase := handedOver);
      WritingCarriesPhase(cfg, AfterHandOver(cfg, v), handedOver, prev, cur.head, pass.tick.write);
      var gs := WriteIsSteps(cfg, u, pass);
      ExecConcat(cfg, c, es, gs);
      es := es + gs;
    }
  }

  /** The loop body refines the protocol. */
  lemma IterationIsSteps(cfg: Config, s: State, pass: Pass) returns (es: seq<Event>)
    requires s.phase.Ready?
    ensures Exec(cfg, s, es) == Some(Iterate(cfg, s, pass))
    ensures WritesLast(es) && forall k :: 0 <= k < |es| ==> FromPass(es[k], pass)
    ensures PassFits(cfg, s, pass) ==> AllHonest(cfg, es)
  {
    var check := RunCheck(pass.tick.reply, pass.tick.seen);
    var outcome := Checks(cfg, s, pass.tick);
    if !outcome.Passed? {
      es := [check];
    } else {
      var s1 := AfterCheck(cfg, s, outcome.prev, outcome.cur);
      assert Step(cfg, s, check) == Some(s1.(phase := Checked(outcome.prev, outcome.cur, s.end)));
      var fs := CheckedIsSteps(cfg, s1, outcome.prev, outcome.cur, s.end, pass);
      ExecCons(cfg, s, check, fs);
      es := [check] + fs;
    }
  }

  lemma FromPassesJoin(es: seq<Event>, fs: seq<Event>, passes: seq<Pass>)
    requires passes != [] && FromPasses(fs, passes[1..])
    requires forall k :: 0 <= k < |es| ==> FromPass(es[k], passes[0])
    ensures FromPasses(es + fs, passes)
  {
    forall k | 0 <= k < |es + fs| && (es + fs)[k] != Crash
      ensures exists j :: 0 <= j < |passes| && FromPass((es + fs)[k], passes[j])
    {
      if k >= |es| {
        var j :| 0 <= j < |passes[1..]| && FromPass(fs[k - |es|], passes[1..][j]);
        assert FromPass((es + fs)[k], passes[j + 1]);
      }
    }
  }

  ghost predicate AllHonest(cfg: Config, es: seq<Event>) {
    forall k :: 0 <= k < |es| ==> Honest(cfg, es[k])
  }

  lemma HonestJoin(cfg: Config, es: seq<Event>, fs: seq<Event>)
    requires AllHonest(cfg, es) && AllHonest(cfg, fs)
    ensures AllHonest(cfg, es + fs)
  {
  }

  lemma {:induction false} IterationsAreSteps(cfg: Config, s: State, passes: seq<Pass>) returns (es: seq<Event>)
    requires s.phase.Ready? || s == Stop(s)
    ensures Exec(cfg, s, es) == Some(Iterations(cfg, s, passes))
    ensures FromPasses(es, passes)
    ensures PassesFit(cfg, s, passes) ==> AllHonest(cfg, es)
    decreases |passes|
  {
    if passes == [] || s.phase.Down? {
      es := [];
    } else {
      var fs := IterationIsSteps(cfg, s, passes[0]);
      var gs := IterationsAreSteps(cfg, Iterate(cfg, s, passes[0]), passes[1..]);
      ExecConcat(cfg, s, fs, gs);
      FromPassesJoin(fs, gs, passes);
      if PassesFit(cfg, s, passes) {
        HonestJoin(cfg, fs, gs);
      }
      es := fs + gs;
    }
  }

  /** A whole run of the loop refines the protocol: whatever holds of all protocol runs holds of it. Its writes
      break off where the passes say so, and its searches report what the identity search may report. */
  lemma LoopIsSteps(cfg: Config, s: State, passes: seq<Pass>) returns (es: seq<Event>)
    requires s.phase.Down?
    ensures Exec(cfg, s, [Start] + es) == Some(RunLoop(cfg, s, passes))
    ensures FromPasses(es, passes)
    ensures PassesFit(cfg, Loaded(cfg, s), passes) ==> AllHonest(cfg, es)
  {
    var t := Loaded(cfg, s);
    es := IterationsAreSteps(cfg, t, passes);
    var u := Iterations(cfg, t, passes);
    if u.phase.Ready? {
      ShutDown(cfg, t, es, u);
      es := es + [Crash];
    }
    ExecCons(cfg, s, Start, es);
  }

  lemma ShutDown(cfg: Config, s: State, es: seq<Event>, t: State)
    requires Exec(cfg, s, es) == Some(t) && t.phase.Ready?
    ensures Exec(cfg, s, es + [Crash]) == Some(Stop(t))
  {
    ExecConcat(cfg, s, es, [Crash]);
  }

  // ----- the loop as the source runs it

  predicate IsIndex(index: Option<int>) {
    index.Some? ==> InInt64(index.value)
  }

  class Monitor {
    const cfg: Config
    const codec: Codec
    const file: LogInfoFile
    var startIndex: Option<int>
    var endIndex: Option<int>
    ghost var scans: seq<Scan>
    ghost var stores: seq<Checkpoint>
    ghost var sent: seq<Notice>

    /** The configuration speaks of this monitor's own file, and every index is an int64. */
    ghost predicate Valid()
      reads this
    {
      && cfg.disk == DiskOf(codec) && IsIndex(cfg.startIndex) && IsIndex(cfg.endIndex)
      && IsIndex(startIndex) && IsIndex(endIndex)
    }

    constructor (cfg: Config, codec: Codec, file: LogInfoFile)
      requires cfg.disk == DiskOf(codec) && IsIndex(cfg.startIndex) && IsIndex(cfg.endIndex)
      ensures this.cfg == cfg && this.codec == codec && this.file == file
      ensures Valid() && Initial(AtRest())
    {
      this.cfg, this.codec, this.file := cfg, codec, file;
      startIndex, endIndex, scans, sent := None, None, [], [];
      stores := Held(Interpret(codec, file.content));
    }

    ghost function Now(): State
      reads this, file
    {
      State(Interpret(codec, file.content), Ready, startIndex, endIndex, scans, stores, sent)
    }

    /** What is left when the process is not running. */
    ghost function AtRest(): State
      reads this, file
    {
      Stop(Now())
    }

    method RunConsistencyCheck(reply: Reply, seen: bool) returns (outcome: Outcome)
      ensures outcome == Check(cfg.version, cfg.accepts, Seen(Interpret(codec, file.content), seen), reply)
      ensures reply.Unavailable? ==> outcome == Failed
      ensures outcome.Panicked? ==> cfg.version == V2 && reply.ShardsReply?
    {
      var stored := file.Load(codec, seen);
      match reply
      case Unavailable =>
        outcome := Failed;
      case LogInfoReply(info) =>
        outcome := RunConsistencyCheckV1(cfg.accepts, if cfg.version == V1 then Some(info) else None, stored);
      case ShardsReply(shards, latest) =>
        if cfg.version == V2 {
          outcome := RunConsistencyCheckV2(cfg.accepts, shards, latest, stored);
        } else {
          outcome := Failed;
        }
    }

    method GetIndex(cur: LogInfo, checkpoint: Checkpoint) returns (index: Option<int>)
      ensures index == IndexOf(cfg.version, cur.inactive, checkpoint.size) && IsIndex(index)
      ensures cfg.version == V2 ==>
                index == if 0 < checkpoint.size <= 0x7FFF_FFFF_FFFF_FFFF then Some(checkpoint.size - 1) else None
      ensures cfg.version == V1 ==>
                && index.Some?
                && (index.value - (checkpoint.size + SumSizes(cur.inactive) - 1)) % 0x1_0000_0000_0000_0000 == 0
    {
      if cfg.version == V1 {
        var i := GetCheckpointIndex(cur, checkpoint);
        return Some(i);
      }
      if checkpoint.size <= 0 || checkpoint.size > MAX_INT64 {
        return None;
      }
      return Some(checkpoint.size - 1);
    }

    /** Fill in the ends of the range that are not set. */
    method SetRange(prev: Option<Checkpoint>, cur: LogInfo)
      requires Valid() && MonitoredValuesExist(cfg.values)
      modifies this`startIndex, this`endIndex
      ensures Valid() && Now() == AfterCheck(cfg, old(Now()), prev, cur)
    {
      if startIndex == None {
        if prev != None {
          startIndex := GetIndex(cur, prev.value);
        }
      }
      if endIndex == None {
        endIndex := GetIndex(cur, cur.head);
      }
    }

    /** One of the two notifications. */
    method Trigger(notice: Notice, ok: bool) returns (sentOut: bool)
      modifies this`sent
      ensures sentOut == ok && sent == if ok then old(sent) + [notice] else old(sent)
    {
      if ok {
        sent := sent + [notice];
      }
      return ok;
    }

    method Notify(tick: Tick, report: Report, scan: Scan) returns (ok: bool)
      modifies this`sent
      ensures ok == NoticesGo(tick, report)
      ensures sent == old(sent) + Notices(tick, scan, report)
    {
      if report.groups != [] {
        ok := Trigger(Found(scan, report.groups), tick.foundSent);
        if !ok {
          return;
        }
      }
      if report.failed != [] {
        ok := Trigger(Unreadable(scan, report.failed), tick.failedSent);
        return;
      }
      return true;
    }

    /** The identity search of the configured version, over the range that is set. */
    method SearchRange(tick: Tick) returns (result: Option<Report>)
      requires Valid() && startIndex.Some? && endIndex.Some?
      ensures ResultFits(cfg, Scan(startIndex.value, endIndex.value), tick, result)
    {
      if VersionOf(tick.server) != cfg.version {
        return None;
      }
      var start, end := startIndex.value, endIndex.value;
      var r := IdentitySearch.Search(tick.server, cfg.oracle, cfg.values, start, end, tick.written);
      result := match r case Ok(report) => Some(report) case Err(_) => None;
    }

    /** The search part of one iteration, in the order search, notify, hand over. */
    method SearchAndNotify(tick: Tick, prev: Option<Checkpoint>, cur: LogInfo)
      returns (ok: bool, result: Option<Report>)
      requires Valid()
      modifies this
      ensures Valid()
      ensures var s := AfterCheck(cfg, old(Now()), prev, cur);
              var pass := Pass(tick, result);
              && (Searching(cfg, s) && s.start.value <= s.end.value ==> ResultFits(cfg, Range(s), tick, result))
              && ok == SearchGoes(cfg, s, pass)
              && (ok ==> Now() == AfterHandOver(cfg, AfterNotices(cfg, s, pass)))
              && (!ok ==> AtRest() == Stop(AfterNotices(cfg, s, pass)))
    {
      result := None;
      if MonitoredValuesExist(cfg.values) {
        SetRange(prev, cur);
        if startIndex != None && endIndex != None {
          if startIndex.value > endIndex.value {
            return false, None;
          }
          result := SearchRange(tick);
          if result == None {
            return false, None;
          }
          var scan := Scan(startIndex.value, endIndex.value);
          ok := Notify(tick, result.value, scan);
          if !ok {
            return;
          }
          scans := scans + [scan];
        }
        startIndex := endIndex;
        endIndex := None;
      }
      ok := true;
    }

    /** The write that ends an iteration. */
    method WriteCheckpoint(tick: Tick, prev: Option<Checkpoint>, cur: LogInfo) returns (ok: bool)
      requires Valid()
      modifies this`stores, file
      ensures Valid() && (Now(), ok) == AfterWriting(cfg, old(Now()), prev, cur.head, tick.write)
    {
      ok := file.WriteCheckpoint(cfg.version, codec, cur.head, prev, false, tick.write);
      if ShouldWrite(cfg.version, cur.head, prev) && !tick.write.Unopened? {
        stores := stores + Held(Interpret(codec, file.content));
      }
    }

    /** One pass through the loop; `done` means that it returned. */
    method Iteration(tick: Tick) returns (done: bool, result: Option<Report>)
      requires Valid()
      modifies this, file
      ensures Valid()
      ensures PassFits(cfg, old(Now()), Pass(tick, result))
      ensures (if done then AtRest() else Now()) == Iterate(cfg, old(Now()), Pass(tick, result))
    {
      result := None;
      var inputEndIndex := endIndex;
      var outcome := RunConsistencyCheck(tick.reply, tick.seen);
      if outcome.Panicked? {
        done := true;
        return;
      }
      if outcome.Failed? {
        done := cfg.once;
        return;
      }
      var prev, cur := outcome.prev, outcome.cur;
      var ok;
      ok, result := SearchAndNotify(tick, prev, cur);
      if !ok {
        done := true;
        return;
      }
      ok := WriteCheckpoint(tick, prev, cur);
      done := !ok || cfg.once || inputEndIndex != None;
    }

    /** The loop: its whole effect on the file and the history is RunLoop's, and its searches returned what the
        identity search may return. One pass is recorded for each tick until the loop returned. */
    method Run(ticks: seq<Tick>) returns (passes: seq<Pass>)
      requires Valid()
      modifies this, file
      ensures Valid() && AtRest() == RunLoop(cfg, old(AtRest()), passes)
      ensures |passes| <= |ticks| && forall n :: 0 <= n < |passes| ==> passes[n].tick == ticks[n]
      ensures |passes| < |ticks| ==> Iterations(cfg, Loaded(cfg, old(AtRest())), passes).phase.Down?
      ensures forall n :: 0 <= n < |passes| ==> Iterations(cfg, Loaded(cfg, old(AtRest())), passes[..n]).phase.Ready?
      ensures PassesFit(cfg, Loaded(cfg, old(AtRest())), passes)
    {
      startIndex, endIndex := cfg.startIndex, cfg.endIndex;
      ghost var loaded := Now();
      passes := [];
      for n := 0 to |ticks|
        invariant Valid() && Now() == Iterations(cfg, loaded, passes)
        invariant |passes| == n && forall k :: 0 <= k < n ==> passes[k].tick == ticks[k]
        invariant forall k :: 0 <= k < n ==> Iterations(cfg, loaded, passes[..k]).phase.Ready?
        invariant PassesFit(cfg, loaded, passes)
      {
        var done, result := Iteration(ticks[n]);
        OneMore(cfg, loaded, passes, Pass(ticks[n], result));
        ghost var before := passes;
        passes := passes + [Pass(ticks[n], result)];
        assert passes[..n] == before && forall k :: 0 <= k < n ==> passes[..k] == before[..k];
        if done {
          return;
        }
      }
    }
  }

  lemma {:induction false} OneMore(cfg: Config, s: State, passes: seq<Pass>, pass: Pass)
    requires s.phase.Ready? || s == Stop(s)
    requires Iterations(cfg, s, passes).phase.Ready?
    ensures Iterations(cfg, s, passes + [pass]) == Iterate(cfg, Iterations(cfg, s, passes), pass)
    ensures PassesFit(cfg, s, passes + [pass]) <==>
            PassesFit(cfg, s, passes) && PassFits(cfg, Iterations(cfg, s, passes), pass)
    decreases |passes|
  {
    var all := passes + [pass];
    if passes == [] {
      assert all[1..] == [];
    } else {
      assert all[0] == passes[0] && all[1..] == passes[1..] + [pass];
      OneMore(cfg, Iterate(cfg, s, passes[0]), passes[1..], pass);
    }
  }
}
