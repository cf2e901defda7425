/** Coverage for the loop as it runs: which endings of its iterations keep it, and what presets do to it. */
module LoopCoverage {
  import opened Prelude
  import opened Consistency
  import opened CheckpointFile
  import opened Matching
  import opened IdentitySearch
  import opened MonitorProtocol
  import opened Coverage
  import opened MonitorLoop
  import opened Gaps

  // ----- coverage of whole runs of the loop

  lemma {:induction false} QuietRunKeepsInv(cfg: Config, site: Site, s: State, es: seq<Event>, t: State)
    requires Setting(cfg, site) && Inv(cfg, site, s) && Exec(cfg, s, es) == Some(t) && PresetFits(cfg, site, s.stores)
    requires forall k :: 0 <= k < |es| ==> Quiet(es[k])
    ensures Inv(cfg, site, t) && t.scans == s.scans && t.stores == s.stores
    decreases |es|
  {
    if es != [] {
      var u := Step(cfg, s, es[0]).value;
      QuietStep(cfg, s, es[0], u);
      QuietKeepsInv(cfg, site, s, es[0], u);
      QuietRunKeepsInv(cfg, site, u, es[1..], t);
    }
  }

  lemma {:induction false} QuietRun(cfg: Config, s: State, es: seq<Event>, t: State)
    requires Exec(cfg, s, es) == Some(t) && forall k :: 0 <= k < |es| ==> Quiet(es[k])
    ensures t.scans == s.scans && t.stores == s.stores
    decreases |es|
  {
    if es != [] {
      QuietStep(cfg, s, es[0], Step(cfg, s, es[0]).value);
      QuietRun(cfg, Step(cfg, s, es[0]).value, es[1..], t);
    }
  }

  /** Steps with at most one write, at their end, keep the invariant if and only if they keep coverage. */
  lemma {:induction false} WritesLastLands(cfg: Config, site: Site, s: State, es: seq<Event>, t: State)
    requires Setting(cfg, site) && Inv(cfg, site, s) && Exec(cfg, s, es) == Some(t)
    requires SteadyRun(cfg, site, es) && WritesLast(es) && PresetFits(cfg, site, t.stores)
    ensures LandsWithin(cfg, site, s, t) ==> Inv(cfg, site, t)
    ensures !LandsWithin(cfg, site, s, t) ==> !Covered(site, t)
    decreases |es|
  {
    if es != [] {
      var u := Step(cfg, s, es[0]).value;
      StoresGrow(cfg, u, es[1..], t);
      StepKeepsInv(cfg, site, s, es[0], u);
      assert forall k :: 0 <= k < |es| - 1 ==> es[1..][k] == es[k + 1];
      if IsWrite(es[0]) {
        LandedThenQuiet(cfg, site, u, es[1..], t);
      } else {
        NoWriteNoStore(cfg, s, es[0], u);
        WritesLastLands(cfg, site, u, es[1..], t);
      }
    }
  }

  lemma LandedThenQuiet(cfg: Config, site: Site, u: State, es: seq<Event>, t: State)
    requires Setting(cfg, site) && Exec(cfg, u, es) == Some(t) && PresetFits(cfg, site, t.stores)
    requires forall k :: 0 <= k < |es| ==> Quiet(es[k])
    ensures t.scans == u.scans && t.stores == u.stores
    ensures Inv(cfg, site, u) ==> Inv(cfg, site, t)
  {
    QuietRun(cfg, u, es, t);
    if Inv(cfg, site, u) {
      QuietRunKeepsInv(cfg, site, u, es, t);
    }
  }

  lemma NoWriteNoStore(cfg: Config, s: State, e: Event, t: State)
    requires Step(cfg, s, e) == Some(t) && !IsWrite(e)
    ensures t.stores == s.stores
  {
  }

  lemma IterationLands(cfg: Config, site: Site, s: State, pass: Pass)
    requires Setting(cfg, site) && Inv(cfg, site, s) && s.phase.Ready? && Steady(cfg, site, pass.tick.reply)
    requires PresetFits(cfg, site, Iterate(cfg, s, pass).stores)
    ensures LandsWithin(cfg, site, s, Iterate(cfg, s, pass)) ==> Inv(cfg, site, Iterate(cfg, s, pass))
    ensures LandsWithin(cfg, site, s, Iterate(cfg, s, pass)) <==> Covered(site, Iterate(cfg, s, pass))
  {
    var es := IterationIsSteps(cfg, s, pass);
    assert SteadyRun(cfg, site, es) by {
      assert forall k :: 0 <= k < |es| ==> FromPass(es[k], pass);
    }
    WritesLastLands(cfg, site, s, es, Iterate(cfg, s, pass));
    if LandsWithin(cfg, site, s, Iterate(cfg, s, pass)) {
      InvCovers(cfg, site, Iterate(cfg, s, pass));
    }
  }

  ghost predicate SteadyPasses(cfg: Config, site: Site, passes: seq<Pass>) {
    forall n :: 0 <= n < |passes| ==> Steady(cfg, site, passes[n].tick.reply)
  }

  /** The states before, between and after the iterations. */
  function Visited(cfg: Config, s: State, passes: seq<Pass>): (states: seq<State>)
    requires s.phase.Ready? || s == Stop(s)
    ensures |states| > 0 && states[0] == s && states[|states| - 1] == Iterations(cfg, s, passes)
    decreases |passes|
  {
    if passes == [] || s.phase.Down? then [s] else [s] + Visited(cfg, Iterate(cfg, s, passes[0]), passes[1..])
  }

  /** Covered before, between and after all iterations. */
  ghost predicate CoveredThroughout(site: Site, states: seq<State>) {
    forall k :: 0 <= k < |states| ==> Covered(site, states[k])
  }

  /** Every iteration that leaves a checkpoint in the file, and not the first, had searched up to it. */
  predicate LandThroughout(cfg: Config, site: Site, states: seq<State>) {
    forall k :: 0 <= k < |states| - 1 ==> LandsWithin(cfg, site, states[k], states[k + 1])
  }

  /** The invariant survives this iteration if coverage does, which is if its checkpoint lands within the mark. */
  ghost predicate StepLands(cfg: Config, site: Site, s: State, t: State) {
    Inv(cfg, site, s) && PresetFits(cfg, site, t.stores) ==>
      && (LandsWithin(cfg, site, s, t) ==> Inv(cfg, site, t))
      && (LandsWithin(cfg, site, s, t) <==> Covered(site, t))
  }

  ghost predicate StepsLand(cfg: Config, site: Site, states: seq<State>) {
    forall k :: 0 <= k < |states| - 1 ==> StepLands(cfg, site, states[k], states[k + 1])
  }

  ghost predicate PresetsFit(cfg: Config, site: Site, states: seq<State>) {
    forall k :: 0 <= k < |states| ==> PresetFits(cfg, site, states[k].stores)
  }

  lemma {:induction false} LandedSoFar(cfg: Config, site: Site, states: seq<State>, n: nat)
    requires StepsLand(cfg, site, states) && PresetsFit(cfg, site, states) && n < |states|
    requires Inv(cfg, site, states[0])
    requires forall k :: 0 <= k < n ==> LandsWithin(cfg, site, states[k], states[k + 1])
    ensures Inv(cfg, site, states[n]) && Covered(site, states[n])
    decreases n
  {
    InvCovers(cfg, site, states[0]);
    if n > 0 {
      LandedSoFar(cfg, site, states, n - 1);
      assert StepLands(cfg, site, states[n - 1], states[n - 1 + 1]);
      assert LandsWithin(cfg, site, states[n - 1], states[n - 1 + 1]);
    }
  }

  lemma {:induction false} CoveredSoFar(cfg: Config, site: Site, states: seq<State>, n: nat)
    requires StepsLand(cfg, site, states) && PresetsFit(cfg, site, states) && n < |states|
    requires Inv(cfg, site, states[0]) && CoveredThroughout(site, states)
    ensures forall k :: 0 <= k < n ==> LandsWithin(cfg, site, states[k], states[k + 1])
    decreases n
  {
    if n > 0 {
      CoveredSoFar(cfg, site, states, n - 1);
      LandedSoFar(cfg, site, states, n - 1);
      assert StepLands(cfg, site, states[n - 1], states[n - 1 + 1]);
    }
  }

  lemma LandingsExactly(cfg: Config, site: Site, states: seq<State>)
    requires states != [] && StepsLand(cfg, site, states) && PresetsFit(cfg, site, states)
    requires Inv(cfg, site, states[0])
    ensures CoveredThroughout(site, states) <==> LandThroughout(cfg, site, states)
    ensures LandThroughout(cfg, site, states) ==> Inv(cfg, site, states[|states| - 1])
  {
    if CoveredThroughout(site, states) {
      CoveredSoFar(cfg, site, states, |states| - 1);
    }
    if LandThroughout(cfg, site, states) {
      forall k | 0 <= k < |states|
        ensures Inv(cfg, site, states[k]) && Covered(site, states[k])
      {
        LandedSoFar(cfg, site, states, k);
      }
    }
  }

  lemma PassedStores(cfg: Config, s: State, prev: Option<Checkpoint>, cur: LogInfo, inputEnd: Option<int>, pass: Pass)
    ensures s.stores <= AfterPassedCheck(cfg, s, prev, cur, inputEnd, pass).stores
  {
  }

  lemma IterateStores(cfg: Config, s: State, pass: Pass)
    requires s.phase.Ready?
    ensures s.stores <= Iterate(cfg, s, pass).stores
  {
    var outcome := Checks(cfg, s, pass.tick);
    if outcome.Passed? {
      var t := AfterCheck(cfg, s, outcome.prev, outcome.cur);
      PassedStores(cfg, t, outcome.prev, outcome.cur, s.end, pass);
    }
  }

  lemma IterationStepLands(cfg: Config, site: Site, s: State, pass: Pass)
    requires Setting(cfg, site) && s.phase.Ready? && Steady(cfg, site, pass.tick.reply)
    ensures StepLands(cfg, site, s, Iterate(cfg, s, pass))
  {
    if Inv(cfg, site, s) && PresetFits(cfg, site, Iterate(cfg, s, pass).stores) {
      IterationLands(cfg, site, s, pass);
    }
  }

  lemma StepsLandCons(cfg: Config, site: Site, s: State, rest: seq<State>)
    requires rest != [] && StepsLand(cfg, site, rest) && StepLands(cfg, site, s, rest[0])
    ensures StepsLand(cfg, site, [s] + rest)
  {
    var all := [s] + rest;
    assert forall k :: 0 < k < |all| ==> all[k] == rest[k - 1];
    forall k | 0 <= k < |all| - 1
      ensures StepLands(cfg, site, all[k], all[k + 1])
    {
      if k > 0 {
        assert StepLands(cfg, site, rest[k - 1], rest[k - 1 + 1]);
      }
    }
  }

  lemma {:induction false} VisitedStepsLand(cfg: Config, site: Site, s: State, passes: seq<Pass>)
    requires s.phase.Ready? || s == Stop(s)
    requires Setting(cfg, site) && SteadyPasses(cfg, site, passes)
    ensures StepsLand(cfg, site, Visited(cfg, s, passes))
    decreases |passes|
  {
    if passes != [] && s.phase.Ready? {
      var t := Iterate(cfg, s, passes[0]);
      IterationStepLands(cfg, site, s, passes[0]);
      VisitedStepsLand(cfg, site, t, passes[1..]);
      StepsLandCons(cfg, site, s, Visited(cfg, t, passes[1..]));
    }
  }

  predicate StoresEndIn(states: seq<State>, stores: seq<Checkpoint>) {
    forall k :: 0 <= k < |states| ==> states[k].stores <= stores
  }

  lemma {:induction false} VisitedStores(cfg: Config, s: State, passes: seq<Pass>)
    requires s.phase.Ready? || s == Stop(s)
    ensures StoresEndIn(Visited(cfg, s, passes), Iterations(cfg, s, passes).stores)
    decreases |passes|
  {
    if passes != [] && s.phase.Ready? {
      var t := Iterate(cfg, s, passes[0]);
      IterateStores(cfg, s, passes[0]);
      VisitedStores(cfg, t, passes[1..]);
      var rest := Visited(cfg, t, passes[1..]);
      assert rest[0].stores <= Iterations(cfg, t, passes[1..]).stores;
    }
  }

  /** One run of the process, from any state that earlier runs left behind, whatever happens in its iterations:
      it stays covered if and only if every iteration that leaves a checkpoint in the file had searched up to it,
      and then the next run may start from what it leaves. */
  lemma LoopCoverageExactly(cfg: Config, site: Site, s: State, passes: seq<Pass>)
    requires Setting(cfg, site) && Inv(cfg, site, s) && s.phase.Down? && SteadyPasses(cfg, site, passes)
    requires PresetFits(cfg, site, RunLoop(cfg, s, passes).stores)
    ensures var states := Visited(cfg, Loaded(cfg, s), passes);
            && (CoveredThroughout(site, states) <==> LandThroughout(cfg, site, states))
            && (LandThroughout(cfg, site, states) ==> Inv(cfg, site, RunLoop(cfg, s, passes)))
  {
    var t := Loaded(cfg, s);
    VisitedStepsLand(cfg, site, t, passes);
    VisitedStores(cfg, t, passes);
    PresetsFitBefore(cfg, site, Visited(cfg, t, passes), Iterations(cfg, t, passes).stores);
    LoadedInv(cfg, site, s);
    LandingsExactly(cfg, site, Visited(cfg, t, passes));
    StopKeepsInv(cfg, site, Iterations(cfg, t, passes));
  }

  lemma PresetsFitBefore(cfg: Config, site: Site, states: seq<State>, stores: seq<Checkpoint>)
    requires StoresEndIn(states, stores) && PresetFits(cfg, site, stores)
    ensures PresetsFit(cfg, site, states)
  {
  }

  lemma LoadedInv(cfg: Config, site: Site, s: State)
    requires Setting(cfg, site) && Inv(cfg, site, s) && s.phase.Down? && PresetFits(cfg, site, s.stores)
    ensures Inv(cfg, site, Loaded(cfg, s))
  {
    QuietKeepsInv(cfg, site, s, Start, Loaded(cfg, s));
  }

  lemma StopKeepsInv(cfg: Config, site: Site, s: State)
    ensures Inv(cfg, site, s) ==> Inv(cfg, site, Stop(s))
  {
  }

  // ----- runs that meet the condition

  /** The iteration forgets nothing, and its head is within int64. */
  predicate Careful(site: Site, tick: Tick) {
    && tick.seen && tick.write != Broken(0)
    && (HeadOf(tick.reply).Some? ==> Fits(site, HeadOf(tick.reply).value))
  }

  predicate AllCareful(site: Site, passes: seq<Pass>) {
    forall n :: 0 <= n < |passes| ==> Careful(site, passes[n].tick)
  }

  /** What holds between the iterations of careful runs. */
  ghost predicate Kept(cfg: Config, site: Site, s: State) {
    Inv(cfg, site, s) && Attached(cfg, site, s)
  }

  lemma CarefulIteration(cfg: Config, site: Site, s: State, pass: Pass)
    requires Setting(cfg, site) && cfg.endIndex.None? && Kept(cfg, site, s) && s.phase.Ready?
    requires Steady(cfg, site, pass.tick.reply) && Careful(site, pass.tick)
    requires PresetFits(cfg, site, Iterate(cfg, s, pass).stores)
    ensures Kept(cfg, site, Iterate(cfg, s, pass)) && LandsWithin(cfg, site, s, Iterate(cfg, s, pass))
  {
    var es := IterationIsSteps(cfg, s, pass);
    assert SteadyRun(cfg, site, es) && FitRun(site, es) && NothingForgotten(es) by {
      assert forall k :: 0 <= k < |es| ==> FromPass(es[k], pass);
    }
    AttachedRunLands(cfg, site, s, es, Iterate(cfg, s, pass));
    InvCovers(cfg, site, Iterate(cfg, s, pass));
    IterationLands(cfg, site, s, pass);
  }

  ghost predicate StepKeeps(cfg: Config, site: Site, s: State, t: State) {
    Kept(cfg, site, s) && PresetFits(cfg, site, t.stores) ==> Kept(cfg, site, t) && LandsWithin(cfg, site, s, t)
  }

  ghost predicate StepsKeep(cfg: Config, site: Site, states: seq<State>) {
    forall k :: 0 <= k < |states| - 1 ==> StepKeeps(cfg, site, states[k], states[k + 1])
  }

  lemma {:induction false} KeptSoFar(cfg: Config, site: Site, states: seq<State>, n: nat)
    requires StepsKeep(cfg, site, states) && PresetsFit(cfg, site, states) && n < |states|
    requires Kept(cfg, site, states[0])
    ensures Kept(cfg, site, states[n])
    ensures forall k :: 0 <= k < n ==> LandsWithin(cfg, site, states[k], states[k + 1])
    decreases n
  {
    if n > 0 {
      KeptSoFar(cfg, site, states, n - 1);
      assert StepKeeps(cfg, site, states[n - 1], states[n - 1 + 1]);
    }
  }

  lemma CarefulStepKeeps(cfg: Config, site: Site, s: State, pass: Pass)
    requires Setting(cfg, site) && cfg.endIndex.None? && s.phase.Ready?
    requires Steady(cfg, site, pass.tick.reply) && Careful(site, pass.tick)
    ensures StepKeeps(cfg, site, s, Iterate(cfg, s, pass))
  {
    if Kept(cfg, site, s) && PresetFits(cfg, site, Iterate(cfg, s, pass).stores) {
      CarefulIteration(cfg, site, s, pass);
    }
  }

  lemma StepsKeepCons(cfg: Config, site: Site, s: State, rest: seq<State>)
    requires rest != [] && StepsKeep(cfg, site, rest) && StepKeeps(cfg, site, s, rest[0])
    ensures StepsKeep(cfg, site, [s] + rest)
  {
    var all := [s] + rest;
    assert forall k :: 0 < k < |all| ==> all[k] == rest[k - 1];
    forall k | 0 <= k < |all| - 1
      ensures StepKeeps(cfg, site, all[k], all[k + 1])
    {
      if k > 0 {
        assert StepKeeps(cfg, site, rest[k - 1], rest[k - 1 + 1]);
      }
    }
  }

  lemma {:induction false} VisitedStepsKeep(cfg: Config, site: Site, s: State, passes: seq<Pass>)
    requires s.phase.Ready? || s == Stop(s)
    requires Setting(cfg, site) && cfg.endIndex.None?
    requires SteadyPasses(cfg, site, passes) && AllCareful(site, passes)
    ensures StepsKeep(cfg, site, Visited(cfg, s, passes))
    decreases |passes|
  {
    if passes != [] && s.phase.Ready? {
      var t := Iterate(cfg, s, passes[0]);
      CarefulStepKeeps(cfg, site, s, passes[0]);
      VisitedStepsKeep(cfg, site, t, passes[1..]);
      StepsKeepCons(cfg, site, s, Visited(cfg, t, passes[1..]));
    }
  }

  lemma LoadedKept(cfg: Config, site: Site, s: State)
    requires Setting(cfg, site) && cfg.endIndex.None? && Kept(cfg, site, s) && s.phase.Down?
    requires PresetFits(cfg, site, s.stores)
    ensures Kept(cfg, site, Loaded(cfg, s))
  {
    QuietKeepsInv(cfg, site, s, Start, Loaded(cfg, s));
    QuietAttaches(cfg, site, s, Start, Loaded(cfg, s));
  }

  lemma StopKeeps(cfg: Config, site: Site, s: State)
    requires Kept(cfg, site, s) && (s.phase.Ready? || s.phase.Down?)
    ensures Kept(cfg, site, Stop(s))
  {
  }

  /** A run in which every check sees the file and no write breaks off before its first byte meets the condition:
      it stays covered throughout, however it ends (by a failed search, notification or write, or by the shutdown
      signal), and the next run may build on it. */
  lemma LoopKeepsCoverage(cfg: Config, site: Site, s: State, passes: seq<Pass>)
    requires Setting(cfg, site) && cfg.endIndex.None? && s.phase.Down? && Kept(cfg, site, s)
    requires SteadyPasses(cfg, site, passes) && AllCareful(site, passes)
    requires PresetFits(cfg, site, RunLoop(cfg, s, passes).stores)
    ensures var states := Visited(cfg, Loaded(cfg, s), passes);
            LandThroughout(cfg, site, states) && CoveredThroughout(site, states)
    ensures Kept(cfg, site, RunLoop(cfg, s, passes)) && Covered(site, RunLoop(cfg, s, passes))
  {
    var t := Loaded(cfg, s);
    var states := Visited(cfg, t, passes);
    VisitedStepsLand(cfg, site, t, passes);
    VisitedStores(cfg, t, passes);
    PresetsFitBefore(cfg, site, states, Iterations(cfg, t, passes).stores);
    assert PresetFits(cfg, site, states[0].stores);
    LoadedKept(cfg, site, s);
    VisitedStepsKeep(cfg, site, t, passes);
    KeptSoFar(cfg, site, states, |states| - 1);
    StopKeeps(cfg, site, Iterations(cfg, t, passes));
    LoopCoverageExactly(cfg, site, s, passes);
    InvCovers(cfg, site, RunLoop(cfg, s, passes));
  }

  lemma BrokenFirstRun(cfg: Config, o: Oracle, s: State, one: Pass)
    requires cfg == Example(o) && s == OneStored()
    requires one.tick.reply == Announces(2) && one.tick.seen && one.tick.write == Broken(0)
    requires one.result.Some? && NoticesGo(one.tick, one.result.value)
    ensures RunLoop(cfg, s, [one]) ==
            State(Empty, Down, None, None, [Scan(0, 1)], [HeadOfSize(1)],
                  Notices(one.tick, Scan(0, 1), one.result.value))
  {
    OnePass(cfg, s, one);
    var cur := LogInfo(HeadOfSize(2), []);
    assert Check(V2, cfg.accepts, s.file, one.tick.reply) == Passed(Some(HeadOfSize(1)), cur);
    var s1 := AfterCheck(cfg, Loaded(cfg, s), Some(HeadOfSize(1)), cur);
    assert s1.start == Some(0) && s1.end == Some(1);
  }

  lemma UnsearchedRun(cfg: Config, o: Oracle, s: State, two: Pass)
    requires cfg == Example(o) && s.phase.Down? && s.file == Empty
    requires two.tick.reply == Announces(3) && two.tick.write == Complete
    ensures var t := RunLoop(cfg, s, [two]);
            t.file == Saved(HeadOfSize(3)) && t.stores == s.stores + [HeadOfSize(3)] && t.scans == s.scans
  {
    OnePass(cfg, s, two);
  }

  /** The exception, without any crash: 1 is stored, the head is 2, (0, 1] is searched and its notifications go
      out, and the write fails once the file is truncated. The next run finds head 3, stores it unsearched, and
      index 2 is in no search. */
  lemma BrokenWriteGap(cfg: Config, o: Oracle, s: State, one: Pass, two: Pass)
    requires cfg == Example(o) && s == OneStored()
    requires one.tick.reply == Announces(2) && one.tick.seen && one.tick.write == Broken(0)
    requires one.result.Some? && NoticesGo(one.tick, one.result.value)
    requires two.tick.reply == Announces(3) && two.tick.write == Complete
    ensures Setting(cfg, Site("log", 0)) && Plain(cfg) && FirstStart(cfg, Site("log", 0), s)
    ensures var t := RunLoop(cfg, RunLoop(cfg, s, [one]), [two]);
            && t.file == Saved(HeadOfSize(3)) && t.stores == [HeadOfSize(1), HeadOfSize(3)] && t.scans == [Scan(0, 1)]
            && !Delivered(t.scans, 2) && !Covered(Site("log", 0), t)
  {
    var t1 := RunLoop(cfg, s, [one]);
    BrokenFirstRun(cfg, o, s, one);
    UnsearchedRun(cfg, o, t1, two);
    var t := RunLoop(cfg, t1, [two]);
    assert LastIndex(Site("log", 0), t.stores[0]) < 2 <= LastIndex(Site("log", 0), t.stores[1]);
  }

  lemma OnePass(cfg: Config, s: State, pass: Pass)
    requires s.phase.Down?
    ensures RunLoop(cfg, s, [pass]) == Stop(Iterate(cfg, Loaded(cfg, s), pass))
  {
    var t := Iterate(cfg, Loaded(cfg, s), pass);
    assert [pass][0] == pass && [pass][1..] == [];
    assert Iterations(cfg, t, []) == t;
  }

  // ----- presets and oversized heads

  /** From a stored checkpoint, the first iteration of a run searches what it has to, notifies and stores the head. */
  predicate FullPass(cfg: Config, s: State, pass: Pass, cur: LogInfo) {
    && s.phase.Down? && s.file.Saved?
    && var prev := Previous(Seen(s.file, pass.tick.seen));
       && Checks(cfg, Loaded(cfg, s), pass.tick) == Passed(prev, cur)
       && SearchGoes(cfg, AfterCheck(cfg, Loaded(cfg, s), prev, cur), pass)
       && ShouldWrite(cfg.version, cur.head, prev) && pass.tick.write == Complete
  }

  function FirstIteration(cfg: Config, s: State, pass: Pass): State {
    Iterate(cfg, Loaded(cfg, s), pass)
  }

  /** Both ends of the range are known: from a preset, or from the stored checkpoint if the check could see it, and
      from a preset or a head within int64. */
  predicate RangeKnown(cfg: Config, site: Site, seen: bool, head: Checkpoint) {
    (cfg.startIndex.Some? || seen) && (cfg.endIndex.Some? || Fits(site, head))
  }

  /** The range such an iteration searches when it does. */
  function PresetScan(cfg: Config, site: Site, stored: Checkpoint, head: Checkpoint): Scan {
    Scan(if cfg.startIndex.Some? then cfg.startIndex.value else LastIndex(site, stored),
         if cfg.endIndex.Some? then cfg.endIndex.value else LastIndex(site, head))
  }

  lemma FullWriteEnds(cfg: Config, s: State, prev: Option<Checkpoint>, cur: LogInfo, inputEnd: Option<int>, pass: Pass)
    requires SearchGoes(cfg, s, pass) && ShouldWrite(cfg.version, cur.head, prev) && pass.tick.write == Complete
    requires MonitoredValuesExist(cfg.values)
    ensures var t := AfterPassedCheck(cfg, s, prev, cur, inputEnd, pass);
            && t.file == cfg.disk.whole(cur.head) && t.stores == s.stores + Held(t.file)
            && t.scans == if Searching(cfg, s) then s.scans + [Range(s)] else s.scans
  {
  }

  lemma FullPassEnds(cfg: Config, site: Site, s: State, pass: Pass, cur: LogInfo)
    requires Setting(cfg, site) && FileIsLastStore(cfg, site, s) && HeadInv(cfg, site, cur)
    requires FullPass(cfg, s, pass, cur) && Fits(site, s.file.checkpoint)
    ensures var t := FirstIteration(cfg, s, pass);
            && t.file == Saved(cur.head) && t.stores == s.stores + [cur.head]
            && t.scans ==
               if RangeKnown(cfg, site, pass.tick.seen, cur.head)
               then s.scans + [PresetScan(cfg, site, s.file.checkpoint, cur.head)]
               else s.scans
  {
    IndexBounds(cfg, site, cur, cur.head.size);
    IndexBounds(cfg, site, cur, s.file.checkpoint.size);
    var prev := Previous(Seen(s.file, pass.tick.seen));
    var s1 := AfterCheck(cfg, Loaded(cfg, s), prev, cur);
    var scan := PresetScan(cfg, site, s.file.checkpoint, cur.head);
    assert s1.start == if cfg.startIndex.Some? || pass.tick.seen then Some(scan.start) else None;
    assert s1.end == if cfg.endIndex.Some? || Fits(site, cur.head) then Some(scan.end) else None;
    FullWriteEnds(cfg, s1, prev, cur, cfg.endIndex, pass);
  }

  /** One more store without a search: coverage holds if and only if the head was within the mark. */
  lemma NoMoreScan(cfg: Config, site: Site, s: State, t: State, head: Checkpoint)
    requires Inv(cfg, site, s) && s.stores != [] && t.scans == s.scans && t.stores == s.stores + [head]
    ensures Covered(site, t) <==> LastIndex(site, head) <= MarkOf(cfg, site, s)
  {
    MarkBounds(cfg, site, s.scans, s.stores);
    assert t.stores[0] == s.stores[0] && t.stores[|t.stores| - 1] == head;
    if LastIndex(site, head) > MarkOf(cfg, site, s) {
      assert !Delivered(t.scans, LastIndex(site, head));
    }
  }

  /** After one more search and store, coverage holds if and only if the search, or what came before it, reaches
      the stored head without a gap. */
  lemma OneMoreScan(cfg: Config, site: Site, s: State, t: State, scan: Scan, head: Checkpoint)
    requires Inv(cfg, site, s) && s.stores != []
    requires t.scans == s.scans + [scan] && t.stores == s.stores + [head]
    ensures Covered(site, t) <==>
            || LastIndex(site, head) <= MarkOf(cfg, site, s)
            || (scan.start <= MarkOf(cfg, site, s) && LastIndex(site, head) <= scan.end)
  {
    var mark, last := MarkOf(cfg, site, s), LastIndex(site, head);
    MarkBounds(cfg, site, s.scans, s.stores);
    assert t.stores[0] == s.stores[0] && t.stores[|t.stores| - 1] == head;
    forall i | LastIndex(site, s.stores[0]) < i
      ensures Delivered(t.scans, i) <==> i <= mark || scan.start < i <= scan.end
    {
      DeliveredAfterScan(s.scans, scan, i);
      assert i <= mark ==> Delivered(s.scans, i);
    }
    if last > mark {
      if scan.start > mark {
        assert !Delivered(t.scans, mark + 1);
      }
      if scan.end < last {
        assert !Delivered(t.scans, last);
      }
    }
  }

  /** With presets, and whatever earlier runs searched and stored, the first iteration of a run stays covered if
      and only if the head was within the mark before, or a search was made, the preset start (else the stored
      index) is within the mark and the preset end (else the head's index) is not short of the head. A search is
      made if there is a preset start or the file can be seen. */
  lemma PresetsExactly(cfg: Config, site: Site, s: State, pass: Pass, cur: LogInfo)
    requires Setting(cfg, site) && Inv(cfg, site, s) && HeadInv(cfg, site, cur) && FullPass(cfg, s, pass, cur)
    requires Fits(site, s.file.checkpoint) && Fits(site, cur.head)
    ensures FirstIteration(cfg, s, pass).file == Saved(cur.head)
    ensures Covered(site, FirstIteration(cfg, s, pass)) <==>
            || LastIndex(site, cur.head) <= MarkOf(cfg, site, s)
            || (&& (cfg.startIndex.Some? || pass.tick.seen)
                && (cfg.startIndex.Some? ==> cfg.startIndex.value <= MarkOf(cfg, site, s))
                && (cfg.endIndex.Some? ==> cfg.endIndex.value >= LastIndex(site, cur.head)))
  {
    FullPassEnds(cfg, site, s, pass, cur);
    MarkBounds(cfg, site, s.scans, s.stores);
    if RangeKnown(cfg, site, pass.tick.seen, cur.head) {
      var scan := PresetScan(cfg, site, s.file.checkpoint, cur.head);
      OneMoreScan(cfg, site, s, FirstIteration(cfg, s, pass), scan, cur.head);
    } else {
      NoMoreScan(cfg, site, s, FirstIteration(cfg, s, pass), cur.head);
    }
  }

  /** A v2 head past int64 has no end index: nothing is searched, yet the head is stored. Without presets the
      iteration stays covered if and only if the head was within the mark before, or its size is an int64 and the
      file could be seen. */
  lemma OversizedHeadExactly(cfg: Config, site: Site, s: State, pass: Pass, cur: LogInfo)
    requires cfg.version == V2 && cfg.startIndex.None? && cfg.endIndex.None?
    requires Setting(cfg, site) && Inv(cfg, site, s) && HeadInv(cfg, site, cur) && FullPass(cfg, s, pass, cur)
    requires Fits(site, s.file.checkpoint)
    ensures FirstIteration(cfg, s, pass).file == Saved(cur.head)
    ensures Covered(site, FirstIteration(cfg, s, pass)) <==>
            LastIndex(site, cur.head) <= MarkOf(cfg, site, s) || (cur.head.size <= MAX_INT64 && pass.tick.seen)
  {
    FullPassEnds(cfg, site, s, pass, cur);
    if Fits(site, cur.head) {
      PresetsExactly(cfg, site, s, pass, cur);
    } else {
      NoMoreScan(cfg, site, s, FirstIteration(cfg, s, pass), cur.head);
    }
  }

  /** The oversized gap, concretely: 1 is stored and the head is the first size past int64. */
  lemma OversizedGap(cfg: Config, o: Oracle, pass: Pass)
    requires cfg == Example(o) && pass.tick.reply == Announces(MAX_INT64 + 1) && pass.tick.write == Complete
    ensures Setting(cfg, Site("log", 0)) && FirstStart(cfg, Site("log", 0), OneStored())
    ensures var t := RunLoop(cfg, OneStored(), [pass]);
            && t.file == Saved(HeadOfSize(MAX_INT64 + 1)) && t.scans == []
            && !Delivered(t.scans, 1) && !Covered(Site("log", 0), t)
  {
    OnePass(cfg, OneStored(), pass);
    var t := RunLoop(cfg, OneStored(), [pass]);
    assert t.stores == [HeadOfSize(1), HeadOfSize(MAX_INT64 + 1)];
    assert LastIndex(Site("log", 0), t.stores[0]) < 1 <= LastIndex(Site("log", 0), t.stores[1]);
  }

  lemma PresetPass(cfg: Config, o: Oracle, s: State, pass: Pass)
    requires cfg == Example(o).(startIndex := Some(2)) && s == OneStored()
    requires pass.tick.reply == Announces(4) && pass.tick.write == Complete
    requires pass.result.Some? && NoticesGo(pass.tick, pass.result.value)
    ensures FullPass(cfg, s, pass, LogInfo(HeadOfSize(4), []))
  {
    var cur := LogInfo(HeadOfSize(4), []);
    var prev := Previous(Seen(s.file, pass.tick.seen));
    assert Checks(cfg, Loaded(cfg, s), pass.tick) == Passed(prev, cur);
    var s1 := AfterCheck(cfg, Loaded(cfg, s), prev, cur);
    assert s1.start == Some(2) && s1.end == Some(3);
  }

  lemma PresetGapEnds(cfg: Config, o: Oracle, s: State, pass: Pass)
    requires cfg == Example(o).(startIndex := Some(2)) && s == OneStored()
    requires pass.tick.reply == Announces(4) && pass.tick.write == Complete
    requires pass.result.Some? && NoticesGo(pass.tick, pass.result.value)
    ensures var t := FirstIteration(cfg, s, pass);
            t.file == Saved(HeadOfSize(4)) && t.stores == [HeadOfSize(1), HeadOfSize(4)] && t.scans == [Scan(2, 3)]
  {
    PresetPass(cfg, o, s, pass);
    FullPassEnds(cfg, Site("log", 0), s, pass, LogInfo(HeadOfSize(4), []));
  }

  /** A preset gap, concretely: 1 is stored, the preset start is 2, the head is 4. The file says 4 after a run in
      which indices 1 and 2 were not searched. */
  lemma PresetGap(cfg: Config, o: Oracle, s: State, pass: Pass)
    requires cfg == Example(o).(startIndex := Some(2)) && s == OneStored()
    requires pass.tick.reply == Announces(4) && pass.tick.write == Complete
    requires pass.result.Some? && NoticesGo(pass.tick, pass.result.value)
    ensures Setting(cfg, Site("log", 0)) && FirstStart(cfg, Site("log", 0), s)
    ensures var t := RunLoop(cfg, s, [pass]);
            && t.file == Saved(HeadOfSize(4)) && t.stores == [HeadOfSize(1), HeadOfSize(4)] && t.scans == [Scan(2, 3)]
            && !Delivered(t.scans, 1) && !Delivered(t.scans, 2) && !Covered(Site("log", 0), t)
  {
    OnePass(cfg, s, pass);
    PresetGapEnds(cfg, o, s, pass);
    var t := RunLoop(cfg, s, [pass]);
    assert LastIndex(Site("log", 0), t.stores[0]) < 1 <= LastIndex(Site("log", 0), t.stores[1]);
  }
}
