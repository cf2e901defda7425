/** A preset start index in a process that begins with an empty file: when everything between it and the first
    checkpoint that is stored is searched. */
module PresetStart {
  import opened Prelude
  import opened Consistency
  import opened CheckpointFile
  import opened IdentitySearch
  import opened MonitorProtocol
  import opened Coverage
  import opened Incremental

  /** The head of the first check that passes with an empty file. */
  function FirstHead(cfg: Config, es: seq<Event>): Option<Checkpoint> {
    if es == [] then None
    else if es[0].RunCheck? && Check(cfg.version, cfg.accepts, Empty, es[0].reply).Passed?
    then Some(Check(cfg.version, cfg.accepts, Empty, es[0].reply).cur.head)
    else FirstHead(cfg, es[1..])
  }

  /** Every index after `start`, through `last`, was searched and notified. */
  ghost predicate SearchedTo(start: int, last: int, scans: seq<Scan>) {
    start <= last && forall i :: start < i <= last ==> Delivered(scans, i)
  }

  ghost predicate PresetSetting(cfg: Config, site: Site) {
    && Setting(cfg, site) && cfg.startIndex.Some? && cfg.endIndex.None?
    && forall c, d :: Ordered(cfg.accepts, c, d)
  }

  // ----- the range between the preset start and the first store is searched

  ghost predicate ReachedFrom(cfg: Config, s: State)
    requires cfg.startIndex.Some?
  {
    s.start.Some? && SearchedTo(cfg.startIndex.value, s.start.value, s.scans)
  }

  /** No store yet; what lies between the preset start and the current one is searched. In v2 the first check has
      passed, with a head that has an index. */
  ghost predicate Reaching(cfg: Config, site: Site, s: State)
    requires cfg.startIndex.Some?
  {
    && s.stores == []
    && match s.phase
       case Down => true
       case Ready => cfg.version == V1 && s.file.Empty? && s.end.None? && ReachedFrom(cfg, s)
       case Checked(prev, cur, _) =>
         && prev.None? && HeadInv(cfg, site, cur) && ReachedFrom(cfg, s)
         && s.file.Empty? && s.end == Some(LastIndex(site, cur.head)) && (cfg.version == V2 ==> cur.head.size > 0)
       case Searched(prev, cur, _, _, _, _) =>
         && prev.None? && HeadInv(cfg, site, cur) && ReachedFrom(cfg, s)
         && s.file.Empty? && s.end == Some(LastIndex(site, cur.head)) && (cfg.version == V2 ==> cur.head.size > 0)
         && s.start.value <= s.end.value
       case HandedOver(prev, cur, _) =>
         && prev.None? && HeadInv(cfg, site, cur) && s.file.Empty? && s.end.None? && ReachedFrom(cfg, s)
         && s.start.value == LastIndex(site, cur.head) && (cfg.version == V2 ==> cur.head.size > 0)
       case Writing(cur, _) =>
         && HeadInv(cfg, site, cur) && s.end.None? && ReachedFrom(cfg, s)
         && s.start.value == LastIndex(site, cur.head)
       case Written(_, _) => cfg.version == V1 && s.file.Empty? && s.end.None? && ReachedFrom(cfg, s)
  }

  ghost predicate Reached(cfg: Config, site: Site, s: State)
    requires cfg.startIndex.Some?
  {
    if s.stores == [] then Reaching(cfg, site, s)
    else forall i :: cfg.startIndex.value < i <= LastIndex(site, s.stores[0]) ==> Delivered(s.scans, i)
  }

  lemma HandOverReaches(cfg: Config, site: Site, s: State, t: State)
    requires PresetSetting(cfg, site) && Reaching(cfg, site, s) && Step(cfg, s, HandOver) == Some(t)
    ensures Reaching(cfg, site, t)
  {
    var scan := Range(s);
    forall i | cfg.startIndex.value < i <= scan.end
      ensures Delivered(t.scans, i)
    {
      DeliveredAfterScan(s.scans, scan, i);
    }
  }

  lemma CheckReaches(cfg: Config, site: Site, s: State, e: Event, t: State)
    requires PresetSetting(cfg, site) && cfg.version == V1 && Reaching(cfg, site, s) && s.phase.Ready?
    requires e.RunCheck? && Steady(cfg, site, e.reply) && Step(cfg, s, e) == Some(t)
    ensures Reaching(cfg, site, t)
  {
    var outcome := Check(cfg.version, cfg.accepts, Empty, e.reply);
    if outcome.Passed? {
      PassedCheck(cfg, site, Empty, e.reply);
      IndexBounds(cfg, site, outcome.cur, outcome.cur.head.size);
    }
  }

  lemma WriteReaches(cfg: Config, site: Site, s: State, e: Event, t: State)
    requires PresetSetting(cfg, site) && Reaching(cfg, site, s) && Step(cfg, s, e) == Some(t) && IsWrite(e)
    ensures Reached(cfg, site, t)
  {
    assert t.file == Empty || UnreadableOr(t.file, s.phase.cur.head);
    if t.file.Saved? {
      assert t.stores == [s.phase.cur.head];
    }
  }

  lemma ReachedStays(cfg: Config, site: Site, s: State, e: Event, t: State)
    requires cfg.startIndex.Some? && Reached(cfg, site, s) && s.stores != [] && Step(cfg, s, e) == Some(t)
    ensures Reached(cfg, site, t)
  {
    StoresGrow(cfg, s, [e], t) by {
      assert [e][0] == e && [e][1..] == [];
    }
    if t.scans != s.scans {
      forall i | cfg.startIndex.value < i <= LastIndex(site, s.stores[0])
        ensures Delivered(t.scans, i)
      {
        DeliveredAfterScan(s.scans, Range(s), i);
      }
    }
  }

  lemma StepReaches(cfg: Config, site: Site, s: State, e: Event, t: State)
    requires PresetSetting(cfg, site) && Reached(cfg, site, s) && Step(cfg, s, e) == Some(t) && e != Start
    requires e.RunCheck? ==> Steady(cfg, site, e.reply)
    ensures Reached(cfg, site, t)
  {
    if s.stores != [] {
      ReachedStays(cfg, site, s, e, t);
    } else if e.HandOver? {
      HandOverReaches(cfg, site, s, t);
    } else if e.RunCheck? {
      CheckReaches(cfg, site, s, e, t);
    } else if IsWrite(e) {
      WriteReaches(cfg, site, s, e, t);
    }
  }

  lemma {:induction false} ExecReaches(cfg: Config, site: Site, s: State, es: seq<Event>, t: State)
    requires PresetSetting(cfg, site) && Reached(cfg, site, s) && Exec(cfg, s, es) == Some(t)
    requires SteadyRun(cfg, site, es) && NoRestart(es)
    ensures Reached(cfg, site, t)
    decreases |es|
  {
    if es != [] {
      StepReaches(cfg, site, s, es[0], Step(cfg, s, es[0]).value);
      assert SteadyRun(cfg, site, es[1..]) by {
        assert forall k :: 0 <= k < |es| - 1 ==> es[1..][k] == es[k + 1];
      }
      ExecReaches(cfg, site, Step(cfg, s, es[0]).value, es[1..], t);
    }
  }

  // ----- the preset start is forgotten

  ghost predicate LatestHead(cfg: Config, site: Site, s: State, prev: Option<Checkpoint>, cur: LogInfo) {
    HeadInv(cfg, site, cur) && if s.stores == [] then prev.None? else cur.head.size >= s.stores[0].size
  }

  /** Nothing before the first store is searched, and nothing below it afterwards. */
  predicate Above(site: Site, s: State, start: int) {
    s.stores != [] && start >= LastIndex(site, s.stores[0])
  }

  ghost predicate Skipping(cfg: Config, site: Site, s: State) {
    && (forall k :: 0 <= k < |s.scans| ==> Above(site, s, s.scans[k].start))
    && (s.file.Saved? ==> s.stores != [] && s.file.checkpoint.size >= s.stores[0].size
                          && FromSite(cfg, site, s.file.checkpoint))
    && (s.stores != [] && !s.phase.Writing? && !s.phase.Down? ==> s.file.Saved?)
    && (forall k :: 0 <= k < |s.stores| ==> s.stores[k].size > 0)
    && match s.phase
       case Down => true
       case Ready => s.end.None? && (s.start.Some? ==> Above(site, s, s.start.value))
       case Checked(prev, cur, _) =>
         && LatestHead(cfg, site, s, prev, cur) && s.end == IndexOf(V2, [], cur.head.size)
         && (s.start.Some? && s.end.Some? ==> Above(site, s, s.start.value))
       case Searched(prev, cur, _, _, _, _) =>
         && LatestHead(cfg, site, s, prev, cur) && s.end == IndexOf(V2, [], cur.head.size)
         && s.start.Some? && s.end.Some? && Above(site, s, s.start.value)
       case HandedOver(prev, cur, _) =>
         LatestHead(cfg, site, s, prev, cur) && s.end.None? && s.start == IndexOf(V2, [], cur.head.size)
       case Writing(cur, _) =>
         && LatestHead(cfg, site, s, None, cur) && cur.head.size > 0
         && s.end.None? && s.start == IndexOf(V2, [], cur.head.size)
       case Written(_, _) => s.end.None? && (s.start.Some? ==> Above(site, s, s.start.value))
  }

  lemma CheckSkips(cfg: Config, site: Site, s: State, e: Event, t: State)
    requires PresetSetting(cfg, site) && cfg.version == V2 && Skipping(cfg, site, s) && s.phase.Ready?
    requires e.RunCheck? && e.seen && Steady(cfg, site, e.reply) && Step(cfg, s, e) == Some(t)
    ensures Skipping(cfg, site, t)
  {
    var outcome := Check(cfg.version, cfg.accepts, s.file, e.reply);
    if outcome.Passed? {
      PassedCheck(cfg, site, s.file, e.reply);
      if s.file.Saved? {
        assert Ordered(cfg.accepts, s.file.checkpoint, outcome.cur.head);
      }
    }
  }

  lemma HandOverSkips(cfg: Config, site: Site, s: State, t: State)
    requires PresetSetting(cfg, site) && cfg.version == V2 && Skipping(cfg, site, s)
    requires Step(cfg, s, HandOver) == Some(t)
    ensures Skipping(cfg, site, t)
  {
    assert t.stores == s.stores;
  }

  lemma WriteSkips(cfg: Config, site: Site, s: State, e: Event, t: State)
    requires PresetSetting(cfg, site) && cfg.version == V2 && Skipping(cfg, site, s)
    requires Step(cfg, s, e) == Some(t) && IsWrite(e)
    ensures Skipping(cfg, site, t)
  {
    var head := s.phase.cur.head;
    assert t.file == Empty || UnreadableOr(t.file, head);
    if t.file.Saved? {
      assert t.stores == s.stores + [head];
      assert t.stores[0] == if s.stores == [] then head else s.stores[0];
    } else {
      assert t.stores == s.stores;
    }
  }

  lemma OtherSkips(cfg: Config, site: Site, s: State, e: Event, t: State)
    requires PresetSetting(cfg, site) && cfg.version == V2 && Skipping(cfg, site, s)
    requires Step(cfg, s, e) == Some(t) && !e.RunCheck? && !e.HandOver? && !IsWrite(e) && e != Start
    ensures Skipping(cfg, site, t)
  {
    assert t.scans == s.scans && t.stores == s.stores;
  }

  lemma StepSkips(cfg: Config, site: Site, s: State, e: Event, t: State)
    requires PresetSetting(cfg, site) && cfg.version == V2 && Skipping(cfg, site, s) && Step(cfg, s, e) == Some(t)
    requires e != Start && (e.RunCheck? ==> e.seen && Steady(cfg, site, e.reply))
    ensures Skipping(cfg, site, t)
  {
    if e.RunCheck? {
      CheckSkips(cfg, site, s, e, t);
    } else if e.HandOver? {
      HandOverSkips(cfg, site, s, t);
    } else if IsWrite(e) {
      WriteSkips(cfg, site, s, e, t);
    } else {
      OtherSkips(cfg, site, s, e, t);
    }
  }

  lemma {:induction false} ExecSkips(cfg: Config, site: Site, s: State, es: seq<Event>, t: State)
    requires PresetSetting(cfg, site) && cfg.version == V2 && Skipping(cfg, site, s) && Exec(cfg, s, es) == Some(t)
    requires SteadyRun(cfg, site, es) && AllSeen(es) && NoRestart(es)
    ensures Skipping(cfg, site, t)
    decreases |es|
  {
    if es != [] {
      StepSkips(cfg, site, s, es[0], Step(cfg, s, es[0]).value);
      assert SteadyRun(cfg, site, es[1..]) && AllSeen(es[1..]) by {
        assert forall k :: 0 <= k < |es| - 1 ==> es[1..][k] == es[k + 1];
      }
      ExecSkips(cfg, site, Step(cfg, s, es[0]).value, es[1..], t);
    }
  }

  // ----- which of the two it is

  /** The process has started from an empty file, and no check has passed yet. */
  predicate Undecided(cfg: Config, s: State) {
    s.phase.Ready? && s.file.Empty? && s.stores == [] && s.scans == [] && s.start == cfg.startIndex && s.end.None?
  }

  /** A first head that the preset start survives: any in v1, one with an index in v2. */
  predicate HeadKeepsStart(cfg: Config, head: Checkpoint) {
    cfg.version == V1 || 0 < head.size <= MAX_INT64
  }

  lemma FirstCheckDecides(cfg: Config, site: Site, s: State, e: Event, t: State)
    requires PresetSetting(cfg, site) && Undecided(cfg, s) && Step(cfg, s, e) == Some(t)
    requires e.RunCheck? && Steady(cfg, site, e.reply)
    requires Check(cfg.version, cfg.accepts, Empty, e.reply).Passed?
    ensures var head := Check(cfg.version, cfg.accepts, Empty, e.reply).cur.head;
            if HeadKeepsStart(cfg, head) then Reached(cfg, site, t) else Skipping(cfg, site, t)
  {
    var outcome := Check(cfg.version, cfg.accepts, Empty, e.reply);
    PassedCheck(cfg, site, Empty, e.reply);
    IndexBounds(cfg, site, outcome.cur, outcome.cur.head.size);
  }

  lemma UndecidedStays(cfg: Config, s: State, e: Event, t: State)
    requires Undecided(cfg, s) && Step(cfg, s, e) == Some(t) && e != Start
    requires e.RunCheck? ==> !Check(cfg.version, cfg.accepts, Empty, e.reply).Passed?
    ensures t == s || t == Stop(s)
  {
  }

  lemma {:induction false} StoppedStays(cfg: Config, s: State, es: seq<Event>, t: State)
    requires s.phase.Down? && Exec(cfg, s, es) == Some(t) && NoRestart(es)
    ensures t == s
    decreases |es|
  {
  }

  lemma {:induction false} FirstHeadDecides(cfg: Config, site: Site, s: State, es: seq<Event>, t: State)
    requires PresetSetting(cfg, site) && Undecided(cfg, s) && Exec(cfg, s, es) == Some(t) && t.stores != []
    requires SteadyRun(cfg, site, es) && AllSeen(es) && NoRestart(es)
    ensures FirstHead(cfg, es).Some?
    ensures if HeadKeepsStart(cfg, FirstHead(cfg, es).value) then Reached(cfg, site, t)
            else cfg.version == V2 && Skipping(cfg, site, t)
    decreases |es|
  {
    var u := Step(cfg, s, es[0]).value;
    assert SteadyRun(cfg, site, es[1..]) && AllSeen(es[1..]) by {
      assert forall k :: 0 <= k < |es| - 1 ==> es[1..][k] == es[k + 1];
    }
    if es[0].RunCheck? && Check(cfg.version, cfg.accepts, Empty, es[0].reply).Passed? {
      FirstCheckDecides(cfg, site, s, es[0], u);
      if HeadKeepsStart(cfg, FirstHead(cfg, es).value) {
        ExecReaches(cfg, site, u, es[1..], t);
      } else {
        ExecSkips(cfg, site, u, es[1..], t);
      }
    } else {
      UndecidedStays(cfg, s, es[0], u);
      if u.phase.Down? {
        StoppedStays(cfg, u, es[1..], t);
      } else {
        FirstHeadDecides(cfg, site, s, es[1..], t);
      }
    }
  }

  /** One process, from an empty file, with a preset start, whatever checks fail in between: everything after the
      preset start, through the first stored checkpoint's last index, is searched if and only if there is nothing
      in between, or the first head that a passed check hands on has an end index. That is always so in v1. In v2 an
      empty head overwrites the preset start with its missing end index, and an oversized one has none either. */
  lemma PresetStartExactly(cfg: Config, site: Site, s: State, es: seq<Event>, t: State)
    requires PresetSetting(cfg, site) && Initial(s) && s.file.Empty?
    requires Exec(cfg, s, [Start] + es) == Some(t) && t.stores != []
    requires SteadyRun(cfg, site, es) && AllSeen(es) && NoRestart(es)
    ensures FirstHead(cfg, es).Some?
    ensures var last := LastIndex(site, t.stores[0]);
            (forall i :: cfg.startIndex.value < i <= last ==> Delivered(t.scans, i))
            <==> last <= cfg.startIndex.value || HeadKeepsStart(cfg, FirstHead(cfg, es).value)
  {
    var u := Step(cfg, s, Start).value;
    ExecCons(cfg, s, Start, es);
    FirstHeadDecides(cfg, site, u, es, t);
    var last := LastIndex(site, t.stores[0]);
    if !HeadKeepsStart(cfg, FirstHead(cfg, es).value) && cfg.startIndex.value < last {
      assert forall k :: 0 <= k < |t.scans| ==> Above(site, t, t.scans[k].start);
      assert !Delivered(t.scans, last);
    }
  }
}
