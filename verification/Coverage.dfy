/** Coverage: which indices between the first stored checkpoint and the current one are searched, in any run. */
module Coverage {
  import opened Prelude
  import opened Consistency
  import opened CheckpointFile
  import opened IdentitySearch
  import opened MonitorProtocol

  /** The one shard that is watched: its origin, and the entries in the shards before it (0 in v2). */
  datatype Site = Site(origin: string, inactive: int)

  function LastIndex(site: Site, c: Checkpoint): int {
    c.size + site.inactive - 1
  }

  /** The last index is an int64. */
  predicate Fits(site: Site, c: Checkpoint) {
    c.size + site.inactive <= MAX_INT64
  }

  /** A head of the watched shard that the file can carry. In v2 it may be larger than int64. */
  ghost predicate FromSite(cfg: Config, site: Site, c: Checkpoint) {
    && Framed(cfg.disk, c)
    && (cfg.version == V1 ==> Fits(site, c))
    && (cfg.version == V2 ==> c.origin == site.origin)
  }

  /** The head that a passed check would hand on. */
  function HeadOf(reply: Reply): Option<Checkpoint> {
    match reply
    case Unavailable => None
    case LogInfoReply(info) => Some(info.head)
    case ShardsReply(shards, latest) => if latest in shards then shards[latest] else None
  }

  /** The answers come from the watched shard; they may fail or be refused by the check. */
  ghost predicate Steady(cfg: Config, site: Site, reply: Reply) {
    && (HeadOf(reply).Some? ==> FromSite(cfg, site, HeadOf(reply).value))
    && (reply.LogInfoReply? ==> SumSizes(reply.info.inactive) == site.inactive)
    && (reply.ShardsReply? ==> reply.latest == site.origin)
  }

  ghost predicate SteadyRun(cfg: Config, site: Site, es: seq<Event>) {
    forall k :: 0 <= k < |es| && es[k].RunCheck? ==> Steady(cfg, site, es[k].reply)
  }

  /** No head is larger than int64. */
  predicate FitRun(site: Site, es: seq<Event>) {
    forall k :: 0 <= k < |es| && es[k].RunCheck? && HeadOf(es[k].reply).Some? ==> Fits(site, HeadOf(es[k].reply).value)
  }

  /** Something is monitored, and v2 has no shards before the watched one. */
  predicate Setting(cfg: Config, site: Site) {
    && !(cfg.values.certIdentities == [] && cfg.values.fingerprints == [] && cfg.values.subjects == []
         && cfg.values.oidMatchers == [])
    && 0 <= site.inactive && (cfg.version == V2 ==> site.inactive == 0)
  }

  /** A preset start is not past the first stored checkpoint. */
  predicate PresetFits(cfg: Config, site: Site, stores: seq<Checkpoint>) {
    cfg.startIndex.Some? && stores != [] ==> cfg.startIndex.value <= LastIndex(site, stores[0])
  }

  // ----- the highest index searched or stored so far

  function Max(a: int, b: int): int {
    if a < b then b else a
  }

  function HighestEnd(scans: seq<Scan>, low: int): int {
    if scans == [] then low else Max(HighestEnd(scans[..|scans| - 1], low), scans[|scans| - 1].end)
  }

  function HighestStore(site: Site, stores: seq<Checkpoint>, low: int): int {
    if stores == [] then low
    else Max(HighestStore(site, stores[..|stores| - 1], low), LastIndex(site, stores[|stores| - 1]))
  }

  /** Where coverage begins: at the first stored checkpoint, and before there is one at the shard's start or the
      preset start, whichever is later. */
  function Base(cfg: Config, site: Site, stores: seq<Checkpoint>): int {
    if stores != [] then LastIndex(site, stores[0])
    else if cfg.startIndex.Some? then Max(cfg.startIndex.value, site.inactive - 1)
    else site.inactive - 1
  }

  function Mark(cfg: Config, site: Site, scans: seq<Scan>, stores: seq<Checkpoint>): int {
    Max(HighestEnd(scans, Base(cfg, site, stores)), HighestStore(site, stores, Base(cfg, site, stores)))
  }

  lemma {:induction false} HighestEndBounds(scans: seq<Scan>, low: int)
    ensures low <= HighestEnd(scans, low)
    ensures forall k :: 0 <= k < |scans| ==> scans[k].end <= HighestEnd(scans, low)
    ensures forall x :: low <= x ==> HighestEnd(scans, x) == Max(x, HighestEnd(scans, low))
    decreases |scans|
  {
    if scans != [] {
      HighestEndBounds(scans[..|scans| - 1], low);
    }
  }

  lemma {:induction false} HighestStoreBounds(site: Site, stores: seq<Checkpoint>, low: int)
    ensures low <= HighestStore(site, stores, low)
    ensures forall k :: 0 <= k < |stores| ==> LastIndex(site, stores[k]) <= HighestStore(site, stores, low)
    decreases |stores|
  {
    if stores != [] {
      HighestStoreBounds(site, stores[..|stores| - 1], low);
    }
  }

  lemma MarkBounds(cfg: Config, site: Site, scans: seq<Scan>, stores: seq<Checkpoint>)
    ensures Base(cfg, site, stores) <= Mark(cfg, site, scans, stores)
    ensures forall k :: 0 <= k < |scans| ==> scans[k].end <= Mark(cfg, site, scans, stores)
    ensures forall k :: 0 <= k < |stores| ==> LastIndex(site, stores[k]) <= Mark(cfg, site, scans, stores)
  {
    HighestEndBounds(scans, Base(cfg, site, stores));
    HighestStoreBounds(site, stores, Base(cfg, site, stores));
  }

  lemma MarkAfterScan(cfg: Config, site: Site, scans: seq<Scan>, stores: seq<Checkpoint>, scan: Scan)
    ensures Mark(cfg, site, scans + [scan], stores) == Max(Mark(cfg, site, scans, stores), scan.end)
  {
    assert (scans + [scan])[..|scans|] == scans;
  }

  lemma MarkAfterStore(cfg: Config, site: Site, scans: seq<Scan>, stores: seq<Checkpoint>, c: Checkpoint)
    requires c.size > 0 && PresetFits(cfg, site, stores + [c])
    ensures Mark(cfg, site, scans, stores + [c]) == Max(Mark(cfg, site, scans, stores), LastIndex(site, c))
  {
    assert (stores + [c])[..|stores|] == stores;
    if stores == [] {
      HighestEndBounds(scans, Base(cfg, site, []));
      assert HighestStore(site, [], LastIndex(site, c)) == LastIndex(site, c);
    }
  }

  // ----- coverage and its invariant

  /** Everything after the first stored checkpoint's last index, through the last stored one's, was searched
      and its notifications sent. */
  ghost predicate Covered(site: Site, s: State) {
    s.stores != [] ==>
      forall i :: LastIndex(site, s.stores[0]) < i <= LastIndex(site, s.stores[|s.stores| - 1]) ==>
          Delivered(s.scans, i)
  }

  /** A checkpoint that came to the file between `s` and `t`, when something had been stored before, is no
      further than what had been searched or stored by then. */
  predicate LandsWithin(cfg: Config, site: Site, s: State, t: State) {
    t.stores == s.stores || s.stores == [] || t.stores == []
    || LastIndex(site, t.stores[|t.stores| - 1]) <= Mark(cfg, site, t.scans, s.stores)
  }

  function MarkOf(cfg: Config, site: Site, s: State): int {
    Mark(cfg, site, s.scans, s.stores)
  }

  ghost predicate MarkCovered(cfg: Config, site: Site, s: State) {
    forall i :: Base(cfg, site, s.stores) < i <= MarkOf(cfg, site, s) ==> Delivered(s.scans, i)
  }

  ghost predicate FileIsLastStore(cfg: Config, site: Site, s: State) {
    && (s.file.Saved? ==> s.stores != [] && s.file.checkpoint == s.stores[|s.stores| - 1])
    && forall k :: 0 <= k < |s.stores| ==> s.stores[k].size > 0 && FromSite(cfg, site, s.stores[k])
  }

  /** No search starts below this. */
  function Lowest(cfg: Config): int {
    if cfg.startIndex.Some? && cfg.startIndex.value < -1 then cfg.startIndex.value else -1
  }

  predicate StartsBy(cfg: Config, s: State, bound: int) {
    s.start.Some? ==> Lowest(cfg) <= s.start.value <= bound
  }

  ghost predicate HeadInv(cfg: Config, site: Site, cur: LogInfo) {
    FromSite(cfg, site, cur.head) && (cfg.version == V1 ==> SumSizes(cur.inactive) == site.inactive)
  }

  ghost predicate CheckedInv(cfg: Config, site: Site, s: State, prev: Option<Checkpoint>, cur: LogInfo,
          inputEnd: Option<int>)
  {
    && AsRead(s.file, prev) && HeadInv(cfg, site, cur)
    && StartsBy(cfg, s, MarkOf(cfg, site, s))
    && (inputEnd.None? && s.end.Some? ==> Lowest(cfg) <= s.end.value <= LastIndex(site, cur.head))
  }

  /** The process's memory: the next search starts no later than the mark, once a pending write is done. */
  ghost predicate MemoryInv(cfg: Config, site: Site, s: State) {
    var mark := MarkOf(cfg, site, s);
    match s.phase
    case Down => true
    case Ready => StartsBy(cfg, s, mark)
    case Checked(prev, cur, inputEnd) => CheckedInv(cfg, site, s, prev, cur, inputEnd)
    case Searched(prev, cur, inputEnd, _, _, _) =>
      CheckedInv(cfg, site, s, prev, cur, inputEnd) && Searching(cfg, s) && s.start.value <= s.end.value
    case HandedOver(prev, cur, inputEnd) =>
      && AsRead(s.file, prev) && HeadInv(cfg, site, cur)
      && (inputEnd.None? ==> StartsBy(cfg, s, Max(mark, LastIndex(site, cur.head))))
    case Writing(cur, inputEnd) =>
      && cur.head.size > 0 && HeadInv(cfg, site, cur)
      && (inputEnd.None? ==> StartsBy(cfg, s, Max(mark, LastIndex(site, cur.head))))
    case Written(cur, inputEnd) => inputEnd.None? ==> StartsBy(cfg, s, mark)
  }

  ghost predicate Inv(cfg: Config, site: Site, s: State) {
    && FileIsLastStore(cfg, site, s) && MarkCovered(cfg, site, s) && MemoryInv(cfg, site, s)
  }

  lemma InvCovers(cfg: Config, site: Site, s: State)
    requires Inv(cfg, site, s)
    ensures Covered(site, s)
  {
    MarkBounds(cfg, site, s.scans, s.stores);
  }

  lemma DeliveredAfterScan(scans: seq<Scan>, scan: Scan, i: int)
    ensures Delivered(scans + [scan], i) <==> Delivered(scans, i) || scan.start < i <= scan.end
  {
    var all := scans + [scan];
    assert all[|scans|] == scan;
    if Delivered(scans, i) {
      var k :| 0 <= k < |scans| && scans[k].start < i <= scans[k].end;
      assert all[k] == scans[k];
    }
  }

  /** A search that starts at or before the mark moves the mark without leaving a gap. */
  lemma ScanKeepsMark(cfg: Config, site: Site, s: State, t: State, scan: Scan)
    requires MarkCovered(cfg, site, s) && scan.start <= MarkOf(cfg, site, s)
    requires t.scans == s.scans + [scan] && t.stores == s.stores
    ensures MarkCovered(cfg, site, t) && MarkOf(cfg, site, t) == Max(MarkOf(cfg, site, s), scan.end)
  {
    MarkAfterScan(cfg, site, s.scans, s.stores, scan);
    forall i | Base(cfg, site, s.stores) < i <= MarkOf(cfg, site, t)
      ensures Delivered(t.scans, i)
    {
      DeliveredAfterScan(s.scans, scan, i);
    }
  }

  /** A checkpoint stored within the mark keeps everything covered; one stored past it leaves its own last
      index unsearched. */
  lemma StoreKeepsMark(cfg: Config, site: Site, s: State, t: State, c: Checkpoint)
    requires MarkCovered(cfg, site, s) && c.size > 0
    requires t.scans == s.scans && t.stores == s.stores + [c] && PresetFits(cfg, site, t.stores)
    ensures LandsWithin(cfg, site, s, t) ==>
              MarkCovered(cfg, site, t) && MarkOf(cfg, site, t) == Max(MarkOf(cfg, site, s), LastIndex(site, c))
    ensures !LandsWithin(cfg, site, s, t) ==> !Covered(site, t)
  {
    MarkAfterStore(cfg, site, s.scans, s.stores, c);
    MarkBounds(cfg, site, s.scans, s.stores);
    if !LandsWithin(cfg, site, s, t) {
      assert t.stores[0] == s.stores[0] && t.stores[|t.stores| - 1] == c;
      assert !Delivered(t.scans, LastIndex(site, c));
    }
  }

  // ----- every step keeps the invariant, unless it stores a checkpoint past the mark

  lemma IndexBounds(cfg: Config, site: Site, cur: LogInfo, size: nat)
    requires Setting(cfg, site) && HeadInv(cfg, site, cur)
    requires cfg.version == V1 ==> size + site.inactive <= MAX_INT64
    ensures var index := IndexOf(cfg.version, cur.inactive, size);
            && (index.Some? ==> index.value == size + site.inactive - 1 >= -1)
            && (size > 0 && size + site.inactive <= MAX_INT64 ==> index.Some?)
  {
  }

  lemma PassedCheck(cfg: Config, site: Site, file: Stored, reply: Reply)
    requires Steady(cfg, site, reply) && Check(cfg.version, cfg.accepts, file, reply).Passed?
    ensures var outcome := Check(cfg.version, cfg.accepts, file, reply);
            && HeadOf(reply) == Some(outcome.cur.head)
            && !file.Torn? && outcome.prev == Previous(file) && HeadInv(cfg, site, outcome.cur)
            && (file.Saved? && cfg.version == V1 ==> cfg.accepts(file.checkpoint, outcome.cur.head))
            && (file.Saved? && cfg.version == V2 && file.checkpoint.origin == site.origin ==>
                  cfg.accepts(file.checkpoint, outcome.cur.head))
  {
  }

  lemma CheckedAfterCheck(cfg: Config, site: Site, s: State, prev: Option<Checkpoint>, cur: LogInfo)
    requires Setting(cfg, site) && FileIsLastStore(cfg, site, s) && StartsBy(cfg, s, MarkOf(cfg, site, s))
    requires AsRead(s.file, prev) && HeadInv(cfg, site, cur)
    ensures var t := s.(phase := Checked(prev, cur, s.end),
                        start := StartFor(cfg, s, prev, cur), end := EndFor(cfg, s, cur));
            CheckedInv(cfg, site, t, prev, cur, s.end)
  {
    IndexBounds(cfg, site, cur, cur.head.size);
    if s.file.Saved? {
      IndexBounds(cfg, site, cur, s.file.checkpoint.size);
      MarkBounds(cfg, site, s.scans, s.stores);
    }
  }

  lemma CheckKeepsInv(cfg: Config, site: Site, s: State, reply: Reply, seen: bool)
    requires Setting(cfg, site) && Inv(cfg, site, s) && s.phase.Ready? && Steady(cfg, site, reply)
    ensures Inv(cfg, site, Step(cfg, s, RunCheck(reply, seen)).value)
  {
    var outcome := Check(cfg.version, cfg.accepts, Seen(s.file, seen), reply);
    if outcome.Passed? {
      PassedCheck(cfg, site, Seen(s.file, seen), reply);
      CheckedAfterCheck(cfg, site, s, outcome.prev, outcome.cur);
    }
  }

  lemma HandOverKeepsInv(cfg: Config, site: Site, s: State)
    requires Setting(cfg, site) && Inv(cfg, site, s) && Step(cfg, s, HandOver).Some?
    ensures Inv(cfg, site, Step(cfg, s, HandOver).value)
  {
    var t := Step(cfg, s, HandOver).value;
    if s.phase.Searched? {
      ScanKeepsMark(cfg, site, s, t, Range(s));
    }
  }

  lemma SkipKeepsInv(cfg: Config, site: Site, s: State)
    requires Setting(cfg, site) && Inv(cfg, site, s) && Step(cfg, s, SkipWrite).Some?
    ensures Inv(cfg, site, Step(cfg, s, SkipWrite).value)
  {
    MarkBounds(cfg, site, s.scans, s.stores);
    if s.stores != [] {
      assert LastIndex(site, s.stores[0]) >= site.inactive;
    }
  }

  /** A write of the head, whole or broken off, leaves the file empty, unreadable or holding that head. */
  lemma WriteLands(cfg: Config, site: Site, s: State, file: Stored, t: State)
    requires Setting(cfg, site) && Inv(cfg, site, s) && s.phase.Writing?
    requires file == Empty || UnreadableOr(file, s.phase.cur.head)
    requires t == Stop(Landed(s, file))
             || (file.Saved? && t == Landed(s, file).(phase := Written(s.phase.cur, s.phase.inputEnd)))
    requires PresetFits(cfg, site, t.stores)
    ensures LandsWithin(cfg, site, s, t) ==> Inv(cfg, site, t)
    ensures !LandsWithin(cfg, site, s, t) ==> !Covered(site, t)
  {
    if file.Saved? {
      StoreKeepsMark(cfg, site, s, t, s.phase.cur.head);
    } else {
      assert t.stores == s.stores;
    }
  }

  lemma QuietKeepsInv(cfg: Config, site: Site, s: State, e: Event, t: State)
    requires Setting(cfg, site) && Inv(cfg, site, s) && Step(cfg, s, e) == Some(t) && Quiet(e)
    requires PresetFits(cfg, site, s.stores)
    ensures Inv(cfg, site, t)
  {
    QuietStep(cfg, s, e, t);
    if e.Start? {
      MarkBounds(cfg, site, s.scans, s.stores);
    }
  }

  lemma StepKeepsInv(cfg: Config, site: Site, s: State, e: Event, t: State)
    requires Setting(cfg, site) && Inv(cfg, site, s) && Step(cfg, s, e) == Some(t)
    requires e.RunCheck? ==> Steady(cfg, site, e.reply)
    requires PresetFits(cfg, site, t.stores)
    ensures LandsWithin(cfg, site, s, t) ==> Inv(cfg, site, t)
    ensures !LandsWithin(cfg, site, s, t) ==> !Covered(site, t)
  {
    if Quiet(e) {
      QuietStep(cfg, s, e, t);
      QuietKeepsInv(cfg, site, s, e, t);
    } else {
      match e
      case RunCheck(reply, seen) => CheckKeepsInv(cfg, site, s, reply, seen);
      case HandOver => HandOverKeepsInv(cfg, site, s);
      case SkipWrite => SkipKeepsInv(cfg, site, s);
      case Save => WriteLands(cfg, site, s, cfg.disk.whole(s.phase.cur.head), t);
      case BreakOff(written) => WriteLands(cfg, site, s, cfg.disk.part(s.phase.cur.head, written), t);
    }
  }

  // ----- the theorem over all runs

  ghost predicate AllCovered(cfg: Config, site: Site, s: State, es: seq<Event>)
    decreases |es|
  {
    Covered(site, s)
    && (es != [] && Step(cfg, s, es[0]).Some? ==> AllCovered(cfg, site, Step(cfg, s, es[0]).value, es[1..]))
  }

  /** Whenever a checkpoint comes to the file and it is not the first, it is no further than what was searched
      or stored before. */
  predicate AllLandWithin(cfg: Config, site: Site, s: State, es: seq<Event>)
    decreases |es|
  {
    es != [] && Step(cfg, s, es[0]).Some? ==>
      var t := Step(cfg, s, es[0]).value;
      LandsWithin(cfg, site, s, t) && AllLandWithin(cfg, site, t, es[1..])
  }

  /** Coverage over all runs: starts and stops, failed checks and searches, crashes and write errors anywhere,
      presets included. Every state of the run is covered if and only if every checkpoint lands within the mark. */
  lemma {:induction false} CoverageExactly(cfg: Config, site: Site, s: State, es: seq<Event>, t: State)
    requires Setting(cfg, site) && Inv(cfg, site, s) && Exec(cfg, s, es) == Some(t)
    requires SteadyRun(cfg, site, es) && PresetFits(cfg, site, t.stores)
    ensures AllCovered(cfg, site, s, es) <==> AllLandWithin(cfg, site, s, es)
    ensures AllLandWithin(cfg, site, s, es) ==> Inv(cfg, site, t)
    decreases |es|
  {
    InvCovers(cfg, site, s);
    if es != [] {
      var u := Step(cfg, s, es[0]).value;
      StoresGrow(cfg, u, es[1..], t);
      StepKeepsInv(cfg, site, s, es[0], u);
      if LandsWithin(cfg, site, s, u) {
        assert SteadyRun(cfg, site, es[1..]) by {
          assert forall k :: 0 <= k < |es| - 1 ==> es[1..][k] == es[k + 1];
        }
        CoverageExactly(cfg, site, u, es[1..], t);
      } else {
        assert !AllCovered(cfg, site, u, es[1..]);
      }
    }
  }

  /** What a first start may find: nothing, an unreadable file, or a non-empty checkpoint of the watched shard. */
  ghost predicate FirstStart(cfg: Config, site: Site, s: State) {
    Initial(s) && (s.file.Saved? ==> s.file.checkpoint.size > 0 && FromSite(cfg, site, s.file.checkpoint))
  }

  lemma FirstStartInv(cfg: Config, site: Site, s: State)
    requires FirstStart(cfg, site, s)
    ensures Inv(cfg, site, s)
  {
    if s.file.Saved? {
      var c := s.file.checkpoint;
      assert s.stores[..|s.stores| - 1] == [];
      assert HighestStore(site, [], LastIndex(site, c)) == LastIndex(site, c);
      assert HighestStore(site, s.stores, LastIndex(site, c)) == LastIndex(site, c);
    }
  }

  // ----- when every checkpoint lands within the mark

  ghost predicate CheckedAttached(site: Site, s: State, prev: Option<Checkpoint>, cur: LogInfo) {
    && !s.file.Torn? && prev == Previous(s.file) && Fits(site, cur.head)
    && (prev.Some? && cur.head.size > 0 ==> s.start.Some? && s.end == Some(LastIndex(site, cur.head)))
  }

  /** While nothing is forgotten, the file is empty only before the first store and during a write, so a head that
      replaces a stored one was searched to its end. */
  ghost predicate Attached(cfg: Config, site: Site, s: State) {
    && (s.file.Empty? && !s.phase.Writing? ==> s.stores == [])
    && (s.file.Saved? ==> Fits(site, s.file.checkpoint))
    && match s.phase
       case Ready => s.end.None?
       case Checked(prev, cur, _) => CheckedAttached(site, s, prev, cur)
       case Searched(prev, cur, _, _, _, _) => CheckedAttached(site, s, prev, cur)
       case HandedOver(prev, cur, _) =>
         && s.end.None? && !s.file.Torn? && prev == Previous(s.file) && Fits(site, cur.head)
         && (prev.Some? && cur.head.size > 0 ==> LastIndex(site, cur.head) <= MarkOf(cfg, site, s))
       case Writing(cur, _) =>
         && s.end.None? && s.file.Empty? && Fits(site, cur.head)
         && (s.stores != [] ==> LastIndex(site, cur.head) <= MarkOf(cfg, site, s))
       case Written(_, _) => s.end.None?
       case _ => true
  }

  lemma CheckAttaches(cfg: Config, site: Site, s: State, reply: Reply)
    requires Setting(cfg, site) && cfg.endIndex.None? && Inv(cfg, site, s) && Attached(cfg, site, s) && s.phase.Ready?
    requires Steady(cfg, site, reply) && (HeadOf(reply).Some? ==> Fits(site, HeadOf(reply).value))
    ensures Attached(cfg, site, Step(cfg, s, RunCheck(reply, true)).value)
  {
    var outcome := Check(cfg.version, cfg.accepts, s.file, reply);
    if outcome.Passed? {
      PassedCheck(cfg, site, s.file, reply);
      IndexBounds(cfg, site, outcome.cur, outcome.cur.head.size);
      if s.file.Saved? {
        IndexBounds(cfg, site, outcome.cur, s.file.checkpoint.size);
      }
    }
  }

  lemma HandOverAttaches(cfg: Config, site: Site, s: State)
    requires Setting(cfg, site) && Inv(cfg, site, s) && Attached(cfg, site, s) && Step(cfg, s, HandOver).Some?
    ensures Attached(cfg, site, Step(cfg, s, HandOver).value)
  {
    if s.phase.Searched? {
      ScanKeepsMark(cfg, site, s, Step(cfg, s, HandOver).value, Range(s));
    }
  }

  lemma QuietAttaches(cfg: Config, site: Site, s: State, e: Event, t: State)
    requires cfg.endIndex.None? && Inv(cfg, site, s) && Attached(cfg, site, s)
    requires Step(cfg, s, e) == Some(t) && Quiet(e)
    ensures Attached(cfg, site, t)
  {
    QuietStep(cfg, s, e, t);
  }

  lemma StepAttaches(cfg: Config, site: Site, s: State, e: Event, t: State)
    requires Setting(cfg, site) && cfg.endIndex.None? && Inv(cfg, site, s) && Attached(cfg, site, s)
    requires Step(cfg, s, e) == Some(t) && !Forgets(e)
    requires e.RunCheck? ==>
               Steady(cfg, site, e.reply) && (HeadOf(e.reply).Some? ==> Fits(site, HeadOf(e.reply).value))
    ensures LandsWithin(cfg, site, s, t) && Attached(cfg, site, t)
  {
    if Quiet(e) {
      QuietStep(cfg, s, e, t);
      QuietAttaches(cfg, site, s, e, t);
    } else if e.RunCheck? {
      CheckAttaches(cfg, site, s, e.reply);
    } else if e.HandOver? {
      HandOverAttaches(cfg, site, s);
    }
  }

  lemma FirstStartAttached(cfg: Config, site: Site, s: State)
    requires FirstStart(cfg, site, s) && (s.file.Saved? ==> Fits(site, s.file.checkpoint))
    ensures Attached(cfg, site, s)
  {
  }

  lemma {:induction false} AttachedRunLands(cfg: Config, site: Site, s: State, es: seq<Event>, t: State)
    requires Setting(cfg, site) && cfg.endIndex.None? && Inv(cfg, site, s) && Attached(cfg, site, s)
    requires Exec(cfg, s, es) == Some(t) && PresetFits(cfg, site, t.stores)
    requires SteadyRun(cfg, site, es) && FitRun(site, es) && NothingForgotten(es)
    ensures AllLandWithin(cfg, site, s, es) && Inv(cfg, site, t) && Attached(cfg, site, t)
    decreases |es|
  {
    if es != [] {
      var u := Step(cfg, s, es[0]).value;
      StoresGrow(cfg, u, es[1..], t);
      StepKeepsInv(cfg, site, s, es[0], u);
      StepAttaches(cfg, site, s, es[0], u);
      assert SteadyRun(cfg, site, es[1..]) && FitRun(site, es[1..]) && NothingForgotten(es[1..]) by {
        assert forall k :: 0 <= k < |es| - 1 ==> es[1..][k] == es[k + 1];
      }
      AttachedRunLands(cfg, site, u, es[1..], t);
    }
  }

  /** If no write breaks off before its first byte and no check fails to stat the file, every state that runs,
      crashes and restarts can reach is covered; a preset start that is not past the first stored checkpoint,
      reloaded by every run, included. */
  lemma CrashSafeCoverage(cfg: Config, site: Site, s: State, es: seq<Event>, t: State)
    requires Setting(cfg, site) && cfg.endIndex.None? && FirstStart(cfg, site, s)
    requires s.file.Saved? ==> Fits(site, s.file.checkpoint)
    requires Exec(cfg, s, es) == Some(t) && PresetFits(cfg, site, t.stores)
    requires SteadyRun(cfg, site, es) && FitRun(site, es) && NothingForgotten(es)
    ensures AllCovered(cfg, site, s, es) && Covered(site, t)
    ensures t.file.Saved? ==> t.stores != [] && t.file.checkpoint == t.stores[|t.stores| - 1]
    ensures t.file.Empty? && !t.phase.Writing? ==> t.stores == []
  {
    FirstStartInv(cfg, site, s);
    FirstStartAttached(cfg, site, s);
    AttachedRunLands(cfg, site, s, es, t);
    CoverageExactly(cfg, site, s, es, t);
    InvCovers(cfg, site, t);
  }

  // ----- the process's indices agree with the file

  predicate Ordered(accepts: Verifier, c: Checkpoint, d: Checkpoint) {
    accepts(c, d) ==> c.size <= d.size
  }

  /** No presets, and an accepted proof never leads to a smaller tree. */
  ghost predicate Plain(cfg: Config) {
    && cfg.startIndex.None? && cfg.endIndex.None?
    && forall c, d :: Ordered(cfg.accepts, c, d)
  }

  /** No check that cannot stat the file sees an empty log. */
  predicate EmptyIsSeen(e: Event) {
    e.RunCheck? && !e.seen && HeadOf(e.reply).Some? ==> HeadOf(e.reply).value.size > 0
  }

  predicate EmptiesAreSeen(es: seq<Event>) {
    forall k :: 0 <= k < |es| ==> EmptyIsSeen(es[k])
  }

  /** A search from `start` repeats no less than what came after the stored checkpoint, and exactly that if
      `exact`. */
  predicate FromStore(site: Site, file: Stored, start: int, exact: bool) {
    start >= -1
    && (file.Saved? ==> start <= LastIndex(site, file.checkpoint)
                        && (exact ==> start == LastIndex(site, file.checkpoint)))
  }

  /** Between iterations a running process continues where the file says. */
  ghost predicate Resumes(cfg: Config, site: Site, exact: bool, s: State) {
    && s.end.None?
    && (s.start.Some? ==> FromStore(site, s.file, s.start.value, exact) && (cfg.version == V2 ==> s.file.Saved?))
  }

  function EndIndex(cfg: Config, site: Site, head: Checkpoint): Option<int> {
    if cfg.version == V2 && head.size == 0 then None else Some(LastIndex(site, head))
  }

  ghost predicate CheckedAgrees(cfg: Config, site: Site, exact: bool, s: State, prev: Option<Checkpoint>, cur: LogInfo,
          inputEnd: Option<int>)
  {
    && AsRead(s.file, prev) && inputEnd.None? && Fits(site, cur.head) && HeadInv(cfg, site, cur)
    && (prev.Some? ==> prev.value.size <= cur.head.size)
    && (exact && prev.None? && cur.head.size == 0 ==> !s.file.Saved?)
  }

  ghost predicate SearchesFromFile(cfg: Config, site: Site, exact: bool, s: State, prev: Option<Checkpoint>,
          cur: LogInfo)
  {
    && s.end == EndIndex(cfg, site, cur.head)
    && (prev.Some? ==> s.start.Some?)
    && (s.start.Some? ==> FromStore(site, s.file, s.start.value, exact) && (cfg.version == V2 ==> s.file.Saved?))
  }

  ghost predicate Agrees(cfg: Config, site: Site, exact: bool, s: State) {
    && (s.file.Saved? ==> s.file.checkpoint.size > 0 && FromSite(cfg, site, s.file.checkpoint)
                          && Fits(site, s.file.checkpoint))
    && match s.phase
       case Down => true
       case Ready => Resumes(cfg, site, exact, s)
       case Checked(prev, cur, inputEnd) =>
         CheckedAgrees(cfg, site, exact, s, prev, cur, inputEnd) && SearchesFromFile(cfg, site, exact, s, prev, cur)
       case Searched(prev, cur, inputEnd, _, _, _) =>
         && CheckedAgrees(cfg, site, exact, s, prev, cur, inputEnd)
         && SearchesFromFile(cfg, site, exact, s, prev, cur) && Searching(cfg, s) && s.start.value <= s.end.value
       case HandedOver(prev, cur, inputEnd) =>
         && CheckedAgrees(cfg, site, exact, s, prev, cur, inputEnd)
         && s.end.None? && s.start == EndIndex(cfg, site, cur.head)
       case Writing(cur, inputEnd) =>
         && inputEnd.None? && cur.head.size > 0 && Fits(site, cur.head) && HeadInv(cfg, site, cur)
         && s.end.None? && s.start == Some(LastIndex(site, cur.head))
       case Written(cur, inputEnd) => inputEnd.None? && Resumes(cfg, site, exact, s)
  }

  lemma CheckKeepsAgreement(cfg: Config, site: Site, exact: bool, s: State, e: Event)
    requires Setting(cfg, site) && Plain(cfg) && Agrees(cfg, site, exact, s) && s.phase.Ready? && e.RunCheck?
    requires Steady(cfg, site, e.reply) && (HeadOf(e.reply).Some? ==> Fits(site, HeadOf(e.reply).value))
    requires exact ==> EmptyIsSeen(e)
    ensures Agrees(cfg, site, exact, Step(cfg, s, e).value)
  {
    var file := Seen(s.file, e.seen);
    var outcome := Check(cfg.version, cfg.accepts, file, e.reply);
    if outcome.Passed? {
      PassedCheck(cfg, site, file, e.reply);
      IndexBounds(cfg, site, outcome.cur, outcome.cur.head.size);
      if file.Saved? {
        IndexBounds(cfg, site, outcome.cur, file.checkpoint.size);
        assert Ordered(cfg.accepts, file.checkpoint, outcome.cur.head);
      }
    }
  }

  lemma QuietKeepsAgreement(cfg: Config, site: Site, exact: bool, s: State, e: Event)
    requires Plain(cfg) && Agrees(cfg, site, exact, s) && Step(cfg, s, e).Some? && Quiet(e)
    ensures Agrees(cfg, site, exact, Step(cfg, s, e).value)
  {
  }

  lemma HandOverKeepsAgreement(cfg: Config, site: Site, exact: bool, s: State)
    requires Setting(cfg, site) && Agrees(cfg, site, exact, s) && Step(cfg, s, HandOver).Some?
    ensures Agrees(cfg, site, exact, Step(cfg, s, HandOver).value)
  {
  }

  lemma SkipKeepsAgreement(cfg: Config, site: Site, exact: bool, s: State)
    requires Setting(cfg, site) && Agrees(cfg, site, exact, s) && Step(cfg, s, SkipWrite).Some?
    ensures Agrees(cfg, site, exact, Step(cfg, s, SkipWrite).value)
  {
  }

  lemma WriteKeepsAgreement(cfg: Config, site: Site, exact: bool, s: State, e: Event)
    requires Setting(cfg, site) && Agrees(cfg, site, exact, s) && Step(cfg, s, e).Some? && IsWrite(e)
    ensures Agrees(cfg, site, exact, Step(cfg, s, e).value)
  {
  }

  lemma StepKeepsAgreement(cfg: Config, site: Site, exact: bool, s: State, e: Event)
    requires Setting(cfg, site) && Plain(cfg) && Agrees(cfg, site, exact, s) && Step(cfg, s, e).Some?
    requires e.RunCheck? ==>
               Steady(cfg, site, e.reply) && (HeadOf(e.reply).Some? ==> Fits(site, HeadOf(e.reply).value))
    requires exact ==> EmptyIsSeen(e)
    ensures Agrees(cfg, site, exact, Step(cfg, s, e).value)
  {
    if Quiet(e) {
      QuietKeepsAgreement(cfg, site, exact, s, e);
    } else if e.RunCheck? {
      CheckKeepsAgreement(cfg, site, exact, s, e);
    } else if e.HandOver? {
      HandOverKeepsAgreement(cfg, site, exact, s);
    } else if e.SkipWrite? {
      SkipKeepsAgreement(cfg, site, exact, s);
    } else {
      WriteKeepsAgreement(cfg, site, exact, s, e);
    }
  }

  lemma {:induction false} ExecKeepsAgreement(cfg: Config, site: Site, exact: bool, s: State, es: seq<Event>, t: State)
    requires Setting(cfg, site) && Plain(cfg) && Agrees(cfg, site, exact, s) && Exec(cfg, s, es) == Some(t)
    requires SteadyRun(cfg, site, es) && FitRun(site, es) && (exact ==> EmptiesAreSeen(es))
    ensures Agrees(cfg, site, exact, t)
    decreases |es|
  {
    if es != [] {
      StepKeepsAgreement(cfg, site, exact, s, es[0]);
      assert SteadyRun(cfg, site, es[1..]) && FitRun(site, es[1..]) && (exact ==> EmptiesAreSeen(es[1..])) by {
        assert forall k :: 0 <= k < |es| - 1 ==> es[1..][k] == es[k + 1];
      }
      ExecKeepsAgreement(cfg, site, exact, Step(cfg, s, es[0]).value, es[1..], t);
    }
  }

  /** Only work done since the last store is repeated: in every run, lost writes and failing stat calls included, a
      search that is due or just made begins no later than right after the stored checkpoint's last index and ends
      at the head's. It begins exactly there unless some check could not stat the file and saw an empty log. */
  lemma SearchesStartAtStore(cfg: Config, site: Site, s: State, es: seq<Event>, t: State)
    requires Setting(cfg, site) && Plain(cfg) && FirstStart(cfg, site, s)
    requires s.file.Saved? ==> Fits(site, s.file.checkpoint)
    requires Exec(cfg, s, es) == Some(t) && SteadyRun(cfg, site, es) && FitRun(site, es)
    requires (t.phase.Checked? || t.phase.Searched?) && t.file.Saved? && Searching(cfg, t)
    ensures t.start.value <= LastIndex(site, t.file.checkpoint)
    ensures EmptiesAreSeen(es) ==> t.start.value == LastIndex(site, t.file.checkpoint)
    ensures t.end == Some(LastIndex(site, t.phase.cur.head))
    ensures t.phase.Searched? || t.phase.prev.Some? ==> t.start.value <= t.end.value
  {
    ExecKeepsAgreement(cfg, site, EmptiesAreSeen(es), s, es, t);
  }

  /** A file left unreadable is not skipped silently: as long as checks see it, no process searches, stores or sends
      anything until it is repaired. */
  lemma {:induction false} TornFileBlocks(cfg: Config, s: State, es: seq<Event>, t: State)
    requires s.file.Torn? && (s.phase.Down? || s.phase.Ready?) && Exec(cfg, s, es) == Some(t) && AllSeen(es)
    ensures t.file.Torn? && (t.phase.Down? || t.phase.Ready?) && t.scans == s.scans && t.stores == s.stores
    ensures t.sent == s.sent
    decreases |es|
  {
    if es != [] {
      assert AllSeen(es[1..]) by {
        assert forall k :: 0 <= k < |es| - 1 ==> es[1..][k] == es[k + 1];
      }
      TornFileBlocks(cfg, Step(cfg, s, es[0]).value, es[1..], t);
    }
  }
}
