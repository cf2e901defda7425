/** The monitor loop cut into its separate steps, so that a crash can fall between any two of them. */
module MonitorProtocol {
  import opened Prelude
  import opened Domain
  import opened Consistency
  import opened CheckpointFile
  import opened Matching
  import opened Grouping
  import opened IdentitySearch

  datatype Config = Config(
    version: Version,
    startIndex: Option<int>,  // presets from the configuration file
    endIndex: Option<int>,
    oracle: Oracle,
    values: MonitoredValues,
    once: bool,
    accepts: Verifier,
    disk: Disk)

  // ----- index functions

  function SumSizes(sizes: seq<int>): int {
    if sizes == [] then 0 else SumSizes(sizes[..|sizes| - 1]) + sizes[|sizes| - 1]
  }

  /** The global index of a v1 checkpoint's last entry, in wrapping int64 arithmetic. */
  function CheckpointIndex(inactive: seq<int>, size: nat): int {
    Wrap64(size + SumSizes(inactive) - 1)
  }

  lemma WrapAbsorbs(a: int, b: int)
    ensures Wrap64(Wrap64(a) + b) == Wrap64(a + b)
  {
    assert Wrap64(a) % TWO_TO_64 == a % TWO_TO_64;
    assert (Wrap64(a) + b) % TWO_TO_64 == (a + b) % TWO_TO_64;
  }

  method GetCheckpointIndex(info: LogInfo, checkpoint: Checkpoint) returns (index: int)
    ensures index == CheckpointIndex(info.inactive, checkpoint.size)
    ensures InInt64(index) && (index - (checkpoint.size + SumSizes(info.inactive) - 1)) % TWO_TO_64 == 0
  {
    var totalSize := 0;
    for k := 0 to |info.inactive|
      invariant totalSize == Wrap64(SumSizes(info.inactive[..k]))
    {
      assert info.inactive[..k + 1][..k] == info.inactive[..k];
      WrapAbsorbs(SumSizes(info.inactive[..k]), info.inactive[k]);
      totalSize := Wrap64(totalSize + info.inactive[k]);
    }
    assert info.inactive[..|info.inactive|] == info.inactive;
    ghost var sum := SumSizes(info.inactive);
    WrapAbsorbs(sum, Wrap64(checkpoint.size) - 1);
    WrapAbsorbs(checkpoint.size, sum - 1);
    index := Wrap64(Wrap64(checkpoint.size) + totalSize - 1);
  }

  /** GetStartIndex and GetEndIndex of both versions, for a checkpoint of the given size. */
  function IndexOf(version: Version, inactive: seq<int>, size: nat): Option<int> {
    match version
    case V1 => Some(CheckpointIndex(inactive, size))
    case V2 => if 0 < size <= MAX_INT64 then Some(size - 1) else None
  }

  /** The entries of all shards, one after the other. */
  function Joined<T>(shards: seq<seq<T>>): seq<T> {
    if shards == [] then [] else Joined(shards[..|shards| - 1]) + shards[|shards| - 1]
  }

  function Sizes<T>(shards: seq<seq<T>>): (r: seq<int>)
    ensures |r| == |shards|
  {
    seq(|shards|, k requires 0 <= k < |shards| => |shards[k]|)
  }

  lemma {:induction false} JoinedLength<T>(shards: seq<seq<T>>)
    ensures |Joined(shards)| == SumSizes(Sizes(shards))
    decreases |shards|
  {
    if shards != [] {
      var front := shards[..|shards| - 1];
      JoinedLength(front);
      assert Sizes(shards)[..|shards| - 1] == Sizes(front);
    }
  }

  /** What the indices mean: the entries (start, end] of the whole log, for the indices of two checkpoints of its
      active shard, are exactly what that shard gained in between. */
  lemma RangeIsGrowth<T>(version: Version, inactive: seq<seq<T>>, active: seq<T>, prev: nat, cur: nat)
    requires 0 < prev <= cur <= |active| && (version == V2 ==> inactive == [])
    requires |Joined(inactive)| + cur <= MAX_INT64
    ensures IndexOf(version, Sizes(inactive), prev).Some? && IndexOf(version, Sizes(inactive), cur).Some?
    ensures var start := IndexOf(version, Sizes(inactive), prev).value;
            var end := IndexOf(version, Sizes(inactive), cur).value;
            && 0 <= start <= end < |Joined(inactive) + active|
            && (Joined(inactive) + active)[start + 1..end + 1] == active[prev..cur]
  {
    JoinedLength(inactive);
    assert IndexOf(version, Sizes(inactive), prev) == Some(|Joined(inactive)| + prev - 1);
    assert IndexOf(version, Sizes(inactive), cur) == Some(|Joined(inactive)| + cur - 1);
    SliceOfSecond(Joined(inactive), active, prev, cur);
  }

  lemma SliceOfSecond<T>(a: seq<T>, b: seq<T>, lo: nat, hi: nat)
    requires lo <= hi <= |b|
    ensures (a + b)[|a| + lo..|a| + hi] == b[lo..hi]
  {
  }

  // ----- states and steps

  datatype Phase =
    | Down
    | Ready
    | Checked(prev: Option<Checkpoint>, cur: LogInfo, inputEnd: Option<int>)
    | Searched(prev: Option<Checkpoint>, cur: LogInfo, inputEnd: Option<int>, report: Report,
               foundDue: bool, failedDue: bool)
    | HandedOver(prev: Option<Checkpoint>, cur: LogInfo, inputEnd: Option<int>)
    | Writing(cur: LogInfo, inputEnd: Option<int>)
    | Written(cur: LogInfo, inputEnd: Option<int>)

  /** What is sent about one search: its groups, or the entries that could not be examined. */
  datatype Notice = Found(scan: Scan, groups: seq<Group>) | Unreadable(scan: Scan, failed: seq<FailedEntry>)

  /** The file survives a crash; phase, start and end are the process's memory. The last three fields are
      history: the searches whose notifications all went out, the checkpoints the file has held, and the
      notifications that went out. */
  datatype State = State(
    file: Stored,
    phase: Phase,
    start: Option<int>,
    end: Option<int>,
    scans: seq<Scan>,
    stores: seq<Checkpoint>,
    sent: seq<Notice>)

  datatype Event =
    | Start
    | RunCheck(reply: Reply, seen: bool)                          // not seen: the stat call on the file fails
    | Refuse                                                      // the range is upside down
    | Search(scan: Scan, log: seq<Body>, result: Option<Report>)  // None is a search that failed
    | NotifyFound(ok: bool)
    | NotifyFailed(ok: bool)
    | HandOver
    | SkipWrite
    | OpenFails
    | Truncate
    | Save
    | BreakOff(written: nat)  // the write fails after so many bytes, or the process dies there
    | Finish
    | Crash

  function Stop(s: State): State {
    s.(phase := Down, start := None, end := None)
  }

  function StartFor(cfg: Config, s: State, prev: Option<Checkpoint>, cur: LogInfo): Option<int> {
    if MonitoredValuesExist(cfg.values) && s.start.None? && prev.Some?
    then IndexOf(cfg.version, cur.inactive, prev.value.size) else s.start
  }

  function EndFor(cfg: Config, s: State, cur: LogInfo): Option<int> {
    if MonitoredValuesExist(cfg.values) && s.end.None?
    then IndexOf(cfg.version, cur.inactive, cur.head.size) else s.end
  }

  predicate Searching(cfg: Config, s: State) {
    MonitoredValuesExist(cfg.values) && s.start.Some? && s.end.Some?
  }

  /** The range of the search, once both ends are set. */
  function Range(s: State): Scan
    requires s.start.Some? && s.end.Some?
  {
    Scan(s.start.value, s.end.value)
  }

  function Held(file: Stored): seq<Checkpoint> {
    if file.Saved? then [file.checkpoint] else []
  }

  /** The state once the file reads as `file` after a write. */
  function Landed(s: State, file: Stored): State {
    s.(file := file, stores := s.stores + Held(file))
  }

  /** The state after one step, if the process can take that step now. */
  function Step(cfg: Config, s: State, e: Event): Option<State> {
    match (e, s.phase)
    case (Start, Down) =>
      Some(s.(phase := Ready, start := cfg.startIndex, end := cfg.endIndex))
    case (RunCheck(reply, seen), Ready) =>
      (match Check(cfg.version, cfg.accepts, Seen(s.file, seen), reply)
       case Failed => Some(if cfg.once then Stop(s) else s)
       case Panicked => Some(Stop(s))
       case Passed(prev, cur) =>
         Some(s.(phase := Checked(prev, cur, s.end), start := StartFor(cfg, s, prev, cur), end := EndFor(cfg, s, cur))))
    case (Refuse, Checked(_, _, _)) =>
      if Searching(cfg, s) && s.start.value > s.end.value then Some(Stop(s)) else None
    case (Search(scan, _, result), Checked(prev, cur, inputEnd)) =>
      if !Searching(cfg, s) || scan != Range(s) || scan.start > scan.end then None
      else (match result
        case None => Some(Stop(s))
        case Some(report) =>
          Some(s.(phase := Searched(prev, cur, inputEnd, report, report.groups != [], report.failed != []))))
    case (NotifyFound(ok), Searched(prev, cur, inputEnd, report, true, failedDue)) =>
      if !Searching(cfg, s) then None
      else if !ok then Some(Stop(s))
      else Some(s.(phase := Searched(prev, cur, inputEnd, report, false, failedDue),
                   sent := s.sent + [Found(Range(s), report.groups)]))
    case (NotifyFailed(ok), Searched(prev, cur, inputEnd, report, false, true)) =>
      if !Searching(cfg, s) then None
      else if !ok then Some(Stop(s))
      else Some(s.(phase := Searched(prev, cur, inputEnd, report, false, false),
                   sent := s.sent + [Unreadable(Range(s), report.failed)]))
    case (HandOver, Checked(prev, cur, inputEnd)) =>
      if Searching(cfg, s) then None
      else if MonitoredValuesExist(cfg.values)
      then Some(s.(phase := HandedOver(prev, cur, inputEnd), start := s.end, end := None))
      else Some(s.(phase := HandedOver(prev, cur, inputEnd)))
    case (HandOver, Searched(prev, cur, inputEnd, _, false, false)) =>
      if !Searching(cfg, s) then None
      else Some(s.(phase := HandedOver(prev, cur, inputEnd), start := s.end, end := None,
                   scans := s.scans + [Range(s)]))
    case (SkipWrite, HandedOver(prev, cur, inputEnd)) =>
      if ShouldWrite(cfg.version, cur.head, prev) then None else Some(s.(phase := Written(cur, inputEnd)))
    case (OpenFails, HandedOver(prev, cur, inputEnd)) =>
      if ShouldWrite(cfg.version, cur.head, prev) then Some(Stop(s)) else None
    case (Truncate, HandedOver(prev, cur, inputEnd)) =>
      if ShouldWrite(cfg.version, cur.head, prev)
      then Some(s.(file := Empty, phase := Writing(cur, inputEnd))) else None
    case (Save, Writing(cur, inputEnd)) =>
      Some(Landed(s, cfg.disk.whole(cur.head)).(phase := Written(cur, inputEnd)))
    case (BreakOff(written), Writing(cur, _)) =>
      Some(Stop(Landed(s, cfg.disk.part(cur.head, written))))
    case (Finish, Written(cur, inputEnd)) =>
      Some(if cfg.once || inputEnd.Some? then Stop(s) else s.(phase := Ready))
    case (Crash, _) =>
      if s.phase.Down? || s.phase.Writing? then None else Some(Stop(s))
    case _ => None
  }

  /** A step that touches neither the history of searches nor that of stores. */
  predicate Quiet(e: Event) {
    e.Start? || e.Refuse? || e.Search? || e.NotifyFound? || e.NotifyFailed? || e.OpenFails? || e.Truncate?
    || e.Finish? || e.Crash?
  }

  lemma QuietStep(cfg: Config, s: State, e: Event, t: State)
    requires Step(cfg, s, e) == Some(t) && Quiet(e)
    ensures t.scans == s.scans && t.stores == s.stores && (t.file == s.file || t.file == Empty)
  {
  }

  lemma HandOverStep(cfg: Config, s: State, t: State)
    requires Step(cfg, s, HandOver) == Some(t)
    ensures t.phase.HandedOver? && t.sent == s.sent
    ensures s.phase.Checked? ==> t.scans == s.scans
    ensures !s.phase.Checked? ==>
              && s.phase.Searched? && !s.phase.foundDue && !s.phase.failedDue && Searching(cfg, s)
              && t.scans == s.scans + [Range(s)]
  {
  }

  predicate IsWrite(e: Event) {
    e.Save? || e.BreakOff?
  }

  /** After the file is written nothing is searched or checked any more. */
  predicate WritesLast(es: seq<Event>) {
    forall j, k :: 0 <= j < k < |es| && IsWrite(es[j]) ==> Quiet(es[k])
  }

  function Exec(cfg: Config, s: State, es: seq<Event>): Option<State>
    decreases |es|
  {
    if es == [] then Some(s)
    else match Step(cfg, s, es[0])
      case None => None
      case Some(t) => Exec(cfg, t, es[1..])
  }

  lemma ExecCons(cfg: Config, s: State, e: Event, es: seq<Event>)
    ensures Exec(cfg, s, [e] + es) == match Step(cfg, s, e) case None => None case Some(t) => Exec(cfg, t, es)
  {
    assert ([e] + es)[1..] == es;
  }

  lemma {:induction false} ExecConcat(cfg: Config, s: State, es: seq<Event>, fs: seq<Event>)
    ensures Exec(cfg, s, es + fs) == match Exec(cfg, s, es) case None => None case Some(t) => Exec(cfg, t, fs)
    decreases |es|
  {
    if es == [] {
      assert es + fs == fs;
    } else {
      assert (es + fs)[1..] == es[1..] + fs;
      match Step(cfg, s, es[0])
      case None =>
      case Some(t) => ExecConcat(cfg, t, es[1..], fs);
    }
  }

  lemma {:induction false} StoresGrow(cfg: Config, s: State, es: seq<Event>, t: State)
    requires Exec(cfg, s, es) == Some(t)
    ensures s.stores <= t.stores
    decreases |es|
  {
    if es != [] {
      StoresGrow(cfg, Step(cfg, s, es[0]).value, es[1..], t);
    }
  }

  /** A search step's report is the true one for its range and for the log at that time. */
  ghost predicate Honest(cfg: Config, e: Event) {
    e.Search? && e.result.Some? && e.scan.start >= -1 ==>
      Reports(cfg.version, cfg.oracle, cfg.values, e.log, e.scan, e.result.value)
  }

  /** A fresh start: whatever the file holds is the first stored checkpoint. */
  predicate Initial(s: State) {
    s.phase.Down? && s.start.None? && s.end.None? && s.scans == [] && s.sent == [] && s.stores == Held(s.file)
  }

  /** After this the process, or the next one, does not know what was stored: the write of the file breaks off
      before its first byte, or a check cannot stat the file. */
  predicate Forgets(e: Event) {
    e == BreakOff(0) || (e.RunCheck? && !e.seen)
  }

  predicate NothingForgotten(es: seq<Event>) {
    forall k :: 0 <= k < |es| ==> !Forgets(es[k])
  }

  predicate AllSeen(es: seq<Event>) {
    forall k :: 0 <= k < |es| && es[k].RunCheck? ==> es[k].seen
  }

  /** A check hands on the stored checkpoint or, if it could not see the file, none. */
  predicate AsRead(file: Stored, prev: Option<Checkpoint>) {
    prev.None? || prev == Previous(file)
  }

  predicate Delivered(scans: seq<Scan>, i: int) {
    exists k :: 0 <= k < |scans| && scans[k].start < i <= scans[k].end
  }
}
