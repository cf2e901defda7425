/** Concrete runs in which what the design promises does not hold. */
module Gaps {
  import opened Prelude
  import opened Domain
  import opened Consistency
  import opened CheckpointFile
  import opened Matching
  import opened IdentitySearch
  import opened MonitorProtocol
  import opened Coverage
  import opened StoreChain

  // ----- a process that does not know what was stored

  /** A process stores the head it sees without searching. */
  function Rebaseline(reply: Reply, seen: bool): seq<Event> {
    [Start] + ([RunCheck(reply, seen)] + ([HandOver] + ([Truncate] + [Save])))
  }

  lemma FirstSave(cfg: Config, s: State)
    requires MonitoredValuesExist(cfg.values) && s.phase.Checked? && s.phase.prev.None? && s.start.None?
    requires s.phase.cur.head.size > 0 && cfg.disk.whole(s.phase.cur.head) == Saved(s.phase.cur.head)
    ensures Exec(cfg, s, [HandOver] + ([Truncate] + [Save])) ==
            Some(State(Saved(s.phase.cur.head), Written(s.phase.cur, s.phase.inputEnd), s.end, None,
                       s.scans, s.stores + [s.phase.cur.head], s.sent))
  {
    ExecCons(cfg, s, HandOver, [Truncate] + [Save]);
    var s1 := Step(cfg, s, HandOver).value;
    ExecCons(cfg, s1, Truncate, [Save]);
    var s2 := Step(cfg, s1, Truncate).value;
    ExecCons(cfg, s2, Save, []);
    assert [Save] + [] == [Save];
  }

  lemma NoFirstSave(cfg: Config, s: State)
    requires s.phase.Ready? || s.phase.Down? || (s.phase.Checked? && s.phase.cur.head.size == 0)
    ensures Exec(cfg, s, [HandOver] + ([Truncate] + [Save])) == None
  {
    ExecCons(cfg, s, HandOver, [Truncate] + [Save]);
    if s.phase.Checked? && Step(cfg, s, HandOver).Some? {
      ExecCons(cfg, Step(cfg, s, HandOver).value, Truncate, [Save]);
    }
  }

  /** With nothing in the file, or with a file the stat call fails on, a new process stores the head it sees and
      searches nothing, exactly when the check passes and the head is not empty. */
  lemma RebaselineEnds(cfg: Config, s: State, reply: Reply, seen: bool)
    requires MonitoredValuesExist(cfg.values) && cfg.startIndex.None? && cfg.endIndex.None?
    requires s.phase.Down? && Seen(s.file, seen) == Empty
    requires HeadOf(reply).Some? ==> Framed(cfg.disk, HeadOf(reply).value)
    ensures var outcome := Check(cfg.version, cfg.accepts, Empty, reply);
            Exec(cfg, s, Rebaseline(reply, seen)) ==
            if outcome.Passed? && outcome.cur.head.size > 0
            then Some(State(Saved(outcome.cur.head), Written(outcome.cur, None),
                            IndexOf(cfg.version, outcome.cur.inactive, outcome.cur.head.size), None,
                            s.scans, s.stores + [outcome.cur.head], s.sent))
            else None
  {
    var outcome := Check(cfg.version, cfg.accepts, Empty, reply);
    var save := [HandOver] + ([Truncate] + [Save]);
    var check := RunCheck(reply, seen);
    ExecCons(cfg, s, Start, [check] + save);
    var s2 := Step(cfg, s, Start).value;
    ExecCons(cfg, s2, check, save);
    var s3 := Step(cfg, s2, check).value;
    if outcome.Passed? && outcome.cur.head.size > 0 {
      assert HeadOf(reply) == Some(outcome.cur.head);
      FirstSave(cfg, s3);
    } else {
      NoFirstSave(cfg, s3);
    }
  }

  function SizeOrder(): Verifier {
    (x: Checkpoint, y: Checkpoint) => x.size <= y.size
  }

  function PlainDisk(): Disk {
    Disk(c => Saved(c), (c, written: nat) => if written == 0 then Empty else Torn)
  }

  /** A v2 monitor of one subject, without presets. */
  function Example(o: Oracle): Config {
    Config(V2, None, None, o, MonitoredValues([], [], ["alice"], []), false, SizeOrder(), PlainDisk())
  }

  function HeadOfSize(size: nat): Checkpoint {
    Checkpoint("log", size, "")
  }

  function Announces(size: nat): Reply {
    ShardsReply(map["log" := Some(HeadOfSize(size))], "log")
  }

  /** A checkpoint of one entry is stored, and the process is not running. */
  function OneStored(): State {
    State(Saved(HeadOfSize(1)), Down, None, None, [], [HeadOfSize(1)], [])
  }

  const NOTHING := Report([], [])

  /** Head 2 is announced, (0, 1] is searched, nothing is found, and the file is truncated. */
  function SearchAndTruncate(log: seq<Body>): seq<Event> {
    [Start] + ([RunCheck(Announces(2), true)] + ([Search(Scan(0, 1), log, Some(NOTHING))] + ([HandOver] + [Truncate])))
  }

  lemma SearchThenTruncate(cfg: Config, o: Oracle, log: seq<Body>)
    requires cfg == Example(o)
    ensures Exec(cfg, OneStored(), SearchAndTruncate(log)) ==
            Some(State(Empty, Writing(LogInfo(HeadOfSize(2), []), None), Some(1), None,
                       [Scan(0, 1)], [HeadOfSize(1)], []))
  {
    var a, b, s := HeadOfSize(1), HeadOfSize(2), OneStored();
    var handOver := [HandOver] + [Truncate];
    var check, search := RunCheck(Announces(2), true), Search(Scan(0, 1), log, Some(NOTHING));
    ExecCons(cfg, s, Start, [check] + ([search] + handOver));
    var s1 := Step(cfg, s, Start).value;
    ExecCons(cfg, s1, check, [search] + handOver);
    var s2 := Step(cfg, s1, check).value;
    assert s2 == State(Saved(a), Checked(Some(a), LogInfo(b, []), None), Some(0), Some(1), [], [a], []);
    ExecCons(cfg, s2, search, handOver);
    var s3 := Step(cfg, s2, search).value;
    ExecCons(cfg, s3, HandOver, [Truncate]);
    var s4 := Step(cfg, s3, HandOver).value;
    assert s4.scans == [Scan(0, 1)];
    ExecCons(cfg, s4, Truncate, []);
    assert [Truncate] + [] == [Truncate];
  }

  /** Heads of sizes 1, 2 and 3 in turn, the write of the second one lost. Index 2 is in no search although the
      file now says 3. */
  lemma LostFileGap(cfg: Config, o: Oracle, log: seq<Body>) returns (es: seq<Event>, t: State)
    requires cfg == Example(o)
    ensures Setting(cfg, Site("log", 0)) && Plain(cfg) && FirstStart(cfg, Site("log", 0), OneStored())
    ensures Exec(cfg, OneStored(), es) == Some(t)
    ensures t.file == Saved(HeadOfSize(3)) && t.stores == [HeadOfSize(1), HeadOfSize(3)] && t.scans == [Scan(0, 1)]
    ensures !Delivered(t.scans, 2) && !Covered(Site("log", 0), t)
  {
    var first, again := SearchAndTruncate(log), Rebaseline(Announces(3), true);
    SearchThenTruncate(cfg, o, log);
    var mid := Exec(cfg, OneStored(), first).value;
    var lost := Step(cfg, mid, BreakOff(0)).value;
    assert lost == State(Empty, Down, None, None, [Scan(0, 1)], [HeadOfSize(1)], []);
    RebaselineEnds(cfg, lost, Announces(3), true);
    t := Exec(cfg, lost, again).value;
    ExecCons(cfg, mid, BreakOff(0), again);
    es := first + ([BreakOff(0)] + again);
    ExecConcat(cfg, OneStored(), first, [BreakOff(0)] + again);
    assert LastIndex(Site("log", 0), t.stores[0]) < 2 <= LastIndex(Site("log", 0), t.stores[1]);
  }

  /** A stat call that fails once: the file says 1, a new process cannot see it, finds head 3 and stores it. Nothing
      was searched, and no proof from 1 to 3 was asked for. */
  lemma UnseenFileGap(cfg: Config, o: Oracle)
    requires cfg == Example(o)
    ensures Setting(cfg, Site("log", 0)) && Plain(cfg) && FirstStart(cfg, Site("log", 0), OneStored())
    ensures var t := Exec(cfg, OneStored(), Rebaseline(Announces(3), false));
            && t.Some? && t.value.file == Saved(HeadOfSize(3)) && t.value.scans == []
            && t.value.stores == [HeadOfSize(1), HeadOfSize(3)]
            && !Delivered(t.value.scans, 1) && !Covered(Site("log", 0), t.value)
  {
    RebaselineEnds(cfg, OneStored(), Announces(3), false);
    var t := Exec(cfg, OneStored(), Rebaseline(Announces(3), false)).value;
    assert LastIndex(Site("log", 0), t.stores[0]) < 1 <= LastIndex(Site("log", 0), t.stores[1]);
  }

  /** The chain broken the same way: the file says 3, a new process cannot see it, and stores a head of one entry that
      the verifier would have refused. No check of the run proved anything of the old checkpoint. */
  lemma UnprovedReplacement(cfg: Config, o: Oracle, s: State)
    requires cfg == Example(o) && s == State(Saved(HeadOfSize(3)), Down, None, None, [], [HeadOfSize(3)], [])
    ensures var es := Rebaseline(Announces(1), false);
            && Initial(s) && FramedHeads(cfg, es) && HeadsKeepOrigin(es)
            && Exec(cfg, s, es).Some? && Exec(cfg, s, es).value.stores == [HeadOfSize(3), HeadOfSize(1)]
            && !cfg.accepts(HeadOfSize(3), HeadOfSize(1)) && ForgotAt(cfg, s, es, 1, 1)
            && forall j :: 0 <= j < |es| ==> !ProvedBy(cfg.accepts, es[j], HeadOfSize(3), HeadOfSize(1))
  {
    var es := Rebaseline(Announces(1), false);
    RebaselineEnds(cfg, s, Announces(1), false);
    assert es[..1] == [Start] + [];
    ExecCons(cfg, s, Start, []);
  }
}
