/** The checkpoints the v2 monitor stores form append-only chains, shard by shard, across migrations. */
module StoreChain {
  import opened Prelude
  import opened Consistency
  import opened CheckpointFile
  import opened MonitorProtocol
  import opened Coverage

  /** Each shard is read with its own client, so a head carries the origin it was asked for. */
  ghost predicate HeadsKeepOrigin(es: seq<Event>) {
    forall k :: 0 <= k < |es| && es[k].RunCheck? && es[k].reply.ShardsReply? ==> OwnHeads(es[k].reply.shards)
  }

  ghost predicate FramedHead(cfg: Config, e: Event) {
    e.RunCheck? && HeadOf(e.reply).Some? ==> Framed(cfg.disk, HeadOf(e.reply).value)
  }

  /** The file can carry every head that a check hands on. */
  ghost predicate FramedHeads(cfg: Config, es: seq<Event>) {
    forall k :: 0 <= k < |es| ==> FramedHead(cfg, es[k])
  }

  /** In this check `a` was proved consistent with the current head of its own shard, and the latest shard's
      head was `b`. */
  predicate ProvedBy(accepts: Verifier, e: Event, a: Checkpoint, b: Checkpoint) {
    && e.RunCheck? && e.reply.ShardsReply?
    && a.origin in e.reply.shards && e.reply.shards[a.origin].Some? && accepts(a, e.reply.shards[a.origin].value)
    && e.reply.latest in e.reply.shards && e.reply.shards[e.reply.latest] == Some(b)
  }

  ghost predicate ProvedIn(accepts: Verifier, past: seq<Event>, a: Checkpoint, b: Checkpoint) {
    exists j :: 0 <= j < |past| && ProvedBy(accepts, past[j], a, b)
  }

  /** `b` replaced `a` in the file after a check that proved `a`. */
  ghost predicate Replaced(accepts: Verifier, past: seq<Event>, a: Checkpoint, b: Checkpoint) {
    ProvedIn(accepts, past, a, b) && (a.origin == b.origin ==> a.size != b.size)
  }

  /** After the k-th store and before the next one, this event made the process forget what was stored. */
  predicate ForgotAt(cfg: Config, s: State, es: seq<Event>, m: nat, k: nat) {
    m < |es| && Forgets(es[m]) && Exec(cfg, s, es[..m]).Some? && |Exec(cfg, s, es[..m]).value.stores| == k
  }

  ghost predicate Forgotten(cfg: Config, s: State, es: seq<Event>, k: nat) {
    exists m: nat :: ForgotAt(cfg, s, es, m, k)
  }

  ghost predicate LinkedAt(cfg: Config, s: State, past: seq<Event>, a: Checkpoint, b: Checkpoint, k: nat) {
    Replaced(cfg.accepts, past, a, b) || Forgotten(cfg, s, past, k)
  }

  ghost predicate Linked(cfg: Config, s: State, past: seq<Event>, stores: seq<Checkpoint>) {
    forall k :: 0 < k < |stores| ==> LinkedAt(cfg, s, past, stores[k - 1], stores[k], k) && stores[k].size > 0
  }

  ghost predicate PrevProved(cfg: Config, s: State, past: seq<Event>, t: State, prev: Option<Checkpoint>,
          cur: LogInfo)
  {
    && AsRead(t.file, prev) && Framed(cfg.disk, cur.head)
    && (prev.Some? ==> ProvedIn(cfg.accepts, past, prev.value, cur.head))
    && (prev.None? && t.stores != [] ==> Forgotten(cfg, s, past, |t.stores|))
  }

  ghost predicate PhaseInv(cfg: Config, s: State, past: seq<Event>, t: State) {
    match t.phase
    case Checked(prev, cur, _) => PrevProved(cfg, s, past, t, prev, cur)
    case Searched(prev, cur, _, _, _, _) => PrevProved(cfg, s, past, t, prev, cur)
    case HandedOver(prev, cur, _) => PrevProved(cfg, s, past, t, prev, cur)
    case Writing(cur, _) =>
      && t.file.Empty? && cur.head.size > 0 && Framed(cfg.disk, cur.head)
      && (t.stores != [] ==> LinkedAt(cfg, s, past, t.stores[|t.stores| - 1], cur.head, |t.stores|))
    case _ => true
  }

  /** `past` led from `s` to `t`. */
  ghost predicate ChainInv(cfg: Config, s: State, past: seq<Event>, t: State) {
    && (t.file.Saved? ==> t.stores != [] && t.file.checkpoint == t.stores[|t.stores| - 1])
    && (t.file.Empty? && !t.phase.Writing? && t.stores != [] ==> Forgotten(cfg, s, past, |t.stores|))
    && Linked(cfg, s, past, t.stores) && PhaseInv(cfg, s, past, t)
  }

  lemma ProofsStay(accepts: Verifier, past: seq<Event>, e: Event, a: Checkpoint, b: Checkpoint)
    ensures ProvedIn(accepts, past, a, b) || ProvedBy(accepts, e, a, b) ==> ProvedIn(accepts, past + [e], a, b)
  {
    assert (past + [e])[|past|] == e;
    if ProvedIn(accepts, past, a, b) {
      var j :| 0 <= j < |past| && ProvedBy(accepts, past[j], a, b);
      assert (past + [e])[j] == past[j];
    }
  }

  lemma ForgottenStays(cfg: Config, s: State, past: seq<Event>, e: Event, k: nat)
    requires Forgotten(cfg, s, past, k)
    ensures Forgotten(cfg, s, past + [e], k)
  {
    var m: nat :| ForgotAt(cfg, s, past, m, k);
    assert (past + [e])[..m] == past[..m];
    assert ForgotAt(cfg, s, past + [e], m, k);
  }

  lemma ForgottenNow(cfg: Config, s: State, past: seq<Event>, e: Event, t: State)
    requires Exec(cfg, s, past) == Some(t) && Forgets(e)
    ensures Forgotten(cfg, s, past + [e], |t.stores|)
  {
    assert (past + [e])[..|past|] == past;
    assert ForgotAt(cfg, s, past + [e], |past|, |t.stores|);
  }

  lemma ChainInvStays(cfg: Config, s: State, past: seq<Event>, e: Event, t: State)
    requires ChainInv(cfg, s, past, t)
    ensures ChainInv(cfg, s, past + [e], t)
  {
    forall a, b | ProvedIn(cfg.accepts, past, a, b)
      ensures ProvedIn(cfg.accepts, past + [e], a, b)
    {
      ProofsStay(cfg.accepts, past, e, a, b);
    }
    forall k: nat | Forgotten(cfg, s, past, k)
      ensures Forgotten(cfg, s, past + [e], k)
    {
      ForgottenStays(cfg, s, past, e, k);
    }
  }

  lemma PassedIsProved(cfg: Config, s: State, past: seq<Event>, t: State, e: Event)
    requires cfg.version == V2 && Exec(cfg, s, past) == Some(t) && e.RunCheck? && FramedHead(cfg, e)
    requires t.file.Empty? && t.stores != [] ==> Forgotten(cfg, s, past, |t.stores|)
    requires Check(V2, cfg.accepts, Seen(t.file, e.seen), e.reply).Passed?
    ensures var outcome := Check(V2, cfg.accepts, Seen(t.file, e.seen), e.reply);
            PrevProved(cfg, s, past + [e], t, outcome.prev, outcome.cur)
  {
    var file := Seen(t.file, e.seen);
    var outcome := Check(V2, cfg.accepts, file, e.reply);
    assert HeadOf(e.reply) == Some(outcome.cur.head);
    if file.Saved? {
      ProofsStay(cfg.accepts, past, e, file.checkpoint, outcome.cur.head);
    } else if !e.seen {
      ForgottenNow(cfg, s, past, e, t);
    } else if t.stores != [] {
      ForgottenStays(cfg, s, past, e, |t.stores|);
    }
  }

  lemma CheckKeepsChain(cfg: Config, s: State, past: seq<Event>, t: State, e: Event)
    requires cfg.version == V2 && ChainInv(cfg, s, past, t) && Exec(cfg, s, past) == Some(t)
    requires t.phase.Ready? && e.RunCheck? && FramedHead(cfg, e)
    ensures ChainInv(cfg, s, past + [e], Step(cfg, t, e).value)
  {
    ChainInvStays(cfg, s, past, e, t);
    CheckStep(cfg, t, e);
    if Check(V2, cfg.accepts, Seen(t.file, e.seen), e.reply).Passed? {
      PassedIsProved(cfg, s, past, t, e);
    }
  }

  lemma CheckStep(cfg: Config, t: State, e: Event)
    requires cfg.version == V2 && t.phase.Ready? && e.RunCheck?
    ensures var u, outcome := Step(cfg, t, e).value, Check(V2, cfg.accepts, Seen(t.file, e.seen), e.reply);
            && u.file == t.file && u.stores == t.stores
            && u.phase == (match outcome
                           case Failed => if cfg.once then Down else Ready
                           case Panicked => Down
                           case Passed(prev, cur) => Checked(prev, cur, t.end))
  {
  }

  lemma QuietKeepsChain(cfg: Config, s: State, past: seq<Event>, t: State, e: Event)
    requires ChainInv(cfg, s, past, t) && Step(cfg, t, e).Some? && !e.RunCheck? && !IsWrite(e)
    ensures ChainInv(cfg, s, past, Step(cfg, t, e).value)
  {
    assert Step(cfg, t, e).value.stores == t.stores;
  }

  /** `past` ends with the write itself. */
  lemma WriteKeepsChain(cfg: Config, s: State, past: seq<Event>, t: State, e: Event)
    requires ChainInv(cfg, s, past, t) && Step(cfg, t, e).Some? && IsWrite(e)
    requires e == BreakOff(0) ==> Forgotten(cfg, s, past, |t.stores|)
    ensures ChainInv(cfg, s, past, Step(cfg, t, e).value)
  {
    var u := Step(cfg, t, e).value;
    var head := t.phase.cur.head;
    assert u.file == Empty ==> e == BreakOff(0);
    assert u.file == Empty || UnreadableOr(u.file, head);
    if u.file.Saved? {
      assert u.stores == t.stores + [head];
    } else {
      assert u.stores == t.stores;
    }
  }

  lemma StepKeepsChain(cfg: Config, s: State, past: seq<Event>, t: State, e: Event)
    requires cfg.version == V2 && ChainInv(cfg, s, past, t) && Exec(cfg, s, past) == Some(t)
    requires Step(cfg, t, e).Some? && FramedHead(cfg, e)
    ensures ChainInv(cfg, s, past + [e], Step(cfg, t, e).value)
  {
    if e.RunCheck? {
      CheckKeepsChain(cfg, s, past, t, e);
    } else {
      ChainInvStays(cfg, s, past, e, t);
      if IsWrite(e) {
        if e == BreakOff(0) {
          ForgottenNow(cfg, s, past, e, t);
        }
        WriteKeepsChain(cfg, s, past + [e], t, e);
      } else {
        QuietKeepsChain(cfg, s, past + [e], t, e);
      }
    }
  }

  lemma LastStep(cfg: Config, s: State, es: seq<Event>, t: State) returns (before: State)
    requires es != [] && Exec(cfg, s, es) == Some(t)
    ensures Exec(cfg, s, es[..|es| - 1]) == Some(before) && Step(cfg, before, es[|es| - 1]) == Some(t)
  {
    var front, last := es[..|es| - 1], es[|es| - 1];
    assert es == front + [last];
    ExecConcat(cfg, s, front, [last]);
    before := Exec(cfg, s, front).value;
    ExecCons(cfg, before, last, []);
    assert [last] + [] == [last];
  }

  lemma {:induction false} ExecKeepsChain(cfg: Config, s: State, es: seq<Event>, t: State)
    requires cfg.version == V2 && ChainInv(cfg, s, [], s) && Exec(cfg, s, es) == Some(t) && FramedHeads(cfg, es)
    ensures ChainInv(cfg, s, es, t)
    decreases |es|
  {
    if es != [] {
      var front := es[..|es| - 1];
      var before := LastStep(cfg, s, es, t);
      ExecKeepsChain(cfg, s, front, before);
      StepKeepsChain(cfg, s, front, before, es[|es| - 1]);
      assert front + [es[|es| - 1]] == es;
    }
  }

  /** For every replacement in the file, in every run: some check of the run proved the old checkpoint consistent
      with the current head of its own shard, and the new one was the latest shard's head in that very check; or,
      while the old one was the last stored, the process forgot it. */
  lemma StoresAreLinked(cfg: Config, s: State, es: seq<Event>, t: State, k: nat)
    requires cfg.version == V2 && Initial(s) && Exec(cfg, s, es) == Some(t) && FramedHeads(cfg, es)
    requires 0 < k < |t.stores|
    ensures || (exists m: nat :: ForgotAt(cfg, s, es, m, k))
            || (&& (exists j :: 0 <= j < |es| && ProvedBy(cfg.accepts, es[j], t.stores[k - 1], t.stores[k]))
                && (t.stores[k - 1].origin == t.stores[k].origin ==> t.stores[k - 1].size != t.stores[k].size))
    ensures t.stores[k].size > 0
  {
    ExecKeepsChain(cfg, s, es, t);
    assert LinkedAt(cfg, s, es, t.stores[k - 1], t.stores[k], k);
  }

  /** With each shard's client reading its own heads, a replacement of the same origin is the proved head. */
  lemma SameOriginIsProved(cfg: Config, s: State, es: seq<Event>, t: State, k: nat)
    requires cfg.version == V2 && Initial(s) && Exec(cfg, s, es) == Some(t)
    requires FramedHeads(cfg, es) && HeadsKeepOrigin(es)
    requires 0 < k < |t.stores| && t.stores[k - 1].origin == t.stores[k].origin
    ensures || (exists m: nat :: ForgotAt(cfg, s, es, m, k))
            || (cfg.accepts(t.stores[k - 1], t.stores[k]) && t.stores[k - 1].size != t.stores[k].size)
  {
    StoresAreLinked(cfg, s, es, t, k);
    if !exists m: nat :: ForgotAt(cfg, s, es, m, k) {
      var j :| 0 <= j < |es| && ProvedBy(cfg.accepts, es[j], t.stores[k - 1], t.stores[k]);
      assert OwnHeads(es[j].reply.shards);
    }
  }

  ghost predicate Accepts(accepts: Verifier, stores: seq<Checkpoint>, k: nat)
    requires 0 < k < |stores|
  {
    accepts(stores[k - 1], stores[k]) && stores[k - 1].size != stores[k].size
  }

  lemma {:induction false} LinksCompose(accepts: Verifier, leaves: (nat, string) -> seq<string>,
                                        stores: seq<Checkpoint>, i: nat, j: nat)
    requires Sound(accepts, leaves) && i < j < |stores|
    requires forall k :: i < k <= j ==> Accepts(accepts, stores, k)
    ensures stores[i].size < stores[j].size
    ensures leaves(stores[i].size, stores[i].root) <= leaves(stores[j].size, stores[j].root)
    decreases j - i
  {
    var a, b := stores[j - 1], stores[j];
    assert Accepts(accepts, stores, j);
    assert leaves(a.size, a.root) <= leaves(b.size, b.root);
    if i < j - 1 {
      LinksCompose(accepts, leaves, stores, i, j - 1);
    }
  }

  /** Within a stretch of one origin over which the process forgot nothing, whatever it forgot before and after,
      the stored checkpoints have growing sizes and each tree is a prefix of every later one, whatever the log
      servers answered. */
  lemma StoresFormPrefixChain(cfg: Config, leaves: (nat, string) -> seq<string>, s: State, es: seq<Event>, t: State,
                              i: nat, j: nat)
    requires cfg.version == V2 && Sound(cfg.accepts, leaves)
    requires Initial(s) && Exec(cfg, s, es) == Some(t)
    requires FramedHeads(cfg, es) && HeadsKeepOrigin(es)
    requires i < j < |t.stores| && forall k :: i <= k <= j ==> t.stores[k].origin == t.stores[i].origin
    requires forall m: nat, k: nat :: i < k <= j ==> !ForgotAt(cfg, s, es, m, k)
    ensures t.stores[i].size < t.stores[j].size
    ensures leaves(t.stores[i].size, t.stores[i].root) <= leaves(t.stores[j].size, t.stores[j].root)
  {
    forall k | i < k <= j
      ensures Accepts(cfg.accepts, t.stores, k)
    {
      assert t.stores[k - 1].origin == t.stores[i].origin;
      SameOriginIsProved(cfg, s, es, t, k);
    }
    LinksCompose(cfg.accepts, leaves, t.stores, i, j);
  }

  // ----- skipping the write

  /** After a write step that succeeded or was skipped, the file holds the current head; size 0 is never stored. */
  ghost predicate UpToDate(cfg: Config, s: State) {
    && (forall k :: 0 <= k < |s.stores| ==> s.stores[k].size > 0)
    && (s.file.Saved? ==> s.file.checkpoint.size > 0)
    && match s.phase
       case Checked(prev, cur, _) => Accepted(cfg, s, prev, cur)
       case Searched(prev, cur, _, _, _, _) => Accepted(cfg, s, prev, cur)
       case HandedOver(prev, cur, _) => Accepted(cfg, s, prev, cur)
       case Writing(cur, _) => cur.head.size > 0 && Framed(cfg.disk, cur.head)
       case Written(cur, _) => cur.head.size > 0 ==> Holds(cfg, s.file, cur.head)
       case _ => true
  }

  /** The file has the head's size and root, in v2 also its origin. */
  predicate Holds(cfg: Config, file: Stored, head: Checkpoint) {
    && file.Saved? && file.checkpoint.size == head.size && file.checkpoint.root == head.root
    && (cfg.version == V2 ==> file.checkpoint.origin == head.origin)
  }

  ghost predicate Accepted(cfg: Config, s: State, prev: Option<Checkpoint>, cur: LogInfo) {
    && AsRead(s.file, prev) && Framed(cfg.disk, cur.head)
    && (prev.Some? && (cfg.version == V1 || prev.value.origin == cur.head.origin) ==>
          cfg.accepts(prev.value, cur.head))
  }

  lemma StepKeepsUpToDate(cfg: Config, leaves: (nat, string) -> seq<string>, s: State, e: Event)
    requires Sound(cfg.accepts, leaves) && UpToDate(cfg, s) && Step(cfg, s, e).Some?
    requires FramedHead(cfg, e) && (e.RunCheck? && e.reply.ShardsReply? ==> OwnHeads(e.reply.shards))
    ensures UpToDate(cfg, Step(cfg, s, e).value)
  {
    match e
    case RunCheck(reply, seen) =>
      if cfg.version == V2 && Check(V2, cfg.accepts, Seen(s.file, seen), reply).Passed? {
        assert reply.shards[reply.latest].value.origin == reply.latest;
      }
    case SkipWrite =>
      if s.phase.prev.Some? && s.phase.cur.head.size > 0 {
        assert s.phase.prev.value.root == s.phase.cur.head.root;
      }
    case _ =>
  }

  lemma {:induction false} ExecKeepsUpToDate(cfg: Config, leaves: (nat, string) -> seq<string>, s: State,
          es: seq<Event>, t: State)
    requires Sound(cfg.accepts, leaves) && UpToDate(cfg, s) && Exec(cfg, s, es) == Some(t)
    requires FramedHeads(cfg, es) && HeadsKeepOrigin(es)
    ensures UpToDate(cfg, t)
    decreases |es|
  {
    if es != [] {
      StepKeepsUpToDate(cfg, leaves, s, es[0]);
      assert FramedHeads(cfg, es[1..]) && HeadsKeepOrigin(es[1..]) by {
        assert forall k :: 0 <= k < |es| - 1 ==> es[1..][k] == es[k + 1];
      }
      ExecKeepsUpToDate(cfg, leaves, Step(cfg, s, es[0]).value, es[1..], t);
    }
  }

  /** Skipping the write is sound in every run, crashes, write errors and failing stat calls included: when an iteration
      is about to finish, the stored size and root, and in v2 the origin, are the head's, and size 0 is never stored. */
  lemma SkippedWriteIsSound(cfg: Config, leaves: (nat, string) -> seq<string>, s: State, es: seq<Event>, t: State)
    requires Sound(cfg.accepts, leaves) && FramedHeads(cfg, es) && HeadsKeepOrigin(es)
    requires Initial(s) && (s.file.Saved? ==> s.file.checkpoint.size > 0) && Exec(cfg, s, es) == Some(t)
    ensures t.phase.Written? && t.phase.cur.head.size > 0 ==> Holds(cfg, t.file, t.phase.cur.head)
    ensures t.file.Saved? ==> t.file.checkpoint.size > 0
    ensures forall k :: 0 <= k < |t.stores| ==> t.stores[k].size > 0
  {
    ExecKeepsUpToDate(cfg, leaves, s, es, t);
  }
}
