/** Checkpoints, and the check of a stored one against the log before anything else happens. */
module Consistency {
  import opened Prelude

  datatype Checkpoint = Checkpoint(origin: string, size: nat, root: string)

  /** A v1 answer: the active shard's signed head and the sizes of the inactive shards. In v2 the latter is empty. */
  datatype LogInfo = LogInfo(head: Checkpoint, inactive: seq<int>)

  /** What the next reader makes of the checkpoint file. */
  datatype Stored = Empty | Torn | Saved(checkpoint: Checkpoint)

  function Previous(stored: Stored): Option<Checkpoint> {
    if stored.Saved? then Some(stored.checkpoint) else None
  }

  /** What one check makes of the file: any failure of the stat call counts as a missing file. */
  function Seen(file: Stored, seen: bool): Stored {
    if seen then file else Empty
  }

  datatype Version = V1 | V2

  /** What the log side answers to one check. In v2 every shard's verified head is read, or fails to be. */
  datatype Reply =
    | Unavailable
    | LogInfoReply(info: LogInfo)
    | ShardsReply(shards: map<string, Option<Checkpoint>>, latest: string)

  datatype Outcome = Failed | Panicked | Passed(prev: Option<Checkpoint>, cur: LogInfo)

  /** Verifying a consistency proof from one checkpoint to another. */
  type Verifier = (Checkpoint, Checkpoint) -> bool

  /** Section 2.1.2 of RFC 6962: an accepted proof means that the old tree is a prefix of the new one.
      `leaves` is the tree that a size and a root commit to. */
  ghost predicate Sound(accepts: Verifier, leaves: (nat, string) -> seq<string>) {
    forall a, b :: accepts(a, b) ==>
      && a.size <= b.size
      && leaves(a.size, a.root) <= leaves(b.size, b.root)
      && (a.size == b.size ==> a.root == b.root)
  }

  /** Each shard's client only accepts checkpoints that carry that shard's origin. */
  ghost predicate OwnHeads(shards: map<string, Option<Checkpoint>>) {
    forall o :: o in shards && shards[o].Some? ==> shards[o].value.origin == o
  }

  function CheckV1(accepts: Verifier, stored: Stored, info: LogInfo): Outcome {
    match stored
    case Empty => Passed(None, info)
    case Torn => Failed
    case Saved(prev) => if accepts(prev, info.head) then Passed(Some(prev), info) else Failed
  }

  function CheckV2(accepts: Verifier, stored: Stored, shards: map<string, Option<Checkpoint>>,
          latest: string): Outcome
  {
    if latest !in shards then Panicked
    else if shards[latest].None? then Failed
    else match stored
      case Empty => Passed(None, LogInfo(shards[latest].value, []))
      case Torn => Failed
      case Saved(prev) =>
        if prev.origin !in shards then Panicked
        else if shards[prev.origin].None? then Failed
        else if accepts(prev, shards[prev.origin].value) then Passed(Some(prev), LogInfo(shards[latest].value, []))
        else Failed
  }

  function Check(version: Version, accepts: Verifier, stored: Stored, reply: Reply): Outcome {
    match reply
    case Unavailable => Failed
    case LogInfoReply(info) => if version == V1 then CheckV1(accepts, stored, info) else Failed
    case ShardsReply(shards, latest) => if version == V2 then CheckV2(accepts, stored, shards, latest) else Failed
  }

  /** The v2 check: the stored checkpoint is verified against its own shard's head, whichever shard that
      is, while the head handed on is always the latest shard's. A missing shard is a nil dereference. */
  method RunConsistencyCheckV2(accepts: Verifier, shards: map<string, Option<Checkpoint>>, latest: string,
          stored: Stored)
    returns (outcome: Outcome)
    ensures outcome == CheckV2(accepts, stored, shards, latest)
    ensures outcome.Passed? <==>
              && latest in shards && shards[latest].Some? && !stored.Torn?
              && (stored.Saved? ==>
                    && stored.checkpoint.origin in shards && shards[stored.checkpoint.origin].Some?
                    && accepts(stored.checkpoint, shards[stored.checkpoint.origin].value))
    ensures outcome.Panicked? <==>
              || latest !in shards
              || (shards[latest].Some? && stored.Saved? && stored.checkpoint.origin !in shards)
    ensures outcome.Passed? ==>
              && shards[latest] == Some(outcome.cur.head) && outcome.cur.inactive == []
              && outcome.prev == Previous(stored)
  {
    if latest !in shards {
      return Panicked;
    }
    if shards[latest].None? {
      return Failed;
    }
    var latestShardCheckpoint := shards[latest].value;
    var prevCheckpoint: Option<Checkpoint> := None;
    if !stored.Empty? {
      if stored.Torn? {
        return Failed;
      }
      prevCheckpoint := Some(stored.checkpoint);
      var newCheckpoint := latestShardCheckpoint;
      if prevCheckpoint.value.origin != latest {
        if prevCheckpoint.value.origin !in shards {
          return Panicked;
        }
        var head := shards[prevCheckpoint.value.origin];
        if head.None? {
          return Failed;
        }
        newCheckpoint := head.value;
      }
      if !accepts(prevCheckpoint.value, newCheckpoint) {
        return Failed;
      }
    }
    return Passed(prevCheckpoint, LogInfo(latestShardCheckpoint, []));
  }

  /** The v1 check. A stored checkpoint whose own signature does not verify counts as unreadable. */
  method RunConsistencyCheckV1(accepts: Verifier, info: Option<LogInfo>, stored: Stored) returns (outcome: Outcome)
    ensures outcome == if info.None? then Failed else CheckV1(accepts, stored, info.value)
    ensures outcome.Passed? <==>
              && info.Some? && !stored.Torn?
              && (stored.Saved? ==> accepts(stored.checkpoint, info.value.head))
    ensures !outcome.Panicked?
    ensures outcome.Passed? ==> outcome.cur == info.value
    ensures outcome.Passed? ==> outcome.prev == Previous(stored)
  {
    if info.None? {
      return Failed;
    }
    var prevCheckpoint: Option<Checkpoint> := None;
    if !stored.Empty? {
      if stored.Torn? || !accepts(stored.checkpoint, info.value.head) {
        return Failed;
      }
      prevCheckpoint := Some(stored.checkpoint);
    }
    return Passed(prevCheckpoint, info.value);
  }
}
