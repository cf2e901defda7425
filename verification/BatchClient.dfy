/** The v1 range fetcher: entries (start, end] requested from the search API ten indices at a time. */
module BatchClient {
  import opened Prelude
  import opened Domain

  const BATCH_SIZE: int := 10

  /** The log server, and the number of batches after which the context is found cancelled. */
  datatype Server = Server(log: seq<Body>, answers: seq<int> -> bool, deadline: nat)

  function ComputeMin(a: int, b: int): int {
    if a < b then a else b
  }

  /** The indices lo, ..., hi - 1. */
  function Indices(lo: int, hi: int): (r: seq<int>)
    requires lo <= hi
    ensures |r| == hi - lo && forall k :: 0 <= k < |r| ==> r[k] == lo + k
  {
    seq(hi - lo, k => lo + k)
  }

  predicate Served(server: Server, batch: seq<int>) {
    server.answers(batch) && forall k :: 0 <= k < |batch| ==> 0 <= batch[k] < |server.log|
  }

  function Lookup(server: Server, batch: seq<int>): seq<Entry>
    requires Served(server, batch)
  {
    seq(|batch|, k requires 0 <= k < |batch| => Entry(server.log[batch[k]], batch[k]))
  }

  /** The batches of one call, as the stride of ten cuts them. */
  function Batches(start: int, end: int): seq<seq<int>>
    decreases end - start
  {
    if start >= end then []
    else [Indices(start + 1, ComputeMin(start + 1 + BATCH_SIZE, end + 1))] + Batches(start + BATCH_SIZE, end)
  }

  function BatchCount(start: int, end: int): nat {
    if start < end then (end - start + BATCH_SIZE - 1) / BATCH_SIZE else 0
  }

  /** The loop variable never leaves int64: the value that ends the loop is still one. */
  predicate StaysInInt64(start: int, end: int) {
    start <= end ==> start + 1 + BATCH_SIZE * BatchCount(start, end) <= MAX_INT64
  }

  /** The n-th batch is sent and answered. */
  predicate Goes(server: Server, batches: seq<seq<int>>, n: nat)
    requires n < |batches|
  {
    n < server.deadline && Served(server, batches[n])
  }

  predicate AllGo(server: Server, batches: seq<seq<int>>) {
    forall n :: 0 <= n < |batches| ==> Goes(server, batches, n)
  }

  /** The batches cut start + 1, ..., end into BatchCount consecutive runs, none empty or longer than ten. */
  lemma {:induction false} BatchesPartition(start: int, end: int, n: nat)
    requires n < |Batches(start, end)|
    ensures |Batches(start, end)| == BatchCount(start, end)
    ensures var lo := start + 1 + BATCH_SIZE * n;
            var hi := if n + 1 == BatchCount(start, end) then end + 1 else lo + BATCH_SIZE;
            lo < hi <= lo + BATCH_SIZE && Batches(start, end)[n] == Indices(lo, hi)
    decreases end - start
  {
    var rest := Batches(start + BATCH_SIZE, end);
    if |rest| > 0 {
      BatchesPartition(start + BATCH_SIZE, end, if n == 0 then 0 else n - 1);
    }
  }

  lemma NoBatches(start: int, end: int)
    ensures |Batches(start, end)| == BatchCount(start, end)
  {
    if start < end {
      BatchesPartition(start, end, 0);
    }
  }

  /** When a call over a range that stays in int64 succeeds: every index of it is in the log, each run of ten is
      answered, and the context outlives the runs. */
  lemma AnsweredExactly(server: Server, start: int, end: int)
    requires start <= end
    ensures StaysInInt64(start, end) <==> start + 1 + 10 * ((end - start + 9) / 10) <= MAX_INT64
    ensures AllGo(server, Batches(start, end)) <==>
              start == end
              || (&& -1 <= start && end < |server.log| && (end - start + 9) / 10 <= server.deadline
                  && forall n: nat :: start + 1 + 10 * n <= end ==>
                       server.answers(Indices(start + 1 + 10 * n, ComputeMin(start + 11 + 10 * n, end + 1))))
  {
    NoBatches(start, end);
    var all := Batches(start, end);
    forall n: nat | n < |all|
      ensures all[n] == Indices(start + 1 + 10 * n, ComputeMin(start + 11 + 10 * n, end + 1))
      ensures start + 1 + 10 * n <= end
    {
      BatchesPartition(start, end, n);
    }
    if start < end && AllGo(server, all) {
      assert Goes(server, all, 0) && Goes(server, all, |all| - 1);
      var last := all[|all| - 1];
      assert all[0][0] == start + 1 && last[|last| - 1] == end;
      forall n: nat | start + 1 + 10 * n <= end
        ensures server.answers(Indices(start + 1 + 10 * n, ComputeMin(start + 11 + 10 * n, end + 1)))
      {
        assert Goes(server, all, n);
      }
    }
  }

  /** The indices one pass of the loop asks for, its bound computed in wrapping int64 arithmetic. */
  function Batch(i: int, end: int): seq<int> {
    var minVal := ComputeMin(Wrap64(i + BATCH_SIZE), Wrap64(end + 1));
    if i <= minVal then Indices(i, minVal) else []
  }

  method IndexList(i: int, end: int) returns (logIndices: seq<int>)
    ensures logIndices == Batch(i, end)
  {
    var minVal := ComputeMin(Wrap64(i + BATCH_SIZE), Wrap64(end + 1));
    logIndices := [];
    var j := i;
    while j < minVal
      invariant i <= minVal ==> j <= minVal && logIndices == Indices(i, j)
      invariant i > minVal ==> logIndices == [] && j == i
    {
      logIndices := logIndices + [j];
      j := j + 1;
    }
  }

  lemma PassInRange(start: int, end: int, n: nat)
    requires InInt64(start) && InInt64(end) && StaysInInt64(start, end) && n < |Batches(start, end)|
    ensures var i := start + 1 + BATCH_SIZE * n;
            && i <= end && Wrap64(i + BATCH_SIZE) == i + BATCH_SIZE && Wrap64(end + 1) == end + 1
            && Batch(i, end) == Batches(start, end)[n]
            && (i + BATCH_SIZE <= end <==> n + 1 < |Batches(start, end)|)
  {
    BatchesPartition(start, end, n);
  }

  /** Outside that range the loop is never left by its own condition: the next value wraps below `end`. */
  lemma PassWraps(start: int, end: int, n: nat, i: int)
    requires InInt64(start) && InInt64(end) && start <= end && !StaysInInt64(start, end)
    requires InInt64(i) && i <= end && (end < MAX_INT64 ==> i == start + 1 + BATCH_SIZE * n)
    ensures Wrap64(i + BATCH_SIZE) <= end
    ensures end < MAX_INT64 ==> Wrap64(i + BATCH_SIZE) == i + BATCH_SIZE || Wrap64(i + BATCH_SIZE) < 0
  {
  }

  lemma LookupIsSlice(server: Server, lo: int, hi: int)
    requires lo < hi && Served(server, Indices(lo, hi))
    ensures 0 <= lo && hi <= |server.log| && Lookup(server, Indices(lo, hi)) == Numbered(server.log, lo, hi)
  {
    var batch := Indices(lo, hi);
    assert batch[0] == lo && batch[hi - lo - 1] == hi - 1;
  }

  /** Fetches (start, end]. When start equals end the code sends nothing, unlike its own comment says. For ends so
      large that the loop variable would leave int64 it wraps, and the call cannot succeed. */
  method GetEntriesByIndexRange(server: Server, start: int, end: int)
    returns (res: Result<seq<Entry>>, batches: seq<seq<int>>)
    requires InInt64(start) && InInt64(end)
    ensures start > end ==> res.Err? && batches == []
    ensures start <= end && !StaysInInt64(start, end) ==> res.Err?
    ensures start <= end && StaysInInt64(start, end) ==>
              batches <= Batches(start, end) && (res.Ok? <==> AllGo(server, Batches(start, end)))
    ensures start == end < MAX_INT64 ==> res == Ok([]) && batches == []
    ensures start < end && res.Ok? ==>
              && -1 <= start && end < |server.log| && batches == Batches(start, end)
              && res.value == Numbered(server.log, start + 1, end + 1)
  {
    batches := [];
    if start > end {
      return Err("start must be less than or equal to end"), batches;
    }
    var logEntries: seq<Entry> := [];
    ghost var all, stays := Batches(start, end), StaysInInt64(start, end);
    NoBatches(start, end);
    var i := Wrap64(start + 1);
    ghost var wrapped := false;
    while i <= end
      invariant stays ==> i == start + 1 + BATCH_SIZE * |batches| && InOrder(server, start, end, batches, logEntries)
      invariant stays ==> (i <= end <==> |batches| < |all|)
      invariant !stays ==> InInt64(i) && i <= end && (wrapped && end < MAX_INT64 ==> i < 0)
      invariant !stays && !wrapped && end < MAX_INT64 ==> i == start + 1 + BATCH_SIZE * |batches|
      decreases server.deadline - |batches|
    {
      ghost var n := |batches|;
      if |batches| >= server.deadline {
        assert stays ==> !Goes(server, all, n);
        return Err("context cancelled"), batches;
      }
      var logIndices := IndexList(i, end);
      if stays {
        PassInRange(start, end, n);
        InOrderStep(server, start, end, batches, logEntries);
      } else if wrapped && end < MAX_INT64 {
        assert logIndices[0] == i < 0;
      } else {
        PassWraps(start, end, n, i);
        wrapped := wrapped || Wrap64(i + BATCH_SIZE) != i + BATCH_SIZE;
      }
      batches := batches + [logIndices];
      if !Served(server, logIndices) {
        assert stays ==> !Goes(server, all, n);
        return Err("search log query failed"), batches;
      }
      logEntries := logEntries + Lookup(server, logIndices);
      i := Wrap64(i + BATCH_SIZE);
    }
    assert stays ==> batches == all;
    return Ok(logEntries), batches;
  }

  /** The passes so far sent the first batches of the plan and hold what they ask for. */
  ghost predicate InOrder(server: Server, start: int, end: int, batches: seq<seq<int>>, entries: seq<Entry>) {
    && batches <= Batches(start, end)
    && (forall n :: 0 <= n < |batches| ==> Goes(server, Batches(start, end), n))
    && (batches == [] ==> entries == [])
    && (batches != [] ==>
          var hi := ComputeMin(start + 1 + BATCH_SIZE * |batches|, end + 1);
          0 <= start + 1 <= hi <= |server.log| && entries == Numbered(server.log, start + 1, hi))
  }

  lemma InOrderStep(server: Server, start: int, end: int, batches: seq<seq<int>>, entries: seq<Entry>)
    requires InOrder(server, start, end, batches, entries) && |batches| < |Batches(start, end)|
    ensures var next := Batches(start, end)[|batches|];
            && batches + [next] <= Batches(start, end)
            && (|batches| < server.deadline && Served(server, next) ==>
                  InOrder(server, start, end, batches + [next], entries + Lookup(server, next)))
  {
    var n, all := |batches|, Batches(start, end);
    BatchesPartition(start, end, n);
    assert batches == all[..n] && batches + [all[n]] == all[..n + 1];
    if n < server.deadline && Served(server, all[n]) {
      assert Goes(server, all, n);
      var lo := start + 1 + BATCH_SIZE * n;
      var hi := ComputeMin(lo + BATCH_SIZE, end + 1);
      LookupIsSlice(server, lo, hi);
      if n > 0 {
        NumberedJoins(server.log, start + 1, lo, hi);
      }
    }
  }
}
