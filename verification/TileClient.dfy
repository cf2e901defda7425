/** The v2 range fetcher: entries (start, end] of a tiled log, read bundle by bundle. */
module TileClient {
  import opened Prelude
  import opened Domain

  const TILE_WIDTH: int := 256

  /** One entry-bundle request. Width 0 asks for the full tile. */
  datatype Request = Request(tile: int, width: int)

  /** A shard as its client sees it: the published entries, and which requests get a readable answer. */
  datatype Server = Server(log: seq<Body>, answers: Request -> bool)

  function Width(q: Request): int {
    if q.width == 0 then TILE_WIDTH else q.width
  }

  /** A bundle exists in a tree of `size` entries once that tree reaches its last entry. */
  predicate Available(size: int, q: Request) {
    0 <= q.tile && 0 <= q.width < TILE_WIDTH && q.tile * TILE_WIDTH + Width(q) <= size
  }

  predicate Served(server: Server, q: Request) {
    server.answers(q) && Available(|server.log|, q)
  }

  predicate AllServed(server: Server, requests: seq<Request>) {
    forall k :: 0 <= k < |requests| ==> Served(server, requests[k])
  }

  function TileIndex(checkpointIndex: int): (r: int)
    ensures -1 <= checkpointIndex < MAX_INT64 ==> r == checkpointIndex / TILE_WIDTH
  {
    var treeSize := Wrap64(checkpointIndex + 1);
    var fullTilesCount := TruncDiv(treeSize, TILE_WIDTH);
    if TruncMod(treeSize, TILE_WIDTH) == 0 then fullTilesCount - 1 else fullTilesCount
  }

  /** Go's conversion to uint8. */
  function ToUint8(x: int): int {
    x % 256
  }

  function Bundle(server: Server, q: Request): seq<Entry>
    requires Served(server, q)
  {
    Numbered(server.log, q.tile * TILE_WIDTH, q.tile * TILE_WIDTH + Width(q))
  }

  /** A bundle is served if the log reaches its last entry; it holds the tile's first entries, all 256 of them if no
      width is asked for, each with its own index. */
  lemma BundleExactly(server: Server, tile: int, width: int)
    ensures Served(server, Request(tile, width)) <==>
              && server.answers(Request(tile, width)) && 0 <= tile && 0 <= width < 256
              && tile * 256 + (if width == 0 then 256 else width) <= |server.log|
    ensures Served(server, Request(tile, width)) ==>
              && |Bundle(server, Request(tile, width))| == (if width == 0 then 256 else width)
              && forall k :: 0 <= k < |Bundle(server, Request(tile, width))| ==>
                   Bundle(server, Request(tile, width))[k] == Entry(server.log[tile * 256 + k], tile * 256 + k)
  {
  }

  method GetEntriesFromTile(server: Server, tile: int, width: int) returns (res: Result<seq<Entry>>)
    ensures res.Ok? <==> Served(server, Request(tile, width))
    ensures res.Ok? ==> res.value == Bundle(server, Request(tile, width))
  {
    var q := Request(tile, width);
    if !Served(server, q) {
      return Err("failed to fetch entry bundle");
    }
    var base := tile * TILE_WIDTH;
    var bundle := server.log[base..base + Width(q)];
    var entries := [];
    for i := 0 to |bundle|
      invariant entries == Numbered(server.log, base, base + i)
    {
      entries := entries + [Entry(bundle[i], base + i)];
    }
    return Ok(entries);
  }

  /** How many leading entries of the first bundle were read before; 0 when no partly read tile is left. */
  function ReadBefore(start: int, end: int): (r: int)
    ensures 0 <= r < TILE_WIDTH
  {
    var partial := TruncMod(Wrap64(start + 1), TILE_WIDTH);
    if TileIndex(start) < TileIndex(end) && partial > 0 then partial else 0
  }

  function FullTiles(from: int, limit: int): (r: seq<Request>)
    decreases limit - from
    ensures |r| == if from < limit then limit - from else 0
    ensures forall k :: 0 <= k < |r| ==> r[k] == Request(from + k, 0)
  {
    if from < limit then FullTiles(from, limit - 1) + [Request(limit - 1, 0)] else []
  }

  /** The requests of one call with start < end, in order. */
  function Plan(start: int, end: int): seq<Request> {
    (if ReadBefore(start, end) > 0 then [Request(TileIndex(start), 0)] else [])
    + FullTiles(TileIndex(start) + 1, TileIndex(end))
    + [Request(TileIndex(end), ToUint8(TruncMod(Wrap64(end + 1), TILE_WIDTH)))]
  }

  /** All entries of the given bundles, in order. */
  function Flat(server: Server, requests: seq<Request>): seq<Entry>
    requires AllServed(server, requests)
  {
    if requests == [] then []
    else Flat(server, requests[..|requests| - 1]) + Bundle(server, requests[|requests| - 1])
  }

  lemma {:induction false} FlatGrows(server: Server, requests: seq<Request>)
    requires AllServed(server, requests)
    ensures requests != [] ==> |Flat(server, requests)| >= Width(requests[0])
    decreases |requests|
  {
    if |requests| > 1 {
      FlatGrows(server, requests[..|requests| - 1]);
    }
  }

  /** What a successful call with start < end returns. */
  function Fetched(server: Server, start: int, end: int): seq<Entry>
    requires AllServed(server, Plan(start, end))
  {
    FlatGrows(server, Plan(start, end));
    Flat(server, Plan(start, end))[ReadBefore(start, end)..]
  }

  /** The fetch walks its plan front to back; this is one more bundle of it. */
  lemma NextBundle(server: Server, plan: seq<Request>, n: nat)
    requires n < |plan| && AllServed(server, plan[..n])
    ensures plan[..n + 1] == plan[..n] + [plan[n]]
    ensures Served(server, plan[n]) ==>
              && AllServed(server, plan[..n + 1])
              && Flat(server, plan[..n + 1]) == Flat(server, plan[..n]) + Bundle(server, plan[n])
    ensures !Served(server, plan[n]) ==> !AllServed(server, plan)
  {
    var more := plan[..n + 1];
    assert more[..|more| - 1] == plan[..n];
    assert forall k :: 0 <= k < n ==> plan[..n][k] == more[k];
  }

  /** How far a call got: it read a prefix of its plan and holds the entries not read before. */
  ghost predicate Progress(server: Server, plan: seq<Request>, skip: nat, requests: seq<Request>, entries: seq<Entry>) {
    && requests <= plan && AllServed(server, requests)
    && (if requests == [] then entries == []
        else skip <= |Flat(server, requests)| && entries == Flat(server, requests)[skip..])
  }

  /** One getEntriesFromTile call of the fetch loop, with its request recorded and its entries appended. */
  method ReadNext(server: Server, ghost plan: seq<Request>, ghost skip: nat, before: seq<Request>,
                  entries: seq<Entry>, tile: int, width: int)
    returns (res: Result<seq<Entry>>, requests: seq<Request>)
    requires Progress(server, plan, skip, before, entries) && (before == [] ==> skip == 0)
    requires |before| < |plan| && plan[|before|] == Request(tile, width)
    ensures requests == before + [Request(tile, width)] && requests <= plan
    ensures res.Ok? <==> Served(server, Request(tile, width))
    ensures res.Ok? ==> Progress(server, plan, skip, requests, res.value)
    ensures res.Err? ==> !AllServed(server, plan)
  {
    assert before == plan[..|before|];
    NextBundle(server, plan, |before|);
    requests := before + [Request(tile, width)];
    assert requests == plan[..|before| + 1];
    res := GetEntriesFromTile(server, tile, width);
    if res.Ok? {
      assert before == [] ==> Flat(server, before) == [];
      res := Ok(entries + res.value);
    }
  }

  /** The rest of a partly read start tile, if the range leaves that tile. */
  method ReadLead(server: Server, start: int, end: int) returns (res: Result<seq<Entry>>, requests: seq<Request>)
    requires start < end
    ensures requests <= Plan(start, end) && |requests| == if ReadBefore(start, end) > 0 then 1 else 0
    ensures res.Ok? ==> Progress(server, Plan(start, end), ReadBefore(start, end), requests, res.value)
    ensures res.Err? ==> requests != [] && !Served(server, requests[0]) && !AllServed(server, Plan(start, end))
  {
    requests := [];
    var startTileIndex := TileIndex(start);
    var startLogSize := Wrap64(start + 1);
    ghost var plan := Plan(start, end);
    if startTileIndex < TileIndex(end) {
      var partialBundleSize := TruncMod(startLogSize, TILE_WIDTH);
      if partialBundleSize > 0 {
        NextBundle(server, plan, 0);
        requests := [Request(startTileIndex, 0)];
        assert requests == plan[..1];
        res := GetEntriesFromTile(server, startTileIndex, 0);
        if res.Ok? {
          res := Ok(res.value[partialBundleSize..]);
        }
        return;
      }
    }
    res := Ok([]);
  }

  /** The plan's request for one of the tiles in between, and its last one. */
  lemma PlanAt(start: int, end: int, tile: int)
    ensures var plan, lead := Plan(start, end), if ReadBefore(start, end) > 0 then 1 else 0;
            && (TileIndex(start) < tile < TileIndex(end) ==>
                  lead + tile - TileIndex(start) - 1 < |plan| - 1
                  && plan[lead + tile - TileIndex(start) - 1] == Request(tile, 0))
            && plan[|plan| - 1] == Request(TileIndex(end), ToUint8(TruncMod(Wrap64(end + 1), TILE_WIDTH)))
            && |plan| == lead + 1 +
                         if TileIndex(start) + 1 < TileIndex(end) then TileIndex(end) - TileIndex(start) - 1 else 0
  {
  }

  method GetEntriesByIndexRange(server: Server, start: int, end: int)
    returns (res: Result<seq<Entry>>, requests: seq<Request>)
    requires InInt64(start) && InInt64(end)
    ensures start > end ==> res.Err? && requests == []
    ensures start == end ==> res == Ok([]) && requests == []
    ensures start < end ==> requests <= Plan(start, end)
    ensures start < end ==> (res.Ok? <==> AllServed(server, Plan(start, end)))
    ensures start < end && res.Ok? ==> requests == Plan(start, end) && res.value == Fetched(server, start, end)
    ensures start < end && res.Err? ==>
              && requests != [] && !Served(server, requests[|requests| - 1])
              && AllServed(server, requests[..|requests| - 1])
  {
    requests := [];
    if start > end {
      return Err("start must be less than or equal to end"), requests;
    }
    var entries: seq<Entry> := [];
    if start == end {
      return Ok(entries), requests;
    }

    var startTileIndex := TileIndex(start);
    var endTileIndex := TileIndex(end);
    var endLogSize := Wrap64(end + 1);
    ghost var plan := Plan(start, end);
    ghost var skip := ReadBefore(start, end);
    res, requests := ReadLead(server, start, end);
    if res.Err? {
      return;
    }
    entries := res.value;
    PlanAt(start, end, endTileIndex);

    var i := startTileIndex + 1;
    while i < endTileIndex
      invariant startTileIndex < i && (i <= endTileIndex || i == startTileIndex + 1)
      invariant |requests| == (if skip > 0 then 1 else 0) + i - startTileIndex - 1 < |plan|
      invariant Progress(server, plan, skip, requests, entries)
    {
      PlanAt(start, end, i);
      res, requests := ReadNext(server, plan, skip, requests, entries, i, 0);
      if res.Err? {
        return res, requests;
      }
      entries := res.value;
      i := i + 1;
    }

    var partialBundleSize := ToUint8(TruncMod(endLogSize, TILE_WIDTH));
    PlanAt(start, end, endTileIndex);
    res, requests := ReadNext(server, plan, skip, requests, entries, endTileIndex, partialBundleSize);
    assert requests == plan;
  }

  /** The first index a call returns: right after `start`, unless `end` lies in the same tile. */
  function First(start: int, end: int): int {
    if start / TILE_WIDTH < end / TILE_WIDTH then start + 1 else end / TILE_WIDTH * TILE_WIDTH
  }

  /** The bundles asked for are exactly the tiles that meet (start, end], each once, ascending, and all
      of them exist in a tree of end + 1 entries: full tiles, then the last one at that tree's width. */
  lemma PlanIsMinimal(start: int, end: int)
    requires -1 <= start < end < MAX_INT64
    ensures |Plan(start, end)| == end / TILE_WIDTH - (start + 1) / TILE_WIDTH + 1
    ensures forall k :: 0 <= k < |Plan(start, end)| - 1 ==>
              Plan(start, end)[k] == Request((start + 1) / TILE_WIDTH + k, 0)
    ensures Plan(start, end)[|Plan(start, end)| - 1] == Request(end / TILE_WIDTH, (end + 1) % TILE_WIDTH)
    ensures forall k :: 0 <= k < |Plan(start, end)| ==> Available(end + 1, Plan(start, end)[k])
    ensures end / TILE_WIDTH * TILE_WIDTH + Width(Plan(start, end)[|Plan(start, end)| - 1]) == end + 1
  {
    assert TruncMod(start + 1, TILE_WIDTH) == (start + 1) % TILE_WIDTH;
    assert TruncMod(end + 1, TILE_WIDTH) == (end + 1) % TILE_WIDTH;
  }

  /** A call succeeds exactly when the log reaches its end and every bundle that meets the range is served: full
      tiles, then the last one at the width of a tree that ends there. */
  lemma AnsweredExactly(server: Server, start: int, end: int)
    requires -1 <= start < end < MAX_INT64
    ensures AllServed(server, Plan(start, end)) <==>
              && end < |server.log|
              && (forall tile :: (start + 1) / 256 <= tile < end / 256 ==> server.answers(Request(tile, 0)))
              && server.answers(Request(end / 256, (end + 1) % 256))
  {
    PlanIsMinimal(start, end);
    var plan, from := Plan(start, end), (start + 1) / 256;
    var last := plan[|plan| - 1];
    assert Available(|server.log|, last) <==> end < |server.log|;
    if AllServed(server, plan) {
      assert Served(server, last);
      forall tile: int | from <= tile < end / 256
        ensures server.answers(Request(tile, 0))
      {
        assert Served(server, plan[tile - from]);
      }
    } else {
      var k :| 0 <= k < |plan| && !Served(server, plan[k]);
      assert Available(end + 1, plan[k]);
    }
  }

  lemma {:induction false} FullTilesFlatten(server: Server, from: int, limit: int)
    requires 0 <= from <= limit && AllServed(server, FullTiles(from, limit))
    ensures limit > from ==> limit * TILE_WIDTH <= |server.log|
    ensures limit > from ==>
              Flat(server, FullTiles(from, limit)) == Numbered(server.log, from * TILE_WIDTH, limit * TILE_WIDTH)
    ensures limit == from ==> Flat(server, FullTiles(from, limit)) == []
    decreases limit - from
  {
    assert FullTiles(from, from) == [];
    if from < limit {
      var tiles := FullTiles(from, limit);
      assert tiles[..|tiles| - 1] == FullTiles(from, limit - 1);
      assert tiles[|tiles| - 1] == Request(limit - 1, 0);
      assert forall k :: 0 <= k < |tiles| - 1 ==> FullTiles(from, limit - 1)[k] == tiles[k];
      FullTilesFlatten(server, from, limit - 1);
      assert Served(server, tiles[|tiles| - 1]);
      assert Flat(server, tiles) == Numbered(server.log, from * TILE_WIDTH, limit * TILE_WIDTH);
    }
  }

  lemma FlatOfSplit(server: Server, front: seq<Request>, last: Request)
    requires AllServed(server, front + [last])
    ensures AllServed(server, front) && Served(server, last)
    ensures Flat(server, front + [last]) == Flat(server, front) + Bundle(server, last)
  {
    var requests := front + [last];
    assert requests[..|front|] == front && requests[|front|] == last;
    assert forall k :: 0 <= k < |front| ==> front[k] == requests[k];
  }

  lemma BundlesJoin(server: Server, from: int, limit: int, width: int)
    requires 0 <= from <= limit && AllServed(server, FullTiles(from, limit)) && Served(server, Request(limit, width))
    ensures var hi := limit * TILE_WIDTH + Width(Request(limit, width));
            hi <= |server.log|
            && Flat(server, FullTiles(from, limit)) + Bundle(server, Request(limit, width)) ==
               Numbered(server.log, from * TILE_WIDTH, hi)
  {
    FullTilesFlatten(server, from, limit);
    if from < limit {
      var hi := limit * TILE_WIDTH + Width(Request(limit, width));
      NumberedJoins(server.log, from * TILE_WIDTH, limit * TILE_WIDTH, hi);
    }
  }

  /** Bundles of consecutive tiles, all full but the last one, add up to one slice of the log. */
  lemma ConsecutiveTilesFlatten(server: Server, requests: seq<Request>, from: int, limit: int, width: int)
    requires 0 <= from <= limit && 0 <= width < TILE_WIDTH && AllServed(server, requests)
    requires requests == FullTiles(from, limit) + [Request(limit, width)]
    ensures var hi := limit * TILE_WIDTH + Width(Request(0, width));
            hi <= |server.log| && Flat(server, requests) == Numbered(server.log, from * TILE_WIDTH, hi)
  {
    FlatOfSplit(server, FullTiles(from, limit), Request(limit, width));
    BundlesJoin(server, from, limit, width);
  }

  /** The plan as consecutive tiles, and how many of their entries the call drops again. */
  lemma PlanIsConsecutive(start: int, end: int)
    requires -1 <= start < end < MAX_INT64
    ensures var from, limit := (start + 1) / TILE_WIDTH, end / TILE_WIDTH;
            && from <= limit && Plan(start, end) == FullTiles(from, limit) + [Request(limit, (end + 1) % TILE_WIDTH)]
            && from * TILE_WIDTH + ReadBefore(start, end) == First(start, end) <= start + 1
            && limit * TILE_WIDTH + Width(Request(0, (end + 1) % TILE_WIDTH)) == end + 1
  {
    PlanIsMinimal(start, end);
    assert TruncMod(start + 1, TILE_WIDTH) == (start + 1) % TILE_WIDTH;
  }

  /** Dropping entries of the first tile moves the slice's start. */
  lemma ConsecutiveTail(server: Server, requests: seq<Request>, from: int, limit: int, width: int, skip: int,
                        lo: int, hi: int)
    requires 0 <= from <= limit && 0 <= width < TILE_WIDTH && AllServed(server, requests)
    requires requests == FullTiles(from, limit) + [Request(limit, width)]
    requires lo == from * TILE_WIDTH + skip && hi == limit * TILE_WIDTH + Width(Request(0, width))
    requires 0 <= skip && lo <= hi
    ensures hi <= |server.log| && skip <= |Flat(server, requests)|
    ensures Flat(server, requests)[skip..] == Numbered(server.log, lo, hi)
  {
    ConsecutiveTilesFlatten(server, requests, from, limit, width);
    NumberedDrops(server.log, from * TILE_WIDTH, skip, hi);
  }

  lemma FetchedIsSlice(server: Server, start: int, end: int)
    requires -1 <= start < end < MAX_INT64
    requires AllServed(server, Plan(start, end))
    ensures end < |server.log| && 0 <= First(start, end) <= start + 1
    ensures Fetched(server, start, end) == Numbered(server.log, First(start, end), end + 1)
  {
    PlanIsConsecutive(start, end);
    ConsecutiveTail(server, Plan(start, end), (start + 1) / TILE_WIDTH, end / TILE_WIDTH, (end + 1) % TILE_WIDTH,
                    ReadBefore(start, end), First(start, end), end + 1);
  }

  /** A successful fetch is the log slice from First(start, end) through end: consecutive, ascending,
      correctly numbered, containing (start, end] and at most 255 older entries. */
  lemma RangeRefinement(server: Server, start: int, end: int)
    requires -1 <= start < end < MAX_INT64
    requires AllServed(server, Plan(start, end))
    ensures end < |server.log| && 0 <= First(start, end) <= start + 1 <= First(start, end) + 255
    ensures Fetched(server, start, end) == Numbered(server.log, First(start, end), end + 1)
    ensures forall i :: Returned(Fetched(server, start, end), i) <==> First(start, end) <= i <= end
  {
    FetchedIsSlice(server, start, end);
    forall i
      ensures Returned(Fetched(server, start, end), i) <==> First(start, end) <= i <= end
    {
      NumberedReturns(server.log, First(start, end), end + 1, i);
    }
  }

  /** At the largest int64 the size wraps and the last request asks for no tile of any log. */
  lemma ServedEndIsSmall(server: Server, start: int, end: int)
    requires InInt64(start) && InInt64(end) && start < end && AllServed(server, Plan(start, end))
    ensures end < MAX_INT64
  {
    assert Served(server, Plan(start, end)[|Plan(start, end)| - 1]);
  }

  /** Every index of (start, end] that a log can hold is among the entries. */
  ghost predicate Contains(entries: seq<Entry>, start: int, end: int) {
    forall i :: start < i <= end && 0 <= i ==> Returned(entries, i)
  }

  lemma LastWidth(end: int)
    requires end >= 0
    ensures end / TILE_WIDTH * TILE_WIDTH + Width(Request(0, (end + 1) % TILE_WIDTH)) == end + 1
  {
  }

  lemma NegativeStartPlan(start: int, end: int, from: int)
    requires InInt64(start) && start < -1 && 0 <= end < MAX_INT64 && 0 <= from <= end / TILE_WIDTH
    requires from == TileIndex(start) + 1 || (from == TileIndex(start) == end / TILE_WIDTH)
    ensures ReadBefore(start, end) == 0
    ensures Plan(start, end) == FullTiles(from, end / TILE_WIDTH) + [Request(end / TILE_WIDTH, (end + 1) % TILE_WIDTH)]
  {
    assert TruncMod(end + 1, TILE_WIDTH) == (end + 1) % TILE_WIDTH;
  }

  lemma NegativeStartFlattens(server: Server, start: int, end: int, from: int)
    requires InInt64(start) && start < -1 && 0 <= end < MAX_INT64 && 0 <= from <= end / TILE_WIDTH
    requires AllServed(server, Plan(start, end))
    requires from == TileIndex(start) + 1 || (from == TileIndex(start) == end / TILE_WIDTH)
    ensures end < |server.log|
    ensures Fetched(server, start, end) == Numbered(server.log, from * TILE_WIDTH, end + 1)
  {
    NegativeStartPlan(start, end, from);
    LastWidth(end);
    var plan, limit, width := Plan(start, end), end / TILE_WIDTH, (end + 1) % TILE_WIDTH;
    ConsecutiveTail(server, plan, from, limit, width, 0, from * TILE_WIDTH, end + 1);
    assert Fetched(server, start, end) == Flat(server, plan)[0..];
  }

  /** For arbitrary int64 arguments a successful fetch contains (start, end] if and only if it is not one
      of the calls with -256 <= start <= -2 that reach past the first tile: those skip tile 0. */
  lemma ContainsExactly(server: Server, start: int, end: int)
    requires InInt64(start) && InInt64(end) && start < end
    requires AllServed(server, Plan(start, end))
    ensures Contains(Fetched(server, start, end), start, end) <==> !(-256 <= start <= -2 && end >= 256)
  {
    var plan := Plan(start, end);
    assert Served(server, plan[|plan| - 1]);
    if start >= -1 {
      RangeRefinement(server, start, end);
    } else if end >= 0 {
      assert plan[0].tile == (if TileIndex(start) < end / TILE_WIDTH then TileIndex(start) + 1 else end / TILE_WIDTH);
      assert Served(server, plan[0]);
      assert -1 <= TileIndex(start) <= 0;
      var from := if TileIndex(start) == end / TILE_WIDTH then 0 else TileIndex(start) + 1;
      NegativeStartFlattens(server, start, end, from);
      forall i
        ensures Returned(Fetched(server, start, end), i) <==> from * TILE_WIDTH <= i <= end
      {
        NumberedReturns(server.log, from * TILE_WIDTH, end + 1, i);
      }
      if from == 1 {
        assert !Returned(Fetched(server, start, end), 0);
      }
    }
  }

  lemma SkippedPlan()
    ensures TileIndex(-2) == 0 && Plan(-2, 256) == [Request(1, 1)]
  {
    assert TruncDiv(-1, 256) == 0 && TruncMod(-1, 256) == -1;
    NegativeStartPlan(-2, 256, 1);
    assert FullTiles(1, 1) == [];
  }

  /** One such call: of a log of 257 entries it requests only the last one, and entry 0 is not in the result. */
  lemma SkippedTile(server: Server)
    requires |server.log| == 257 && server.answers(Request(1, 1))
    ensures Plan(-2, 256) == [Request(1, 1)] && AllServed(server, Plan(-2, 256))
    ensures !Returned(Fetched(server, -2, 256), 0) && !Contains(Fetched(server, -2, 256), -2, 256)
  {
    SkippedPlan();
    var plan := Plan(-2, 256);
    assert Served(server, plan[0]);
    ContainsExactly(server, -2, 256);
    NegativeStartFlattens(server, -2, 256, 1);
    NumberedReturns(server.log, 256, 257, 0);
  }

  // ----- repeated reads over the calls of one process: call k fetches (ends[k], ends[k + 1]]

  predicate FetchesIndex(start: int, end: int, i: int) {
    start < end && First(start, end) <= i <= end
  }

  function Fetches(ends: seq<int>, i: int): nat {
    if |ends| < 2 then 0
    else (if FetchesIndex(ends[0], ends[1], i) then 1 else 0) + Fetches(ends[1..], i)
  }

  predicate NonDecreasing(ends: seq<int>) {
    forall k :: 0 < k < |ends| ==> ends[k - 1] <= ends[k]
  }

  /** How often index i can still be read once everything up to `start` has been. */
  function Remaining(start: int, i: int): nat {
    if start < i then TILE_WIDTH - i % TILE_WIDTH
    else if start < i / TILE_WIDTH * TILE_WIDTH + TILE_WIDTH - 1
    then i / TILE_WIDTH * TILE_WIDTH + TILE_WIDTH - 1 - start
    else 0
  }

  lemma {:induction false} FetchesAtMostRemaining(ends: seq<int>, i: int)
    requires |ends| > 0 && ends[0] >= -1 && NonDecreasing(ends)
    ensures Fetches(ends, i) <= Remaining(ends[0], i)
    decreases |ends|
  {
    if |ends| >= 2 {
      var rest := ends[1..];
      assert NonDecreasing(rest) by {
        assert forall k :: 0 < k < |rest| ==> rest[k - 1] == ends[k] && rest[k] == ends[k + 1];
      }
      FetchesAtMostRemaining(rest, i);
    }
  }

  lemma {:induction false} FetchesAtLeastOnce(ends: seq<int>, i: int)
    requires |ends| > 0 && NonDecreasing(ends) && ends[0] < i <= ends[|ends| - 1]
    ensures Fetches(ends, i) >= 1
    decreases |ends|
  {
    if ends[1] < i {
      var rest := ends[1..];
      assert forall k :: 0 < k < |rest| ==> rest[k - 1] == ends[k] && rest[k] == ends[k + 1];
      FetchesAtLeastOnce(rest, i);
    }
  }

  /** Over any run of calls that hand each end on as the next start, every index past the first start and
      up to the last end is read at least once and at most 256 - i mod 256 times. */
  lemma BoundedRepetition(ends: seq<int>, i: int)
    requires |ends| > 0 && ends[0] >= -1 && NonDecreasing(ends)
    requires ends[0] < i <= ends[|ends| - 1]
    ensures 1 <= Fetches(ends, i) <= TILE_WIDTH - i % TILE_WIDTH
  {
    FetchesAtLeastOnce(ends, i);
    FetchesAtMostRemaining(ends, i);
  }

  function UpFrom(from: int, limit: int): seq<int>
    requires from <= limit
  {
    seq(limit - from + 1, k => from + k)
  }

  lemma {:induction false} EveryStepReads(start: int, i: int)
    requires 0 <= i <= start <= i / TILE_WIDTH * TILE_WIDTH + TILE_WIDTH - 1
    ensures Fetches(UpFrom(start, i / TILE_WIDTH * TILE_WIDTH + TILE_WIDTH - 1), i) == Remaining(start, i)
    decreases i / TILE_WIDTH * TILE_WIDTH + TILE_WIDTH - 1 - start
  {
    var top := i / TILE_WIDTH * TILE_WIDTH + TILE_WIDTH - 1;
    if start < top {
      var ups := UpFrom(start, top);
      assert ups[1..] == UpFrom(start + 1, top) && ups[0] == start && ups[1] == start + 1;
      assert FetchesIndex(start, start + 1, i);
      EveryStepReads(start + 1, i);
    }
  }

  lemma FirstReadCounts(i: int, rest: seq<int>)
    requires 0 <= i && rest != [] && rest[0] == i
    ensures Fetches([i - 1] + rest, i) == 1 + Fetches(rest, i)
    ensures Remaining(i, i) + 1 == TILE_WIDTH - i % TILE_WIDTH
  {
    assert ([i - 1] + rest)[1..] == rest;
    assert FetchesIndex(i - 1, i, i);
  }

  /** The bound is reached: when the log grows by one entry between calls, each read of i's tile repeats i. */
  lemma {:induction false} RepetitionBoundIsTight(i: int)
    requires 0 <= i
    ensures Fetches(UpFrom(i - 1, i / TILE_WIDTH * TILE_WIDTH + TILE_WIDTH - 1), i) == TILE_WIDTH - i % TILE_WIDTH
  {
    var top := i / TILE_WIDTH * TILE_WIDTH + TILE_WIDTH - 1;
    EveryStepReads(i, i);
    FirstReadCounts(i, UpFrom(i, top));
    assert UpFrom(i - 1, top) == [i - 1] + UpFrom(i, top);
  }
}
