/** Shared vocabulary: optional values, fallible results and Go's fixed-width integer arithmetic. */
module Prelude {

  datatype Option<+T> = None | Some(value: T)

  datatype Result<+T> = Ok(value: T) | Err(message: string)

  const MAX_INT64: int := 0x7FFF_FFFF_FFFF_FFFF
  const TWO_TO_64: int := 0x1_0000_0000_0000_0000

  predicate InInt64(x: int) {
    -MAX_INT64 - 1 <= x <= MAX_INT64
  }

  /** The int64 that Go's wrapping arithmetic (or a uint64-to-int64 conversion) leaves in place of `x`. */
  function Wrap64(x: int): (r: int)
    ensures InInt64(r)
    ensures InInt64(x) ==> r == x
  {
    var m := x % TWO_TO_64;
    if m > MAX_INT64 then m - TWO_TO_64 else m
  }

  /** Go's `/`, which truncates toward zero. */
  function TruncDiv(a: int, b: int): int
    requires b > 0
  {
    if a >= 0 then a / b else -((-a) / b)
  }

  /** Go's `%`, whose sign follows the dividend. */
  function TruncMod(a: int, b: int): int
    requires b > 0
  {
    a - TruncDiv(a, b) * b
  }
}

/** What a log entry looks like once the foreign parsers are done with it. */
module Domain {
  import opened Prelude

  /** A certificate extension: its identifier, its value decoded as an ASN.1 string, and its raw bytes. */
  datatype Extension = Extension(id: seq<int>, decoded: Result<string>, raw: string)

  datatype Certificate = Certificate(sans: seq<string>, extensions: seq<Extension>)

  /** The outcome of extracting the verifiers, and then the identities, of one entry. */
  datatype Parse =
    | BadVerifiers
    | BadIdentities
    | Parsed(subjects: seq<string>, certs: seq<Certificate>, fingerprints: seq<string>)

  datatype Body = Body(uuid: string, parse: Parse)

  datatype Entry = Entry(body: Body, index: int)

  /** The entries lo, ..., hi - 1 of a log, each with its own index. */
  function Numbered(log: seq<Body>, lo: int, hi: int): seq<Entry>
    requires 0 <= lo <= hi <= |log|
  {
    seq(hi - lo, i requires 0 <= i < hi - lo => Entry(log[lo + i], lo + i))
  }

  lemma NumberedJoins(log: seq<Body>, lo: int, mid: int, hi: int)
    requires 0 <= lo <= mid <= hi <= |log|
    ensures Numbered(log, lo, mid) + Numbered(log, mid, hi) == Numbered(log, lo, hi)
  {
  }

  lemma NumberedDrops(log: seq<Body>, lo: int, k: int, hi: int)
    requires 0 <= lo <= hi <= |log| && 0 <= k <= hi - lo
    ensures Numbered(log, lo, hi)[k..] == Numbered(log, lo + k, hi)
  {
  }

  predicate Returned(entries: seq<Entry>, index: int) {
    exists k :: 0 <= k < |entries| && entries[k].index == index
  }

  lemma NumberedReturns(log: seq<Body>, lo: int, hi: int, index: int)
    requires 0 <= lo <= hi <= |log|
    ensures Returned(Numbered(log, lo, hi), index) <==> lo <= index < hi
  {
    if lo <= index < hi {
      assert Numbered(log, lo, hi)[index - lo].index == index;
    }
  }
}
