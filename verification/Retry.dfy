/** Retrying a call with a capped, growing pause between attempts. */
module Retry {
  /** Durations are whole nanoseconds; the multiplier is an exact real. */
  datatype Settings = Settings(
    maxAttempts: int, initialInterval: int, maxInterval: int, multiplier: real, maxElapsedTime: int)

  datatype Setting =
    | WithMaxAttempts(attempts: int)
    | WithInitialInterval(interval: int)
    | WithMaxInterval(maximum: int)
    | WithMultiplier(factor: real)
    | WithMaxElapsedTime(duration: int)

  const SECOND: int := 1_000_000_000

  const DEFAULTS: Settings := Settings(5, SECOND, 5 * SECOND, 1.5, 30 * SECOND)

  predicate Valid(s: Settings) {
    s.maxAttempts > 0 && s.initialInterval > 0 && s.maxInterval > 0 && s.multiplier > 1.0 && s.maxElapsedTime > 0
  }

  /** The configuration object that the options mutate. */
  class RetryConfig {
    var settings: Settings

    constructor ()
      ensures settings == Settings(5, 1_000_000_000, 5_000_000_000, 1.5, 30_000_000_000)
    {
      settings := DEFAULTS;
    }

    /** An option with a value out of range is ignored; the others set their own field and nothing else. */
    method Apply(option: Setting)
      requires Valid(settings)
      modifies this
      ensures Valid(settings)
      ensures option.WithMaxAttempts? ==>
                settings == if option.attempts > 0
                    then old(settings).(maxAttempts := option.attempts) else old(settings)
      ensures option.WithInitialInterval? ==>
                settings == if option.interval > 0
                    then old(settings).(initialInterval := option.interval) else old(settings)
      ensures option.WithMaxInterval? ==>
                settings == if option.maximum > 0 then old(settings).(maxInterval := option.maximum) else old(settings)
      ensures option.WithMultiplier? ==>
                settings == if option.factor > 1.0 then old(settings).(multiplier := option.factor) else old(settings)
      ensures option.WithMaxElapsedTime? ==>
                settings == if option.duration > 0
                    then old(settings).(maxElapsedTime := option.duration) else old(settings)
    {
      match option
      case WithMaxAttempts(n) => if n > 0 { settings := settings.(maxAttempts := n); }
      case WithInitialInterval(d) => if d > 0 { settings := settings.(initialInterval := d); }
      case WithMaxInterval(d) => if d > 0 { settings := settings.(maxInterval := d); }
      case WithMultiplier(m) => if m > 1.0 { settings := settings.(multiplier := m); }
      case WithMaxElapsedTime(d) => if d > 0 { settings := settings.(maxElapsedTime := d); }
    }
  }

  datatype Attempt = Succeeds | Fails(retryable: bool)

  /** Attempt n's outcome, the time elapsed before it, and whether the context ends during the pause after it. */
  datatype World = World(outcome: nat -> Attempt, elapsed: nat -> int, cancelled: nat -> bool)

  datatype Verdict = Succeeded | TimedOut | NotRetryable | Exhausted | Cancelled | Invalid | Unexpected

  function Grown(interval: int, multiplier: real): int {
    (interval as real * multiplier).Floor
  }

  function Min(a: int, b: int): int {
    if a <= b then a else b
  }

  /** The k-th pause, counting from 0: capped after every growth. The first one is not capped. */
  function IntervalAt(s: Settings, k: nat): int {
    if k == 0 then s.initialInterval else Min(Grown(IntervalAt(s, k - 1), s.multiplier), s.maxInterval)
  }

  function UncappedAt(s: Settings, k: nat): int {
    if k == 0 then s.initialInterval else Grown(UncappedAt(s, k - 1), s.multiplier)
  }

  function Sum(xs: seq<int>): int {
    if xs == [] then 0 else Sum(xs[..|xs| - 1]) + xs[|xs| - 1]
  }

  function Pauses(s: Settings, n: nat): seq<int> {
    seq(n, k requires 0 <= k < n => IntervalAt(s, k))
  }

  /** The pause after one of `prev`: the multiplier times that in whole nanoseconds, or the longest one from where
      that reaches it. */
  ghost predicate GrowsTo(s: Settings, prev: int, next: int) {
    var product := prev as real * s.multiplier;
    && next <= s.maxInterval
    && (next == s.maxInterval <==> product >= s.maxInterval as real)
    && (next < s.maxInterval ==> product - 1.0 < next as real <= product)
  }

  ghost predicate Grows(s: Settings, sleeps: seq<int>) {
    && (sleeps != [] ==> sleeps[0] == s.initialInterval)
    && forall k :: 0 < k < |sleeps| ==> GrowsTo(s, sleeps[k - 1], sleeps[k])
  }

  function Configured(options: seq<Setting>): Settings {
    if options == [] then DEFAULTS else Configure(Configured(options[..|options| - 1]), options[|options| - 1])
  }

  function Configure(s: Settings, option: Setting): Settings {
    match option
    case WithMaxAttempts(n) => if n > 0 then s.(maxAttempts := n) else s
    case WithInitialInterval(d) => if d > 0 then s.(initialInterval := d) else s
    case WithMaxInterval(d) => if d > 0 then s.(maxInterval := d) else s
    case WithMultiplier(m) => if m > 1.0 then s.(multiplier := m) else s
    case WithMaxElapsedTime(d) => if d > 0 then s.(maxElapsedTime := d) else s
  }

  /** Whatever the options, the settings are valid. */
  lemma {:induction false} OptionsKeepValid(options: seq<Setting>)
    ensures Valid(Configured(options))
    ensures var s := Configured(options);
            && s.maxAttempts >= 1 && s.initialInterval >= 1 && s.maxInterval >= 1 && s.multiplier > 1.0
            && s.maxElapsedTime >= 1
    decreases |options|
  {
    if options != [] {
      OptionsKeepValid(options[..|options| - 1]);
    }
  }

  datatype Field = Attempts | Initial | Maximum | Factor | Elapsed

  /** The option sets this field: it is the field's option, with a value in range. */
  predicate Sets(option: Setting, field: Field) {
    match option
    case WithMaxAttempts(n) => field == Attempts && n > 0
    case WithInitialInterval(d) => field == Initial && d > 0
    case WithMaxInterval(d) => field == Maximum && d > 0
    case WithMultiplier(m) => field == Factor && m > 1.0
    case WithMaxElapsedTime(d) => field == Elapsed && d > 0
  }

  function FieldOf(s: Settings, field: Field): real {
    match field
    case Attempts => s.maxAttempts as real
    case Initial => s.initialInterval as real
    case Maximum => s.maxInterval as real
    case Factor => s.multiplier
    case Elapsed => s.maxElapsedTime as real
  }

  function ValueOf(option: Setting): real {
    match option
    case WithMaxAttempts(n) => n as real
    case WithInitialInterval(d) => d as real
    case WithMaxInterval(d) => d as real
    case WithMultiplier(m) => m
    case WithMaxElapsedTime(d) => d as real
  }

  /** Option k is the last one that sets the field. */
  predicate LastSets(options: seq<Setting>, field: Field, k: int) {
    0 <= k < |options| && Sets(options[k], field) && forall j :: k < j < |options| ==> !Sets(options[j], field)
  }

  predicate Unset(options: seq<Setting>, field: Field) {
    forall k :: 0 <= k < |options| ==> !Sets(options[k], field)
  }

  /** Each field has the value of the last option that sets it, or its default. */
  lemma {:induction false} LastOptionWins(options: seq<Setting>, field: Field, k: int)
    ensures LastSets(options, field, k) ==> FieldOf(Configured(options), field) == ValueOf(options[k])
    ensures Unset(options, field) ==>
              FieldOf(Configured(options), field) ==
              FieldOf(Settings(5, 1_000_000_000, 5_000_000_000, 1.5, 30_000_000_000), field)
    decreases |options|
  {
    if options != [] {
      var front, last := options[..|options| - 1], options[|options| - 1];
      ConfigureSets(Configured(front), last, field);
      LastOptionWins(front, field, k);
      assert LastSets(options, field, k) && k < |front| ==> LastSets(front, field, k) && front[k] == options[k];
      assert Unset(options, field) ==> Unset(front, field) && !Sets(last, field);
    }
  }

  lemma ConfigureSets(s: Settings, option: Setting, field: Field)
    ensures FieldOf(Configure(s, option), field) == if Sets(option, field) then ValueOf(option) else FieldOf(s, field)
  {
  }

  /** `calls` counts the attempts made; `sleeps` are the pauses taken in full. The last attempt that is looked at
      decides: too late, a success, an error that must not be retried, no attempts left, or a cancelled pause. */
  method Run(w: World, options: seq<Setting>) returns (verdict: Verdict, calls: nat, sleeps: seq<int>)
    ensures var s, n := Configured(options), |sleeps| + 1;
            && n <= s.maxAttempts && calls == (if verdict == TimedOut then n - 1 else n)
            && (forall k :: 1 <= k < n ==>
                  w.elapsed(k) <= s.maxElapsedTime && w.outcome(k) == Fails(true) && !w.cancelled(k))
    ensures var s, n := Configured(options), |sleeps| + 1;
            match verdict
            case TimedOut => w.elapsed(n) > s.maxElapsedTime
            case Succeeded => w.elapsed(n) <= s.maxElapsedTime && w.outcome(n) == Succeeds
            case NotRetryable => w.elapsed(n) <= s.maxElapsedTime && w.outcome(n) == Fails(false)
            case Exhausted => w.elapsed(n) <= s.maxElapsedTime && w.outcome(n) == Fails(true) && n == s.maxAttempts
            case Cancelled =>
              w.elapsed(n) <= s.maxElapsedTime && w.outcome(n) == Fails(true) && n < s.maxAttempts && w.cancelled(n)
            case Invalid => false
            case Unexpected => false
    ensures Grows(Configured(options), sleeps) && sleeps == Pauses(Configured(options), |sleeps|)
  {
    var config := new RetryConfig();
    OptionsKeepValid([]);
    for k := 0 to |options|
      invariant config.settings == Configured(options[..k]) && Valid(config.settings)
    {
      assert options[..k + 1][..k] == options[..k];
      config.Apply(options[k]);
    }
    assert options[..|options|] == options;
    var s := config.settings;
    sleeps, calls := [], 0;
    if !Valid(s) {
      return Invalid, calls, sleeps;
    }
    var currentInterval := s.initialInterval;
    for attempt := 1 to s.maxAttempts + 1
      invariant calls == attempt - 1 == |sleeps|
      invariant sleeps == Pauses(s, |sleeps|)
      invariant currentInterval == IntervalAt(s, |sleeps|)
      invariant forall k :: 1 <= k < attempt ==>
                  w.elapsed(k) <= s.maxElapsedTime && w.outcome(k) == Fails(true) && !w.cancelled(k)
      invariant |sleeps| < s.maxAttempts
    {
      PausesGrow(s, |sleeps|);
      if s.maxElapsedTime > 0 && w.elapsed(attempt) > s.maxElapsedTime {
        return TimedOut, calls, sleeps;
      }
      calls := calls + 1;
      var outcome := w.outcome(attempt);
      if outcome.Succeeds? {
        return Succeeded, calls, sleeps;
      }
      if !outcome.retryable {
        return NotRetryable, calls, sleeps;
      }
      if attempt == s.maxAttempts {
        return Exhausted, calls, sleeps;
      }
      if w.cancelled(attempt) {
        return Cancelled, calls, sleeps;
      }
      sleeps := sleeps + [currentInterval];
      currentInterval := Grown(currentInterval, s.multiplier);
      if currentInterval > s.maxInterval {
        currentInterval := s.maxInterval;
      }
    }
    assert false;
    return Unexpected, calls, sleeps;
  }

  lemma PauseGrows(s: Settings, k: nat)
    requires k > 0
    ensures GrowsTo(s, IntervalAt(s, k - 1), IntervalAt(s, k))
  {
  }

  lemma PausesGrow(s: Settings, n: nat)
    ensures Grows(s, Pauses(s, n))
  {
    forall k: nat | 0 < k < n
      ensures GrowsTo(s, Pauses(s, n)[k - 1], Pauses(s, n)[k])
    {
      PauseGrows(s, k);
    }
  }

  lemma GrowsToOne(s: Settings, prev: int, next: int, other: int)
    requires GrowsTo(s, prev, next) && GrowsTo(s, prev, other)
    ensures next == other
  {
  }

  /** The growth law leaves one list of each length. */
  lemma {:induction false} GrowthDetermines(s: Settings, sleeps: seq<int>, others: seq<int>)
    requires Grows(s, sleeps) && Grows(s, others) && |sleeps| == |others|
    ensures sleeps == others
    decreases |sleeps|
  {
    if sleeps != [] {
      var n := |sleeps| - 1;
      GrowthDetermines(s, sleeps[..n], others[..n]);
      assert sleeps == sleeps[..n] + [sleeps[n]] && others == others[..n] + [others[n]];
      if n > 0 {
        assert sleeps[n - 1] == sleeps[..n][n - 1] == others[n - 1];
        GrowsToOne(s, sleeps[n - 1], sleeps[n], others[n]);
      }
    }
  }

  function Power(m: real, k: nat): real {
    if k == 0 then 1.0 else Power(m, k - 1) * m
  }

  /** No pause is longer than the initial one times the multiplier to the number of pauses before it. */
  lemma {:induction false} GrowthIsBounded(s: Settings, sleeps: seq<int>, k: nat)
    requires s.multiplier > 1.0 && Grows(s, sleeps) && k < |sleeps|
    ensures sleeps[k] as real <= s.initialInterval as real * Power(s.multiplier, k)
  {
    if k > 0 {
      GrowthIsBounded(s, sleeps, k - 1);
      var bound, m := s.initialInterval as real * Power(s.multiplier, k - 1), s.multiplier;
      ProductBound(sleeps[k - 1] as real, bound, m);
      ProductRegroups(s.initialInterval as real, Power(m, k - 1), m);
    }
  }

  lemma ProductBound(a: real, b: real, m: real)
    requires a <= b && m > 1.0
    ensures a * m <= b * m
  {
    assert (b - a) * m >= 0.0;
  }

  lemma ProductRegroups(a: real, b: real, c: real)
    ensures (a * b) * c == a * (b * c)
  {
  }

  /** Without options the pauses are 1 s, 1.5 s, 2.25 s and 3.375 s. */
  lemma DefaultPauses(sleeps: seq<int>)
    requires Grows(Configured([]), sleeps) && |sleeps| == 4
    ensures sleeps == [1_000_000_000, 1_500_000_000, 2_250_000_000, 3_375_000_000]
  {
    assert sleeps[1 - 1] == 1_000_000_000;
    assert sleeps[1] == 1_500_000_000;
    assert sleeps[2 - 1] == 1_500_000_000;
    assert sleeps[2] == 2_250_000_000;
    assert sleeps[3 - 1] == 2_250_000_000;
    assert sleeps[3] == 3_375_000_000;
  }

  lemma GrowthNeverShrinks(x: int, y: int, m: real)
    requires 0 < x <= y && m > 1.0
    ensures x <= Grown(x, m) <= Grown(y, m)
  {
    assert x as real * m >= x as real;
    assert y as real * m >= x as real * m by {
      assert (y as real - x as real) * m >= 0.0;
    }
  }

  lemma {:induction false} IntervalsArePositive(s: Settings, k: nat)
    requires Valid(s)
    ensures 0 < IntervalAt(s, k) && (k > 0 ==> IntervalAt(s, k) <= s.maxInterval)
    ensures 0 < UncappedAt(s, k)
  {
    if k > 0 {
      IntervalsArePositive(s, k - 1);
      GrowthNeverShrinks(IntervalAt(s, k - 1), IntervalAt(s, k - 1), s.multiplier);
      GrowthNeverShrinks(UncappedAt(s, k - 1), UncappedAt(s, k - 1), s.multiplier);
    }
  }

  /** Capping after every step is the same as capping the uncapped sequence once. */
  lemma {:induction false} CappingOnceSuffices(s: Settings, k: nat)
    requires Valid(s) && k > 0
    ensures IntervalAt(s, k) == Min(UncappedAt(s, k), s.maxInterval)
  {
    if k > 1 {
      CappingOnceSuffices(s, k - 1);
      IntervalsArePositive(s, k - 1);
      GrowthNeverShrinks(IntervalAt(s, k - 1), UncappedAt(s, k - 1), s.multiplier);
    }
  }

  lemma {:induction false} PausesAreBounded(s: Settings, n: nat, limit: nat)
    requires Valid(s) && 0 < n <= limit
    ensures s.initialInterval <= Sum(Pauses(s, n)) <= s.initialInterval + (limit - 1) * s.maxInterval
    decreases n, limit
  {
    assert Pauses(s, n)[..n - 1] == Pauses(s, n - 1);
    IntervalsArePositive(s, n - 1);
    if n > 1 {
      PausesAreBounded(s, n - 1, limit - 1);
      assert (limit - 1) * s.maxInterval == (limit - 2) * s.maxInterval + s.maxInterval;
    } else {
      assert Pauses(s, 0) == [];
      assert (limit - 1) * s.maxInterval >= 0;
    }
  }

  /** The pauses of any run, one fewer than its attempts at most, add up to no more than the first interval
      and a longest one for each further pause; a single attempt never pauses. */
  lemma TotalSleepIsBounded(options: seq<Setting>, pauses: nat)
    requires pauses + 1 <= Configured(options).maxAttempts
    ensures var s := Configured(options);
            Sum(Pauses(s, pauses)) <= if s.maxAttempts >= 2
                then s.initialInterval + (s.maxAttempts - 2) * s.maxInterval else 0
  {
    var s := Configured(options);
    OptionsKeepValid(options);
    if s.maxAttempts >= 2 {
      PausesAreBounded(s, s.maxAttempts - 1, s.maxAttempts - 1);
      if pauses > 0 {
        PausesAreBounded(s, pauses, s.maxAttempts - 1);
      }
    }
  }
}
