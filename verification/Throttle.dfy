/**
The domain throttle of src/throttle.rs as one thread sees it: the six atomic cells of a
domain, the methods that update them, and closed forms for whole sequences of calls.
ThrottleInterleaving.dfy cuts the same methods into their atomic operations.

Machine integers are modelled with their width: counters wrap, and the number of decayed
levels is truncated to 32 bits exactly where the code casts it.
*/
module Throttle {
  import opened Arithmetic

  type u32 = n: nat | n < U32
  type u64 = n: nat | n < U64

  /** Durations are counted in nanoseconds. */
  const MILLISECOND: nat := 1_000_000

  datatype Config = Config(maxLevel: u32, threshold: u32, decayInterval: u64, table: seq<nat>) {
    /** A threshold of 0 is passed by every success, exactly like a threshold of 1. */
    function EffectiveThreshold(): (t: nat)
      ensures 1 <= t < U32
    {
      Max(threshold, 1)
    }

    /** The delay looked up for a level; a short table falls back to two seconds. */
    function DelayAt(level: nat): nat {
      var i := Min(level, maxLevel);
      if i < |table| then table[i] else 2000 * MILLISECOND
    }
  }

  /** The atomic cells of one domain. */
  datatype Cells = Cells(
    lastAt: u64,
    level: u32,
    streak: u32,
    rateLimits: u64,
    successes: u64,
    skips: u64)

  const FRESH: Cells := Cells(0, 0, 0, 0, 0, 0)

  /** What a delay query produces; a decay interval of zero divides by zero. */
  datatype Reading = Delay(nanos: nat) | DivisionByZero

  /** Levels that one delay query takes off, given the time of the last 429 and the time now. */
  function DecaySteps(cfg: Config, lastAt: u64, now: u64): (steps: u32)
    requires cfg.decayInterval > 0
  {
    if lastAt == 0 then 0 else Intervals(cfg, lastAt, now) % U32
  }

  /** Whole decay intervals between the last 429 and now. */
  function Intervals(cfg: Config, lastAt: u64, now: u64): nat
    requires cfg.decayInterval > 0
  {
    Monus(now, lastAt) / cfg.decayInterval
  }

  // ---- one call, seen as a function of the cells ----

  function AfterRateLimit(cfg: Config, c: Cells, now: u64): Cells {
    Cells(now, Min(Min(c.level + 1, U32 - 1), cfg.maxLevel), 0,
          (c.rateLimits + 1) % U64, c.successes, c.skips)
  }

  function AfterSuccess(cfg: Config, c: Cells): Cells {
    var c1 := c.(successes := (c.successes + 1) % U64);
    if c.level == 0 then c1
    else if (c.streak + 1) % U32 >= cfg.threshold then c1.(streak := 0, level := c.level - 1)
    else c1.(streak := (c.streak + 1) % U32)
  }

  function AfterSkip(c: Cells): Cells {
    c.(skips := (c.skips + 1) % U64)
  }

  function AfterDelay(cfg: Config, c: Cells, now: u64): (Cells, Reading) {
    if c.level == 0 then (c, Delay(0))
    else if c.lastAt > 0 && cfg.decayInterval == 0 then (c, DivisionByZero)
    else
      var steps := if c.lastAt == 0 then 0 else DecaySteps(cfg, c.lastAt, now);
      var c1 := c.(level := Monus(c.level, steps));
      (c1, Delay(cfg.DelayAt(c1.level)))
  }

  /** The shared state of one rate-limit domain. */
  class DomainThrottle {
    const config: Config
    var lastAt: u64
    var level: u32
    var streak: u32
    var rateLimits: u64
    var successes: u64
    var skips: u64

    function Snapshot(): Cells
      reads this
    {
      Cells(lastAt, level, streak, rateLimits, successes, skips)
    }

    /** Between two calls of a single thread the level is capped and the streak is below the threshold. */
    ghost predicate Valid()
      reads this
    {
      level <= config.maxLevel && streak < config.EffectiveThreshold()
    }

    constructor (config: Config)
      ensures this.config == config && Snapshot() == FRESH && Valid()
    {
      this.config := config;
      lastAt, level, streak := 0, 0, 0;
      rateLimits, successes, skips := 0, 0, 0;
    }

    method RecordRateLimit(now: u64)
      modifies this
      ensures Snapshot() == AfterRateLimit(config, old(Snapshot()), now)
      ensures Valid()
    {
      lastAt := now;
      streak := 0;
      rateLimits := (rateLimits + 1) % U64;
      level := Min(Min(level + 1, U32 - 1), config.maxLevel);
    }

    /** A rejected batch escalates exactly as a 429 does. */
    method RecordBatchRejection(now: u64)
      modifies this
      ensures Snapshot() == AfterRateLimit(config, old(Snapshot()), now)
      ensures Valid()
    {
      lastAt := now;
      streak := 0;
      rateLimits := (rateLimits + 1) % U64;
      level := Min(Min(level + 1, U32 - 1), config.maxLevel);
    }

    method RecordSkip()
      modifies this`skips
      ensures Snapshot() == AfterSkip(old(Snapshot()))
    {
      skips := (skips + 1) % U64;
    }

    method RecordSuccess()
      modifies this
      ensures Snapshot() == AfterSuccess(config, old(Snapshot()))
      ensures old(Valid()) ==> Valid()
    {
      successes := (successes + 1) % U64;
      if level == 0 {
        return;
      }
      var prev := streak;
      streak := (streak + 1) % U32;
      if (prev + 1) % U32 >= config.threshold {
        streak := 0;
        level := Monus(level, 1);
      }
    }

    method PreRequestDelay(now: u64) returns (r: Reading)
      modifies this`level
      ensures (Snapshot(), r) == AfterDelay(config, old(Snapshot()), now)
      ensures old(Valid()) ==> Valid()
    {
      if level == 0 {
        return Delay(0);
      }
      if lastAt > 0 {
        if config.decayInterval == 0 {
          return DivisionByZero;
        }
        var elapsed := Monus(now, lastAt);
        var decayable := (elapsed / config.decayInterval) % U32;
        if decayable > 0 {
          level := Monus(level, Min(decayable, level));
        }
      }
      return Delay(config.DelayAt(level));
    }
  }

  // ---- closed forms over sequences of calls ----

  function Successes(cfg: Config, c: Cells, n: nat): Cells {
    if n == 0 then c else AfterSuccess(cfg, Successes(cfg, c, n - 1))
  }

  /** Level and streak after some successes, when the streak they have gone through is q * threshold + r. */
  predicate Recovered(before: Cells, after: Cells, q: nat, r: nat) {
    && after.level == Monus(before.level, q)
    && after.streak == (if before.level == 0 then before.streak else if q < before.level then r else 0)
  }

  lemma OneMoreSuccess(cfg: Config, before: Cells, c: Cells, q: nat, r: nat)
    requires r < cfg.EffectiveThreshold() && Recovered(before, c, q, r)
    ensures r + 1 < cfg.EffectiveThreshold() ==> Recovered(before, AfterSuccess(cfg, c), q, r + 1)
    ensures r + 1 == cfg.EffectiveThreshold() ==> Recovered(before, AfterSuccess(cfg, c), q + 1, 0)
  {
  }

  /** n successes in a row take off one level per threshold successes, counted from the streak they start with. */
  lemma {:induction false} SuccessesFrom(cfg: Config, c: Cells, n: nat, q: nat, r: nat)
    requires c.streak < cfg.EffectiveThreshold() && r < cfg.EffectiveThreshold()
    requires c.streak + n == q * cfg.EffectiveThreshold() + r
    ensures Recovered(c, Successes(cfg, c, n), q, r)
  {
    var t := cfg.EffectiveThreshold();
    if n == 0 {
      QuotientUnique(0, c.streak, t, q, r);
    } else if r > 0 {
      SuccessesFrom(cfg, c, n - 1, q, r - 1);
      OneMoreSuccess(cfg, c, Successes(cfg, c, n - 1), q, r - 1);
    } else {
      assert (q - 1) * t + t == q * t;
      SuccessesFrom(cfg, c, n - 1, q - 1, t - 1);
      OneMoreSuccess(cfg, c, Successes(cfg, c, n - 1), q - 1, t - 1);
    }
  }

  lemma SuccessesClosedForm(cfg: Config, c: Cells, n: nat)
    requires c.streak < cfg.EffectiveThreshold()
    ensures var t := cfg.EffectiveThreshold();
            Recovered(c, Successes(cfg, c, n), (c.streak + n) / t, (c.streak + n) % t)
  {
    var t := cfg.EffectiveThreshold();
    SuccessesFrom(cfg, c, n, (c.streak + n) / t, (c.streak + n) % t);
  }

  /** "One level per threshold successes" after a 429. */
  lemma RecoveryAfterRateLimit(cfg: Config, c: Cells, now: u64, n: nat)
    ensures var hit := AfterRateLimit(cfg, c, now);
            Successes(cfg, hit, n).level == Monus(hit.level, n / cfg.EffectiveThreshold())
  {
    SuccessesClosedForm(cfg, AfterRateLimit(cfg, c, now), n);
  }

  /** By default five successes in a row take off the level of one 429, and four do not. */
  lemma DefaultRecovery(now: u64, n: nat)
    ensures Successes(DEFAULT, AfterRateLimit(DEFAULT, FRESH, now), n).level == if n < 5 then 1 else 0
  {
    RecoveryAfterRateLimit(DEFAULT, FRESH, now, n);
    if n < 5 {
      DivisionUnique(n, 5, 0, n);
    } else {
      QuotientAtLeast(n, 5, 1);
    }
  }

  /** The cells after delay queries at the given instants, with nothing in between. */
  function Delays(cfg: Config, c: Cells, times: seq<u64>): Cells {
    if times == [] then c
    else AfterDelay(cfg, Delays(cfg, c, times[..|times| - 1]), times[|times| - 1]).0
  }

  function TotalSteps(cfg: Config, lastAt: u64, times: seq<u64>): nat
    requires cfg.decayInterval > 0
  {
    if times == [] then 0
    else TotalSteps(cfg, lastAt, times[..|times| - 1]) + DecaySteps(cfg, lastAt, times[|times| - 1])
  }

  /** Every query subtracts again, because the time of the last 429 does not move. */
  lemma {:induction false} DelaysClosedForm(cfg: Config, c: Cells, times: seq<u64>)
    requires cfg.decayInterval > 0
    ensures Delays(cfg, c, times) == c.(level := Monus(c.level, TotalSteps(cfg, c.lastAt, times)))
  {
    if times != [] {
      DelaysClosedForm(cfg, c, times[..|times| - 1]);
    }
  }

  /** The documented rule: one level per whole interval since the last 429, however often it is read. */
  predicate OneLevelPerInterval(cfg: Config, c: Cells, earlier: seq<u64>, now: u64)
    requires cfg.decayInterval > 0
  {
    Delays(cfg, c, earlier + [now]).level == Monus(c.level, Intervals(cfg, c.lastAt, now))
  }

  /**
  When the documented rule holds. A 429 stamped with time 0 never decays. Below 2^32 intervals the
  earlier queries must have taken nothing off, unless the last one empties the level anyway. From
  2^32 intervals on the level should be empty, and is if the truncated quotients suffice.
  */
  lemma OneLevelPerIntervalExactly(cfg: Config, c: Cells, earlier: seq<u64>, now: u64)
    requires cfg.decayInterval > 0
    ensures OneLevelPerInterval(cfg, c, earlier, now) <==>
            if c.lastAt == 0 then c.level == 0 || Intervals(cfg, 0, now) == 0
            else if Intervals(cfg, c.lastAt, now) < U32 then
              c.level <= Intervals(cfg, c.lastAt, now) || NothingTaken(cfg, c.lastAt, earlier)
            else c.level <= TotalSteps(cfg, c.lastAt, earlier) + Intervals(cfg, c.lastAt, now) % U32
  {
    var q, total := Intervals(cfg, c.lastAt, now), TotalSteps(cfg, c.lastAt, earlier);
    DelaysClosedForm(cfg, c, earlier + [now]);
    TotalStepsMore(cfg, c.lastAt, earlier, now);
    NoStepsExactly(cfg, c.lastAt, earlier);
    if c.lastAt > 0 {
      RuleOnNumbers(c.level, total, q);
    }
  }

  /** No query at one of these times sees a number of intervals that takes a level off. */
  predicate NothingTaken(cfg: Config, lastAt: u64, times: seq<u64>)
    requires cfg.decayInterval > 0
  {
    forall i :: 0 <= i < |times| ==> Intervals(cfg, lastAt, times[i]) % U32 == 0
  }

  lemma RuleOnNumbers(level: u32, total: nat, q: nat)
    ensures Monus(level, total + q % U32) == Monus(level, q) <==>
            if q < U32 then level <= q || total == 0 else level <= total + q % U32
  {
  }

  lemma TotalStepsMore(cfg: Config, lastAt: u64, earlier: seq<u64>, now: u64)
    requires cfg.decayInterval > 0
    ensures TotalSteps(cfg, lastAt, earlier + [now]) == TotalSteps(cfg, lastAt, earlier) + DecaySteps(cfg, lastAt, now)
  {
    assert (earlier + [now])[..|earlier|] == earlier;
  }

  lemma {:induction false} NoStepsExactly(cfg: Config, lastAt: u64, times: seq<u64>)
    requires cfg.decayInterval > 0
    ensures TotalSteps(cfg, lastAt, times) == 0 <==>
            lastAt == 0 || NothingTaken(cfg, lastAt, times)
  {
    if times != [] {
      var k := |times| - 1;
      NoStepsExactly(cfg, lastAt, times[..k]);
      assert forall i :: 0 <= i < k ==> times[..k][i] == times[i];
    }
  }

  /** The default configuration. */
  const DEFAULT: Config :=
    Config(5, 5, 10_000, [0, 50 * MILLISECOND, 150 * MILLISECOND, 400 * MILLISECOND, 1000 * MILLISECOND, 2000 * MILLISECOND])

  /** A fresh domain after n 429s at one instant. */
  function RateLimits(cfg: Config, n: nat, now: u64): Cells {
    if n == 0 then FRESH else AfterRateLimit(cfg, RateLimits(cfg, n - 1, now), now)
  }

  lemma {:induction false} RateLimitsLevel(cfg: Config, n: nat, now: u64)
    ensures RateLimits(cfg, n, now).level == Min(n, cfg.maxLevel)
    ensures n > 0 ==> RateLimits(cfg, n, now).lastAt == now
  {
    if n > 0 {
      RateLimitsLevel(cfg, n - 1, now);
    }
  }

  /** By default, after three 429s, two queries at one instant, one interval later, take off two levels. */
  lemma DocumentedDecayCounterexample()
    ensures var c := RateLimits(DEFAULT, 3, 1);
            && c.level == 3 && Intervals(DEFAULT, c.lastAt, 10_001) == 1
            && Delays(DEFAULT, c, [10_001]).level == 2
            && Delays(DEFAULT, c, [10_001, 10_001]).level == 1
  {
    var c := RateLimits(DEFAULT, 3, 1);
    RateLimitsLevel(DEFAULT, 3, 1);
    var once: seq<u64> := [10_001];
    var twice: seq<u64> := [10_001, 10_001];
    assert once[..0] == [] && twice[..1] == once;
    assert Delays(DEFAULT, c, []) == c;
    assert Delays(DEFAULT, c, once) == AfterDelay(DEFAULT, c, 10_001).0;
  }

  /** After this time the truncated quotient starts again at zero. */
  function Period(cfg: Config): (p: nat)
    ensures cfg.decayInterval > 0 ==> p > 0
  {
    U32 * cfg.decayInterval
  }

  /** One query empties the level exactly when the time since the 429, modulo 2^32 intervals, covers it. */
  lemma FullDecayExactly(cfg: Config, c: Cells, now: u64)
    requires cfg.decayInterval > 0 && c.lastAt > 0
    ensures AfterDelay(cfg, c, now).0.level == 0 <==>
            Monus(now, c.lastAt) % Period(cfg) >= c.level * cfg.decayInterval
  {
    var elapsed, d := Monus(now, c.lastAt), cfg.decayInterval;
    QuotientModulo(elapsed, d, U32, Period(cfg));
    var rest := elapsed % Period(cfg);
    if rest >= c.level * d {
      QuotientAtLeast(rest, d, c.level);
    } else {
      QuotientBelow(rest, d, c.level);
    }
  }

  /** After maxLevel intervals without a 429 one query returns to level 0, unless the quotient overflows 32 bits. */
  lemma FullDecay(cfg: Config, c: Cells, now: u64)
    requires cfg.decayInterval > 0 && c.lastAt > 0 && c.level <= cfg.maxLevel
    requires Monus(now, c.lastAt) >= cfg.maxLevel * cfg.decayInterval
    requires Monus(now, c.lastAt) / cfg.decayInterval < U32
    ensures AfterDelay(cfg, c, now).0.level == 0
  {
    var elapsed, d := Monus(now, c.lastAt), cfg.decayInterval;
    QuotientAtLeast(elapsed, d, cfg.maxLevel);
    assert (elapsed / d) % U32 == elapsed / d;
  }

  /**
  "After level intervals without a 429 one query returns to level 0" holds for all times of query
  exactly when 2^32 intervals after the 429 lie beyond the range of the clock.
  */
  lemma FullDecayAlwaysExactly(cfg: Config, c: Cells)
    requires cfg.decayInterval > 0 && c.lastAt > 0 && c.level > 0
    ensures (forall now: u64 :: Monus(now, c.lastAt) >= c.level * cfg.decayInterval ==>
               AfterDelay(cfg, c, now).0.level == 0)
            <==> c.lastAt + Period(cfg) >= U64
  {
    var d := cfg.decayInterval;
    if c.lastAt + Period(cfg) >= U64 {
      forall now: u64 | Monus(now, c.lastAt) >= c.level * d
        ensures AfterDelay(cfg, c, now).0.level == 0
      {
        FullDecayExactly(cfg, c, now);
        DivisionUnique(Monus(now, c.lastAt), Period(cfg), 0, Monus(now, c.lastAt));
      }
    } else {
      var now: u64 := c.lastAt + Period(cfg);
      MulMonotone(c.level, U32, d);
      MulMonotone(1, c.level, d);
      FullDecayExactly(cfg, c, now);
      DivisionUnique(Period(cfg), Period(cfg), 1, 0);
      assert AfterDelay(cfg, c, now).0.level != 0;
    }
  }

  /** By default, after five 429s and 2^32 intervals without another one, a query takes nothing off. */
  lemma TruncatedDecayCounterexample()
    ensures var c := RateLimits(DEFAULT, 5, 1);
            var now := 1 + 4_294_967_296 * 10_000;
            && Intervals(DEFAULT, c.lastAt, now) == 4_294_967_296
            && c.level == 5 && AfterDelay(DEFAULT, c, now).0.level == 5
  {
    RateLimitsLevel(DEFAULT, 5, 1);
    DivisionUnique(4_294_967_296 * 10_000, DEFAULT.decayInterval, 4_294_967_296, 0);
  }

  // ---- what a query shows ----

  /**
  A query that finds a level above zero returns the entry of the level it leaves, two seconds if the
  table is too short for it; one that finds level zero returns zero. A decay interval of zero is
  divided by exactly if there is a level and a time of the last 429.
  */
  lemma QueryShowsTable(cfg: Config, c: Cells, now: u64)
    ensures var (after, reading) := AfterDelay(cfg, c, now);
            && (reading == DivisionByZero <==> c.level > 0 && c.lastAt > 0 && cfg.decayInterval == 0)
            && (reading.Delay? && c.level == 0 ==> reading.nanos == 0)
            && (reading.Delay? && c.level > 0 && Min(after.level, cfg.maxLevel) < |cfg.table| ==>
                  reading.nanos == cfg.table[Min(after.level, cfg.maxLevel)])
            && (reading.Delay? && c.level > 0 && Min(after.level, cfg.maxLevel) >= |cfg.table| ==>
                  reading.nanos == 2_000_000_000)
  {
  }

  /** n 429s in a row, and a query before an interval has passed, give entry min(n, maxLevel). */
  lemma RateLimitsShowTable(cfg: Config, n: nat, at: u64, now: u64)
    requires |cfg.table| == cfg.maxLevel + 1 && n >= 1 && Monus(now, at) < cfg.decayInterval
    ensures var reading := AfterDelay(cfg, RateLimits(cfg, n, at), now).1;
            reading == Delay(if cfg.maxLevel == 0 then 0 else cfg.table[Min(n, cfg.maxLevel)])
  {
    var c := RateLimits(cfg, n, at);
    RateLimitsLevel(cfg, n, at);
    NoIntervalYet(cfg, at, now);
    assert AfterDelay(cfg, c, now).0.level == c.level;
    QueryShowsTable(cfg, c, now);
  }

  lemma NoIntervalYet(cfg: Config, at: u64, now: u64)
    requires Monus(now, at) < cfg.decayInterval
    ensures Intervals(cfg, at, now) == 0
  {
    DivisionUnique(Monus(now, at), cfg.decayInterval, 0, Monus(now, at));
  }

  /** By default 429s delay the next request by 50, 150, 400, 1000 and 2000 ms, and a level that has decayed away by nothing. */
  lemma DefaultDelays()
    ensures AfterDelay(DEFAULT, RateLimits(DEFAULT, 1, 1), 1).1 == Delay(50_000_000)
    ensures AfterDelay(DEFAULT, RateLimits(DEFAULT, 2, 1), 1).1 == Delay(150_000_000)
    ensures AfterDelay(DEFAULT, RateLimits(DEFAULT, 3, 1), 1).1 == Delay(400_000_000)
    ensures AfterDelay(DEFAULT, RateLimits(DEFAULT, 4, 1), 1).1 == Delay(1_000_000_000)
    ensures forall n :: n >= 5 ==> AfterDelay(DEFAULT, RateLimits(DEFAULT, n, 1), 1).1 == Delay(2_000_000_000)
    ensures AfterDelay(DEFAULT, RateLimits(DEFAULT, 1, 1), 10_001).1 == Delay(0)
  {
    RateLimitsShowTable(DEFAULT, 1, 1, 1);
    RateLimitsShowTable(DEFAULT, 2, 1, 1);
    RateLimitsShowTable(DEFAULT, 3, 1, 1);
    RateLimitsShowTable(DEFAULT, 4, 1, 1);
    forall n | n >= 5
      ensures AfterDelay(DEFAULT, RateLimits(DEFAULT, n, 1), 1).1 == Delay(2_000_000_000)
    {
      RateLimitsShowTable(DEFAULT, n, 1, 1);
    }
    RateLimitsLevel(DEFAULT, 1, 1);
    assert Intervals(DEFAULT, 1, 10_001) == 1;
    QueryShowsTable(DEFAULT, RateLimits(DEFAULT, 1, 1), 10_001);
  }
}
