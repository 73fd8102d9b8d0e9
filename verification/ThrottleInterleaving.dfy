/**
The throttle of src/throttle.rs under any number of threads. Every atomic operation is one
step; a thread is a program counter with its local values. An event list is one interleaving,
so a statement about every list is a statement about every schedule, every clock and any mix
of operations. Each bound below concerns one atomic cell and the history of that cell.
*/
module ThrottleInterleaving {
  import opened Arithmetic
  import opened Throttle

  datatype Operation = RecordRateLimit | RecordSuccess | PreRequestDelay | RecordSkip

  /** The next atomic operation of a thread. */
  datatype Pc =
    | LimitStamp | LimitClear | LimitCount | LimitRaise
    | OkCount | OkLoad | OkStreak | OkClear | OkDrop
    | DelayLoad | DelayStamp | DelayDecay(steps: u32) | DelayRead
    | SkipCount
    | Done
    | Returned(result: Reading)

  predicate Ended(pc: Pc) {
    pc.Done? || pc.Returned?
  }

  predicate InSuccess(pc: Pc) {
    pc.OkCount? || pc.OkLoad? || pc.OkStreak? || pc.OkClear? || pc.OkDrop?
  }

  function Entry(op: Operation): Pc {
    match op
    case RecordRateLimit => LimitStamp
    case RecordSuccess => OkCount
    case PreRequestDelay => DelayLoad
    case RecordSkip => SkipCount
  }

  /** One atomic operation; now is whatever the clock shows this thread. */
  function Step(cfg: Config, c: Cells, pc: Pc, now: u64): (Cells, Pc) {
    match pc
    case LimitStamp => (c.(lastAt := now), LimitClear)
    case LimitClear => (c.(streak := 0), LimitCount)
    case LimitCount => (c.(rateLimits := (c.rateLimits + 1) % U64), LimitRaise)
    case LimitRaise => (c.(level := Min(Min(c.level + 1, U32 - 1), cfg.maxLevel)), Done)
    case OkCount => (c.(successes := (c.successes + 1) % U64), OkLoad)
    case OkLoad => (c, if c.level == 0 then Done else OkStreak)
    case OkStreak =>
      (c.(streak := (c.streak + 1) % U32), if (c.streak + 1) % U32 >= cfg.threshold then OkClear else Done)
    case OkClear => (c.(streak := 0), OkDrop)
    case OkDrop => (c.(level := Monus(c.level, 1)), Done)
    case DelayLoad => (c, if c.level == 0 then Returned(Delay(0)) else DelayStamp)
    case DelayStamp =>
      (c, if c.lastAt == 0 then DelayRead
          else if cfg.decayInterval == 0 then Returned(DivisionByZero)
          else if DecaySteps(cfg, c.lastAt, now) > 0 then DelayDecay(DecaySteps(cfg, c.lastAt, now))
          else DelayRead)
    case DelayDecay(steps) => (c.(level := Monus(c.level, Min(steps, c.level))), DelayRead)
    case DelayRead => (c, Returned(Delay(cfg.DelayAt(c.level))))
    case SkipCount => (c.(skips := (c.skips + 1) % U64), Done)
    case Done => (c, pc)
    case Returned(_) => (c, pc)
  }

  function Remaining(pc: Pc): nat {
    match pc
    case LimitStamp => 4 case LimitClear => 3 case LimitCount => 2 case LimitRaise => 1
    case OkCount => 5 case OkLoad => 4 case OkStreak => 3 case OkClear => 2 case OkDrop => 1
    case DelayLoad => 4 case DelayStamp => 3 case DelayDecay(_) => 2 case DelayRead => 1
    case SkipCount => 1
    case Done => 0
    case Returned(_) => 0
  }

  /** The rest of an operation run without interruption, with the clock standing still. */
  function Alone(cfg: Config, c: Cells, pc: Pc, now: u64): (Cells, Pc)
    decreases Remaining(pc)
  {
    if Ended(pc) then (c, pc)
    else Alone(cfg, Step(cfg, c, pc, now).0, Step(cfg, c, pc, now).1, now)
  }

  /** Uninterrupted, the atomic operations are the sequential methods of Throttle. */
  lemma UninterruptedIsSequential(cfg: Config, c: Cells, now: u64)
    ensures Alone(cfg, c, Entry(RecordRateLimit), now) == (AfterRateLimit(cfg, c, now), Done)
    ensures Alone(cfg, c, Entry(RecordSuccess), now) == (AfterSuccess(cfg, c), Done)
    ensures Alone(cfg, c, Entry(RecordSkip), now) == (AfterSkip(c), Done)
    ensures Alone(cfg, c, Entry(PreRequestDelay), now) == (AfterDelay(cfg, c, now).0, Returned(AfterDelay(cfg, c, now).1))
  {
    UnrollLimit(cfg, c, now);
    UnrollSuccess(cfg, c, now);
    UnrollDelay(cfg, c, now);
  }

  lemma UnrollLimit(cfg: Config, c: Cells, now: u64)
    ensures Alone(cfg, c, LimitStamp, now) == (AfterRateLimit(cfg, c, now), Done)
  {
    var c1 := c.(lastAt := now);
    var c2 := c1.(streak := 0);
    assert Alone(cfg, c, LimitStamp, now) == Alone(cfg, c2, LimitCount, now);
  }

  lemma UnrollSuccess(cfg: Config, c: Cells, now: u64)
    ensures Alone(cfg, c, OkCount, now) == (AfterSuccess(cfg, c), Done)
  {
    var c1 := c.(successes := (c.successes + 1) % U64);
    assert Alone(cfg, c, OkCount, now) == Alone(cfg, c1, OkLoad, now);
    if c.level > 0 {
      var c2 := c1.(streak := (c.streak + 1) % U32);
      assert Alone(cfg, c1, OkStreak, now) == Alone(cfg, c2, Step(cfg, c1, OkStreak, now).1, now);
    }
  }

  lemma UnrollDelay(cfg: Config, c: Cells, now: u64)
    ensures Alone(cfg, c, DelayLoad, now) == (AfterDelay(cfg, c, now).0, Returned(AfterDelay(cfg, c, now).1))
  {
    if c.level > 0 {
      assert Alone(cfg, c, DelayLoad, now) == Alone(cfg, c, DelayStamp, now);
      assert Alone(cfg, c, DelayStamp, now) == Alone(cfg, c, Step(cfg, c, DelayStamp, now).1, now);
    }
  }

  // ---- many threads ----

  /** The cells, every thread that ever started, and what has happened so far. */
  datatype System = System(
    cells: Cells,
    threads: map<nat, Pc>,
    counted: nat,   // successes added to the streak
    triggers: nat,  // of those, the ones that found the threshold reached
    drops: nat,     // levels taken off by successes
    decays: nat,    // decay updates
    raises: nat)    // escalations

  datatype Event = Start(thread: nat, op: Operation) | Tick(thread: nat, now: u64)

  predicate Enabled(s: System, e: Event) {
    match e
    case Start(t, _) => t in s.threads ==> Ended(s.threads[t])
    case Tick(t, _) => t in s.threads && !Ended(s.threads[t])
  }

  function Apply(cfg: Config, s: System, e: Event): System
    requires Enabled(s, e)
  {
    match e
    case Start(t, op) => s.(threads := s.threads[t := Entry(op)])
    case Tick(t, now) =>
      var pc := s.threads[t];
      var (c, pc') := Step(cfg, s.cells, pc, now);
      System(c, s.threads[t := pc'],
             s.counted + (if pc.OkStreak? then 1 else 0),
             s.triggers + (if pc.OkStreak? && pc'.OkClear? then 1 else 0),
             s.drops + (if pc.OkDrop? && s.cells.level > 0 then 1 else 0),
             s.decays + (if pc.DelayDecay? then 1 else 0),
             s.raises + (if pc.LimitRaise? then 1 else 0))
  }

  predicate CanRun(cfg: Config, s: System, es: seq<Event>)
    decreases es
  {
    es == [] || (Enabled(s, es[0]) && CanRun(cfg, Apply(cfg, s, es[0]), es[1..]))
  }

  function Run(cfg: Config, s: System, es: seq<Event>): System
    requires CanRun(cfg, s, es)
    decreases es
  {
    if es == [] then s else Run(cfg, Apply(cfg, s, es[0]), es[1..])
  }

  function Initial(cells: Cells): System {
    System(cells, map[], 0, 0, 0, 0, 0)
  }

  /** The threads whose program counter satisfies p. */
  function Those(threads: map<nat, Pc>, p: Pc -> bool): set<nat> {
    set t | t in threads && p(threads[t])
  }

  lemma ThoseAfterUpdate(threads: map<nat, Pc>, t: nat, pc: Pc, p: Pc -> bool)
    ensures |Those(threads[t := pc], p)| ==
            |Those(threads, p)| - (if t in threads && p(threads[t]) then 1 else 0) + (if p(pc) then 1 else 0)
  {
    var before, after := Those(threads, p), Those(threads[t := pc], p);
    var others := before - {t};
    assert after == if p(pc) then others + {t} else others;
    assert before == if t in threads && p(threads[t]) then others + {t} else others;
  }

  function SuccessThreads(s: System): set<nat> {
    Those(s.threads, InSuccess)
  }

  /** At every moment of the run at most k threads are inside record_success. */
  predicate AtMost(cfg: Config, s: System, es: seq<Event>, k: nat)
    requires CanRun(cfg, s, es)
    decreases es
  {
    |SuccessThreads(s)| <= k && (es == [] || AtMost(cfg, Apply(cfg, s, es[0]), es[1..], k))
  }

  // ---- the recovery bound ----

  /** Threads that reached the threshold and have not reset the streak yet. */
  function Armed(s: System): set<nat> {
    Those(s.threads, (pc: Pc) => pc.OkClear?)
  }

  function Dropping(s: System): set<nat> {
    Those(s.threads, (pc: Pc) => pc.OkDrop?)
  }

  function Credit(k: nat, t: nat, counted: nat, triggers: nat): int
    requires t >= 1
  {
    k * counted - triggers * (t + k - 1)
  }

  /**
  Each counted success pays k. A trigger costs threshold + k - 1. What is left over covers the
  streak that the threads not yet armed could still turn into triggers before the next reset.
  */
  predicate RecoveryInvariant(cfg: Config, s: System, k: nat) {
    var t := cfg.EffectiveThreshold();
    var m := |Armed(s)|;
    && m <= k
    && s.cells.streak <= t - 1 + m
    && Credit(k, t, s.counted, s.triggers) >= (k - m) * Min(s.cells.streak, t - 1)
    && s.drops + |Dropping(s)| + m <= s.triggers
  }

  lemma ArmedBound(s: System, k: nat)
    requires |SuccessThreads(s)| <= k
    ensures |Armed(s)| <= k
    ensures forall t :: t in s.threads && s.threads[t].OkStreak? ==> |Armed(s)| < k
  {
    Subset(Armed(s), SuccessThreads(s));
    forall t | t in s.threads && s.threads[t].OkStreak?
      ensures |Armed(s)| < k
    {
      Subset(Armed(s) + {t}, SuccessThreads(s));
    }
  }

  lemma Subset<T>(a: set<T>, b: set<T>)
    requires a <= b
    ensures |a| <= |b|
  {
    assert b == a + (b - a);
  }

  lemma CountsAfter(cfg: Config, s: System, e: Event)
    requires Enabled(s, e)
    ensures var s' := Apply(cfg, s, e);
            var was := if e.thread in s.threads then s.threads[e.thread] else Done;
            var now := s'.threads[e.thread];
            && |Armed(s')| == |Armed(s)| - (if was.OkClear? then 1 else 0) + (if now.OkClear? then 1 else 0)
            && |Dropping(s')| == |Dropping(s)| - (if was.OkDrop? then 1 else 0) + (if now.OkDrop? then 1 else 0)
  {
    var now := Apply(cfg, s, e).threads[e.thread];
    ThoseAfterUpdate(s.threads, e.thread, now, (pc: Pc) => pc.OkClear?);
    ThoseAfterUpdate(s.threads, e.thread, now, (pc: Pc) => pc.OkDrop?);
  }

  lemma CreditAfter(k: nat, t: nat, counted: nat, triggers: nat)
    requires t >= 1
    ensures Credit(k, t, counted + 1, triggers) == Credit(k, t, counted, triggers) + k
    ensures Credit(k, t, counted + 1, triggers + 1) == Credit(k, t, counted, triggers) + 1 - t
  {
    assert k * (counted + 1) == k * counted + k;
    assert (triggers + 1) * (t + k - 1) == triggers * (t + k - 1) + (t + k - 1);
  }

  lemma CoverAfter(k: nat, t: nat, m: nat, streak: nat)
    requires t >= 1 && m < k
    ensures streak + 1 < t ==>
              (k - m) * Min(streak + 1, t - 1) <= (k - m) * Min(streak, t - 1) + k
    ensures streak + 1 >= t ==>
              (k - (m + 1)) * Min(streak + 1, t - 1) == (k - m) * Min(streak, t - 1) + 1 - t
  {
    if streak + 1 < t {
      assert (k - m) * (streak + 1) == (k - m) * streak + (k - m);
    } else {
      assert (k - (m + 1)) * (t - 1) == (k - m) * (t - 1) - (t - 1);
    }
  }

  /** The two together: what is left over still covers the streak, with or without a trigger. */
  lemma CountedOnNumbers(k: nat, t: nat, m: nat, streak: nat, counted: nat, triggers: nat)
    requires t >= 1 && m < k && Credit(k, t, counted, triggers) >= (k - m) * Min(streak, t - 1)
    ensures streak + 1 < t ==> Credit(k, t, counted + 1, triggers) >= (k - m) * Min(streak + 1, t - 1)
    ensures streak + 1 >= t ==> Credit(k, t, counted + 1, triggers + 1) >= (k - (m + 1)) * Min(streak + 1, t - 1)
  {
    CreditAfter(k, t, counted, triggers);
    CoverAfter(k, t, m, streak);
  }

  /** A success is counted: it pays k, and may trigger. */
  lemma CountedStep(cfg: Config, s: System, e: Event, k: nat)
    requires Enabled(s, e) && e.Tick? && s.threads[e.thread].OkStreak?
    requires RecoveryInvariant(cfg, s, k) && |Armed(s)| < k
    requires cfg.EffectiveThreshold() + k <= U32
    ensures RecoveryInvariant(cfg, Apply(cfg, s, e), k)
  {
    var t, m, s' := cfg.EffectiveThreshold(), |Armed(s)|, Apply(cfg, s, e);
    CountsAfter(cfg, s, e);
    CountedOnNumbers(k, t, m, s.cells.streak, s.counted, s.triggers);
    assert s'.cells.streak == s.cells.streak + 1 && s'.counted == s.counted + 1 && s'.drops == s.drops;
    if s.cells.streak + 1 >= t {
      assert |Armed(s')| == m + 1 && s'.triggers == s.triggers + 1;
    } else {
      assert |Armed(s')| == m && s'.triggers == s.triggers;
    }
  }

  /** Every other step leaves the streak or resets it. */
  lemma UncountedStep(cfg: Config, s: System, e: Event, k: nat)
    requires Enabled(s, e) && !(e.Tick? && s.threads[e.thread].OkStreak?)
    requires RecoveryInvariant(cfg, s, k)
    ensures RecoveryInvariant(cfg, Apply(cfg, s, e), k)
  {
    var t, m := cfg.EffectiveThreshold(), |Armed(s)|;
    CountsAfter(cfg, s, e);
    MulNonNegative(k - m, Min(s.cells.streak, t - 1));
    var s' := Apply(cfg, s, e);
    if s'.cells.streak == s.cells.streak {
      assert |Armed(s')| == m || s'.cells.streak == 0;
    } else {
      assert s'.cells.streak == 0;
    }
    assert s'.cells.streak == 0 ==> (k - |Armed(s')|) * Min(s'.cells.streak, t - 1) == 0;
  }

  lemma RecoveryStep(cfg: Config, s: System, e: Event, k: nat)
    requires Enabled(s, e) && RecoveryInvariant(cfg, s, k) && |SuccessThreads(s)| <= k
    requires cfg.EffectiveThreshold() + k <= U32
    ensures RecoveryInvariant(cfg, Apply(cfg, s, e), k)
  {
    ArmedBound(s, k);
    if e.Tick? && s.threads[e.thread].OkStreak? {
      CountedStep(cfg, s, e, k);
    } else {
      UncountedStep(cfg, s, e, k);
    }
  }

  lemma {:induction false} RecoveryInvariantHolds(cfg: Config, s: System, es: seq<Event>, k: nat)
    requires CanRun(cfg, s, es) && AtMost(cfg, s, es, k) && RecoveryInvariant(cfg, s, k)
    requires cfg.EffectiveThreshold() + k <= U32
    ensures RecoveryInvariant(cfg, Run(cfg, s, es), k)
    decreases es
  {
    if es != [] {
      var s1 := Apply(cfg, s, es[0]);
      assert AtMost(cfg, s1, es[1..], k);
      RecoveryStep(cfg, s, es[0], k);
      RecoveryInvariantHolds(cfg, s1, es[1..], k);
    }
  }

  /**
  With at most k threads inside record_success at a time, whatever else runs, the levels taken
  off by successes cost (threshold + k - 1) / k successes each. At k = 1 that is the threshold.
  The streak never wraps, so the bound needs no assumption about wrap-around beyond the sizes.
  */
  lemma RecoveryBound(cfg: Config, cells: Cells, es: seq<Event>, k: nat)
    requires cells.streak == 0
    requires CanRun(cfg, Initial(cells), es) && AtMost(cfg, Initial(cells), es, k)
    requires cfg.EffectiveThreshold() + k <= U32
    ensures var s := Run(cfg, Initial(cells), es);
            var t := cfg.EffectiveThreshold();
            && s.drops <= s.triggers
            && s.triggers * (t + k - 1) <= k * s.counted
            && s.cells.streak <= t - 1 + k
  {
    var s0 := Initial(cells);
    assert Armed(s0) == {} && Dropping(s0) == {};
    RecoveryInvariantHolds(cfg, s0, es, k);
    var s := Run(cfg, s0, es);
    MulNonNegative(k - |Armed(s)|, Min(s.cells.streak, cfg.EffectiveThreshold() - 1));
  }

  // ---- the bound is attained ----

  lemma {:induction false} Extend(cfg: Config, s: System, es: seq<Event>, e: Event, k: nat)
    requires CanRun(cfg, s, es) && AtMost(cfg, s, es, k) && Enabled(Run(cfg, s, es), e)
    requires |SuccessThreads(Apply(cfg, Run(cfg, s, es), e))| <= k
    ensures CanRun(cfg, s, es + [e]) && AtMost(cfg, s, es + [e], k)
    ensures Run(cfg, s, es + [e]) == Apply(cfg, Run(cfg, s, es), e)
    decreases es
  {
    if es == [] {
      assert es + [e] == [e] && [e][1..] == [];
      assert Run(cfg, Apply(cfg, s, e), []) == Apply(cfg, s, e);
    } else {
      Extend(cfg, Apply(cfg, s, es[0]), es[1..], e, k);
      assert (es + [e])[1..] == es[1..] + [e];
    }
  }

  /** Thread t counts one success and, if that reaches the threshold, stops before the reset. */
  function Counted(cfg: Config, r: System, t: nat): System {
    var c := r.cells.(successes := (r.cells.successes + 1) % U64, streak := (r.cells.streak + 1) % U32);
    var hit := c.streak >= cfg.threshold;
    r.(cells := c, threads := r.threads[t := if hit then OkClear else Done],
       counted := r.counted + 1, triggers := r.triggers + (if hit then 1 else 0))
  }

  /** The system after thread t moved to pc; the cells are given. */
  function Moved(r: System, t: nat, pc: Pc, cells: Cells): System {
    r.(cells := cells, threads := r.threads[t := pc])
  }

  /** How many threads are inside record_success after thread t moved to pc. */
  lemma MovedCount(r: System, t: nat, pc: Pc, cells: Cells)
    requires t in r.threads ==> Ended(r.threads[t])
    ensures |SuccessThreads(Moved(r, t, pc, cells))| == |SuccessThreads(r)| + (if InSuccess(pc) then 1 else 0)
  {
    ThoseAfterUpdate(r.threads, t, pc, InSuccess);
  }

  lemma MovedTwice(r: System, t: nat, pc: Pc, c: Cells, pc': Pc, c': Cells)
    ensures Moved(Moved(r, t, pc, c), t, pc', c') == Moved(r, t, pc', c')
  {
    assert r.threads[t := pc][t := pc'] == r.threads[t := pc'];
  }

  /** The first three steps of a success reach the streak. */
  lemma ReachStreak(cfg: Config, s: System, es: seq<Event>, t: nat, k: nat) returns (es': seq<Event>)
    requires CanRun(cfg, s, es) && AtMost(cfg, s, es, k) && Enabled(Run(cfg, s, es), Start(t, RecordSuccess))
    requires Run(cfg, s, es).cells.level > 0 && |SuccessThreads(Run(cfg, s, es))| < k
    ensures CanRun(cfg, s, es') && AtMost(cfg, s, es', k)
    ensures var r := Run(cfg, s, es);
            Run(cfg, s, es') == Moved(r, t, OkStreak, r.cells.(successes := (r.cells.successes + 1) % U64))
  {
    var r := Run(cfg, s, es);
    var c := r.cells.(successes := (r.cells.successes + 1) % U64);
    MovedCount(r, t, OkCount, r.cells);
    Extend(cfg, s, es, Start(t, RecordSuccess), k);
    es' := es + [Start(t, RecordSuccess)];
    MovedTwice(r, t, OkCount, r.cells, OkLoad, c);
    MovedCount(r, t, OkLoad, c);
    Extend(cfg, s, es', Tick(t, 0), k);
    es' := es' + [Tick(t, 0)];
    MovedTwice(r, t, OkLoad, c, OkStreak, c);
    MovedCount(r, t, OkStreak, c);
    Extend(cfg, s, es', Tick(t, 0), k);
    es' := es' + [Tick(t, 0)];
  }

  lemma CountOne(cfg: Config, s: System, es: seq<Event>, t: nat, k: nat) returns (es': seq<Event>)
    requires CanRun(cfg, s, es) && AtMost(cfg, s, es, k) && Enabled(Run(cfg, s, es), Start(t, RecordSuccess))
    requires Run(cfg, s, es).cells.level > 0 && |SuccessThreads(Run(cfg, s, es))| < k
    ensures CanRun(cfg, s, es') && AtMost(cfg, s, es', k)
    ensures var r, r' := Run(cfg, s, es), Run(cfg, s, es');
            r' == Counted(cfg, r, t) && |SuccessThreads(r')| == |SuccessThreads(r)| + r'.triggers - r.triggers
  {
    var r := Run(cfg, s, es);
    es' := ReachStreak(cfg, s, es, t, k);
    var last := Counted(cfg, r, t);
    MovedTwice(r, t, OkStreak, Run(cfg, s, es').cells, last.threads[t], last.cells);
    MovedCount(r, t, last.threads[t], last.cells);
    assert SuccessThreads(last) == SuccessThreads(Moved(r, t, last.threads[t], last.cells));
    Extend(cfg, s, es', Tick(t, 0), k);
    es' := es' + [Tick(t, 0)];
  }

  // A schedule builds up run by run: Reached says that es is a run from the given cells, never has
  // more than k threads inside record_success, and ends in r.

  ghost predicate Reached(cfg: Config, cells: Cells, es: seq<Event>, k: nat, r: System) {
    CanRun(cfg, Initial(cells), es) && AtMost(cfg, Initial(cells), es, k) && Run(cfg, Initial(cells), es) == r
  }

  lemma Reach(cfg: Config, cells: Cells, es: seq<Event>, k: nat, r: System, e: Event)
    requires Reached(cfg, cells, es, k, r) && Enabled(r, e)
    requires |SuccessThreads(Apply(cfg, r, e))| <= k
    ensures Reached(cfg, cells, es + [e], k, Apply(cfg, r, e))
  {
    Extend(cfg, Initial(cells), es, e, k);
  }

  /** The first m threads have triggered and stand before the reset; nobody else is at work. */
  predicate Triggered(r: System, m: nat) {
    && (forall t :: 0 <= t < m ==> t in r.threads && r.threads[t].OkClear?)
    && (forall t :: t in r.threads && t >= m ==> Ended(r.threads[t]))
  }

  /** One thread counts up to just below the threshold; then threads trigger without resetting. */
  lemma {:induction false} CountUp(cfg: Config, cells: Cells, k: nat, es: seq<Event>, r: System, n: nat)
    returns (es': seq<Event>, r': System)
    requires k >= 1 && cfg.EffectiveThreshold() + k <= U32 && n <= cfg.EffectiveThreshold() - 1 + k
    requires Reached(cfg, cells, es, k, r) && Triggered(r, 0) && SuccessThreads(r) == {}
    requires r.cells.streak == 0 && r.cells.level > 0
    ensures Reached(cfg, cells, es', k, r')
    ensures var m := Monus(n, cfg.EffectiveThreshold() - 1);
            && Triggered(r', m) && |SuccessThreads(r')| == m
            && r'.cells.streak == n && r'.cells.level == r.cells.level
            && r'.counted == r.counted + n && r'.triggers == r.triggers + m
            && r'.drops == r.drops && r'.decays == r.decays && r'.raises == r.raises
    decreases n
  {
    if n == 0 {
      es', r' := es, r;
    } else {
      es', r' := CountUp(cfg, cells, k, es, r, n - 1);
      var m := Monus(n - 1, cfg.EffectiveThreshold() - 1);
      TriggeredMore(cfg, r', m);
      es' := CountOne(cfg, Initial(cells), es', m, k);
      r' := Counted(cfg, r', m);
    }
  }

  lemma TriggeredMore(cfg: Config, r: System, m: nat)
    requires Triggered(r, m) && r.cells.streak + 1 < U32
    ensures Triggered(Counted(cfg, r, m), if r.cells.streak + 1 >= cfg.EffectiveThreshold() then m + 1 else m)
  {
  }

  /** A thread that has triggered resets the streak and takes a level off. */
  function Recovering(r: System, t: nat): System {
    var c := r.cells.(streak := 0, level := Monus(r.cells.level, 1));
    Moved(r, t, Done, c).(drops := r.drops + (if r.cells.level > 0 then 1 else 0))
  }

  lemma Recover(cfg: Config, cells: Cells, es: seq<Event>, k: nat, r: System, t: nat) returns (es': seq<Event>)
    requires Reached(cfg, cells, es, k, r) && t in r.threads && r.threads[t].OkClear? && |SuccessThreads(r)| <= k
    ensures Reached(cfg, cells, es', k, Recovering(r, t))
    ensures |SuccessThreads(Recovering(r, t))| == |SuccessThreads(r)| - 1
  {
    var c := r.cells.(streak := 0);
    var r1 := Moved(r, t, OkDrop, c);
    ThoseAfterUpdate(r.threads, t, OkDrop, InSuccess);
    Reach(cfg, cells, es, k, r, Tick(t, 0));
    es' := es + [Tick(t, 0)];
    MovedTwice(r, t, OkDrop, c, Done, c.(level := Monus(c.level, 1)));
    ThoseAfterUpdate(r.threads, t, Done, InSuccess);
    Reach(cfg, cells, es', k, r1, Tick(t, 0));
    es' := es' + [Tick(t, 0)];
  }

  /** All triggered threads recover, the last one first. */
  lemma {:induction false} RecoverAll(cfg: Config, cells: Cells, es: seq<Event>, k: nat, r: System, m: nat)
    returns (es': seq<Event>, r': System)
    requires Reached(cfg, cells, es, k, r) && Triggered(r, m) && |SuccessThreads(r)| == m <= k && m <= r.cells.level
    ensures Reached(cfg, cells, es', k, r')
    ensures r'.cells.level == r.cells.level - m && r'.drops == r.drops + m
    ensures r'.counted == r.counted && r'.triggers == r.triggers
    decreases m
  {
    if m == 0 {
      es', r' := es, r;
    } else {
      es' := Recover(cfg, cells, es, k, r, m - 1);
      es', r' := RecoverAll(cfg, cells, es', k, Recovering(r, m - 1), m - 1);
    }
  }

  lemma StartReached(cfg: Config, cells: Cells, k: nat)
    ensures Reached(cfg, cells, [], k, Initial(cells)) && SuccessThreads(Initial(cells)) == {}
  {
    assert SuccessThreads(Initial(cells)) == {};
  }

  /**
  For every threshold and every number of threads some schedule reaches the bound: it takes off k
  levels with threshold + k - 1 counted successes.
  */
  lemma RecoveryBoundAttained(cfg: Config, cells: Cells, k: nat) returns (es: seq<Event>)
    requires cells.streak == 0 && cells.level >= k >= 1 && cfg.EffectiveThreshold() + k <= U32
    ensures CanRun(cfg, Initial(cells), es) && AtMost(cfg, Initial(cells), es, k)
    ensures var s := Run(cfg, Initial(cells), es);
            && s.drops == s.triggers == k && s.cells.level == cells.level - k
            && s.counted == cfg.EffectiveThreshold() + k - 1
  {
    StartReached(cfg, cells, k);
    var r;
    es, r := CountUp(cfg, cells, k, [], Initial(cells), cfg.EffectiveThreshold() - 1 + k);
    es, r := RecoverAll(cfg, cells, es, k, r, k);
  }

  // ---- when a level costs the threshold ----

  /** A 429 by thread t, from start to end. */
  function Raised(cfg: Config, r: System, t: nat): System {
    var c := AfterRateLimit(cfg, r.cells, 0);
    Moved(r, t, Done, c).(raises := r.raises + 1)
  }

  lemma Raise(cfg: Config, cells: Cells, es: seq<Event>, k: nat, r: System, t: nat) returns (es': seq<Event>)
    requires Reached(cfg, cells, es, k, r) && (t in r.threads ==> Ended(r.threads[t])) && |SuccessThreads(r)| <= k
    ensures Reached(cfg, cells, es', k, Raised(cfg, r, t))
    ensures SuccessThreads(Raised(cfg, r, t)) == SuccessThreads(r)
  {
    var c2 := r.cells.(lastAt := 0, streak := 0);
    var c3 := c2.(rateLimits := (c2.rateLimits + 1) % U64);
    var c4 := AfterRateLimit(cfg, r.cells, 0);
    es' := RaiseBegun(cfg, cells, es, k, r, t);
    es' := Hop(cfg, cells, es', k, r, t, LimitCount, c2, LimitRaise, c3);
    MovedTwice(r, t, LimitRaise, c3, Done, c4);
    OutsideSuccess(r, t, Done, c4);
    Reach(cfg, cells, es', k, Moved(r, t, LimitRaise, c3), Tick(t, 0));
    es' := es' + [Tick(t, 0)];
  }

  /** The first two steps of a 429. */
  lemma RaiseBegun(cfg: Config, cells: Cells, es: seq<Event>, k: nat, r: System, t: nat) returns (es': seq<Event>)
    requires Reached(cfg, cells, es, k, r) && (t in r.threads ==> Ended(r.threads[t])) && |SuccessThreads(r)| <= k
    ensures Reached(cfg, cells, es', k, Moved(r, t, LimitCount, r.cells.(lastAt := 0, streak := 0)))
  {
    var c1 := r.cells.(lastAt := 0);
    OutsideSuccess(r, t, LimitStamp, r.cells);
    Reach(cfg, cells, es, k, r, Start(t, RecordRateLimit));
    es' := es + [Start(t, RecordRateLimit)];
    es' := Hop(cfg, cells, es', k, r, t, LimitStamp, r.cells, LimitClear, c1);
    es' := Hop(cfg, cells, es', k, r, t, LimitClear, c1, LimitCount, c1.(streak := 0));
  }

  lemma OutsideSuccess(r: System, t: nat, pc: Pc, c: Cells)
    requires (t in r.threads ==> !InSuccess(r.threads[t])) && !InSuccess(pc)
    ensures SuccessThreads(Moved(r, t, pc, c)) == SuccessThreads(r)
  {
  }

  /** One step of thread t that no counter records. */
  lemma Hop(cfg: Config, cells: Cells, es: seq<Event>, k: nat, r: System, t: nat, pc: Pc, c: Cells, pc': Pc, c': Cells)
    returns (es': seq<Event>)
    requires Reached(cfg, cells, es, k, Moved(r, t, pc, c)) && Step(cfg, c, pc, 0) == (c', pc')
    requires !Ended(pc) && !pc.OkStreak? && !pc.OkDrop? && !pc.DelayDecay? && !pc.LimitRaise?
    requires (t in r.threads ==> !InSuccess(r.threads[t])) && !InSuccess(pc') && |SuccessThreads(r)| <= k
    ensures Reached(cfg, cells, es', k, Moved(r, t, pc', c'))
  {
    OutsideSuccess(r, t, pc', c');
    MovedTwice(r, t, pc, c, pc', c');
    Reach(cfg, cells, es, k, Moved(r, t, pc, c), Tick(t, 0));
    es' := es + [Tick(t, 0)];
  }

  /** In every run with at most k threads at a time, each level that successes take off costs the threshold. */
  ghost predicate LevelsCostThreshold(cfg: Config, cells: Cells, k: nat) {
    forall es :: CanRun(cfg, Initial(cells), es) && AtMost(cfg, Initial(cells), es, k) ==>
      var s := Run(cfg, Initial(cells), es);
      s.drops * cfg.EffectiveThreshold() <= s.counted
  }

  /**
  The documented cost of a level holds exactly when there is one thread, or the threshold is one,
  or the configuration has no level to take off.
  */
  lemma LevelsCostThresholdExactly(cfg: Config, cells: Cells, k: nat)
    requires cells.streak == 0 && cells.level <= cfg.maxLevel && k >= 1 && cfg.EffectiveThreshold() + k <= U32
    ensures LevelsCostThreshold(cfg, cells, k) <==> k == 1 || cfg.EffectiveThreshold() == 1 || cfg.maxLevel == 0
  {
    if k == 1 || cfg.EffectiveThreshold() == 1 || cfg.maxLevel == 0 {
      forall es | CanRun(cfg, Initial(cells), es) && AtMost(cfg, Initial(cells), es, k)
        ensures var s := Run(cfg, Initial(cells), es); s.drops * cfg.EffectiveThreshold() <= s.counted
      {
        LevelsCostEnough(cfg, cells, es, k);
      }
    } else {
      var es := CheapLevels(cfg, cells, k);
    }
  }

  lemma LevelsCostEnough(cfg: Config, cells: Cells, es: seq<Event>, k: nat)
    requires cells.streak == 0 && cells.level <= cfg.maxLevel && k >= 1 && cfg.EffectiveThreshold() + k <= U32
    requires k == 1 || cfg.EffectiveThreshold() == 1 || cfg.maxLevel == 0
    requires CanRun(cfg, Initial(cells), es) && AtMost(cfg, Initial(cells), es, k)
    ensures var s := Run(cfg, Initial(cells), es); s.drops * cfg.EffectiveThreshold() <= s.counted
  {
    var s, t := Run(cfg, Initial(cells), es), cfg.EffectiveThreshold();
    RecoveryBound(cfg, cells, es, k);
    if cfg.maxLevel == 0 {
      NoLevels(cfg, Initial(cells), es);
    } else {
      MulMonotone(s.drops, s.triggers, t);
      if k > 1 && s.counted < s.triggers {
        MulMonotone(s.counted + 1, s.triggers, k);
      }
    }
  }

  lemma {:induction false} NoLevels(cfg: Config, s: System, es: seq<Event>)
    requires CanRun(cfg, s, es) && cfg.maxLevel == 0 && s.cells.level == 0
    ensures Run(cfg, s, es).drops == s.drops
    decreases es
  {
    if es != [] {
      assert Apply(cfg, s, es[0]).cells.level == 0;
      NoLevels(cfg, Apply(cfg, s, es[0]), es[1..]);
    }
  }

  /**
  Two threads trigger together, with a 429 between their drops so that there are two levels to take
  off: threshold + 1 successes for two levels.
  */
  lemma CheapLevels(cfg: Config, cells: Cells, k: nat) returns (es: seq<Event>)
    requires cells.streak == 0 && cells.level <= cfg.maxLevel && cfg.EffectiveThreshold() + k <= U32
    requires k >= 2 && cfg.EffectiveThreshold() >= 2 && cfg.maxLevel >= 1
    ensures CanRun(cfg, Initial(cells), es) && AtMost(cfg, Initial(cells), es, k)
    ensures var s := Run(cfg, Initial(cells), es);
            s.drops == 2 && s.counted == cfg.EffectiveThreshold() + 1
  {
    StartReached(cfg, cells, k);
    es := Raise(cfg, cells, [], k, Initial(cells), 2);
    var r := Raised(cfg, Initial(cells), 2);
    es, r := CountUp(cfg, cells, k, es, r, cfg.EffectiveThreshold() + 1);
    es := Recover(cfg, cells, es, k, r, 0);
    var r1 := Recovering(r, 0);
    es := Raise(cfg, cells, es, k, r1, 2);
    var r2 := Raised(cfg, r1, 2);
    es := Recover(cfg, cells, es, k, r2, 1);
  }

  // ---- the level ----

  predicate LevelInvariant(cfg: Config, level0: nat, s: System) {
    && s.cells.level <= cfg.maxLevel
    && s.cells.level <= level0 + s.raises
    && (s.drops == 0 && s.decays == 0 ==> s.cells.level == Min(level0 + s.raises, cfg.maxLevel))
    && s.cells.level + s.drops + (if s.decays == 0 then 0 else cfg.maxLevel) >= Min(level0 + s.raises, cfg.maxLevel)
    && forall t :: t in s.threads && s.threads[t].Returned? && s.threads[t].result.Delay? ==>
         ShownDelay(cfg, s.threads[t].result.nanos)
  }

  /** Zero, or what the table holds for some level up to the cap. */
  predicate ShownDelay(cfg: Config, nanos: nat) {
    nanos == 0 || nanos in cfg.table[..Min(|cfg.table|, cfg.maxLevel + 1)]
    || (nanos == 2_000_000_000 && |cfg.table| <= cfg.maxLevel)
  }

  lemma LevelStep(cfg: Config, level0: nat, s: System, e: Event)
    requires Enabled(s, e) && LevelInvariant(cfg, level0, s)
    ensures LevelInvariant(cfg, level0, Apply(cfg, s, e))
  {
  }

  /**
  Under every interleaving the level stays under its cap and under what the escalations explain;
  if nothing lowered it, it is exactly min(start + escalations, cap), in whatever order they ran;
  and a delay that was handed out is zero or an entry of a full-size table.
  */
  lemma {:induction false} LevelBounds(cfg: Config, level0: nat, s: System, es: seq<Event>)
    requires CanRun(cfg, s, es) && LevelInvariant(cfg, level0, s)
    ensures LevelInvariant(cfg, level0, Run(cfg, s, es))
    decreases es
  {
    if es != [] {
      LevelStep(cfg, level0, s, es[0]);
      LevelBounds(cfg, level0, Apply(cfg, s, es[0]), es[1..]);
    }
  }

  lemma LevelBoundsFromStart(cfg: Config, cells: Cells, es: seq<Event>)
    requires cells.level <= cfg.maxLevel && CanRun(cfg, Initial(cells), es)
    ensures LevelInvariant(cfg, cells.level, Run(cfg, Initial(cells), es))
  {
    LevelBounds(cfg, cells.level, Initial(cells), es);
  }

  /** Every delay that was handed out is an entry of the table. */
  predicate FromTable(cfg: Config, s: System) {
    forall t :: t in s.threads && s.threads[t].Returned? && s.threads[t].result.Delay? ==>
      s.threads[t].result.nanos in cfg.table
  }

  /**
  With a full-size table the delays of a domain that starts at level 0 are always table entries
  exactly when zero is one: level 0 is answered with zero, not with the first entry.
  */
  lemma FromTableExactly(cfg: Config, cells: Cells)
    requires |cfg.table| == cfg.maxLevel + 1 && cells.level == 0
    ensures (forall es :: CanRun(cfg, Initial(cells), es) ==> FromTable(cfg, Run(cfg, Initial(cells), es)))
            <==> 0 in cfg.table
  {
    if 0 in cfg.table {
      forall es | CanRun(cfg, Initial(cells), es)
        ensures FromTable(cfg, Run(cfg, Initial(cells), es))
      {
        LevelBoundsFromStart(cfg, cells, es);
      }
    } else {
      UndelayedAnswer(cfg, cells);
    }
  }

  lemma UndelayedAnswer(cfg: Config, cells: Cells)
    requires cells.level == 0 && 0 !in cfg.table
    ensures exists es :: CanRun(cfg, Initial(cells), es) && !FromTable(cfg, Run(cfg, Initial(cells), es))
  {
    var s0 := Initial(cells);
    var e0, e1 := Start(0, PreRequestDelay), Tick(0, 0);
    var s1 := Apply(cfg, s0, e0);
    var s2 := Apply(cfg, s1, e1);
    assert s2.threads[0] == Returned(Delay(0));
    TwoSteps(cfg, s0, e0, e1);
  }

  lemma TwoSteps(cfg: Config, s: System, e0: Event, e1: Event)
    requires Enabled(s, e0) && Enabled(Apply(cfg, s, e0), e1)
    ensures CanRun(cfg, s, [e0, e1]) && Run(cfg, s, [e0, e1]) == Apply(cfg, Apply(cfg, s, e0), e1)
  {
    var s1 := Apply(cfg, s, e0);
    var s2 := Apply(cfg, s1, e1);
    assert CanRun(cfg, s2, []) && Run(cfg, s2, []) == s2;
    assert [e1][1..] == [];
    assert CanRun(cfg, s1, [e1]) && Run(cfg, s1, [e1]) == s2;
    assert [e0, e1][1..] == [e1];
  }
}
