/**
The process-wide registry of src/throttle.rs: get-or-create lookups in a read-lock phase and a
write-lock phase, replacement of the default configuration, and the two summaries over all
registered domains.
*/
module ThrottleRegistry {
  import opened Arithmetic
  import opened Wrappers
  import opened Sums
  import opened Throttle

  // ---- lookups from many threads ----

  /** Where one lookup stands. The slow path forgets what the read phase saw. */
  datatype Lookup = ReadPhase(domain: string) | WritePhase(domain: string) | Found(domain: string, state: nat)

  /** States are numbered as they are allocated; state i was created for creators[i] with configs[i]. */
  datatype Registry = Registry(
    domains: map<string, nat>,
    configs: seq<Config>,
    creators: seq<string>,
    defaultConfig: Config,
    lookups: map<nat, Lookup>)

  datatype Event = Begin(thread: nat, domain: string) | Advance(thread: nat) | SetDefault(config: Config)

  predicate Enabled(r: Registry, e: Event) {
    match e
    case Begin(t, _) => t !in r.lookups
    case Advance(t) => t in r.lookups && !r.lookups[t].Found?
    case SetDefault(_) => true
  }

  function Apply(r: Registry, e: Event): Registry
    requires Enabled(r, e)
  {
    match e
    case SetDefault(config) => r.(defaultConfig := config)
    case Begin(t, domain) => r.(lookups := r.lookups[t := ReadPhase(domain)])
    case Advance(t) =>
      var d := r.lookups[t].domain;
      if d in r.domains then r.(lookups := r.lookups[t := Found(d, r.domains[d])])
      else if r.lookups[t].ReadPhase? then r.(lookups := r.lookups[t := WritePhase(d)])
      else Created(r, t, d)
  }

  /** A new state for the domain, with the default of this moment. */
  function Registered(r: Registry, d: string): Registry {
    r.(domains := r.domains[d := |r.configs|],
       configs := r.configs + [r.defaultConfig],
       creators := r.creators + [d])
  }

  /** The write phase of a lookup that finds nothing registers a state and returns it. */
  function Created(r: Registry, t: nat, d: string): Registry {
    Registered(r, d).(lookups := r.lookups[t := Found(d, |r.configs|)])
  }

  predicate CanRun(r: Registry, es: seq<Event>)
    decreases |es|, 0
  {
    es == [] ||
    (var k := |es| - 1;
     CanRun(r, es[..k]) && Enabled(Run(r, es[..k]), es[k]))
  }

  function Run(r: Registry, es: seq<Event>): Registry
    requires CanRun(r, es)
    decreases |es|, 1
  {
    if es == [] then r else Apply(Run(r, es[..|es| - 1]), es[|es| - 1])
  }

  lemma {:induction false} CanRunPrefix(r: Registry, es: seq<Event>, n: nat)
    requires CanRun(r, es) && n <= |es|
    ensures CanRun(r, es[..n])
  {
    if n < |es| {
      CanRunPrefix(r, es[..|es| - 1], n);
      assert es[..|es| - 1][..n] == es[..n];
    } else {
      assert es[..n] == es;
    }
  }

  function Empty(config: Config): Registry {
    Registry(map[], [], [], config, map[])
  }

  /** The last default that was set, or the one the registry started with. */
  function DefaultAfter(initial: Config, es: seq<Event>): Config {
    if es == [] then initial
    else if es[|es| - 1].SetDefault? then es[|es| - 1].config
    else DefaultAfter(initial, es[..|es| - 1])
  }

  ghost predicate Agreement(r: Registry) {
    && |r.creators| == |r.configs|
    // a state is registered under the domain it was created for, and only there
    && (forall d :: d in r.domains ==> r.domains[d] < |r.configs| && r.creators[r.domains[d]] == d)
    && (forall i :: 0 <= i < |r.creators| ==> r.creators[i] in r.domains && r.domains[r.creators[i]] == i)
    // every finished lookup holds the registered state
    && (forall t :: Holds(r, t) ==>
          r.lookups[t].domain in r.domains && r.lookups[t].state == r.domains[r.lookups[t].domain])
  }

  predicate Holds(r: Registry, t: nat) {
    t in r.lookups && r.lookups[t].Found?
  }

  /** What is registered in r is registered in r' in the same way. */
  ghost predicate Keeps(r: Registry, r': Registry) {
    && r.configs <= r'.configs && r.creators <= r'.creators
    && (forall d :: d in r.domains ==> d in r'.domains && r'.domains[d] == r.domains[d])
    && (forall t :: Holds(r, t) ==> Holds(r', t) && r'.lookups[t] == r.lookups[t])
  }

  /** Steps that register nothing. */
  lemma LookupAgrees(r: Registry, r': Registry, t: nat, lookup: Lookup)
    requires Agreement(r) && r' == r.(lookups := r.lookups[t := lookup]) && (t in r.lookups ==> !r.lookups[t].Found?)
    requires lookup.Found? ==> lookup.domain in r.domains && lookup.state == r.domains[lookup.domain]
    ensures Agreement(r') && Keeps(r, r')
  {
    forall u | Holds(r', u)
      ensures r'.lookups[u].domain in r'.domains && r'.lookups[u].state == r'.domains[r'.lookups[u].domain]
    {
      assert u != t ==> Holds(r, u);
    }
  }

  /** The step that registers a new state. */
  lemma CreationAgrees(r: Registry, t: nat, d: string)
    requires Agreement(r) && d !in r.domains && (t in r.lookups ==> !r.lookups[t].Found?)
    ensures var r' := Created(r, t, d); Agreement(r') && Keeps(r, r')
  {
    var r1 := Registered(r, d);
    forall i | 0 <= i < |r1.creators|
      ensures r1.creators[i] in r1.domains && r1.domains[r1.creators[i]] == i
    {
      assert i < |r.creators| ==> r.creators[i] in r.domains;
    }
    assert Agreement(r1) && Keeps(r, r1);
    LookupAgrees(r1, Created(r, t, d), t, Found(d, |r.configs|));
  }

  lemma AgreementStep(r: Registry, e: Event)
    requires Enabled(r, e) && Agreement(r)
    ensures Agreement(Apply(r, e)) && Keeps(r, Apply(r, e))
  {
    match e
    case SetDefault(_) =>
    case Begin(t, domain) => LookupAgrees(r, Apply(r, e), t, ReadPhase(domain));
    case Advance(t) =>
      var d := r.lookups[t].domain;
      if d in r.domains {
        LookupAgrees(r, Apply(r, e), t, Found(d, r.domains[d]));
      } else if r.lookups[t].ReadPhase? {
        LookupAgrees(r, Apply(r, e), t, WritePhase(d));
      } else {
        CreationAgrees(r, t, d);
      }
  }

  lemma {:induction false} AgreementHolds(config: Config, es: seq<Event>)
    requires CanRun(Empty(config), es)
    ensures Agreement(Run(Empty(config), es))
    ensures Run(Empty(config), es).defaultConfig == DefaultAfter(config, es)
  {
    if es != [] {
      var k := |es| - 1;
      AgreementHolds(config, es[..k]);
      AgreementStep(Run(Empty(config), es[..k]), es[k]);
    }
  }

  /** Nothing that is registered or found ever changes again. */
  lemma {:induction false} RegistrationsStay(config: Config, es: seq<Event>, n: nat)
    requires CanRun(Empty(config), es) && n <= |es|
    ensures CanRun(Empty(config), es[..n])
    ensures Keeps(Run(Empty(config), es[..n]), Run(Empty(config), es))
  {
    CanRunPrefix(Empty(config), es, n);
    var k := |es| - 1;
    if n < |es| {
      RegistrationsStay(config, es[..k], n);
      AgreementHolds(config, es[..k]);
      AgreementStep(Run(Empty(config), es[..k]), es[k]);
      assert es[..k][..n] == es[..n];
    } else {
      assert es[..n] == es;
    }
  }

  /** Event n is the write phase that created state i, for the domain of its lookup. */
  ghost predicate CreatedAt(config: Config, es: seq<Event>, n: nat, i: nat) {
    && n < |es| && CanRun(Empty(config), es[..n]) && es[n].Advance?
    && var r := Run(Empty(config), es[..n]);
       && |r.configs| == |r.creators| == i
       && Enabled(r, es[n]) && r.lookups[es[n].thread].WritePhase?
       && Apply(r, es[n]).creators == r.creators + [r.lookups[es[n].thread].domain]
  }

  /** State i was created by some event, with the last default set before it. */
  ghost predicate ConfiguredAtCreation(config: Config, es: seq<Event>, i: nat, state: Config) {
    exists n: nat :: CreatedAt(config, es, n, i) && state == DefaultAfter(config, es[..n])
  }

  /** The last event created state i. */
  lemma CreatedLast(config: Config, es: seq<Event>, i: nat)
    requires es != [] && CanRun(Empty(config), es)
    requires |Run(Empty(config), es[..|es| - 1]).configs| <= i < |Run(Empty(config), es).configs|
    ensures ConfiguredAtCreation(config, es, i, Run(Empty(config), es).configs[i])
  {
    var k: nat := |es| - 1;
    AgreementHolds(config, es[..k]);
    assert CreatedAt(config, es, k, i);
  }

  lemma CreatedEarlier(config: Config, es: seq<Event>, i: nat, state: Config)
    requires es != [] && ConfiguredAtCreation(config, es[..|es| - 1], i, state)
    ensures ConfiguredAtCreation(config, es, i, state)
  {
    var front := es[..|es| - 1];
    var n: nat :| CreatedAt(config, front, n, i) && state == DefaultAfter(config, front[..n]);
    assert front[..n] == es[..n];
    assert CreatedAt(config, es, n, i);
  }

  lemma {:induction false} DefaultAtCreation(config: Config, es: seq<Event>, i: nat)
    requires CanRun(Empty(config), es) && i < |Run(Empty(config), es).configs|
    ensures ConfiguredAtCreation(config, es, i, Run(Empty(config), es).configs[i])
  {
    var k := |es| - 1;
    if i < |Run(Empty(config), es[..k]).configs| {
      DefaultAtCreation(config, es[..k], i);
      RegistrationsStay(config, es, k);
      CreatedEarlier(config, es, i, Run(Empty(config), es).configs[i]);
    } else {
      CreatedLast(config, es, i);
    }
  }

  /**
  Under every interleaving of read and write phases with changes of the default: each domain is
  created at most once, with the last default set before its creation, and any two finished
  lookups of a domain hold the same state. RegistrationsStay adds that none of it ever changes.
  */
  lemma RegistryAgreement(config: Config, es: seq<Event>)
    requires CanRun(Empty(config), es)
    ensures var r := Run(Empty(config), es);
            && |r.creators| == |r.configs|
            && (forall i, j :: 0 <= i < j < |r.creators| ==> r.creators[i] != r.creators[j])
            && (forall i :: 0 <= i < |r.configs| ==> ConfiguredAtCreation(config, es, i, r.configs[i]))
            && (forall t :: Holds(r, t) ==>
                  r.lookups[t].state < |r.creators| && r.creators[r.lookups[t].state] == r.lookups[t].domain)
            && (forall t, u :: Holds(r, t) && Holds(r, u) && r.lookups[t].domain == r.lookups[u].domain ==>
                  r.lookups[t].state == r.lookups[u].state)
  {
    AgreementHolds(config, es);
    forall i | 0 <= i < |Run(Empty(config), es).configs|
      ensures ConfiguredAtCreation(config, es, i, Run(Empty(config), es).configs[i])
    {
      DefaultAtCreation(config, es, i);
    }
  }

  /** A new default reaches the domains created after it, and no others. */
  lemma DefaultsTakeEffect(first: Config, second: Config) returns (es: seq<Event>)
    ensures CanRun(Empty(first), es)
    ensures var r := Run(Empty(first), es);
            "a" in r.domains && "b" in r.domains
            && r.configs == [first, second] && r.domains["a"] == 0 && r.domains["b"] == 1
  {
    es := LookUp(first, [], 0, "a");
    var r := Run(Empty(first), es);
    es := RunMore(first, es, SetDefault(second));
    es := LookUp(first, es, 1, "b");
    assert [first] + [second] == [first, second];
  }

  lemma RunMore(config: Config, es: seq<Event>, e: Event) returns (es': seq<Event>)
    requires CanRun(Empty(config), es) && Enabled(Run(Empty(config), es), e)
    ensures CanRun(Empty(config), es') && Run(Empty(config), es') == Apply(Run(Empty(config), es), e)
  {
    es' := es + [e];
    assert es'[..|es|] == es;
  }

  /** A lookup of a new domain by a new thread, from start to end. */
  lemma LookUp(config: Config, es: seq<Event>, t: nat, d: string) returns (es': seq<Event>)
    requires CanRun(Empty(config), es)
    requires var r := Run(Empty(config), es); t !in r.lookups && d !in r.domains
    ensures CanRun(Empty(config), es')
    ensures Run(Empty(config), es') == Created(Run(Empty(config), es), t, d)
  {
    var r := Run(Empty(config), es);
    es' := RunMore(config, es, Begin(t, d));
    es' := RunMore(config, es', Advance(t));
    es' := RunMore(config, es', Advance(t));
    assert r.lookups[t := ReadPhase(d)][t := WritePhase(d)][t := Found(d, |r.configs|)] == r.lookups[t := Found(d, |r.configs|)];
  }

  // ---- summaries ----

  /** What one domain contributes: its successes and its delay. */
  datatype Sample = Sample(successes: nat, nanos: nat) {
    function Weight(): (w: nat)
      ensures w >= 1
    {
      Max(successes, 1)
    }

    function Millis(): nat {
      nanos / MILLISECOND
    }
  }

  function SampleOf(cfg: Config, c: Cells, now: u64): Sample {
    var reading := AfterDelay(cfg, c, now).1;
    Sample(c.successes, if reading.Delay? then reading.nanos else 0)
  }

  /** The sum of all weights, or of all weighted delays. */
  ghost function Total(samples: map<string, Sample>, weighted: bool): nat {
    SumOver(samples, TermOf(weighted))
  }

  function TermOf(weighted: bool): Sample -> nat {
    (s: Sample) => Term(s, weighted)
  }

  function Term(s: Sample, weighted: bool): nat {
    if weighted then s.Millis() * s.Weight() else s.Weight()
  }

  lemma TotalAnyOrder(samples: map<string, Sample>, weighted: bool, d: string)
    requires d in samples
    ensures Total(samples, weighted) == Term(samples[d], weighted) + Total(samples - {d}, weighted)
  {
    AnyOrder(samples, TermOf(weighted), d);
  }

  /** Division that yields 0 for a zero divisor. */
  function CheckedDiv(a: nat, b: nat): nat {
    if b == 0 then 0 else a / b
  }

  function Wrap(n: nat): u64 {
    n % U64
  }

  ghost function Average(samples: map<string, Sample>): nat {
    CheckedDiv(Total(samples, true), Total(samples, false))
  }

  /** The average as it comes out of sums that wrap at 2^64. */
  ghost function WrappedAverage(samples: map<string, Sample>): nat {
    CheckedDiv(Wrap(Total(samples, true)), Wrap(Total(samples, false)))
  }

  lemma NoOverflowNoWrap(samples: map<string, Sample>)
    requires Total(samples, true) < U64 && Total(samples, false) < U64
    ensures WrappedAverage(samples) == Average(samples)
  {
    assert Wrap(Total(samples, true)) == Total(samples, true);
    assert Wrap(Total(samples, false)) == Total(samples, false);
  }

  lemma {:induction false} TotalBetween(samples: map<string, Sample>, lo: nat, hi: nat)
    requires forall d :: d in samples ==> lo <= samples[d].Millis() <= hi
    ensures |samples| <= Total(samples, false)
    ensures lo * Total(samples, false) <= Total(samples, true) <= hi * Total(samples, false)
    decreases |samples|
  {
    if samples != map[] {
      var d :| d in samples;
      TotalAnyOrder(samples, false, d);
      TotalAnyOrder(samples, true, d);
      TotalBetween(samples - {d}, lo, hi);
      WeightedBetween(lo, hi, samples[d].Millis(), samples[d].Weight(),
                      Total(samples - {d}, false), Total(samples - {d}, true));
    }
  }

  /** The weighted average lies between the smallest and the largest delay. */
  lemma AverageBetween(samples: map<string, Sample>, lo: nat, hi: nat)
    requires samples != map[]
    requires forall d :: d in samples ==> lo <= samples[d].Millis() <= hi
    ensures lo <= Average(samples) <= hi
  {
    TotalBetween(samples, lo, hi);
    var w := Total(samples, false);
    assert w >= |samples| >= 1;
    QuotientAtLeast(Total(samples, true), w, lo);
    QuotientAtMost(Total(samples, true), w, hi);
  }

  /** A domain below the maximum pulls the weighted sum strictly below maximum times weight. */
  lemma TotalBelow(samples: map<string, Sample>, d: string, hi: nat)
    requires d in samples && samples[d].Millis() < hi
    requires forall e :: e in samples ==> samples[e].Millis() <= hi
    ensures Total(samples, true) < hi * Total(samples, false)
  {
    TotalAnyOrder(samples, false, d);
    TotalAnyOrder(samples, true, d);
    TotalBetween(samples - {d}, 0, hi);
    StrictlyBelow(hi, samples[d].Millis(), samples[d].Weight(),
                  Total(samples - {d}, false), Total(samples - {d}, true));
  }

  lemma StrictlyBelow(hi: nat, m: nat, w: nat, weights: nat, sum: nat)
    requires m < hi && w >= 1 && sum <= hi * weights
    ensures m * w + sum < hi * (w + weights)
  {
    WeightedBetween(0, hi, hi, w, weights, sum);
    MulMonotone(m + 1, hi, w);
    assert (m + 1) * w == m * w + w;
  }

  /** The largest delay of all domains, zero if there are none. */
  predicate IsMaximum(samples: map<string, Sample>, max: nat) {
    && (if samples == map[] then max == 0 else exists d :: d in samples && samples[d].nanos == max)
    && (forall d :: d in samples ==> samples[d].nanos <= max)
  }

  /** Without domains there is no backoff. */
  lemma NoDomainsNoBackoff()
    ensures WrappedAverage(map[]) == 0 && IsMaximum(map[], 0)
  {
    assert Total(map[], false) == 0;
  }

  /** One domain below a maximum of whole milliseconds pulls the average below it. */
  lemma AverageBelow(samples: map<string, Sample>, d: string, millis: nat)
    requires d in samples && samples[d].nanos < millis * MILLISECOND
    requires forall e :: e in samples ==> samples[e].nanos <= millis * MILLISECOND
    ensures Average(samples) < millis
  {
    forall e | e in samples
      ensures samples[e].Millis() <= millis
    {
      QuotientAtMost(samples[e].nanos, MILLISECOND, millis);
    }
    QuotientBelow(samples[d].nanos, MILLISECOND, millis);
    TotalBetween(samples, 0, millis);
    TotalBelow(samples, d, millis);
    QuotientBelow(Total(samples, true), Total(samples, false), millis);
  }

  lemma AverageOfEqual(samples: map<string, Sample>, max: nat)
    requires IsMaximum(samples, max) && forall d :: d in samples ==> samples[d].nanos == max
    ensures Average(samples) == max / MILLISECOND
  {
    if samples == map[] {
      assert Total(samples, true) == 0;
    } else {
      AverageBetween(samples, max / MILLISECOND, max / MILLISECOND);
    }
  }

  /**
  The documentation says that the average falls back to the maximum delay while nothing has
  succeeded. As long as the sums do not overflow, it is the maximum exactly when all domains are
  equally delayed by whole milliseconds, whatever has succeeded.
  */
  lemma AverageIsMaximumExactly(samples: map<string, Sample>, max: nat)
    requires IsMaximum(samples, max)
    requires Total(samples, true) < U64 && Total(samples, false) < U64
    ensures WrappedAverage(samples) * MILLISECOND == max <==>
            (forall d :: d in samples ==> samples[d].nanos == max) && max % MILLISECOND == 0
  {
    NoOverflowNoWrap(samples);
    var average := Average(samples);
    if average * MILLISECOND == max {
      DivisionUnique(max, MILLISECOND, average, 0);
      if d :| d in samples && samples[d].nanos != max {
        AverageBelow(samples, d, average);
      }
    }
    if forall d :: d in samples ==> samples[d].nanos == max {
      AverageOfEqual(samples, max);
    }
  }

  /** Two untouched domains, one of them delayed by 400 ms: the average is half the maximum. */
  lemma FallbackCounterexample()
    ensures var samples := map["a" := Sample(0, 0), "b" := Sample(0, 400 * MILLISECOND)];
            IsMaximum(samples, 400 * MILLISECOND) && Average(samples) == 200
  {
    var samples := map["a" := Sample(0, 0), "b" := Sample(0, 400 * MILLISECOND)];
    assert "b" in samples;
    TotalAnyOrder(samples, false, "a");
    TotalAnyOrder(samples, true, "a");
    var rest := samples - {"a"};
    assert rest == map["b" := Sample(0, 400 * MILLISECOND)];
    TotalAnyOrder(rest, false, "b");
    TotalAnyOrder(rest, true, "b");
    assert rest - {"b"} == map[];
  }

  /** One domain delayed by a millisecond and a half after a 429: the average is one millisecond. */
  lemma SubMillisecondCounterexample()
    ensures var cfg := Config(1, 5, 10_000, [0, 1_500_000]);
            var samples := map["a" := SampleOf(cfg, AfterRateLimit(cfg, FRESH, 1), 1)];
            IsMaximum(samples, 1_500_000) && Average(samples) == 1
  {
    var cfg := Config(1, 5, 10_000, [0, 1_500_000]);
    var samples := map["a" := SampleOf(cfg, AfterRateLimit(cfg, FRESH, 1), 1)];
    assert samples["a"] == Sample(0, 1_500_000);
    TotalAnyOrder(samples, false, "a");
    TotalAnyOrder(samples, true, "a");
    assert samples - {"a"} == map[];
  }

  // ---- weighting by traffic ----

  lemma OneMoreDomain(samples: map<string, Sample>, d: string, s: Sample, weighted: bool)
    requires d !in samples
    ensures Total(samples[d := s], weighted) == Total(samples, weighted) + Term(s, weighted)
  {
    AfterUpdate(samples, TermOf(weighted), d, s);
    assert samples - {d} == samples;
  }

  lemma TermsAdd(s: nat, t: nat, nanos: nat)
    requires s >= 1 && t >= 1
    ensures Term(Sample(s + t, nanos), true) == Term(Sample(s, nanos), true) + Term(Sample(t, nanos), true)
    ensures Term(Sample(s + t, nanos), false) == Term(Sample(s, nanos), false) + Term(Sample(t, nanos), false)
  {
    var millis := nanos / MILLISECOND;
    assert millis * (s + t) == millis * s + millis * t;
  }

  /** Successes weigh: a domain counts like two equally delayed domains that share its successes. */
  lemma SuccessesAdd(samples: map<string, Sample>, d: string, d1: string, d2: string, s: nat, t: nat, nanos: nat)
    requires d !in samples && d1 !in samples && d2 !in samples && d1 != d2 && s >= 1 && t >= 1
    ensures var one := samples[d := Sample(s + t, nanos)];
            var two := samples[d1 := Sample(s, nanos)][d2 := Sample(t, nanos)];
            Average(one) == Average(two) && WrappedAverage(one) == WrappedAverage(two)
  {
    var first := samples[d1 := Sample(s, nanos)];
    TermsAdd(s, t, nanos);
    OneMoreDomain(samples, d, Sample(s + t, nanos), true);
    OneMoreDomain(samples, d, Sample(s + t, nanos), false);
    OneMoreDomain(samples, d1, Sample(s, nanos), true);
    OneMoreDomain(samples, d1, Sample(s, nanos), false);
    OneMoreDomain(first, d2, Sample(t, nanos), true);
    OneMoreDomain(first, d2, Sample(t, nanos), false);
  }

  /** A domain without successes counts like one with a single success. */
  lemma NoSuccessCountsOnce(samples: map<string, Sample>, d: string, nanos: nat)
    ensures var none, one := samples[d := Sample(0, nanos)], samples[d := Sample(1, nanos)];
            Average(none) == Average(one) && WrappedAverage(none) == WrappedAverage(one)
  {
    AfterUpdate(samples, TermOf(true), d, Sample(0, nanos));
    AfterUpdate(samples, TermOf(true), d, Sample(1, nanos));
    AfterUpdate(samples, TermOf(false), d, Sample(0, nanos));
    AfterUpdate(samples, TermOf(false), d, Sample(1, nanos));
  }

  /** One delayed domain among two counts by its share of the successes. */
  lemma AverageOfTwo(healthy: nat, sick: nat, millis: nat)
    requires healthy >= 1 && sick >= 1
    ensures var samples := map["a" := Sample(healthy, 0), "b" := Sample(sick, millis * MILLISECOND)];
            Average(samples) == millis * sick / (healthy + sick)
  {
    var a, b := Sample(healthy, 0), Sample(sick, millis * MILLISECOND);
    var none: map<string, Sample> := map[];
    assert map["a" := a, "b" := b] == none["a" := a]["b" := b];
    DivisionUnique(millis * MILLISECOND, MILLISECOND, millis, 0);
    OneMoreDomain(none, "a", a, true);
    OneMoreDomain(none, "a", a, false);
    OneMoreDomain(none["a" := a], "b", b, true);
    OneMoreDomain(none["a" := a], "b", b, false);
  }

  /** 99 successes without delay dilute one success with a delay of a second to 10 ms. */
  lemma TrafficDilutes()
    ensures Average(map["a" := Sample(99, 0), "b" := Sample(1, 1_000_000_000)]) == 10
  {
    AverageOfTwo(99, 1, 1000);
  }

  // ---- the registry as one thread uses it ----

  class SharedRegistry {
    var domains: map<string, DomainThrottle>
    var defaultConfig: Config

    ghost predicate Valid()
      reads this
    {
      forall d, e :: d in domains && e in domains && d != e ==> domains[d] != domains[e]
    }

    constructor (defaultConfig: Config)
      ensures Valid() && domains == map[] && this.defaultConfig == defaultConfig
    {
      this.domains := map[];
      this.defaultConfig := defaultConfig;
    }

    method SetDefaultThrottleConfig(config: Config)
      modifies this`defaultConfig
      ensures defaultConfig == config
    {
      defaultConfig := config;
    }

    /** The registered state of a domain; a new one starts fresh with the default of this moment. */
    method StateOf(domain: string) returns (state: DomainThrottle)
      requires Valid()
      modifies this`domains
      ensures Valid()
      ensures domain in old(domains) ==> domains == old(domains) && state == domains[domain]
      ensures domain !in old(domains) ==>
                && domains == old(domains)[domain := state]
                && fresh(state) && state.config == defaultConfig && state.Snapshot() == FRESH
    {
      if domain in domains {
        return domains[domain];
      }
      state := new DomainThrottle(defaultConfig);
      domains := domains[domain := state];
    }

    /** What every domain would report if it were read at its own time. */
    ghost function Samples(clock: map<string, u64>): map<string, Sample>
      requires domains.Keys <= clock.Keys
      reads this, domains.Values
    {
      map d | d in domains :: SampleOf(domains[d].config, domains[d].Snapshot(), clock[d])
    }

    /** What querying every domain at its own time leaves behind and yields. */
    ghost function Queried(clock: map<string, u64>): map<string, (Cells, Reading)>
      requires domains.Keys <= clock.Keys
      reads this, domains.Values
    {
      map d | d in domains :: AfterDelay(domains[d].config, domains[d].Snapshot(), clock[d])
    }

    /** The domains in todo are as they were, the others have been queried. */
    ghost predicate Between(todo: set<string>, before: map<string, Cells>, after: map<string, (Cells, Reading)>)
      reads this, domains.Values
    {
      && todo <= domains.Keys == before.Keys == after.Keys
      && forall d :: d in domains ==> domains[d].Snapshot() == if d in todo then before[d] else after[d].0
    }

    /** One domain's contribution: its successes are loaded before its delay is queried. */
    method ReadSample(d: string, now: u64, ghost todo: set<string>,
                      ghost before: map<string, Cells>, ghost after: map<string, (Cells, Reading)>)
      returns (sample: Option<Sample>)
      requires Valid() && Between(todo, before, after) && d in todo
      requires after[d] == AfterDelay(domains[d].config, before[d], now)
      modifies domains[d]
      ensures sample == None <==> after[d].1.DivisionByZero?
      ensures sample.Some? ==> sample.value == SampleOf(domains[d].config, before[d], now)
      ensures Between(todo - {d}, before, after) && domains == old(domains)
    {
      var successes := domains[d].successes;
      var reading := domains[d].PreRequestDelay(now);
      sample := if reading.Delay? then Some(Sample(successes, reading.nanos)) else None;
    }

    /**
    The traffic-weighted mean of all delays, visited in any order; reading a domain also lets
    it decay. None is the panic of a division by a decay interval of zero, which leaves the
    domains that were not visited as they were.
    */
    method WeightedDomainBackoff(clock: map<string, u64>) returns (millis: Option<nat>)
      requires Valid() && domains.Keys <= clock.Keys
      modifies domains.Values
      ensures domains == old(domains)
      ensures millis == None <==> exists d :: d in domains && old(Queried(clock))[d].1.DivisionByZero?
      ensures millis.Some? ==> millis.value == WrappedAverage(old(Samples(clock)))
      ensures forall d :: d in domains ==>
                || domains[d].Snapshot() == old(Queried(clock))[d].0
                || (millis == None && domains[d].Snapshot() == old(domains[d].Snapshot()))
    {
      ghost var s := Samples(clock);
      ghost var before := map d | d in domains :: domains[d].Snapshot();
      ghost var after := Queried(clock);
      var sums := RunningSums(0, 0);
      var todo := domains.Keys;
      assert todo == s.Keys;
      AccumulatedNone(s);
      while todo != {}
        invariant domains == old(domains)
        invariant Between(todo, before, after)
        invariant Accumulated(s, todo, sums)
        invariant AnsweredOutside(todo, after)
        decreases todo
      {
        var d :| d in todo;
        var sample := ReadSample(d, clock[d], todo, before, after);
        if sample == None {
          return None;
        }
        AccumulateOne(s, todo, sums, d);
        AnsweredMore(todo, after, d);
        todo := todo - {d};
        sums := sums.Add(sample.value);
      }
      AccumulatedAll(s, sums);
      millis := Some(CheckedDiv(sums.delay, sums.weight));
    }
  }

  /** The queries of the domains outside todo have not panicked. */
  ghost predicate AnsweredOutside(todo: set<string>, after: map<string, (Cells, Reading)>) {
    forall d :: d in after && d !in todo ==> after[d].1.Delay?
  }

  lemma AnsweredMore(todo: set<string>, after: map<string, (Cells, Reading)>, d: string)
    requires AnsweredOutside(todo, after) && d in after && after[d].1.Delay?
    ensures AnsweredOutside(todo - {d}, after)
  {
  }

  /** The two running sums of the loop, in wrapping 64-bit arithmetic; the delay is cut to 64 bits first. */
  datatype RunningSums = RunningSums(weight: u64, delay: u64) {
    function Add(sample: Sample): RunningSums {
      RunningSums(Wrap(weight + sample.Weight()), Wrap(delay + Wrap(Wrap(sample.Millis()) * sample.Weight())))
    }
  }

  function Restrict(s: map<string, Sample>, keys: set<string>): map<string, Sample> {
    map d | d in keys && d in s :: s[d]
  }

  /** The sums account, up to multiples of 2^64, for every domain outside left. */
  ghost predicate Accumulated(s: map<string, Sample>, left: set<string>, sums: RunningSums) {
    && AccountsFor(sums.weight, Total(Restrict(s, left), false), Total(s, false))
    && AccountsFor(sums.delay, Total(Restrict(s, left), true), Total(s, true))
  }

  ghost predicate AccountsFor(sum: u64, rest: nat, goal: nat) {
    exists carry: nat :: WithCarry(sum, rest, goal, carry)
  }

  ghost predicate WithCarry(sum: u64, rest: nat, goal: nat, carry: nat) {
    sum + carry * U64 + rest == goal
  }

  lemma AccumulatedNone(s: map<string, Sample>)
    ensures Accumulated(s, s.Keys, RunningSums(0, 0))
  {
    assert Restrict(s, s.Keys) == s;
    assert WithCarry(0, Total(s, false), Total(s, false), 0);
    assert WithCarry(0, Total(s, true), Total(s, true), 0);
  }

  /** A term may be cut by multiples of 2^64 before it is added. */
  lemma AccountForTerm(sum: u64, cut: nat, carried: nat, rest: nat, goal: nat)
    requires AccountsFor(sum, cut + carried * U64 + rest, goal)
    ensures AccountsFor(Wrap(sum + cut), rest, goal)
  {
    var carry: nat :| WithCarry(sum, cut + carried * U64 + rest, goal, carry);
    assert WithCarry(Wrap(sum + cut), rest, goal, carry + carried + (sum + cut) / U64);
  }

  /** How much the product of a cut delay and a weight loses. */
  lemma CutProduct(millis: nat, weight: nat) returns (carried: nat)
    ensures millis * weight == Wrap(Wrap(millis) * weight) + carried * U64
  {
    var a, b := millis / U64, Wrap(millis) * weight / U64;
    carried := a * weight + b;
    assert millis == a * U64 + Wrap(millis);
    assert (a * U64 + Wrap(millis)) * weight == (a * weight) * U64 + Wrap(millis) * weight;
  }

  lemma AccumulateOne(s: map<string, Sample>, left: set<string>, sums: RunningSums, d: string)
    requires d in left && d in s && Accumulated(s, left, sums)
    ensures Accumulated(s, left - {d}, sums.Add(s[d]))
  {
    assert Restrict(s, left) - {d} == Restrict(s, left - {d});
    TotalAnyOrder(Restrict(s, left), false, d);
    TotalAnyOrder(Restrict(s, left), true, d);
    var carried := CutProduct(s[d].Millis(), s[d].Weight());
    AccountForTerm(sums.weight, s[d].Weight(), 0, Total(Restrict(s, left - {d}), false), Total(s, false));
    AccountForTerm(sums.delay, Wrap(Wrap(s[d].Millis()) * s[d].Weight()), carried,
                   Total(Restrict(s, left - {d}), true), Total(s, true));
  }

  lemma AccumulatedAll(s: map<string, Sample>, sums: RunningSums)
    requires Accumulated(s, {}, sums)
    ensures WrappedAverage(s) == CheckedDiv(sums.delay, sums.weight)
  {
    assert Restrict(s, {}) == map[];
    var c1: nat :| WithCarry(sums.weight, 0, Total(s, false), c1);
    var c2: nat :| WithCarry(sums.delay, 0, Total(s, true), c2);
    DivisionUnique(Total(s, false), U64, c1, sums.weight);
    DivisionUnique(Total(s, true), U64, c2, sums.delay);
  }
}
