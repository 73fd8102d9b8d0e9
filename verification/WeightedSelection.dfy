/**
Construction of the load balancer of src/lib.rs and its weighted round-robin selection: a
shared counter mapped into cumulative weight buckets by binary search.
*/
module WeightedSelection {
  import opened Arithmetic
  import opened Wrappers

  datatype Endpoint = Endpoint(weight: nat, maxBytes: Option<nat>, maxInFlight: Option<nat>)

  datatype BuildError = NoEndpoint | ZeroWeight | ZeroRequestCap | ZeroInFlight | WeightOverflow

  /** The weight of the first n endpoints. */
  function WeightBefore(es: seq<Endpoint>, n: nat): nat
    requires n <= |es|
  {
    if n == 0 then 0 else WeightBefore(es, n - 1) + es[n - 1].weight
  }

  /** The tables of a balancer; endpoint i owns the buckets from Low(i) up to cumulative[i]. */
  datatype Plan = Plan(cumulative: seq<nat>, total: nat, caps: seq<Option<nat>>, limits: seq<Option<nat>>) {
    ghost predicate Valid() {
      && 0 < |cumulative| == |caps| == |limits|
      && total == cumulative[|cumulative| - 1] < U64
      && 0 < cumulative[0]
      && (forall i, j :: 0 <= i < j < |cumulative| ==> cumulative[i] < cumulative[j])
      && (forall i :: 0 <= i < |limits| ==> limits[i] != Some(0))
    }

    function Low(i: nat): nat
      requires i < |cumulative|
    {
      if i == 0 then 0 else cumulative[i - 1]
    }

    function Weight(i: nat): int
      requires i < |cumulative|
    {
      cumulative[i] - Low(i)
    }
  }

  predicate Configured(e: Endpoint) {
    e.weight > 0 && e.maxBytes != Some(0) && e.maxInFlight != Some(0)
  }

  /** The builder accepts endpoint i after the ones before it. */
  predicate Accepted(es: seq<Endpoint>, i: nat)
    requires i < |es|
  {
    Configured(es[i]) && WeightBefore(es, i + 1) < U64
  }

  /** What endpoint i breaks first, in the order of the builder's assertions. */
  predicate Breaks(es: seq<Endpoint>, i: nat, error: BuildError)
    requires i < |es|
  {
    match error
    case NoEndpoint => false
    case ZeroWeight => es[i].weight == 0
    case ZeroRequestCap => es[i].weight > 0 && es[i].maxBytes == Some(0)
    case ZeroInFlight => es[i].weight > 0 && es[i].maxBytes != Some(0) && es[i].maxInFlight == Some(0)
    case WeightOverflow =>
      && es[i].weight > 0 && es[i].maxBytes != Some(0) && es[i].maxInFlight != Some(0)
      && WeightBefore(es, i + 1) >= 0x1_0000_0000_0000_0000
  }

  /** The tables for the first n endpoints, all of them accepted. */
  ghost predicate Tabulates(es: seq<Endpoint>, n: nat, p: Plan)
    requires n <= |es|
  {
    && |p.cumulative| == |p.caps| == |p.limits| == n
    && p.total == WeightBefore(es, n)
    && (forall i :: 0 <= i < n ==> p.cumulative[i] == WeightBefore(es, i + 1))
    && (forall i :: 0 <= i < n ==> p.caps[i] == es[i].maxBytes && p.limits[i] == es[i].maxInFlight)
    && (forall i :: 0 <= i < n ==> Accepted(es, i))
  }

  /** There is an endpoint, weights are positive, no cap or limit is zero, and the weights sum to less than 2^64. */
  predicate Buildable(es: seq<Endpoint>) {
    && es != []
    && (forall i :: 0 <= i < |es| ==> es[i].weight > 0 && es[i].maxBytes != Some(0) && es[i].maxInFlight != Some(0))
    && WeightBefore(es, |es|) < 0x1_0000_0000_0000_0000
  }

  lemma AcceptedIsBuildable(es: seq<Endpoint>)
    requires es != [] && forall i :: 0 <= i < |es| ==> Accepted(es, i)
    ensures Buildable(es)
  {
    assert Accepted(es, |es| - 1);
    forall i | 0 <= i < |es|
      ensures es[i].weight > 0 && es[i].maxBytes != Some(0) && es[i].maxInFlight != Some(0)
    {
      assert Accepted(es, i);
    }
  }

  lemma BreaksBuild(es: seq<Endpoint>, i: nat, error: BuildError)
    requires i < |es| && Breaks(es, i, error)
    ensures !Buildable(es)
  {
    WeightNeverShrinks(es, i + 1, |es|);
  }

  /** The build stops at endpoint i, after only accepted ones. */
  ghost predicate StopsAt(es: seq<Endpoint>, i: nat, error: BuildError) {
    i < |es| && Breaks(es, i, error) && forall j :: 0 <= j < i ==> Accepted(es, j)
  }

  /** What is wrong with one endpoint after the given weights, in the order of the assertions. */
  method Check(e: Endpoint, soFar: nat, ghost es: seq<Endpoint>, ghost i: nat) returns (broken: Option<BuildError>)
    requires i < |es| && e == es[i] && soFar == WeightBefore(es, i)
    ensures broken.Some? ==> Breaks(es, i, broken.value)
    ensures broken == None ==> Accepted(es, i)
  {
    if e.weight == 0 {
      return Some(ZeroWeight);
    }
    if e.maxBytes == Some(0) {
      return Some(ZeroRequestCap);
    }
    if e.maxInFlight == Some(0) {
      return Some(ZeroInFlight);
    }
    broken := if soFar + e.weight >= U64 then Some(WeightOverflow) else None;
  }

  /**
  Builds the tables, which succeeds exactly if the endpoints are buildable. Otherwise it stops at
  the first endpoint that breaks something, and says what.
  */
  method Build(endpoints: seq<Endpoint>) returns (r: Result<Plan, BuildError>)
    ensures r.Success? <==> Buildable(endpoints)
    ensures r.Success? ==> Tabulates(endpoints, |endpoints|, r.value) && r.value.Valid()
    ensures r.Success? ==> forall i :: 0 <= i < |endpoints| ==> r.value.Weight(i) == endpoints[i].weight
    ensures r.Failure? ==> (endpoints == [] && r.error == NoEndpoint) || exists i :: StopsAt(endpoints, i, r.error)
  {
    if endpoints == [] {
      return Failure(NoEndpoint);
    }
    var plan := Plan([], 0, [], []);
    for k := 0 to |endpoints|
      invariant Tabulates(endpoints, k, plan)
    {
      var e := endpoints[k];
      var broken := Check(e, plan.total, endpoints, k);
      if broken.Some? {
        BreaksBuild(endpoints, k, broken.value);
        assert StopsAt(endpoints, k, broken.value);
        return Failure(broken.value);
      }
      plan := Plan(plan.cumulative + [plan.total + e.weight], plan.total + e.weight,
                   plan.caps + [e.maxBytes], plan.limits + [e.maxInFlight]);
    }
    TabulatedIsValid(endpoints, plan);
    AcceptedIsBuildable(endpoints);
    r := Success(plan);
  }

  /** Two endpoints of the default weight are built, with a total of 200. */
  lemma DefaultsAreBuildable()
    ensures var es := [Endpoint(100, None, None), Endpoint(100, None, None)];
            Buildable(es) && WeightBefore(es, 2) == 200
  {
    var es := [Endpoint(100, None, None), Endpoint(100, None, None)];
    assert WeightBefore(es, 1) == 100;
  }

  lemma {:induction false} WeightNeverShrinks(es: seq<Endpoint>, i: nat, j: nat)
    requires i <= j <= |es|
    ensures WeightBefore(es, i) <= WeightBefore(es, j)
  {
    if i < j {
      WeightNeverShrinks(es, i, j - 1);
    }
  }

  lemma {:induction false} WeightGrows(es: seq<Endpoint>, i: nat, j: nat)
    requires i < j <= |es| && forall k :: i <= k < j ==> Accepted(es, k)
    ensures WeightBefore(es, i) < WeightBefore(es, j) < U64
  {
    assert Accepted(es, j - 1);
    if i < j - 1 {
      WeightGrows(es, i, j - 1);
    }
  }

  lemma TabulatedIsValid(es: seq<Endpoint>, p: Plan)
    requires es != [] && Tabulates(es, |es|, p)
    ensures p.Valid() && forall i :: 0 <= i < |es| ==> p.Weight(i) == es[i].weight
  {
    forall i, j | 0 <= i < j < |es|
      ensures p.cumulative[i] < p.cumulative[j]
    {
      WeightGrows(es, i + 1, j + 1);
    }
    forall i | 0 <= i < |es|
      ensures p.Weight(i) == es[i].weight && p.limits[i] != Some(0)
    {
      assert Accepted(es, i);
      assert WeightBefore(es, i + 1) == WeightBefore(es, i) + es[i].weight;
      assert i > 0 ==> p.cumulative[i - 1] == WeightBefore(es, (i - 1) + 1);
    }
    WeightGrows(es, 0, |es|);
    WeightGrows(es, 0, 1);
  }

  // ---- selection ----

  /** The first boundary above the bucket, by a scan from the left. */
  function FirstAbove(cumulative: seq<nat>, bucket: nat): (i: nat)
    ensures i <= |cumulative|
  {
    if cumulative == [] || cumulative[0] > bucket then 0 else 1 + FirstAbove(cumulative[1..], bucket)
  }

  lemma {:induction false} FirstAboveExactly(cumulative: seq<nat>, bucket: nat, i: nat)
    requires i <= |cumulative|
    requires forall j :: 0 <= j < i ==> cumulative[j] <= bucket
    requires i < |cumulative| ==> cumulative[i] > bucket
    ensures FirstAbove(cumulative, bucket) == i
  {
    if i > 0 {
      FirstAboveExactly(cumulative[1..], bucket, i - 1);
    }
  }

  /** Binary search for the partition point finds what the linear scan finds. */
  method PartitionPoint(cumulative: seq<nat>, bucket: nat) returns (i: nat)
    requires forall i, j :: 0 <= i < j < |cumulative| ==> cumulative[i] <= cumulative[j]
    ensures i == FirstAbove(cumulative, bucket)
    ensures i <= |cumulative|
    ensures forall j :: 0 <= j < |cumulative| ==> (cumulative[j] <= bucket <==> j < i)
  {
    var lo, hi := 0, |cumulative|;
    while lo < hi
      invariant 0 <= lo <= hi <= |cumulative|
      invariant forall j :: 0 <= j < lo ==> cumulative[j] <= bucket
      invariant forall j :: hi <= j < |cumulative| ==> cumulative[j] > bucket
    {
      var mid := (lo + hi) / 2;
      if cumulative[mid] <= bucket {
        lo := mid + 1;
      } else {
        hi := mid;
      }
    }
    FirstAboveExactly(cumulative, bucket, lo);
    i := lo;
  }

  /** The remainder of a tick by the total weight, by repeated subtraction: a form without non-linear arithmetic. */
  function Bucket(total: nat, tick: nat): nat
    requires total > 0
    decreases tick
  {
    if tick < total then tick else Bucket(total, tick - total)
  }

  lemma {:induction false} BucketIsRemainder(total: nat, tick: nat)
    requires total > 0
    ensures Bucket(total, tick) == tick % total
    decreases tick
  {
    if tick < total {
      DivisionUnique(tick, total, 0, tick);
    } else {
      var t := tick - total;
      BucketIsRemainder(total, t);
      assert (t / total + 1) * total == (t / total) * total + total;
      DivisionUnique(tick, total, t / total + 1, t % total);
    }
  }

  /** The endpoint a tick of the counter selects. */
  function Choose(p: Plan, tick: nat): nat
    requires p.total > 0
  {
    FirstAbove(p.cumulative, Bucket(p.total, tick))
  }

  /** The binary search in the tables finds the endpoint of a tick. */
  method IndexOf(plan: Plan, tick: nat) returns (index: nat)
    requires plan.Valid()
    ensures index == Choose(plan, tick) < |plan.cumulative|
  {
    ChooseExactly(plan, tick, 0);
    BucketIsRemainder(plan.total, tick);
    index := PartitionPoint(plan.cumulative, tick % plan.total);
  }

  class LoadBalancer {
    const plan: Plan
    var counter: nat

    ghost predicate Valid()
      reads this
    {
      plan.Valid() && counter < U64
    }

    constructor (plan: Plan)
      requires plan.Valid()
      ensures Valid() && this.plan == plan && counter == 0
    {
      this.plan := plan;
      counter := 0;
    }

    method SelectEndpoint() returns (index: nat)
      requires Valid()
      modifies this
      ensures Valid() && counter == (old(counter) + 1) % U64
      ensures index == Choose(plan, old(counter)) < |plan.cumulative|
    {
      var tick := counter;
      counter := (counter + 1) % U64;
      index := IndexOf(plan, tick);
    }
  }

  /** Endpoint i is chosen exactly for the ticks that fall into its buckets. */
  lemma ChooseExactly(p: Plan, tick: nat, i: nat)
    requires p.Valid() && i < |p.cumulative|
    ensures Choose(p, tick) < |p.cumulative|
    ensures Choose(p, tick) == i <==> p.Low(i) <= tick % p.total < p.cumulative[i]
  {
    ChooseByBucket(p, tick, i);
    BucketIsRemainder(p.total, tick);
  }

  lemma {:induction false} BucketInRange(total: nat, tick: nat)
    requires total > 0
    ensures Bucket(total, tick) < total
    decreases tick
  {
    if tick >= total {
      BucketInRange(total, tick - total);
    }
  }

  lemma ChooseByBucket(p: Plan, tick: nat, i: nat)
    requires p.Valid() && i < |p.cumulative|
    ensures Choose(p, tick) < |p.cumulative|
    ensures Choose(p, tick) == i <==> p.Low(i) <= Bucket(p.total, tick) < p.cumulative[i]
  {
    var bucket := Bucket(p.total, tick);
    BucketInRange(p.total, tick);
    ScanStops(p.cumulative, bucket);
    if p.Low(i) <= bucket < p.cumulative[i] {
      FirstAboveExactly(p.cumulative, bucket, i);
    }
  }

  lemma {:induction false} ScanStops(cumulative: seq<nat>, bucket: nat)
    ensures var c := FirstAbove(cumulative, bucket);
            && (forall j :: 0 <= j < c ==> cumulative[j] <= bucket)
            && (c < |cumulative| ==> cumulative[c] > bucket)
  {
    if cumulative != [] && cumulative[0] <= bucket {
      ScanStops(cumulative[1..], bucket);
      var c := FirstAbove(cumulative, bucket);
      assert forall j :: 1 <= j < c ==> cumulative[j] == cumulative[1..][j - 1];
    }
  }

  // ---- fairness ----

  /** How many of the n ticks from start fall into the buckets from lo up to hi, out of w. */
  function Hits(w: nat, lo: nat, hi: nat, start: nat, n: nat): nat
    requires w > 0
  {
    if n == 0 then 0
    else Hits(w, lo, hi, start, n - 1) + (if lo <= Bucket(w, start + n - 1) < hi then 1 else 0)
  }

  lemma {:induction false} HitsSplit(w: nat, lo: nat, hi: nat, start: nat, n: nat, m: nat)
    requires w > 0
    ensures Hits(w, lo, hi, start, n + m) == Hits(w, lo, hi, start, n) + Hits(w, lo, hi, start + n, m)
    decreases m
  {
    if m > 0 {
      HitsSplit(w, lo, hi, start, n, m - 1);
      assert start + (n + m) - 1 == (start + n) + m - 1;
    }
  }

  lemma {:induction false} HitsBounded(w: nat, lo: nat, hi: nat, start: nat, n: nat)
    requires w > 0
    ensures Hits(w, lo, hi, start, n) <= n
  {
    if n > 0 {
      HitsBounded(w, lo, hi, start, n - 1);
    }
  }

  lemma {:induction false} HitsFromZero(w: nat, lo: nat, hi: nat, n: nat)
    requires w > 0 && lo <= hi <= w && n <= w
    ensures Hits(w, lo, hi, 0, n) == Max(0, Min(n, hi) - lo)
  {
    if n > 0 {
      HitsFromZero(w, lo, hi, n - 1);
    }
  }

  lemma OneHit(w: nat, lo: nat, hi: nat, t: nat)
    requires w > 0
    ensures Hits(w, lo, hi, t, 1) == if lo <= Bucket(w, t) < hi then 1 else 0
  {
    assert Hits(w, lo, hi, t, 0) == 0;
  }

  /** Any w consecutive ticks visit every bucket once. */
  lemma {:induction false} FullCycle(w: nat, lo: nat, hi: nat, start: nat)
    requires w > 0 && lo <= hi <= w
    ensures Hits(w, lo, hi, start, w) == hi - lo
  {
    if start == 0 {
      HitsFromZero(w, lo, hi, w);
    } else {
      var t := start - 1;
      FullCycle(w, lo, hi, t);
      HitsSplit(w, lo, hi, t, 1, w);
      HitsSplit(w, lo, hi, t, w, 1);
      assert Bucket(w, t + w) == Bucket(w, t);
      OneHit(w, lo, hi, t);
      OneHit(w, lo, hi, t + w);
    }
  }

  lemma {:induction false} Cycles(w: nat, lo: nat, hi: nat, start: nat, q: nat)
    requires w > 0 && lo <= hi <= w
    ensures Hits(w, lo, hi, start, q * w) == q * (hi - lo)
  {
    if q > 0 {
      Cycles(w, lo, hi, start, q - 1);
      assert q * w == (q - 1) * w + w;
      assert q * (hi - lo) == (q - 1) * (hi - lo) + (hi - lo);
      HitsSplit(w, lo, hi, start, (q - 1) * w, w);
      FullCycle(w, lo, hi, start + (q - 1) * w);
    }
  }

  /** In part of a cycle no bucket is hit twice, and no more are missed than the rest can hold. */
  lemma PartialCycle(w: nat, lo: nat, hi: nat, start: nat, r: nat)
    requires w > 0 && lo <= hi <= w && r < w
    ensures var p := Hits(w, lo, hi, start, r);
            p <= r && p <= hi - lo && hi - lo - p <= w - r
  {
    FullCycle(w, lo, hi, start);
    HitsSplit(w, lo, hi, start, r, w - r);
    HitsBounded(w, lo, hi, start, r);
    HitsBounded(w, lo, hi, start + r, w - r);
  }

  /** More than the share: at most the whole share in at least as many ticks. */
  lemma SurplusBound(w: nat, share: nat, r: nat, p: nat)
    requires share <= w && p <= r && p <= share
    ensures p * w - r * share <= share * (w - share)
  {
    if r >= share {
      MulMonotone(p, share, w);
      MulMonotone(share, r, share);
      assert share * (w - share) == share * w - share * share;
    } else {
      MulMonotone(r, share, w - share);
      MulMonotone(p, r, w);
      assert r * (w - share) == r * w - r * share;
    }
  }

  /** Less than the share: the same bound for the misses in the rest of the cycle. */
  lemma PartialDeviation(w: nat, share: nat, r: nat, p: nat)
    requires share <= w && r <= w && p <= r && p <= share && share - p <= w - r
    ensures -(share * (w - share)) <= p * w - r * share <= share * (w - share)
  {
    SurplusBound(w, share, r, p);
    SurplusBound(w, share, w - r, share - p);
    assert (share - p) * w == share * w - p * w;
    assert (w - r) * share == w * share - r * share;
  }

  lemma DeviationOfCycles(w: nat, share: nat, q: nat, r: nat, p: nat)
    ensures (q * share + p) * w - (q * w + r) * share == p * w - r * share
  {
    assert (q * share + p) * w == q * share * w + p * w;
    assert (q * w + r) * share == q * w * share + r * share;
    assert q * share * w == q * w * share;
  }

  /** c of n selections deviate from the share of w by at most share * (w - share) / w. */
  predicate Fair(c: nat, n: nat, share: int, w: nat) {
    -(share * (w - share)) <= c * w - n * share <= share * (w - share)
  }

  lemma HitsFair(w: nat, lo: nat, hi: nat, start: nat, n: nat, q: nat, r: nat)
    requires w > 0 && lo <= hi <= w && r < w && n == q * w + r
    ensures Fair(Hits(w, lo, hi, start, n), n, hi - lo, w)
  {
    var share := hi - lo;
    HitsSplit(w, lo, hi, start, q * w, r);
    Cycles(w, lo, hi, start, q);
    PartialCycle(w, lo, hi, start + q * w, r);
    var p := Hits(w, lo, hi, start + q * w, r);
    PartialDeviation(w, share, r, p);
    DeviationOfCycles(w, share, q, r, p);
  }

  lemma AnyHitsFair(w: nat, lo: nat, hi: nat, start: nat, n: nat)
    requires w > 0 && lo <= hi <= w
    ensures Fair(Hits(w, lo, hi, start, n), n, hi - lo, w)
  {
    HitsFair(w, lo, hi, start, n, n / w, n % w);
  }

  /** One selection: which clone of the transport made it, and what it got. */
  datatype Pick = Pick(clone: nat, endpoint: nat)

  /** The selections when the clones take their ticks in the given order. */
  function Picks(p: Plan, counter: nat, clones: seq<nat>): seq<Pick>
    requires p.total > 0
    decreases clones
  {
    if clones == [] then []
    else [Pick(clones[0], Choose(p, counter))] + Picks(p, (counter + 1) % U64, clones[1..])
  }

  function TimesPicked(picks: seq<Pick>, i: nat): nat {
    if picks == [] then 0 else (if picks[0].endpoint == i then 1 else 0) + TimesPicked(picks[1..], i)
  }

  lemma OnePick(p: Plan, counter: nat, clones: seq<nat>, i: nat)
    requires p.total > 0 && clones != []
    ensures TimesPicked(Picks(p, counter, clones), i)
            == (if Choose(p, counter) == i then 1 else 0) + TimesPicked(Picks(p, (counter + 1) % U64, clones[1..]), i)
  {
    assert Picks(p, counter, clones)[1..] == Picks(p, (counter + 1) % U64, clones[1..]);
  }

  /** The first selection counts for endpoint i exactly if its tick hits the endpoint's buckets. */
  lemma OnePickIsOneHit(p: Plan, counter: nat, tick: nat, clones: seq<nat>, i: nat)
    requires p.Valid() && i < |p.cumulative| && clones != [] && Bucket(p.total, counter) == Bucket(p.total, tick)
    ensures TimesPicked(Picks(p, counter, clones), i)
            == Hits(p.total, p.Low(i), p.cumulative[i], tick, 1)
               + TimesPicked(Picks(p, (counter + 1) % U64, clones[1..]), i)
  {
    ChooseByBucket(p, counter, i);
    OnePick(p, counter, clones, i);
    OneHit(p.total, p.Low(i), p.cumulative[i], tick);
  }

  lemma FirstHit(w: nat, lo: nat, hi: nat, tick: nat, n: nat)
    requires w > 0 && n > 0
    ensures Hits(w, lo, hi, tick, n) == Hits(w, lo, hi, tick, 1) + Hits(w, lo, hi, tick + 1, n - 1)
    ensures Hits(w, lo, hi, tick + 1, 0) == 0
  {
    HitsSplit(w, lo, hi, tick, 1, n - 1);
  }

  lemma {:induction false} PicksAreHits(p: Plan, counter: nat, tick: nat, clones: seq<nat>, i: nat)
    requires p.Valid() && i < |p.cumulative| && counter < U64
    requires Bucket(p.total, counter) == Bucket(p.total, tick)
    requires counter + |clones| <= U64 || Bucket(p.total, U64) == 0
    ensures TimesPicked(Picks(p, counter, clones), i)
            == Hits(p.total, p.Low(i), p.cumulative[i], tick, |clones|)
    decreases |clones|
  {
    if clones != [] {
      OnePickIsOneHit(p, counter, tick, clones, i);
      FirstHit(p.total, p.Low(i), p.cumulative[i], tick, |clones|);
      if |clones| > 1 {
        SameNextBucket(p.total, counter, tick);
        PicksAreHits(p, (counter + 1) % U64, tick + 1, clones[1..], i);
      }
    }
  }

  /** The bucket of the next tick is the next bucket, around the cycle. */
  lemma {:induction false} NextBucket(w: nat, t: nat)
    requires w > 0
    ensures Bucket(w, t + 1) == if Bucket(w, t) + 1 == w then 0 else Bucket(w, t) + 1
    decreases t
  {
    if t < w {
      assert t + 1 == w ==> Bucket(w, t + 1) == Bucket(w, 0) == 0;
    } else {
      NextBucket(w, t - w);
      assert Bucket(w, t + 1) == Bucket(w, t + 1 - w);
    }
  }

  /** Equal buckets stay equal one tick later, also across a wrap that is a whole number of cycles. */
  lemma SameNextBucket(w: nat, counter: nat, tick: nat)
    requires w > 0 && counter < U64 && Bucket(w, counter) == Bucket(w, tick)
    requires counter + 1 < U64 || Bucket(w, U64) == 0
    ensures Bucket(w, (counter + 1) % U64) == Bucket(w, tick + 1)
  {
    NextBucket(w, counter);
    NextBucket(w, tick);
    assert Bucket(w, 0) == 0;
  }

  /**
  In every window of selections, however the clones interleave, endpoint i is chosen c times with
  |c * total - n * weight| <= weight * (total - weight); over one full cycle exactly weight times.
  The window must not cross the wrap of the counter, unless the total divides 2^64.
  */
  lemma WeightedFairness(p: Plan, counter: nat, clones: seq<nat>, i: nat)
    requires p.Valid() && i < |p.cumulative| && counter < U64
    requires counter + |clones| <= U64 || U64 % p.total == 0
    ensures var c, n, share := TimesPicked(Picks(p, counter, clones), i), |clones|, p.Weight(i);
            && Fair(c, n, share, p.total)
            && (n == p.total ==> c == share)
  {
    BucketIsRemainder(p.total, U64);
    PicksAreHits(p, counter, counter, clones, i);
    AnyHitsFair(p.total, p.Low(i), p.cumulative[i], counter, |clones|);
    FullCycle(p.total, p.Low(i), p.cumulative[i], counter);
  }

  /** The counter after n ticks that do not go beyond its wrap. */
  function AfterTicks(counter: nat, n: nat): nat {
    if counter + n == U64 then 0 else counter + n
  }

  lemma {:induction false} PicksSplit(p: Plan, counter: nat, a: seq<nat>, b: seq<nat>, i: nat)
    requires p.total > 0 && counter < U64 && counter + |a| <= U64
    ensures TimesPicked(Picks(p, counter, a + b), i)
            == TimesPicked(Picks(p, counter, a), i) + TimesPicked(Picks(p, AfterTicks(counter, |a|), b), i)
    decreases |a|
  {
    if a == [] {
      assert a + b == b;
    } else {
      var next := (counter + 1) % U64;
      assert next == AfterTicks(counter, 1);
      PicksSplit(p, next, a[1..], b, i);
      OnePick(p, counter, a, i);
      OnePick(p, counter, a + b, i);
      assert (a + b)[1..] == a[1..] + b;
    }
  }

  /** From this counter value on, a full cycle chooses endpoint i exactly as often as its weight says. */
  predicate ExactCycle(p: Plan, counter: nat, clones: seq<nat>, i: nat)
    requires p.total > 0 && i < |p.cumulative|
  {
    |clones| == p.total ==> TimesPicked(Picks(p, counter, clones), i) == p.Weight(i)
  }

  /** Across the wrap, starting at the last bucket 0 before it, the first endpoint is served from the start twice. */
  lemma AcrossTheWrap(p: Plan, counter: nat, before: seq<nat>, after: seq<nat>)
    requires p.Valid() && |before| <= p.total && |after| <= p.total
    requires counter < U64 && counter + |before| == U64 && Bucket(p.total, counter) == 0
    ensures TimesPicked(Picks(p, counter, before + after), 0)
            == Min(|before|, p.cumulative[0]) + Min(|after|, p.cumulative[0])
  {
    PicksSplit(p, counter, before, after, 0);
    FirstEndpointFromZero(p, counter, before);
    FirstEndpointFromZero(p, 0, after);
  }

  /** So a cycle that is cut by the wrap misses the first endpoint's weight. */
  lemma WrapIsInexact(p: Plan, counter: nat, before: seq<nat>, after: seq<nat>)
    requires p.Valid() && |p.cumulative| > 1 && |before| + |after| == p.total && 0 < |before| < p.total
    requires counter < U64 && counter + |before| == U64 && Bucket(p.total, counter) == 0
    ensures !ExactCycle(p, counter, before + after, 0)
  {
    AcrossTheWrap(p, counter, before, after);
    FirstShare(p);
    NotTheShare(p.total, |before|, p.cumulative[0]);
  }

  lemma FirstShare(p: Plan)
    requires p.Valid() && |p.cumulative| > 1
    ensures 0 < p.Weight(0) == p.cumulative[0] < p.total
  {
  }

  lemma NotTheShare(w: nat, r: nat, share: nat)
    requires 0 < r < w && 0 < share < w
    ensures Min(r, share) + Min(w - r, share) != share
  {
  }

  /** From a bucket 0 on, the first endpoint is served before all others. */
  lemma FirstEndpointFromZero(p: Plan, counter: nat, clones: seq<nat>)
    requires p.Valid() && counter < U64 && Bucket(p.total, counter) == 0
    requires |clones| <= p.total && counter + |clones| <= U64
    ensures TimesPicked(Picks(p, counter, clones), 0) == Min(|clones|, p.cumulative[0])
  {
    PicksAreHits(p, counter, 0, clones, 0);
    HitsFromZero(p.total, 0, p.cumulative[0], |clones|);
  }

  lemma LastCycleStart(w: nat)
    requires 0 < w <= U64
    ensures Bucket(w, U64 - U64 % w) == 0
  {
    DivisionUnique(U64 - U64 % w, w, U64 / w, 0);
    BucketIsRemainder(w, U64 - U64 % w);
  }

  /**
  With two or more endpoints, every window of one full cycle is exact if and only if the total
  weight divides 2^64; otherwise the wrap of the counter breaks one.
  */
  lemma ExactCyclesExactly(p: Plan)
    requires p.Valid() && |p.cumulative| > 1
    ensures (forall counter: nat, clones: seq<nat>, i: nat | counter < U64 && i < |p.cumulative| ::
               ExactCycle(p, counter, clones, i))
            <==> U64 % p.total == 0
  {
    if U64 % p.total == 0 {
      forall counter: nat, clones: seq<nat>, i: nat | counter < U64 && i < |p.cumulative|
        ensures ExactCycle(p, counter, clones, i)
      {
        WeightedFairness(p, counter, clones, i);
      }
    } else {
      var r := U64 % p.total;
      LastCycleStart(p.total);
      WrapIsInexact(p, U64 - r, seq(r, k => 0 as nat), seq(p.total - r, k => 0 as nat));
    }
  }

  /** Across the wrap three equal endpoints can be served 0, 0, 1: the third is left out of a whole cycle. */
  lemma WrapCounterexample()
    ensures var p := Plan([1, 2, 3], 3, [None, None, None], [None, None, None]);
            && p.Valid() && p.Weight(2) == 1
            && TimesPicked(Picks(p, 0xFFFF_FFFF_FFFF_FFFF, [0, 0, 0]), 2) == 0
  {
    var p := Plan([1, 2, 3], 3, [None, None, None], [None, None, None]);
    assert (U64 - 1) % 3 == 0;
    ChooseExactly(p, U64 - 1, 0);
    ChooseExactly(p, 0, 0);
    ChooseExactly(p, 1, 1);
    assert Picks(p, 1, [0]) == [Pick(0, 1)];
    assert [0, 0][1..] == [0] && [0, 0, 0][1..] == [0, 0];
    assert Picks(p, 0, [0, 0]) == [Pick(0, 0), Pick(0, 1)];
    assert Choose(p, U64 - 1) == 0 && (U64 - 1 + 1) % U64 == 0;
    assert Picks(p, U64 - 1, [0, 0, 0]) == [Pick(0, 0), Pick(0, 0), Pick(0, 1)];
    assert [Pick(0, 0), Pick(0, 0), Pick(0, 1)][1..] == [Pick(0, 0), Pick(0, 1)];
    assert [Pick(0, 0), Pick(0, 1)][1..] == [Pick(0, 1)];
  }
}
