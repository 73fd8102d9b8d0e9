/**
The bound on individual sends of src/batching.rs is tight: some run has ten of them in flight.
*/
module BatchFallback {
  import opened Arithmetic
  import opened Wrappers
  import opened JsonRpc
  import opened Sums
  import opened BatchRetry
  import opened BatchQueue
  import opened BatchProtocol
  import opened BatchSafety
  import opened BatchProgress
  import opened BatchTransparency
  import opened BatchRefinement

  lemma NewId(chunk: seq<Pending>)
    requires DistinctIds(chunk) && chunk != []
    ensures chunk[|chunk| - 1].request.id !in Collect(chunk[..|chunk| - 1]).0
  {
    var k := |chunk| - 1;
    DistinctDisplacesNothing(chunk[..k]);
    forall id | id in Collect(chunk[..k]).0
      ensures id != chunk[k].request.id
    {
      var i :| 0 <= i < k && chunk[..k][i].request.id == id;
      assert chunk[i].request.id == id;
    }
  }

  lemma {:induction false} DistinctAllSurvive(chunk: seq<Pending>)
    requires DistinctIds(chunk)
    ensures |Collect(chunk).0| == |chunk|
  {
    if chunk != [] {
      var k := |chunk| - 1;
      DistinctAllSurvive(chunk[..k]);
      NewId(chunk);
      OneMoreKey(Collect(chunk[..k]).0, chunk[k].request.id, chunk[k]);
    }
  }

  /** Ten requests with different ids. */
  function TenRequests(): seq<Request> {
    seq(10, i requires 0 <= i < 10 => Request(Number(i), ""))
  }

  function TenItems(): seq<Pending> {
    Items(TenRequests(), 0)
  }

  /** The chunk of ten has been cut off, and its task spawned. */
  function Chunked(): State {
    State(1, 2, map[0 := Call(Batch(TenRequests()), Waiting, 0)], [], Cutting([]), [Spawned(TenItems())],
          [], [], [], 0, TenItems(), [TenItems()], [TenItems()])
  }

  lemma ReachChunked(cfg: Config) returns (es: seq<Event>)
    requires cfg.maxBatch >= 10
    ensures Leads(cfg, INITIAL, es, Chunked())
  {
    var made := AfterMakeCall(INITIAL, 0, Batch(TenRequests()));
    var pushed := AfterPush(made, 0);
    assert pushed.queue == [] + TenItems() == TenItems() == pushed.accepted;
    assert pushed.calls == map[0 := Call(Batch(TenRequests()), Waiting, 0)];
    var held := AfterUpgrade(pushed);
    var drained := AfterDrain(held);
    assert Leads(cfg, INITIAL, [], INITIAL);
    LeadsMore(cfg, INITIAL, [], INITIAL, MakeCall(0, Batch(TenRequests())));
    LeadsMore(cfg, INITIAL, [] + [MakeCall(0, Batch(TenRequests()))], made, Push(0));
    es := [] + [MakeCall(0, Batch(TenRequests()))] + [Push(0)];
    LeadsMore(cfg, INITIAL, es, pushed, Upgrade);
    es := es + [Upgrade];
    LeadsMore(cfg, INITIAL, es, held, Drain);
    es := es + [Drain];
    CutTen(cfg, drained);
    LeadsMore(cfg, INITIAL, es, drained, Cut);
    es := es + [Cut];
  }

  lemma CutTen(cfg: Config, drained: State)
    requires cfg.maxBatch >= 10
    requires drained == Chunked().(flusher := Cutting(TenItems()), tasks := [], chunks := [])
    ensures AfterCut(cfg, drained) == Chunked()
  {
    var items := TenItems();
    assert items[..10] == items && items[10..] == [];
    assert [] + [items] == [items];
    assert [] + [Spawned(items)] == [Spawned(items)];
  }

  /** Replies that carry nothing. */
  function Nothing(): nat -> Answer {
    (n: nat) => Ok(BatchResponse([]))
  }

  /** With empty replies, or without batch calls, everything that was collected is sent individually. */
  lemma FallsBack(chunk: seq<Pending>, maxRetries: nat, order: seq<Pending>) returns (trace: Trace)
    requires chunk != [] && Lists(order, Collect(chunk).0)
    ensures Follows(chunk, maxRetries, Nothing(), trace) && trace.individuals == order
  {
    var (o, displaced) := Collect(chunk);
    LastCopySurvives(chunk, 0);
    assert After(o, Nothing(), 0) == (o, []);
    if maxRetries == 0 {
      trace := Trace([], displaced, [], order, 0, LastResort);
      assert EndsIndividually(o, maxRetries, Nothing(), trace);
    } else {
      trace := Trace([o], displaced, [], order, 1, Rejected);
      assert [o][..0] == [];
      assert Match(o, []) == (o, []);
      assert After(o, Nothing(), 1) == (o, [] + []);
      assert Called(o, Nothing(), [o]);
      assert EndsRejected(o, Nothing(), trace);
    }
  }

  /** The state in which the first j individual tasks behind gate 0 have their permits. */
  predicate InFlight(s: State, order: seq<Pending>, j: nat) {
    && |s.tasks| == 1 + |order| && s.gates == [10 - j] && j <= 10 && j <= |order|
    && s.tasks[0].Finished?
    && (forall i :: 0 <= i < j ==> s.tasks[1 + i] == Calling(order[i], Some(0)))
    && (forall i :: j <= i < |order| ==> s.tasks[1 + i] == Individual(order[i], 0))
  }

  lemma {:induction false} AcquireAll(cfg: Config, s: State, es: seq<Event>, order: seq<Pending>, j: nat)
    returns (es': seq<Event>, s': State)
    requires Leads(cfg, INITIAL, es, s) && InFlight(s, order, j) && |order| == 10
    ensures Leads(cfg, INITIAL, es', s') && InFlight(s', order, 10)
    decreases 10 - j
  {
    if j == 10 {
      es', s' := es, s;
    } else {
      assert s.tasks[1 + j] == Individual(order[j], 0);
      var next := AfterAcquire(s, 1 + j);
      LeadsMore(cfg, INITIAL, es, s, Acquire(1 + j));
      es', s' := AcquireAll(cfg, next, es + [Acquire(1 + j)], order, j + 1);
    }
  }

  lemma {:induction false} CountCalling(tasks: seq<Task>, from: nat)
    requires from <= |tasks| && forall i :: from <= i < |tasks| ==> tasks[i].Calling? && tasks[i].through == Some(0)
    requires forall i :: 0 <= i < from ==> !tasks[i].Calling?
    ensures SeqSum(tasks, InGate(0)) == |tasks| - from
  {
    if tasks != [] {
      var k := |tasks| - 1;
      CountCalling(tasks[..k], if from <= k then from else k);
    }
  }

  lemma FallenBack(trace: Trace, order: seq<Pending>)
    requires trace.individuals == order && |order| == 10
    ensures InFlight(AfterTrace(Chunked(), 0, trace), order, 0)
  {
    var s := AfterTrace(Chunked(), 0, trace);
    assert s.tasks == [Finished] + Individuals(order, 0);
    assert s.gates == [] + [10];
  }

  lemma TenItemsSurvive()
    ensures |TenItems()| == 10 && |Collect(TenItems()).0| == 10 && Keyed(Collect(TenItems()).0)
  {
    assert DistinctIds(TenItems());
    DistinctAllSurvive(TenItems());
    CollectKeyed(TenItems());
  }

  /** The task of the chunk of ten falls back to ten individual sends. */
  lemma ReachFallback(cfg: Config) returns (es: seq<Event>, s: State, order: seq<Pending>)
    requires cfg.maxBatch >= 10
    ensures Leads(cfg, INITIAL, es, s) && |order| == 10 && InFlight(s, order, 0)
  {
    TenItemsSurvive();
    order := CanBeListed(Collect(TenItems()).0);
    ListsExactly(order, Collect(TenItems()).0);
    var trace := FallsBack(TenItems(), cfg.maxRetries, order);
    var before := ReachChunked(cfg);
    var more := MethodIsARun(cfg, Chunked(), 0, Nothing(), trace);
    s := AfterTrace(Chunked(), 0, trace);
    LeadsJoin(cfg, INITIAL, before, Chunked(), more, s);
    FallenBack(trace, order);
    es := before + more;
  }

  /** For every configuration with batches of ten or more, some run has ten individual sends of one batch in flight. */
  lemma TenInFlight(cfg: Config) returns (es: seq<Event>)
    requires cfg.maxBatch >= 10
    ensures CanRun(cfg, INITIAL, es) && |Run(cfg, INITIAL, es).gates| > 0
    ensures SeqSum(Run(cfg, INITIAL, es).tasks, InGate(0)) == 10
  {
    var s, order;
    es, s, order := ReachFallback(cfg);
    es, s := AcquireAll(cfg, s, es, order, 0);
    CallingFrom(s, order);
    CountCalling(s.tasks, 1);
  }

  lemma CallingFrom(s: State, order: seq<Pending>)
    requires InFlight(s, order, 10) && |order| == 10
    ensures forall i :: 1 <= i < |s.tasks| ==> s.tasks[i].Calling? && s.tasks[i].through == Some(0)
  {
    forall i | 1 <= i < |s.tasks|
      ensures s.tasks[i].Calling? && s.tasks[i].through == Some(0)
    {
      assert s.tasks[1 + (i - 1)] == Calling(order[i - 1], Some(0));
    }
  }

  lemma {:induction false} LeadsJoin(cfg: Config, s: State, a: seq<Event>, s1: State, b: seq<Event>, s2: State)
    requires Leads(cfg, s, a, s1) && Leads(cfg, s1, b, s2)
    ensures Leads(cfg, s, a + b, s2)
    decreases |a|
  {
    if a == [] {
      assert a + b == b;
    } else {
      LeadsJoin(cfg, Apply(cfg, s, a[0]), a[1..], s1, b, s2);
      assert (a + b)[1..] == a[1..] + b;
    }
  }
}
