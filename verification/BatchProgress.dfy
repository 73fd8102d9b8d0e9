/**
Progress of src/batching.rs: as long as a call is unfinished some step makes progress, and every
such step uses up a bounded amount of work. So if the inner transport replies and the runtime
keeps scheduling, every call finishes, and every request is sent a bounded number of times.
*/
module BatchProgress {
  import opened Arithmetic
  import opened Wrappers
  import opened JsonRpc
  import opened Sums
  import opened BatchRetry
  import opened BatchQueue
  import opened BatchProtocol
  import opened BatchSafety

  // ---- work ----

  function TaskEffort(maxRetries: nat, task: Task): nat {
    match task
    case Spawned(chunk) => 2 * maxRetries + 2 * |chunk| + 2
    case AtAttempt(o, attempt) => 2 * Monus(maxRetries, attempt) + 2 * |o| + 1
    case Awaiting(o, attempt, _) => 2 * Monus(maxRetries, attempt) + 2 * |o|
    case Individual(_, _) => 2
    case Calling(_, _) => 1
    case Finished => 0
  }

  function Effort(maxRetries: nat): Task -> nat {
    (task: Task) => TaskEffort(maxRetries, task)
  }

  /** The same amount for every element. */
  function Each<T>(amount: nat): T -> nat {
    (x: T) => amount
  }

  /** A drained request still has to be cut off and retried; a queued one also drained. */
  function DrainedEffort(cfg: Config): nat {
    2 * cfg.maxRetries + 5
  }

  function QueuedEffort(cfg: Config): nat {
    DrainedEffort(cfg) + 3
  }

  ghost function CallEffort(cfg: Config, call: Call): nat {
    match call.status
    case Created => 4 + SeqSum(call.packet.Requests(), Each(QueuedEffort(cfg)))
    case Waiting => 1
    case Returned(_) => 0
    case Cancelled => 0
  }

  ghost function CallsEffort(cfg: Config): Call -> nat {
    (call: Call) => CallEffort(cfg, call)
  }

  /** Polling an empty queue is not work. */
  function FlusherEffort(s: State): nat {
    match s.flusher
    case Exited => 0
    case Idle => if s.queue == [] then 0 else 2
    case Holding => if s.queue == [] then 0 else 1
    case Cutting(_) => 3
  }

  ghost function TotalEffort(cfg: Config, s: State): nat {
    SumOver(s.calls, CallsEffort(cfg))
    + SeqSum(s.queue, Each(QueuedEffort(cfg)))
    + FlusherEffort(s)
    + SeqSum(Remaining(s.flusher), Each(DrainedEffort(cfg)))
    + SeqSum(s.tasks, Effort(cfg.maxRetries))
  }

  /** Steps of the layer itself: not the arrival of handles and calls, nor a cancelled future. */
  predicate IsInternal(e: Event) {
    !e.CloneHandle? && !e.DropHandle? && !e.MakeCall? && !e.Cancel?
  }

  /** The flush task wakes up or looks at an empty queue. */
  predicate IsPoll(s: State, e: Event) {
    (e.Upgrade? || e.Drain?) && s.queue == []
  }

  lemma {:induction false} IndividualsEffort(ps: seq<Pending>, gate: nat, maxRetries: nat)
    ensures SeqSum(Individuals(ps, gate), Effort(maxRetries)) == 2 * |ps|
  {
    if ps != [] {
      IndividualsEffort(ps[..|ps| - 1], gate, maxRetries);
      assert Individuals(ps, gate)[..|ps| - 1] == Individuals(ps[..|ps| - 1], gate);
    }
  }

  lemma FallBackEffort(cfg: Config, s: State, t: nat, order: seq<Pending>)
    requires t < |s.tasks|
    ensures SeqSum(FallBack(s, t, order).tasks, Effort(cfg.maxRetries)) + TaskEffort(cfg.maxRetries, s.tasks[t])
            == SeqSum(s.tasks, Effort(cfg.maxRetries)) + 2 * |order|
  {
    SeqSumUpdate(s.tasks, t, Finished, Effort(cfg.maxRetries));
    IndividualsEffort(order, |s.gates|, cfg.maxRetries);
    SeqSumAppend(s.tasks[t := Finished], Individuals(order, |s.gates|), Effort(cfg.maxRetries));
  }

  ghost predicate SameOutside(s: State, s': State) {
    s'.calls == s.calls && s'.queue == s.queue && s'.flusher == s.flusher
  }

  lemma TasksEffortOnly(cfg: Config, s: State, s': State)
    requires SameOutside(s, s')
    requires SeqSum(s'.tasks, Effort(cfg.maxRetries)) < SeqSum(s.tasks, Effort(cfg.maxRetries))
    ensures TotalEffort(cfg, s') < TotalEffort(cfg, s)
  {
  }

  lemma OneTaskEffort(cfg: Config, s: State, s': State, t: nat, task: Task)
    requires SameOutside(s, s') && t < |s.tasks| && s'.tasks == s.tasks[t := task]
    requires TaskEffort(cfg.maxRetries, task) < TaskEffort(cfg.maxRetries, s.tasks[t])
    ensures TotalEffort(cfg, s') < TotalEffort(cfg, s)
  {
    SeqSumUpdate(s.tasks, t, task, Effort(cfg.maxRetries));
    TasksEffortOnly(cfg, s, s');
  }

  lemma HeadEffort(cfg: Config, s: State, t: nat, order: seq<Pending>)
    requires Ownership(cfg, s) && Enabled(s, Head(t, order))
    ensures TotalEffort(cfg, AfterHead(cfg, s, t, order)) < TotalEffort(cfg, s)
  {
    var s' := AfterHead(cfg, s, t, order);
    assert TaskSound(cfg, s.accepted, |s.gates|, s.tasks[t]);
    if s.tasks[t].outstanding != map[] && s.tasks[t].attempt == cfg.maxRetries {
      ListsExactly(order, s.tasks[t].outstanding);
      FallBackEffort(cfg, s, t, order);
    } else {
      SeqSumUpdate(s.tasks, t, s'.tasks[t], Effort(cfg.maxRetries));
    }
    TasksEffortOnly(cfg, s, s');
  }

  lemma BatchErrorEffort(cfg: Config, s: State, t: nat, e: Error, order: seq<Pending>)
    requires Ownership(cfg, s) && Enabled(s, BatchReply(t, Err(e), order))
    ensures TotalEffort(cfg, AfterBatchReply(s, t, Err(e), order)) < TotalEffort(cfg, s)
  {
    assert TaskSound(cfg, s.accepted, |s.gates|, s.tasks[t]);
    assert |s.tasks[t].outstanding| > 0;
    SeqSumUpdate(s.tasks, t, Finished, Effort(cfg.maxRetries));
  }

  /** A reply that leaves less, or nothing, outstanding. */
  lemma ShrunkTaskEffort(maxRetries: nat, o: Outstanding, left: Outstanding, attempt: nat, wire: seq<Request>)
    requires attempt < maxRetries && o != map[] && |left| <= |o|
    ensures TaskEffort(maxRetries, if left == map[] then Finished else AtAttempt(left, attempt + 1))
            < TaskEffort(maxRetries, Awaiting(o, attempt, wire))
  {
    assert |o| > 0;
  }

  lemma AnswerTasksEffort(cfg: Config, s: State, t: nat, packet: ResponsePacket, order: seq<Pending>)
    requires Enabled(s, BatchReply(t, Ok(packet), order))
    requires s.tasks[t].attempt < cfg.maxRetries && s.tasks[t].outstanding != map[]
    ensures SeqSum(AfterBatchReply(s, t, Ok(packet), order).tasks, Effort(cfg.maxRetries))
            < SeqSum(s.tasks, Effort(cfg.maxRetries))
  {
    var Awaiting(o, attempt, wire) := s.tasks[t];
    var left := Match(o, packet.Responses()).0;
    var after := AfterBatchReply(s, t, Ok(packet), order).tasks;
    MatchExactly(o, packet.Responses());
    if left != map[] && |left| == |o| {
      assert |order| == |left| by {
        ListsExactly(order, left);
      }
      assert after == FallBack(s, t, order).tasks;
      FallBackEffort(cfg, s, t, order);
    } else {
      var task := if left == map[] then Finished else AtAttempt(left, attempt + 1);
      assert after == s.tasks[t := task];
      ShrunkTaskEffort(cfg.maxRetries, o, left, attempt, wire);
      SeqSumUpdate(s.tasks, t, task, Effort(cfg.maxRetries));
    }
  }

  lemma BatchAnswerEffort(cfg: Config, s: State, t: nat, packet: ResponsePacket, order: seq<Pending>)
    requires Ownership(cfg, s) && Enabled(s, BatchReply(t, Ok(packet), order))
    ensures TotalEffort(cfg, AfterBatchReply(s, t, Ok(packet), order)) < TotalEffort(cfg, s)
  {
    assert TaskSound(cfg, s.accepted, |s.gates|, s.tasks[t]);
    AnswerTasksEffort(cfg, s, t, packet, order);
    TasksEffortOnly(cfg, s, AfterBatchReply(s, t, Ok(packet), order));
  }

  lemma {:induction false} CollectSize(chunk: seq<Pending>)
    ensures |Collect(chunk).0| <= |chunk|
  {
    if chunk != [] {
      CollectSize(chunk[..|chunk| - 1]);
    }
  }

  lemma PushEffort(cfg: Config, s: State, c: nat)
    requires Enabled(s, Push(c))
    ensures TotalEffort(cfg, AfterPush(s, c)) < TotalEffort(cfg, s)
  {
    var s' := AfterPush(s, c);
    var requests, q := s.calls[c].packet.Requests(), QueuedEffort(cfg);
    var items := Items(requests, |s.accepted|);
    AfterUpdate(s.calls, CallsEffort(cfg), c, s'.calls[c]);
    SeqSumAppend(s.queue, items, Each(q));
    SeqSumSame(items, Each(q), requests, Each(q));
  }

  lemma ReleasedEffort(cfg: Config, s: State)
    ensures TotalEffort(cfg, Released(s)) <= TotalEffort(cfg, s)
  {
  }

  lemma ReturnEffort(cfg: Config, s: State, c: nat, status: Status)
    requires c in s.calls && s.calls[c].status.Waiting? && status.Returned?
    ensures TotalEffort(cfg, AfterEnd(s, c, status)) < TotalEffort(cfg, s)
  {
    var s1 := s.(calls := s.calls[c := s.calls[c].(status := status)]);
    AfterUpdate(s.calls, CallsEffort(cfg), c, s1.calls[c]);
    ReleasedEffort(cfg, s1);
  }

  /** Draining is the difference between queued and drained requests. */
  lemma {:induction false} DrainedIsLess(cfg: Config, ps: seq<Pending>)
    ensures SeqSum(ps, Each(DrainedEffort(cfg))) + 3 * |ps| == SeqSum(ps, Each(QueuedEffort(cfg)))
  {
    if ps != [] {
      DrainedIsLess(cfg, ps[..|ps| - 1]);
    }
  }

  lemma DrainEffort(cfg: Config, s: State)
    requires s.flusher.Holding?
    ensures TotalEffort(cfg, AfterDrain(s)) <= TotalEffort(cfg, s)
    ensures s.queue != [] ==> TotalEffort(cfg, AfterDrain(s)) < TotalEffort(cfg, s)
  {
    if s.queue == [] {
      ReleasedEffort(cfg, s.(flusher := Idle));
    } else {
      DrainedIsLess(cfg, s.queue);
      ReleasedEffort(cfg, s.(flusher := Cutting(s.queue), drains := s.drains + [s.queue], queue := []));
    }
  }

  /** Cutting off a chunk pays for the task it becomes. */
  lemma {:induction false} ChunkEffort(cfg: Config, chunk: seq<Pending>)
    requires chunk != []
    ensures SeqSum(chunk, Each(DrainedEffort(cfg))) >= 2 * cfg.maxRetries + 2 * |chunk| + 3
  {
    var k := |chunk| - 1;
    assert SeqSum(chunk, Each(DrainedEffort(cfg))) == SeqSum(chunk[..k], Each(DrainedEffort(cfg))) + DrainedEffort(cfg);
    if k > 0 {
      ChunkEffort(cfg, chunk[..k]);
    }
  }

  lemma CutEffort(cfg: Config, s: State)
    requires cfg.Valid() && s.flusher.Cutting?
    ensures TotalEffort(cfg, AfterCut(cfg, s)) < TotalEffort(cfg, s)
  {
    var remaining := s.flusher.remaining;
    if remaining != [] {
      var s' := AfterCut(cfg, s);
      var k := NextSize(remaining, cfg.maxBatch);
      SeqSumOne(s.tasks, s'.tasks[|s.tasks|], Effort(cfg.maxRetries));
      assert remaining == remaining[..k] + remaining[k..];
      SeqSumAppend(remaining[..k], remaining[k..], Each(DrainedEffort(cfg)));
      ChunkEffort(cfg, remaining[..k]);
    }
  }

  lemma StartEffort(cfg: Config, s: State, t: nat)
    requires Enabled(s, Start(t))
    ensures TotalEffort(cfg, AfterStart(s, t)) < TotalEffort(cfg, s)
  {
    CollectSize(s.tasks[t].chunk);
    OneTaskEffort(cfg, s, AfterStart(s, t), t, AtAttempt(Collect(s.tasks[t].chunk).0, 0));
  }

  /** Every internal step but a poll uses up work, and a poll adds none. */
  lemma EffortStep(cfg: Config, s: State, e: Event)
    requires cfg.Valid() && Enabled(s, e) && Ownership(cfg, s) && IsInternal(e)
    ensures TotalEffort(cfg, Apply(cfg, s, e)) <= TotalEffort(cfg, s)
    ensures !IsPoll(s, e) ==> TotalEffort(cfg, Apply(cfg, s, e)) < TotalEffort(cfg, s)
  {
    match e
    case Push(c) => PushEffort(cfg, s, c);
    case Return(c) => ReturnEffort(cfg, s, c, Returned(Outcome(s, s.calls[c]).value));
    case Upgrade =>
    case Drain => DrainEffort(cfg, s);
    case Cut => CutEffort(cfg, s);
    case Start(t) => StartEffort(cfg, s, t);
    case Head(t, order) => HeadEffort(cfg, s, t, order);
    case BatchReply(t, reply, order) =>
      if reply.Err? {
        BatchErrorEffort(cfg, s, t, reply.error, order);
      } else {
        BatchAnswerEffort(cfg, s, t, reply.packet, order);
      }
    case Acquire(t) => OneTaskEffort(cfg, s, AfterAcquire(s, t), t, AfterAcquire(s, t).tasks[t]);
    case SingleReply(t, reply) => OneTaskEffort(cfg, s, AfterSingleReply(s, t, reply), t, Finished);
  }

  /** The steps of a run that are not polls. */
  ghost function WorkSteps(cfg: Config, s: State, es: seq<Event>): nat
    requires CanRun(cfg, s, es)
    decreases es
  {
    if es == [] then 0
    else (if IsPoll(s, es[0]) then 0 else 1) + WorkSteps(cfg, Apply(cfg, s, es[0]), es[1..])
  }

  /** In every schedule without new arrivals the work that is done never exceeds what there was to do. */
  lemma {:induction false} WorkIsBounded(cfg: Config, s: State, es: seq<Event>)
    requires cfg.Valid() && CanRun(cfg, s, es) && Invariant(cfg, s)
    requires forall k :: 0 <= k < |es| ==> IsInternal(es[k])
    ensures WorkSteps(cfg, s, es) + TotalEffort(cfg, Run(cfg, s, es)) <= TotalEffort(cfg, s)
    decreases es
  {
    if es != [] {
      assert IsInternal(es[0]);
      EffortStep(cfg, s, es[0]);
      InvariantStep(cfg, s, es[0]);
      WorkIsBounded(cfg, Apply(cfg, s, es[0]), es[1..]);
    }
  }

  // ---- nobody is stuck ----

  lemma {:induction false} CanBeListed(o: Outstanding) returns (order: seq<Pending>)
    requires Keyed(o)
    ensures Lists(order, o)
    decreases |o|
  {
    if o == map[] {
      order := [];
    } else {
      var id :| id in o;
      var front := CanBeListed(o - {id});
      ListsMore(front, o - {id}, o[id]);
      assert (o - {id})[id := o[id]] == o;
      order := front + [o[id]];
    }
  }

  /** A step that uses up work; if it is a reply, it is the one the transport has for that task. */
  ghost predicate IsProgress(s: State, e: Event, replies: nat -> Answer) {
    && Enabled(s, e) && IsInternal(e) && !IsPoll(s, e)
    && (e.BatchReply? || e.SingleReply? ==> e.reply == replies(e.task))
  }

  /** Whatever the reply to a batch is, it can be taken. */
  lemma CanTakeReply(cfg: Config, s: State, t: nat, reply: Answer) returns (e: Event)
    requires t < |s.tasks| && s.tasks[t].Awaiting? && MapOwned(s.accepted, s.tasks[t].outstanding)
    ensures Enabled(s, e) && e.BatchReply? && e.task == t && e.reply == reply
  {
    var left := s.tasks[t].outstanding;
    if reply.Ok? {
      MatchOwned(s.accepted, left, reply.packet.Responses());
      left := Match(left, reply.packet.Responses()).0;
    }
    var order := CanBeListed(left);
    e := BatchReply(t, reply, order);
  }

  /** An unfinished task has a step of its own, or waits for a send of its batch that has one. */
  lemma TaskCanStep(cfg: Config, s: State, t: nat, replies: nat -> Answer) returns (e: Event)
    requires t < |s.tasks| && !s.tasks[t].Finished? && Ownership(cfg, s) && GatesBalanced(s)
    ensures IsProgress(s, e, replies)
  {
    assert TaskSound(cfg, s.accepted, |s.gates|, s.tasks[t]);
    match s.tasks[t]
    case Spawned(_) => e := Start(t);
    case AtAttempt(o, _) =>
      var order := CanBeListed(o);
      e := Head(t, order);
    case Awaiting(o, _, _) =>
      e := CanTakeReply(cfg, s, t, replies(t));
    case Calling(_, _) => e := SingleReply(t, replies(t));
    case Individual(_, gate) =>
      if s.gates[gate] > 0 {
        e := Acquire(t);
      } else {
        assert GateBalanced(s, gate);
        var u := SeqSumPositive(s.tasks, InGate(gate));
        assert TaskSound(cfg, s.accepted, |s.gates|, s.tasks[u]);
        e := SingleReply(u, replies(u));
      }
  }

  lemma WeighedWasSent(resolved: seq<Resolution>, slot: nat)
    requires LogWeight(resolved, Only(slot)) > 0
    ensures Sent(resolved, slot).Some?
  {
    var i := SeqSumPositive(resolved, OfResolution(Only(slot)));
    SentIsFound(resolved, i);
  }

  lemma {:induction false} SentIsFound(resolved: seq<Resolution>, i: nat)
    requires i < |resolved|
    ensures Sent(resolved, resolved[i].slot).Some?
  {
    if i > 0 {
      SentIsFound(resolved[1..], i - 1);
    }
  }

  /** An unanswered slot is still queued, drained, or held by an unfinished task. */
  lemma UnansweredIsHeld(cfg: Config, s: State, slot: nat, replies: nat -> Answer) returns (e: Event)
    requires cfg.Valid() && Invariant(cfg, s) && Conserved(s, Only(slot)) && s.strong > 0
    requires slot < |s.accepted| && Received(s, slot) == None
    ensures IsProgress(s, e, replies)
  {
    OneSlotWeight(s.accepted, slot);
    if LogWeight(s.resolved, Only(slot)) > 0 {
      WeighedWasSent(s.resolved, slot);
    }
    assert s.discarded == [];
    if s.flusher.Cutting? {
      e := Cut;
    } else if s.queue != [] {
      e := if s.flusher.Idle? then Upgrade else Drain;
    } else {
      var t := SeqSumPositive(s.tasks, TaskWeight(Only(slot)));
      e := TaskCanStep(cfg, s, t, replies);
    }
  }

  lemma {:induction false} GatherWaitsForOne(answers: seq<Option<Answer>>, responses: seq<Response>) returns (i: nat)
    requires Gather(answers, responses) == None
    ensures i < |answers| && answers[i] == None
  {
    if answers[0] == None {
      i := 0;
    } else {
      i := GatherWaitsForOne(answers[1..], responses + answers[0].value.packet.Responses());
      i := i + 1;
    }
  }

  /** A call whose outcome is open waits for the channel of one of its slots. */
  lemma WaitsForSlot(s: State, call: Call) returns (slot: nat)
    requires call.status.Waiting? && CallSound(s.accepted, call) && Outcome(s, call) == None
    ensures slot < |s.accepted| && Received(s, slot) == None
  {
    match call.packet
    case Single(_) =>
      assert |call.packet.Requests()| == 1;
      slot := call.first;
    case Batch(qs) =>
      var j := GatherWaitsForOne(seq(|qs|, i requires 0 <= i < |qs| => Received(s, call.first + i)), []);
      slot := call.first + j;
  }

  /**
  In every reachable state with an unfinished call some step other than a poll can be taken,
  whatever the inner transport replies to each task.
  */
  lemma NobodyIsStuck(cfg: Config, es: seq<Event>, c: nat, replies: nat -> Answer) returns (e: Event)
    requires cfg.Valid() && CanRun(cfg, INITIAL, es)
    requires c in Run(cfg, INITIAL, es).calls && Run(cfg, INITIAL, es).calls[c].Live()
    ensures IsProgress(Run(cfg, INITIAL, es), e, replies)
  {
    var s := Run(cfg, INITIAL, es);
    var call := s.calls[c];
    if call.status.Created? {
      e := Push(c);
    } else if Outcome(s, call).Some? {
      e := Return(c);
    } else {
      InitialInvariant(cfg);
      InvariantHolds(cfg, INITIAL, es);
      assert CallSound(s.accepted, call);
      LiveHasReference(s, c);
      var slot := WaitsForSlot(s, call);
      ConservationHolds(cfg, INITIAL, es, Only(slot));
      e := UnansweredIsHeld(cfg, s, slot, replies);
    }
  }

  // ---- nothing is held back ----

  ghost predicate MayReply(s: State, t: nat, reply: Answer) {
    exists order :: Enabled(s, BatchReply(t, reply, order))
  }

  /**
  The model restricts neither callers nor the inner transport: whoever has a handle may clone it,
  drop it or make any call; an unfinished call may be cancelled at any time; and a task that waits
  for a reply may get any reply, whatever order the map is iterated in.
  */
  lemma AnythingGoes(cfg: Config, es: seq<Event>)
    requires cfg.Valid() && CanRun(cfg, INITIAL, es)
    ensures var s := Run(cfg, INITIAL, es);
            && (s.handles > 0 ==> Enabled(s, CloneHandle) && Enabled(s, DropHandle))
            && (s.handles > 0 ==> forall c, packet :: c !in s.calls ==> Enabled(s, MakeCall(c, packet)))
            && (forall c :: c in s.calls && s.calls[c].Live() ==> Enabled(s, Cancel(c)))
            && (forall c :: c in s.calls && s.calls[c].status.Created? ==> Enabled(s, Push(c)))
            && (forall t, reply :: 0 <= t < |s.tasks| && s.tasks[t].Calling? ==> Enabled(s, SingleReply(t, reply)))
            && (forall t, reply :: 0 <= t < |s.tasks| && s.tasks[t].Awaiting? ==> MayReply(s, t, reply))
            && (forall t, order :: 0 <= t < |s.tasks| && s.tasks[t].AtAttempt? && Lists(order, s.tasks[t].outstanding) ==>
                  Enabled(s, Head(t, order)))
  {
    var s := Run(cfg, INITIAL, es);
    InitialInvariant(cfg);
    InvariantHolds(cfg, INITIAL, es);
    forall t: nat, reply | t < |s.tasks| && s.tasks[t].Calling?
      ensures Enabled(s, SingleReply(t, reply))
    {
      assert TaskSound(cfg, s.accepted, |s.gates|, s.tasks[t]);
    }
    forall t: nat, reply | t < |s.tasks| && s.tasks[t].Awaiting?
      ensures MayReply(s, t, reply)
    {
      assert TaskSound(cfg, s.accepted, |s.gates|, s.tasks[t]);
      var e := CanTakeReply(cfg, s, t, reply);
      assert Enabled(s, BatchReply(t, reply, e.order));
    }
  }
}
