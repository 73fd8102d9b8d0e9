/**
What every reachable state of the batching protocol satisfies, whatever the inner transport
answers and however the tasks interleave: ownership of slots, order, conservation, shutdown and
the bound on individual sends in flight.
*/
module BatchSafety {
  import opened Arithmetic
  import opened Wrappers
  import opened JsonRpc
  import opened Sums
  import opened BatchRetry
  import opened BatchQueue
  import opened BatchProtocol

  // ---- ownership: every held request is the accepted one with its slot ----

  predicate Numbered(accepted: seq<Pending>) {
    forall i :: 0 <= i < |accepted| ==> accepted[i].slot == i
  }

  predicate Owned(accepted: seq<Pending>, p: Pending) {
    p.slot < |accepted| && accepted[p.slot] == p
  }

  predicate AllOwned(accepted: seq<Pending>, ps: seq<Pending>) {
    forall i :: 0 <= i < |ps| ==> Owned(accepted, ps[i])
  }

  ghost predicate MapOwned(accepted: seq<Pending>, o: Outstanding) {
    Keyed(o) && forall id :: id in o ==> Owned(accepted, o[id])
  }

  /** The batch on the wire carries exactly the outstanding requests. */
  ghost predicate OnWire(o: Outstanding, wire: seq<Request>) {
    && (forall id :: id in o ==> o[id].request in wire)
    && (forall q :: q in wire ==> q.id in o && o[q.id].request == q)
  }

  ghost predicate TaskSound(cfg: Config, accepted: seq<Pending>, gates: nat, task: Task) {
    match task
    case Spawned(chunk) => |chunk| >= 2 && AllOwned(accepted, chunk)
    case AtAttempt(o, attempt) => MapOwned(accepted, o) && attempt <= cfg.maxRetries
    case Awaiting(o, attempt, wire) =>
      MapOwned(accepted, o) && o != map[] && attempt < cfg.maxRetries && OnWire(o, wire)
    case Individual(item, gate) => Owned(accepted, item) && gate < gates
    case Calling(item, through) => Owned(accepted, item) && (through.Some? ==> through.value < gates)
    case Finished => true
  }

  ghost predicate TasksSound(cfg: Config, accepted: seq<Pending>, gates: nat, tasks: seq<Task>) {
    forall t :: 0 <= t < |tasks| ==> TaskSound(cfg, accepted, gates, tasks[t])
  }

  function Remaining(flusher: Flusher): seq<Pending> {
    if flusher.Cutting? then flusher.remaining else []
  }

  ghost predicate Ownership(cfg: Config, s: State) {
    && Numbered(s.accepted)
    && AllOwned(s.accepted, s.queue)
    && AllOwned(s.accepted, Remaining(s.flusher))
    && TasksSound(cfg, s.accepted, |s.gates|, s.tasks)
  }

  lemma ListedRequests(order: seq<Pending>, o: Outstanding)
    requires Lists(order, o) && Keyed(o)
    ensures OnWire(o, Requests(order))
    ensures forall i :: 0 <= i < |order| ==> order[i].request.id in o && o[order[i].request.id] == order[i]
    ensures |order| == |o|
  {
    ListsExactly(order, o);
    forall id | id in o
      ensures o[id].request in Requests(order)
    {
      var i :| 0 <= i < |order| && order[i] == o[id];
      assert Requests(order)[i] == o[id].request;
    }
    forall q | q in Requests(order)
      ensures q.id in o && o[q.id].request == q
    {
      var i :| 0 <= i < |order| && Requests(order)[i] == q;
      assert order[i] in order;
    }
  }

  lemma FallBackSound(cfg: Config, s: State, t: nat, order: seq<Pending>, o: Outstanding)
    requires t < |s.tasks| && TasksSound(cfg, s.accepted, |s.gates|, s.tasks)
    requires MapOwned(s.accepted, o) && Lists(order, o)
    ensures TasksSound(cfg, s.accepted, |s.gates| + 1, FallBack(s, t, order).tasks)
  {
    ListedRequests(order, o);
    var tasks := FallBack(s, t, order).tasks;
    forall u | 0 <= u < |tasks|
      ensures TaskSound(cfg, s.accepted, |s.gates| + 1, tasks[u])
    {
      if u < |s.tasks| {
        assert TaskSound(cfg, s.accepted, |s.gates|, s.tasks[u]);
      } else {
        assert Owned(s.accepted, order[u - |s.tasks|]);
      }
    }
  }

  lemma CollectOwned(accepted: seq<Pending>, chunk: seq<Pending>)
    requires AllOwned(accepted, chunk)
    ensures MapOwned(accepted, Collect(chunk).0)
  {
    CollectKeyed(chunk);
  }

  lemma MatchOwned(accepted: seq<Pending>, o: Outstanding, responses: seq<Response>)
    requires MapOwned(accepted, o)
    ensures MapOwned(accepted, Match(o, responses).0)
  {
    MatchExactly(o, responses);
  }

  lemma PushOwnership(cfg: Config, s: State, c: nat)
    requires Ownership(cfg, s) && c in s.calls
    ensures Ownership(cfg, AfterPush(s, c))
  {
    var s' := AfterPush(s, c);
    forall t | 0 <= t < |s.tasks|
      ensures TaskSound(cfg, s'.accepted, |s'.gates|, s.tasks[t])
    {
      assert TaskSound(cfg, s.accepted, |s.gates|, s.tasks[t]);
    }
  }

  lemma OneTaskSound(cfg: Config, accepted: seq<Pending>, gates: nat, tasks: seq<Task>, t: nat, task: Task)
    requires t < |tasks| && TasksSound(cfg, accepted, gates, tasks) && TaskSound(cfg, accepted, gates, task)
    ensures TasksSound(cfg, accepted, gates, tasks[t := task])
  {
  }

  lemma HeadOwnership(cfg: Config, s: State, t: nat, order: seq<Pending>)
    requires Ownership(cfg, s) && Enabled(s, Head(t, order))
    ensures Ownership(cfg, AfterHead(cfg, s, t, order))
  {
    var o := s.tasks[t].outstanding;
    assert TaskSound(cfg, s.accepted, |s.gates|, s.tasks[t]);
    ListedRequests(order, o);
    if o != map[] && s.tasks[t].attempt == cfg.maxRetries {
      FallBackSound(cfg, s, t, order, o);
    } else {
      OneTaskSound(cfg, s.accepted, |s.gates|, s.tasks, t, AfterHead(cfg, s, t, order).tasks[t]);
    }
  }

  lemma BatchReplyOwnership(cfg: Config, s: State, t: nat, reply: Answer, order: seq<Pending>)
    requires Ownership(cfg, s) && Enabled(s, BatchReply(t, reply, order))
    ensures Ownership(cfg, AfterBatchReply(s, t, reply, order))
  {
    var o := s.tasks[t].outstanding;
    assert TaskSound(cfg, s.accepted, |s.gates|, s.tasks[t]);
    if reply.Err? {
      OneTaskSound(cfg, s.accepted, |s.gates|, s.tasks, t, Finished);
    } else {
      var left := Match(o, reply.packet.Responses()).0;
      MatchOwned(s.accepted, o, reply.packet.Responses());
      if left != map[] && |left| == |o| {
        FallBackSound(cfg, s, t, order, left);
        assert AfterBatchReply(s, t, reply, order).tasks == FallBack(s, t, order).tasks;
      } else {
        OneTaskSound(cfg, s.accepted, |s.gates|, s.tasks, t, AfterBatchReply(s, t, reply, order).tasks[t]);
      }
    }
  }

  /** Steps that leave the tasks alone and put nothing new into the queue or the drain. */
  lemma OwnershipFrame(cfg: Config, s: State, s': State)
    requires Ownership(cfg, s)
    requires s'.accepted == s.accepted && s'.tasks == s.tasks && s'.gates == s.gates
    requires s'.queue == s.queue || s'.queue == []
    requires Remaining(s'.flusher) in {[], s.queue, Remaining(s.flusher)}
    ensures Ownership(cfg, s')
  {
  }

  /** Steps that change one task. */
  lemma OneTaskOwnership(cfg: Config, s: State, s': State, t: nat, task: Task)
    requires Ownership(cfg, s) && t < |s.tasks| && TaskSound(cfg, s.accepted, |s.gates|, task)
    requires s'.accepted == s.accepted && s'.queue == s.queue && s'.flusher == s.flusher
    requires s'.tasks == s.tasks[t := task] && |s'.gates| == |s.gates|
    ensures Ownership(cfg, s')
  {
    OneTaskSound(cfg, s.accepted, |s.gates|, s.tasks, t, task);
  }

  lemma CutOwnership(cfg: Config, s: State)
    requires cfg.Valid() && s.flusher.Cutting? && Ownership(cfg, s)
    ensures Ownership(cfg, AfterCut(cfg, s))
  {
    var remaining := s.flusher.remaining;
    if remaining != [] {
      var k := NextSize(remaining, cfg.maxBatch);
      var s' := AfterCut(cfg, s);
      var task := s'.tasks[|s.tasks|];
      assert AllOwned(s.accepted, remaining[..k]) && AllOwned(s.accepted, remaining[k..]);
      assert TaskSound(cfg, s.accepted, |s.gates|, task);
      assert TasksSound(cfg, s.accepted, |s.gates|, s'.tasks);
    }
  }

  lemma StartOwnership(cfg: Config, s: State, t: nat)
    requires Ownership(cfg, s) && Enabled(s, Start(t))
    ensures Ownership(cfg, AfterStart(s, t))
  {
    assert TaskSound(cfg, s.accepted, |s.gates|, s.tasks[t]);
    CollectOwned(s.accepted, s.tasks[t].chunk);
    OneTaskOwnership(cfg, s, AfterStart(s, t), t, AtAttempt(Collect(s.tasks[t].chunk).0, 0));
  }

  lemma AcquireOwnership(cfg: Config, s: State, t: nat)
    requires Ownership(cfg, s) && Enabled(s, Acquire(t))
    ensures Ownership(cfg, AfterAcquire(s, t))
  {
    assert TaskSound(cfg, s.accepted, |s.gates|, s.tasks[t]);
    OneTaskOwnership(cfg, s, AfterAcquire(s, t), t, Calling(s.tasks[t].item, Some(s.tasks[t].gate)));
  }

  lemma SingleReplyOwnership(cfg: Config, s: State, t: nat, reply: Answer)
    requires Ownership(cfg, s) && Enabled(s, SingleReply(t, reply))
    ensures Ownership(cfg, AfterSingleReply(s, t, reply))
  {
    OneTaskOwnership(cfg, s, AfterSingleReply(s, t, reply), t, Finished);
  }

  lemma OwnershipStep(cfg: Config, s: State, e: Event)
    requires cfg.Valid() && Enabled(s, e) && Ownership(cfg, s)
    ensures Ownership(cfg, Apply(cfg, s, e))
  {
    match e
    case CloneHandle => OwnershipFrame(cfg, s, AfterClone(s));
    case DropHandle => OwnershipFrame(cfg, s, AfterDropHandle(s));
    case MakeCall(c, packet) => OwnershipFrame(cfg, s, AfterMakeCall(s, c, packet));
    case Push(c) => PushOwnership(cfg, s, c);
    case Return(c) => OwnershipFrame(cfg, s, AfterEnd(s, c, Returned(Outcome(s, s.calls[c]).value)));
    case Cancel(c) => OwnershipFrame(cfg, s, AfterEnd(s, c, Cancelled));
    case Upgrade => OwnershipFrame(cfg, s, AfterUpgrade(s));
    case Drain => OwnershipFrame(cfg, s, AfterDrain(s));
    case Cut => CutOwnership(cfg, s);
    case Start(t) => StartOwnership(cfg, s, t);
    case Head(t, order) => HeadOwnership(cfg, s, t, order);
    case BatchReply(t, reply, order) => BatchReplyOwnership(cfg, s, t, reply, order);
    case Acquire(t) => AcquireOwnership(cfg, s, t);
    case SingleReply(t, reply) => SingleReplyOwnership(cfg, s, t, reply);
  }

  /** Steps of a task change tasks, gates and answers, and nothing else. */
  ghost predicate OnlyTasks(s: State, s': State) {
    s' == s.(tasks := s'.tasks, gates := s'.gates, resolved := s'.resolved, callbacks := s'.callbacks)
  }

  predicate IsTaskStep(e: Event) {
    e.Start? || e.Head? || e.BatchReply? || e.Acquire? || e.SingleReply?
  }

  lemma TaskStepsOnlyTasks(cfg: Config, s: State, e: Event)
    requires Enabled(s, e) && IsTaskStep(e)
    ensures OnlyTasks(s, Apply(cfg, s, e))
  {
  }

  // ---- order: draining and cutting keep the order in which requests were pushed ----

  function AllChunks(maxBatch: nat, drains: seq<seq<Pending>>): seq<seq<Pending>>
    requires maxBatch > 0
  {
    if drains == [] then []
    else AllChunks(maxBatch, drains[..|drains| - 1]) + Chunks(drains[|drains| - 1], maxBatch)
  }

  ghost predicate Ordered(cfg: Config, s: State)
    requires cfg.Valid()
  {
    && s.accepted == Flatten(s.drains) + s.queue + s.discarded
    && s.chunks + Chunks(Remaining(s.flusher), cfg.maxBatch) == AllChunks(cfg.maxBatch, s.drains)
  }

  // ---- references to the shared state ----

  /** The call futures that own a reference. */
  function LiveOf(calls: map<nat, Call>): set<nat> {
    set c | c in calls && calls[c].Live()
  }

  lemma LiveAfter(calls: map<nat, Call>, c: nat, call: Call)
    ensures |LiveOf(calls[c := call])| ==
            |LiveOf(calls)| - (if c in calls && calls[c].Live() then 1 else 0) + (if call.Live() then 1 else 0)
  {
    var others := LiveOf(calls) - {c};
    assert LiveOf(calls[c := call]) == if call.Live() then others + {c} else others;
    assert LiveOf(calls) == if c in calls && calls[c].Live() then others + {c} else others;
  }

  /** The handles, the unfinished calls, and the flush task while it looks at the queue. */
  function Owners(s: State): nat {
    s.handles + |LiveOf(s.calls)| + (if s.flusher.Holding? then 1 else 0)
  }

  /** The count is right, the queue dies with the last reference, and the flush task notices no earlier. */
  ghost predicate ShutDownSafely(s: State) {
    && s.strong == Owners(s)
    && (s.strong == 0 ==> s.queue == [])
    && (s.discarded != [] ==> s.strong == 0)
    && (s.flusher.Exited? ==> s.strong == 0)
  }

  /** Giving up a reference that no owner holds any more. */
  lemma ReleasedSafely(s: State)
    requires s.strong == Owners(s) + 1 && s.discarded == [] && !s.flusher.Exited?
    ensures ShutDownSafely(Released(s))
  {
  }

  lemma LiveHasReference(s: State, c: nat)
    requires ShutDownSafely(s) && c in s.calls && s.calls[c].Live()
    ensures s.strong > 0 && s.discarded == [] && !s.flusher.Exited?
  {
    assert c in LiveOf(s.calls);
  }

  lemma MakeCallSafely(s: State, c: nat, packet: RequestPacket)
    requires ShutDownSafely(s) && s.handles > 0 && c !in s.calls
    ensures ShutDownSafely(AfterMakeCall(s, c, packet))
  {
    LiveAfter(s.calls, c, Call(packet, Created, 0));
  }

  lemma PushSafely(s: State, c: nat)
    requires ShutDownSafely(s) && c in s.calls && s.calls[c].status.Created?
    ensures ShutDownSafely(AfterPush(s, c))
  {
    LiveHasReference(s, c);
    LiveAfter(s.calls, c, AfterPush(s, c).calls[c]);
  }

  lemma EndSafely(s: State, c: nat, status: Status)
    requires ShutDownSafely(s) && c in s.calls && s.calls[c].Live() && !status.Created? && !status.Waiting?
    ensures ShutDownSafely(AfterEnd(s, c, status))
  {
    var call := s.calls[c].(status := status);
    LiveHasReference(s, c);
    LiveAfter(s.calls, c, call);
    ReleasedSafely(s.(calls := s.calls[c := call]));
  }

  lemma DrainSafely(s: State)
    requires ShutDownSafely(s) && s.flusher.Holding?
    ensures ShutDownSafely(AfterDrain(s))
  {
    if s.queue == [] {
      ReleasedSafely(s.(flusher := Idle));
    } else {
      ReleasedSafely(s.(flusher := Cutting(s.queue), drains := s.drains + [s.queue], queue := []));
    }
  }

  lemma ShutdownStep(cfg: Config, s: State, e: Event)
    requires Enabled(s, e) && ShutDownSafely(s)
    ensures ShutDownSafely(Apply(cfg, s, e))
  {
    if IsTaskStep(e) {
      TaskStepsOnlyTasks(cfg, s, e);
    } else {
      match e
      case CloneHandle =>
      case DropHandle => ReleasedSafely(s.(handles := s.handles - 1));
      case MakeCall(c, packet) => MakeCallSafely(s, c, packet);
      case Push(c) => PushSafely(s, c);
      case Return(c) => EndSafely(s, c, Returned(Outcome(s, s.calls[c]).value));
      case Cancel(c) => EndSafely(s, c, Cancelled);
      case Upgrade =>
      case Drain => DrainSafely(s);
      case Cut =>
    }
  }

  // ---- order over a run ----

  lemma OrderFrame(cfg: Config, s: State, s': State)
    requires cfg.Valid() && Ordered(cfg, s)
    requires s'.accepted == s.accepted && s'.drains == s.drains && s'.chunks == s.chunks
    requires s'.queue == s.queue && s'.discarded == s.discarded && Remaining(s'.flusher) == Remaining(s.flusher)
    ensures Ordered(cfg, s')
  {
  }

  lemma TaskStepOrder(cfg: Config, s: State, e: Event)
    requires cfg.Valid() && Ordered(cfg, s) && Enabled(s, e) && IsTaskStep(e)
    ensures Ordered(cfg, Apply(cfg, s, e))
  {
    TaskStepsOnlyTasks(cfg, s, e);
    OrderFrame(cfg, s, Apply(cfg, s, e));
  }

  lemma ReleasedOrder(cfg: Config, s: State)
    requires cfg.Valid() && Ordered(cfg, s) && s.discarded == []
    ensures Ordered(cfg, Released(s))
  {
    var drained := Flatten(s.drains);
    assert drained + s.queue + [] == drained + [] + ([] + s.queue);
  }

  lemma PushOrder(cfg: Config, s: State, c: nat)
    requires cfg.Valid() && Ordered(cfg, s) && c in s.calls && s.discarded == []
    ensures Ordered(cfg, AfterPush(s, c))
  {
    var drained, items := Flatten(s.drains), Items(s.calls[c].packet.Requests(), |s.accepted|);
    assert drained + s.queue + [] + items == drained + (s.queue + items) + [];
  }

  lemma EndOrder(cfg: Config, s: State, c: nat, status: Status)
    requires cfg.Valid() && Ordered(cfg, s) && c in s.calls && s.discarded == []
    ensures Ordered(cfg, AfterEnd(s, c, status))
  {
    var s1 := s.(calls := s.calls[c := s.calls[c].(status := status)]);
    OrderFrame(cfg, s, s1);
    ReleasedOrder(cfg, s1);
  }

  lemma TakeOrder(cfg: Config, s: State)
    requires cfg.Valid() && Ordered(cfg, s) && s.flusher.Holding? && s.queue != [] && s.discarded == []
    ensures Ordered(cfg, s.(flusher := Cutting(s.queue), drains := s.drains + [s.queue], queue := []))
  {
    FlattenAppend(s.drains, [s.queue]);
    assert [s.queue][1..] == [];
    assert Flatten([s.queue]) == s.queue + [];
    assert (s.drains + [s.queue])[..|s.drains|] == s.drains;
    assert s.chunks + [] == s.chunks;
  }

  lemma DrainOrder(cfg: Config, s: State)
    requires cfg.Valid() && Ordered(cfg, s) && s.flusher.Holding? && s.discarded == []
    ensures Ordered(cfg, AfterDrain(s))
  {
    if s.queue == [] {
      OrderFrame(cfg, s, s.(flusher := Idle));
      ReleasedOrder(cfg, s.(flusher := Idle));
    } else {
      TakeOrder(cfg, s);
      ReleasedOrder(cfg, s.(flusher := Cutting(s.queue), drains := s.drains + [s.queue], queue := []));
    }
  }

  lemma CutOrder(cfg: Config, s: State)
    requires cfg.Valid() && Ordered(cfg, s) && s.flusher.Cutting?
    ensures Ordered(cfg, AfterCut(cfg, s))
  {
    var remaining := s.flusher.remaining;
    if remaining != [] {
      var k := NextSize(remaining, cfg.maxBatch);
      var chunk, rest := remaining[..k], Chunks(remaining[k..], cfg.maxBatch);
      assert Chunks(remaining, cfg.maxBatch) == [chunk] + rest;
      Associative(s.chunks, [chunk], rest);
    }
  }

  lemma DropHandleOrder(cfg: Config, s: State)
    requires cfg.Valid() && Ordered(cfg, s) && s.handles > 0 && s.discarded == []
    ensures Ordered(cfg, AfterDropHandle(s))
  {
    OrderFrame(cfg, s, s.(handles := s.handles - 1));
    ReleasedOrder(cfg, s.(handles := s.handles - 1));
  }

  lemma CallerStepOrder(cfg: Config, s: State, e: Event)
    requires cfg.Valid() && Enabled(s, e) && Ordered(cfg, s) && ShutDownSafely(s)
    requires e.Push? || e.Return? || e.Cancel?
    ensures Ordered(cfg, Apply(cfg, s, e))
  {
    LiveHasReference(s, e.call);
    match e
    case Push(c) => PushOrder(cfg, s, c);
    case Return(c) => EndOrder(cfg, s, c, Returned(Outcome(s, s.calls[c]).value));
    case Cancel(c) => EndOrder(cfg, s, c, Cancelled);
  }

  lemma OrderStep(cfg: Config, s: State, e: Event)
    requires cfg.Valid() && Enabled(s, e) && Ordered(cfg, s) && ShutDownSafely(s)
    ensures Ordered(cfg, Apply(cfg, s, e))
  {
    if IsTaskStep(e) {
      TaskStepOrder(cfg, s, e);
    } else if e.Push? || e.Return? || e.Cancel? {
      CallerStepOrder(cfg, s, e);
    } else {
      match e
      case CloneHandle => OrderFrame(cfg, s, AfterClone(s));
      case DropHandle => DropHandleOrder(cfg, s);
      case MakeCall(c, packet) => OrderFrame(cfg, s, AfterMakeCall(s, c, packet));
      case Upgrade => OrderFrame(cfg, s, AfterUpgrade(s));
      case Drain => DrainOrder(cfg, s);
      case Cut => CutOrder(cfg, s);
    }
  }

  // ---- bounded individual sends ----

  function InGate(gate: nat): Task -> nat {
    (task: Task) => if task.Calling? && task.through == Some(gate) then 1 else 0
  }

  /** Permits in use and permits free always make up the whole gate. */
  ghost predicate GatesBalanced(s: State) {
    forall g :: 0 <= g < |s.gates| ==> GateBalanced(s, g)
  }

  ghost predicate GateBalanced(s: State, g: nat)
    requires g < |s.gates|
  {
    s.gates[g] + SeqSum(s.tasks, InGate(g)) == FALLBACK_CONCURRENCY
  }

  lemma {:induction false} NobodyInGate(ps: seq<Pending>, gate: nat, g: nat)
    ensures SeqSum(Individuals(ps, gate), InGate(g)) == 0
  {
    if ps != [] {
      NobodyInGate(ps[..|ps| - 1], gate, g);
      assert Individuals(ps, gate)[..|ps| - 1] == Individuals(ps[..|ps| - 1], gate);
    }
  }

  /** A gate that no task refers to yet has nobody in it. */
  lemma {:induction false} NewGateEmpty(cfg: Config, accepted: seq<Pending>, gates: nat, tasks: seq<Task>)
    requires TasksSound(cfg, accepted, gates, tasks)
    ensures SeqSum(tasks, InGate(gates)) == 0
  {
    if tasks != [] {
      var k := |tasks| - 1;
      assert TaskSound(cfg, accepted, gates, tasks[k]);
      assert TasksSound(cfg, accepted, gates, tasks[..k]) by {
        assert forall t :: 0 <= t < k ==> tasks[..k][t] == tasks[t];
      }
      NewGateEmpty(cfg, accepted, gates, tasks[..k]);
    }
  }

  lemma FallBackBalanced(cfg: Config, s: State, t: nat, order: seq<Pending>)
    requires t < |s.tasks| && !s.tasks[t].Calling?
    requires TasksSound(cfg, s.accepted, |s.gates|, s.tasks) && GatesBalanced(s)
    ensures GatesBalanced(FallBack(s, t, order))
  {
    var s' := FallBack(s, t, order);
    NewGateEmpty(cfg, s.accepted, |s.gates|, s.tasks);
    forall g | 0 <= g < |s'.gates|
      ensures GateBalanced(s', g)
    {
      NobodyInGate(order, |s.gates|, g);
      SeqSumUpdate(s.tasks, t, Finished, InGate(g));
      SeqSumAppend(s.tasks[t := Finished], Individuals(order, |s.gates|), InGate(g));
      assert g < |s.gates| ==> GateBalanced(s, g);
    }
  }

  /** The tasks a step replaces and the ones it appends; everything but a fallback. */
  lemma OneTaskBalanced(s: State, s': State, t: nat, task: Task)
    requires t < |s.tasks| && s'.tasks == s.tasks[t := task] && |s'.gates| == |s.gates|
    requires GatesBalanced(s)
    requires forall g :: 0 <= g < |s.gates| ==>
               s'.gates[g] + InGate(g)(task) == s.gates[g] + InGate(g)(s.tasks[t])
    ensures GatesBalanced(s')
  {
    forall g | 0 <= g < |s'.gates|
      ensures GateBalanced(s', g)
    {
      assert GateBalanced(s, g);
      SeqSumUpdate(s.tasks, t, task, InGate(g));
    }
  }

  lemma SameTasksBalanced(s: State, s': State)
    requires GatesBalanced(s) && s'.tasks == s.tasks && s'.gates == s.gates
    ensures GatesBalanced(s')
  {
    forall g | 0 <= g < |s'.gates|
      ensures GateBalanced(s', g)
    {
      assert GateBalanced(s, g);
    }
  }

  lemma CutBalanced(cfg: Config, s: State)
    requires s.flusher.Cutting? && GatesBalanced(s)
    ensures GatesBalanced(AfterCut(cfg, s))
  {
    var s' := AfterCut(cfg, s);
    if s.flusher.remaining == [] {
      SameTasksBalanced(s, s');
    } else {
      var task := s'.tasks[|s.tasks|];
      assert s'.tasks == s.tasks + [task];
      forall g | 0 <= g < |s'.gates|
        ensures GateBalanced(s', g)
      {
        assert GateBalanced(s, g);
        SeqSumOne(s.tasks, task, InGate(g));
      }
    }
  }

  lemma HeadBalanced(cfg: Config, s: State, t: nat, order: seq<Pending>)
    requires Enabled(s, Head(t, order)) && TasksSound(cfg, s.accepted, |s.gates|, s.tasks) && GatesBalanced(s)
    ensures GatesBalanced(AfterHead(cfg, s, t, order))
  {
    var s' := AfterHead(cfg, s, t, order);
    if s.tasks[t].outstanding != map[] && s.tasks[t].attempt == cfg.maxRetries {
      FallBackBalanced(cfg, s, t, order);
    } else {
      OneTaskBalanced(s, s', t, s'.tasks[t]);
    }
  }

  lemma BatchReplyBalanced(cfg: Config, s: State, t: nat, reply: Answer, order: seq<Pending>)
    requires Enabled(s, BatchReply(t, reply, order))
    requires TasksSound(cfg, s.accepted, |s.gates|, s.tasks) && GatesBalanced(s)
    ensures GatesBalanced(AfterBatchReply(s, t, reply, order))
  {
    var o, s' := s.tasks[t].outstanding, AfterBatchReply(s, t, reply, order);
    if reply.Ok? && Match(o, reply.packet.Responses()).0 != map[]
       && |Match(o, reply.packet.Responses()).0| == |o| {
      FallBackBalanced(cfg, s, t, order);
      SameTasksBalanced(FallBack(s, t, order), s');
    } else {
      OneTaskBalanced(s, s', t, s'.tasks[t]);
    }
  }

  lemma GatesStep(cfg: Config, s: State, e: Event)
    requires cfg.Valid() && Enabled(s, e) && Ownership(cfg, s) && GatesBalanced(s)
    ensures GatesBalanced(Apply(cfg, s, e))
  {
    match e
    case Cut => CutBalanced(cfg, s);
    case Start(t) => OneTaskBalanced(s, AfterStart(s, t), t, AfterStart(s, t).tasks[t]);
    case Head(t, order) => HeadBalanced(cfg, s, t, order);
    case BatchReply(t, reply, order) => BatchReplyBalanced(cfg, s, t, reply, order);
    case Acquire(t) => OneTaskBalanced(s, AfterAcquire(s, t), t, AfterAcquire(s, t).tasks[t]);
    case SingleReply(t, reply) => OneTaskBalanced(s, AfterSingleReply(s, t, reply), t, Finished);
    case _ => SameTasksBalanced(s, Apply(cfg, s, e));
  }

  // ---- calls and their slots ----

  predicate HasPushed(call: Call) {
    call.status.Waiting? || call.status.Returned?
  }

  /** The slots of a call belong to its own requests, in their order. */
  predicate CallSound(accepted: seq<Pending>, call: Call) {
    var requests := call.packet.Requests();
    HasPushed(call) ==>
      && call.first + |requests| <= |accepted|
      && forall i :: 0 <= i < |requests| ==> accepted[call.first + i].request == requests[i]
  }

  predicate AllCallsSound(accepted: seq<Pending>, calls: map<nat, Call>) {
    forall c :: c in calls ==> CallSound(accepted, calls[c])
  }

  predicate CallsSound(s: State) {
    AllCallsSound(s.accepted, s.calls)
  }

  /** One call changes, keeping its packet and its slots. */
  lemma CallsUpdate(accepted: seq<Pending>, calls: map<nat, Call>, c: nat, call: Call)
    requires AllCallsSound(accepted, calls) && CallSound(accepted, call)
    ensures AllCallsSound(accepted, calls[c := call])
  {
  }

  lemma CallSoundGrows(accepted: seq<Pending>, items: seq<Pending>, call: Call)
    requires CallSound(accepted, call)
    ensures CallSound(accepted + items, call)
  {
  }

  lemma PushedCallSound(accepted: seq<Pending>, packet: RequestPacket)
    ensures CallSound(accepted + Items(packet.Requests(), |accepted|), Call(packet, Waiting, |accepted|))
  {
  }

  lemma PushCalls(s: State, c: nat)
    requires CallsSound(s) && c in s.calls
    ensures CallsSound(AfterPush(s, c))
  {
    var s' := AfterPush(s, c);
    var items := Items(s.calls[c].packet.Requests(), |s.accepted|);
    forall d | d in s'.calls
      ensures CallSound(s'.accepted, s'.calls[d])
    {
      if d == c {
        PushedCallSound(s.accepted, s.calls[c].packet);
      } else {
        CallSoundGrows(s.accepted, items, s.calls[d]);
      }
    }
  }

  lemma EndCalls(s: State, c: nat, status: Status)
    requires CallsSound(s) && c in s.calls && (status.Cancelled? || HasPushed(s.calls[c]))
    ensures CallsSound(AfterEnd(s, c, status))
  {
    assert CallSound(s.accepted, s.calls[c]);
    CallsUpdate(s.accepted, s.calls, c, s.calls[c].(status := status));
  }

  lemma CallsStep(cfg: Config, s: State, e: Event)
    requires Enabled(s, e) && CallsSound(s)
    ensures CallsSound(Apply(cfg, s, e))
  {
    match e
    case MakeCall(c, packet) => CallsUpdate(s.accepted, s.calls, c, Call(packet, Created, 0));
    case Push(c) => PushCalls(s, c);
    case Return(c) => EndCalls(s, c, Returned(Outcome(s, s.calls[c]).value));
    case Cancel(c) => EndCalls(s, c, Cancelled);
    case CloneHandle =>
    case DropHandle =>
    case Upgrade =>
    case Drain =>
    case Cut =>
    case Start(_) =>
    case Head(t, order) =>
    case BatchReply(t, reply, order) =>
    case Acquire(_) =>
    case SingleReply(_, _) =>
  }

  // ---- conservation: no slot is lost or used twice, whatever weight slots are given ----

  ghost function TaskLoad(task: Task, w: nat -> nat): nat {
    match task
    case Spawned(chunk) => Weight(chunk, w)
    case AtAttempt(o, _) => SumOver(o, OfSlot(w))
    case Awaiting(o, _, _) => SumOver(o, OfSlot(w))
    case Individual(item, _) => w(item.slot)
    case Calling(item, _) => w(item.slot)
    case Finished => 0
  }

  ghost function TaskWeight(w: nat -> nat): Task -> nat {
    (task: Task) => TaskLoad(task, w)
  }

  /** Everything that is queued, drained, in a task, resolved or dropped. */
  ghost function Held(s: State, w: nat -> nat): nat {
    Weight(s.queue, w) + Weight(Remaining(s.flusher), w) + Weight(s.discarded, w)
    + SeqSum(s.tasks, TaskWeight(w)) + LogWeight(s.resolved, w)
  }

  ghost predicate Conserved(s: State, w: nat -> nat) {
    Held(s, w) == Weight(s.accepted, w)
  }

  /** A task changes, and what it lost has been resolved. */
  lemma TaskChange(s: State, s': State, t: nat, task: Task, log: seq<Resolution>, w: nat -> nat)
    requires t < |s.tasks| && s'.tasks == s.tasks[t := task] && s'.resolved == s.resolved + log
    requires s'.queue == s.queue && s'.flusher == s.flusher && s'.discarded == s.discarded && s'.accepted == s.accepted
    requires TaskLoad(s.tasks[t], w) == TaskLoad(task, w) + LogWeight(log, w)
    requires Conserved(s, w)
    ensures Conserved(s', w)
  {
    SeqSumUpdate(s.tasks, t, task, TaskWeight(w));
    SeqSumAppend(s.resolved, log, OfResolution(w));
  }

  /** A task falls back to individual sends, after resolving part of what it had. */
  lemma FallBackConserves(s: State, s': State, t: nat, order: seq<Pending>, log: seq<Resolution>, w: nat -> nat)
    requires t < |s.tasks| && s'.tasks == FallBack(s, t, order).tasks && s'.resolved == s.resolved + log
    requires s'.queue == s.queue && s'.flusher == s.flusher && s'.discarded == s.discarded && s'.accepted == s.accepted
    requires TaskLoad(s.tasks[t], w) == Weight(order, w) + LogWeight(log, w)
    requires Conserved(s, w)
    ensures Conserved(s', w)
  {
    var sends := Individuals(order, |s.gates|);
    SeqSumSame(sends, TaskWeight(w), order, OfSlot(w));
    SeqSumUpdate(s.tasks, t, Finished, TaskWeight(w));
    SeqSumAppend(s.tasks[t := Finished], sends, TaskWeight(w));
    SeqSumAppend(s.resolved, log, OfResolution(w));
  }

  lemma PushConserves(s: State, c: nat, w: nat -> nat)
    requires c in s.calls && Conserved(s, w)
    ensures Conserved(AfterPush(s, c), w)
  {
    var items := Items(s.calls[c].packet.Requests(), |s.accepted|);
    SeqSumAppend(s.queue, items, OfSlot(w));
    SeqSumAppend(s.accepted, items, OfSlot(w));
  }

  lemma CutConserves(cfg: Config, s: State, w: nat -> nat)
    requires cfg.Valid() && s.flusher.Cutting? && Conserved(s, w)
    ensures Conserved(AfterCut(cfg, s), w)
  {
    var remaining := s.flusher.remaining;
    if remaining != [] {
      var k := NextSize(remaining, cfg.maxBatch);
      var s' := AfterCut(cfg, s);
      var task := s'.tasks[|s.tasks|];
      assert remaining == remaining[..k] + remaining[k..];
      SeqSumAppend(remaining[..k], remaining[k..], OfSlot(w));
      SeqSumOne(s.tasks, task, TaskWeight(w));
      if k == 1 {
        SeqSumOne([], remaining[0], OfSlot(w));
        assert [] + [remaining[0]] == remaining[..1];
      }
    }
  }

  lemma StartConserves(s: State, t: nat, w: nat -> nat)
    requires Enabled(s, Start(t)) && Conserved(s, w)
    ensures Conserved(AfterStart(s, t), w)
  {
    var (o, displaced) := Collect(s.tasks[t].chunk);
    CollectConserves(s.tasks[t].chunk, w);
    FailuresWeight(displaced, DuplicateId, w);
    TaskChange(s, AfterStart(s, t), t, AtAttempt(o, 0), Failures(displaced, DuplicateId), w);
  }

  lemma HeadConserves(cfg: Config, s: State, t: nat, order: seq<Pending>, w: nat -> nat)
    requires Enabled(s, Head(t, order)) && Conserved(s, w)
    ensures Conserved(AfterHead(cfg, s, t, order), w)
  {
    var o := s.tasks[t].outstanding;
    var s' := AfterHead(cfg, s, t, order);
    ListsConserves(order, o, w);
    assert s'.resolved == s.resolved + [];
    if o != map[] && s.tasks[t].attempt == cfg.maxRetries {
      FallBackConserves(s, s', t, order, [], w);
    } else {
      TaskChange(s, s', t, s'.tasks[t], [], w);
    }
  }

  lemma BatchErrorConserves(s: State, t: nat, e: Error, order: seq<Pending>, w: nat -> nat)
    requires Enabled(s, BatchReply(t, Err(e), order)) && Conserved(s, w)
    ensures Conserved(AfterBatchReply(s, t, Err(e), order), w)
  {
    ListsConserves(order, s.tasks[t].outstanding, w);
    FailuresWeight(order, BatchFailed(e), w);
    TaskChange(s, AfterBatchReply(s, t, Err(e), order), t, Finished, Failures(order, BatchFailed(e)), w);
  }

  /** An answer that matched nothing: the task hands over everything it had. */
  lemma RejectionConserves(s: State, t: nat, packet: ResponsePacket, order: seq<Pending>, w: nat -> nat)
    requires Enabled(s, BatchReply(t, Ok(packet), order)) && Conserved(s, w)
    requires var left := Match(s.tasks[t].outstanding, packet.Responses()).0;
             left != map[] && |left| == |s.tasks[t].outstanding|
    ensures Conserved(AfterBatchReply(s, t, Ok(packet), order), w)
  {
    var (left, delivered) := Match(s.tasks[t].outstanding, packet.Responses());
    MatchConserves(s.tasks[t].outstanding, packet.Responses(), w);
    ListsConserves(order, left, w);
    FallBackConserves(s, AfterBatchReply(s, t, Ok(packet), order), t, order, delivered, w);
  }

  lemma BatchAnswerConserves(s: State, t: nat, packet: ResponsePacket, order: seq<Pending>, w: nat -> nat)
    requires Enabled(s, BatchReply(t, Ok(packet), order)) && Conserved(s, w)
    ensures Conserved(AfterBatchReply(s, t, Ok(packet), order), w)
  {
    var o := s.tasks[t].outstanding;
    var (left, delivered) := Match(o, packet.Responses());
    if left != map[] && |left| == |o| {
      RejectionConserves(s, t, packet, order, w);
    } else {
      var task := if left == map[] then Finished else AtAttempt(left, s.tasks[t].attempt + 1);
      MatchConserves(o, packet.Responses(), w);
      assert TaskLoad(task, w) == SumOver(left, OfSlot(w));
      TaskChange(s, AfterBatchReply(s, t, Ok(packet), order), t, task, delivered, w);
    }
  }

  lemma OneResolution(r: Resolution, w: nat -> nat)
    ensures LogWeight([r], w) == w(r.slot)
  {
    SeqSumOne([], r, OfResolution(w));
    assert [] + [r] == [r];
  }

  lemma SingleReplyConserves(s: State, t: nat, reply: Answer, w: nat -> nat)
    requires Enabled(s, SingleReply(t, reply)) && Conserved(s, w)
    ensures Conserved(AfterSingleReply(s, t, reply), w)
  {
    var r := Resolution(s.tasks[t].item.slot, reply);
    OneResolution(r, w);
    TaskChange(s, AfterSingleReply(s, t, reply), t, Finished, [r], w);
  }

  lemma AcquireConserves(s: State, t: nat, w: nat -> nat)
    requires Enabled(s, Acquire(t)) && Conserved(s, w)
    ensures Conserved(AfterAcquire(s, t), w)
  {
    assert s.resolved + [] == s.resolved;
    TaskChange(s, AfterAcquire(s, t), t, Calling(s.tasks[t].item, Some(s.tasks[t].gate)), [], w);
  }

  lemma ConservedFrame(s: State, s': State, w: nat -> nat)
    requires Conserved(s, w)
    requires s'.accepted == s.accepted && s'.tasks == s.tasks && s'.resolved == s.resolved
    requires s'.queue == s.queue && s'.discarded == s.discarded && Remaining(s'.flusher) == Remaining(s.flusher)
    ensures Conserved(s', w)
  {
  }

  lemma ReleasedConserves(s: State, w: nat -> nat)
    requires Conserved(s, w)
    ensures Conserved(Released(s), w)
  {
    SeqSumAppend(s.discarded, s.queue, OfSlot(w));
  }

  lemma DropHandleConserves(s: State, w: nat -> nat)
    requires s.handles > 0 && Conserved(s, w)
    ensures Conserved(AfterDropHandle(s), w)
  {
    ConservedFrame(s, s.(handles := s.handles - 1), w);
    ReleasedConserves(s.(handles := s.handles - 1), w);
  }

  lemma EndConserves(s: State, c: nat, status: Status, w: nat -> nat)
    requires c in s.calls && Conserved(s, w)
    ensures Conserved(AfterEnd(s, c, status), w)
  {
    var s1 := s.(calls := s.calls[c := s.calls[c].(status := status)]);
    ConservedFrame(s, s1, w);
    ReleasedConserves(s1, w);
  }

  lemma DrainConserves(s: State, w: nat -> nat)
    requires s.flusher.Holding? && Conserved(s, w)
    ensures Conserved(AfterDrain(s), w)
  {
    if s.queue == [] {
      ConservedFrame(s, s.(flusher := Idle), w);
      ReleasedConserves(s.(flusher := Idle), w);
    } else {
      ReleasedConserves(s.(flusher := Cutting(s.queue), drains := s.drains + [s.queue], queue := []), w);
    }
  }

  lemma ConservationStep(cfg: Config, s: State, e: Event, w: nat -> nat)
    requires cfg.Valid() && Enabled(s, e) && Conserved(s, w)
    ensures Conserved(Apply(cfg, s, e), w)
  {
    match e
    case CloneHandle => ConservedFrame(s, AfterClone(s), w);
    case DropHandle => DropHandleConserves(s, w);
    case MakeCall(c, packet) => ConservedFrame(s, AfterMakeCall(s, c, packet), w);
    case Push(c) => PushConserves(s, c, w);
    case Return(c) => EndConserves(s, c, Returned(Outcome(s, s.calls[c]).value), w);
    case Cancel(c) => EndConserves(s, c, Cancelled, w);
    case Upgrade => ConservedFrame(s, AfterUpgrade(s), w);
    case Drain => DrainConserves(s, w);
    case Cut => CutConserves(cfg, s, w);
    case Start(t) => StartConserves(s, t, w);
    case Head(t, order) => HeadConserves(cfg, s, t, order, w);
    case BatchReply(t, reply, order) =>
      if reply.Err? {
        BatchErrorConserves(s, t, reply.error, order, w);
      } else {
        BatchAnswerConserves(s, t, reply.packet, order, w);
      }
    case Acquire(t) => AcquireConserves(s, t, w);
    case SingleReply(t, reply) => SingleReplyConserves(s, t, reply, w);
  }

  // ---- every reachable state ----

  ghost predicate Invariant(cfg: Config, s: State)
    requires cfg.Valid()
  {
    && Ownership(cfg, s)
    && Ordered(cfg, s)
    && ShutDownSafely(s)
    && GatesBalanced(s)
    && CallsSound(s)
  }

  lemma InvariantStep(cfg: Config, s: State, e: Event)
    requires cfg.Valid() && Enabled(s, e) && Invariant(cfg, s)
    ensures Invariant(cfg, Apply(cfg, s, e))
  {
    OwnershipStep(cfg, s, e);
    OrderStep(cfg, s, e);
    ShutdownStep(cfg, s, e);
    GatesStep(cfg, s, e);
    CallsStep(cfg, s, e);
  }

  lemma {:induction false} InvariantHolds(cfg: Config, s: State, es: seq<Event>)
    requires cfg.Valid() && CanRun(cfg, s, es) && Invariant(cfg, s)
    ensures Invariant(cfg, Run(cfg, s, es))
    decreases es
  {
    if es != [] {
      InvariantStep(cfg, s, es[0]);
      InvariantHolds(cfg, Apply(cfg, s, es[0]), es[1..]);
    }
  }

  lemma {:induction false} ConservationHolds(cfg: Config, s: State, es: seq<Event>, w: nat -> nat)
    requires cfg.Valid() && CanRun(cfg, s, es) && Conserved(s, w)
    ensures Conserved(Run(cfg, s, es), w)
    decreases es
  {
    if es != [] {
      ConservationStep(cfg, s, es[0], w);
      ConservationHolds(cfg, Apply(cfg, s, es[0]), es[1..], w);
    }
  }

  lemma InitialInvariant(cfg: Config)
    requires cfg.Valid()
    ensures Invariant(cfg, INITIAL) && forall w :: Conserved(INITIAL, w)
  {
  }

  function Only(slot: nat): nat -> nat {
    (x: nat) => if x == slot then 1 else 0
  }

  lemma {:induction false} OneSlotWeight(accepted: seq<Pending>, slot: nat)
    requires Numbered(accepted)
    ensures Weight(accepted, Only(slot)) == if slot < |accepted| then 1 else 0
  {
    if accepted != [] {
      OneSlotWeight(accepted[..|accepted| - 1], slot);
    }
  }

  /**
  Exactly once: in every reachable state, whatever the inner transport returned, each accepted
  slot occurs in exactly one place, once: queued, drained, in one task, answered, or dropped at
  shutdown. So nothing that has been answered is still in a task that could send it again.
  */
  lemma ExactlyOnce(cfg: Config, es: seq<Event>, slot: nat)
    requires cfg.Valid() && CanRun(cfg, INITIAL, es)
    ensures var s := Run(cfg, INITIAL, es);
            && Held(s, Only(slot)) == (if slot < |s.accepted| then 1 else 0)
            && LogWeight(s.resolved, Only(slot)) <= 1
            && (forall t :: 0 <= t < |s.tasks| ==>
                  TaskLoad(s.tasks[t], Only(slot)) + LogWeight(s.resolved, Only(slot)) <= 1)
  {
    InitialInvariant(cfg);
    InvariantHolds(cfg, INITIAL, es);
    ConservationHolds(cfg, INITIAL, es, Only(slot));
    var s := Run(cfg, INITIAL, es);
    OneSlotWeight(s.accepted, slot);
    forall t | 0 <= t < |s.tasks|
      ensures TaskLoad(s.tasks[t], Only(slot)) + LogWeight(s.resolved, Only(slot)) <= 1
    {
      SeqSumUpdate(s.tasks, t, Finished, TaskWeight(Only(slot)));
    }
  }

  // ---- batches of one ----

  ghost predicate OnlySingles(s: State) {
    && (forall t :: 0 <= t < |s.tasks| ==> s.tasks[t].Finished? || (s.tasks[t].Calling? && s.tasks[t].through == None))
    && s.gates == [] && s.callbacks == 0
  }

  lemma OnlySinglesStep(cfg: Config, s: State, e: Event)
    requires cfg.maxBatch == 1 && Enabled(s, e) && OnlySingles(s)
    ensures OnlySingles(Apply(cfg, s, e))
  {
    match e
    case Cut =>
      if s.flusher.remaining != [] {
        var chunk := s.flusher.remaining[..1];
        assert AfterCut(cfg, s).tasks == s.tasks + [Calling(chunk[0], None)];
      }
    case _ =>
  }

  /** With a batch size of one nothing is batched: every request is sent on its own, outside any semaphore, once. */
  lemma {:induction false} NeverBatched(cfg: Config, s: State, es: seq<Event>)
    requires cfg.maxBatch == 1 && CanRun(cfg, s, es) && OnlySingles(s) && Invariant(cfg, s)
    ensures OnlySingles(Run(cfg, s, es)) && Invariant(cfg, Run(cfg, s, es))
    decreases es
  {
    if es != [] {
      OnlySinglesStep(cfg, s, es[0]);
      InvariantStep(cfg, s, es[0]);
      NeverBatched(cfg, Apply(cfg, s, es[0]), es[1..]);
    }
  }

  lemma NeverBatchedFromStart(maxRetries: nat, es: seq<Event>)
    requires CanRun(Config(1, maxRetries), INITIAL, es)
    ensures var s := Run(Config(1, maxRetries), INITIAL, es);
            && s.gates == [] && s.callbacks == 0
            && forall t :: 0 <= t < |s.tasks| ==> s.tasks[t].Finished? || (s.tasks[t].Calling? && s.tasks[t].through == None)
  {
    InitialInvariant(Config(1, maxRetries));
    NeverBatched(Config(1, maxRetries), INITIAL, es);
  }

  lemma {:induction false} AllChunksFlatten(maxBatch: nat, drains: seq<seq<Pending>>)
    requires maxBatch > 0
    ensures Flatten(AllChunks(maxBatch, drains)) == Flatten(drains)
    ensures forall i :: 0 <= i < |AllChunks(maxBatch, drains)| ==> 1 <= |AllChunks(maxBatch, drains)[i]| <= maxBatch
  {
    if drains != [] {
      var k := |drains| - 1;
      AllChunksFlatten(maxBatch, drains[..k]);
      ChunksExactly(drains[k], maxBatch);
      FlattenAppend(AllChunks(maxBatch, drains[..k]), Chunks(drains[k], maxBatch));
      FlattenAppend(drains[..k], [drains[k]]);
      assert drains == drains[..k] + [drains[k]];
      assert [drains[k]][1..] == [];
      assert Flatten([drains[k]]) == drains[k] + [];
    }
  }

  /**
  Order over a whole run: the chunks cut so far, what is still to be cut, the queue and what was
  dropped are together the accepted requests in push order; every chunk has 1 to maxBatch
  requests, and together with the rest of the current drain they are the chunks of the drains.
  */
  lemma PushOrderKept(cfg: Config, es: seq<Event>)
    requires cfg.Valid() && CanRun(cfg, INITIAL, es)
    ensures var s := Run(cfg, INITIAL, es);
            && s.accepted == Flatten(s.chunks) + Remaining(s.flusher) + s.queue + s.discarded
            && (forall i :: 0 <= i < |s.chunks| ==> 1 <= |s.chunks[i]| <= cfg.maxBatch)
            && s.chunks + Chunks(Remaining(s.flusher), cfg.maxBatch) == AllChunks(cfg.maxBatch, s.drains)
  {
    InitialInvariant(cfg);
    InvariantHolds(cfg, INITIAL, es);
    var s := Run(cfg, INITIAL, es);
    var rest := Chunks(Remaining(s.flusher), cfg.maxBatch);
    AllChunksFlatten(cfg.maxBatch, s.drains);
    ChunksExactly(Remaining(s.flusher), cfg.maxBatch);
    FlattenAppend(s.chunks, rest);
    assert forall i :: 0 <= i < |s.chunks| ==> s.chunks[i] == (s.chunks + rest)[i];
  }

  /** At most ten individual sends of one batch are in flight at any time. */
  lemma FallbackIsBounded(cfg: Config, es: seq<Event>, g: nat)
    requires cfg.Valid() && CanRun(cfg, INITIAL, es) && g < |Run(cfg, INITIAL, es).gates|
    ensures SeqSum(Run(cfg, INITIAL, es).tasks, InGate(g)) <= 10
  {
    InitialInvariant(cfg);
    InvariantHolds(cfg, INITIAL, es);
    assert GateBalanced(Run(cfg, INITIAL, es), g);
  }

  // ---- shutdown ----

  /**
  The reference count of the shared state, raised by each clone, call and upgrade and lowered by
  each drop, end of a call and drain, always equals the number of its owners.
  */
  lemma ReferencesAreCounted(cfg: Config, es: seq<Event>)
    requires cfg.Valid() && CanRun(cfg, INITIAL, es)
    ensures var s := Run(cfg, INITIAL, es);
            && s.strong == s.handles + |LiveOf(s.calls)| + (if s.flusher.Holding? then 1 else 0)
            && (s.strong == 0 ==> s.queue == [])
  {
    InitialInvariant(cfg);
    InvariantHolds(cfg, INITIAL, es);
  }

  /**
  If the flush task is gone, or a request was dropped with the shared state, then no handle and no
  unfinished call is left, and nothing is queued.
  */
  lemma ShutdownAbandonsNobody(cfg: Config, es: seq<Event>)
    requires cfg.Valid() && CanRun(cfg, INITIAL, es)
    ensures var s := Run(cfg, INITIAL, es);
            s.flusher.Exited? || s.discarded != [] ==>
              s.handles == 0 && s.queue == [] && forall c :: c in s.calls ==> !s.calls[c].Live()
  {
    InitialInvariant(cfg);
    InvariantHolds(cfg, INITIAL, es);
    var s := Run(cfg, INITIAL, es);
    forall c | c in s.calls && s.calls[c].Live()
      ensures s.strong > 0
    {
      LiveHasReference(s, c);
    }
  }

  predicate IsFlusherStep(e: Event) {
    e.Upgrade? || e.Drain? || e.Cut?
  }

  /** Nobody is left who could call or wait; the flush task may still hold a reference. */
  predicate Abandoned(s: State) {
    s.handles == 0 && LiveOf(s.calls) == {}
  }

  /** Steps the flush task still takes once nobody can call any more: a held empty queue costs two. */
  function StepsToExit(s: State): nat {
    match s.flusher
    case Exited => 0
    case Idle => 1
    case Cutting(remaining) => 2 + |remaining|
    case Holding => if s.queue == [] then 2 else 3 + |s.queue|
  }

  lemma StaysAbandoned(cfg: Config, s: State, e: Event)
    requires Enabled(s, e) && Abandoned(s)
    ensures Abandoned(Apply(cfg, s, e))
    ensures !IsFlusherStep(e) ==> Apply(cfg, s, e).flusher == s.flusher && Apply(cfg, s, e).queue == s.queue
  {
    assert forall c :: c in s.calls && s.calls[c].Live() ==> c in LiveOf(s.calls);
    assert !e.CloneHandle? && !e.DropHandle? && !e.MakeCall? && !e.Push? && !e.Return? && !e.Cancel?;
    assert Apply(cfg, s, e).calls == s.calls;
  }

  lemma ExitStep(cfg: Config, s: State, e: Event)
    requires cfg.Valid() && Enabled(s, e) && Abandoned(s) && ShutDownSafely(s)
    ensures StepsToExit(Apply(cfg, s, e)) + (if IsFlusherStep(e) then 1 else 0) <= StepsToExit(s)
  {
    if !IsFlusherStep(e) {
      StaysAbandoned(cfg, s, e);
    } else if e.Cut? {
      CutShortens(cfg, s);
    }
  }

  ghost function FlusherSteps(es: seq<Event>): nat {
    if es == [] then 0 else (if IsFlusherStep(es[0]) then 1 else 0) + FlusherSteps(es[1..])
  }

  /**
  Once no handle and no unfinished call is left, it stays so on every run; the flush task takes at
  most StepsToExit more steps, one from an idle state, and can always take the next until it exits.
  */
  lemma {:induction false} ExitIsReached(cfg: Config, s: State, es: seq<Event>)
    requires cfg.Valid() && CanRun(cfg, s, es) && Abandoned(s) && ShutDownSafely(s)
    ensures var s' := Run(cfg, s, es);
            && Abandoned(s')
            && FlusherSteps(es) + StepsToExit(s') <= StepsToExit(s)
            && (s'.flusher.Exited? <==> !Enabled(s', Upgrade) && !Enabled(s', Drain) && !Enabled(s', Cut))
    decreases es
  {
    if es != [] {
      StaysAbandoned(cfg, s, es[0]);
      ShutdownStep(cfg, s, es[0]);
      ExitStep(cfg, s, es[0]);
      ExitIsReached(cfg, Apply(cfg, s, es[0]), es[1..]);
    }
  }

  lemma CutShortens(cfg: Config, s: State)
    requires cfg.Valid() && s.flusher.Cutting?
    ensures StepsToExit(AfterCut(cfg, s)) < StepsToExit(s)
  {
  }
}
