/**
The whole batching layer of src/batching.rs as a step system: callers push requests and wait, the
flush task drains and cuts the queue, spawned tasks run the retry stages, and the inner transport
answers whatever it likes. An event list is one interleaving of all of them.
*/
module BatchProtocol {
  import opened Arithmetic
  import opened Wrappers
  import opened JsonRpc
  import opened Sums
  import opened BatchRetry
  import opened BatchQueue

  const FALLBACK_CONCURRENCY: nat := 10

  datatype Config = Config(maxBatch: nat, maxRetries: nat) {
    /** Construction panics on a batch size of zero. */
    predicate Valid() {
      maxBatch > 0
    }
  }

  datatype Status = Created | Waiting | Returned(answer: Answer) | Cancelled

  /** One call future; once it has pushed, its requests hold the slots from first on. */
  datatype Call = Call(packet: RequestPacket, status: Status, first: nat) {
    /** An unfinished future owns a reference to the shared state. */
    predicate Live() {
      status.Created? || status.Waiting?
    }
  }

  /** The flush task: without a handle, holding one, cutting a drain, or gone. */
  datatype Flusher = Idle | Holding | Cutting(remaining: seq<Pending>) | Exited

  /** A spawned task. Individual sends may share a gate that bounds how many are in flight. */
  datatype Task =
    | Spawned(chunk: seq<Pending>)
    | AtAttempt(outstanding: Outstanding, attempt: nat)
    | Awaiting(outstanding: Outstanding, attempt: nat, wire: seq<Request>)
    | Individual(item: Pending, gate: nat)
    | Calling(item: Pending, through: Option<nat>)
    | Finished

  datatype State = State(
    handles: nat,
    strong: nat,                   // the reference count of the shared state
    calls: map<nat, Call>,
    queue: seq<Pending>,
    flusher: Flusher,
    tasks: seq<Task>,
    gates: seq<nat>,               // free permits of each gate
    resolved: seq<Resolution>,     // everything sent through a channel
    discarded: seq<Pending>,       // channels dropped together with the shared state
    callbacks: nat,
    accepted: seq<Pending>,        // history: everything pushed
    drains: seq<seq<Pending>>,     // history: everything drained
    chunks: seq<seq<Pending>>)     // history: everything cut off

  const INITIAL: State := State(1, 1, map[], [], Idle, [], [], [], [], 0, [], [], [])

  datatype Event =
    | CloneHandle
    | DropHandle
    | MakeCall(call: nat, packet: RequestPacket)
    | Push(call: nat)
    | Return(call: nat)
    | Cancel(call: nat)
    | Upgrade
    | Drain
    | Cut
    | Start(task: nat)
    | Head(task: nat, order: seq<Pending>)
    | BatchReply(task: nat, reply: Answer, order: seq<Pending>)
    | Acquire(task: nat)
    | SingleReply(task: nat, reply: Answer)

  // ---- what a caller sees ----

  function Sent(resolved: seq<Resolution>, slot: nat): Option<Answer> {
    if resolved == [] then None
    else if resolved[0].slot == slot then Some(resolved[0].answer)
    else Sent(resolved[1..], slot)
  }

  /** What the receiver of a slot yields; a channel dropped unused reads as a gone backend. */
  function Received(s: State, slot: nat): Option<Answer> {
    if Sent(s.resolved, slot).Some? then Sent(s.resolved, slot)
    else if exists p :: p in s.discarded && p.slot == slot then Some(Err(BackendGone))
    else None
  }

  function Outcome(s: State, call: Call): Option<Answer> {
    match call.packet
    case Single(_) => Received(s, call.first)
    case Batch(requests) =>
      Gather(seq(|requests|, i requires 0 <= i < |requests| => Received(s, call.first + i)), [])
  }

  // ---- steps ----

  ghost predicate Enabled(s: State, e: Event) {
    match e
    case CloneHandle => s.handles > 0
    case DropHandle => s.handles > 0
    case MakeCall(c, _) => s.handles > 0 && c !in s.calls
    case Push(c) => c in s.calls && s.calls[c].status.Created?
    case Return(c) => c in s.calls && s.calls[c].status.Waiting? && Outcome(s, s.calls[c]).Some?
    case Cancel(c) => c in s.calls && s.calls[c].Live()
    case Upgrade => s.flusher.Idle?
    case Drain => s.flusher.Holding?
    case Cut => s.flusher.Cutting?
    case Start(t) => t < |s.tasks| && s.tasks[t].Spawned?
    case Head(t, order) => t < |s.tasks| && s.tasks[t].AtAttempt? && Lists(order, s.tasks[t].outstanding)
    case BatchReply(t, reply, order) =>
      && t < |s.tasks| && s.tasks[t].Awaiting?
      && Lists(order, if reply.Ok? then Match(s.tasks[t].outstanding, reply.packet.Responses()).0
                      else s.tasks[t].outstanding)
    case Acquire(t) =>
      t < |s.tasks| && s.tasks[t].Individual? && s.tasks[t].gate < |s.gates| && s.gates[s.tasks[t].gate] > 0
    case SingleReply(t, _) =>
      && t < |s.tasks| && s.tasks[t].Calling?
      && (s.tasks[t].through.Some? ==> s.tasks[t].through.value < |s.gates|)
  }

  function Requests(ps: seq<Pending>): seq<Request> {
    seq(|ps|, i requires 0 <= i < |ps| => ps[i].request)
  }

  function Individuals(ps: seq<Pending>, gate: nat): seq<Task> {
    seq(|ps|, i requires 0 <= i < |ps| => Individual(ps[i], gate))
  }

  /** A task hands everything it still has to individual sends behind a gate of their own. */
  function FallBack(s: State, t: nat, order: seq<Pending>): State
    requires t < |s.tasks|
  {
    s.(tasks := s.tasks[t := Finished] + Individuals(order, |s.gates|),
       gates := s.gates + [FALLBACK_CONCURRENCY])
  }

  function AfterHead(cfg: Config, s: State, t: nat, order: seq<Pending>): State
    requires t < |s.tasks| && s.tasks[t].AtAttempt?
  {
    var AtAttempt(o, attempt) := s.tasks[t];
    if o == map[] then s.(tasks := s.tasks[t := Finished])
    else if attempt == cfg.maxRetries then FallBack(s, t, order)
    else s.(tasks := s.tasks[t := Awaiting(o, attempt, Requests(order))])
  }

  function AfterBatchReply(s: State, t: nat, reply: Answer, order: seq<Pending>): State
    requires t < |s.tasks| && s.tasks[t].Awaiting?
  {
    var Awaiting(o, attempt, _) := s.tasks[t];
    match reply
    case Err(e) =>
      s.(tasks := s.tasks[t := Finished], resolved := s.resolved + Failures(order, BatchFailed(e)))
    case Ok(packet) =>
      var (left, delivered) := Match(o, packet.Responses());
      var s1 := s.(resolved := s.resolved + delivered);
      if left == map[] then s1.(tasks := s.tasks[t := Finished])
      else if |left| == |o| then FallBack(s1, t, order).(callbacks := s.callbacks + 1)
      else s1.(tasks := s.tasks[t := AtAttempt(left, attempt + 1)])
  }

  // ---- reference counting ----

  /** A reference to the shared state is given up; with the last one the queue and its channels are dropped. */
  function Released(s: State): State {
    if s.strong > 1 then s.(strong := s.strong - 1)
    else s.(strong := 0, discarded := s.discarded + s.queue, queue := [])
  }

  function AfterClone(s: State): State {
    s.(handles := s.handles + 1, strong := s.strong + 1)
  }

  function AfterDropHandle(s: State): State
    requires s.handles > 0
  {
    Released(s.(handles := s.handles - 1))
  }

  /** A call clones the reference before its future is first polled, and owns it until it is gone. */
  function AfterMakeCall(s: State, c: nat, packet: RequestPacket): State {
    s.(calls := s.calls[c := Call(packet, Created, 0)], strong := s.strong + 1)
  }

  function AfterPush(s: State, c: nat): State
    requires c in s.calls
  {
    var items := Items(s.calls[c].packet.Requests(), |s.accepted|);
    s.(calls := s.calls[c := Call(s.calls[c].packet, Waiting, |s.accepted|)],
       queue := s.queue + items,
       accepted := s.accepted + items)
  }

  /** The future is gone, finished or cancelled. */
  function AfterEnd(s: State, c: nat, status: Status): State
    requires c in s.calls
  {
    Released(s.(calls := s.calls[c := s.calls[c].(status := status)]))
  }

  /** The flush task upgrades its weak reference as long as there is a strong one. */
  function AfterUpgrade(s: State): State {
    if s.strong > 0 then s.(flusher := Holding, strong := s.strong + 1)
    else s.(flusher := Exited)
  }

  /** The flush task takes the queue and gives up its reference, before it starts over or sends. */
  function AfterDrain(s: State): State {
    if s.queue == [] then Released(s.(flusher := Idle))
    else Released(s.(flusher := Cutting(s.queue), drains := s.drains + [s.queue], queue := []))
  }

  // ---- tasks ----

  function AfterCut(cfg: Config, s: State): State
    requires s.flusher.Cutting?
  {
    var remaining := s.flusher.remaining;
    if remaining == [] then s.(flusher := Idle)
    else
      var k := NextSize(remaining, cfg.maxBatch);
      var chunk := remaining[..k];
      s.(flusher := Cutting(remaining[k..]),
         chunks := s.chunks + [chunk],
         tasks := s.tasks + [if |chunk| == 1 then Calling(chunk[0], None) else Spawned(chunk)])
  }

  function AfterStart(s: State, t: nat): State
    requires t < |s.tasks| && s.tasks[t].Spawned?
  {
    var (o, displaced) := Collect(s.tasks[t].chunk);
    s.(tasks := s.tasks[t := AtAttempt(o, 0)], resolved := s.resolved + Failures(displaced, DuplicateId))
  }

  function AfterAcquire(s: State, t: nat): State
    requires t < |s.tasks| && s.tasks[t].Individual?
    requires s.tasks[t].gate < |s.gates| && s.gates[s.tasks[t].gate] > 0
  {
    var Individual(item, gate) := s.tasks[t];
    s.(tasks := s.tasks[t := Calling(item, Some(gate))], gates := s.gates[gate := s.gates[gate] - 1])
  }

  function AfterSingleReply(s: State, t: nat, reply: Answer): State
    requires t < |s.tasks| && s.tasks[t].Calling?
    requires s.tasks[t].through.Some? ==> s.tasks[t].through.value < |s.gates|
  {
    var Calling(item, through) := s.tasks[t];
    var s1 := s.(tasks := s.tasks[t := Finished], resolved := s.resolved + [Resolution(item.slot, reply)]);
    if through.Some? then s1.(gates := s.gates[through.value := s.gates[through.value] + 1]) else s1
  }

  ghost function Apply(cfg: Config, s: State, e: Event): State
    requires Enabled(s, e)
  {
    match e
    case CloneHandle => AfterClone(s)
    case DropHandle => AfterDropHandle(s)
    case MakeCall(c, packet) => AfterMakeCall(s, c, packet)
    case Push(c) => AfterPush(s, c)
    case Return(c) => AfterEnd(s, c, Returned(Outcome(s, s.calls[c]).value))
    case Cancel(c) => AfterEnd(s, c, Cancelled)
    case Upgrade => AfterUpgrade(s)
    case Drain => AfterDrain(s)
    case Cut => AfterCut(cfg, s)
    case Start(t) => AfterStart(s, t)
    case Head(t, order) => AfterHead(cfg, s, t, order)
    case BatchReply(t, reply, order) => AfterBatchReply(s, t, reply, order)
    case Acquire(t) => AfterAcquire(s, t)
    case SingleReply(t, reply) => AfterSingleReply(s, t, reply)
  }

  ghost predicate CanRun(cfg: Config, s: State, es: seq<Event>)
    decreases es
  {
    es == [] || (Enabled(s, es[0]) && CanRun(cfg, Apply(cfg, s, es[0]), es[1..]))
  }

  ghost function Run(cfg: Config, s: State, es: seq<Event>): State
    requires CanRun(cfg, s, es)
    decreases es
  {
    if es == [] then s else Run(cfg, Apply(cfg, s, es[0]), es[1..])
  }
}
