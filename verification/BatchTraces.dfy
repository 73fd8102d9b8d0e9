/**
The converse of BatchRefinement.dfy: whatever a spawned task does in a run of the system, between
any steps of callers, the flush task and other tasks, is a trace of SendBatchWithRetry. So what is
proved about traces holds for every task of every interleaved run.
*/
module BatchTraces {
  import opened Wrappers
  import opened JsonRpc
  import opened Sums
  import opened BatchRetry
  import opened BatchQueue
  import opened BatchProtocol

  // ---- what can be seen of one task ----

  /** Effects of the steps of one task: its batch calls, its answers, its individual sends, its callbacks. */
  datatype View = View(batches: seq<Outstanding>, log: seq<Resolution>, individuals: seq<Pending>, callbacks: nat)

  const NOTHING: View := View([], [], [], 0)

  predicate OfTask(e: Event, t: nat) {
    && (e.Start? || e.Head? || e.BatchReply? || e.Acquire? || e.SingleReply?)
    && e.task == t
  }

  /** What was appended to a sequence. */
  function Added<T>(before: seq<T>, after: seq<T>): seq<T> {
    if |before| <= |after| then after[|before|..] else []
  }

  lemma AddedIs<T>(before: seq<T>, more: seq<T>)
    ensures Added(before, before + more) == more
  {
  }

  /** The requests of tasks that were started to send them individually. */
  function ItemsOf(tasks: seq<Task>): seq<Pending> {
    if tasks == [] then []
    else
      var last := tasks[|tasks| - 1];
      ItemsOf(tasks[..|tasks| - 1]) + (if last.Individual? then [last.item] else [])
  }

  lemma {:induction false} ItemsOfIndividuals(ps: seq<Pending>, gate: nat)
    ensures ItemsOf(Individuals(ps, gate)) == ps
  {
    if ps != [] {
      var k := |ps| - 1;
      ItemsOfIndividuals(ps[..k], gate);
      assert Individuals(ps, gate)[..k] == Individuals(ps[..k], gate);
      assert ps == ps[..k] + [ps[k]];
    }
  }

  /** What a step of the task adds to the view, read off the states before and after it. */
  function Observe(view: View, s: State, s': State, t: nat): View
    requires t < |s'.tasks|
  {
    View(if s'.tasks[t].Awaiting? then view.batches + [s'.tasks[t].outstanding] else view.batches,
         view.log + Added(s.resolved, s'.resolved),
         view.individuals + ItemsOf(Added(s.tasks, s'.tasks)),
         if s.callbacks <= s'.callbacks then view.callbacks + (s'.callbacks - s.callbacks) else 0)
  }

  lemma TasksStay(cfg: Config, s: State, e: Event, t: nat)
    requires Enabled(s, e) && t < |s.tasks|
    ensures t < |Apply(cfg, s, e).tasks|
    ensures !OfTask(e, t) ==> Apply(cfg, s, e).tasks[t] == s.tasks[t]
  {
  }

  ghost function ViewAfter(cfg: Config, s: State, es: seq<Event>, t: nat, view: View): View
    requires CanRun(cfg, s, es) && t < |s.tasks|
    decreases es
  {
    if es == [] then view
    else
      var s' := Apply(cfg, s, es[0]);
      TasksStay(cfg, s, es[0], t);
      ViewAfter(cfg, s', es[1..], t, if OfTask(es[0], t) then Observe(view, s, s', t) else view)
  }

  /** The replies to the batches of the task in this run are those of net, attempt by attempt. */
  ghost predicate Agrees(cfg: Config, s: State, es: seq<Event>, t: nat, net: nat -> Answer)
    requires CanRun(cfg, s, es) && t < |s.tasks|
    decreases es
  {
    es == [] ||
    (TasksStay(cfg, s, es[0], t);
     && (es[0].BatchReply? && es[0].task == t ==> es[0].reply == net(s.tasks[t].attempt))
     && Agrees(cfg, Apply(cfg, s, es[0]), es[1..], t, net))
  }

  // ---- the view follows the method ----

  /** The view of a task that has started and not made its last step. */
  ghost predicate Underway(chunk: seq<Pending>, net: nat -> Answer, batches: seq<Outstanding>, o: Outstanding, view: View) {
    var (o0, displaced) := Collect(chunk);
    var delivered := After(o0, net, |batches|).1;
    && AtHead(o0, net, batches, o, delivered)
    && view.log == Failures(displaced, DuplicateId) + delivered
    && view.individuals == [] && view.callbacks == 0
  }

  ghost predicate Shows(view: View, trace: Trace) {
    && view.batches == trace.batches && view.individuals == trace.individuals && view.callbacks == trace.callbacks
    && view.log == Failures(trace.displaced, DuplicateId) + trace.resolved
  }

  /** The view is that of some trace of the method. */
  ghost predicate Complete(chunk: seq<Pending>, maxRetries: nat, net: nat -> Answer, view: View) {
    exists trace :: Follows(chunk, maxRetries, net, trace) && Shows(view, trace)
  }

  ghost predicate Fits(cfg: Config, chunk: seq<Pending>, net: nat -> Answer, view: View, task: Task) {
    match task
    case Spawned(c) => c == chunk && view == NOTHING
    case AtAttempt(o, n) =>
      n == |view.batches| <= cfg.maxRetries && Underway(chunk, net, view.batches, o, view)
    case Awaiting(o, n, _) =>
      && n == |view.batches| - 1 < cfg.maxRetries && view.batches[n] == o != map[]
      && Underway(chunk, net, view.batches[..n], o, view)
    case Finished => Complete(chunk, cfg.maxRetries, net, view)
    case _ => false
  }

  lemma StartFits(cfg: Config, s: State, t: nat, chunk: seq<Pending>, net: nat -> Answer, view: View)
    requires Enabled(s, Start(t)) && Fits(cfg, chunk, net, view, s.tasks[t])
    ensures var s' := AfterStart(s, t); Fits(cfg, chunk, net, Observe(view, s, s', t), s'.tasks[t])
  {
    var (o, displaced) := Collect(chunk);
    CollectKeyed(chunk);
    AddedIs(s.resolved, Failures(displaced, DuplicateId));
    assert Added(s.tasks, AfterStart(s, t).tasks) == [];
    assert Observe(view, s, AfterStart(s, t), t) == View([], Failures(displaced, DuplicateId) + [], [], 0);
  }

  /** A step that hands everything to individual sends. */
  lemma FallBackObserved(view: View, s: State, s': State, t: nat, order: seq<Pending>, more: seq<Resolution>)
    requires t < |s.tasks| && s'.tasks == FallBack(s, t, order).tasks && s'.resolved == s.resolved + more
    requires s.callbacks <= s'.callbacks && view.individuals == [] && view.callbacks == 0
    ensures Observe(view, s, s', t) == View(view.batches, view.log + more, order, s'.callbacks - s.callbacks)
  {
    AddedIs(s.resolved, more);
    AddedIs(s.tasks[t := Finished], Individuals(order, |s.gates|));
    ItemsOfIndividuals(order, |s.gates|);
  }

  /** A step that changes the task only. */
  lemma TaskObserved(view: View, s: State, s': State, t: nat, task: Task, more: seq<Resolution>)
    requires t < |s.tasks| && s'.tasks == s.tasks[t := task] && s'.resolved == s.resolved + more
    requires s'.callbacks == s.callbacks
    ensures Observe(view, s, s', t) ==
            View(if task.Awaiting? then view.batches + [task.outstanding] else view.batches,
                 view.log + more, view.individuals, view.callbacks)
  {
    AddedIs(s.resolved, more);
    assert Added(s.tasks, s'.tasks) == [];
  }

  lemma Finishes(chunk: seq<Pending>, maxRetries: nat, net: nat -> Answer, view: View, ending: Ending, resolved: seq<Resolution>)
    requires view.log == Failures(Collect(chunk).1, DuplicateId) + resolved
    requires Follows(chunk, maxRetries, net,
                     Trace(view.batches, Collect(chunk).1, resolved, view.individuals, view.callbacks, ending))
    ensures Complete(chunk, maxRetries, net, view)
  {
    assert Shows(view, Trace(view.batches, Collect(chunk).1, resolved, view.individuals, view.callbacks, ending));
  }

  /** The loop ends before a batch call: nothing is left, or this is the last attempt. */
  lemma HeadEnds(cfg: Config, s: State, t: nat, order: seq<Pending>, chunk: seq<Pending>, net: nat -> Answer, view: View)
    requires Enabled(s, Head(t, order)) && Fits(cfg, chunk, net, view, s.tasks[t])
    requires s.tasks[t].outstanding == map[] || s.tasks[t].attempt == cfg.maxRetries
    ensures var s' := AfterHead(cfg, s, t, order); Complete(chunk, cfg.maxRetries, net, Observe(view, s, s', t))
  {
    var AtAttempt(o, n) := s.tasks[t];
    var s' := AfterHead(cfg, s, t, order);
    var o0, displaced := Collect(chunk).0, Collect(chunk).1;
    var delivered := After(o0, net, n).1;
    assert s.resolved + [] == s.resolved && view.log + [] == view.log;
    if o == map[] {
      TaskObserved(view, s, s', t, Finished, []);
      assert EndsDelivered(o0, net, Trace(view.batches, displaced, delivered, [], 0, AllDelivered));
      Finishes(chunk, cfg.maxRetries, net, Observe(view, s, s', t), AllDelivered, delivered);
    } else {
      FallBackObserved(view, s, s', t, order, []);
      assert EndsIndividually(o0, cfg.maxRetries, net, Trace(view.batches, displaced, delivered, order, 0, LastResort));
      Finishes(chunk, cfg.maxRetries, net, Observe(view, s, s', t), LastResort, delivered);
    }
  }

  lemma HeadFits(cfg: Config, s: State, t: nat, order: seq<Pending>, chunk: seq<Pending>, net: nat -> Answer, view: View)
    requires Enabled(s, Head(t, order)) && Fits(cfg, chunk, net, view, s.tasks[t])
    ensures var s' := AfterHead(cfg, s, t, order); Fits(cfg, chunk, net, Observe(view, s, s', t), s'.tasks[t])
  {
    var AtAttempt(o, n) := s.tasks[t];
    if o == map[] || n == cfg.maxRetries {
      HeadEnds(cfg, s, t, order, chunk, net, view);
    } else {
      var s' := AfterHead(cfg, s, t, order);
      assert s.resolved + [] == s.resolved && view.log + [] == view.log;
      TaskObserved(view, s, s', t, s'.tasks[t], []);
      assert (view.batches + [o])[..n] == view.batches;
    }
  }

  /** The batch call was failed by the transport. */
  lemma ErrorFits(cfg: Config, s: State, t: nat, e: Error, order: seq<Pending>, chunk: seq<Pending>, net: nat -> Answer, view: View)
    requires Enabled(s, BatchReply(t, Err(e), order)) && Fits(cfg, chunk, net, view, s.tasks[t])
    requires net(s.tasks[t].attempt) == Err(e)
    ensures var s' := AfterBatchReply(s, t, Err(e), order); Fits(cfg, chunk, net, Observe(view, s, s', t), s'.tasks[t])
  {
    var Awaiting(o, n, _) := s.tasks[t];
    var s' := AfterBatchReply(s, t, Err(e), order);
    var resolved := After(Collect(chunk).0, net, n).1 + Failures(order, BatchFailed(e));
    TaskObserved(view, s, s', t, Finished, Failures(order, BatchFailed(e)));
    ErrorFacts(chunk, net, n, o, e, order, view);
    Finishes(chunk, cfg.maxRetries, net, Observe(view, s, s', t), BatchError(e), resolved);
  }

  /** What a failure means for the loop. */
  lemma ErrorFacts(chunk: seq<Pending>, net: nat -> Answer, n: nat, o: Outstanding, e: Error, order: seq<Pending>, view: View)
    requires |view.batches| == n + 1 && view.batches[n] == o != map[] && net(n) == Err(e)
    requires Underway(chunk, net, view.batches[..n], o, view) && Lists(order, o)
    ensures var failures := Failures(order, BatchFailed(e));
            var resolved := After(Collect(chunk).0, net, n).1 + failures;
            && Called(Collect(chunk).0, net, view.batches)
            && view.log + failures == Failures(Collect(chunk).1, DuplicateId) + resolved
            && EndsFailed(Collect(chunk).0, net, Trace(view.batches, Collect(chunk).1, resolved, [], 0, BatchError(e)), e)
  {
    var o0 := Collect(chunk).0;
    var before := After(o0, net, n).1;
    assert After(o0, net, n + 1) == (o, before);
    LastCalled(o0, net, view.batches, o);
    Associative(Failures(Collect(chunk).1, DuplicateId), before, Failures(order, BatchFailed(e)));
  }

  lemma LastCalled(o0: Outstanding, net: nat -> Answer, batches: seq<Outstanding>, o: Outstanding)
    requires batches != [] && batches[|batches| - 1] == o != map[]
    requires AtHead(o0, net, batches[..|batches| - 1], o, After(o0, net, |batches| - 1).1)
    ensures Called(o0, net, batches)
  {
  }

  /** What an answer means for the loop: the replies so far, the log, and the batch calls. */
  lemma AnswerFacts(chunk: seq<Pending>, net: nat -> Answer, n: nat, o: Outstanding, packet: ResponsePacket, view: View)
    requires |view.batches| == n + 1 && view.batches[n] == o != map[] && net(n) == Ok(packet)
    requires Underway(chunk, net, view.batches[..n], o, view)
    ensures var (left, more) := Match(o, packet.Responses());
            var resolved := After(Collect(chunk).0, net, n + 1).1;
            && After(Collect(chunk).0, net, n + 1).0 == left && Keyed(left) && |left| <= |o|
            && After(Collect(chunk).0, net, n).0 == o && Called(Collect(chunk).0, net, view.batches)
            && view.log + more == Failures(Collect(chunk).1, DuplicateId) + resolved
  {
    var o0 := Collect(chunk).0;
    var more := Match(o, packet.Responses()).1;
    MatchExactly(o, packet.Responses());
    LastCalled(o0, net, view.batches, o);
    Associative(Failures(Collect(chunk).1, DuplicateId), After(o0, net, n).1, more);
  }

  /** The answer delivered everything. */
  lemma AnswerDelivers(cfg: Config, s: State, t: nat, packet: ResponsePacket, order: seq<Pending>, chunk: seq<Pending>,
                       net: nat -> Answer, view: View)
    requires Enabled(s, BatchReply(t, Ok(packet), order)) && Fits(cfg, chunk, net, view, s.tasks[t])
    requires net(s.tasks[t].attempt) == Ok(packet)
    requires Match(s.tasks[t].outstanding, packet.Responses()).0 == map[]
    ensures var s' := AfterBatchReply(s, t, Ok(packet), order); Complete(chunk, cfg.maxRetries, net, Observe(view, s, s', t))
  {
    var Awaiting(o, n, _) := s.tasks[t];
    var s' := AfterBatchReply(s, t, Ok(packet), order);
    var resolved := After(Collect(chunk).0, net, n + 1).1;
    AnswerFacts(chunk, net, n, o, packet, view);
    TaskObserved(view, s, s', t, Finished, Match(o, packet.Responses()).1);
    assert EndsDelivered(Collect(chunk).0, net, Trace(view.batches, Collect(chunk).1, resolved, [], 0, AllDelivered));
    Finishes(chunk, cfg.maxRetries, net, Observe(view, s, s', t), AllDelivered, resolved);
  }

  /** The answer matched nothing. */
  lemma AnswerRejects(cfg: Config, s: State, t: nat, packet: ResponsePacket, order: seq<Pending>, chunk: seq<Pending>,
                      net: nat -> Answer, view: View)
    requires Enabled(s, BatchReply(t, Ok(packet), order)) && Fits(cfg, chunk, net, view, s.tasks[t])
    requires net(s.tasks[t].attempt) == Ok(packet)
    requires |Match(s.tasks[t].outstanding, packet.Responses()).0| == |s.tasks[t].outstanding|
    ensures var s' := AfterBatchReply(s, t, Ok(packet), order); Complete(chunk, cfg.maxRetries, net, Observe(view, s, s', t))
  {
    var Awaiting(o, n, _) := s.tasks[t];
    var s' := AfterBatchReply(s, t, Ok(packet), order);
    var resolved := After(Collect(chunk).0, net, n + 1).1;
    AnswerFacts(chunk, net, n, o, packet, view);
    FallBackObserved(view, s, s', t, order, Match(o, packet.Responses()).1);
    RejectedTrace(Collect(chunk).0, net, view.batches, Collect(chunk).1, order);
    Finishes(chunk, cfg.maxRetries, net, Observe(view, s, s', t), Rejected, resolved);
  }

  lemma RejectedTrace(o: Outstanding, net: nat -> Answer, batches: seq<Outstanding>, displaced: seq<Pending>, order: seq<Pending>)
    requires var n := |batches|;
             && n > 0 && net(n - 1).Ok? && After(o, net, n).0 != map[]
             && |After(o, net, n).0| == |After(o, net, n - 1).0| && Lists(order, After(o, net, n).0)
    ensures EndsRejected(o, net, Trace(batches, displaced, After(o, net, |batches|).1, order, 1, Rejected))
  {
  }

  /** The answer delivered some. */
  lemma AnswerContinues(cfg: Config, s: State, t: nat, packet: ResponsePacket, order: seq<Pending>, chunk: seq<Pending>,
                        net: nat -> Answer, view: View)
    requires Enabled(s, BatchReply(t, Ok(packet), order)) && Fits(cfg, chunk, net, view, s.tasks[t])
    requires net(s.tasks[t].attempt) == Ok(packet)
    requires Match(s.tasks[t].outstanding, packet.Responses()).0 != map[]
    requires |Match(s.tasks[t].outstanding, packet.Responses()).0| != |s.tasks[t].outstanding|
    ensures var s' := AfterBatchReply(s, t, Ok(packet), order); Fits(cfg, chunk, net, Observe(view, s, s', t), s'.tasks[t])
  {
    var Awaiting(o, n, _) := s.tasks[t];
    var s' := AfterBatchReply(s, t, Ok(packet), order);
    AnswerFacts(chunk, net, n, o, packet, view);
    TaskObserved(view, s, s', t, s'.tasks[t], Match(o, packet.Responses()).1);
    assert KeepsGoing(Collect(chunk).0, net, n);
  }

  lemma ReplyFits(cfg: Config, s: State, t: nat, reply: Answer, order: seq<Pending>, chunk: seq<Pending>,
                  net: nat -> Answer, view: View)
    requires Enabled(s, BatchReply(t, reply, order)) && Fits(cfg, chunk, net, view, s.tasks[t])
    requires net(s.tasks[t].attempt) == reply
    ensures var s' := AfterBatchReply(s, t, reply, order); Fits(cfg, chunk, net, Observe(view, s, s', t), s'.tasks[t])
  {
    if reply.Err? {
      ErrorFits(cfg, s, t, reply.error, order, chunk, net, view);
    } else {
      var left := Match(s.tasks[t].outstanding, reply.packet.Responses()).0;
      if left == map[] {
        AnswerDelivers(cfg, s, t, reply.packet, order, chunk, net, view);
      } else if |left| == |s.tasks[t].outstanding| {
        AnswerRejects(cfg, s, t, reply.packet, order, chunk, net, view);
      } else {
        AnswerContinues(cfg, s, t, reply.packet, order, chunk, net, view);
      }
    }
  }

  lemma FitsStep(cfg: Config, s: State, e: Event, t: nat, chunk: seq<Pending>, net: nat -> Answer, view: View)
    requires Enabled(s, e) && OfTask(e, t) && t < |s.tasks| && Fits(cfg, chunk, net, view, s.tasks[t])
    requires e.BatchReply? ==> e.reply == net(s.tasks[t].attempt)
    ensures t < |Apply(cfg, s, e).tasks|
    ensures Fits(cfg, chunk, net, Observe(view, s, Apply(cfg, s, e), t), Apply(cfg, s, e).tasks[t])
  {
    match e
    case Start(_) => StartFits(cfg, s, t, chunk, net, view);
    case Head(_, order) => HeadFits(cfg, s, t, order, chunk, net, view);
    case BatchReply(_, reply, order) => ReplyFits(cfg, s, t, reply, order, chunk, net, view);
  }

  lemma {:induction false} FitsHolds(cfg: Config, s: State, es: seq<Event>, t: nat, chunk: seq<Pending>,
                                     net: nat -> Answer, view: View)
    requires CanRun(cfg, s, es) && t < |s.tasks| && Agrees(cfg, s, es, t, net)
    requires Fits(cfg, chunk, net, view, s.tasks[t])
    ensures t < |Run(cfg, s, es).tasks|
    ensures Fits(cfg, chunk, net, ViewAfter(cfg, s, es, t, view), Run(cfg, s, es).tasks[t])
    decreases es
  {
    if es != [] {
      var s' := Apply(cfg, s, es[0]);
      TasksStay(cfg, s, es[0], t);
      if OfTask(es[0], t) {
        FitsStep(cfg, s, es[0], t, chunk, net, view);
        FitsHolds(cfg, s', es[1..], t, chunk, net, Observe(view, s, s', t));
      } else {
        FitsHolds(cfg, s', es[1..], t, chunk, net, view);
      }
    }
  }

  // ---- the replies of a run ----

  /** The replies the task receives in the run, by attempt. */
  ghost function NetOf(cfg: Config, s: State, es: seq<Event>, t: nat): nat -> Answer
    requires CanRun(cfg, s, es) && t < |s.tasks|
    decreases es
  {
    if es == [] then (n: nat) => Err(BackendGone)
    else
      TasksStay(cfg, s, es[0], t);
      var rest := NetOf(cfg, Apply(cfg, s, es[0]), es[1..], t);
      if es[0].BatchReply? && es[0].task == t then With(rest, s.tasks[t].attempt, es[0].reply) else rest
  }

  function With(net: nat -> Answer, a: nat, reply: Answer): nat -> Answer {
    (n: nat) => if n == a then reply else net(n)
  }

  /** The task will not wait for the reply to attempt a again. */
  predicate Past(task: Task, a: nat) {
    match task
    case Spawned(_) => false
    case AtAttempt(_, n) => n > a
    case Awaiting(_, n, _) => n > a
    case _ => true
  }

  lemma PastStays(cfg: Config, s: State, e: Event, t: nat, a: nat)
    requires Enabled(s, e) && t < |s.tasks| && Past(s.tasks[t], a)
    ensures t < |Apply(cfg, s, e).tasks| && Past(Apply(cfg, s, e).tasks[t], a)
  {
    TasksStay(cfg, s, e, t);
  }

  lemma {:induction false} AgreesBeyond(cfg: Config, s: State, es: seq<Event>, t: nat, net: nat -> Answer, a: nat, reply: Answer)
    requires CanRun(cfg, s, es) && t < |s.tasks| && Past(s.tasks[t], a) && Agrees(cfg, s, es, t, net)
    ensures Agrees(cfg, s, es, t, With(net, a, reply))
    decreases es
  {
    if es != [] {
      PastStays(cfg, s, es[0], t, a);
      AgreesBeyond(cfg, Apply(cfg, s, es[0]), es[1..], t, net, a, reply);
    }
  }

  lemma {:induction false} NetAgrees(cfg: Config, s: State, es: seq<Event>, t: nat)
    requires CanRun(cfg, s, es) && t < |s.tasks|
    ensures Agrees(cfg, s, es, t, NetOf(cfg, s, es, t))
    decreases es
  {
    if es != [] {
      var s' := Apply(cfg, s, es[0]);
      TasksStay(cfg, s, es[0], t);
      NetAgrees(cfg, s', es[1..], t);
      if es[0].BatchReply? && es[0].task == t {
        assert Past(s'.tasks[t], s.tasks[t].attempt);
        AgreesBeyond(cfg, s', es[1..], t, NetOf(cfg, s', es[1..], t), s.tasks[t].attempt, es[0].reply);
      }
    }
  }

  // ---- consequences for interleaved runs ----

  /**
  Every finished task of every run has done what SendBatchWithRetry does with its chunk and the
  replies the task received, whatever happened in between.
  */
  lemma TaskIsATrace(cfg: Config, s: State, es: seq<Event>, t: nat) returns (net: nat -> Answer, trace: Trace)
    requires CanRun(cfg, s, es) && t < |s.tasks| && s.tasks[t].Spawned?
    requires t < |Run(cfg, s, es).tasks| && Run(cfg, s, es).tasks[t].Finished?
    ensures Agrees(cfg, s, es, t, net)
    ensures Follows(s.tasks[t].chunk, cfg.maxRetries, net, trace)
    ensures Shows(ViewAfter(cfg, s, es, t, NOTHING), trace)
  {
    net := NetOf(cfg, s, es, t);
    NetAgrees(cfg, s, es, t);
    FitsHolds(cfg, s, es, t, s.tasks[t].chunk, net, NOTHING);
    trace :| Follows(s.tasks[t].chunk, cfg.maxRetries, net, trace) && Shows(ViewAfter(cfg, s, es, t, NOTHING), trace);
  }

  /**
  So in every interleaved run a finished task has sent each id at most maxRetries + 1 times, has
  run the callback at most once, and only if it sent something individually, and has disposed of
  every slot of its chunk exactly once.
  */
  lemma InterleavedTasks(cfg: Config, s: State, es: seq<Event>, t: nat, id: Id, w: nat -> nat)
    requires CanRun(cfg, s, es) && t < |s.tasks| && s.tasks[t].Spawned?
    requires t < |Run(cfg, s, es).tasks| && Run(cfg, s, es).tasks[t].Finished?
    ensures var view := ViewAfter(cfg, s, es, t, NOTHING);
            && TimesInBatches(view.batches, id) + Copies(view.individuals, id) <= cfg.maxRetries + 1
            && Copies(view.individuals, id) <= 1
            && view.callbacks <= 1 && (view.callbacks == 1 ==> view.individuals != [])
            && LogWeight(view.log, w) + Weight(view.individuals, w) == Weight(s.tasks[t].chunk, w)
  {
    var chunk := s.tasks[t].chunk;
    var net, trace := TaskIsATrace(cfg, s, es, t);
    SendsPerRequest(chunk, cfg.maxRetries, net, trace, id);
    CallbackExactly(chunk, cfg.maxRetries, net, trace);
    IndividualsExactly(chunk, cfg.maxRetries, net, trace);
    RetryConserves(chunk, cfg.maxRetries, net, trace, w);
    FailuresWeight(trace.displaced, DuplicateId, w);
    SeqSumAppend(Failures(trace.displaced, DuplicateId), trace.resolved, OfResolution(w));
  }

  // ---- what each request of a chunk gets ----

  /** An earlier copy of an id is told of the duplicate. */
  lemma DuplicatesAreTold(cfg: Config, s: State, es: seq<Event>, t: nat, i: nat)
    requires CanRun(cfg, s, es) && t < |s.tasks| && s.tasks[t].Spawned?
    requires t < |Run(cfg, s, es).tasks| && Run(cfg, s, es).tasks[t].Finished?
    requires i < |s.tasks[t].chunk| && Distinct(s.tasks[t].chunk) && Repeated(s.tasks[t].chunk, i)
    ensures Resolution(s.tasks[t].chunk[i].slot, Err(DuplicateId)) in ViewAfter(cfg, s, es, t, NOTHING).log
  {
    var chunk := s.tasks[t].chunk;
    var net, trace := TaskIsATrace(cfg, s, es, t);
    DuplicatesExactly(chunk, i);
    FailureOf(trace.displaced, DuplicateId, chunk[i]);
  }

  /** What the request p of a chunk gets, given the replies to the batches that the view shows. */
  ghost predicate Told(p: Pending, net: nat -> Answer, view: View) {
    var id, n := p.request.id, |view.batches|;
    && (forall m, rs, k :: 0 <= m < n && FirstNamed(net(m), id, rs, k) && NotNamedBefore(net, m, id) ==>
          Resolution(p.slot, Ok(SingleResponse(rs[k]))) in view.log && Copies(view.individuals, id) == 0)
    && (NotNamedBefore(net, n, id) ==>
          if n > 0 && net(n - 1).Err?
          then Resolution(p.slot, Err(BatchFailed(net(n - 1).error))) in view.log && view.individuals == []
          else p in view.individuals)
  }

  ghost predicate NotNamedBefore(net: nat -> Answer, n: nat, id: Id) {
    forall m :: 0 <= m < n ==> !Names(net(m), id)
  }

  lemma TraceAnswers(chunk: seq<Pending>, maxRetries: nat, net: nat -> Answer, trace: Trace, p: Pending,
                     m: nat, rs: seq<Response>, k: nat)
    requires Follows(chunk, maxRetries, net, trace) && m < |trace.batches|
    requires p.request.id in Collect(chunk).0 && Collect(chunk).0[p.request.id] == p
    requires FirstNamed(net(m), p.request.id, rs, k) && NotNamedBefore(net, m, p.request.id)
    ensures Resolution(p.slot, Ok(SingleResponse(rs[k]))) in trace.resolved && Copies(trace.individuals, p.request.id) == 0
  {
    AnsweredExactly(chunk, maxRetries, net, trace, m, p.request.id, rs, k);
  }

  lemma TraceTells(chunk: seq<Pending>, maxRetries: nat, net: nat -> Answer, trace: Trace, view: View, i: nat)
    requires Follows(chunk, maxRetries, net, trace) && Shows(view, trace) && i < |chunk| && !Repeated(chunk, i)
    ensures Told(chunk[i], net, view)
  {
    var p := chunk[i];
    LastCopySurvives(chunk, i);
    assert forall r :: r in trace.resolved ==> r in view.log;
    forall m: nat, rs, k: nat | m < |trace.batches| && FirstNamed(net(m), p.request.id, rs, k)
                                && NotNamedBefore(net, m, p.request.id)
      ensures Resolution(p.slot, Ok(SingleResponse(rs[k]))) in view.log && Copies(view.individuals, p.request.id) == 0
    {
      TraceAnswers(chunk, maxRetries, net, trace, p, m, rs, k);
    }
    if NotNamedBefore(net, |trace.batches|, p.request.id) {
      UnansweredExactly(chunk, maxRetries, net, trace, p.request.id);
    }
  }

  /**
  The last copy of an id gets the first response with its id of the first batch reply that names
  it. If none does, it fails with the batch call that failed, or else is sent individually.
  */
  lemma SurvivorsAreTold(cfg: Config, s: State, es: seq<Event>, t: nat, i: nat) returns (net: nat -> Answer)
    requires CanRun(cfg, s, es) && t < |s.tasks| && s.tasks[t].Spawned?
    requires t < |Run(cfg, s, es).tasks| && Run(cfg, s, es).tasks[t].Finished?
    requires i < |s.tasks[t].chunk| && !Repeated(s.tasks[t].chunk, i)
    ensures Agrees(cfg, s, es, t, net)
    ensures Told(s.tasks[t].chunk[i], net, ViewAfter(cfg, s, es, t, NOTHING))
  {
    var trace;
    net, trace := TaskIsATrace(cfg, s, es, t);
    TraceTells(s.tasks[t].chunk, cfg.maxRetries, net, trace, ViewAfter(cfg, s, es, t, NOTHING), i);
  }
}
