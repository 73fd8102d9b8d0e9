/**
The method SendBatchWithRetry and the tasks of the step system agree: whatever the method does
with a chunk, the task that was spawned for the chunk can do in the system, with the same replies.
*/
module BatchRefinement {
  import opened Wrappers
  import opened JsonRpc
  import opened BatchRetry
  import opened BatchQueue
  import opened BatchProtocol
  import opened BatchProgress

  lemma {:induction false} RunMore(cfg: Config, s: State, es: seq<Event>, e: Event)
    requires CanRun(cfg, s, es) && Enabled(Run(cfg, s, es), e)
    ensures CanRun(cfg, s, es + [e]) && Run(cfg, s, es + [e]) == Apply(cfg, Run(cfg, s, es), e)
    decreases es
  {
    if es == [] {
      assert es + [e] == [e];
      assert Run(cfg, Apply(cfg, s, e), []) == Apply(cfg, s, e);
    } else {
      RunMore(cfg, Apply(cfg, s, es[0]), es[1..], e);
      assert (es + [e])[1..] == es[1..] + [e];
    }
  }

  /** The events are a run from s to s'. */
  ghost predicate Leads(cfg: Config, s: State, es: seq<Event>, s': State) {
    CanRun(cfg, s, es) && Run(cfg, s, es) == s'
  }

  lemma LeadsMore(cfg: Config, s: State, es: seq<Event>, s1: State, e: Event)
    requires Leads(cfg, s, es, s1) && Enabled(s1, e)
    ensures Leads(cfg, s, es + [e], Apply(cfg, s1, e))
  {
    RunMore(cfg, s, es, e);
  }

  /** The system when task t stands before attempt n, with everything delivered so far sent out. */
  function BeforeAttempt(s: State, t: nat, chunk: seq<Pending>, net: nat -> Answer, n: nat): State
    requires t < |s.tasks|
  {
    var (o, displaced) := Collect(chunk);
    var (left, delivered) := After(o, net, n);
    s.(tasks := s.tasks[t := AtAttempt(left, n)],
       resolved := s.resolved + Failures(displaced, DuplicateId) + delivered)
  }

  /** The system when task t has sent batch n and waits for the reply. */
  function AwaitingReply(s: State, t: nat, chunk: seq<Pending>, net: nat -> Answer, n: nat, wire: seq<Request>): State
    requires t < |s.tasks|
  {
    BeforeAttempt(s, t, chunk, net, n).(tasks := s.tasks[t := Awaiting(After(Collect(chunk).0, net, n).0, n, wire)])
  }

  lemma SendBatch(cfg: Config, s: State, t: nat, chunk: seq<Pending>, net: nat -> Answer, n: nat, es: seq<Event>)
    returns (es': seq<Event>, wire: seq<Request>)
    requires t < |s.tasks| && Leads(cfg, s, es, BeforeAttempt(s, t, chunk, net, n))
    requires n < cfg.maxRetries && After(Collect(chunk).0, net, n).0 != map[]
    requires Keyed(After(Collect(chunk).0, net, n).0)
    ensures Leads(cfg, s, es', AwaitingReply(s, t, chunk, net, n, wire))
  {
    var here := BeforeAttempt(s, t, chunk, net, n);
    var order := CanBeListed(here.tasks[t].outstanding);
    wire := Requests(order);
    UpdateTwice(s.tasks, t, here.tasks[t], Awaiting(here.tasks[t].outstanding, n, wire));
    assert AfterHead(cfg, here, t, order) == AwaitingReply(s, t, chunk, net, n, wire);
    LeadsMore(cfg, s, es, here, Head(t, order));
    es' := es + [Head(t, order)];
  }

  /** The reply to batch n, when it is an answer. */
  lemma AnswerOutcome(cfg: Config, s: State, t: nat, chunk: seq<Pending>, net: nat -> Answer, n: nat,
                      wire: seq<Request>, order: seq<Pending>)
    requires t < |s.tasks| && net(n).Ok? && After(Collect(chunk).0, net, n).0 != map[]
    requires Lists(order, After(Collect(chunk).0, net, n + 1).0)
    ensures var here := AwaitingReply(s, t, chunk, net, n, wire);
            var before := s.resolved + Failures(Collect(chunk).1, DuplicateId);
            var (left, delivered) := After(Collect(chunk).0, net, n + 1);
            var there := AfterBatchReply(here, t, net(n), order);
            && Enabled(here, BatchReply(t, net(n), order))
            && there.resolved == before + delivered
            && (left == map[] ==> there == s.(tasks := s.tasks[t := Finished], resolved := before + delivered))
            && (KeepsGoing(Collect(chunk).0, net, n) ==> there == BeforeAttempt(s, t, chunk, net, n + 1))
            && (left != map[] && |left| == |After(Collect(chunk).0, net, n).0| ==>
                  there == FallBack(s.(resolved := before + delivered), t, order).(callbacks := s.callbacks + 1))
  {
    var o := Collect(chunk).0;
    var here := AwaitingReply(s, t, chunk, net, n, wire);
    Associative(s.resolved + Failures(Collect(chunk).1, DuplicateId), After(o, net, n).1,
                   Match(After(o, net, n).0, net(n).packet.Responses()).1);
    UpdateTwice(s.tasks, t, here.tasks[t], Finished);
    UpdateTwice(s.tasks, t, here.tasks[t], AtAttempt(After(o, net, n + 1).0, n + 1));
  }

  lemma UpdateTwice(tasks: seq<Task>, t: nat, a: Task, b: Task)
    requires t < |tasks|
    ensures tasks[t := a][t := b] == tasks[t := b]
  {
  }

  /** The reply to batch n, when the transport failed. */
  lemma ErrorOutcome(cfg: Config, s: State, t: nat, chunk: seq<Pending>, net: nat -> Answer, n: nat,
                     wire: seq<Request>, order: seq<Pending>)
    requires t < |s.tasks| && net(n).Err?
    requires Lists(order, After(Collect(chunk).0, net, n + 1).0)
    ensures var here := AwaitingReply(s, t, chunk, net, n, wire);
            var before := s.resolved + Failures(Collect(chunk).1, DuplicateId);
            && Enabled(here, BatchReply(t, net(n), order))
            && AfterBatchReply(here, t, net(n), order)
               == s.(tasks := s.tasks[t := Finished],
                     resolved := before + (After(Collect(chunk).0, net, n + 1).1 + Failures(order, BatchFailed(net(n).error))))
  {
    var here := AwaitingReply(s, t, chunk, net, n, wire);
    Associative(s.resolved + Failures(Collect(chunk).1, DuplicateId), After(Collect(chunk).0, net, n + 1).1,
                   Failures(order, BatchFailed(net(n).error)));
    UpdateTwice(s.tasks, t, here.tasks[t], Finished);
  }

  lemma {:induction false} AfterKeyed(chunk: seq<Pending>, net: nat -> Answer, n: nat)
    ensures Keyed(After(Collect(chunk).0, net, n).0)
  {
    if n == 0 {
      CollectKeyed(chunk);
    } else {
      AfterKeyed(chunk, net, n - 1);
      if net(n - 1).Ok? {
        MatchExactly(After(Collect(chunk).0, net, n - 1).0, net(n - 1).packet.Responses());
      }
    }
  }

  /** A reply that keeps the loop going takes the task to the next attempt. */
  lemma OneRound(cfg: Config, s: State, t: nat, chunk: seq<Pending>, net: nat -> Answer, n: nat, es: seq<Event>)
    returns (es': seq<Event>)
    requires t < |s.tasks| && Leads(cfg, s, es, BeforeAttempt(s, t, chunk, net, n))
    requires n < cfg.maxRetries && KeepsGoing(Collect(chunk).0, net, n)
    ensures Leads(cfg, s, es', BeforeAttempt(s, t, chunk, net, n + 1))
  {
    var o := Collect(chunk).0;
    assert After(o, net, n).0 != map[];
    AfterKeyed(chunk, net, n);
    AfterKeyed(chunk, net, n + 1);
    var sent, wire := SendBatch(cfg, s, t, chunk, net, n, es);
    var order := CanBeListed(After(o, net, n + 1).0);
    AnswerOutcome(cfg, s, t, chunk, net, n, wire, order);
    LeadsMore(cfg, s, sent, AwaitingReply(s, t, chunk, net, n, wire), BatchReply(t, net(n), order));
    es' := sent + [BatchReply(t, net(n), order)];
  }

  lemma Begin(cfg: Config, s: State, t: nat, net: nat -> Answer)
    requires t < |s.tasks| && s.tasks[t].Spawned?
    ensures Leads(cfg, s, [Start(t)], BeforeAttempt(s, t, s.tasks[t].chunk, net, 0))
  {
    var started := s.resolved + Failures(Collect(s.tasks[t].chunk).1, DuplicateId);
    assert started + [] == started;
    assert Leads(cfg, s, [], s);
    LeadsMore(cfg, s, [], s, Start(t));
    assert [] + [Start(t)] == [Start(t)];
  }

  /** Replies that keep the loop going take the task from one attempt to the next. */
  lemma {:induction false} Rounds(cfg: Config, s: State, t: nat, chunk: seq<Pending>, net: nat -> Answer, n: nat)
    returns (es: seq<Event>)
    requires t < |s.tasks| && s.tasks[t] == Spawned(chunk) && n <= cfg.maxRetries
    requires KeptGoing(Collect(chunk).0, net, n)
    ensures Leads(cfg, s, es, BeforeAttempt(s, t, chunk, net, n))
    decreases n
  {
    if n == 0 {
      Begin(cfg, s, t, net);
      es := [Start(t)];
    } else {
      var m: nat := n - 1;
      var before := Rounds(cfg, s, t, chunk, net, m);
      es := OneRound(cfg, s, t, chunk, net, m, before);
      assert m + 1 == n;
    }
  }

  /** The system after the task has done what the trace says. */
  function AfterTrace(s: State, t: nat, trace: Trace): State
    requires t < |s.tasks|
  {
    var s1 := s.(resolved := s.resolved + Failures(trace.displaced, DuplicateId) + trace.resolved,
                 callbacks := s.callbacks + trace.callbacks);
    if trace.individuals == [] then s1.(tasks := s.tasks[t := Finished]) else FallBack(s1, t, trace.individuals)
  }

  /** Without batch calls left to make: everything was delivered, or the rest is sent one by one. */
  lemma EndsAtHead(cfg: Config, s: State, t: nat, net: nat -> Answer, trace: Trace) returns (es: seq<Event>)
    requires t < |s.tasks| && s.tasks[t].Spawned?
    requires Follows(s.tasks[t].chunk, cfg.maxRetries, net, trace)
    requires trace.ending.LastResort? || trace.batches == []
    ensures Leads(cfg, s, es, AfterTrace(s, t, trace))
  {
    var chunk, n := s.tasks[t].chunk, |trace.batches|;
    var o := Collect(chunk).0;
    if trace.batches != [] {
      CalledKeptGoing(o, net, trace.batches);
    }
    es := Rounds(cfg, s, t, chunk, net, n);
    var here := BeforeAttempt(s, t, chunk, net, n);
    UpdateTwice(s.tasks, t, here.tasks[t], Finished);
    assert Lists(trace.individuals, here.tasks[t].outstanding);
    LeadsMore(cfg, s, es, here, Head(t, trace.individuals));
    es := es + [Head(t, trace.individuals)];
  }

  /** Batch call n is on its way. */
  lemma BatchCall(cfg: Config, s: State, t: nat, net: nat -> Answer, n: nat)
    returns (es: seq<Event>, wire: seq<Request>)
    requires t < |s.tasks| && s.tasks[t].Spawned? && n < cfg.maxRetries
    requires KeptGoing(Collect(s.tasks[t].chunk).0, net, n) && After(Collect(s.tasks[t].chunk).0, net, n).0 != map[]
    ensures Leads(cfg, s, es, AwaitingReply(s, t, s.tasks[t].chunk, net, n, wire))
  {
    es := Rounds(cfg, s, t, s.tasks[t].chunk, net, n);
    AfterKeyed(s.tasks[t].chunk, net, n);
    es, wire := SendBatch(cfg, s, t, s.tasks[t].chunk, net, n, es);
  }

  /** The last batch call delivers everything, matches nothing, or fails. */
  lemma EndsAtReply(cfg: Config, s: State, t: nat, net: nat -> Answer, trace: Trace) returns (es: seq<Event>)
    requires t < |s.tasks| && s.tasks[t].Spawned?
    requires Follows(s.tasks[t].chunk, cfg.maxRetries, net, trace)
    requires !trace.ending.LastResort? && trace.batches != []
    ensures Leads(cfg, s, es, AfterTrace(s, t, trace))
  {
    var chunk, last := s.tasks[t].chunk, |trace.batches| - 1;
    CalledKeptGoing(Collect(chunk).0, net, trace.batches);
    var wire;
    es, wire := BatchCall(cfg, s, t, net, last);
    var order := LastOrder(chunk, cfg.maxRetries, net, trace);
    if trace.ending.BatchError? {
      LastError(cfg, s, t, net, trace, wire, order);
    } else {
      LastAnswer(cfg, s, t, net, trace, wire, order);
    }
    LeadsMore(cfg, s, es, AwaitingReply(s, t, chunk, net, last, wire), BatchReply(t, net(last), order));
    es := es + [BatchReply(t, net(last), order)];
  }

  /** The trace without the record of its batch calls. */
  ghost predicate EndsWith(chunk: seq<Pending>, maxRetries: nat, net: nat -> Answer, trace: Trace) {
    trace.displaced == Collect(chunk).1 && Ends(Collect(chunk).0, maxRetries, net, trace)
  }

  lemma LastAnswer(cfg: Config, s: State, t: nat, net: nat -> Answer, trace: Trace, wire: seq<Request>, order: seq<Pending>)
    requires t < |s.tasks| && s.tasks[t].Spawned?
    requires EndsWith(s.tasks[t].chunk, cfg.maxRetries, net, trace)
    requires (trace.ending.AllDelivered? || trace.ending.Rejected?) && trace.batches != []
    requires After(Collect(s.tasks[t].chunk).0, net, |trace.batches| - 1).0 != map[]
    requires IsLastOrder(s.tasks[t].chunk, net, trace, order)
    ensures var here := AwaitingReply(s, t, s.tasks[t].chunk, net, |trace.batches| - 1, wire);
            && Enabled(here, BatchReply(t, net(|trace.batches| - 1), order))
            && AfterBatchReply(here, t, net(|trace.batches| - 1), order) == AfterTrace(s, t, trace)
  {
    var n := |trace.batches|;
    AnswerOutcome(cfg, s, t, s.tasks[t].chunk, net, n - 1, wire, order);
    assert trace.ending.AllDelivered? ==> trace.individuals == [];
    assert trace.ending.Rejected? ==> trace.individuals != [];
  }

  lemma LastError(cfg: Config, s: State, t: nat, net: nat -> Answer, trace: Trace, wire: seq<Request>, order: seq<Pending>)
    requires t < |s.tasks| && s.tasks[t].Spawned?
    requires EndsWith(s.tasks[t].chunk, cfg.maxRetries, net, trace)
    requires trace.ending.BatchError? && trace.batches != []
    requires IsLastOrder(s.tasks[t].chunk, net, trace, order)
    ensures var here := AwaitingReply(s, t, s.tasks[t].chunk, net, |trace.batches| - 1, wire);
            && Enabled(here, BatchReply(t, net(|trace.batches| - 1), order))
            && AfterBatchReply(here, t, net(|trace.batches| - 1), order) == AfterTrace(s, t, trace)
  {
    ErrorOutcome(cfg, s, t, s.tasks[t].chunk, net, |trace.batches| - 1, wire, order);
  }

  /** Every trace of the method is a run of its task, with the same effect on the rest of the system. */
  lemma MethodIsARun(cfg: Config, s: State, t: nat, net: nat -> Answer, trace: Trace) returns (es: seq<Event>)
    requires t < |s.tasks| && s.tasks[t].Spawned?
    requires Follows(s.tasks[t].chunk, cfg.maxRetries, net, trace)
    ensures Leads(cfg, s, es, AfterTrace(s, t, trace))
  {
    if trace.ending.LastResort? || trace.batches == [] {
      es := EndsAtHead(cfg, s, t, net, trace);
    } else {
      es := EndsAtReply(cfg, s, t, net, trace);
    }
  }

  /** The order in which the last batch call leaves the map. */
  ghost predicate IsLastOrder(chunk: seq<Pending>, net: nat -> Answer, t: Trace, order: seq<Pending>) {
    var (left, delivered) := After(Collect(chunk).0, net, |t.batches|);
    && Lists(order, left)
    && (t.ending.AllDelivered? || t.ending.Rejected? ==> order == t.individuals)
    && (t.ending.BatchError? ==> t.resolved == delivered + Failures(order, BatchFailed(t.ending.cause)))
  }

  lemma LastOrder(chunk: seq<Pending>, maxRetries: nat, net: nat -> Answer, t: Trace) returns (order: seq<Pending>)
    requires Follows(chunk, maxRetries, net, t) && |t.batches| > 0 && !t.ending.LastResort?
    ensures IsLastOrder(chunk, net, t, order)
  {
    var (left, delivered) := After(Collect(chunk).0, net, |t.batches|);
    if t.ending.BatchError? {
      order :| Lists(order, left) && t.resolved == delivered + Failures(order, BatchFailed(t.ending.cause));
    } else {
      order := t.individuals;
    }
  }
}
