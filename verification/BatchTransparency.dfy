/**
Transparency of src/batching.rs: when the inner transport answers every request it answers
truthfully, but may drop, reorder, repeat or invent responses of a batch, each caller gets what
the inner transport would have answered to its own requests, in their order. If sends may also
fail and ids may collide, each caller gets that or an error.
*/
module BatchTransparency {
  import opened Wrappers
  import opened JsonRpc
  import opened BatchRetry
  import opened BatchQueue
  import opened BatchProtocol
  import opened BatchSafety
  import opened BatchProgress

  /** What the caller gets without batching, request by request. */
  function Direct(inner: Request -> Response, packet: RequestPacket): Answer {
    match packet
    case Single(q) => Ok(SingleResponse(inner(q)))
    case Batch(qs) => Ok(BatchResponse(seq(|qs|, i requires 0 <= i < |qs| => inner(qs[i]))))
  }

  predicate DistinctIds(chunk: seq<Pending>) {
    forall i, j :: 0 <= i < j < |chunk| ==> chunk[i].request.id != chunk[j].request.id
  }

  /** No response in the list misrepresents a request on the wire; everything else is allowed. */
  predicate TruthfulResponses(inner: Request -> Response, wire: seq<Request>, responses: seq<Response>) {
    forall i, j :: 0 <= i < |responses| && 0 <= j < |wire| && responses[i].id == wire[j].id ==>
      responses[i] == inner(wire[j])
  }

  /** A reliable transport never fails and is given distinct ids; a fallible one may fail at any time. */
  datatype Transport = Reliable | Fallible

  /** The answer to one request, or a failure if the transport has some. */
  predicate TrueAnswer(inner: Request -> Response, tr: Transport, q: Request, answer: Answer) {
    answer == Ok(SingleResponse(inner(q))) || (tr.Fallible? && answer.Err?)
  }

  ghost predicate Truthful(inner: Request -> Response, tr: Transport, s: State, e: Event)
    requires Enabled(s, e)
  {
    match e
    case BatchReply(t, Ok(BatchResponse(rs)), _) => TruthfulResponses(inner, s.tasks[t].wire, rs)
    case BatchReply(t, Ok(SingleResponse(r)), _) => TruthfulResponses(inner, s.tasks[t].wire, [r])
    case BatchReply(_, Err(_), _) => tr.Fallible?
    case SingleReply(t, reply) => TrueAnswer(inner, tr, s.tasks[t].item.request, reply)
    case Start(t) => tr.Fallible? || DistinctIds(s.tasks[t].chunk)
    case _ => true
  }

  ghost predicate TruthfulRun(cfg: Config, inner: Request -> Response, tr: Transport, s: State, es: seq<Event>)
    requires CanRun(cfg, s, es)
    decreases es
  {
    es == [] || (Truthful(inner, tr, s, es[0]) && TruthfulRun(cfg, inner, tr, Apply(cfg, s, es[0]), es[1..]))
  }

  /** Everything sent to a caller so far is the inner answer to the request of that slot, or a failure. */
  ghost predicate AnsweredTruly(inner: Request -> Response, tr: Transport, accepted: seq<Pending>, resolved: seq<Resolution>) {
    forall i :: 0 <= i < |resolved| ==> TrueResolution(inner, tr, accepted, resolved[i])
  }

  predicate TrueResolution(inner: Request -> Response, tr: Transport, accepted: seq<Pending>, r: Resolution) {
    r.slot < |accepted| && TrueAnswer(inner, tr, accepted[r.slot].request, r.answer)
  }

  predicate TrueResult(inner: Request -> Response, tr: Transport, packet: RequestPacket, answer: Answer) {
    answer == Direct(inner, packet) || (tr.Fallible? && answer.Err?)
  }

  ghost predicate ReturnedTruly(inner: Request -> Response, tr: Transport, s: State) {
    forall c :: c in s.calls && s.calls[c].status.Returned? ==>
      TrueResult(inner, tr, s.calls[c].packet, s.calls[c].status.answer)
  }

  lemma {:induction false} DistinctDisplacesNothing(chunk: seq<Pending>)
    requires DistinctIds(chunk)
    ensures Collect(chunk).1 == []
    ensures forall id :: id in Collect(chunk).0 ==> exists i :: 0 <= i < |chunk| && chunk[i].request.id == id
  {
    if chunk != [] {
      var k := |chunk| - 1;
      DistinctDisplacesNothing(chunk[..k]);
      forall id | id in Collect(chunk).0
        ensures exists i :: 0 <= i < |chunk| && chunk[i].request.id == id
      {
        if id == chunk[k].request.id {
          assert chunk[k].request.id == id;
        } else {
          var i :| 0 <= i < k && chunk[..k][i].request.id == id;
          assert chunk[i].request.id == id;
        }
      }
    }
  }

  lemma DeliveredTruly(inner: Request -> Response, tr: Transport, accepted: seq<Pending>, o: Outstanding, wire: seq<Request>,
                       responses: seq<Response>)
    requires MapOwned(accepted, o) && OnWire(o, wire) && TruthfulResponses(inner, wire, responses)
    ensures AnsweredTruly(inner, tr, accepted, Match(o, responses).1)
  {
    MatchExactly(o, responses);
    var delivered := Match(o, responses).1;
    forall k | 0 <= k < |delivered|
      ensures TrueResolution(inner, tr, accepted, delivered[k])
    {
      assert delivered[k] in delivered;
      var i: nat :| AnswersFirst(o, responses, delivered[k], i);
      var p := o[responses[i].id];
      assert p.request in wire && p.request.id == responses[i].id;
      var j :| 0 <= j < |wire| && wire[j] == p.request;
      assert responses[i] == inner(wire[j]);
    }
  }

  /** Failures are no lies when the transport is fallible. */
  lemma FailuresTruly(inner: Request -> Response, accepted: seq<Pending>, ps: seq<Pending>, e: Error)
    requires AllOwned(accepted, ps)
    ensures AnsweredTruly(inner, Fallible, accepted, Failures(ps, e))
  {
    forall i | 0 <= i < |ps|
      ensures TrueResolution(inner, Fallible, accepted, Failures(ps, e)[i])
    {
      assert Owned(accepted, ps[i]);
    }
  }

  lemma AnsweredMore(inner: Request -> Response, tr: Transport, accepted: seq<Pending>, log: seq<Resolution>, more: seq<Resolution>)
    requires AnsweredTruly(inner, tr, accepted, log) && AnsweredTruly(inner, tr, accepted, more)
    ensures AnsweredTruly(inner, tr, accepted, log + more)
  {
  }

  lemma PushAnswers(inner: Request -> Response, tr: Transport, s: State, c: nat)
    requires c in s.calls && AnsweredTruly(inner, tr, s.accepted, s.resolved)
    ensures AnsweredTruly(inner, tr, AfterPush(s, c).accepted, s.resolved)
  {
    forall i | 0 <= i < |s.resolved|
      ensures TrueResolution(inner, tr, AfterPush(s, c).accepted, s.resolved[i])
    {
      assert TrueResolution(inner, tr, s.accepted, s.resolved[i]);
    }
  }

  lemma StartAnswers(cfg: Config, inner: Request -> Response, tr: Transport, s: State, t: nat)
    requires Enabled(s, Start(t)) && Truthful(inner, tr, s, Start(t)) && Ownership(cfg, s)
    requires AnsweredTruly(inner, tr, s.accepted, s.resolved)
    ensures AnsweredTruly(inner, tr, s.accepted, AfterStart(s, t).resolved)
  {
    var chunk := s.tasks[t].chunk;
    var displaced := Collect(chunk).1;
    assert TaskSound(cfg, s.accepted, |s.gates|, s.tasks[t]);
    if tr.Reliable? {
      DistinctDisplacesNothing(chunk);
      assert Failures(displaced, DuplicateId) == [];
    } else {
      CollectKeyed(chunk);
      assert AllOwned(s.accepted, displaced) by {
        assert forall i :: 0 <= i < |displaced| ==> displaced[i] in chunk;
      }
      FailuresTruly(inner, s.accepted, displaced, DuplicateId);
    }
    AnsweredMore(inner, tr, s.accepted, s.resolved, Failures(displaced, DuplicateId));
  }

  lemma BatchReplyAnswers(cfg: Config, inner: Request -> Response, tr: Transport, s: State, t: nat, reply: Answer,
                          order: seq<Pending>)
    requires Enabled(s, BatchReply(t, reply, order)) && Truthful(inner, tr, s, BatchReply(t, reply, order))
    requires Ownership(cfg, s) && AnsweredTruly(inner, tr, s.accepted, s.resolved)
    ensures AnsweredTruly(inner, tr, s.accepted, AfterBatchReply(s, t, reply, order).resolved)
  {
    var o := s.tasks[t].outstanding;
    assert TaskSound(cfg, s.accepted, |s.gates|, s.tasks[t]);
    if reply.Ok? {
      DeliveredTruly(inner, tr, s.accepted, o, s.tasks[t].wire, reply.packet.Responses());
      AnsweredMore(inner, tr, s.accepted, s.resolved, Match(o, reply.packet.Responses()).1);
    } else {
      ListedRequests(order, o);
      FailuresTruly(inner, s.accepted, order, BatchFailed(reply.error));
      AnsweredMore(inner, tr, s.accepted, s.resolved, Failures(order, BatchFailed(reply.error)));
    }
  }

  lemma SingleReplyAnswers(cfg: Config, inner: Request -> Response, tr: Transport, s: State, t: nat, reply: Answer)
    requires Enabled(s, SingleReply(t, reply)) && Truthful(inner, tr, s, SingleReply(t, reply))
    requires Ownership(cfg, s) && AnsweredTruly(inner, tr, s.accepted, s.resolved)
    ensures AnsweredTruly(inner, tr, s.accepted, AfterSingleReply(s, t, reply).resolved)
  {
    assert TaskSound(cfg, s.accepted, |s.gates|, s.tasks[t]);
    AnsweredMore(inner, tr, s.accepted, s.resolved, [Resolution(s.tasks[t].item.slot, reply)]);
  }

  lemma AnswersStep(cfg: Config, inner: Request -> Response, tr: Transport, s: State, e: Event)
    requires cfg.Valid() && Enabled(s, e) && Truthful(inner, tr, s, e) && Ownership(cfg, s)
    requires AnsweredTruly(inner, tr, s.accepted, s.resolved)
    ensures AnsweredTruly(inner, tr, Apply(cfg, s, e).accepted, Apply(cfg, s, e).resolved)
  {
    match e
    case Push(c) => PushAnswers(inner, tr, s, c);
    case Start(t) => StartAnswers(cfg, inner, tr, s, t);
    case BatchReply(t, reply, order) => BatchReplyAnswers(cfg, inner, tr, s, t, reply, order);
    case SingleReply(t, reply) => SingleReplyAnswers(cfg, inner, tr, s, t, reply);
    case _ =>
  }

  lemma {:induction false} SentWasResolved(resolved: seq<Resolution>, slot: nat)
    requires Sent(resolved, slot).Some?
    ensures exists i :: 0 <= i < |resolved| && resolved[i] == Resolution(slot, Sent(resolved, slot).value)
  {
    if resolved[0].slot == slot {
      assert resolved[0] == Resolution(slot, Sent(resolved, slot).value);
    } else {
      SentWasResolved(resolved[1..], slot);
      var i :| 0 <= i < |resolved[1..]| && resolved[1..][i] == Resolution(slot, Sent(resolved, slot).value);
      assert resolved[i + 1] == Resolution(slot, Sent(resolved, slot).value);
    }
  }

  /** What a live caller receives is the inner answer, or a failure; its channel is never dropped. */
  lemma ReceivedTruly(inner: Request -> Response, tr: Transport, s: State, slot: nat)
    requires AnsweredTruly(inner, tr, s.accepted, s.resolved) && s.discarded == []
    requires slot < |s.accepted| && Received(s, slot).Some?
    ensures TrueAnswer(inner, tr, s.accepted[slot].request, Received(s, slot).value)
  {
    if Sent(s.resolved, slot).Some? {
      SentWasResolved(s.resolved, slot);
      var i :| 0 <= i < |s.resolved| && s.resolved[i] == Resolution(slot, Sent(s.resolved, slot).value);
      assert TrueResolution(inner, tr, s.accepted, s.resolved[i]);
    }
  }

  /** Gathering true answers in order yields exactly the answers to the requests, or one of the failures. */
  lemma {:induction false} GatherTruly(inner: Request -> Response, tr: Transport, requests: seq<Request>,
                                       answers: seq<Option<Answer>>, responses: seq<Response>)
    requires |answers| == |requests|
    requires forall i :: 0 <= i < |answers| && answers[i].Some? ==> TrueAnswer(inner, tr, requests[i], answers[i].value)
    requires Gather(answers, responses).Some?
    ensures var result := Gather(answers, responses).value;
            || result == Ok(BatchResponse(responses + seq(|requests|, i requires 0 <= i < |requests| => inner(requests[i]))))
            || (tr.Fallible? && result.Err?)
    decreases |answers|
  {
    var wanted := seq(|requests|, i requires 0 <= i < |requests| => inner(requests[i]));
    if answers == [] {
      assert responses + wanted == responses;
    } else if answers[0].value.Ok? {
      var rest := requests[1..];
      GatherTruly(inner, tr, rest, answers[1..], responses + [inner(requests[0])]);
      assert (responses + [inner(requests[0])]) + seq(|rest|, i requires 0 <= i < |rest| => inner(rest[i]))
          == responses + wanted;
    }
  }

  lemma OutcomeTruly(inner: Request -> Response, tr: Transport, s: State, call: Call)
    requires AnsweredTruly(inner, tr, s.accepted, s.resolved) && s.discarded == []
    requires call.status.Waiting? && CallSound(s.accepted, call) && Outcome(s, call).Some?
    ensures TrueResult(inner, tr, call.packet, Outcome(s, call).value)
  {
    var requests := call.packet.Requests();
    forall i | 0 <= i < |requests| && Received(s, call.first + i).Some?
      ensures TrueAnswer(inner, tr, requests[i], Received(s, call.first + i).value)
    {
      ReceivedTruly(inner, tr, s, call.first + i);
    }
    match call.packet
    case Single(q) =>
      assert requests[0] == q && call.first + 0 == call.first;
    case Batch(qs) =>
      GatherTruly(inner, tr, qs, seq(|qs|, i requires 0 <= i < |qs| => Received(s, call.first + i)), []);
      var wanted := seq(|qs|, i requires 0 <= i < |qs| => inner(qs[i]));
      assert [] + wanted == wanted;
  }

  lemma OnlyReturnReturns(cfg: Config, s: State, e: Event)
    requires Enabled(s, e) && !e.Return?
    ensures forall c :: c in Apply(cfg, s, e).calls && Apply(cfg, s, e).calls[c].status.Returned? ==>
              c in s.calls && s.calls[c] == Apply(cfg, s, e).calls[c]
  {
  }

  lemma ReturnStep(cfg: Config, inner: Request -> Response, tr: Transport, s: State, e: Event)
    requires cfg.Valid() && Enabled(s, e) && CallsSound(s) && ShutDownSafely(s)
    requires AnsweredTruly(inner, tr, s.accepted, s.resolved) && ReturnedTruly(inner, tr, s)
    ensures ReturnedTruly(inner, tr, Apply(cfg, s, e))
  {
    if e.Return? {
      var call := s.calls[e.call];
      LiveHasReference(s, e.call);
      assert CallSound(s.accepted, call);
      OutcomeTruly(inner, tr, s, call);
    } else {
      OnlyReturnReturns(cfg, s, e);
    }
  }

  lemma {:induction false} TruthHolds(cfg: Config, inner: Request -> Response, tr: Transport, s: State, es: seq<Event>)
    requires cfg.Valid() && CanRun(cfg, s, es) && TruthfulRun(cfg, inner, tr, s, es) && Invariant(cfg, s)
    requires AnsweredTruly(inner, tr, s.accepted, s.resolved) && ReturnedTruly(inner, tr, s)
    ensures ReturnedTruly(inner, tr, Run(cfg, s, es))
    decreases es
  {
    if es != [] {
      InvariantStep(cfg, s, es[0]);
      AnswersStep(cfg, inner, tr, s, es[0]);
      ReturnStep(cfg, inner, tr, s, es[0]);
      TruthHolds(cfg, inner, tr, Apply(cfg, s, es[0]), es[1..]);
    }
  }

  /**
  Transparency: under every interleaving, chunking, iteration order and choice of dropped,
  reordered, repeated or foreign responses, every call that returns gives exactly what the inner
  transport answers to its requests.
  */
  lemma Transparency(cfg: Config, inner: Request -> Response, es: seq<Event>, c: nat)
    requires cfg.Valid() && CanRun(cfg, INITIAL, es) && TruthfulRun(cfg, inner, Reliable, INITIAL, es)
    requires c in Run(cfg, INITIAL, es).calls
    ensures var call := Run(cfg, INITIAL, es).calls[c];
            call.status.Returned? ==> call.status.answer == Direct(inner, call.packet)
  {
    InitialInvariant(cfg);
    TruthHolds(cfg, inner, Reliable, INITIAL, es);
  }

  /**
  Without any assumption on failures and ids: every call that returns gives exactly what the inner
  transport answers to its requests, or an error. No caller ever sees the answer to another one.
  */
  lemma TruthOrError(cfg: Config, inner: Request -> Response, es: seq<Event>, c: nat)
    requires cfg.Valid() && CanRun(cfg, INITIAL, es) && TruthfulRun(cfg, inner, Fallible, INITIAL, es)
    requires c in Run(cfg, INITIAL, es).calls
    ensures var call := Run(cfg, INITIAL, es).calls[c];
            call.status.Returned? && call.status.answer.Ok? ==> call.status.answer == Direct(inner, call.packet)
  {
    InitialInvariant(cfg);
    TruthHolds(cfg, inner, Fallible, INITIAL, es);
  }

  // ---- every call is answered ----

  /** Nothing is left to do: every step of the layer but a poll, with a truthful reply if it is one, is disabled. */
  ghost predicate Settled(inner: Request -> Response, s: State) {
    forall e: Event :: Enabled(s, e) && IsInternal(e) && !IsPoll(s, e) ==>
      (e.BatchReply? || e.SingleReply?) && !Truthful(inner, Reliable, s, e)
  }

  /** A truthful reply for every task: a batch whose responses were all dropped, or the answer itself. */
  function TrueReply(inner: Request -> Response, s: State, t: nat): Answer {
    if t < |s.tasks| && s.tasks[t].Calling? then Ok(SingleResponse(inner(s.tasks[t].item.request)))
    else Ok(BatchResponse([]))
  }

  lemma TrueRepliesAreTruthful(inner: Request -> Response, s: State, e: Event, replies: nat -> Answer)
    requires IsProgress(s, e, replies) && forall t :: replies(t) == TrueReply(inner, s, t)
    ensures e.BatchReply? || e.SingleReply? ==> Truthful(inner, Reliable, s, e)
  {
  }

  /**
  Under a reliable transport every run without new calls makes only a bounded number of steps that
  are not polls (WorkIsBounded); when none is left, every call has been answered truthfully, unless
  its future was dropped.
  */
  lemma EveryCallIsAnswered(cfg: Config, inner: Request -> Response, es: seq<Event>, c: nat)
    requires cfg.Valid() && CanRun(cfg, INITIAL, es) && TruthfulRun(cfg, inner, Reliable, INITIAL, es)
    requires Settled(inner, Run(cfg, INITIAL, es))
    requires c in Run(cfg, INITIAL, es).calls
    ensures var call := Run(cfg, INITIAL, es).calls[c];
            call.status == Cancelled || call.status == Returned(Direct(inner, call.packet))
  {
    var s := Run(cfg, INITIAL, es);
    Transparency(cfg, inner, es, c);
    if s.calls[c].Live() {
      var replies := (t: nat) => TrueReply(inner, s, t);
      var e := NobodyIsStuck(cfg, es, c, replies);
      TrueRepliesAreTruthful(inner, s, e, replies);
      assert false;
    }
  }
}
