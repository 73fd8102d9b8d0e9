/**
The way of an answer in src/batching.rs from a task to the caller: what is sent through a channel
is what the receiver yields, individual replies are forwarded unchanged, and a call returns what
its own channels carry.
*/
module BatchAnswers {
  import opened Wrappers
  import opened JsonRpc
  import opened Sums
  import opened BatchRetry
  import opened BatchQueue
  import opened BatchProtocol
  import opened BatchSafety
  import opened BatchProgress
  import opened BatchTransparency

  // ---- channels ----

  lemma {:induction false} SentStays(resolved: seq<Resolution>, more: seq<Resolution>, slot: nat)
    requires Sent(resolved, slot).Some?
    ensures Sent(resolved + more, slot) == Sent(resolved, slot)
  {
    assert (resolved + more)[1..] == resolved[1..] + more;
    if resolved[0].slot != slot {
      SentStays(resolved[1..], more, slot);
    }
  }

  /** A channel that was used once yields what was sent through it. */
  lemma {:induction false} UsedOnce(resolved: seq<Resolution>, i: nat)
    requires i < |resolved| && forall j :: 0 <= j < i ==> resolved[j].slot != resolved[i].slot
    ensures Sent(resolved, resolved[i].slot) == Some(resolved[i].answer)
  {
    if i > 0 {
      UsedOnce(resolved[1..], i - 1);
    }
  }

  /** Two uses of a slot weigh two. */
  lemma TwoUses(resolved: seq<Resolution>, j: nat, i: nat)
    requires j < i < |resolved| && resolved[j].slot == resolved[i].slot
    ensures LogWeight(resolved, Only(resolved[i].slot)) >= 2
  {
    var slot := resolved[i].slot;
    var a, b := resolved[..i], resolved[i..];
    assert resolved == a + b;
    SeqSumAppend(a, b, OfResolution(Only(slot)));
    SeqSumUpdate(a, j, a[j], OfResolution(Only(slot)));
    SeqSumUpdate(b, 0, b[0], OfResolution(Only(slot)));
  }

  /** In every reachable state the receiver of a slot yields exactly the answer that was sent for it. */
  lemma ReceivedExactly(cfg: Config, es: seq<Event>, r: Resolution)
    requires cfg.Valid() && CanRun(cfg, INITIAL, es) && r in Run(cfg, INITIAL, es).resolved
    ensures Received(Run(cfg, INITIAL, es), r.slot) == Some(r.answer)
  {
    var resolved := Run(cfg, INITIAL, es).resolved;
    var i :| 0 <= i < |resolved| && resolved[i] == r;
    ExactlyOnce(cfg, es, r.slot);
    forall j | 0 <= j < i
      ensures resolved[j].slot != r.slot
    {
      if resolved[j].slot == r.slot {
        TwoUses(resolved, j, i);
      }
    }
    UsedOnce(resolved, i);
  }

  /** The channel of a request that was dropped with the shared state reads as a gone backend; a pending one as nothing. */
  lemma DroppedReadsAsGone(cfg: Config, es: seq<Event>, slot: nat)
    requires cfg.Valid() && CanRun(cfg, INITIAL, es)
    ensures var s := Run(cfg, INITIAL, es);
            && ((exists p :: p in s.discarded && p.slot == slot) ==> Received(s, slot) == Some(Err(BackendGone)))
            && (Received(s, slot) == None <==>
                  (forall r :: r in s.resolved ==> r.slot != slot) && (forall p :: p in s.discarded ==> p.slot != slot))
  {
    var s := Run(cfg, INITIAL, es);
    ExactlyOnce(cfg, es, slot);
    if p :| p in s.discarded && p.slot == slot {
      var i :| 0 <= i < |s.discarded| && s.discarded[i] == p;
      SeqSumUpdate(s.discarded, i, p, OfSlot(Only(slot)));
      UnusedIsUnsent(s.resolved, slot);
    }
    if Sent(s.resolved, slot).Some? {
      SentWasResolved(s.resolved, slot);
    } else if r :| r in s.resolved && r.slot == slot {
      var i :| 0 <= i < |s.resolved| && s.resolved[i] == r;
      SentIsFound(s.resolved, i);
    }
  }

  lemma UnusedIsUnsent(resolved: seq<Resolution>, slot: nat)
    requires LogWeight(resolved, Only(slot)) == 0
    ensures Sent(resolved, slot) == None
  {
    if Sent(resolved, slot).Some? {
      SentWasResolved(resolved, slot);
      var i :| 0 <= i < |resolved| && resolved[i].slot == slot;
      SeqSumUpdate(resolved, i, resolved[i], OfResolution(Only(slot)));
    }
  }

  lemma LogGrows(cfg: Config, s: State, e: Event)
    requires Enabled(s, e)
    ensures s.resolved <= Apply(cfg, s, e).resolved
  {
  }

  lemma {:induction false} LogStays(cfg: Config, s: State, es: seq<Event>)
    requires CanRun(cfg, s, es)
    ensures s.resolved <= Run(cfg, s, es).resolved
    decreases es
  {
    if es != [] {
      LogGrows(cfg, s, es[0]);
      LogStays(cfg, Apply(cfg, s, es[0]), es[1..]);
    }
  }

  /** The reply to an individual send is what the receiver yields ever after, error or answer, unchanged. */
  lemma ForwardedUnchanged(cfg: Config, es: seq<Event>, t: nat, reply: Answer, more: seq<Event>)
    requires cfg.Valid() && CanRun(cfg, INITIAL, es) && Enabled(Run(cfg, INITIAL, es), SingleReply(t, reply))
    requires CanRun(cfg, Apply(cfg, Run(cfg, INITIAL, es), SingleReply(t, reply)), more)
    ensures var s := Run(cfg, INITIAL, es);
            Sent(Run(cfg, Apply(cfg, s, SingleReply(t, reply)), more).resolved, s.tasks[t].item.slot) == Some(reply)
  {
    var s := Run(cfg, INITIAL, es);
    var slot := s.tasks[t].item.slot;
    var s1 := Apply(cfg, s, SingleReply(t, reply));
    ExactlyOnce(cfg, es, slot);
    forall j | 0 <= j < |s.resolved|
      ensures s.resolved[j].slot != slot
    {
      SeqSumUpdate(s.resolved, j, s.resolved[j], OfResolution(Only(slot)));
    }
    UsedOnce(s1.resolved, |s.resolved|);
    LogStays(cfg, s1, more);
    var s2 := Run(cfg, s1, more);
    assert s2.resolved == s1.resolved + s2.resolved[|s1.resolved|..];
    SentStays(s1.resolved, s2.resolved[|s1.resolved|..], slot);
  }

  // ---- calls ----

  /** The answers sent so far for the slots of a call. */
  function SentAnswers(resolved: seq<Resolution>, first: nat, n: nat): seq<Option<Answer>> {
    seq(n, i requires 0 <= i < n => Sent(resolved, first + i))
  }

  function SentOutcome(resolved: seq<Resolution>, call: Call): Option<Answer> {
    match call.packet
    case Single(_) => Sent(resolved, call.first)
    case Batch(requests) => Gather(SentAnswers(resolved, call.first, |requests|), [])
  }

  ghost predicate ReturnedAsSent(s: State) {
    forall c :: c in s.calls && s.calls[c].status.Returned? ==>
      SentOutcome(s.resolved, s.calls[c]) == Some(s.calls[c].status.answer)
  }

  lemma ReceivedWasSent(s: State, slot: nat)
    requires s.discarded == []
    ensures Received(s, slot) == Sent(s.resolved, slot)
  {
    if Sent(s.resolved, slot) == None {
      assert !exists p :: p in s.discarded && p.slot == slot;
    }
  }

  lemma OutcomeWasSent(s: State, call: Call)
    requires s.discarded == [] && Outcome(s, call).Some?
    ensures SentOutcome(s.resolved, call) == Outcome(s, call)
  {
    match call.packet
    case Single(_) => ReceivedWasSent(s, call.first);
    case Batch(qs) =>
      var sent := SentAnswers(s.resolved, call.first, |qs|);
      var received := seq(|qs|, i requires 0 <= i < |qs| => Received(s, call.first + i));
      forall i | 0 <= i < |qs|
        ensures received[i] == sent[i]
      {
        ReceivedWasSent(s, call.first + i);
      }
      assert received == sent;
  }

  lemma SentOutcomeStays(resolved: seq<Resolution>, more: seq<Resolution>, call: Call)
    requires SentOutcome(resolved, call).Some?
    ensures SentOutcome(resolved + more, call) == SentOutcome(resolved, call)
  {
    match call.packet
    case Single(_) => SentStays(resolved, more, call.first);
    case Batch(qs) =>
      var before, after := SentAnswers(resolved, call.first, |qs|), SentAnswers(resolved + more, call.first, |qs|);
      forall i | 0 <= i < |qs| && before[i].Some?
        ensures after[i] == before[i]
      {
        SentStays(resolved, more, call.first + i);
      }
      GatherStays(before, after, []);
  }

  lemma ReturnedAsSentStep(cfg: Config, s: State, e: Event)
    requires cfg.Valid() && Enabled(s, e) && ShutDownSafely(s) && ReturnedAsSent(s)
    ensures ReturnedAsSent(Apply(cfg, s, e))
  {
    var s' := Apply(cfg, s, e);
    LogGrows(cfg, s, e);
    var more := s'.resolved[|s.resolved|..];
    assert s'.resolved == s.resolved + more;
    if e.Return? {
      LiveHasReference(s, e.call);
      OutcomeWasSent(s, s.calls[e.call]);
    } else {
      OnlyReturnReturns(cfg, s, e);
      forall c | c in s'.calls && s'.calls[c].status.Returned?
        ensures SentOutcome(s'.resolved, s'.calls[c]) == Some(s'.calls[c].status.answer)
      {
        SentOutcomeStays(s.resolved, more, s.calls[c]);
      }
    }
  }

  lemma {:induction false} ReturnedAsSentHolds(cfg: Config, s: State, es: seq<Event>)
    requires cfg.Valid() && CanRun(cfg, s, es) && ShutDownSafely(s) && ReturnedAsSent(s)
    ensures ReturnedAsSent(Run(cfg, s, es))
    decreases es
  {
    if es != [] {
      ShutdownStep(cfg, s, es[0]);
      ReturnedAsSentStep(cfg, s, es[0]);
      ReturnedAsSentHolds(cfg, Apply(cfg, s, es[0]), es[1..]);
    }
  }

  /** Some answer was sent for the slot, and it carries these responses. */
  ghost predicate SlotCarries(resolved: seq<Resolution>, slot: nat, rs: seq<Response>) {
    exists a :: Resolution(slot, a) in resolved && Carries(a, rs)
  }

  /**
  What a call has returned is what was sent for its slots: for a single request that very answer;
  for a batch all responses they carry, in request order, or the first error after answers.
  */
  ghost predicate ReturnsSlots(resolved: seq<Resolution>, call: Call, answer: Answer) {
    match call.packet
    case Single(_) => Resolution(call.first, answer) in resolved
    case Batch(qs) =>
      exists lists: seq<seq<Response>> :: |lists| <= |qs| && Collects(resolved, call.first, |qs|, lists, answer)
  }

  ghost predicate Collects(resolved: seq<Resolution>, first: nat, n: nat, lists: seq<seq<Response>>, answer: Answer) {
    && (forall i :: 0 <= i < |lists| ==> SlotCarries(resolved, first + i, lists[i]))
    && if |lists| == n then answer == Ok(BatchResponse(Flatten(lists)))
       else answer.Err? && Resolution(first + |lists|, answer) in resolved
  }

  lemma BatchReturns(resolved: seq<Resolution>, first: nat, n: nat, answer: Answer)
    requires Gather(SentAnswers(resolved, first, n), []) == Some(answer)
    ensures exists lists: seq<seq<Response>> :: |lists| <= n && Collects(resolved, first, n, lists, answer)
  {
    var answers := SentAnswers(resolved, first, n);
    var k, lists := GatherFrom(answers, []);
    forall i | 0 <= i < k
      ensures SlotCarries(resolved, first + i, lists[i])
    {
      assert answers[i] == Sent(resolved, first + i);
      SentWasResolved(resolved, first + i);
      var j :| 0 <= j < |resolved| && resolved[j] == Resolution(first + i, answers[i].value);
      assert Resolution(first + i, answers[i].value) in resolved;
    }
    if k < n {
      assert answers[k] == Sent(resolved, first + k);
      SentWasResolved(resolved, first + k);
    } else {
      assert [] + Flatten(lists) == Flatten(lists);
    }
    assert Collects(resolved, first, n, lists, answer);
  }

  lemma ReturnedExactly(cfg: Config, es: seq<Event>, c: nat)
    requires cfg.Valid() && CanRun(cfg, INITIAL, es) && c in Run(cfg, INITIAL, es).calls
    ensures var s := Run(cfg, INITIAL, es);
            s.calls[c].status.Returned? ==> ReturnsSlots(s.resolved, s.calls[c], s.calls[c].status.answer)
  {
    var s := Run(cfg, INITIAL, es);
    InitialInvariant(cfg);
    ReturnedAsSentHolds(cfg, INITIAL, es);
    var call := s.calls[c];
    if call.status.Returned? {
      match call.packet
      case Single(_) => SentWasResolved(s.resolved, call.first);
      case Batch(qs) => BatchReturns(s.resolved, call.first, |qs|, call.status.answer);
    }
  }

  // ---- a call keeps the packet it was made with ----

  lemma {:induction false} PacketStays(cfg: Config, s: State, es: seq<Event>, c: nat)
    requires CanRun(cfg, s, es) && c in s.calls
    ensures c in Run(cfg, s, es).calls && Run(cfg, s, es).calls[c].packet == s.calls[c].packet
    decreases es
  {
    if es != [] {
      PacketStaysOnce(cfg, s, es[0], c);
      PacketStays(cfg, Apply(cfg, s, es[0]), es[1..], c);
    }
  }

  lemma PacketStaysOnce(cfg: Config, s: State, e: Event, c: nat)
    requires Enabled(s, e)
    ensures c in s.calls ==> c in Apply(cfg, s, e).calls && Apply(cfg, s, e).calls[c].packet == s.calls[c].packet
    ensures c !in s.calls && c in Apply(cfg, s, e).calls ==> e == MakeCall(c, Apply(cfg, s, e).calls[c].packet)
  {
  }

  lemma {:induction false} CallsAreAsMade(cfg: Config, s: State, es: seq<Event>, c: nat)
    requires CanRun(cfg, s, es) && c !in s.calls && c in Run(cfg, s, es).calls
    ensures MakeCall(c, Run(cfg, s, es).calls[c].packet) in es
    decreases es
  {
    var s' := Apply(cfg, s, es[0]);
    PacketStaysOnce(cfg, s, es[0], c);
    if c in s'.calls {
      PacketStays(cfg, s', es[1..], c);
    } else {
      CallsAreAsMade(cfg, s', es[1..], c);
    }
  }
}
