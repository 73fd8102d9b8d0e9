/**
Many concurrent calls of the balancer of src/lib.rs sharing the per-endpoint semaphores. The
retry loop is reduced to a position in its sequence of attempts; which endpoints it wants, what
it skips and what the sends return is arbitrary. A permit is kept while sending and through the
pause after a rate limit, and is given back at the end of the attempt or of the call.
*/
module Permits {
  import opened Wrappers
  import opened Sums

  datatype Phase = Choosing | Waiting(endpoint: nat) | Sending(endpoint: nat) | Cooling(endpoint: nat) | Finished

  /** A call that has used up attempts of its budget; held are the endpoints whose permits it owns. */
  datatype CallState = CallState(phase: Phase, attempts: nat, held: set<nat>)

  datatype System = System(limits: seq<Option<nat>>, available: seq<nat>, budget: nat, calls: map<nat, CallState>)

  datatype Event =
    | Arrive(call: nat)
    | PassOver(call: nat)                   // an endpoint that is ineligible or skipped
    | Request(call: nat, endpoint: nat)
    | Acquire(call: nat)
    | ReplyArrives(call: nat, final: bool)
    | NextAttempt(call: nat)
    | GiveUp(call: nat)
    | Cancel(call: nat)                     // the future is dropped, and its permit with it

  predicate Enabled(s: System, e: Event) {
    match e
    case Arrive(c) => c !in s.calls
    case PassOver(c) => c in s.calls && s.calls[c].phase.Choosing? && s.calls[c].attempts < s.budget
    case Request(c, i) => c in s.calls && s.calls[c].phase.Choosing? && s.calls[c].attempts < s.budget && i < |s.limits|
    case Acquire(c) =>
      && c in s.calls && s.calls[c].phase.Waiting?
      && var i := s.calls[c].phase.endpoint;
         i < |s.limits| && i < |s.available| && (s.limits[i].Some? ==> s.available[i] > 0)
    case ReplyArrives(c, _) => c in s.calls && s.calls[c].phase.Sending?
    case NextAttempt(c) => c in s.calls && s.calls[c].phase.Cooling?
    case GiveUp(c) => c in s.calls && s.calls[c].phase.Choosing? && s.calls[c].attempts >= s.budget
    case Cancel(c) => c in s.calls && !s.calls[c].phase.Finished?
  }

  function Release(s: System, c: nat, phase: Phase, used: nat): System
    requires c in s.calls
  {
    var held := s.calls[c].held;
    s.(calls := s.calls[c := CallState(phase, s.calls[c].attempts + used, {})],
       available := seq(|s.available|, i requires 0 <= i < |s.available| =>
         if i in held then s.available[i] + 1 else s.available[i]))
  }

  function Apply(s: System, e: Event): System
    requires Enabled(s, e)
  {
    match e
    case Arrive(c) => s.(calls := s.calls[c := CallState(Choosing, 0, {})])
    case PassOver(c) => s.(calls := s.calls[c := s.calls[c].(attempts := s.calls[c].attempts + 1)])
    case Request(c, i) => s.(calls := s.calls[c := s.calls[c].(phase := Waiting(i))])
    case Acquire(c) =>
      var i := s.calls[c].phase.endpoint;
      if s.limits[i].Some? then
        s.(calls := s.calls[c := s.calls[c].(phase := Sending(i), held := s.calls[c].held + {i})],
           available := s.available[i := s.available[i] - 1])
      else s.(calls := s.calls[c := s.calls[c].(phase := Sending(i))])
    case ReplyArrives(c, final) =>
      if final then Release(s, c, Finished, 0)
      else s.(calls := s.calls[c := s.calls[c].(phase := Cooling(s.calls[c].phase.endpoint))])
    case NextAttempt(c) => Release(s, c, Choosing, 1)
    case GiveUp(c) => s.(calls := s.calls[c := s.calls[c].(phase := Finished)])
    case Cancel(c) => Release(s, c, Finished, 0)
  }

  predicate CanRun(s: System, es: seq<Event>)
    decreases es
  {
    es == [] || (Enabled(s, es[0]) && CanRun(Apply(s, es[0]), es[1..]))
  }

  function Run(s: System, es: seq<Event>): System
    requires CanRun(s, es)
    decreases es
  {
    if es == [] then s else Run(Apply(s, es[0]), es[1..])
  }

  /** No calls yet and every permit free; the builder refuses limits of zero. */
  predicate Initial(s: System) {
    && s.calls == map[]
    && |s.available| == |s.limits|
    && forall i :: 0 <= i < |s.limits| && s.limits[i].Some? ==> s.available[i] == s.limits[i].value > 0
  }

  // ---- safety ----

  function Holders(s: System, i: nat): set<nat> {
    set c | c in s.calls && i in s.calls[c].held
  }

  function Senders(s: System, i: nat): set<nat> {
    set c | c in s.calls && s.calls[c].phase == Sending(i)
  }

  /** What a call owns follows from what it is doing. */
  predicate Owns(s: System, c: nat)
    requires c in s.calls
  {
    var call := s.calls[c];
    match call.phase
    case Sending(i) => i < |s.limits| && call.held == (if s.limits[i].Some? then {i} else {}) && call.attempts < s.budget
    case Cooling(i) => i < |s.limits| && call.held == (if s.limits[i].Some? then {i} else {}) && call.attempts < s.budget
    case Waiting(i) => i < |s.limits| && call.held == {} && call.attempts < s.budget
    case Choosing => call.held == {} && call.attempts <= s.budget
    case Finished => call.held == {}
  }

  predicate Accounted(s: System, i: nat) {
    i < |s.limits| == |s.available| && s.limits[i].Some? ==>
      s.limits[i].value > 0 && s.available[i] + |Holders(s, i)| == s.limits[i].value
  }

  ghost predicate Invariant(s: System) {
    && |s.available| == |s.limits|
    && (forall c :: c in s.calls ==> Owns(s, c))
    && (forall i :: 0 <= i < |s.limits| ==> Accounted(s, i))
  }

  lemma HoldersAfter(s: System, c: nat, call: CallState, i: nat)
    ensures var s' := s.(calls := s.calls[c := call]);
            |Holders(s', i)| == |Holders(s, i)| - (if c in s.calls && i in s.calls[c].held then 1 else 0)
                                                + (if i in call.held then 1 else 0)
  {
    var s' := s.(calls := s.calls[c := call]);
    var others := Holders(s, i) - {c};
    assert Holders(s', i) == if i in call.held then others + {c} else others;
    assert Holders(s, i) == if c in s.calls && i in s.calls[c].held then others + {c} else others;
  }

  lemma InvariantStep(s: System, e: Event)
    requires Enabled(s, e) && Invariant(s)
    ensures Invariant(Apply(s, e))
  {
    var s' := Apply(s, e);
    forall i | 0 <= i < |s.limits|
      ensures Accounted(s', i)
    {
      assert Accounted(s, i);
      HoldersAfter(s, e.call, s'.calls[e.call], i);
      assert Holders(s', i) == Holders(s.(calls := s.calls[e.call := s'.calls[e.call]]), i);
    }
    forall c | c in s'.calls
      ensures Owns(s', c)
    {
      assert c != e.call ==> Owns(s, c);
      assert e.call in s.calls ==> Owns(s, e.call);
    }
  }

  lemma {:induction false} InvariantHolds(s: System, es: seq<Event>)
    requires CanRun(s, es) && Invariant(s)
    ensures Invariant(Run(s, es)) && Run(s, es).limits == s.limits
    decreases es
  {
    if es != [] {
      InvariantStep(s, es[0]);
      InvariantHolds(Apply(s, es[0]), es[1..]);
    }
  }

  /** In every reachable state the sends in flight stay within each limit, and nobody waits while holding. */
  lemma PermitSafety(s: System, es: seq<Event>)
    requires Initial(s) && CanRun(s, es)
    ensures var s' := Run(s, es);
            && Invariant(s') && s'.limits == s.limits
            && (forall i :: 0 <= i < |s'.limits| && s'.limits[i].Some? ==> |Senders(s', i)| <= s'.limits[i].value)
            && (forall c :: c in s'.calls && s'.calls[c].phase.Waiting? ==> s'.calls[c].held == {})
  {
    forall i | 0 <= i < |s.limits|
      ensures Accounted(s, i)
    {
      assert Holders(s, i) == {};
    }
    InvariantHolds(s, es);
    var s' := Run(s, es);
    forall i | 0 <= i < |s'.limits| && s'.limits[i].Some?
      ensures |Senders(s', i)| <= s'.limits[i].value
    {
      assert Accounted(s', i);
      assert Senders(s', i) <= Holders(s', i) by {
        assert forall c :: c in s'.calls ==> Owns(s', c);
      }
      assert Holders(s', i) == Senders(s', i) + (Holders(s', i) - Senders(s', i));
    }
    assert forall c :: c in s'.calls ==> Owns(s', c);
  }

  /** Call c arrives, asks for endpoint i and gets a permit. */
  function Admitted(s: System, c: nat, i: nat): System
    requires i < |s.limits| && i < |s.available|
  {
    if s.limits[i].Some? then
      s.(calls := s.calls[c := CallState(Sending(i), 0, {i})],
         available := s.available[i := if s.available[i] > 0 then s.available[i] - 1 else 0])
    else s.(calls := s.calls[c := CallState(Sending(i), 0, {})])
  }

  lemma {:induction false} RunJoin(s: System, a: seq<Event>, b: seq<Event>)
    requires CanRun(s, a) && CanRun(Run(s, a), b)
    ensures CanRun(s, a + b) && Run(s, a + b) == Run(Run(s, a), b)
    decreases a
  {
    if a == [] {
      assert a + b == b;
    } else {
      RunJoin(Apply(s, a[0]), a[1..], b);
      assert (a + b)[1..] == a[1..] + b;
    }
  }

  lemma Admit(s: System, c: nat, i: nat)
    requires c !in s.calls && i < |s.limits| == |s.available| && s.budget > 0
    requires s.limits[i].Some? ==> s.available[i] > 0
    ensures CanRun(s, [Arrive(c), Request(c, i), Acquire(c)])
    ensures Run(s, [Arrive(c), Request(c, i), Acquire(c)]) == Admitted(s, c, i)
  {
    var s1 := Apply(s, Arrive(c));
    var s2 := Apply(s1, Request(c, i));
    var s3 := Apply(s2, Acquire(c));
    assert CanRun(s3, []) && Run(s3, []) == s3;
    assert [Acquire(c)][1..] == [] && [Request(c, i), Acquire(c)][1..] == [Acquire(c)];
    assert [Arrive(c), Request(c, i), Acquire(c)][1..] == [Request(c, i), Acquire(c)];
    assert CanRun(s2, [Acquire(c)]) && Run(s2, [Acquire(c)]) == s3;
    assert CanRun(s1, [Request(c, i), Acquire(c)]) && Run(s1, [Request(c, i), Acquire(c)]) == s3;
    var none: set<nat> := {};
    assert none + {i} == {i};
    assert s3.calls[c] == Admitted(s, c, i).calls[c];
    assert s3.calls == Admitted(s, c, i).calls;
  }

  /** The calls 0 to m - 1, and no others, are sending at endpoint i. */
  ghost predicate Filled(s0: System, s: System, i: nat, m: nat)
    requires i < |s0.limits|
  {
    && s.limits == s0.limits && s.budget == s0.budget && |s.available| == |s0.limits|
    && (s0.limits[i].Some? ==> s.available[i] + m == s0.limits[i].value)
    && (forall c :: c in s.calls <==> 0 <= c < m)
    && (forall c :: c in s.calls ==> s.calls[c].phase == Sending(i))
    && |Senders(s, i)| == m
  }

  lemma AdmitFills(s0: System, s: System, i: nat, m: nat)
    requires i < |s0.limits| && Filled(s0, s, i, m) && (s0.limits[i].Some? ==> m < s0.limits[i].value)
    ensures Filled(s0, Admitted(s, m, i), i, m + 1)
  {
    assert Senders(Admitted(s, m, i), i) == Senders(s, i) + {m};
  }

  /** The limit can be used up, and an endpoint without a limit takes any number of sends. */
  lemma {:induction false} LimitIsReached(s: System, i: nat, m: nat) returns (es: seq<Event>)
    requires Initial(s) && i < |s.limits| && s.budget > 0
    requires s.limits[i].Some? ==> m <= s.limits[i].value
    ensures CanRun(s, es) && Filled(s, Run(s, es), i, m)
    decreases m
  {
    if m == 0 {
      es := [];
      assert Senders(s, i) == {};
    } else {
      var before := LimitIsReached(s, i, m - 1);
      var s1 := Run(s, before);
      var more := [Arrive(m - 1), Request(m - 1, i), Acquire(m - 1)];
      Admit(s1, m - 1, i);
      AdmitFills(s, s1, i, m - 1);
      RunJoin(s, before, more);
      es := before + more;
    }
  }

  // ---- progress ----

  /** Steps of the calls themselves, as opposed to arrivals and cancellations. */
  predicate IsProgress(e: Event) {
    !e.Arrive? && !e.Cancel?
  }

  /** As long as a call is unfinished, some call can make a step. */
  lemma DeadlockFreedom(s: System, c: nat) returns (e: Event)
    requires Invariant(s) && c in s.calls && !s.calls[c].phase.Finished?
    ensures Enabled(s, e) && IsProgress(e)
  {
    assert Owns(s, c);
    match s.calls[c].phase
    case Choosing => e := if s.calls[c].attempts < s.budget then PassOver(c) else GiveUp(c);
    case Sending(_) => e := ReplyArrives(c, true);
    case Cooling(_) => e := NextAttempt(c);
    case Waiting(i) =>
      assert Accounted(s, i);
      if s.limits[i].Some? && s.available[i] == 0 {
        var h :| h in Holders(s, i);
        assert Owns(s, h);
        e := if s.calls[h].phase.Sending? then ReplyArrives(h, true) else NextAttempt(h);
      } else {
        e := Acquire(c);
      }
  }

  function Work(budget: nat): CallState -> nat {
    (call: CallState) =>
      match call.phase
      case Finished => 0
      case _ =>
        (if call.attempts <= budget then 4 * (budget - call.attempts) else 0) +
        match call.phase {
          case Choosing => 4
          case Waiting(_) => 3
          case Sending(_) => 2
          case Cooling(_) => 1
          case Finished => 0
        }
  }

  ghost function TotalWork(s: System): nat {
    SumOver(s.calls, Work(s.budget))
  }

  lemma WorkDecreases(s: System, e: Event)
    requires Enabled(s, e) && Invariant(s) && !e.Arrive?
    ensures TotalWork(Apply(s, e)) < TotalWork(s)
  {
    var s' := Apply(s, e);
    assert Owns(s, e.call);
    AfterUpdate(s.calls, Work(s.budget), e.call, s'.calls[e.call]);
    assert s'.calls == s.calls[e.call := s'.calls[e.call]];
  }

  /** Without new arrivals every schedule is finite, so with deadlock freedom every call finishes. */
  lemma {:induction false} SchedulesAreFinite(s: System, es: seq<Event>)
    requires Invariant(s) && CanRun(s, es) && forall k :: 0 <= k < |es| ==> !es[k].Arrive?
    ensures |es| + TotalWork(Run(s, es)) <= TotalWork(s)
    ensures (forall e: Event :: IsProgress(e) ==> !Enabled(Run(s, es), e)) ==>
              forall c :: c in Run(s, es).calls ==> Run(s, es).calls[c].phase.Finished?
    decreases es
  {
    if es != [] {
      assert !es[0].Arrive?;
      WorkDecreases(s, es[0]);
      InvariantStep(s, es[0]);
      SchedulesAreFinite(Apply(s, es[0]), es[1..]);
    } else {
      forall c | c in s.calls && !s.calls[c].phase.Finished?
        ensures exists e: Event :: IsProgress(e) && Enabled(s, e)
      {
        var e := DeadlockFreedom(s, c);
      }
    }
  }
}
