/**
send_batch_with_retry of src/batching.rs: the map from id to waiting request, matching of batch
responses in any order, smaller batches for what is missing, and individual sends at the end.
*/
module BatchRetry {
  import opened Wrappers
  import opened JsonRpc
  import opened Sums

  type Outstanding = map<Id, Pending>

  // ---- building and matching ----

  /** Later requests displace earlier ones with the same id; the displaced ones fail at once. */
  function Collect(chunk: seq<Pending>): (Outstanding, seq<Pending>) {
    if chunk == [] then (map[], [])
    else
      var p := chunk[|chunk| - 1];
      var (o, displaced) := Collect(chunk[..|chunk| - 1]);
      (o[p.request.id := p], if p.request.id in o then displaced + [o[p.request.id]] else displaced)
  }

  /** Every response takes out the request it answers; the others are ignored. */
  function Match(o: Outstanding, responses: seq<Response>): (Outstanding, seq<Resolution>) {
    if responses == [] then (o, [])
    else
      var r := responses[|responses| - 1];
      var (left, delivered) := Match(o, responses[..|responses| - 1]);
      if r.id in left then (left - {r.id}, delivered + [Resolution(left[r.id].slot, Ok(SingleResponse(r)))])
      else (left, delivered)
  }

  function Failures(ps: seq<Pending>, e: Error): seq<Resolution> {
    seq(|ps|, i requires 0 <= i < |ps| => Resolution(ps[i].slot, Err(e)))
  }

  /** The entries of the map in some order. */
  ghost predicate Lists(ps: seq<Pending>, o: Outstanding) {
    if ps == [] then o == map[]
    else
      var p := ps[|ps| - 1];
      p.request.id in o && o[p.request.id] == p && Lists(ps[..|ps| - 1], o - {p.request.id})
  }

  ghost predicate Keyed(o: Outstanding) {
    forall id :: id in o ==> o[id].request.id == id
  }

  lemma {:induction false} CollectKeyed(chunk: seq<Pending>)
    ensures Keyed(Collect(chunk).0)
    ensures forall id :: id in Collect(chunk).0 ==> Collect(chunk).0[id] in chunk
    ensures forall p :: p in Collect(chunk).1 ==> p in chunk
  {
    if chunk != [] {
      CollectKeyed(chunk[..|chunk| - 1]);
    }
  }

  function Copies(ps: seq<Pending>, id: Id): nat {
    if ps == [] then 0
    else Copies(ps[..|ps| - 1], id) + (if ps[|ps| - 1].request.id == id then 1 else 0)
  }

  /** Position i is followed by another request with the same id. */
  ghost predicate Repeated(chunk: seq<Pending>, i: nat)
    requires i < |chunk|
  {
    exists j :: i < j < |chunk| && chunk[j].request.id == chunk[i].request.id
  }

  ghost predicate Distinct(chunk: seq<Pending>) {
    forall i, j :: 0 <= i < j < |chunk| ==> chunk[i] != chunk[j]
  }

  /** A request is repeated by the last one, or was repeated before. */
  lemma RepeatedMore(chunk: seq<Pending>, i: nat)
    requires i < |chunk| - 1
    ensures var k := |chunk| - 1;
            Repeated(chunk, i) <==> Repeated(chunk[..k], i) || chunk[k].request.id == chunk[i].request.id
  {
    var k := |chunk| - 1;
    if Repeated(chunk, i) && chunk[k].request.id != chunk[i].request.id {
      var j :| i < j < |chunk| && chunk[j].request.id == chunk[i].request.id;
      assert chunk[..k][j].request.id == chunk[..k][i].request.id;
    }
    if Repeated(chunk[..k], i) {
      var j :| i < j < k && chunk[..k][j].request.id == chunk[..k][i].request.id;
      assert chunk[j].request.id == chunk[i].request.id;
    }
  }

  lemma {:induction false} LastCopySurvives(chunk: seq<Pending>, i: nat)
    requires i < |chunk|
    ensures var (o, displaced) := Collect(chunk);
            && chunk[i].request.id in o
            && (!Repeated(chunk, i) ==> o[chunk[i].request.id] == chunk[i])
            && (Repeated(chunk, i) ==> chunk[i] in displaced)
  {
    if i < |chunk| - 1 {
      LastCopySurvives(chunk[..|chunk| - 1], i);
      RepeatedMore(chunk, i);
    }
  }

  lemma {:induction false} EarlierCopyIsGone(chunk: seq<Pending>, i: nat)
    requires i < |chunk| && Distinct(chunk)
    ensures var (o, displaced) := Collect(chunk);
            && chunk[i].request.id in o
            && (Repeated(chunk, i) ==> o[chunk[i].request.id] != chunk[i])
            && (!Repeated(chunk, i) ==> chunk[i] !in displaced)
  {
    var k := |chunk| - 1;
    CollectKeyed(chunk[..k]);
    assert chunk[k] !in chunk[..k];
    if i < k {
      EarlierCopyIsGone(chunk[..k], i);
      RepeatedMore(chunk, i);
    }
  }

  lemma OneMoreCopy(ps: seq<Pending>, p: Pending, id: Id)
    ensures Copies(ps + [p], id) == Copies(ps, id) + (if p.request.id == id then 1 else 0)
  {
    assert (ps + [p])[..|ps|] == ps;
  }

  lemma {:induction false} CopiesCounted(chunk: seq<Pending>, id: Id)
    ensures var (o, displaced) := Collect(chunk);
            Copies(chunk, id) == Copies(displaced, id) + (if id in o then 1 else 0)
  {
    if chunk != [] {
      var k := |chunk| - 1;
      CopiesCounted(chunk[..k], id);
      CollectKeyed(chunk[..k]);
      var (o, displaced) := Collect(chunk[..k]);
      if chunk[k].request.id in o {
        OneMoreCopy(displaced, o[chunk[k].request.id], id);
      }
    }
  }

  /** Of k copies of an id the last one survives, and the k - 1 before it are displaced, once each. */
  lemma DuplicatesExactly(chunk: seq<Pending>, i: nat)
    requires i < |chunk| && Distinct(chunk)
    ensures var (o, displaced) := Collect(chunk);
            && chunk[i].request.id in o
            && (chunk[i] in displaced <==> Repeated(chunk, i))
            && (o[chunk[i].request.id] == chunk[i] <==> !Repeated(chunk, i))
            && Copies(displaced, chunk[i].request.id) + 1 == Copies(chunk, chunk[i].request.id)
  {
    LastCopySurvives(chunk, i);
    EarlierCopyIsGone(chunk, i);
    CopiesCounted(chunk, chunk[i].request.id);
  }

  ghost predicate Unanswered(responses: seq<Response>, id: Id) {
    forall i :: 0 <= i < |responses| ==> responses[i].id != id
  }

  lemma {:induction false} MatchLeaves(o: Outstanding, responses: seq<Response>)
    ensures var left := Match(o, responses).0;
            && (forall id :: id in left <==> id in o && Unanswered(responses, id))
            && (forall id :: id in left ==> left[id] == o[id])
  {
    if responses != [] {
      var k := |responses| - 1;
      MatchLeaves(o, responses[..k]);
      forall id | id in o
        ensures Unanswered(responses, id) <==> Unanswered(responses[..k], id) && responses[k].id != id
      {
        assert Unanswered(responses, id) ==> forall i :: 0 <= i < k ==> responses[..k][i].id == responses[i].id;
        assert Unanswered(responses[..k], id) ==> forall i :: 0 <= i < k ==> responses[i].id == responses[..k][i].id != id;
      }
    }
  }

  lemma {:induction false} MatchDelivers(o: Outstanding, responses: seq<Response>)
    ensures forall d :: d in Match(o, responses).1 ==> FirstAnswer(o, responses, d)
  {
    if responses != [] {
      var k := |responses| - 1;
      MatchDelivers(o, responses[..k]);
      MatchLeaves(o, responses[..k]);
      var (left, delivered) := Match(o, responses[..k]);
      forall d | d in Match(o, responses).1
        ensures FirstAnswer(o, responses, d)
      {
        if d in delivered {
          var i :| AnswersFirst(o, responses[..k], d, i);
          assert AnswersFirst(o, responses, d, i);
        } else {
          assert Unanswered(responses[..k], responses[k].id);
          assert forall j :: 0 <= j < k ==> responses[..k][j].id == responses[j].id;
          assert AnswersFirst(o, responses, d, k);
        }
      }
    }
  }

  lemma {:induction false} MatchCounts(o: Outstanding, responses: seq<Response>)
    ensures |Match(o, responses).0| + |Match(o, responses).1| == |o|
  {
    if responses != [] {
      var k := |responses| - 1;
      MatchCounts(o, responses[..k]);
      var left, id := Match(o, responses[..k]).0, responses[k].id;
      if id in left {
        OneFewer(left, id);
      }
    }
  }

  /** What matching leaves and delivers: the first response of each outstanding id, and nothing else. */
  lemma MatchExactly(o: Outstanding, responses: seq<Response>)
    ensures var (left, delivered) := Match(o, responses);
            && (forall id :: id in left <==> id in o && Unanswered(responses, id))
            && (forall id :: id in left ==> left[id] == o[id])
            && (forall d :: d in delivered ==> FirstAnswer(o, responses, d))
            && |left| + |delivered| == |o|
  {
    MatchLeaves(o, responses);
    MatchDelivers(o, responses);
    MatchCounts(o, responses);
  }

  ghost predicate FirstAnswer(o: Outstanding, responses: seq<Response>, d: Resolution) {
    exists i :: AnswersFirst(o, responses, d, i)
  }

  ghost predicate AnswersFirst(o: Outstanding, responses: seq<Response>, d: Resolution, i: nat) {
    && i < |responses|
    && responses[i].id in o && d == Resolution(o[responses[i].id].slot, Ok(SingleResponse(responses[i])))
    && forall j :: 0 <= j < i ==> responses[j].id != responses[i].id
  }

  // ---- conservation: weights of slots ----

  function OfSlot(w: nat -> nat): Pending -> nat {
    (p: Pending) => w(p.slot)
  }

  function OfResolution(w: nat -> nat): Resolution -> nat {
    (r: Resolution) => w(r.slot)
  }

  ghost function Weight(ps: seq<Pending>, w: nat -> nat): nat {
    SeqSum(ps, OfSlot(w))
  }

  ghost function LogWeight(rs: seq<Resolution>, w: nat -> nat): nat {
    SeqSum(rs, OfResolution(w))
  }

  lemma FailuresWeight(ps: seq<Pending>, e: Error, w: nat -> nat)
    ensures LogWeight(Failures(ps, e), w) == Weight(ps, w)
  {
    SeqSumSame(Failures(ps, e), OfResolution(w), ps, OfSlot(w));
  }

  /** Building the map loses no slot: each is outstanding or displaced. */
  lemma {:induction false} CollectConserves(chunk: seq<Pending>, w: nat -> nat)
    ensures SumOver(Collect(chunk).0, OfSlot(w)) + Weight(Collect(chunk).1, w) == Weight(chunk, w)
  {
    if chunk != [] {
      var k := |chunk| - 1;
      CollectConserves(chunk[..k], w);
      var (o, displaced) := Collect(chunk[..k]);
      var p := chunk[k];
      AfterUpdate(o, OfSlot(w), p.request.id, p);
      if p.request.id in o {
        assert (displaced + [o[p.request.id]])[..|displaced|] == displaced;
      }
    }
  }

  /** Matching loses no slot: each is still outstanding or has been answered. */
  lemma {:induction false} MatchConserves(o: Outstanding, responses: seq<Response>, w: nat -> nat)
    ensures SumOver(Match(o, responses).0, OfSlot(w)) + LogWeight(Match(o, responses).1, w) == SumOver(o, OfSlot(w))
  {
    if responses != [] {
      var k := |responses| - 1;
      MatchConserves(o, responses[..k], w);
      var (left, delivered) := Match(o, responses[..k]);
      var r := responses[k];
      if r.id in left {
        AnyOrder(left, OfSlot(w), r.id);
        var d := Resolution(left[r.id].slot, Ok(SingleResponse(r)));
        assert (delivered + [d])[..|delivered|] == delivered;
      }
    }
  }

  /** A listing names every entry of the map once, and nothing else. */
  lemma {:induction false} ListsExactly(ps: seq<Pending>, o: Outstanding)
    requires Lists(ps, o)
    ensures |ps| == |o|
    ensures forall p :: p in ps ==> p.request.id in o && o[p.request.id] == p
    ensures forall id :: id in o ==> o[id] in ps
  {
    if ps != [] {
      var p := ps[|ps| - 1];
      ListsExactly(ps[..|ps| - 1], o - {p.request.id});
      OneFewer(o, p.request.id);
      assert ps == ps[..|ps| - 1] + [p];
      forall id | id in o
        ensures o[id] in ps
      {
        assert id != p.request.id ==> (o - {p.request.id})[id] in ps[..|ps| - 1];
      }
    }
  }

  lemma {:induction false} ListsConserves(ps: seq<Pending>, o: Outstanding, w: nat -> nat)
    requires Lists(ps, o)
    ensures Weight(ps, w) == SumOver(o, OfSlot(w))
  {
    if ps != [] {
      var p := ps[|ps| - 1];
      ListsConserves(ps[..|ps| - 1], o - {p.request.id}, w);
      AnyOrder(o, OfSlot(w), p.request.id);
    }
  }

  // ---- the retry loop ----

  /** What is outstanding, and what has been delivered, after the first n batch replies. */
  function After(o: Outstanding, net: nat -> Answer, n: nat): (Outstanding, seq<Resolution>) {
    if n == 0 then (o, [])
    else
      var (left, delivered) := After(o, net, n - 1);
      if net(n - 1).Err? then (left, delivered)
      else
        var (left', more) := Match(left, net(n - 1).packet.Responses());
        (left', delivered + more)
  }

  datatype Ending = AllDelivered | LastResort | Rejected | BatchError(cause: Error)

  /** What one batch did: its batch calls, what it resolved, what it sent one by one, and how it ended. */
  datatype Trace = Trace(
    batches: seq<Outstanding>,
    displaced: seq<Pending>,
    resolved: seq<Resolution>,
    individuals: seq<Pending>,
    callbacks: nat,
    ending: Ending)

  /** The requests that keep the loop going: a reply that delivered some but not all. */
  ghost predicate KeepsGoing(o: Outstanding, net: nat -> Answer, n: nat) {
    && net(n).Ok?
    && After(o, net, n + 1).0 != map[]
    && |After(o, net, n + 1).0| < |After(o, net, n).0|
  }

  /** The batch calls so far, each with what was then outstanding. */
  ghost predicate Called(o: Outstanding, net: nat -> Answer, batches: seq<Outstanding>) {
    batches == [] ||
    (var k := |batches| - 1;
     && Called(o, net, batches[..k])
     && batches[k] == After(o, net, k).0 != map[]
     && (k > 0 ==> KeepsGoing(o, net, k - 1)))
  }

  lemma {:induction false} CalledWith(o: Outstanding, net: nat -> Answer, batches: seq<Outstanding>, j: nat)
    requires Called(o, net, batches) && j < |batches|
    ensures batches[j] == After(o, net, j).0 != map[]
    ensures j < |batches| - 1 ==> KeepsGoing(o, net, j)
  {
    var k := |batches| - 1;
    if j < k {
      CalledWith(o, net, batches[..k], j);
    }
  }

  /** Everything has been delivered: nothing was left before an attempt, or after a reply. */
  ghost predicate EndsDelivered(o: Outstanding, net: nat -> Answer, t: Trace) {
    var (left, delivered) := After(o, net, |t.batches|);
    && left == map[] && (t.batches != [] ==> net(|t.batches| - 1).Ok?)
    && t.resolved == delivered && t.individuals == [] && t.callbacks == 0
  }

  /** The last attempt sends what is left one by one. */
  ghost predicate EndsIndividually(o: Outstanding, maxRetries: nat, net: nat -> Answer, t: Trace) {
    var (left, delivered) := After(o, net, |t.batches|);
    && left != map[] && |t.batches| == maxRetries
    && (t.batches != [] ==> KeepsGoing(o, net, |t.batches| - 1))
    && t.resolved == delivered && Lists(t.individuals, left) && t.callbacks == 0
  }

  /** A reply has matched nothing: the callback runs, and what is left is sent one by one. */
  ghost predicate EndsRejected(o: Outstanding, net: nat -> Answer, t: Trace) {
    var n := |t.batches|;
    var (left, delivered) := After(o, net, n);
    && left != map[] && n > 0 && net(n - 1).Ok? && |left| == |After(o, net, n - 1).0|
    && t.resolved == delivered && Lists(t.individuals, left) && t.callbacks == 1
  }

  /** A batch call has failed, and with it everything that is left. */
  ghost predicate EndsFailed(o: Outstanding, net: nat -> Answer, t: Trace, cause: Error) {
    var n := |t.batches|;
    var (left, delivered) := After(o, net, n);
    && left != map[] && n > 0 && net(n - 1) == Err(cause)
    && (exists ps :: Lists(ps, left) && t.resolved == delivered + Failures(ps, BatchFailed(cause)))
    && t.individuals == [] && t.callbacks == 0
  }

  /** How the loop ends after its batch calls, and what that resolves and hands to individual sends. */
  ghost predicate Ends(o: Outstanding, maxRetries: nat, net: nat -> Answer, t: Trace) {
    || (t.ending.AllDelivered? && EndsDelivered(o, net, t))
    || (t.ending.LastResort? && EndsIndividually(o, maxRetries, net, t))
    || (t.ending.Rejected? && EndsRejected(o, net, t))
    || (t.ending.BatchError? && EndsFailed(o, net, t, t.ending.cause))
  }

  /** The trace follows from the chunk and the replies; only the order within a map is open. */
  ghost predicate Follows(chunk: seq<Pending>, maxRetries: nat, net: nat -> Answer, t: Trace) {
    var (o, displaced) := Collect(chunk);
    && t.displaced == displaced
    && |t.batches| <= maxRetries
    && Called(o, net, t.batches)
    && Ends(o, maxRetries, net, t)
  }

  /** The values of a map in whatever order the hash iteration yields. */
  method ListEntries(o: Outstanding) returns (ps: seq<Pending>)
    requires Keyed(o)
    ensures Lists(ps, o)
  {
    var rest := o;
    ps := [];
    ghost var taken: Outstanding := map[];
    while rest != map[]
      invariant Lists(ps, taken) && Splits(o, taken, rest)
      decreases |rest|
    {
      var id :| id in rest;
      var p := rest[id];
      SplitsMore(o, taken, rest, id);
      ListsMore(ps, taken, p);
      ps := ps + [p];
      taken := taken[id := p];
      rest := rest - {id};
    }
    assert taken == o;
  }

  /** The entries of o are divided between two maps. */
  ghost predicate Splits(o: Outstanding, taken: Outstanding, rest: Outstanding) {
    && (forall id :: id in o <==> id in taken || id in rest)
    && (forall id :: id in taken ==> id !in rest && o[id] == taken[id])
    && (forall id :: id in rest ==> o[id] == rest[id])
  }

  lemma SplitsMore(o: Outstanding, taken: Outstanding, rest: Outstanding, id: Id)
    requires Keyed(o) && Splits(o, taken, rest) && id in rest
    ensures Splits(o, taken[id := rest[id]], rest - {id}) && id !in taken
    ensures rest[id].request.id == id && |rest - {id}| < |rest|
  {
    OneFewer(rest, id);
  }

  lemma ListsMore(ps: seq<Pending>, o: Outstanding, p: Pending)
    requires Lists(ps, o) && p.request.id !in o
    ensures Lists(ps + [p], o[p.request.id := p])
  {
    assert (ps + [p])[..|ps|] == ps;
    assert o[p.request.id := p] - {p.request.id} == o;
  }

  /** The loop stands before its next attempt. */
  ghost predicate AtHead(o: Outstanding, net: nat -> Answer, batches: seq<Outstanding>,
                         outstanding: Outstanding, resolved: seq<Resolution>) {
    && Called(o, net, batches)
    && (batches != [] ==> KeepsGoing(o, net, |batches| - 1))
    && (outstanding, resolved) == After(o, net, |batches|)
    && Keyed(outstanding)
  }

  lemma CallMore(o: Outstanding, net: nat -> Answer, batches: seq<Outstanding>,
                 outstanding: Outstanding, resolved: seq<Resolution>)
    requires AtHead(o, net, batches, outstanding, resolved) && outstanding != map[]
    ensures Called(o, net, batches + [outstanding])
  {
    assert (batches + [outstanding])[..|batches|] == batches;
  }

  /** A failed batch call ends the loop. */
  lemma CallFails(pending: seq<Pending>, maxRetries: nat, net: nat -> Answer, batches: seq<Outstanding>,
                  outstanding: Outstanding, resolved: seq<Resolution>, rest: seq<Pending>, cause: Error)
    requires AtHead(Collect(pending).0, net, batches, outstanding, resolved) && outstanding != map[]
    requires |batches| < maxRetries && net(|batches|) == Err(cause) && Lists(rest, outstanding)
    ensures Follows(pending, maxRetries, net,
                    Trace(batches + [outstanding], Collect(pending).1, resolved + Failures(rest, BatchFailed(cause)), [], 0,
                          BatchError(cause)))
  {
    var o := Collect(pending).0;
    CallMore(o, net, batches, outstanding, resolved);
    assert After(o, net, |batches| + 1) == (outstanding, resolved);
  }

  /** A reply that delivers everything ends it too. */
  lemma CallDelivers(pending: seq<Pending>, maxRetries: nat, net: nat -> Answer, batches: seq<Outstanding>,
                     outstanding: Outstanding, resolved: seq<Resolution>, log: seq<Resolution>)
    requires AtHead(Collect(pending).0, net, batches, outstanding, resolved) && outstanding != map[]
    requires |batches| < maxRetries && net(|batches|).Ok?
    requires After(Collect(pending).0, net, |batches| + 1) == (map[], log)
    ensures Follows(pending, maxRetries, net, Trace(batches + [outstanding], Collect(pending).1, log, [], 0, AllDelivered))
  {
    CallMore(Collect(pending).0, net, batches, outstanding, resolved);
  }

  /** So does a reply that matches nothing. */
  lemma CallRejected(pending: seq<Pending>, maxRetries: nat, net: nat -> Answer, batches: seq<Outstanding>,
                     outstanding: Outstanding, resolved: seq<Resolution>, rest: seq<Pending>, left: Outstanding,
                     log: seq<Resolution>)
    requires AtHead(Collect(pending).0, net, batches, outstanding, resolved) && outstanding != map[]
    requires |batches| < maxRetries && net(|batches|).Ok? && Lists(rest, left)
    requires After(Collect(pending).0, net, |batches| + 1) == (left, log) && left != map[] && |left| == |outstanding|
    ensures Follows(pending, maxRetries, net, Trace(batches + [outstanding], Collect(pending).1, log, rest, 1, Rejected))
  {
    CallMore(Collect(pending).0, net, batches, outstanding, resolved);
    var t := Trace(batches + [outstanding], Collect(pending).1, log, rest, 1, Rejected);
    assert |t.batches| == |batches| + 1;
    assert EndsRejected(Collect(pending).0, net, t);
  }

  /** One batch call and what its reply does: end the loop with a trace, or go on to the next attempt. */
  method SendOneBatch(outstanding: Outstanding, resolved: seq<Resolution>, batches: seq<Outstanding>,
                      displaced: seq<Pending>, net: nat -> Answer,
                      ghost pending: seq<Pending>, ghost maxRetries: nat)
    returns (left: Outstanding, log: seq<Resolution>, end: Option<Trace>)
    requires displaced == Collect(pending).1 && outstanding != map[] && |batches| < maxRetries
    requires AtHead(Collect(pending).0, net, batches, outstanding, resolved)
    ensures end == None ==> AtHead(Collect(pending).0, net, batches + [outstanding], left, log)
    ensures end.Some? ==> Follows(pending, maxRetries, net, end.value)
  {
    ghost var o := Collect(pending).0;
    var attempt, sent := |batches|, batches + [outstanding];
    if net(attempt).Err? {
      var cause := net(attempt).error;
      var rest := ListEntries(outstanding);
      CallFails(pending, maxRetries, net, batches, outstanding, resolved, rest, cause);
      end := Some(Trace(sent, displaced, resolved + Failures(rest, BatchFailed(cause)), [], 0, BatchError(cause)));
      return outstanding, resolved, end;
    }
    left, log := MatchResponses(outstanding, resolved, net(attempt).packet.Responses());
    if left == map[] {
      CallDelivers(pending, maxRetries, net, batches, outstanding, resolved, log);
      return left, log, Some(Trace(sent, displaced, log, [], 0, AllDelivered));
    }
    if |outstanding| - |left| == 0 {
      var rest := ListEntries(left);
      CallRejected(pending, maxRetries, net, batches, outstanding, resolved, rest, left, log);
      return left, log, Some(Trace(sent, displaced, log, rest, 1, Rejected));
    }
    CallMore(o, net, batches, outstanding, resolved);
    assert KeepsGoing(o, net, attempt);
    end := None;
  }

  /** One whole chunk: collect, batch, match, retry what is missing, and send the rest one by one. */
  method SendBatchWithRetry(pending: seq<Pending>, maxRetries: nat, net: nat -> Answer) returns (t: Trace)
    ensures Follows(pending, maxRetries, net, t)
  {
    var outstanding, displaced := CollectPending(pending);
    ghost var o := outstanding;
    CollectKeyed(pending);
    var batches, resolved := [], [];
    for attempt := 0 to maxRetries + 1
      invariant attempt <= maxRetries && |batches| == attempt
      invariant AtHead(o, net, batches, outstanding, resolved)
    {
      if outstanding == map[] {
        t := Trace(batches, displaced, resolved, [], 0, AllDelivered);
        assert EndsDelivered(o, net, t);
        return;
      }
      if attempt == maxRetries {
        var rest := ListEntries(outstanding);
        t := Trace(batches, displaced, resolved, rest, 0, LastResort);
        assert EndsIndividually(o, maxRetries, net, t);
        return;
      }
      var left, log, end := SendOneBatch(outstanding, resolved, batches, displaced, net, pending, maxRetries);
      if end.Some? {
        return end.value;
      }
      batches := batches + [outstanding];
      outstanding, resolved := left, log;
    }
    assert false;
  }

  method CollectPending(pending: seq<Pending>) returns (outstanding: Outstanding, displaced: seq<Pending>)
    ensures (outstanding, displaced) == Collect(pending)
  {
    outstanding, displaced := map[], [];
    for i := 0 to |pending|
      invariant (outstanding, displaced) == Collect(pending[..i])
    {
      var p := pending[i];
      assert pending[..i + 1][..i] == pending[..i];
      if p.request.id in outstanding {
        displaced := displaced + [outstanding[p.request.id]];
      }
      outstanding := outstanding[p.request.id := p];
    }
    assert pending[..|pending|] == pending;
  }

  /** Each response of a batch is matched by id; the answers go out in the order of the responses. */
  method MatchResponses(outstanding: Outstanding, resolved: seq<Resolution>, responses: seq<Response>)
    returns (left: Outstanding, log: seq<Resolution>)
    requires Keyed(outstanding)
    ensures left == Match(outstanding, responses).0 && log == resolved + Match(outstanding, responses).1
    ensures Keyed(left) && |left| <= |outstanding|
  {
    left, log := outstanding, resolved;
    for j := 0 to |responses|
      invariant left == Match(outstanding, responses[..j]).0 && log == resolved + Match(outstanding, responses[..j]).1
      invariant Keyed(left)
    {
      var response := responses[j];
      assert responses[..j + 1][..j] == responses[..j];
      if response.id in left {
        log := log + [Resolution(left[response.id].slot, Ok(SingleResponse(response)))];
        left := left - {response.id};
      }
    }
    assert responses[..|responses|] == responses;
    MatchExactly(outstanding, responses);
  }

  // ---- consequences ----

  /** A reply that keeps the loop going shrinks the map to a proper part of itself. */
  lemma {:induction false} AfterShrinks(o: Outstanding, net: nat -> Answer, i: nat, n: nat)
    requires i <= n
    ensures After(o, net, n).0.Keys <= After(o, net, i).0.Keys
    ensures forall id :: id in After(o, net, n).0 ==> After(o, net, n).0[id] == After(o, net, i).0[id]
    ensures |After(o, net, n).0| <= |After(o, net, i).0|
    ensures After(o, net, i).1 <= After(o, net, n).1
  {
    if i < n {
      AfterShrinks(o, net, i, n - 1);
      if net(n - 1).Ok? {
        MatchExactly(After(o, net, n - 1).0, net(n - 1).packet.Responses());
      }
    }
  }

  lemma ProperPart(a: Outstanding, b: Outstanding)
    requires a.Keys <= b.Keys && |a| < |b|
    ensures a.Keys < b.Keys
  {
    assert |a.Keys| == |a| && |b.Keys| == |b|;
    assert a.Keys != b.Keys;
  }

  /** The first n replies all kept the loop going. */
  ghost predicate KeptGoing(o: Outstanding, net: nat -> Answer, n: nat) {
    n == 0 || (KeptGoing(o, net, n - 1) && KeepsGoing(o, net, n - 1))
  }

  lemma {:induction false} SizeAfter(o: Outstanding, net: nat -> Answer, n: nat)
    requires KeptGoing(o, net, n)
    ensures |After(o, net, n).0| + n <= |o|
  {
    if n > 0 {
      SizeAfter(o, net, n - 1);
    }
  }

  lemma {:induction false} CalledKeptGoing(o: Outstanding, net: nat -> Answer, batches: seq<Outstanding>)
    requires Called(o, net, batches) && batches != []
    ensures KeptGoing(o, net, |batches| - 1)
    ensures batches[|batches| - 1] == After(o, net, |batches| - 1).0 != map[]
  {
    if |batches| > 1 {
      CalledKeptGoing(o, net, batches[..|batches| - 1]);
    }
  }

  lemma CallsAreFew(o: Outstanding, net: nat -> Answer, batches: seq<Outstanding>)
    requires Called(o, net, batches)
    ensures |batches| <= |o|
  {
    if batches != [] {
      CalledKeptGoing(o, net, batches);
      SizeAfter(o, net, |batches| - 1);
    }
  }

  /** There are at most min(maxRetries, distinct ids) batch calls. */
  lemma FewBatchCalls(chunk: seq<Pending>, maxRetries: nat, net: nat -> Answer, t: Trace)
    requires Follows(chunk, maxRetries, net, t)
    ensures |t.batches| <= maxRetries && |t.batches| <= |Collect(chunk).0|
  {
    CallsAreFew(Collect(chunk).0, net, t.batches);
  }

  /** Each batch call carries strictly fewer ids than every batch call before it. */
  lemma BatchesShrink(chunk: seq<Pending>, maxRetries: nat, net: nat -> Answer, t: Trace, i: nat, j: nat)
    requires Follows(chunk, maxRetries, net, t) && i < j < |t.batches|
    ensures t.batches[j].Keys < t.batches[i].Keys
  {
    var o := Collect(chunk).0;
    CalledWith(o, net, t.batches, i);
    CalledWith(o, net, t.batches, j);
    LaterIsSmaller(o, net, i, j);
  }

  lemma LaterIsSmaller(o: Outstanding, net: nat -> Answer, i: nat, j: nat)
    requires i < j && KeepsGoing(o, net, i)
    ensures After(o, net, j).0.Keys < After(o, net, i).0.Keys
  {
    AfterShrinks(o, net, i, i + 1);
    AfterShrinks(o, net, i + 1, j);
    ProperPart(After(o, net, i + 1).0, After(o, net, i).0);
  }

  /** The rejection callback fires once if the last batch call was answered without any match, else never. */
  lemma CallbackExactly(chunk: seq<Pending>, maxRetries: nat, net: nat -> Answer, t: Trace)
    requires Follows(chunk, maxRetries, net, t)
    ensures t.callbacks ==
            if |t.batches| > 0 && net(|t.batches| - 1).Ok?
               && Match(t.batches[|t.batches| - 1], net(|t.batches| - 1).packet.Responses()).1 == []
            then 1 else 0
  {
    var o, n := Collect(chunk).0, |t.batches|;
    if n > 0 {
      var last := t.batches[n - 1];
      CalledWith(o, net, t.batches, n - 1);
      if net(n - 1).Ok? {
        MatchCounts(last, net(n - 1).packet.Responses());
      }
    }
  }

  /** After the batch calls each request that is still open is sent on its own exactly once, and only then. */
  lemma IndividualsExactly(chunk: seq<Pending>, maxRetries: nat, net: nat -> Answer, t: Trace)
    requires Follows(chunk, maxRetries, net, t)
    ensures t.ending.LastResort? || t.ending.Rejected? <==> t.individuals != []
    ensures t.individuals != [] ==> Lists(t.individuals, After(Collect(chunk).0, net, |t.batches|).0)
    ensures forall i :: 0 <= i < |t.batches| && t.individuals != [] ==>
              forall p :: p in t.individuals ==> p.request.id in t.batches[i] && t.batches[i][p.request.id] == p
  {
    var o, n := Collect(chunk).0, |t.batches|;
    var left := After(o, net, n).0;
    if t.individuals != [] {
      ListsExactly(t.individuals, left);
      forall i | 0 <= i < n
        ensures forall p :: p in t.individuals ==> p.request.id in t.batches[i] && t.batches[i][p.request.id] == p
      {
        AfterShrinks(o, net, i, n);
        CalledWith(o, net, t.batches, i);
      }
    }
  }

  lemma StaysAnswered(o: Outstanding, net: nat -> Answer, i: nat, n: nat, id: Id)
    requires i <= n && id !in After(o, net, i).0
    ensures id !in After(o, net, n).0
  {
    AfterShrinks(o, net, i, n);
  }

  /** What a reply has answered is in no later batch call and not among the individual sends. */
  lemma AnsweredIsNotSentAgain(chunk: seq<Pending>, maxRetries: nat, net: nat -> Answer, t: Trace, i: nat, id: Id)
    requires Follows(chunk, maxRetries, net, t) && i < |t.batches|
    requires id in t.batches[i] && id !in After(Collect(chunk).0, net, i + 1).0
    ensures forall j :: i < j < |t.batches| ==> id !in t.batches[j]
    ensures Copies(t.individuals, id) == 0
  {
    var o, n := Collect(chunk).0, |t.batches|;
    forall j | i < j < n
      ensures id !in t.batches[j]
    {
      StaysAnswered(o, net, i + 1, j, id);
      CalledWith(o, net, t.batches, j);
    }
    NotSentAgain(o, maxRetries, net, t, i, id);
  }

  /** The batch calls that carried an id. */
  function TimesInBatches(batches: seq<Outstanding>, id: Id): (n: nat)
    ensures n <= |batches|
    ensures n == |batches| <==> forall i :: 0 <= i < |batches| ==> id in batches[i]
  {
    if batches == [] then 0
    else TimesInBatches(batches[..|batches| - 1], id) + (if id in batches[|batches| - 1] then 1 else 0)
  }

  lemma {:induction false} ListedOnce(ps: seq<Pending>, o: Outstanding, id: Id)
    requires Lists(ps, o)
    ensures Copies(ps, id) == if id in o then 1 else 0
  {
    if ps != [] {
      ListedOnce(ps[..|ps| - 1], o - {ps[|ps| - 1].request.id}, id);
    }
  }

  /** One request is sent at most maxRetries + 1 times: in batch calls, and at most once on its own. */
  lemma SendsPerRequest(chunk: seq<Pending>, maxRetries: nat, net: nat -> Answer, t: Trace, id: Id)
    requires Follows(chunk, maxRetries, net, t)
    ensures Copies(t.individuals, id) <= 1
    ensures TimesInBatches(t.batches, id) + Copies(t.individuals, id) <= maxRetries + 1
    ensures id !in Collect(chunk).0 ==> Copies(t.individuals, id) == 0
  {
    var left := After(Collect(chunk).0, net, |t.batches|).0;
    AfterShrinks(Collect(chunk).0, net, 0, |t.batches|);
    if t.individuals != [] {
      ListedOnce(t.individuals, left, id);
    }
  }

  // ---- who gets what, reply by reply ----

  /** The answer carries a response with this id. */
  ghost predicate Names(answer: Answer, id: Id) {
    exists rs, i :: FirstNamed(answer, id, rs, i)
  }

  /** The answer carries rs, and the response at i is the first one with this id. */
  ghost predicate FirstNamed(answer: Answer, id: Id, rs: seq<Response>, i: nat) {
    Carries(answer, rs) && i < |rs| && rs[i].id == id && forall j :: 0 <= j < i ==> rs[j].id != id
  }

  lemma {:induction false} FirstWithId(responses: seq<Response>, id: Id) returns (i: nat)
    requires !Unanswered(responses, id)
    ensures i < |responses| && responses[i].id == id && forall j :: 0 <= j < i ==> responses[j].id != id
  {
    var k := |responses| - 1;
    if Unanswered(responses[..k], id) {
      i := k;
      assert forall j :: 0 <= j < k ==> responses[j] == responses[..k][j];
    } else {
      i := FirstWithId(responses[..k], id);
      assert forall j :: 0 <= j < k ==> responses[j] == responses[..k][j];
    }
  }

  lemma NamesExactly(packet: ResponsePacket, id: Id)
    ensures Names(Ok(packet), id) <==> !Unanswered(packet.Responses(), id)
  {
    CarriesExactly(packet, packet.Responses());
    if !Unanswered(packet.Responses(), id) {
      var i := FirstWithId(packet.Responses(), id);
      assert FirstNamed(Ok(packet), id, packet.Responses(), i);
    }
    if rs, i :| FirstNamed(Ok(packet), id, rs, i) {
      CarriesExactly(packet, rs);
    }
  }

  /** The first response with an outstanding id is delivered. */
  lemma {:induction false} MatchAnswers(o: Outstanding, responses: seq<Response>, i: nat)
    requires i < |responses| && responses[i].id in o && forall j :: 0 <= j < i ==> responses[j].id != responses[i].id
    ensures Resolution(o[responses[i].id].slot, Ok(SingleResponse(responses[i]))) in Match(o, responses).1
  {
    var k := |responses| - 1;
    assert forall j :: 0 <= j < k ==> responses[..k][j] == responses[j];
    if i < k {
      MatchAnswers(o, responses[..k], i);
    } else {
      MatchLeaves(o, responses[..k]);
      assert Unanswered(responses[..k], responses[i].id);
    }
  }

  /** Outstanding after n replies is what none of them names. */
  lemma {:induction false} AfterExactly(o: Outstanding, net: nat -> Answer, n: nat, id: Id)
    ensures id in After(o, net, n).0 <==> id in o && forall m :: 0 <= m < n ==> !Names(net(m), id)
    ensures id in After(o, net, n).0 ==> After(o, net, n).0[id] == o[id]
  {
    if n > 0 {
      AfterExactly(o, net, n - 1, id);
      if net(n - 1).Ok? {
        MatchLeaves(After(o, net, n - 1).0, net(n - 1).packet.Responses());
        NamesExactly(net(n - 1).packet, id);
      }
    }
  }

  lemma DeliveredBy(o: Outstanding, net: nat -> Answer, m: nat, id: Id, rs: seq<Response>, i: nat)
    requires id in o && FirstNamed(net(m), id, rs, i) && forall l :: 0 <= l < m ==> !Names(net(l), id)
    ensures Resolution(o[id].slot, Ok(SingleResponse(rs[i]))) in After(o, net, m + 1).1
    ensures id !in After(o, net, m + 1).0
  {
    AfterExactly(o, net, m, id);
    AfterExactly(o, net, m + 1, id);
    CarriesExactly(net(m).packet, rs);
    MatchAnswers(After(o, net, m).0, rs, i);
  }

  /** Whatever the ending, the answers delivered so far stand. */
  lemma DeliveredStands(o: Outstanding, maxRetries: nat, net: nat -> Answer, t: Trace)
    requires Ends(o, maxRetries, net, t)
    ensures After(o, net, |t.batches|).1 <= t.resolved
    ensures t.individuals != [] ==> Lists(t.individuals, After(o, net, |t.batches|).0)
  {
  }

  lemma AnswerStands(o: Outstanding, maxRetries: nat, net: nat -> Answer, t: Trace, m: nat, r: Resolution)
    requires Ends(o, maxRetries, net, t) && m < |t.batches| && r in After(o, net, m + 1).1
    ensures r in t.resolved
  {
    AfterShrinks(o, net, m + 1, |t.batches|);
    DeliveredStands(o, maxRetries, net, t);
  }

  lemma NotSentAgain(o: Outstanding, maxRetries: nat, net: nat -> Answer, t: Trace, m: nat, id: Id)
    requires Ends(o, maxRetries, net, t) && m < |t.batches| && id !in After(o, net, m + 1).0
    ensures Copies(t.individuals, id) == 0
  {
    DeliveredStands(o, maxRetries, net, t);
    if t.individuals != [] {
      StaysAnswered(o, net, m + 1, |t.batches|, id);
      ListedOnce(t.individuals, After(o, net, |t.batches|).0, id);
    }
  }

  /** The first reply that names a request answers it, with its first response of that id. */
  lemma AnsweredExactly(chunk: seq<Pending>, maxRetries: nat, net: nat -> Answer, t: Trace,
                        m: nat, id: Id, rs: seq<Response>, i: nat)
    requires Follows(chunk, maxRetries, net, t) && id in Collect(chunk).0 && m < |t.batches|
    requires FirstNamed(net(m), id, rs, i) && forall l :: 0 <= l < m ==> !Names(net(l), id)
    ensures Resolution(Collect(chunk).0[id].slot, Ok(SingleResponse(rs[i]))) in t.resolved
    ensures Copies(t.individuals, id) == 0
  {
    var o := Collect(chunk).0;
    DeliveredBy(o, net, m, id, rs, i);
    AnswerStands(o, maxRetries, net, t, m, Resolution(o[id].slot, Ok(SingleResponse(rs[i]))));
    NotSentAgain(o, maxRetries, net, t, m, id);
  }

  /** A request that no reply names fails with the failed batch, or is sent individually. */
  lemma UnansweredExactly(chunk: seq<Pending>, maxRetries: nat, net: nat -> Answer, t: Trace, id: Id)
    requires Follows(chunk, maxRetries, net, t) && id in Collect(chunk).0
    requires forall m :: 0 <= m < |t.batches| ==> !Names(net(m), id)
    ensures var p := Collect(chunk).0[id];
            if t.batches != [] && net(|t.batches| - 1).Err?
            then Resolution(p.slot, Err(BatchFailed(net(|t.batches| - 1).error))) in t.resolved && t.individuals == []
            else p in t.individuals
  {
    var o, n := Collect(chunk).0, |t.batches|;
    AfterExactly(o, net, n, id);
    var left, p := After(o, net, n).0, o[id];
    if t.ending.BatchError? {
      var ps :| Lists(ps, left) && t.resolved == After(o, net, n).1 + Failures(ps, BatchFailed(t.ending.cause));
      ListsExactly(ps, left);
      FailureOf(ps, BatchFailed(t.ending.cause), p);
    } else {
      ListsExactly(t.individuals, left);
    }
  }

  lemma FailureOf(ps: seq<Pending>, e: Error, p: Pending)
    requires p in ps
    ensures Resolution(p.slot, Err(e)) in Failures(ps, e)
  {
    var i :| 0 <= i < |ps| && ps[i] == p;
    assert Failures(ps, e)[i] == Resolution(p.slot, Err(e));
  }

  /**
  A first reply that names every request ends it all: one batch call, no callback, no individual
  send, and each request gets the first response with its id.
  */
  lemma FirstReplyDelivers(chunk: seq<Pending>, maxRetries: nat, net: nat -> Answer, t: Trace, rs: seq<Response>)
    requires Follows(chunk, maxRetries, net, t) && chunk != [] && maxRetries >= 1
    requires net(0) == Ok(BatchResponse(rs)) || (|rs| == 1 && net(0) == Ok(SingleResponse(rs[0])))
    requires forall id :: id in Collect(chunk).0 ==> exists i :: 0 <= i < |rs| && rs[i].id == id
    ensures t.ending == AllDelivered && |t.batches| == 1 && t.callbacks == 0 && t.individuals == []
    ensures forall id, i :: id in Collect(chunk).0 && 0 <= i < |rs| && rs[i].id == id
                            && (forall j :: 0 <= j < i ==> rs[j].id != id) ==>
              Resolution(Collect(chunk).0[id].slot, Ok(SingleResponse(rs[i]))) in t.resolved
  {
    var o := Collect(chunk).0;
    LastCopySurvives(chunk, 0);
    AllNamed(o, net, rs);
    if |t.batches| >= 2 {
      CalledWith(o, net, t.batches, 1);
    }
    forall id, i | id in o && 0 <= i < |rs| && rs[i].id == id && (forall j :: 0 <= j < i ==> rs[j].id != id)
      ensures Resolution(o[id].slot, Ok(SingleResponse(rs[i]))) in t.resolved
    {
      assert FirstNamed(net(0), id, rs, i);
      AnsweredExactly(chunk, maxRetries, net, t, 0, id, rs, i);
    }
  }

  lemma AllNamed(o: Outstanding, net: nat -> Answer, rs: seq<Response>)
    requires Carries(net(0), rs) && forall id :: id in o ==> exists i :: 0 <= i < |rs| && rs[i].id == id
    ensures After(o, net, 1).0 == map[]
  {
    CarriesExactly(net(0).packet, rs);
    forall id | id in o
      ensures id !in After(o, net, 1).0
    {
      NamesExactly(net(0).packet, id);
      AfterExactly(o, net, 1, id);
    }
    forall id | id in After(o, net, 1).0
      ensures false
    {
      AfterExactly(o, net, 1, id);
    }
  }

  /** Every slot of the chunk ends up in exactly one of: displaced, resolved, handed to an individual send. */
  lemma RetryConserves(chunk: seq<Pending>, maxRetries: nat, net: nat -> Answer, t: Trace, w: nat -> nat)
    requires Follows(chunk, maxRetries, net, t)
    ensures Weight(t.displaced, w) + LogWeight(t.resolved, w) + Weight(t.individuals, w) == Weight(chunk, w)
  {
    var o, n := Collect(chunk).0, |t.batches|;
    CollectConserves(chunk, w);
    AfterConserves(o, net, n, w);
    match t.ending
    case AllDelivered =>
    case LastResort =>
      ListsConserves(t.individuals, After(o, net, n).0, w);
    case Rejected =>
      ListsConserves(t.individuals, After(o, net, n).0, w);
    case BatchError(cause) =>
      var ps :| Lists(ps, After(o, net, n).0)
                && t.resolved == After(o, net, n).1 + Failures(ps, BatchFailed(cause));
      ListsConserves(ps, After(o, net, n).0, w);
      FailuresWeight(ps, BatchFailed(cause), w);
      SeqSumAppend(After(o, net, n).1, Failures(ps, BatchFailed(cause)), OfResolution(w));
  }

  lemma {:induction false} AfterConserves(o: Outstanding, net: nat -> Answer, n: nat, w: nat -> nat)
    ensures SumOver(After(o, net, n).0, OfSlot(w)) + LogWeight(After(o, net, n).1, w) == SumOver(o, OfSlot(w))
  {
    if n > 0 {
      AfterConserves(o, net, n - 1, w);
      if net(n - 1).Ok? {
        var (left, delivered) := After(o, net, n - 1);
        var responses := net(n - 1).packet.Responses();
        var (left', more) := Match(left, responses);
        assert After(o, net, n) == (left', delivered + more);
        MatchConserves(left, responses, w);
        SeqSumAppend(delivered, more, OfResolution(w));
      }
    }
  }
}
