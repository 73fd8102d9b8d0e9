/**
The ends of the batching layer of src/batching.rs that face the callers: pushing requests on the
shared queue, draining and cutting it into chunks, and gathering the answers of one call.
*/
module BatchQueue {
  import opened Arithmetic
  import opened Wrappers
  import opened JsonRpc

  /** The requests of one call with consecutive slots. */
  function Items(requests: seq<Request>, first: nat): seq<Pending> {
    seq(|requests|, i requires 0 <= i < |requests| => Pending(requests[i], first + i))
  }

  /** The pending queue and the wake-up permit that callers and the flush task share. */
  class BatchingShared {
    var pending: seq<Pending>
    var notified: bool

    constructor ()
      ensures pending == [] && !notified
    {
      pending, notified := [], false;
    }

    method PushSingle(request: Request, slot: nat)
      modifies this
      ensures pending == old(pending) + Items([request], slot) && notified
    {
      pending := pending + [Pending(request, slot)];
      notified := true;
    }

    /** A batch is decomposed into single pending items under one lock. */
    method PushBatch(requests: seq<Request>, first: nat)
      modifies this
      ensures pending == old(pending) + Items(requests, first) && notified
    {
      for i := 0 to |requests|
        invariant pending == old(pending) + Items(requests[..i], first)
      {
        pending := pending + [Pending(requests[i], first + i)];
        assert Items(requests[..i + 1], first) == Items(requests[..i], first) + [Pending(requests[i], first + i)];
      }
      assert requests[..|requests|] == requests;
      notified := true;
    }

    /** Waiting for the wake-up or the timeout consumes the permit; then everything is taken. */
    method TakeAll() returns (batch: seq<Pending>)
      modifies this
      ensures batch == old(pending) && pending == [] && !notified
    {
      notified := false;
      batch := pending;
      pending := [];
    }
  }

  // ---- chunks ----

  function Flatten<T>(pieces: seq<seq<T>>): seq<T> {
    if pieces == [] then [] else pieces[0] + Flatten(pieces[1..])
  }

  lemma {:induction false} FlattenAppend<T>(a: seq<seq<T>>, b: seq<seq<T>>)
    ensures Flatten(a + b) == Flatten(a) + Flatten(b)
  {
    if a == [] {
      assert a + b == b;
    } else {
      FlattenAppend(a[1..], b);
      assert (a + b)[1..] == a[1..] + b;
      Associative(a[0], Flatten(a[1..]), Flatten(b));
    }
  }

  lemma Associative<T>(x: seq<T>, y: seq<T>, z: seq<T>)
    ensures (x + y) + z == x + (y + z)
  {
  }

  function NextSize(batch: seq<Pending>, maxBatch: nat): nat {
    Min(|batch|, maxBatch)
  }

  function Chunks(batch: seq<Pending>, maxBatch: nat): seq<seq<Pending>>
    requires maxBatch > 0
    decreases |batch|
  {
    if batch == [] then []
    else
      var k := NextSize(batch, maxBatch);
      [batch[..k]] + Chunks(batch[k..], maxBatch)
  }

  /** The drain loop of the flush task. */
  method CutIntoChunks(batch: seq<Pending>, maxBatch: nat) returns (chunks: seq<seq<Pending>>)
    requires maxBatch > 0
    ensures chunks == Chunks(batch, maxBatch)
  {
    var remaining := batch;
    chunks := [];
    while remaining != []
      invariant chunks + Chunks(remaining, maxBatch) == Chunks(batch, maxBatch)
      decreases |remaining|
    {
      var k := NextSize(remaining, maxBatch);
      assert chunks + ([remaining[..k]] + Chunks(remaining[k..], maxBatch))
          == (chunks + [remaining[..k]]) + Chunks(remaining[k..], maxBatch);
      chunks := chunks + [remaining[..k]];
      remaining := remaining[k..];
    }
  }

  /**
  Cutting loses, repeats and reorders nothing; every chunk has between 1 and maxBatch requests and
  all but the last are full, so a drain of n requests makes ceil(n / maxBatch) chunks.
  */
  lemma {:induction false} ChunksExactly(batch: seq<Pending>, maxBatch: nat)
    requires maxBatch > 0
    ensures var c := Chunks(batch, maxBatch);
            && Flatten(c) == batch
            && (forall i :: 0 <= i < |c| ==> 1 <= |c[i]| <= maxBatch)
            && (forall i :: 0 <= i < |c| - 1 ==> |c[i]| == maxBatch)
            && |c| == (|batch| + maxBatch - 1) / maxBatch
    decreases |batch|
  {
    if batch == [] {
      DivisionUnique(maxBatch - 1, maxBatch, 0, maxBatch - 1);
    } else {
      var k := NextSize(batch, maxBatch);
      var rest := Chunks(batch[k..], maxBatch);
      ChunksExactly(batch[k..], maxBatch);
      assert Chunks(batch, maxBatch)[1..] == rest;
      CeilingStep(|batch|, maxBatch);
    }
  }

  lemma CeilingStep(n: nat, m: nat)
    requires n > 0 && m > 0
    ensures (n + m - 1) / m == 1 + (n - Min(n, m) + m - 1) / m
  {
    if n <= m {
      DivisionUnique(m - 1, m, 0, m - 1);
      DivisionUnique(n + m - 1, m, 1, n - 1);
    } else {
      var x := n - m + m - 1;
      var q, r := x / m, x % m;
      assert (q + 1) * m == q * m + m;
      DivisionUnique(x + m, m, q + 1, r);
    }
  }

  // ---- answers of one call ----

  /**
  Awaits the channels of a batch call in order: the first error ends the call, even before later
  answers are there; None is an answer that has not arrived.
  */
  function Gather(answers: seq<Option<Answer>>, responses: seq<Response>): Option<Answer> {
    if answers == [] then Some(Ok(BatchResponse(responses)))
    else if answers[0] == None then None
    else if answers[0].value.Err? then answers[0]
    else Gather(answers[1..], responses + answers[0].value.packet.Responses())
  }

  /** The loop over the receivers, once each of them yields. */
  method AwaitInOrder(answers: seq<Answer>) returns (result: Answer)
    ensures Some(result) == Gather(seq(|answers|, i requires 0 <= i < |answers| => Some(answers[i])), [])
  {
    ghost var all := seq(|answers|, i requires 0 <= i < |answers| => Some(answers[i]));
    var responses := [];
    for i := 0 to |answers|
      invariant Gather(all[i..], responses) == Gather(all, [])
    {
      if answers[i].Err? {
        return answers[i];
      }
      assert all[i..][1..] == all[i + 1..];
      responses := responses + answers[i].packet.Responses();
    }
    return Ok(BatchResponse(responses));
  }

  /**
  With every answer there, a batch call returns all responses that they carry, in order; otherwise
  the first error, or nothing yet if an earlier answer is missing.
  */
  lemma {:induction false} GatherExactly(answers: seq<Option<Answer>>, responses: seq<Response>, k: nat,
                                         lists: seq<seq<Response>>)
    requires k <= |answers| && |lists| == k
    requires forall i :: 0 <= i < k ==> answers[i].Some? && Carries(answers[i].value, lists[i])
    ensures k == |answers| ==> Gather(answers, responses) == Some(Ok(BatchResponse(responses + Flatten(lists))))
    ensures k < |answers| && answers[k].Some? && answers[k].value.Err? ==> Gather(answers, responses) == answers[k]
    ensures k < |answers| && answers[k] == None ==> Gather(answers, responses) == None
  {
    if k == 0 {
      assert responses + Flatten(lists) == responses;
    } else {
      CarriesExactly(answers[0].value.packet, lists[0]);
      GatherExactly(answers[1..], responses + lists[0], k - 1, lists[1..]);
      Associative(responses, lists[0], Flatten(lists[1..]));
    }
  }

  /** Answers that have come in since change nothing about a result. */
  lemma {:induction false} GatherStays(before: seq<Option<Answer>>, after: seq<Option<Answer>>, responses: seq<Response>)
    requires |before| == |after| && Gather(before, responses).Some?
    requires forall i :: 0 <= i < |before| && before[i].Some? ==> after[i] == before[i]
    ensures Gather(after, responses) == Gather(before, responses)
  {
    if before != [] && before[0].value.Ok? {
      GatherStays(before[1..], after[1..], responses + before[0].value.packet.Responses());
    }
  }

  /** The answers up to the result: all of them and what they carry, or an error after answers. */
  lemma {:induction false} GatherFrom(answers: seq<Option<Answer>>, responses: seq<Response>)
    returns (k: nat, lists: seq<seq<Response>>)
    requires Gather(answers, responses).Some?
    ensures k <= |answers| && |lists| == k
    ensures forall i :: 0 <= i < k ==> answers[i].Some? && Carries(answers[i].value, lists[i])
    ensures k == |answers| ==> Gather(answers, responses) == Some(Ok(BatchResponse(responses + Flatten(lists))))
    ensures k < |answers| ==> answers[k].Some? && answers[k].value.Err? && Gather(answers, responses) == answers[k]
  {
    if answers == [] {
      k, lists := 0, [];
      assert responses + Flatten(lists) == responses;
    } else if answers[0].value.Err? {
      k, lists := 0, [];
    } else {
      var first := answers[0].value.packet.Responses();
      var rest;
      k, rest := GatherFrom(answers[1..], responses + first);
      k, lists := k + 1, [first] + rest;
      CarriesExactly(answers[0].value.packet, first);
      assert lists[1..] == rest;
      Associative(responses, first, Flatten(rest));
    }
  }
}
