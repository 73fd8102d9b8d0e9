/**
LoadBalancedTransport::call of src/lib.rs: rounds of attempts over the rotated endpoints, with
eligibility by request size, skipping of heavily throttled endpoints, immediate return of
answers and final errors, and doubling pauses between rounds.

Everything the call cannot control is an Environment: what each single throttle reading, send
and counter increment yields. Two readings of one endpoint need not agree.
*/
module RetryRotation {
  import opened Arithmetic
  import opened Wrappers
  import opened WeightedSelection

  /** The largest duration that can be represented, in nanoseconds. */
  const DURATION_MAX: nat := 0xFFFF_FFFF_FFFF_FFFF * 1_000_000_000 + 999_999_999

  /** Custom errors are reduced to what their message mentions. */
  datatype TransportError =
    | Http(status: nat)
    | BackendGone
    | Custom(timedOut: bool, connection: bool, tooManyRequests: bool)
    | OtherTransport
    | JsonRpc
    | RequestTooLarge

  predicate IsRetryable(e: TransportError) {
    match e
    case Http(status) => status in {413, 429, 502, 503, 504}
    case BackendGone => true
    case Custom(timedOut, connection, tooMany) => timedOut || connection || tooMany
    case _ => false
  }

  predicate IsRateLimit(e: TransportError) {
    match e
    case Http(status) => status == 429
    case Custom(_, _, tooMany) => tooMany
    case _ => false
  }

  datatype Reply = Ok(response: nat) | Err(error: TransportError) {
    predicate Retryable() {
      Err? && IsRetryable(error)
    }

    predicate RateLimited() {
      Err? && IsRateLimit(error)
    }
  }

  datatype Config = Config(
    maxRetryRounds: nat,
    initialBackoff: nat,
    maxBackoff: nat,
    rateLimitFailoverDelay: nat,
    heavyThrottleThreshold: nat)

  datatype Environment = Environment(
    reading: (nat, nat) -> nat,  // the k-th throttle reading, taken of endpoint i
    reply: (nat, nat) -> Reply,  // the k-th send, made to endpoint i
    tick: nat -> nat)            // the counter value taken by the selection of round r

  /** What happened at one position of the rotation. */
  datatype Attempt = Ineligible | Skipped(delay: nat) | Sent(delay: nat, reply: Reply, cooldown: nat)

  /** One pass over the rotation; its throttle readings are numbered from firstRead up to endRead. */
  datatype Round = Round(pause: nat, start: nat, attempts: seq<Attempt>, firstRead: nat, endRead: nat, firstSend: nat)

  datatype Outcome = Answered(response: nat) | Failed(error: TransportError) | BackoffOverflow

  /** Updates of the shared throttle state. */
  datatype Note = RecordedSuccess(endpoint: nat) | RecordedRateLimit(endpoint: nat) | RecordedSkip(endpoint: nat)

  // ---- rotation and eligibility ----

  /** The endpoint at a position of the rotation, within one turn; AtIsModulo ties it to the remainder. */
  function At(n: nat, start: nat, p: nat): (i: nat)
    requires n > 0
    ensures i < n
  {
    if start + p < n then start + p
    else if start + p < 2 * n then start + p - n
    else 0
  }

  lemma AtIsModulo(n: nat, start: nat, p: nat)
    requires start < n && p < n
    ensures At(n, start, p) == (start + p) % n
  {
    if start + p < n {
      DivisionUnique(start + p, n, 0, start + p);
    } else {
      DivisionUnique(start + p, n, 1, start + p - n);
    }
  }

  /** Every endpoint has exactly one position in the rotation. */
  lemma RotationIsPermutation(n: nat, start: nat, i: nat)
    requires start < n && i < n
    ensures exists p :: 0 <= p < n && At(n, start, p) == i
    ensures forall p, q :: 0 <= p < n && 0 <= q < n && At(n, start, p) == At(n, start, q) ==> p == q
  {
    var p := if i >= start then i - start else i + n - start;
    assert At(n, start, p) == i;
  }

  predicate Accepts(plan: Plan, bytes: nat, i: nat)
    requires i < |plan.caps|
  {
    plan.caps[i] == None || bytes <= plan.caps[i].value
  }

  function EligibleEndpoints(plan: Plan, bytes: nat): set<nat> {
    set i | 0 <= i < |plan.caps| && Accepts(plan, bytes, i)
  }

  predicate Eligible(plan: Plan, bytes: nat, start: nat, p: nat)
    requires |plan.caps| > 0
  {
    Accepts(plan, bytes, At(|plan.caps|, start, p))
  }

  // ---- logs of a round ----

  function CountSent(attempts: seq<Attempt>): nat {
    if attempts == [] then 0
    else CountSent(attempts[..|attempts| - 1]) + (if attempts[|attempts| - 1].Sent? then 1 else 0)
  }

  function LastError(attempts: seq<Attempt>): Option<TransportError> {
    if attempts == [] then None
    else
      var a := attempts[|attempts| - 1];
      if a.Sent? && a.reply.Err? then Some(a.reply.error) else LastError(attempts[..|attempts| - 1])
  }

  /** A success is recorded for an answer, a rate limit for a 429, a skip for a skip. */
  function NotesAt(n: nat, start: nat, p: nat, a: Attempt): seq<Note>
    requires n > 0
  {
    match a
    case Ineligible => []
    case Skipped(_) => [RecordedSkip(At(n, start, p))]
    case Sent(_, reply, _) =>
      if reply.Ok? then [RecordedSuccess(At(n, start, p))]
      else if reply.RateLimited() then [RecordedRateLimit(At(n, start, p))]
      else []
  }

  function NotesOf(n: nat, start: nat, attempts: seq<Attempt>): seq<Note>
    requires n > 0
  {
    if attempts == [] then []
    else
      var k := |attempts| - 1;
      NotesOf(n, start, attempts[..k]) + NotesAt(n, start, k, attempts[k])
  }

  // ---- throttle readings of a round ----

  /**
  Whether a look ahead from position q on, whose first reading is number k, meets a light endpoint,
  and the number of the next reading. It stops at the first light reading.
  */
  function Look(plan: Plan, cfg: Config, bytes: nat, env: Environment, start: nat, q: nat, k: nat): (bool, nat)
    requires |plan.caps| > 0
    decreases |plan.caps| - q
  {
    if q >= |plan.caps| then (false, k)
    else if !Eligible(plan, bytes, start, q) then Look(plan, cfg, bytes, env, start, q + 1, k)
    else if env.reading(k, At(|plan.caps|, start, q)) < cfg.heavyThrottleThreshold then (true, k + 1)
    else Look(plan, cfg, bytes, env, start, q + 1, k + 1)
  }

  /** The number of the first reading at position p: before it, every eligible position read itself and looked ahead. */
  function ReadsAt(plan: Plan, cfg: Config, bytes: nat, env: Environment, start: nat, firstRead: nat, p: nat): nat
    requires |plan.caps| > 0
  {
    if p == 0 then firstRead
    else
      var k := ReadsAt(plan, cfg, bytes, env, start, firstRead, p - 1);
      if Eligible(plan, bytes, start, p - 1) then Look(plan, cfg, bytes, env, start, p, k + 1).1 else k
  }

  /** The reading with this number, of the endpoint at this position, was light. */
  predicate LightReading(plan: Plan, cfg: Config, env: Environment, start: nat, q: nat, j: nat)
    requires |plan.caps| > 0
  {
    env.reading(j, At(|plan.caps|, start, q)) < cfg.heavyThrottleThreshold
  }

  /** The eligible positions from q up to r. */
  function Candidates(plan: Plan, bytes: nat, start: nat, q: nat, r: nat): nat
    requires |plan.caps| > 0
    decreases r - q
  {
    if r <= q then 0
    else (if Eligible(plan, bytes, start, q) then 1 else 0) + Candidates(plan, bytes, start, q + 1, r)
  }

  /**
  A look ahead from position q that took the readings from number k up to to saw a light endpoint.
  It reads the eligible positions in turn, so r is read with number k + Candidates(q, r).
  */
  ghost predicate SawLight(plan: Plan, cfg: Config, bytes: nat, env: Environment, start: nat, q: nat, k: nat, to: nat)
    requires |plan.caps| > 0
  {
    exists r :: q <= r < |plan.caps| && LightAt(plan, cfg, bytes, env, start, q, k, to, r)
  }

  ghost predicate LightAt(plan: Plan, cfg: Config, bytes: nat, env: Environment, start: nat, q: nat, k: nat, to: nat, r: nat)
    requires |plan.caps| > 0
  {
    var j := k + Candidates(plan, bytes, start, q, r);
    Eligible(plan, bytes, start, r) && j < to && LightReading(plan, cfg, env, start, r, j)
  }

  /** A look ahead succeeds exactly on a light reading it took; if it fails, it has read every candidate. */
  lemma {:induction false} LookExactly(plan: Plan, cfg: Config, bytes: nat, env: Environment, start: nat, q: nat, k: nat)
    requires |plan.caps| > 0
    ensures var (found, to) := Look(plan, cfg, bytes, env, start, q, k);
            && k <= to
            && (found <==> SawLight(plan, cfg, bytes, env, start, q, k, to))
            && (!found ==> forall r :: q <= r < |plan.caps| && Eligible(plan, bytes, start, r) ==>
                  k + Candidates(plan, bytes, start, q, r) < to)
    decreases |plan.caps| - q
  {
    if q < |plan.caps| {
      var to := Look(plan, cfg, bytes, env, start, q, k).1;
      if !Eligible(plan, bytes, start, q) {
        LookExactly(plan, cfg, bytes, env, start, q + 1, k);
        LightFurtherOn(plan, cfg, bytes, env, start, q, k, k, to);
      } else if LightReading(plan, cfg, env, start, q, k) {
        assert LightAt(plan, cfg, bytes, env, start, q, k, to, q);
      } else {
        LookExactly(plan, cfg, bytes, env, start, q + 1, k + 1);
        LightFurtherOn(plan, cfg, bytes, env, start, q, k, k + 1, to);
      }
    }
  }

  /** Later positions are read with the same number, whether counted from q or after it. */
  lemma LightFurtherAt(plan: Plan, cfg: Config, bytes: nat, env: Environment, start: nat, q: nat, k: nat, next: nat,
                       to: nat, r: nat)
    requires |plan.caps| > 0 && r > q
    requires next == k + (if Eligible(plan, bytes, start, q) then 1 else 0)
    ensures k + Candidates(plan, bytes, start, q, r) == next + Candidates(plan, bytes, start, q + 1, r)
    ensures LightAt(plan, cfg, bytes, env, start, q, k, to, r) <==> LightAt(plan, cfg, bytes, env, start, q + 1, next, to, r)
  {
  }

  /** A look ahead that does not stop at q goes on like one that starts after q. */
  lemma LightFurtherOn(plan: Plan, cfg: Config, bytes: nat, env: Environment, start: nat, q: nat, k: nat, next: nat, to: nat)
    requires |plan.caps| > 0
    requires next == k + (if Eligible(plan, bytes, start, q) then 1 else 0)
    requires !LightAt(plan, cfg, bytes, env, start, q, k, to, q)
    ensures forall r :: r > q ==> k + Candidates(plan, bytes, start, q, r) == next + Candidates(plan, bytes, start, q + 1, r)
    ensures SawLight(plan, cfg, bytes, env, start, q, k, to) <==> SawLight(plan, cfg, bytes, env, start, q + 1, next, to)
  {
    if SawLight(plan, cfg, bytes, env, start, q, k, to) {
      var r :| q <= r < |plan.caps| && LightAt(plan, cfg, bytes, env, start, q, k, to, r);
      LightFurtherAt(plan, cfg, bytes, env, start, q, k, next, to, r);
    }
    if SawLight(plan, cfg, bytes, env, start, q + 1, next, to) {
      var r :| q + 1 <= r < |plan.caps| && LightAt(plan, cfg, bytes, env, start, q + 1, next, to, r);
      LightFurtherAt(plan, cfg, bytes, env, start, q, k, next, to, r);
    }
  }

  lemma {:induction false} ReadsGrow(plan: Plan, cfg: Config, bytes: nat, env: Environment, start: nat, firstRead: nat,
                                     p: nat, q: nat)
    requires |plan.caps| > 0 && p <= q
    ensures ReadsAt(plan, cfg, bytes, env, start, firstRead, p) <= ReadsAt(plan, cfg, bytes, env, start, firstRead, q)
    decreases q
  {
    if p < q {
      ReadsGrow(plan, cfg, bytes, env, start, firstRead, p, q - 1);
      LookExactly(plan, cfg, bytes, env, start, q, ReadsAt(plan, cfg, bytes, env, start, firstRead, q - 1) + 1);
    }
  }

  // ---- what a round may look like ----

  /** The attempt at the position after the given ones: what it was, after which delay, and with which reply. */
  ghost predicate LawfulNext(plan: Plan, cfg: Config, bytes: nat, env: Environment, start: nat, firstRead: nat,
                             firstSend: nat, before: seq<Attempt>, a: Attempt)
    requires |plan.caps| > 0
  {
    var n, p := |plan.caps|, |before|;
    var k := ReadsAt(plan, cfg, bytes, env, start, firstRead, p);
    && (a.Ineligible? <==> !Eligible(plan, bytes, start, p))
    && (!a.Ineligible? ==> a.delay == env.reading(k, At(n, start, p)))
    && (a.Skipped? <==>
          && Eligible(plan, bytes, start, p) && !LightReading(plan, cfg, env, start, p, k)
          && Look(plan, cfg, bytes, env, start, p + 1, k + 1).0)
    && (a.Sent? ==>
          && a.reply == env.reply(firstSend + CountSent(before), At(n, start, p))
          && a.cooldown == if a.reply.RateLimited() && p < n - 1 then cfg.rateLimitFailoverDelay else 0)
  }

  ghost predicate Lawful(plan: Plan, cfg: Config, bytes: nat, env: Environment, start: nat, firstRead: nat,
                         firstSend: nat, attempts: seq<Attempt>)
    requires |plan.caps| > 0
  {
    attempts == [] ||
    (var k := |attempts| - 1;
     && Lawful(plan, cfg, bytes, env, start, firstRead, firstSend, attempts[..k])
     && LawfulNext(plan, cfg, bytes, env, start, firstRead, firstSend, attempts[..k], attempts[k]))
  }

  lemma {:induction false} LawfulAt(plan: Plan, cfg: Config, bytes: nat, env: Environment, start: nat, firstRead: nat,
                                    firstSend: nat, attempts: seq<Attempt>, p: nat)
    requires |plan.caps| > 0 && p < |attempts|
    requires Lawful(plan, cfg, bytes, env, start, firstRead, firstSend, attempts)
    ensures LawfulNext(plan, cfg, bytes, env, start, firstRead, firstSend, attempts[..p], attempts[p])
  {
    var k := |attempts| - 1;
    if p < k {
      LawfulAt(plan, cfg, bytes, env, start, firstRead, firstSend, attempts[..k], p);
      assert attempts[..k][..p] == attempts[..p];
    }
  }

  /** The attempts of a pass so far, with the readings and sends they took. */
  ghost predicate Attempted(plan: Plan, cfg: Config, bytes: nat, env: Environment, round: Round)
    requires |plan.caps| > 0
  {
    && round.start < |plan.caps| && |round.attempts| <= |plan.caps|
    && Lawful(plan, cfg, bytes, env, round.start, round.firstRead, round.firstSend, round.attempts)
    && round.endRead == ReadsAt(plan, cfg, bytes, env, round.start, round.firstRead, |round.attempts|)
  }

  /** None of the replies ends the call. */
  predicate NoneFinal(attempts: seq<Attempt>) {
    forall p :: 0 <= p < |attempts| && attempts[p].Sent? ==> attempts[p].reply.Retryable()
  }

  /** A pass over all endpoints that failed with retryable errors only. */
  ghost predicate FailedRound(plan: Plan, cfg: Config, bytes: nat, env: Environment, round: Round)
    requires |plan.caps| > 0
  {
    && Attempted(plan, cfg, bytes, env, round)
    && |round.attempts| == |plan.caps| && NoneFinal(round.attempts)
    && (exists p :: 0 <= p < |round.attempts| && round.attempts[p].Sent?)
  }

  /** A pass that a final reply, an answer or an error that does not fail over, cut short. */
  ghost predicate DecisiveRound(plan: Plan, cfg: Config, bytes: nat, env: Environment, round: Round, reply: Reply)
    requires |plan.caps| > 0
  {
    var k := |round.attempts| - 1;
    && Attempted(plan, cfg, bytes, env, round)
    && k >= 0 && NoneFinal(round.attempts[..k])
    && round.attempts[k].Sent? && round.attempts[k].reply == reply && !reply.Retryable()
  }

  // ---- one round ----

  /** Looks for a lightly throttled eligible endpoint further on; every look is a fresh reading. */
  method LookAhead(plan: Plan, cfg: Config, bytes: nat, env: Environment, start: nat, from: nat, firstRead: nat)
    returns (found: bool, endRead: nat)
    requires start < |plan.caps|
    ensures (found, endRead) == Look(plan, cfg, bytes, env, start, from, firstRead)
  {
    endRead := firstRead;
    var q := from;
    while q < |plan.caps|
      invariant Look(plan, cfg, bytes, env, start, q, endRead) == Look(plan, cfg, bytes, env, start, from, firstRead)
    {
      AtIsModulo(|plan.caps|, start, q);
      var i := (start + q) % |plan.caps|;
      if Accepts(plan, bytes, i) {
        var delay := env.reading(endRead, i);
        endRead := endRead + 1;
        if delay < cfg.heavyThrottleThreshold {
          return true, endRead;
        }
      }
      q := q + 1;
    }
    return false, endRead;
  }

  function Extended(round: Round, a: Attempt, endRead: nat): Round {
    round.(attempts := round.attempts + [a], endRead := endRead)
  }

  lemma PassMore(plan: Plan, cfg: Config, bytes: nat, env: Environment, round: Round, a: Attempt, endRead: nat)
    requires |plan.caps| > 0 && |round.attempts| < |plan.caps|
    requires Attempted(plan, cfg, bytes, env, round) && NoneFinal(round.attempts)
    requires LawfulNext(plan, cfg, bytes, env, round.start, round.firstRead, round.firstSend, round.attempts, a)
    requires endRead == ReadsAt(plan, cfg, bytes, env, round.start, round.firstRead, |round.attempts| + 1)
    ensures var more := Extended(round, a, endRead);
            && Attempted(plan, cfg, bytes, env, more)
            && if a.Sent? && !a.reply.Retryable() then DecisiveRound(plan, cfg, bytes, env, more, a.reply)
               else NoneFinal(more.attempts)
    ensures var n, more := |plan.caps|, Extended(round, a, endRead).attempts;
            && CountSent(more) == CountSent(round.attempts) + (if a.Sent? then 1 else 0)
            && LastError(more) == (if a.Sent? && a.reply.Err? then Some(a.reply.error) else LastError(round.attempts))
            && NotesOf(n, round.start, more)
               == NotesOf(n, round.start, round.attempts) + NotesAt(n, round.start, |round.attempts|, a)
  {
    assert (round.attempts + [a])[..|round.attempts|] == round.attempts;
  }

  /** The last eligible position of a full pass cannot have been skipped. */
  lemma {:induction false} SomeoneIsSentTo(plan: Plan, cfg: Config, bytes: nat, env: Environment, round: Round, p: nat)
    requires |plan.caps| > 0
    requires Attempted(plan, cfg, bytes, env, round) && |round.attempts| == |plan.caps|
    requires p < |plan.caps| && Eligible(plan, bytes, round.start, p)
    ensures exists q :: 0 <= q < |round.attempts| && round.attempts[q].Sent?
    decreases |plan.caps| - p
  {
    LawfulAt(plan, cfg, bytes, env, round.start, round.firstRead, round.firstSend, round.attempts, p);
    if round.attempts[p].Skipped? {
      var k := ReadsAt(plan, cfg, bytes, env, round.start, round.firstRead, p);
      LookExactly(plan, cfg, bytes, env, round.start, p + 1, k + 1);
      var to := ReadsAt(plan, cfg, bytes, env, round.start, round.firstRead, p + 1);
      var q :| p < q < |plan.caps| && LightAt(plan, cfg, bytes, env, round.start, p + 1, k + 1, to, q);
      SomeoneIsSentTo(plan, cfg, bytes, env, round, q);
    } else {
      assert round.attempts[p].Sent?;
    }
  }

  lemma {:induction false} SentHasLastError(attempts: seq<Attempt>)
    requires NoneFinal(attempts)
    ensures LastError(attempts).Some? <==> exists p :: 0 <= p < |attempts| && attempts[p].Sent?
    ensures LastError(attempts).Some? ==> IsRetryable(LastError(attempts).value)
  {
    if attempts != [] {
      SentHasLastError(attempts[..|attempts| - 1]);
    }
  }

  /**
  One position of the rotation: leave it out, skip it, or send. The readings, also those of the
  look ahead, are taken whether or not the endpoint turns out to be heavy.
  */
  method TryEndpoint(plan: Plan, cfg: Config, bytes: nat, env: Environment, start: nat, p: nat, firstRead: nat, sends: nat,
                     ghost round: Round)
    returns (attempt: Attempt, endRead: nat)
    requires start < |plan.caps| && p < |plan.caps| && p == |round.attempts| && start == round.start
    requires firstRead == ReadsAt(plan, cfg, bytes, env, start, round.firstRead, p)
    requires sends == round.firstSend + CountSent(round.attempts)
    ensures LawfulNext(plan, cfg, bytes, env, start, round.firstRead, round.firstSend, round.attempts, attempt)
    ensures endRead == ReadsAt(plan, cfg, bytes, env, start, round.firstRead, p + 1)
  {
    var n := |plan.caps|;
    AtIsModulo(n, start, p);
    var i := (start + p) % n;
    if !Accepts(plan, bytes, i) {
      return Ineligible, firstRead;
    }
    var delay := env.reading(firstRead, i);
    var alternative;
    alternative, endRead := LookAhead(plan, cfg, bytes, env, start, p + 1, firstRead + 1);
    if delay >= cfg.heavyThrottleThreshold && alternative {
      return Skipped(delay), endRead;
    }
    var reply := env.reply(sends, i);
    attempt := Sent(delay, reply, if reply.RateLimited() && p < n - 1 then cfg.rateLimitFailoverDelay else 0);
  }

  /** One pass over the rotation. The decisive reply, if there is one, is returned at once. */
  method RunRound(plan: Plan, cfg: Config, bytes: nat, env: Environment, pause: nat, start: nat,
                  firstRead: nat, firstSend: nat)
    returns (round: Round, final: Option<Reply>, lastErr: Option<TransportError>, notes: seq<Note>, sends: nat)
    requires start < |plan.caps| && EligibleEndpoints(plan, bytes) != {}
    ensures round.pause == pause && round.start == start
    ensures round.firstRead == firstRead && round.firstSend == firstSend
    ensures final == None ==> FailedRound(plan, cfg, bytes, env, round)
    ensures final == None ==> lastErr.Some? && lastErr == LastError(round.attempts) && IsRetryable(lastErr.value)
    ensures final.Some? ==> DecisiveRound(plan, cfg, bytes, env, round, final.value)
    ensures notes == NotesOf(|plan.caps|, start, round.attempts)
    ensures sends == firstSend + CountSent(round.attempts)
  {
    var n := |plan.caps|;
    round := Round(pause, start, [], firstRead, firstRead, firstSend);
    final, lastErr, notes, sends := None, None, [], firstSend;
    for p := 0 to n
      invariant round.pause == pause && round.start == start
      invariant round.firstRead == firstRead && round.firstSend == firstSend
      invariant |round.attempts| == p && Attempted(plan, cfg, bytes, env, round) && NoneFinal(round.attempts)
      invariant sends == firstSend + CountSent(round.attempts)
      invariant lastErr == LastError(round.attempts)
      invariant notes == NotesOf(n, start, round.attempts)
      invariant final == None
    {
      var attempt, endRead := TryEndpoint(plan, cfg, bytes, env, start, p, round.endRead, sends, round);
      PassMore(plan, cfg, bytes, env, round, attempt, endRead);
      notes := notes + NotesAt(n, start, p, attempt);
      round := Extended(round, attempt, endRead);
      if attempt.Sent? {
        sends := sends + 1;
        if !attempt.reply.Retryable() {
          final := Some(attempt.reply);
          return;
        }
        lastErr := Some(attempt.reply.error);
      }
    }
    FullPassSends(plan, cfg, bytes, env, round);
  }

  /** A full pass has sent to someone, so there is an error to report. */
  lemma FullPassSends(plan: Plan, cfg: Config, bytes: nat, env: Environment, round: Round)
    requires |plan.caps| > 0 && Attempted(plan, cfg, bytes, env, round) && |round.attempts| == |plan.caps|
    requires NoneFinal(round.attempts) && EligibleEndpoints(plan, bytes) != {}
    ensures FailedRound(plan, cfg, bytes, env, round)
    ensures LastError(round.attempts).Some? && IsRetryable(LastError(round.attempts).value)
  {
    var e :| e in EligibleEndpoints(plan, bytes);
    RotationIsPermutation(|plan.caps|, round.start, e);
    var p :| 0 <= p < |plan.caps| && At(|plan.caps|, round.start, p) == e;
    SomeoneIsSentTo(plan, cfg, bytes, env, round, p);
    SentHasLastError(round.attempts);
  }

  // ---- pauses between rounds ----

  function Pow2(k: nat): (r: nat)
    ensures r >= 1
  {
    if k == 0 then 1 else 2 * Pow2(k - 1)
  }

  /** The pause before round r: nothing, the initial backoff uncapped, then capped doublings. */
  function Pause(cfg: Config, r: nat): nat {
    if r == 0 then 0
    else if r == 1 then cfg.initialBackoff
    else Min(2 * Pause(cfg, r - 1), cfg.maxBackoff)
  }

  /** The documented pause. */
  function DocumentedPause(cfg: Config, r: nat): nat
    requires r >= 1
  {
    Min(cfg.initialBackoff * Pow2(r - 1), cfg.maxBackoff)
  }

  /** Capping every doubling is capping the last one. */
  lemma {:induction false} PauseClosedForm(cfg: Config, r: nat)
    requires r >= 1
    ensures r == 1 ==> DocumentedPause(cfg, r) == Min(cfg.initialBackoff, cfg.maxBackoff)
    ensures r >= 2 || cfg.initialBackoff <= cfg.maxBackoff ==> Pause(cfg, r) == DocumentedPause(cfg, r)
  {
    if r == 1 {
      assert Pow2(0) == 1;
    } else {
      PauseClosedForm(cfg, r - 1);
      var x := cfg.initialBackoff * Pow2(r - 2);
      assert cfg.initialBackoff * Pow2(r - 1) == 2 * x by {
        assert Pow2(r - 1) == 2 * Pow2(r - 2);
      }
      if r == 2 {
        assert Pow2(0) == 1;
      }
    }
  }

  /**
  The pauses of the loop are min(initial * 2^(r-1), max) exactly if no retry happens or
  initial <= max. Whether a call gets as far as round r is another matter: the doubling may
  overflow first, see BackoffOverflow and NoOverflow.
  */
  lemma PausesAsDocumented(cfg: Config)
    ensures (forall r :: 1 <= r <= cfg.maxRetryRounds ==> Pause(cfg, r) == DocumentedPause(cfg, r))
            <==> cfg.maxRetryRounds == 0 || cfg.initialBackoff <= cfg.maxBackoff
  {
    PauseClosedForm(cfg, 1);
    assert Pause(cfg, 1) == cfg.initialBackoff;
    forall r | 1 <= r <= cfg.maxRetryRounds && cfg.initialBackoff <= cfg.maxBackoff
      ensures Pause(cfg, r) == DocumentedPause(cfg, r)
    {
      PauseClosedForm(cfg, r);
    }
  }

  lemma {:induction false} PausesGrow(cfg: Config, r: nat, q: nat)
    requires r <= q && cfg.initialBackoff <= cfg.maxBackoff
    ensures Pause(cfg, r) <= Pause(cfg, q) <= cfg.maxBackoff
  {
    if r < q {
      PausesGrow(cfg, r, q - 1);
    }
  }

  function TotalPause(log: seq<Round>): nat {
    if log == [] then 0 else TotalPause(log[..|log| - 1]) + log[|log| - 1].pause
  }

  /** Between rounds a call waits at most maxRetryRounds times the maximal backoff. */
  lemma {:induction false} TotalPauseBound(cfg: Config, log: seq<Round>)
    requires cfg.initialBackoff <= cfg.maxBackoff
    requires forall r :: 0 <= r < |log| ==> log[r].pause == Pause(cfg, r)
    ensures log != [] ==> TotalPause(log) <= Times(|log| - 1, cfg.maxBackoff) == (|log| - 1) * cfg.maxBackoff
  {
    if log != [] {
      TimesIsProduct(|log| - 1, cfg.maxBackoff);
    }
    if |log| == 1 {
      assert TotalPause(log[..0]) == 0;
    } else if |log| > 1 {
      var k := |log| - 1;
      TotalPauseBound(cfg, log[..k]);
      PausesGrow(cfg, k, k);
      assert Times(k, cfg.maxBackoff) == Times(k - 1, cfg.maxBackoff) + cfg.maxBackoff;
    }
  }

  // ---- counting sends ----

  function SentTo(n: nat, start: nat, attempts: seq<Attempt>): set<nat>
    requires n > 0
  {
    set p | 0 <= p < |attempts| && attempts[p].Sent? :: At(n, start, p)
  }

  /** In one pass every send goes to a different endpoint. */
  lemma {:induction false} SentOncePerPass(n: nat, start: nat, attempts: seq<Attempt>)
    requires start < n && |attempts| <= n
    ensures |SentTo(n, start, attempts)| == CountSent(attempts)
  {
    if attempts == [] {
      assert SentTo(n, start, attempts) == {};
    } else {
      var k := |attempts| - 1;
      SentOncePerPass(n, start, attempts[..k]);
      if attempts[k].Sent? {
        assert At(n, start, k) !in SentTo(n, start, attempts[..k]) by {
          RotationIsPermutation(n, start, At(n, start, k));
        }
        assert SentTo(n, start, attempts) == SentTo(n, start, attempts[..k]) + {At(n, start, k)};
      } else {
        assert SentTo(n, start, attempts) == SentTo(n, start, attempts[..k]);
      }
    }
  }

  /** Every send of a round goes to an endpoint that accepts the request. */
  ghost predicate OnlyEligible(plan: Plan, bytes: nat, round: Round)
    requires |plan.caps| > 0
  {
    forall p :: 0 <= p < |round.attempts| && round.attempts[p].Sent? ==> Eligible(plan, bytes, round.start, p)
  }

  lemma AttemptedIsEligible(plan: Plan, cfg: Config, bytes: nat, env: Environment, round: Round)
    requires |plan.caps| > 0 && Attempted(plan, cfg, bytes, env, round)
    ensures OnlyEligible(plan, bytes, round)
  {
    forall p | 0 <= p < |round.attempts| && round.attempts[p].Sent?
      ensures Eligible(plan, bytes, round.start, p)
    {
      LawfulAt(plan, cfg, bytes, env, round.start, round.firstRead, round.firstSend, round.attempts, p);
    }
  }

  lemma SendsPerPass(plan: Plan, bytes: nat, round: Round)
    requires round.start < |plan.caps| && |round.attempts| <= |plan.caps| && OnlyEligible(plan, bytes, round)
    ensures CountSent(round.attempts) <= |EligibleEndpoints(plan, bytes)|
  {
    SentOncePerPass(|plan.caps|, round.start, round.attempts);
    var to, all := SentTo(|plan.caps|, round.start, round.attempts), EligibleEndpoints(plan, bytes);
    assert to <= all;
    assert all == to + (all - to);
  }

  function TotalSent(log: seq<Round>): nat {
    if log == [] then 0 else TotalSent(log[..|log| - 1]) + CountSent(log[|log| - 1].attempts)
  }

  /** The readings taken so far. */
  function TotalRead(log: seq<Round>): nat {
    if log == [] then 0 else log[|log| - 1].endRead
  }

  function LogNotes(n: nat, log: seq<Round>): seq<Note>
    requires n > 0
  {
    if log == [] then []
    else LogNotes(n, log[..|log| - 1]) + NotesOf(n, log[|log| - 1].start, log[|log| - 1].attempts)
  }

  // ---- the whole call ----

  /** Round r follows the log: its start comes from its own tick, its sends and readings continue the numbering. */
  ghost predicate Follows(plan: Plan, cfg: Config, env: Environment, log: seq<Round>, round: Round)
    requires plan.Valid()
  {
    var r := |log|;
    && r <= cfg.maxRetryRounds
    && round.start == Choose(plan, env.tick(r))
    && round.pause == Pause(cfg, r)
    && round.firstSend == TotalSent(log) && round.firstRead == TotalRead(log)
    && (r > 0 ==> 2 * Pause(cfg, r) <= DURATION_MAX)
  }

  /** The rounds of a call that has not been decided yet. */
  ghost predicate AllFailed(plan: Plan, cfg: Config, bytes: nat, env: Environment, log: seq<Round>)
    requires plan.Valid()
  {
    log == [] ||
    (var k := |log| - 1;
     && AllFailed(plan, cfg, bytes, env, log[..k])
     && Follows(plan, cfg, env, log[..k], log[k])
     && FailedRound(plan, cfg, bytes, env, log[k]))
  }

  /** The rounds of a call that the last round decided with this reply. */
  ghost predicate Decided(plan: Plan, cfg: Config, bytes: nat, env: Environment, log: seq<Round>, reply: Reply)
    requires plan.Valid()
  {
    var k := |log| - 1;
    && k >= 0
    && AllFailed(plan, cfg, bytes, env, log[..k])
    && Follows(plan, cfg, env, log[..k], log[k])
    && DecisiveRound(plan, cfg, bytes, env, log[k], reply)
  }

  /** The rounds of a call whose last round failed with this error, and with it the call. */
  ghost predicate Exhausted(plan: Plan, cfg: Config, bytes: nat, env: Environment, log: seq<Round>, error: TransportError)
    requires plan.Valid()
  {
    && |log| == cfg.maxRetryRounds + 1 && AllFailed(plan, cfg, bytes, env, log)
    && LastError(log[|log| - 1].attempts) == Some(error)
  }

  /** The rounds of a call whose next pause cannot be doubled. */
  ghost predicate Overflowed(plan: Plan, cfg: Config, bytes: nat, env: Environment, log: seq<Round>)
    requires plan.Valid()
  {
    && 1 <= |log| <= cfg.maxRetryRounds && AllFailed(plan, cfg, bytes, env, log)
    && 2 * Pause(cfg, |log|) > DURATION_MAX
  }

  /** How a call may end, given its rounds; EndsExactly tells the failures apart. */
  ghost predicate Concludes(plan: Plan, cfg: Config, bytes: nat, env: Environment, log: seq<Round>, outcome: Outcome)
    requires plan.Valid()
  {
    || (outcome.Answered? && Decided(plan, cfg, bytes, env, log, Ok(outcome.response)))
    || (outcome.Failed? && Decided(plan, cfg, bytes, env, log, Err(outcome.error)))
    || (outcome.Failed? && Exhausted(plan, cfg, bytes, env, log, outcome.error))
    || (outcome.BackoffOverflow? && Overflowed(plan, cfg, bytes, env, log))
    || (outcome == Failed(RequestTooLarge) && log == [] && EligibleEndpoints(plan, bytes) == {})
  }

  function EndOf(reply: Reply): Outcome {
    match reply
    case Ok(response) => Answered(response)
    case Err(error) => Failed(error)
  }

  lemma LogCounts(n: nat, log: seq<Round>, round: Round)
    requires n > 0
    ensures TotalSent(log + [round]) == TotalSent(log) + CountSent(round.attempts)
    ensures TotalRead(log + [round]) == round.endRead
    ensures LogNotes(n, log + [round]) == LogNotes(n, log) + NotesOf(n, round.start, round.attempts)
  {
    assert (log + [round])[..|log|] == log;
  }

  /** A failed round keeps the call going. */
  lemma FailedGrows(plan: Plan, cfg: Config, bytes: nat, env: Environment, log: seq<Round>, round: Round)
    requires plan.Valid() && AllFailed(plan, cfg, bytes, env, log) && Follows(plan, cfg, env, log, round)
    requires FailedRound(plan, cfg, bytes, env, round)
    ensures AllFailed(plan, cfg, bytes, env, log + [round])
  {
    var more := log + [round];
    assert more[..|more| - 1] == log && more[|more| - 1] == round;
  }

  /** In the last round it fails the call with its last error. */
  lemma LastRoundExhausts(plan: Plan, cfg: Config, bytes: nat, env: Environment, log: seq<Round>)
    requires plan.Valid() && |log| == cfg.maxRetryRounds + 1 && AllFailed(plan, cfg, bytes, env, log)
    requires LastError(log[|log| - 1].attempts).Some?
    ensures Concludes(plan, cfg, bytes, env, log, Failed(LastError(log[|log| - 1].attempts).value))
  {
    assert Exhausted(plan, cfg, bytes, env, log, LastError(log[|log| - 1].attempts).value);
  }

  lemma DecisiveGrows(plan: Plan, cfg: Config, bytes: nat, env: Environment, log: seq<Round>, round: Round, reply: Reply)
    requires plan.Valid() && AllFailed(plan, cfg, bytes, env, log) && Follows(plan, cfg, env, log, round)
    requires DecisiveRound(plan, cfg, bytes, env, round, reply)
    ensures Concludes(plan, cfg, bytes, env, log + [round], EndOf(reply))
  {
    assert (log + [round])[..|log|] == log;
    assert Decided(plan, cfg, bytes, env, log + [round], reply);
  }

  /** The pause before a round and the backoff for the next one, unless doubling it overflows. */
  method PauseBefore(cfg: Config, round: nat, backoff: nat) returns (pause: nat, overflow: bool, next: nat)
    requires backoff == Pause(cfg, Max(round, 1))
    ensures overflow <==> round > 0 && 2 * Pause(cfg, round) > DURATION_MAX
    ensures pause == Pause(cfg, round)
    ensures !overflow ==> next == Pause(cfg, round + 1)
  {
    pause, overflow, next := 0, false, backoff;
    if round > 0 {
      pause := backoff;
      overflow := backoff * 2 > DURATION_MAX;
      next := Min(backoff * 2, cfg.maxBackoff);
    }
  }

  /**
  The round after those of the log: select where to start, and run the rotation from there. It ends
  the call with a decisive reply, or in the last round with the last error, of which there is one.
  */
  method NextRound(plan: Plan, cfg: Config, bytes: nat, env: Environment, pause: nat, firstRead: nat, firstSend: nat,
                   round: nat, ghost log: seq<Round>)
    returns (pass: Round, end: Option<Outcome>, notes: seq<Note>, sends: nat)
    requires plan.Valid() && EligibleEndpoints(plan, bytes) != {}
    requires |log| == round <= cfg.maxRetryRounds && AllFailed(plan, cfg, bytes, env, log)
    requires pause == Pause(cfg, round) && (round > 0 ==> 2 * pause <= DURATION_MAX)
    requires firstSend == TotalSent(log) && firstRead == TotalRead(log)
    ensures sends == TotalSent(log + [pass]) && pass.endRead == TotalRead(log + [pass])
    ensures LogNotes(|plan.caps|, log) + notes == LogNotes(|plan.caps|, log + [pass])
    ensures end == None ==> round < cfg.maxRetryRounds && AllFailed(plan, cfg, bytes, env, log + [pass])
    ensures end.Some? ==> Concludes(plan, cfg, bytes, env, log + [pass], end.value)
  {
    var start := IndexOf(plan, env.tick(round));
    var final, lastErr;
    pass, final, lastErr, notes, sends := RunRound(plan, cfg, bytes, env, pause, start, firstRead, firstSend);
    LogCounts(|plan.caps|, log, pass);
    if final.Some? {
      DecisiveGrows(plan, cfg, bytes, env, log, pass, final.value);
      return pass, Some(EndOf(final.value)), notes, sends;
    }
    FailedGrows(plan, cfg, bytes, env, log, pass);
    if round < cfg.maxRetryRounds {
      return pass, None, notes, sends;
    }
    LastRoundExhausts(plan, cfg, bytes, env, log + [pass]);
    end := Some(Failed(lastErr.value));
  }

  /**
  A whole call. Every round that does not decide it has sent to at least one endpoint, so there
  always is a last error to report, and the loop always returns.
  */
  method Call(plan: Plan, cfg: Config, bytes: nat, env: Environment)
    returns (outcome: Outcome, log: seq<Round>, notes: seq<Note>)
    requires plan.Valid()
    ensures Concludes(plan, cfg, bytes, env, log, outcome)
    ensures notes == LogNotes(|plan.caps|, log)
  {
    log, notes := [], [];
    if EligibleEndpoints(plan, bytes) == {} {
      return Failed(RequestTooLarge), log, notes;
    }
    var backoff, nextRead, nextSend := cfg.initialBackoff, 0, 0;
    for round := 0 to cfg.maxRetryRounds + 1
      invariant round <= cfg.maxRetryRounds
      invariant |log| == round && AllFailed(plan, cfg, bytes, env, log)
      invariant backoff == Pause(cfg, Max(round, 1))
      invariant nextRead == TotalRead(log) && nextSend == TotalSent(log)
      invariant notes == LogNotes(|plan.caps|, log)
    {
      var pause, overflow;
      pause, overflow, backoff := PauseBefore(cfg, round, backoff);
      if overflow {
        return BackoffOverflow, log, notes;
      }
      var pass, end, passNotes;
      pass, end, passNotes, nextSend := NextRound(plan, cfg, bytes, env, pause, nextRead, nextSend, round, log);
      nextRead := pass.endRead;
      log := log + [pass];
      notes := notes + passNotes;
      if end.Some? {
        return end.value, log, notes;
      }
    }
    assert false;
  }

  // ---- consequences ----

  function CountNotes(notes: seq<Note>, successes: bool): nat {
    if notes == [] then 0
    else
      var last := notes[|notes| - 1];
      CountNotes(notes[..|notes| - 1], successes)
      + (if (if successes then last.RecordedSuccess? else last.RecordedRateLimit?) then 1 else 0)
  }

  lemma {:induction false} CountNotesAppend(a: seq<Note>, b: seq<Note>, successes: bool)
    ensures CountNotes(a + b, successes) == CountNotes(a, successes) + CountNotes(b, successes)
  {
    if b == [] {
      assert a + b == a;
    } else {
      CountNotesAppend(a, b[..|b| - 1], successes);
      assert (a + b)[..|a + b| - 1] == a + b[..|b| - 1];
    }
  }

  /** Replies of a pass that are answers, or that are rate limits. */
  function CountReplies(attempts: seq<Attempt>, answers: bool): nat {
    if attempts == [] then 0
    else
      var a := attempts[|attempts| - 1];
      CountReplies(attempts[..|attempts| - 1], answers)
      + (if a.Sent? && (if answers then a.reply.Ok? else a.reply.RateLimited()) then 1 else 0)
  }

  function CountAllReplies(log: seq<Round>, answers: bool): nat {
    if log == [] then 0
    else CountAllReplies(log[..|log| - 1], answers) + CountReplies(log[|log| - 1].attempts, answers)
  }

  lemma {:induction false} NotesCountReplies(n: nat, start: nat, attempts: seq<Attempt>, kind: bool)
    requires n > 0
    ensures CountNotes(NotesOf(n, start, attempts), kind) == CountReplies(attempts, kind)
  {
    if attempts != [] {
      var k := |attempts| - 1;
      NotesCountReplies(n, start, attempts[..k], kind);
      CountNotesAppend(NotesOf(n, start, attempts[..k]), NotesAt(n, start, k, attempts[k]), kind);
    }
  }

  lemma {:induction false} LogNotesCountReplies(n: nat, log: seq<Round>, kind: bool)
    requires n > 0
    ensures CountNotes(LogNotes(n, log), kind) == CountAllReplies(log, kind)
  {
    if log != [] {
      var k := |log| - 1;
      LogNotesCountReplies(n, log[..k], kind);
      NotesCountReplies(n, log[k].start, log[k].attempts, kind);
      CountNotesAppend(LogNotes(n, log[..k]), NotesOf(n, log[k].start, log[k].attempts), kind);
    }
  }

  lemma {:induction false} NoneFinalHasNoAnswer(attempts: seq<Attempt>)
    requires NoneFinal(attempts)
    ensures CountReplies(attempts, true) == 0
  {
    if attempts != [] {
      NoneFinalHasNoAnswer(attempts[..|attempts| - 1]);
    }
  }

  lemma FailedRoundFacts(plan: Plan, cfg: Config, bytes: nat, env: Environment, round: Round)
    requires plan.Valid() && FailedRound(plan, cfg, bytes, env, round)
    ensures OnlyEligible(plan, bytes, round) && CountReplies(round.attempts, true) == 0
    ensures 1 <= CountSent(round.attempts) <= |EligibleEndpoints(plan, bytes)|
  {
    NoneFinalHasNoAnswer(round.attempts);
    AttemptedIsEligible(plan, cfg, bytes, env, round);
    SendsPerPass(plan, bytes, round);
    SentOncePerPass(|plan.caps|, round.start, round.attempts);
    var p :| 0 <= p < |round.attempts| && round.attempts[p].Sent?;
    assert At(|plan.caps|, round.start, p) in SentTo(|plan.caps|, round.start, round.attempts);
  }

  lemma DecisiveRoundFacts(plan: Plan, cfg: Config, bytes: nat, env: Environment, round: Round, reply: Reply)
    requires plan.Valid() && DecisiveRound(plan, cfg, bytes, env, round, reply)
    ensures OnlyEligible(plan, bytes, round)
    ensures CountReplies(round.attempts, true) == if reply.Ok? then 1 else 0
    ensures CountSent(round.attempts) <= |EligibleEndpoints(plan, bytes)|
  {
    NoneFinalHasNoAnswer(round.attempts[..|round.attempts| - 1]);
    AttemptedIsEligible(plan, cfg, bytes, env, round);
    SendsPerPass(plan, bytes, round);
  }

  /** Every round sends only to endpoints that accept the request, after its pause. */
  ghost predicate Entitled(plan: Plan, cfg: Config, bytes: nat, log: seq<Round>)
    requires plan.Valid()
  {
    forall r :: 0 <= r < |log| ==> OnlyEligible(plan, bytes, log[r]) && log[r].pause == Pause(cfg, r)
  }

  /** Every round keeps to its entitlements, and there are at most as many sends per round as endpoints. */
  ghost predicate WithinBounds(plan: Plan, cfg: Config, bytes: nat, log: seq<Round>)
    requires plan.Valid()
  {
    Entitled(plan, cfg, bytes, log) && TotalSent(log) <= Times(|log|, |EligibleEndpoints(plan, bytes)|)
  }

  lemma EntitledMore(plan: Plan, cfg: Config, bytes: nat, log: seq<Round>)
    requires plan.Valid() && log != [] && Entitled(plan, cfg, bytes, log[..|log| - 1])
    requires var last := log[|log| - 1]; OnlyEligible(plan, bytes, last) && last.pause == Pause(cfg, |log| - 1)
    ensures Entitled(plan, cfg, bytes, log)
  {
    assert forall r :: 0 <= r < |log| - 1 ==> log[r] == log[..|log| - 1][r];
  }

  lemma WithinBoundsMore(plan: Plan, cfg: Config, bytes: nat, log: seq<Round>)
    requires plan.Valid() && log != [] && WithinBounds(plan, cfg, bytes, log[..|log| - 1])
    requires var last := log[|log| - 1];
             && OnlyEligible(plan, bytes, last) && last.pause == Pause(cfg, |log| - 1)
             && CountSent(last.attempts) <= |EligibleEndpoints(plan, bytes)|
    ensures WithinBounds(plan, cfg, bytes, log)
  {
    EntitledMore(plan, cfg, bytes, log);
  }

  lemma {:induction false} FailedRoundsBounds(plan: Plan, cfg: Config, bytes: nat, env: Environment, log: seq<Round>)
    requires plan.Valid() && AllFailed(plan, cfg, bytes, env, log)
    ensures WithinBounds(plan, cfg, bytes, log) && CountAllReplies(log, true) == 0 && |log| <= TotalSent(log)
  {
    if log != [] {
      FailedRoundsBounds(plan, cfg, bytes, env, log[..|log| - 1]);
      FailedRoundFacts(plan, cfg, bytes, env, log[|log| - 1]);
      WithinBoundsMore(plan, cfg, bytes, log);
    }
  }

  lemma DecidedBounds(plan: Plan, cfg: Config, bytes: nat, env: Environment, log: seq<Round>, reply: Reply)
    requires plan.Valid() && Decided(plan, cfg, bytes, env, log, reply)
    ensures WithinBounds(plan, cfg, bytes, log) && |log| <= 1 + cfg.maxRetryRounds
    ensures CountAllReplies(log, true) == if reply.Ok? then 1 else 0
  {
    FailedRoundsBounds(plan, cfg, bytes, env, log[..|log| - 1]);
    DecisiveRoundFacts(plan, cfg, bytes, env, log[|log| - 1], reply);
    WithinBoundsMore(plan, cfg, bytes, log);
  }

  /**
  A request that no endpoint accepts fails at once and is never sent. Otherwise a retryable error is
  returned only after all rounds, and is the last one of the last round; any other error ended its
  round, as an answer does.
  */
  lemma EndsExactly(plan: Plan, cfg: Config, bytes: nat, env: Environment, log: seq<Round>, outcome: Outcome)
    requires plan.Valid() && Concludes(plan, cfg, bytes, env, log, outcome)
    ensures EligibleEndpoints(plan, bytes) == {} <==> log == []
    ensures log == [] ==> outcome == Failed(RequestTooLarge)
    ensures outcome.Failed? && log != [] ==>
              if IsRetryable(outcome.error) then Exhausted(plan, cfg, bytes, env, log, outcome.error)
              else Decided(plan, cfg, bytes, env, log, Err(outcome.error))
    ensures outcome.Answered? ==> Decided(plan, cfg, bytes, env, log, Ok(outcome.response))
    ensures outcome.BackoffOverflow? ==> 2 * Pause(cfg, |log|) >= 0x1_0000_0000_0000_0000 * 1_000_000_000
  {
    if log != [] {
      var round := log[|log| - 1];
      assert Attempted(plan, cfg, bytes, env, round);
      AttemptedIsEligible(plan, cfg, bytes, env, round);
      var p :| 0 <= p < |round.attempts| && round.attempts[p].Sent?;
      assert At(|plan.caps|, round.start, p) in EligibleEndpoints(plan, bytes);
      if outcome.Failed? && Exhausted(plan, cfg, bytes, env, log, outcome.error) {
        SentHasLastError(round.attempts);
      }
    }
  }

  lemma OutcomeBounds(plan: Plan, cfg: Config, bytes: nat, env: Environment, log: seq<Round>, outcome: Outcome)
    requires plan.Valid() && Concludes(plan, cfg, bytes, env, log, outcome)
    ensures WithinBounds(plan, cfg, bytes, log) && |log| <= 1 + cfg.maxRetryRounds
    ensures CountAllReplies(log, true) == if outcome.Answered? then 1 else 0
  {
    if outcome.Answered? {
      DecidedBounds(plan, cfg, bytes, env, log, Ok(outcome.response));
    } else if outcome.Failed? && Decided(plan, cfg, bytes, env, log, Err(outcome.error)) {
      DecidedBounds(plan, cfg, bytes, env, log, Err(outcome.error));
    } else {
      FailedRoundsBounds(plan, cfg, bytes, env, log);
    }
  }

  /**
  Every call makes at most eligible * (1 + maxRetryRounds) sends, all to endpoints that accept
  the request, with the stated pauses; it records one success exactly when it returns an answer,
  and one rate limit for each 429.
  */
  lemma WholeCall(plan: Plan, cfg: Config, bytes: nat, env: Environment, log: seq<Round>, outcome: Outcome)
    requires plan.Valid() && Concludes(plan, cfg, bytes, env, log, outcome)
    ensures TotalSent(log) <= (1 + cfg.maxRetryRounds) * |EligibleEndpoints(plan, bytes)|
    ensures forall r :: 0 <= r < |log| ==> OnlyEligible(plan, bytes, log[r]) && log[r].pause == Pause(cfg, r)
    ensures var notes := LogNotes(|plan.caps|, log);
            && CountNotes(notes, true) == (if outcome.Answered? then 1 else 0)
            && CountNotes(notes, false) == CountAllReplies(log, false)
  {
    LogNotesCountReplies(|plan.caps|, log, true);
    LogNotesCountReplies(|plan.caps|, log, false);
    OutcomeBounds(plan, cfg, bytes, env, log, outcome);
    AtMostTimes(|log|, 1 + cfg.maxRetryRounds, |EligibleEndpoints(plan, bytes)|, TotalSent(log));
  }

  /** The doubling cannot overflow when twice the larger backoff is representable. */
  lemma NoOverflow(plan: Plan, cfg: Config, bytes: nat, env: Environment, log: seq<Round>, outcome: Outcome)
    requires plan.Valid() && Concludes(plan, cfg, bytes, env, log, outcome)
    requires 2 * Max(cfg.initialBackoff, cfg.maxBackoff) <= DURATION_MAX
    ensures !outcome.BackoffOverflow?
  {
    assert Pause(cfg, |log|) <= Max(cfg.initialBackoff, cfg.maxBackoff);
  }

  // ---- which endpoints are told what ----

  predicate IsAnswer(a: Attempt) {
    a.Sent? && a.reply.Ok?
  }

  predicate Is429(a: Attempt) {
    a.Sent? && a.reply.Err?
    && (a.reply.error == Http(429) || (a.reply.error.Custom? && a.reply.error.tooManyRequests))
  }

  /** The attempts of a pass at endpoint i that are of a kind. */
  function TimesAt(n: nat, start: nat, attempts: seq<Attempt>, i: nat, kind: Attempt -> bool): nat
    requires n > 0
  {
    if attempts == [] then 0
    else
      var p := |attempts| - 1;
      TimesAt(n, start, attempts[..p], i, kind) + (if At(n, start, p) == i && kind(attempts[p]) then 1 else 0)
  }

  function TimesInLog(n: nat, log: seq<Round>, i: nat, kind: Attempt -> bool): nat
    requires n > 0
  {
    if log == [] then 0
    else
      var last := log[|log| - 1];
      TimesInLog(n, log[..|log| - 1], i, kind) + TimesAt(n, last.start, last.attempts, i, kind)
  }

  /** What the throttle of endpoint i is told, in numbers. */
  ghost predicate ToldExactly(notes: seq<Note>, i: nat, answers: nat, limits: nat, skips: nat) {
    && multiset(notes)[RecordedSuccess(i)] == answers
    && multiset(notes)[RecordedRateLimit(i)] == limits
    && multiset(notes)[RecordedSkip(i)] == skips
  }

  lemma ToldMore(a: seq<Note>, b: seq<Note>, i: nat, answers: nat, limits: nat, skips: nat, more: (nat, nat, nat))
    requires ToldExactly(a, i, answers, limits, skips) && ToldExactly(b, i, more.0, more.1, more.2)
    ensures ToldExactly(a + b, i, answers + more.0, limits + more.1, skips + more.2)
  {
    assert multiset(a + b) == multiset(a) + multiset(b);
  }

  function One(b: bool): nat {
    if b then 1 else 0
  }

  lemma ToldAt(n: nat, start: nat, p: nat, a: Attempt, i: nat)
    requires n > 0
    ensures var here := At(n, start, p) == i;
            ToldExactly(NotesAt(n, start, p, a), i, One(here && IsAnswer(a)), One(here && Is429(a)), One(here && a.Skipped?))
  {
  }

  lemma {:induction false} ToldInPass(n: nat, start: nat, attempts: seq<Attempt>, i: nat)
    requires n > 0
    ensures ToldExactly(NotesOf(n, start, attempts), i, TimesAt(n, start, attempts, i, IsAnswer),
                        TimesAt(n, start, attempts, i, Is429), TimesAt(n, start, attempts, i, (a: Attempt) => a.Skipped?))
  {
    if attempts != [] {
      var p := |attempts| - 1;
      var here, a := At(n, start, p) == i, attempts[p];
      ToldInPass(n, start, attempts[..p], i);
      ToldAt(n, start, p, a, i);
      ToldMore(NotesOf(n, start, attempts[..p]), NotesAt(n, start, p, a), i,
               TimesAt(n, start, attempts[..p], i, IsAnswer), TimesAt(n, start, attempts[..p], i, Is429),
               TimesAt(n, start, attempts[..p], i, (a: Attempt) => a.Skipped?),
               (One(here && IsAnswer(a)), One(here && Is429(a)), One(here && a.Skipped?)));
    }
  }

  /**
  In a whole call the throttle of endpoint i is told of a success for each answer it gave, of a rate
  limit for each 429 it sent, and of a skip for each time it was skipped, and of nothing else.
  */
  lemma {:induction false} ToldInCall(n: nat, log: seq<Round>, i: nat)
    requires n > 0
    ensures ToldExactly(LogNotes(n, log), i, TimesInLog(n, log, i, IsAnswer), TimesInLog(n, log, i, Is429),
                        TimesInLog(n, log, i, (a: Attempt) => a.Skipped?))
  {
    if log != [] {
      var k := |log| - 1;
      var start, attempts := log[k].start, log[k].attempts;
      ToldInCall(n, log[..k], i);
      ToldInPass(n, start, attempts, i);
      ToldMore(LogNotes(n, log[..k]), NotesOf(n, start, attempts), i,
               TimesInLog(n, log[..k], i, IsAnswer), TimesInLog(n, log[..k], i, Is429),
               TimesInLog(n, log[..k], i, (a: Attempt) => a.Skipped?),
               (TimesAt(n, start, attempts, i, IsAnswer), TimesAt(n, start, attempts, i, Is429),
                TimesAt(n, start, attempts, i, (a: Attempt) => a.Skipped?)));
    }
  }

  // ---- what fails over, and what is too large ----

  /** Every round is a failed one, or the last and decisive. */
  lemma {:induction false} FailedAt(plan: Plan, cfg: Config, bytes: nat, env: Environment, log: seq<Round>, r: nat)
    requires plan.Valid() && AllFailed(plan, cfg, bytes, env, log) && r < |log|
    ensures FailedRound(plan, cfg, bytes, env, log[r])
  {
    var k := |log| - 1;
    if r < k {
      FailedAt(plan, cfg, bytes, env, log[..k], r);
    }
  }

  lemma RoundKinds(plan: Plan, cfg: Config, bytes: nat, env: Environment, log: seq<Round>, outcome: Outcome, r: nat)
    returns (reply: Reply)
    requires plan.Valid() && Concludes(plan, cfg, bytes, env, log, outcome) && r < |log|
    ensures FailedRound(plan, cfg, bytes, env, log[r])
            || (r == |log| - 1 && outcome == EndOf(reply) && DecisiveRound(plan, cfg, bytes, env, log[r], reply))
  {
    reply := if outcome.Answered? then Ok(outcome.response) else if outcome.Failed? then Err(outcome.error) else Ok(0);
    if AllFailed(plan, cfg, bytes, env, log) {
      FailedAt(plan, cfg, bytes, env, log, r);
    } else if r < |log| - 1 {
      assert log[..|log| - 1][r] == log[r];
      FailedAt(plan, cfg, bytes, env, log[..|log| - 1], r);
    }
  }

  /**
  What a reply does to the call. An answer ends it. So do HTTP errors other than 413, 429, 502, 503
  and 504, custom errors that mention neither a time-out nor a connection nor too many requests, and
  all remaining kinds. Any other error ends a round only when the pass is complete.
  */
  lemma FailsOverExactly(plan: Plan, cfg: Config, bytes: nat, env: Environment, log: seq<Round>, outcome: Outcome,
                         r: nat, p: nat)
    requires plan.Valid() && Concludes(plan, cfg, bytes, env, log, outcome)
    requires r < |log| && p < |log[r].attempts| && log[r].attempts[p].Sent?
    ensures var reply, passes := log[r].attempts[p].reply, |log[r].attempts| > p + 1 || |log[r].attempts| == |plan.caps|;
            var ends := r == |log| - 1 && p == |log[r].attempts| - 1 && outcome == EndOf(reply);
            match reply {
              case Ok(_) => ends
              case Err(Http(status)) =>
                if status == 413 || status == 429 || status == 502 || status == 503 || status == 504 then passes else ends
              case Err(Custom(timedOut, connection, tooMany)) => if timedOut || connection || tooMany then passes else ends
              case Err(BackendGone) => passes
              case Err(_) => ends
            }
  {
    var reply := RoundKinds(plan, cfg, bytes, env, log, outcome, r);
    var attempts := log[r].attempts;
    if !FailedRound(plan, cfg, bytes, env, log[r]) && p < |attempts| - 1 {
      assert attempts[..|attempts| - 1][p] == attempts[p];
    }
  }

  /**
  An endpoint is left out exactly if its cap is below the size of the request, and the call fails as
  too large without a send exactly if every cap is.
  */
  lemma CapsExactly(plan: Plan, cfg: Config, bytes: nat, env: Environment, log: seq<Round>, outcome: Outcome)
    requires plan.Valid() && Concludes(plan, cfg, bytes, env, log, outcome)
    ensures log == [] <==> forall i :: 0 <= i < |plan.caps| ==> plan.caps[i].Some? && plan.caps[i].value < bytes
    ensures log == [] ==> outcome == Failed(RequestTooLarge)
    ensures forall r, p :: 0 <= r < |log| && 0 <= p < |log[r].attempts| ==>
              var cap := plan.caps[At(|plan.caps|, log[r].start, p)];
              log[r].attempts[p].Ineligible? <==> cap.Some? && cap.value < bytes
  {
    EndsExactly(plan, cfg, bytes, env, log, outcome);
    if log != [] {
      var i :| i in EligibleEndpoints(plan, bytes);
      assert Accepts(plan, bytes, i);
    } else {
      forall i | 0 <= i < |plan.caps|
        ensures plan.caps[i].Some? && plan.caps[i].value < bytes
      {
        assert i !in EligibleEndpoints(plan, bytes);
      }
    }
    forall r, p | 0 <= r < |log| && 0 <= p < |log[r].attempts|
      ensures var cap := plan.caps[At(|plan.caps|, log[r].start, p)];
              log[r].attempts[p].Ineligible? <==> cap.Some? && cap.value < bytes
    {
      ConcludedAttempted(plan, cfg, bytes, env, log, outcome, r);
      LawfulAt(plan, cfg, bytes, env, log[r].start, log[r].firstRead, log[r].firstSend, log[r].attempts, p);
    }
  }

  // ---- the default configuration ----

  const DEFAULT: Config := Config(3, 100_000_000, 4_000_000_000, 75_000_000, 500_000_000)

  /** By default the pauses are 100, 200 and 400 ms, 700 ms in all, and no call overflows. */
  lemma DefaultPauses(plan: Plan, bytes: nat, env: Environment, log: seq<Round>, outcome: Outcome)
    requires plan.Valid() && Concludes(plan, DEFAULT, bytes, env, log, outcome)
    ensures Pause(DEFAULT, 1) == 100_000_000 && Pause(DEFAULT, 2) == 200_000_000 && Pause(DEFAULT, 3) == 400_000_000
    ensures |log| == 4 ==> TotalPause(log) == 700_000_000
    ensures !outcome.BackoffOverflow?
  {
    NoOverflow(plan, DEFAULT, bytes, env, log, outcome);
    DefaultPause();
    if |log| == 4 {
      WholeCall(plan, DEFAULT, bytes, env, log, outcome);
      FourPauses(log);
    }
  }

  lemma DefaultPause()
    ensures Pause(DEFAULT, 1) == 100_000_000 && Pause(DEFAULT, 2) == 200_000_000 && Pause(DEFAULT, 3) == 400_000_000
  {
    assert Pause(DEFAULT, 2) == Min(2 * Pause(DEFAULT, 1), 4_000_000_000);
    assert Pause(DEFAULT, 3) == Min(2 * Pause(DEFAULT, 2), 4_000_000_000);
  }

  lemma FourPauses(log: seq<Round>)
    requires |log| == 4
    ensures TotalPause(log) == log[0].pause + log[1].pause + log[2].pause + log[3].pause
  {
    var one := [log[0]];
    var two := one + [log[1]];
    var three := two + [log[2]];
    assert log == three + [log[3]] && one == [] + [log[0]];
    OnePauseMore([], log[0]);
    OnePauseMore(one, log[1]);
    OnePauseMore(two, log[2]);
    OnePauseMore(three, log[3]);
  }

  lemma OnePauseMore(log: seq<Round>, round: Round)
    ensures TotalPause(log + [round]) == TotalPause(log) + round.pause
  {
    assert (log + [round])[..|log|] == log;
  }

  // ---- skips and sends of a round ----

  /**
  At every position that was reached: with readings of its own, skipped exactly if the endpoint is
  eligible, was read as heavy, and the look ahead of this attempt took a light reading.
  */
  ghost predicate SkipsJustified(plan: Plan, cfg: Config, bytes: nat, env: Environment, round: Round, p: nat)
    requires |plan.caps| > 0 && p < |round.attempts|
  {
    var a := round.attempts[p];
    var k := ReadsAt(plan, cfg, bytes, env, round.start, round.firstRead, p);
    var to := ReadsAt(plan, cfg, bytes, env, round.start, round.firstRead, p + 1);
    && (!a.Ineligible? ==> k < to <= round.endRead && a.delay == env.reading(k, At(|plan.caps|, round.start, p)))
    && (a.Skipped? <==>
          && !a.Ineligible? && a.delay >= cfg.heavyThrottleThreshold
          && SawLight(plan, cfg, bytes, env, round.start, p + 1, k + 1, to))
  }

  lemma AttemptedJustified(plan: Plan, cfg: Config, bytes: nat, env: Environment, round: Round, p: nat)
    requires |plan.caps| > 0 && Attempted(plan, cfg, bytes, env, round) && p < |round.attempts|
    ensures SkipsJustified(plan, cfg, bytes, env, round, p)
  {
    LawfulAt(plan, cfg, bytes, env, round.start, round.firstRead, round.firstSend, round.attempts, p);
    var k := ReadsAt(plan, cfg, bytes, env, round.start, round.firstRead, p);
    LookExactly(plan, cfg, bytes, env, round.start, p + 1, k + 1);
    ReadsGrow(plan, cfg, bytes, env, round.start, round.firstRead, p + 1, |round.attempts|);
  }

  lemma {:induction false} RoundsAttempted(plan: Plan, cfg: Config, bytes: nat, env: Environment, log: seq<Round>, r: nat)
    requires plan.Valid() && AllFailed(plan, cfg, bytes, env, log) && r < |log|
    ensures Attempted(plan, cfg, bytes, env, log[r])
  {
    var k := |log| - 1;
    if r < k {
      RoundsAttempted(plan, cfg, bytes, env, log[..k], r);
    }
  }

  lemma ConcludedAttempted(plan: Plan, cfg: Config, bytes: nat, env: Environment, log: seq<Round>, outcome: Outcome, r: nat)
    requires plan.Valid() && Concludes(plan, cfg, bytes, env, log, outcome) && r < |log|
    ensures Attempted(plan, cfg, bytes, env, log[r])
  {
    if AllFailed(plan, cfg, bytes, env, log) {
      RoundsAttempted(plan, cfg, bytes, env, log, r);
    } else if r < |log| - 1 {
      assert log[..|log| - 1][r] == log[r];
      RoundsAttempted(plan, cfg, bytes, env, log[..|log| - 1], r);
    }
  }

  /** In every round of every call an endpoint is skipped exactly if the readings of that attempt justify it. */
  lemma SkipsExactly(plan: Plan, cfg: Config, bytes: nat, env: Environment, log: seq<Round>, outcome: Outcome, r: nat, p: nat)
    requires plan.Valid() && Concludes(plan, cfg, bytes, env, log, outcome) && r < |log| && p < |log[r].attempts|
    ensures SkipsJustified(plan, cfg, bytes, env, log[r], p)
  {
    ConcludedAttempted(plan, cfg, bytes, env, log, outcome, r);
    AttemptedJustified(plan, cfg, bytes, env, log[r], p);
  }

  // ---- the shape of a round under steady readings ----

  /** Throttle readings from number from up to to agree with the first reading of the round. */
  ghost predicate Steady(env: Environment, base: nat, from: nat, to: nat) {
    forall k, i :: from <= k < to ==> env.reading(k, i) == env.reading(base, i)
  }

  ghost predicate Light(plan: Plan, cfg: Config, env: Environment, base: nat, start: nat, p: nat)
    requires |plan.caps| > 0
  {
    LightReading(plan, cfg, env, start, p, base)
  }

  /** Some eligible position from q on is light. */
  ghost predicate LightFrom(plan: Plan, cfg: Config, bytes: nat, env: Environment, base: nat, start: nat, q: nat)
    requires |plan.caps| > 0
  {
    exists r :: q <= r < |plan.caps| && Eligible(plan, bytes, start, r) && Light(plan, cfg, env, base, start, r)
  }

  lemma SteadyShape(plan: Plan, cfg: Config, bytes: nat, env: Environment, round: Round, p: nat)
    requires |plan.caps| > 0 && Attempted(plan, cfg, bytes, env, round) && p < |round.attempts|
    requires Steady(env, round.firstRead, round.firstRead, round.endRead)
    ensures round.attempts[p].Sent? <==>
            && Eligible(plan, bytes, round.start, p)
            && (|| Light(plan, cfg, env, round.firstRead, round.start, p)
                || !LightFrom(plan, cfg, bytes, env, round.firstRead, round.start, p + 1))
  {
    LawfulAt(plan, cfg, bytes, env, round.start, round.firstRead, round.firstSend, round.attempts, p);
    AttemptedJustified(plan, cfg, bytes, env, round, p);
    ReadsGrow(plan, cfg, bytes, env, round.start, round.firstRead, 0, p);
    var k := ReadsAt(plan, cfg, bytes, env, round.start, round.firstRead, p);
    LookExactly(plan, cfg, bytes, env, round.start, p + 1, k + 1);
    if Eligible(plan, bytes, round.start, p) {
      SteadyLook(plan, cfg, bytes, env, round.start, p + 1, k + 1, round.firstRead, round.endRead);
    }
  }

  /** Under steady readings a look ahead succeeds exactly if a later eligible position is light. */
  lemma SteadyLook(plan: Plan, cfg: Config, bytes: nat, env: Environment, start: nat, q: nat, k: nat, base: nat, end: nat)
    requires |plan.caps| > 0 && Steady(env, base, base, end)
    requires base <= k && Look(plan, cfg, bytes, env, start, q, k).1 <= end
    ensures Look(plan, cfg, bytes, env, start, q, k).0 <==> LightFrom(plan, cfg, bytes, env, base, start, q)
  {
    var (found, to) := Look(plan, cfg, bytes, env, start, q, k);
    LookExactly(plan, cfg, bytes, env, start, q, k);
    if found {
      var r :| q <= r < |plan.caps| && LightAt(plan, cfg, bytes, env, start, q, k, to, r);
      assert Light(plan, cfg, env, base, start, r);
    } else if LightFrom(plan, cfg, bytes, env, base, start, q) {
      var r :| q <= r < |plan.caps| && Eligible(plan, bytes, start, r) && Light(plan, cfg, env, base, start, r);
      assert LightAt(plan, cfg, bytes, env, start, q, k, to, r);
    }
  }

  /**
  The shape of a round whose throttle readings did not move, in any call: with a last light
  eligible position, everything eligible that is light or comes after it is tried; without one,
  everything eligible is.
  */
  lemma ShapeOfRound(plan: Plan, cfg: Config, bytes: nat, env: Environment, log: seq<Round>, outcome: Outcome,
                     r: nat, last: nat)
    requires plan.Valid() && Concludes(plan, cfg, bytes, env, log, outcome) && r < |log|
    requires Steady(env, log[r].firstRead, log[r].firstRead, log[r].endRead)
    ensures var round := log[r];
            !LightFrom(plan, cfg, bytes, env, round.firstRead, round.start, 0) ==>
              forall p :: 0 <= p < |round.attempts| ==>
                (round.attempts[p].Sent? <==> Eligible(plan, bytes, round.start, p))
    ensures var round := log[r];
            last < |plan.caps| && Eligible(plan, bytes, round.start, last)
            && Light(plan, cfg, env, round.firstRead, round.start, last)
            && !LightFrom(plan, cfg, bytes, env, round.firstRead, round.start, last + 1) ==>
              forall p :: 0 <= p < |round.attempts| ==>
                (round.attempts[p].Sent? <==>
                   Eligible(plan, bytes, round.start, p)
                   && (p > last || Light(plan, cfg, env, round.firstRead, round.start, p)))
  {
    ConcludedAttempted(plan, cfg, bytes, env, log, outcome, r);
    forall p | 0 <= p < |log[r].attempts|
      ensures log[r].attempts[p].Sent? <==>
              && Eligible(plan, bytes, log[r].start, p)
              && (|| Light(plan, cfg, env, log[r].firstRead, log[r].start, p)
                  || !LightFrom(plan, cfg, bytes, env, log[r].firstRead, log[r].start, p + 1))
    {
      SteadyShape(plan, cfg, bytes, env, log[r], p);
    }
  }
}
