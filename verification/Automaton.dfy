/**
 The digest a node signs for a height: the validator's, retried within a time budget, or the
 skip digest. Times are in milliseconds; `clock(k)` is the time when attempt k came back.
 */
module Automaton {
  import opened Common
  import opened Wire
  import opened TaskBook

  const INITIAL_RETRY_BACKOFF: nat := 500
  const MAX_RETRY_BACKOFF: nat := 5000

  /** The delay slept after failed attempt k. */
  function Backoff(k: nat): nat {
    if k == 0 then INITIAL_RETRY_BACKOFF else Min(2 * Backoff(k - 1), MAX_RETRY_BACKOFF)
  }

  /** The delays slept before attempt k. */
  function SleptBefore(k: nat): nat {
    if k == 0 then 0 else SleptBefore(k - 1) + Backoff(k - 1)
  }

  /** Time passes at least by every delay slept. */
  ghost predicate Advances(clock: nat -> nat, start: nat) {
    clock(0) >= start && forall k: nat :: clock(k + 1) >= clock(k) + Backoff(k)
  }

  lemma {:induction false} ClockAfterSleeps(clock: nat -> nat, start: nat, k: nat)
    requires Advances(clock, start)
    ensures clock(k) >= start + SleptBefore(k)
  {
    if k > 0 {
      ClockAfterSleeps(clock, start, k - 1);
      assert clock(k - 1 + 1) >= clock(k - 1) + Backoff(k - 1);
    }
  }

  /** The backoff doubles from half a second and stays at five seconds from the fifth delay on. */
  lemma {:induction false} SleptClosedForm(k: nat)
    requires k >= 4
    ensures Backoff(k) == 5000
    ensures SleptBefore(k) == 7500 + 5000 * (k - 4)
  {
    if k == 4 {
      assert Backoff(0) == 500 && Backoff(1) == 1000 && Backoff(2) == 2000 && Backoff(3) == 4000;
      assert SleptBefore(1) == 500 && SleptBefore(2) == 1500 && SleptBefore(3) == 3500;
    } else {
      SleptClosedForm(k - 1);
    }
  }

  /** A budget bounds the retries that fit in it. */
  lemma RetriesBounded(retries: nat, budget: nat)
    requires SleptBefore(retries) < budget
    ensures retries <= 4 + SatSub(budget, 7500) / 5000
  {
    if retries > 4 {
      SleptClosedForm(retries);
    }
  }

  /** Attempt k failed, and the delay after it ended before the deadline. */
  ghost predicate Retried(validator: nat -> Option<Digest>, clock: nat -> nat, start: nat, budget: nat, k: nat) {
    validator(k).None? && clock(k) + Backoff(k) < start + budget
  }

  /**
   Asks the validator until it answers or the next delay would not end before the deadline.
   `attempts` and `slept` count what was done.
   */
  method DigestForAnnounce(namespace: seq<Byte>, height: nat, validator: nat -> Option<Digest>,
                           clock: nat -> nat, start: nat, budget: nat)
    returns (digest: Digest, attempts: nat, slept: nat)
    requires Advances(clock, start)
    ensures attempts >= 1
    ensures forall k :: 0 <= k < attempts - 1 ==> Retried(validator, clock, start, budget, k)
    ensures validator(attempts - 1).Some? ==> digest == validator(attempts - 1).value
    ensures validator(attempts - 1).None? ==>
              digest == SkipDigest(namespace, height) &&
              clock(attempts - 1) + Backoff(attempts - 1) >= start + budget
    ensures slept == SleptBefore(attempts - 1)
    ensures attempts > 1 ==> slept < budget
    ensures attempts <= 5 + SatSub(budget, 7500) / 5000
  {
    var deadline := start + budget;
    var backoff := INITIAL_RETRY_BACKOFF;
    attempts, slept := 0, 0;
    while true
      invariant backoff == Backoff(attempts) && backoff > 0
      invariant slept == SleptBefore(attempts)
      invariant attempts > 0 ==> slept < budget
      invariant forall k :: 0 <= k < attempts ==> Retried(validator, clock, start, budget, k)
      decreases deadline - clock(attempts)
    {
      ClockAfterSleeps(clock, start, attempts);
      var now := clock(attempts);
      attempts := attempts + 1;
      match validator(attempts - 1) {
        case Some(answer) =>
          digest := answer;
          if attempts > 1 {
            RetriesBounded(attempts - 1, budget);
          }
          return;
        case None =>
          if now + backoff < deadline {
            slept := slept + backoff;
            backoff := Min(backoff * 2, MAX_RETRY_BACKOFF);
            assert clock(attempts - 1 + 1) >= clock(attempts - 1) + Backoff(attempts - 1);
          } else {
            digest := SkipDigest(namespace, height);
            if attempts > 1 {
              RetriesBounded(attempts - 1, budget);
            }
            return;
          }
      }
    }
  }

  /** What a node may sign for a height that resolved to r, whatever its validator does over time. */
  ghost predicate MaySign<T>(namespace: seq<Byte>, height: nat, r: Resolution<T>, validate: T -> Digest,
                             digest: Digest) {
    digest == SkipDigest(namespace, height) || (r.Announced? && digest == validate(r.task))
  }

  /** The attempts on the task up to attempt n: all earlier ones were retried, and n decided the digest. */
  ghost predicate Decided<T>(namespace: seq<Byte>, height: nat, attempt: (T, nat) -> Option<Digest>, task: T,
                             clock: nat -> nat, start: nat, budget: nat, n: nat, digest: Digest) {
    && (forall k :: 0 <= k < n ==> attempt(task, k).None? && clock(k) + Backoff(k) < start + budget)
    && match attempt(task, n)
       case Some(answer) => digest == answer
       case None => digest == SkipDigest(namespace, height) && clock(n) + Backoff(n) >= start + budget
  }

  /** The digest is decided by one attempt only: the first that came back, or that was too late to retry. */
  lemma AttemptsDecide<T>(namespace: seq<Byte>, height: nat, attempt: (T, nat) -> Option<Digest>, task: T,
                          clock: nat -> nat, start: nat, budget: nat, n: nat, digest: Digest)
    requires Decided(namespace, height, attempt, task, clock, start, budget, n, digest)
    ensures forall m: nat, other: Digest ::
              Decided(namespace, height, attempt, task, clock, start, budget, m, other) ==> m == n && other == digest
  {
  }

  /** Resolves the engine's request; nothing is signed if the task book is gone. */
  method Resolve<T>(namespace: seq<Byte>, height: nat, resolution: Option<Resolution<T>>, ghost validate: T -> Digest,
                    attempt: (T, nat) -> Option<Digest>, clock: nat -> nat, start: nat, budget: nat)
    returns (digest: Option<Digest>)
    requires Advances(clock, start)
    requires forall t: T, k: nat {:trigger attempt(t, k)} :: attempt(t, k).Some? ==> attempt(t, k).value == validate(t)
    ensures digest.Some? <==> resolution.Some?
    ensures digest.Some? ==> MaySign(namespace, height, resolution.value, validate, digest.value)
    ensures resolution == Some(Skipped) ==> digest == Some(SkipDigest(namespace, height))
    ensures resolution.Some? && resolution.value.Announced? ==>
              exists n: nat :: Decided(namespace, height, attempt, resolution.value.task, clock, start, budget,
                                       n, digest.value)
    ensures resolution.Some? && resolution.value.Announced? && attempt(resolution.value.task, 0).Some? ==>
              digest == Some(validate(resolution.value.task))
  {
    match resolution {
      case None => return None;
      case Some(Skipped) => return Some(SkipDigest(namespace, height));
      case Some(Announced(task)) =>
        var validator := (k: nat) => attempt(task, k);
        var d, attempts, slept := DigestForAnnounce(namespace, height, validator, clock, start, budget);
        forall k | 0 <= k < attempts - 1 ensures attempt(task, k).None? && clock(k) + Backoff(k) < start + budget {
          assert Retried(validator, clock, start, budget, k);
        }
        assert validator(attempts - 1) == attempt(task, attempts - 1);
        digest := Some(d);
        ghost var n: nat := attempts - 1;
        assert Decided(namespace, height, attempt, resolution.value.task, clock, start, budget, n, digest.value);
        return;
    }
  }
}
