/**
 The router's consumer of certificates: classifies each certified height, submits the
 expected ones with bounded retries, and reports one disposition per certificate.

 Keys, hashes and addresses are numbers; the registry and the key hash are functions.
 The chain is an oracle: whether the block number and each registry lookup come back, and
 what the final call returns.
 */
module Submitter {
  import opened Common
  import opened Wire
  import opened Sequencer
  import opened CertReporter

  /** Retries after the first failed attempt. */
  const MAX_RETRIES: nat := 2

  /** Milliseconds before the first retry; doubles per attempt. */
  const INITIAL_RETRY_BACKOFF: nat := 2000

  datatype SubmitResult = Submitted(status: Option<bool>) | Failed

  /** What the chain does during one attempt; `lookupOk` is by signer slot. */
  datatype Chain = Chain(blockNumberOk: bool, lookupOk: nat -> bool, outcome: SubmitResult)

  /** One certificate with the assignments at the time it is read and its signers' keys in participant order. */
  datatype Job<T> = Job(
    certified: CertifiedHeight,
    assignments: map<nat, Assignment<T>>,
    g2Keys: seq<nat>,
    g1Points: seq<nat>,
    chain: nat -> Chain
  )

  /** A slot that missed the cache, its key, and its key hash. */
  type Miss = (nat, nat, nat)

  /** Whether the certificate is for the task assigned to its height, and not an abandoned height. */
  predicate Expected<T>(namespace: seq<Byte>, assignments: map<nat, Assignment<T>>, c: CertifiedHeight) {
    c.digest != SkipDigest(namespace, c.height) && c.height in assignments && assignments[c.height].digest == c.digest
  }

  /** The disposition of a certificate that is not submitted. */
  function Unsubmitted(namespace: seq<Byte>, c: CertifiedHeight): ResolutionKind {
    if c.digest == SkipDigest(namespace, c.height) then Skipped else Foreign
  }

  /** The attempts one certificate may take: all but the last failed, and giving up takes MAX_RETRIES + 1 of them. */
  predicate Attempts(tries: seq<SubmitResult>) {
    && 1 <= |tries| <= MAX_RETRIES + 1
    && (forall i :: 0 <= i < |tries| - 1 ==> tries[i].Failed?)
    && (tries[|tries| - 1].Failed? ==> |tries| == MAX_RETRIES + 1)
  }

  predicate Succeeded(result: SubmitResult) {
    result.Submitted? && (result.status.None? || result.status.value)
  }

  /** The delays slept before n retries. */
  function Backoffs(n: nat): seq<nat> {
    if n == 0 then [] else Backoffs(n - 1) + [Delay(n - 1)]
  }

  function Delay(k: nat): nat {
    if k == 0 then INITIAL_RETRY_BACKOFF else 2 * Delay(k - 1)
  }

  /** One certificate sleeps at most twice, two and four seconds, and stops at the first attempt that comes back. */
  lemma RetryBounds(tries: seq<SubmitResult>)
    requires Attempts(tries)
    ensures Backoffs(|tries| - 1) <= [2000, 4000]
    ensures forall i :: 0 <= i < |tries| && tries[i].Submitted? ==> i == |tries| - 1
    ensures (forall i :: 0 <= i < |tries| ==> tries[i].Failed?) <==>
              |tries| == 3 && tries[2].Failed?
    ensures (forall i :: 0 <= i < |tries| ==> tries[i].Failed?) ==> Backoffs(|tries| - 1) == [2000, 4000]
  {
    assert Backoffs(1) == [2000] && Backoffs(2) == [2000, 4000];
  }

  class Submitter<T> {
    const namespace: seq<Byte>
    /** The registered G1 point of a G2 key, the key hash, and the address the registry holds for a hash. */
    const g1Of: nat -> nat
    const pubkeyHash: nat -> Option<nat>
    const registry: nat -> nat

    var operatorCache: map<nat, nat>
    /** Everything sent to the sequencer, the result of every attempt, and every delay, in order. */
    var resolutions: seq<Resolution>
    var tries: seq<SubmitResult>
    var slept: seq<nat>

    constructor (namespace: seq<Byte>, g1Of: nat -> nat, pubkeyHash: nat -> Option<nat>, registry: nat -> nat)
      ensures this.namespace == namespace && this.g1Of == g1Of
      ensures this.pubkeyHash == pubkeyHash && this.registry == registry
      ensures operatorCache == map[] && resolutions == [] && tries == [] && slept == []
      ensures CacheCorrect()
    {
      this.namespace, this.g1Of, this.pubkeyHash, this.registry := namespace, g1Of, pubkeyHash, registry;
      operatorCache, resolutions, tries, slept := map[], [], [], [];
    }

    /** What a direct registry lookup of a signer's key answers. */
    function Address(g2: nat): Option<nat> {
      match pubkeyHash(g1Of(g2))
      case Some(hash) => Some(registry(hash))
      case None => None
    }

    /** The cache never disagrees with a direct lookup. */
    ghost predicate CacheCorrect()
      reads this
    {
      forall k :: k in operatorCache ==> Address(k) == Some(operatorCache[k])
    }

    /** The two key lists are aligned signer by signer. */
    ghost predicate Aligned(g2Keys: seq<nat>, g1Points: seq<nat>) {
      |g2Keys| == |g1Points| && forall i :: 0 <= i < |g2Keys| ==> g1Points[i] == g1Of(g2Keys[i])
    }

    /** What phase 1 records of a miss. */
    ghost predicate IsMiss(miss: Miss, g2Keys: seq<nat>) {
      miss.0 < |g2Keys| && miss.1 == g2Keys[miss.0] && pubkeyHash(g1Of(miss.1)) == Some(miss.2)
    }

    /** A filled slot holds the signer's address, which is in the cache. */
    ghost predicate SlotsCorrect(slots: seq<Option<nat>>, g2Keys: seq<nat>)
      reads this
    {
      && |slots| == |g2Keys|
      && forall j :: 0 <= j < |slots| && slots[j].Some? ==> slots[j] == Address(g2Keys[j]) && g2Keys[j] in operatorCache
    }

    /** Every signer is known or its key can be hashed. */
    ghost predicate Hashable(cached: set<nat>, keys: seq<nat>) {
      forall i :: 0 <= i < |keys| ==> keys[i] in cached || Address(keys[i]).Some?
    }

    /** The misses are the slots of the signers not known, each once and in slot order. */
    ghost predicate MissesOf(cached: set<nat>, keys: seq<nat>, misses: seq<Miss>) {
      && (forall j :: 0 <= j < |keys| && keys[j] !in cached ==> exists l :: 0 <= l < |misses| && misses[l].0 == j)
      && (forall l :: 0 <= l < |misses| ==> IsMiss(misses[l], keys) && misses[l].1 !in cached)
      && (forall k, l :: 0 <= k < l < |misses| ==> misses[k].0 < misses[l].0)
    }

    /** Phase 1: cache hits fill their slots, every other slot is recorded as a miss. */
    method CollectMisses(g2Keys: seq<nat>, g1Points: seq<nat>)
      returns (slots: seq<Option<nat>>, misses: seq<Miss>, ok: bool)
      requires Aligned(g2Keys, g1Points) && CacheCorrect()
      ensures ok <==> Hashable(operatorCache.Keys, g2Keys)
      ensures ok ==> SlotsCorrect(slots, g2Keys)
      ensures ok ==> forall j :: 0 <= j < |slots| ==> (slots[j].Some? <==> g2Keys[j] in operatorCache)
      ensures ok ==> MissesOf(operatorCache.Keys, g2Keys, misses)
    {
      slots, misses, ok := [], [], true;
      for i := 0 to |g2Keys|
        invariant |slots| == i
        invariant forall j :: 0 <= j < i ==> g2Keys[j] in operatorCache || Address(g2Keys[j]).Some?
        invariant forall j :: 0 <= j < i && slots[j].Some? ==> slots[j] == Address(g2Keys[j])
        invariant forall j :: 0 <= j < i ==> (slots[j].Some? <==> g2Keys[j] in operatorCache)
        invariant forall j :: 0 <= j < i && slots[j].None? ==> exists l :: 0 <= l < |misses| && misses[l].0 == j
        invariant forall l :: 0 <= l < |misses| ==>
                    IsMiss(misses[l], g2Keys) && misses[l].1 !in operatorCache && misses[l].0 < i
        invariant forall k, l :: 0 <= k < l < |misses| ==> misses[k].0 < misses[l].0
      {
        if g2Keys[i] in operatorCache {
          slots := slots + [Some(operatorCache[g2Keys[i]])];
        } else {
          slots := slots + [None];
          match pubkeyHash(g1Points[i]) {
            case None =>
              return slots, misses, false;
            case Some(hash) =>
              ghost var before := misses;
              misses := misses + [(i, g2Keys[i], hash)];
              assert misses[|before|].0 == i;
              assert forall l :: 0 <= l < |before| ==> misses[l] == before[l];
          }
        }
      }
    }

    /**
     Phase 2: the looked-up addresses are written back one by one, up to the first failed lookup;
     `done` of them are.
     */
    method WriteBack(g2Keys: seq<nat>, slots: seq<Option<nat>>, misses: seq<Miss>, lookupOk: nat -> bool)
      returns (filled: seq<Option<nat>>, ok: bool, ghost done: nat)
      requires CacheCorrect() && SlotsCorrect(slots, g2Keys)
      requires forall l :: 0 <= l < |misses| ==> IsMiss(misses[l], g2Keys)
      modifies this`operatorCache
      ensures CacheCorrect() && SlotsCorrect(filled, g2Keys)
      ensures StoppedAt(misses, lookupOk, done) && (ok <==> done == |misses|)
      ensures Extends(slots, filled) && (ok ==> AllFilled(filled, misses, |misses|))
      ensures operatorCache.Keys == Written(old(operatorCache.Keys), misses, done)
    {
      filled, ok, done := slots, true, 0;
      ghost var cached := operatorCache.Keys;
      for i := 0 to |misses|
        invariant done == i && WrittenSoFar(cached, g2Keys, slots, filled, misses, lookupOk, i)
      {
        if !lookupOk(misses[i].0) {
          return filled, false, done;
        }
        filled := WriteNext(cached, g2Keys, slots, filled, misses, lookupOk, i);
        done := i + 1;
      }
    }

    /** The first i misses were answered and are in the cache and in their slots. */
    ghost predicate WrittenSoFar(cached: set<nat>, g2Keys: seq<nat>, slots: seq<Option<nat>>,
                                 filled: seq<Option<nat>>, misses: seq<Miss>, lookupOk: nat -> bool, i: nat)
      requires i <= |misses|
      reads this
    {
      && CacheCorrect() && SlotsCorrect(filled, g2Keys)
      && operatorCache.Keys == Written(cached, misses, i)
      && Extends(slots, filled) && AllFilled(filled, misses, i) && AllAnswered(misses, lookupOk, i)
    }

    method WriteNext(ghost cached: set<nat>, g2Keys: seq<nat>, ghost slots: seq<Option<nat>>,
                     before: seq<Option<nat>>, misses: seq<Miss>, ghost lookupOk: nat -> bool, i: nat)
      returns (filled: seq<Option<nat>>)
      requires i < |misses| && lookupOk(misses[i].0) && IsMiss(misses[i], g2Keys)
      requires WrittenSoFar(cached, g2Keys, slots, before, misses, lookupOk, i)
      modifies this`operatorCache
      ensures WrittenSoFar(cached, g2Keys, slots, filled, misses, lookupOk, i + 1)
    {
      filled := WriteMiss(g2Keys, before, misses[i]);
      OneMoreFilled(slots, before, filled, misses, lookupOk, i);
    }

    predicate Filled(slots: seq<Option<nat>>, miss: Miss) {
      miss.0 < |slots| && slots[miss.0].Some?
    }

    /** No slot is emptied. */
    ghost predicate Extends(slots: seq<Option<nat>>, more: seq<Option<nat>>) {
      |slots| == |more| && forall j :: 0 <= j < |slots| && slots[j].Some? ==> more[j].Some?
    }

    ghost predicate AllFilled(slots: seq<Option<nat>>, misses: seq<Miss>, k: nat)
      requires k <= |misses|
    {
      forall l :: 0 <= l < k ==> Filled(slots, misses[l])
    }

    ghost predicate AllAnswered(misses: seq<Miss>, lookupOk: nat -> bool, k: nat)
      requires k <= |misses|
    {
      forall l :: 0 <= l < k ==> lookupOk(misses[l].0)
    }

    lemma OneMoreFilled(slots: seq<Option<nat>>, before: seq<Option<nat>>, after: seq<Option<nat>>,
                        misses: seq<Miss>, lookupOk: nat -> bool, k: nat)
      requires k < |misses| && Extends(slots, before)
      requires AllFilled(before, misses, k) && AllAnswered(misses, lookupOk, k)
      requires Extends(before, after) && Filled(after, misses[k]) && lookupOk(misses[k].0)
      ensures Extends(slots, after) && AllFilled(after, misses, k + 1) && AllAnswered(misses, lookupOk, k + 1)
    {
    }

    /** The keys cached once the first k misses are written back. */
    ghost function Written(cached: set<nat>, misses: seq<Miss>, k: nat): set<nat>
      requires k <= |misses|
    {
      if k == 0 then cached else Written(cached, misses, k - 1) + {misses[k - 1].1}
    }

    lemma {:induction false} WrittenKeys(cached: set<nat>, misses: seq<Miss>, k: nat, key: nat)
      requires k <= |misses|
      ensures key in Written(cached, misses, k) <==> key in cached || exists l :: 0 <= l < k && misses[l].1 == key
    {
      if k > 0 {
        WrittenKeys(cached, misses, k - 1, key);
      }
    }

    /** The address of one miss goes into the cache and into its slot. */
    method WriteMiss(g2Keys: seq<nat>, slots: seq<Option<nat>>, miss: Miss) returns (filled: seq<Option<nat>>)
      requires CacheCorrect() && SlotsCorrect(slots, g2Keys) && IsMiss(miss, g2Keys)
      modifies this`operatorCache
      ensures CacheCorrect() && SlotsCorrect(filled, g2Keys)
      ensures Extends(slots, filled) && Filled(filled, miss)
      ensures operatorCache.Keys == old(operatorCache.Keys) + {miss.1}
    {
      var (index, key, hash) := miss;
      operatorCache := operatorCache[key := registry(hash)];
      filled := slots[index := Some(registry(hash))];
    }

    /** Every lookup up to slot i was unnecessary or came back. */
    ghost predicate Reached(cached: set<nat>, keys: seq<nat>, lookupOk: nat -> bool, i: nat)
      requires i < |keys|
    {
      forall j :: 0 <= j <= i ==> keys[j] in cached || lookupOk(j)
    }

    /** The signers learnt by one resolution: none if a key has no hash, else those before the first failed lookup. */
    ghost function Fetched(cached: set<nat>, keys: seq<nat>, lookupOk: nat -> bool): set<nat> {
      if exists i :: 0 <= i < |keys| && keys[i] !in cached && Address(keys[i]).None? then {}
      else set i | 0 <= i < |keys| && Reached(cached, keys, lookupOk, i) :: keys[i]
    }

    /** Every signer is known or can be looked up. */
    ghost predicate Resolvable(cached: set<nat>, keys: seq<nat>, lookupOk: nat -> bool) {
      forall i :: 0 <= i < |keys| ==> keys[i] in cached || (Address(keys[i]).Some? && lookupOk(i))
    }

    /** The first `done` misses were answered and the next one, if any, was not. */
    ghost predicate StoppedAt(misses: seq<Miss>, lookupOk: nat -> bool, done: nat) {
      && done <= |misses| && AllAnswered(misses, lookupOk, done)
      && (done < |misses| ==> !lookupOk(misses[done].0))
    }

    /** A slot is reached exactly when the write-back did not stop at a miss at or before it. */
    lemma ReachedIff(cached: set<nat>, keys: seq<nat>, misses: seq<Miss>, lookupOk: nat -> bool, done: nat, i: nat)
      requires MissesOf(cached, keys, misses) && StoppedAt(misses, lookupOk, done) && i < |keys|
      ensures Reached(cached, keys, lookupOk, i) <==> done == |misses| || i < misses[done].0
    {
      if done < |misses| && misses[done].0 <= i {
        assert IsMiss(misses[done], keys) && keys[misses[done].0] !in cached;
      } else {
        forall j | 0 <= j <= i ensures keys[j] in cached || lookupOk(j) {
          if keys[j] !in cached {
            var m :| 0 <= m < |misses| && misses[m].0 == j;
            assert m < done;
          }
        }
      }
    }

    lemma FetchedIfWritten(cached: set<nat>, keys: seq<nat>, misses: seq<Miss>, lookupOk: nat -> bool,
                           done: nat, l: nat)
      requires Hashable(cached, keys) && MissesOf(cached, keys, misses) && StoppedAt(misses, lookupOk, done) && l < done
      ensures misses[l].1 in Fetched(cached, keys, lookupOk)
    {
      assert IsMiss(misses[l], keys);
      ReachedIff(cached, keys, misses, lookupOk, done, misses[l].0);
    }

    lemma WrittenIfReached(cached: set<nat>, keys: seq<nat>, misses: seq<Miss>, lookupOk: nat -> bool,
                           done: nat, i: nat)
      requires MissesOf(cached, keys, misses) && StoppedAt(misses, lookupOk, done)
      requires i < |keys| && Reached(cached, keys, lookupOk, i)
      ensures keys[i] in Written(cached, misses, done)
    {
      WrittenKeys(cached, misses, done, keys[i]);
      if keys[i] !in cached {
        ReachedIff(cached, keys, misses, lookupOk, done, i);
        var l :| 0 <= l < |misses| && misses[l].0 == i;
        assert IsMiss(misses[l], keys) && l < done;
      }
    }

    /** Writing back the first `done` misses is fetching the signers before the first failed lookup. */
    lemma WrittenIsFetched(cached: set<nat>, keys: seq<nat>, misses: seq<Miss>, lookupOk: nat -> bool, done: nat)
      requires Hashable(cached, keys) && MissesOf(cached, keys, misses) && StoppedAt(misses, lookupOk, done)
      ensures Written(cached, misses, done) == cached + Fetched(cached, keys, lookupOk)
    {
      forall k | k in Written(cached, misses, done) ensures k in cached + Fetched(cached, keys, lookupOk) {
        WrittenKeys(cached, misses, done, k);
        if k !in cached {
          var l :| 0 <= l < done && misses[l].1 == k;
          FetchedIfWritten(cached, keys, misses, lookupOk, done, l);
        }
      }
      forall k | k in cached + Fetched(cached, keys, lookupOk) ensures k in Written(cached, misses, done) {
        WrittenKeys(cached, misses, done, k);
        if k !in cached {
          var i :| 0 <= i < |keys| && Reached(cached, keys, lookupOk, i) && keys[i] == k;
          WrittenIfReached(cached, keys, misses, lookupOk, done, i);
        }
      }
    }

    lemma ResolvableIff(cached: set<nat>, keys: seq<nat>, misses: seq<Miss>, lookupOk: nat -> bool, done: nat)
      requires Hashable(cached, keys) && MissesOf(cached, keys, misses) && StoppedAt(misses, lookupOk, done)
      ensures Resolvable(cached, keys, lookupOk) <==> done == |misses|
    {
      if done < |misses| {
        assert IsMiss(misses[done], keys) && keys[misses[done].0] !in cached;
      } else {
        forall i | 0 <= i < |keys| ensures keys[i] in cached || lookupOk(i) {
          ReachedIff(cached, keys, misses, lookupOk, done, i);
        }
      }
    }

    lemma EverySlotFilled(cached: set<nat>, keys: seq<nat>, misses: seq<Miss>, slots: seq<Option<nat>>,
                          filled: seq<Option<nat>>)
      requires MissesOf(cached, keys, misses) && |slots| == |keys|
      requires forall j :: 0 <= j < |slots| ==> (slots[j].Some? <==> keys[j] in cached)
      requires Extends(slots, filled) && AllFilled(filled, misses, |misses|)
      ensures forall j :: 0 <= j < |filled| ==> filled[j].Some?
    {
      forall j | 0 <= j < |filled| ensures filled[j].Some? {
        if slots[j].None? {
          var l :| 0 <= l < |misses| && misses[l].0 == j;
          assert Filled(filled, misses[l]);
        }
      }
    }

    /**
     Resolves an address per signer: cache hits first, then all misses, which are written back one
     by one until a lookup fails.
     */
    method ResolveOperators(g2Keys: seq<nat>, g1Points: seq<nat>, lookupOk: nat -> bool)
      returns (operators: Option<seq<nat>>)
      requires Aligned(g2Keys, g1Points) && CacheCorrect()
      modifies this`operatorCache
      ensures CacheCorrect()
      ensures operators.Some? ==>
                |operators.value| == |g2Keys| &&
                forall i :: 0 <= i < |g2Keys| ==>
                  Address(g2Keys[i]) == Some(operators.value[i]) && g2Keys[i] in operatorCache
      ensures operators.Some? <==> Resolvable(old(operatorCache.Keys), g2Keys, lookupOk)
      ensures operatorCache.Keys == old(operatorCache.Keys) + Fetched(old(operatorCache.Keys), g2Keys, lookupOk)
    {
      ghost var cached := operatorCache.Keys;
      var slots, misses, ok := CollectMisses(g2Keys, g1Points);
      if !ok {
        return None;
      }
      ghost var done;
      var filled;
      filled, ok, done := WriteBack(g2Keys, slots, misses, lookupOk);
      WrittenIsFetched(cached, g2Keys, misses, lookupOk, done);
      ResolvableIff(cached, g2Keys, misses, lookupOk, done);
      if !ok {
        return None;
      }
      EverySlotFilled(cached, g2Keys, misses, slots, filled);
      operators := Some(seq(|filled|, i requires 0 <= i < |filled| && filled[i].Some? => filled[i].value));
    }

    /** What one attempt returns when the signers `cached` are known. */
    ghost function AttemptResult(cached: set<nat>, g2Keys: seq<nat>, g1Points: seq<nat>, chain: Chain): SubmitResult {
      if g2Keys != [] && |g2Keys| == |g1Points| && chain.blockNumberOk && Resolvable(cached, g2Keys, chain.lookupOk)
      then chain.outcome else Failed
    }

    /** The signers known after one attempt, failed or not. */
    ghost function KnownAfter(cached: set<nat>, g2Keys: seq<nat>, g1Points: seq<nat>, chain: Chain): set<nat> {
      if g2Keys != [] && |g2Keys| == |g1Points| && chain.blockNumberOk
      then cached + Fetched(cached, g2Keys, chain.lookupOk) else cached
    }

    /** What makes an attempt fail, whatever the chain's final call would have returned. */
    lemma AttemptFails(cached: set<nat>, g2Keys: seq<nat>, g1Points: seq<nat>, chain: Chain)
      requires g2Keys == [] || |g2Keys| != |g1Points| || !chain.blockNumberOk ||
               exists i :: 0 <= i < |g2Keys| && g2Keys[i] !in cached &&
                           (!chain.lookupOk(i) || pubkeyHash(g1Of(g2Keys[i])).None?)
      ensures AttemptResult(cached, g2Keys, g1Points, chain) == Failed
    {
    }

    /** A failed attempt still learns: a new signer is known after it exactly if no lookup up to its own failed. */
    lemma LearntBeforeFailure(cached: set<nat>, g2Keys: seq<nat>, g1Points: seq<nat>, chain: Chain, i: nat)
      requires i < |g2Keys| && |g2Keys| == |g1Points| && chain.blockNumberOk && g2Keys[i] !in cached
      requires forall j, k :: 0 <= j < k < |g2Keys| ==> g2Keys[j] != g2Keys[k]
      requires forall j :: 0 <= j < |g2Keys| ==> pubkeyHash(g1Of(g2Keys[j])).Some?
      ensures g2Keys[i] in KnownAfter(cached, g2Keys, g1Points, chain) <==>
              forall j :: 0 <= j <= i ==> g2Keys[j] in cached || chain.lookupOk(j)
    {
      if Reached(cached, g2Keys, chain.lookupOk, i) {
        assert g2Keys[i] in Fetched(cached, g2Keys, chain.lookupOk);
      }
    }

    /** One end-to-end attempt. */
    method Submit(g2Keys: seq<nat>, g1Points: seq<nat>, chain: Chain) returns (result: SubmitResult)
      requires CacheCorrect() && (|g2Keys| == |g1Points| ==> Aligned(g2Keys, g1Points))
      modifies this`operatorCache
      ensures CacheCorrect()
      ensures result == AttemptResult(old(operatorCache.Keys), g2Keys, g1Points, chain)
      ensures operatorCache.Keys == KnownAfter(old(operatorCache.Keys), g2Keys, g1Points, chain)
    {
      if g2Keys == [] || |g2Keys| != |g1Points| {
        return Failed;
      }
      if !chain.blockNumberOk {
        return Failed;
      }
      var operators := ResolveOperators(g2Keys, g1Points, chain.lookupOk);
      if operators.None? {
        return Failed;
      }
      result := chain.outcome;
    }

    /** The signers known after k attempts for one certificate. */
    ghost function Known(cached: set<nat>, job: Job<T>, k: nat): set<nat> {
      if k == 0 then cached else KnownAfter(Known(cached, job, k - 1), job.g2Keys, job.g1Points, job.chain(k))
    }

    /** The attempts made for one certificate went as the chain and the signers known so far had it. */
    ghost predicate Made(cached: set<nat>, job: Job<T>, added: seq<SubmitResult>) {
      forall k :: 0 <= k < |added| ==>
        added[k] == AttemptResult(Known(cached, job, k), job.g2Keys, job.g1Points, job.chain(k + 1))
    }

    lemma MadeOneMore(cached: set<nat>, job: Job<T>, added: seq<SubmitResult>, result: SubmitResult)
      requires Made(cached, job, added)
      requires result == AttemptResult(Known(cached, job, |added|), job.g2Keys, job.g1Points, job.chain(|added| + 1))
      ensures Made(cached, job, added + [result])
    {
    }

    /** A signer once known stays known, and whoever is known after an attempt needs no lookup in the next. */
    lemma {:induction false} KnownGrows(cached: set<nat>, job: Job<T>, j: nat, k: nat)
      requires j <= k
      ensures Known(cached, job, j) <= Known(cached, job, k)
    {
      if j < k {
        KnownGrows(cached, job, j, k - 1);
      }
    }

    /**
     MAIN RESULT. An attempt that learns every signer is the last to depend on a lookup: from then on
     an attempt returns what the chain's final call returns, whichever lookups would fail.
     */
    lemma LookupsNotRepeated(cached: set<nat>, job: Job<T>, j: nat, k: nat)
      requires 0 < j <= k && job.g2Keys != [] && |job.g2Keys| == |job.g1Points|
      requires job.chain(j).blockNumberOk && Resolvable(Known(cached, job, j - 1), job.g2Keys, job.chain(j).lookupOk)
      ensures AttemptResult(Known(cached, job, k), job.g2Keys, job.g1Points, job.chain(k + 1))
              == if job.chain(k + 1).blockNumberOk then job.chain(k + 1).outcome else Failed
    {
      var before := Known(cached, job, j - 1);
      forall i | 0 <= i < |job.g2Keys| ensures job.g2Keys[i] in Known(cached, job, j) {
        assert Reached(before, job.g2Keys, job.chain(j).lookupOk, i);
        assert job.g2Keys[i] in Fetched(before, job.g2Keys, job.chain(j).lookupOk);
      }
      KnownGrows(cached, job, j, k);
    }

    method Notify(height: nat, kind: ResolutionKind)
      modifies this`resolutions
      ensures resolutions == old(resolutions) + [Resolution(height, kind)]
    {
      resolutions := resolutions + [Resolution(height, kind)];
    }

    /** Attempt number `attempt` for a certificate; `added` are the results of the earlier ones. */
    method TryOnce(job: Job<T>, attempt: nat, ghost cached: set<nat>, ghost added: seq<SubmitResult>)
      returns (result: SubmitResult)
      requires CacheCorrect() && (|job.g2Keys| == |job.g1Points| ==> Aligned(job.g2Keys, job.g1Points))
      requires attempt == |added| + 1
      requires operatorCache.Keys == Known(cached, job, |added|) && Made(cached, job, added)
      modifies this`operatorCache, this`tries
      ensures CacheCorrect() && operatorCache.Keys == Known(cached, job, |added| + 1)
      ensures Made(cached, job, added + [result]) && tries == old(tries) + [result]
    {
      result := Submit(job.g2Keys, job.g1Points, job.chain(attempt));
      tries := tries + [result];
      MadeOneMore(cached, job, added, result);
    }

    /** Submits the expected certificate with bounded retries. */
    method SubmitWithRetries(job: Job<T>) returns (ghost added: seq<SubmitResult>)
      requires CacheCorrect() && (|job.g2Keys| == |job.g1Points| ==> Aligned(job.g2Keys, job.g1Points))
      modifies this
      ensures CacheCorrect() && operatorCache.Keys == Known(old(operatorCache.Keys), job, |added|)
      ensures tries == old(tries) + added && Attempts(added) && Made(old(operatorCache.Keys), job, added)
      ensures slept == old(slept) + Backoffs(|added| - 1)
      ensures resolutions ==
              old(resolutions) + [Resolution(job.certified.height, Executed(Succeeded(added[|added| - 1])))]
    {
      added := [];
      ghost var cached := operatorCache.Keys;
      var backoff := INITIAL_RETRY_BACKOFF;
      var attempt := 0;
      while true
        invariant CacheCorrect() && resolutions == old(resolutions)
        invariant attempt == |added| <= MAX_RETRIES
        invariant backoff == Delay(attempt) && slept == old(slept) + Backoffs(attempt)
        invariant tries == old(tries) + added && Made(cached, job, added)
        invariant forall i :: 0 <= i < |added| ==> added[i].Failed?
        invariant operatorCache.Keys == Known(cached, job, attempt)
        decreases MAX_RETRIES - attempt
      {
        attempt := attempt + 1;
        var result := TryOnce(job, attempt, cached, added);
        added := added + [result];
        match result {
          case Submitted(status) =>
            var success := if status.Some? then status.value else true;
            Notify(job.certified.height, Executed(success));
            return;
          case Failed =>
            if attempt <= MAX_RETRIES {
              slept := slept + [backoff];
              backoff := backoff * 2;
            } else {
              Notify(job.certified.height, Executed(false));
              return;
            }
        }
      }
    }

    /** How the certificate of a job that is expected went, attempt by attempt. */
    ghost predicate Executes(cached: set<nat>, job: Job<T>, added: seq<SubmitResult>, kind: ResolutionKind) {
      Attempts(added) && Made(cached, job, added) && kind == Executed(Succeeded(added[|added| - 1]))
    }

    /** Nothing fails on the first attempt: keys and hashes are there, every call comes back, and so does the last. */
    ghost predicate Untroubled(job: Job<T>) {
      && job.g2Keys != [] && |job.g2Keys| == |job.g1Points|
      && (forall i :: 0 <= i < |job.g2Keys| ==> Address(job.g2Keys[i]).Some? && job.chain(1).lookupOk(i))
      && job.chain(1).blockNumberOk && job.chain(1).outcome.Submitted?
    }

    lemma UntroubledSucceeds(cached: set<nat>, job: Job<T>, added: seq<SubmitResult>)
      requires Untroubled(job) && Attempts(added) && Made(cached, job, added)
      ensures added == [job.chain(1).outcome]
    {
      assert Known(cached, job, 0) == cached;
      assert added[0] == AttemptResult(Known(cached, job, 0), job.g2Keys, job.g1Points, job.chain(1));
    }

    /** Success is never made up: the chain's final call came back with it on one of the attempts. */
    ghost predicate ChainSucceeds(job: Job<T>) {
      && job.g2Keys != [] && |job.g2Keys| == |job.g1Points|
      && exists k {:trigger job.chain(k)} ::
           1 <= k <= 3 && job.chain(k).blockNumberOk && Succeeded(job.chain(k).outcome)
    }

    lemma SuccessIsTheChains(cached: set<nat>, job: Job<T>, added: seq<SubmitResult>, kind: ResolutionKind)
      requires Executes(cached, job, added, kind) && kind.success
      ensures ChainSucceeds(job)
    {
      var k := |added|;
      assert added[k - 1] == AttemptResult(Known(cached, job, k - 1), job.g2Keys, job.g1Points, job.chain(k));
      assert job.chain(k).blockNumberOk && Succeeded(job.chain(k).outcome);
    }

    /** Classifies one certificate and, if it is the expected one, submits it. */
    method HandleCertified(job: Job<T>)
      requires CacheCorrect() && (|job.g2Keys| == |job.g1Points| ==> Aligned(job.g2Keys, job.g1Points))
      modifies this
      ensures CacheCorrect()
      ensures |resolutions| == |old(resolutions)| + 1 && resolutions[..|old(resolutions)|] == old(resolutions)
      ensures resolutions[|old(resolutions)|].height == job.certified.height
      ensures !Expected(namespace, job.assignments, job.certified) ==>
                resolutions[|old(resolutions)|].kind == Unsubmitted(namespace, job.certified) &&
                tries == old(tries) && slept == old(slept) && operatorCache == old(operatorCache)
      ensures Expected(namespace, job.assignments, job.certified) ==>
                old(tries) <= tries &&
                var added := tries[|old(tries)|..];
                Executes(old(operatorCache.Keys), job, added, resolutions[|old(resolutions)|].kind) &&
                slept == old(slept) + Backoffs(|added| - 1) &&
                operatorCache.Keys == Known(old(operatorCache.Keys), job, |added|)
      ensures var c, kind := job.certified, resolutions[|old(resolutions)|].kind;
              && (kind.Executed? ==> c.height in job.assignments && job.assignments[c.height].digest == c.digest &&
                                     c.digest != SkipDigest(namespace, c.height))
              && (c.digest == SkipDigest(namespace, c.height) ==> kind == Skipped)
              && ((c.digest != SkipDigest(namespace, c.height) &&
                   (c.height !in job.assignments || job.assignments[c.height].digest != c.digest)) ==>
                    kind == Foreign)
              && (kind.Executed? || (tries == old(tries) && slept == old(slept) && operatorCache == old(operatorCache)))
              && (kind.Executed? && Untroubled(job) ==>
                    tries == old(tries) + [job.chain(1).outcome] && slept == old(slept) &&
                    kind == Executed(job.chain(1).outcome.status != Some(false)))
    {
      var c := job.certified;
      if c.digest == SkipDigest(namespace, c.height) {
        Notify(c.height, Skipped);
        return;
      }
      if c.height !in job.assignments {
        Notify(c.height, Foreign);
        return;
      }
      if job.assignments[c.height].digest != c.digest {
        Notify(c.height, Foreign);
        return;
      }
      ghost var added := SubmitWithRetries(job);
      assert tries[|old(tries)|..] == added;
      if Untroubled(job) {
        UntroubledSucceeds(old(operatorCache.Keys), job, added);
      }
    }

    /** What one disposition says of its certificate and of the assignments when it was read. */
    ghost predicate Disposed(job: Job<T>, r: Resolution) {
      var c := job.certified;
      && r.height == c.height
      && (r.kind == Skipped <==> c.digest == SkipDigest(namespace, c.height))
      && (r.kind.Executed? <==>
            c.digest != SkipDigest(namespace, c.height) &&
            c.height in job.assignments && job.assignments[c.height].digest == c.digest)
      && (r.kind == Foreign <==>
            c.digest != SkipDigest(namespace, c.height) &&
            (c.height !in job.assignments || job.assignments[c.height].digest != c.digest))
      && (r.kind == Executed(true) ==> ChainSucceeds(job))
    }

    /** The actor loop over the certificates `queue`, until the channel closes. */
    method Run(queue: seq<Job<T>>)
      requires CacheCorrect() && resolutions == []
      requires forall i :: 0 <= i < |queue| && |queue[i].g2Keys| == |queue[i].g1Points| ==>
                 Aligned(queue[i].g2Keys, queue[i].g1Points)
      modifies this
      ensures CacheCorrect()
      ensures |resolutions| == |queue|
      ensures forall i :: 0 <= i < |queue| ==> Disposed(queue[i], resolutions[i])
    {
      for i := 0 to |queue|
        invariant CacheCorrect() && |resolutions| == i
        invariant forall j :: 0 <= j < i ==> Disposed(queue[j], resolutions[j])
      {
        ghost var was, made, cached := resolutions, |tries|, operatorCache.Keys;
        HandleCertified(queue[i]);
        if resolutions[i].kind == Executed(true) {
          SuccessIsTheChains(cached, queue[i], tries[made..], resolutions[i].kind);
        }
        assert Disposed(queue[i], resolutions[i]);
        assert forall j :: 0 <= j < i ==> resolutions[j] == resolutions[..i][j] == was[j];
      }
    }
  }
}
