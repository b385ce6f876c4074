/**
 The router's sink for certificates: deduplicates replays, keeps the tip, forwards each
 newly observed certificate to the submitter.

 `Stored` and `ReportedTip` judge the actor by the history of reports alone, one height at
 a time; the actor's map is shown to agree with them at every height.
 */
module CertReporter {
  import opened Common
  import opened Consensus
  import opened Wire

  /** An engine report. `valid` is what re-verifying the certificate says. */
  datatype Message = Certified(height: nat, digest: Digest, valid: bool) | Tip(height: nat)

  datatype CertifiedHeight = CertifiedHeight(height: nat, digest: Digest)

  datatype Rep = Rep(certified: map<nat, Digest>, tip: nat, forwarded: seq<CertifiedHeight>)

  const INITIAL: Rep := Rep(map[], 0, [])

  function TipAdvanced(r: Rep, tip: nat): Rep {
    if tip <= r.tip then r
    else r.(tip := tip, certified := KeepFrom(r.certified, SatSub(tip, PRUNE_SLACK)))
  }

  function Step(r: Rep, m: Message): Rep {
    match m
    case Tip(height) => TipAdvanced(r, height)
    case Certified(height, digest, valid) =>
      if height in r.certified || !valid then r
      else
        TipAdvanced(r.(certified := r.certified[height := digest]), height + 1)
        .(forwarded := r.forwarded + [CertifiedHeight(height, digest)])
  }

  function After(msgs: seq<Message>): Rep {
    if msgs == [] then INITIAL else Step(After(msgs[..|msgs| - 1]), msgs[|msgs| - 1])
  }

  class CertReporter {
    var certified: map<nat, Digest>
    var tip: nat
    /** Everything handed to the consumer, in order. */
    var forwarded: seq<CertifiedHeight>

    function State(): Rep
      reads this
    {
      Rep(certified, tip, forwarded)
    }

    constructor ()
      ensures State() == INITIAL
    {
      certified, tip, forwarded := map[], 0, [];
    }

    method HandleCertified(height: nat, digest: Digest, valid: bool)
      modifies this
      ensures State() == Step(old(State()), Certified(height, digest, valid))
    {
      if height in certified {
        return;
      }
      if !valid {
        return;
      }
      certified := certified[height := digest];
      AdvanceTip(height + 1);
      forwarded := forwarded + [CertifiedHeight(height, digest)];
    }

    method AdvanceTip(tip: nat)
      modifies this`tip, this`certified
      ensures State() == TipAdvanced(old(State()), tip)
    {
      if tip <= this.tip {
        return;
      }
      this.tip := tip;
      var floor := SatSub(tip, PRUNE_SLACK);
      certified := KeepFrom(certified, floor);
    }

    /** The actor loop over a mailbox that delivers `mailbox` and then closes. */
    method Run(mailbox: seq<Message>)
      requires State() == INITIAL
      modifies this
      ensures State() == After(mailbox)
    {
      for i := 0 to |mailbox|
        invariant State() == After(mailbox[..i])
      {
        assert mailbox[..i + 1][..i] == mailbox[..i];
        match mailbox[i] {
          case Certified(height, digest, valid) => HandleCertified(height, digest, valid);
          case Tip(height) => AdvanceTip(height);
        }
      }
      assert mailbox[..|mailbox|] == mailbox;
    }
  }

  // ---- the history a run is judged by ----

  /** The tip a message reports: what the engine says, or one past a verified certificate. */
  function Reported(m: Message): nat {
    match m
    case Tip(height) => height
    case Certified(height, _, valid) => if valid then height + 1 else 0
  }

  /** The highest tip reported so far. */
  function ReportedTip(msgs: seq<Message>): nat {
    if msgs == [] then 0 else Max(ReportedTip(msgs[..|msgs| - 1]), Reported(msgs[|msgs| - 1]))
  }

  /** Message i carries the tip past h + PRUNE_SLACK (further than it was). */
  predicate Passes(msgs: seq<Message>, i: nat, h: nat)
    requires i < |msgs|
  {
    Reported(msgs[i]) > ReportedTip(msgs[..i]) && Reported(msgs[i]) > h + PRUNE_SLACK
  }

  predicate VerifiedAt(m: Message, h: nat) {
    m.Certified? && m.height == h && m.valid
  }

  /** The first verified digest of h since the tip last passed h + PRUNE_SLACK. */
  function Stored(msgs: seq<Message>, h: nat): Option<Digest> {
    if msgs == [] then None
    else
      var before, m := Stored(msgs[..|msgs| - 1], h), msgs[|msgs| - 1];
      if Passes(msgs, |msgs| - 1, h) then None
      else if before.None? && VerifiedAt(m, h) then Some(m.digest)
      else before
  }

  /** Message i hands its certificate to the consumer. */
  predicate Forwards(msgs: seq<Message>, i: nat)
    requires i < |msgs|
  {
    msgs[i].Certified? && msgs[i].valid && Stored(msgs[..i], msgs[i].height).None?
  }

  function ForwardedBy(msgs: seq<Message>): seq<CertifiedHeight> {
    if msgs == [] then []
    else
      var m := msgs[|msgs| - 1];
      ForwardedBy(msgs[..|msgs| - 1]) +
      if Forwards(msgs, |msgs| - 1) then [CertifiedHeight(m.height, m.digest)] else []
  }

  function Get(r: Rep, h: nat): Option<Digest> {
    if h in r.certified then Some(r.certified[h]) else None
  }

  // ---- the actor agrees with the history ----

  /**
   MAIN RESULT. At every height of every run the reporter answers with the first verified digest
   since the tip last passed height + PRUNE_SLACK; its tip is the highest reported, and is past
   every certified height, pruned or not.
   */
  lemma {:induction false} ReporterAgrees(msgs: seq<Message>, h: nat)
    ensures Get(After(msgs), h) == Stored(msgs, h)
    ensures After(msgs).tip == ReportedTip(msgs)
    ensures (exists m :: m in msgs && VerifiedAt(m, h)) ==> After(msgs).tip > h
  {
    if msgs != [] {
      var p, m := msgs[..|msgs| - 1], msgs[|msgs| - 1];
      assert msgs == p + [m];
      ReporterAgrees(p, h);
      if m.Certified? && m.height != h {
        ReporterAgrees(p, m.height);
        if m.height in After(p).certified {
          StoredBelowTip(p, m.height);
        }
      } else if m.Certified? && h in After(p).certified {
        StoredBelowTip(p, h);
      }
    }
  }

  lemma {:induction false} StoredBelowTip(msgs: seq<Message>, h: nat)
    ensures Stored(msgs, h).Some? ==> ReportedTip(msgs) > h
  {
    if msgs != [] {
      StoredBelowTip(msgs[..|msgs| - 1], h);
    }
  }

  /** MAIN RESULT. The certificates handed to the consumer are exactly those the history says, in order. */
  lemma {:induction false} ForwardedAgrees(msgs: seq<Message>)
    ensures After(msgs).forwarded == ForwardedBy(msgs)
  {
    if msgs != [] {
      var p, m := msgs[..|msgs| - 1], msgs[|msgs| - 1];
      ForwardedAgrees(p);
      ReporterAgrees(p, m.height);
    }
  }

  lemma {:induction false} StaysStored(msgs: seq<Message>, j: nat, k: nat, h: nat)
    requires j < k <= |msgs| && VerifiedAt(msgs[j], h) && Forwards(msgs, j)
    ensures (forall i :: j < i < k ==> !Passes(msgs, i, h)) ==> Stored(msgs[..k], h).Some?
  {
    var p := msgs[..k];
    assert p[..k - 1] == msgs[..k - 1];
    if k == j + 1 {
      assert !Passes(msgs, j, h);
    } else {
      StaysStored(msgs, j, k - 1, h);
      assert p[..k - 1][..k - 1] == msgs[..k - 1];
      assert Passes(p, k - 1, h) == Passes(msgs, k - 1, h);
    }
  }

  lemma {:induction false} StaysForgotten(msgs: seq<Message>, i: nat, k: nat, h: nat)
    requires i < k <= |msgs| && Passes(msgs, i, h)
    requires forall l :: i < l < k && VerifiedAt(msgs[l], h) ==> !Forwards(msgs, l)
    ensures Stored(msgs[..k], h).None?
  {
    var p := msgs[..k];
    assert p[..k - 1] == msgs[..k - 1];
    if k > i + 1 {
      StaysForgotten(msgs, i, k - 1, h);
      assert !VerifiedAt(msgs[k - 1], h);
    }
  }

  /**
   MAIN RESULT. After a height was forwarded, the next verified certificate for it is forwarded
   again if and only if the tip passed height + PRUNE_SLACK in between.
   */
  lemma ForwardedAgainIffPassed(msgs: seq<Message>, j: nat, k: nat, h: nat)
    requires j < k < |msgs| && VerifiedAt(msgs[j], h) && VerifiedAt(msgs[k], h)
    requires Forwards(msgs, j)
    requires forall l :: j < l < k && VerifiedAt(msgs[l], h) ==> !Forwards(msgs, l)
    ensures Forwards(msgs, k) <==> exists i :: j < i < k && Passes(msgs, i, h)
  {
    StaysStored(msgs, j, k, h);
    if i :| j < i < k && Passes(msgs, i, h) {
      StaysForgotten(msgs, i, k, h);
    }
  }

  /** No certificate arrives more than PRUNE_SLACK below the tip. */
  ghost predicate NoneStale(msgs: seq<Message>) {
    forall i :: 0 <= i < |msgs| && msgs[i].Certified? ==> msgs[i].height >= SatSub(ReportedTip(msgs[..i]), PRUNE_SLACK)
  }

  lemma NoneStalePrefix(msgs: seq<Message>, k: nat)
    requires NoneStale(msgs) && k <= |msgs|
    ensures NoneStale(msgs[..k])
  {
    forall i | 0 <= i < k ensures msgs[..k][..i] == msgs[..i] {
    }
  }

  lemma {:induction false} StoredWindow(msgs: seq<Message>, h: nat)
    requires NoneStale(msgs) && Stored(msgs, h).Some?
    ensures SatSub(ReportedTip(msgs), PRUNE_SLACK) <= h < ReportedTip(msgs)
  {
    var p, m := msgs[..|msgs| - 1], msgs[|msgs| - 1];
    NoneStalePrefix(msgs, |msgs| - 1);
    if Stored(p, h).Some? {
      StoredWindow(p, h);
    } else {
      assert m.height >= SatSub(ReportedTip(p), PRUNE_SLACK);
    }
  }

  /** MAIN RESULT. Without stale reports the dedupe map never exceeds PRUNE_SLACK entries. */
  lemma DedupeMapBounded(msgs: seq<Message>)
    requires NoneStale(msgs)
    ensures |After(msgs).certified| <= PRUNE_SLACK
  {
    ReporterAgrees(msgs, 0);
    var tip := ReportedTip(msgs);
    forall h | h in After(msgs).certified ensures SatSub(tip, PRUNE_SLACK) <= h < tip {
      ReporterAgrees(msgs, h);
      StoredWindow(msgs, h);
    }
    IntervalCardinality(After(msgs).certified.Keys, SatSub(tip, PRUNE_SLACK), tip);
  }
}
