/**
 What one router life promises, over every run of the system.
 */
module SystemRuns {
  import opened Common
  import opened Consensus
  import opened Wire
  import opened System
  import B = TaskBook
  import S = Sequencer
  import SR = SequencerRuns
  import TR = TipReports
  import C = CertReporter

  // ---- what is certified ----

  /**
   MAIN RESULT (cross-node agreement). In one router life, whatever the network loses, duplicates or
   reorders and whatever up to f = (n-1)/3 nodes acknowledge: two quorums of acks for the same height
   carry the same digest, and it is the skip digest of that height or what the sequencer assigned there.
   */
  lemma Agreement<T(!new)>(c: Config<T>, events: seq<Event<T>>, h: nat, d1: Digest, d2: Digest)
    requires c.Valid()
    requires var s := Run(c, events); Quorate(c.n, s.acks, h, d1) && Quorate(c.n, s.acks, h, d2)
    ensures d1 == d2
    ensures Legitimate(c, Run(c, events).router.placements, h, d1)
  {
    var s := Run(c, events);
    RunKeepsInv(c, events);
    QuorumIsLegitimate(c, s, h, d1);
    var i := QuorumIntersection(c.n, Signers(c.n, s.acks, h, d1), Signers(c.n, s.acks, h, d2), c.faulty);
    assert Ack(i, h, d1) in s.acks && Ack(i, h, d2) in s.acks;
  }

  /** A height is assigned at most one digest in one router life, so there is at most one legitimate task digest. */
  lemma AssignedDigestUnique<T(!new)>(c: Config<T>, events: seq<Event<T>>, h: nat, d1: Digest, d2: Digest)
    requires c.Valid()
    requires var r := Run(c, events).router; AssignedAt(r.placements, h, d1) && AssignedAt(r.placements, h, d2)
    ensures d1 == d2
  {
    RunKeepsInv(c, events);
    var r := Run(c, events).router;
    var p :| p in r.placements && p.height == h && p.task.digest == d1;
    var q :| q in r.placements && q.height == h && q.task.digest == d2;
    PlacedOnce(r, p, q);
  }

  /**
   MAIN RESULT. Nothing happens ahead of the router: a height gets a quorum, or is even taken by one
   node's engine, only once the router has sent a directive at or above it. A height nobody was told
   about, directly or by being passed over, waits; there is no timer that skips it.
   */
  lemma NothingAheadOfRouter<T(!new)>(c: Config<T>, events: seq<Event<T>>, h: nat)
    requires c.Valid()
    ensures var s := Run(c, events);
            && (forall i :: 0 <= i < |s.signed| && h in s.signed[i] ==> Passed(s.router.trace, h))
            && (forall d :: Quorate(c.n, s.acks, h, d) ==> Passed(s.router.trace, h))
            && (Passed(s.router.trace, h) ==> h < s.router.next)
  {
    var s := Run(c, events);
    RunKeepsInv(c, events);
    forall d | Quorate(c.n, s.acks, h, d) ensures Passed(s.router.trace, h) {
      QuorumIsLegitimate(c, s, h, d);
    }
    forall i | 0 <= i < |s.signed| && h in s.signed[i] ensures Passed(s.router.trace, h) {
      assert SignedOk(c, s.router, s.signed[i]);
    }
    if d :| d in s.router.trace && d.height >= h {
      assert d.height < s.router.next;
    }
  }

  /** MAIN RESULT. The reporter never sees two digests certified for one height: its conflict branch is dead. */
  lemma NoConflictingCertificates<T(!new)>(c: Config<T>, events: seq<Event<T>>, h: nat, d: Digest)
    requires c.Valid()
    requires var s := Run(c, events); Quorate(c.n, s.acks, h, d) && h in s.reporter.certified
    ensures Run(c, events).reporter.certified[h] == d
  {
    RunKeepsInv(c, events);
    Agreement(c, events, h, d, Run(c, events).reporter.certified[h]);
  }

  /** The honest participants suffice: what all of them acknowledged has a quorum, however the faulty ones behave. */
  lemma HonestAcksSuffice<T>(c: Config<T>, acks: set<Ack>, h: nat, d: Digest)
    requires c.Valid() && forall i :: 0 <= i < c.n && i !in c.faulty ==> Ack(i, h, d) in acks
    ensures Quorate(c.n, acks, h, d)
  {
    OthersAreQuorum(c.n, c.faulty);
    SubsetCardinality(Absent(c.n, c.faulty), Signers(c.n, acks, h, d));
  }

  // ---- what the sequencer makes of it ----

  /**
   MAIN RESULT. A certificate the submitter reads while its height is assigned is for the assigned task
   or the skip digest.
   */
  lemma LiveAssignmentMatches<T(!new)>(c: Config<T>, events: seq<Event<T>>, cert: C.CertifiedHeight)
    requires c.Valid()
    requires var s := Run(c, events); cert in s.reporter.forwarded && cert.height in s.router.assignments
    ensures var s := Run(c, events);
            cert.digest == SkipDigest(c.namespace, cert.height) ||
            cert.digest == s.router.assignments[cert.height].digest
  {
    RunKeepsInv(c, events);
    ClassifiedOk(c, Run(c, events), cert);
  }

  /**
   MAIN RESULT. In one router life no driven height is ever consumed by a foreign certificate: tasks
   move only by supersession.
   */
  lemma NoForeignOutcome<T(!new)>(c: Config<T>, events: seq<Event<T>>)
    requires c.Valid()
    ensures var s := Run(c, events);
            && (forall r :: r in s.resolutions && s.router.mode.Driving? && r.height == s.router.mode.height ==>
                  !r.kind.Foreign?)
            && (forall o :: o in s.router.outcomes ==> !SR.ConsumedForeign(o))
  {
    RunKeepsInv(c, events);
    var s := Run(c, events);
    forall r | r in s.resolutions && s.router.mode.Driving? && r.height == s.router.mode.height
      ensures !r.kind.Foreign?
    {
      assert ResolutionOk(c, s.router, s.acks, r);
    }
    forall o | o in s.router.outcomes ensures !SR.ConsumedForeign(o) {
      var i :| 0 <= i < |s.router.outcomes| && s.router.outcomes[i] == o;
      assert OutcomeOk(c, s.acks, s.router, i);
    }
  }

  /**
   MAIN RESULT (execution soundness). A task ends as executed only at a height where a quorum
   acknowledged exactly that task's digest, and as skipped only where one acknowledged the skip digest.
   */
  lemma ExecutionIsCertified<T(!new)>(c: Config<T>, events: seq<Event<T>>, f: S.Fate<T>)
    requires c.Valid()
    requires f in Run(c, events).router.fates
    ensures var s := Run(c, events);
            && (f.kind.Executed? ==> Quorate(c.n, s.acks, f.height, f.task.digest))
            && (f.kind.Skipped? ==> Quorate(c.n, s.acks, f.height, SkipDigest(c.namespace, f.height)))
            && !f.kind.Foreign?
  {
    RunKeepsInv(c, events);
    assert FateOk(c, Run(c, events).acks, f);
  }

  /**
   MAIN RESULT. A height is never assigned once anything has a quorum there, whether or not the
   reporter knows of it: the tip the sequencer goes by may be as old as it likes, and any number of
   certificates may have been recorded, forwarded and pruned since it was read.
   */
  lemma FreshHeightsOnly<T(!new)>(c: Config<T>, events: seq<Event<T>>, now: nat)
    requires c.Valid()
    requires var s := Run(c, events); s.router.mode.Pending? && s.awaiting.TipAnswer?
    ensures var s' := Run(c, events + [Assign(now)]);
            && s'.router.mode.Driving?
            && (forall h: nat, d :: Quorate(c.n, s'.acks, h, d) ==> h < s'.router.mode.height)
            && s'.router.mode.height !in s'.reporter.certified
            && (forall f :: f in s'.reporter.forwarded ==> f.height < s'.router.mode.height)
  {
    var s := Run(c, events);
    RunKeepsInv(c, events);
    RunOneMore(c, Start(c), events, Assign(now));
    AssignTakesNext(c, s, now);
    forall h: nat, d | Quorate(c.n, s.acks, h, d) ensures h < s.router.next {
      QuorumIsLegitimate(c, s, h, d);
    }
    assert CertsOk(c, s.acks, s.reporter);
  }

  lemma AssignTakesNext<T(!new)>(c: Config<T>, s: State<T>, now: nat)
    requires s.router.mode.Pending? && s.awaiting.TipAnswer?
    ensures var s' := Step(c, s, Assign(now));
            && s'.router.mode.Driving? && s'.router.mode.height >= s.router.next
            && s'.acks == s.acks && s'.reporter == s.reporter
  {
    SR.DrainedGrows(s.router.next, s.awaiting.buffered);
    assert Step(c, s, Assign(now)) == RouterStep(c, s, Assign(now));
  }

  /** The tip in hand is one the reporter had, so it may lag behind but never runs ahead. */
  lemma {:induction false} TipInHandMayLag<T(!new)>(c: Config<T>, events: seq<Event<T>>)
    ensures var s := Run(c, events); s.awaiting.TipAnswer? ==> s.awaiting.tip <= s.reporter.tip
  {
    if events != [] {
      TipInHandMayLag(c, events[..|events| - 1]);
      TipStaysBehind(c, Run(c, events[..|events| - 1]), events[|events| - 1]);
    }
  }

  lemma TipStaysBehind<T(!new)>(c: Config<T>, s: State<T>, e: Event<T>)
    requires s.awaiting.TipAnswer? ==> s.awaiting.tip <= s.reporter.tip
    ensures var s' := Step(c, s, e); s'.awaiting.TipAnswer? ==> s'.awaiting.tip <= s'.reporter.tip
  {
  }

  /**
   MAIN RESULT. A driven height is superseded only if some honest node saw a certificate or a tip above
   it, whatever up to f faulty nodes report; that node's engine is then less than a window short of it.
   */
  lemma SupersededOnlyIfSeenPast<T(!new)>(c: Config<T>, events: seq<Event<T>>, e: Event<T>) returns (i: nat)
    requires c.Valid()
    requires Run(c, events + [e]).router.superseded != Run(c, events).router.superseded
    ensures var s := Run(c, events);
            && s.router.mode.Driving? && i < |s.seen| == |s.tips| && i !in c.faulty
            && s.seen[i] > s.router.mode.height && s.tips[i] + c.window > s.router.mode.height
  {
    var s := Run(c, events);
    RunKeepsInv(c, events);
    RunOneMore(c, Start(c), events, e);
    StepOfRouter(c, s, e);
    OnlyPassedIsSuperseded(s.router, RouterEvent(c, s, e).value);
    RunMaxFaults(c, events);
    i := TR.SafeTipIsHonest(s.router.reports, s.router.maxFaults, c.faulty);
  }

  lemma OnlyPassedIsSuperseded<T>(r: S.Seq<T>, e: S.Event<T>)
    requires S.Step(r, e).superseded != r.superseded
    ensures r.mode.Driving? && r.SafeTip() > r.mode.height
  {
  }

  lemma {:induction false} RunMaxFaults<T(!new)>(c: Config<T>, events: seq<Event<T>>)
    ensures Run(c, events).router.maxFaults == MaxFaults(c.n)
  {
    if events != [] {
      RunMaxFaults(c, events[..|events| - 1]);
      StepMaxFaults(c, Run(c, events[..|events| - 1]), events[|events| - 1]);
    }
  }

  lemma StepMaxFaults<T(!new)>(c: Config<T>, s: State<T>, e: Event<T>)
    ensures Step(c, s, e).router.maxFaults == s.router.maxFaults
  {
    StepOfRouter(c, s, e);
  }

  // ---- heights that end with no certificate ----

  lemma {:induction false} CountNone<X>(s: seq<X>, p: X -> bool)
    requires forall x :: x in s ==> !p(x)
    ensures SR.Count(s, p) == 0
  {
    if s != [] {
      CountNone(s[..|s| - 1], p);
      assert s[|s| - 1] in s;
    }
  }

  /**
   MAIN RESULT. Of all the heights assigned in one router life, every one whose drive ended with a
   resolution has a certificate's quorum behind it and is a task done. The others are the one being
   driven, and exactly as many as the supersessions plus the one abandoned by shutdown.
   */
  lemma EndedHeights<T(!new)>(c: Config<T>, events: seq<Event<T>>)
    requires c.Valid()
    ensures var s := Run(c, events); var r := s.router;
            && |r.placements| == |r.outcomes| + (if r.mode.Driving? then 1 else 0)
            && |r.outcomes| == |r.fates| + |r.superseded| + |r.abandoned|
            && |r.abandoned| <= 1
            && SR.Count(r.outcomes, SR.Unresolved) == |r.superseded| + |r.abandoned|
            && (forall i: nat :: i < |r.outcomes| && !SR.Unresolved(r.outcomes[i]) ==>
                  exists d :: Quorate(c.n, s.acks, r.placements[i].height, d))
  {
    RunKeepsInv(c, events);
    NoForeignOutcome(c, events);
    var s := Run(c, events);
    var r := s.router;
    CountNone(r.outcomes, SR.ConsumedForeign);
    forall i: nat | i < |r.outcomes| && !SR.Unresolved(r.outcomes[i])
      ensures exists d :: Quorate(c.n, s.acks, r.placements[i].height, d)
    {
      assert OutcomeOk(c, s.acks, r, i);
      var d := if r.outcomes[i].kind.Executed? then r.placements[i].task.digest
               else SkipDigest(c.namespace, r.placements[i].height);
      assert Quorate(c.n, s.acks, r.placements[i].height, d);
    }
  }

  // ---- every actor's run in the system is a run of its module ----

  /** The events the sequencer sees, in order. */
  lemma {:induction false} SequencerRunOf<T(!new)>(c: Config<T>, events: seq<Event<T>>) returns (env: seq<S.Event<T>>)
    ensures Run(c, events).router == SR.RunOf(c.reports, MaxFaults(c.n), c.timeout, c.tip, env)
  {
    if events == [] {
      env := [];
    } else {
      var p, e := events[..|events| - 1], events[|events| - 1];
      env := SequencerRunOf(c, p);
      var s := Run(c, p);
      StepOfRouter(c, s, e);
      if AtSequencer(e) && RouterEvent(c, s, e).Some? {
        var re := RouterEvent(c, s, e).value;
        assert (env + [re])[..|env|] == env;
        env := env + [re];
      }
    }
  }

  /** The messages node i's task book receives, in order; every directive among them was broadcast. */
  lemma {:induction false} BookRunOf<T(!new)>(c: Config<T>, events: seq<Event<T>>, i: nat)
    returns (msgs: seq<B.Message<T>>)
    requires i < c.n
    ensures |Run(c, events).books| == c.n
    ensures Run(c, events).books[i] == B.After(msgs)
    ensures forall m :: m in msgs && m.Directive? ==> m.directive in Run(c, events).router.trace
  {
    if events == [] {
      msgs := [];
    } else {
      var p, e := events[..|events| - 1], events[|events| - 1];
      msgs := BookRunOf(c, p, i);
      var s := Run(c, p);
      TraceKept(c, s, e);
      if AtBook(e) && e.node == i && NodeMessage(c, s, e).Some? {
        var m := NodeMessage(c, s, e).value;
        BookTakes(c, s, e, m);
        AfterOneMore(msgs, m);
        msgs := msgs + [m];
      } else {
        BookKept(c, s, e, i);
      }
    }
  }

  lemma AfterOneMore<T>(msgs: seq<B.Message<T>>, m: B.Message<T>)
    ensures B.After(msgs + [m]) == B.Step(B.After(msgs), m)
  {
    assert (msgs + [m])[..|msgs|] == msgs;
  }

  lemma BookTakes<T(!new)>(c: Config<T>, s: State<T>, e: Event<T>, m: B.Message<T>)
    requires AtBook(e) && e.node < |s.books|
    requires NodeMessage(c, s, e) == Some(m)
    ensures |Step(c, s, e).books| == |s.books| && Step(c, s, e).books[e.node] == B.Step(s.books[e.node], m)
    ensures m.Directive? ==> m.directive in s.router.trace
  {
    assert Step(c, s, e) == NodeStep(c, s, e.node, e);
  }

  lemma BookKept<T(!new)>(c: Config<T>, s: State<T>, e: Event<T>, i: nat)
    requires i < |s.books|
    requires !(AtBook(e) && e.node == i && NodeMessage(c, s, e).Some?)
    ensures |Step(c, s, e).books| == |s.books| && Step(c, s, e).books[i] == s.books[i]
  {
  }

  lemma TraceKept<T(!new)>(c: Config<T>, s: State<T>, e: Event<T>)
    ensures forall d :: d in s.router.trace ==> d in Step(c, s, e).router.trace
  {
    StepOfRouter(c, s, e);
    if AtSequencer(e) && RouterEvent(c, s, e).Some? {
      SR.StepTraceGrows(s.router, RouterEvent(c, s, e).value);
    }
  }

  /** The reports the certificate reporter receives, the journal's tip first; its certificates all had a quorum. */
  lemma {:induction false} ReporterRunOf<T(!new)>(c: Config<T>, events: seq<Event<T>>) returns (msgs: seq<C.Message>)
    ensures Run(c, events).reporter == C.After(msgs)
    ensures forall m :: m in msgs && m.Certified? ==>
                          m.valid && Quorate(c.n, Run(c, events).acks, m.height, m.digest)
  {
    if events == [] {
      msgs := [C.Tip(c.tip)];
      JournalTip(c.tip);
    } else {
      var p, e := events[..|events| - 1], events[|events| - 1];
      msgs := ReporterRunOf(c, p);
      var s := Run(c, p);
      AcksKept(c, s, e);
      forall m | m in msgs && m.Certified? ensures Quorate(c.n, Step(c, s, e).acks, m.height, m.digest) {
        QuorateGrows(c.n, s.acks, Step(c, s, e).acks, m.height, m.digest);
      }
      var next := ReporterTakes(c, s, e);
      if next != [] {
        assert (msgs + next)[..|msgs|] == msgs;
        msgs := msgs + next;
      }
    }
  }

  lemma JournalTip(tip: nat)
    ensures C.After([C.Tip(tip)]) == C.INITIAL.(tip := tip)
  {
    var msgs := [C.Tip(tip)];
    assert msgs[..0] == [];
    assert C.After(msgs) == C.Step(C.INITIAL, C.Tip(tip));
    assert KeepFrom(C.INITIAL.certified, SatSub(tip, PRUNE_SLACK)) == C.INITIAL.certified;
  }

  lemma ReporterTakes<T(!new)>(c: Config<T>, s: State<T>, e: Event<T>) returns (next: seq<C.Message>)
    ensures |next| <= 1
    ensures Step(c, s, e).reporter == if next == [] then s.reporter else C.Step(s.reporter, next[0])
    ensures forall m :: m in next && m.Certified? ==> m.valid && Quorate(c.n, Step(c, s, e).acks, m.height, m.digest)
  {
    match e
    case Certify(h, d) => next := if Quorate(c.n, s.acks, h, d) then [C.Certified(h, d, true)] else [];
    case EngineTip(h) => next := [C.Tip(h)];
    case _ => next := [];
  }

  lemma AcksKept<T(!new)>(c: Config<T>, s: State<T>, e: Event<T>)
    ensures s.acks <= Step(c, s, e).acks
  {
  }
}
