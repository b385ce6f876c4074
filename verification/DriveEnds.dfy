/**
 When the drive of a height can end with a resolution.

 A certificate has to make its way from the engine through the reporter, the submitter and the
 channel of dispositions to the sequencer, behind everything that is on the way already. It always
 can, unless the tick in hand is about to supersede the height.
 */
module DriveEnds {
  import opened Common
  import opened Consensus
  import opened Wire
  import opened System
  import opened Certifiable
  import S = Sequencer
  import SR = SequencerRuns
  import SysRuns = SystemRuns
  import C = CertReporter
  import Sub = Submitter

  /** The task is driven at h, and the sequencer waits for a disposition or its timer. */
  ghost predicate Drives<T>(s: State<T>, h: nat, task: S.SequencedTask<T>) {
    s.router.mode.Driving? && s.router.mode.height == h && s.router.mode.task == task && s.awaiting.Nothing?
  }

  /** The task is done, executed or skipped at h. */
  ghost predicate Done<T>(s: State<T>, h: nat, task: S.SequencedTask<T>) {
    exists f :: f in s.router.fates && f.height == h && f.task == task
  }

  // ---- a certificate of the driven height is never lost on its way ----

  /** A disposition of h is on its way to the sequencer. */
  ghost predicate OnItsWay<T>(s: State<T>, h: nat) {
    (exists r :: r in s.resolutions && r.height == h) || (s.submitting.Some? && s.submitting.value.height == h)
  }

  /** What the reporter holds it handed on, and what was read of the driven height is on its way. */
  ghost predicate Delivering<T>(s: State<T>) {
    && s.read <= |s.reporter.forwarded|
    && (forall h :: h in s.reporter.certified ==> exists f :: f in s.reporter.forwarded && f.height == h)
    && (s.router.mode.Driving? ==>
          && !s.awaiting.TipAnswer?
          && forall i: nat :: i < s.read && s.reporter.forwarded[i].height == s.router.mode.height ==>
                OnItsWay(s, s.router.mode.height))
  }

  lemma ReporterDelivers<T(!new)>(c: Config<T>, s: State<T>, e: Event<T>)
    requires Delivering(s)
    ensures Delivering(ReporterStep(c, s, e))
  {
    var s' := ReporterStep(c, s, e);
    assert s.reporter.forwarded <= s'.reporter.forwarded;
    forall h | h in s'.reporter.certified ensures exists f :: f in s'.reporter.forwarded && f.height == h {
      if h in s.reporter.certified {
        var f :| f in s.reporter.forwarded && f.height == h;
        assert f in s'.reporter.forwarded;
      } else {
        assert s'.reporter.forwarded[|s.reporter.forwarded|].height == h;
      }
    }
    if s.router.mode.Driving? {
      assert OnItsWay(s, s.router.mode.height) ==> OnItsWay(s', s.router.mode.height);
    }
  }

  lemma SubmitterDelivers<T(!new)>(c: Config<T>, s: State<T>, e: Event<T>)
    requires Delivering(s)
    ensures Delivering(SubmitterStep(c, s, e))
  {
    var s' := SubmitterStep(c, s, e);
    if s.router.mode.Driving? {
      var h := s.router.mode.height;
      forall i: nat | i < s'.read && s.reporter.forwarded[i].height == h ensures OnItsWay(s', h) {
        if i < s.read {
          assert OnItsWay(s, h);
          StaysOnItsWay(c, s, e, h);
        } else {
          ReadIsOnItsWay(c, s, e);
        }
      }
    }
  }

  lemma StaysOnItsWay<T(!new)>(c: Config<T>, s: State<T>, e: Event<T>, h: nat)
    requires OnItsWay(s, h)
    ensures OnItsWay(SubmitterStep(c, s, e), h)
  {
    var s' := SubmitterStep(c, s, e);
    if r :| r in s.resolutions && r.height == h {
      assert r in s'.resolutions;
    } else if s'.submitting != s.submitting {
      assert s'.resolutions[|s.resolutions|].height == h;
    }
  }

  lemma ReadIsOnItsWay<T(!new)>(c: Config<T>, s: State<T>, e: Event<T>)
    requires s.read < |s.reporter.forwarded| && SubmitterStep(c, s, e).read == s.read + 1
    ensures OnItsWay(SubmitterStep(c, s, e), s.reporter.forwarded[s.read].height)
  {
    var s' := SubmitterStep(c, s, e);
    if s'.submitting.None? {
      assert s'.resolutions[|s.resolutions|].height == s.reporter.forwarded[s.read].height;
    }
  }

  lemma AnswerDelivers<T(!new)>(c: Config<T>, s: State<T>, e: Event<T>)
    requires Delivering(s)
    ensures Delivering(AnswerStep(s, e))
  {
    var s' := AnswerStep(s, e);
    if s'.router.mode.Driving? {
      assert s'.resolutions == s.resolutions;
      assert OnItsWay(s, s.router.mode.height) ==> OnItsWay(s', s.router.mode.height);
    }
  }

  /** Where the sequencer goes on driving, it took nothing off the channel but dispositions of other heights. */
  lemma RouterDelivers<T(!new)>(c: Config<T>, s: State<T>, e: Event<T>)
    requires c.Valid() && Inv(c, s) && Delivering(s)
    ensures Delivering(RouterStep(c, s, e))
  {
    if RouterEvent(c, s, e).Some? {
      var s', re := RouterStep(c, s, e), RouterEvent(c, s, e).value;
      if s'.router.mode.Driving? {
        RouterDrives(s.router, re);
        if s.router.mode.Driving? {
          GoesOnDriving(s.router, re);
          ChannelKeeps(c, s, e, s.router.mode.height);
        } else {
          NothingReadAhead(c, s, s'.router.mode.height);
        }
      }
    }
  }

  /** An assigned height is above every certificate handed on. */
  lemma NothingReadAhead<T(!new)>(c: Config<T>, s: State<T>, h: nat)
    requires c.Valid() && Inv(c, s) && h >= s.router.next
    ensures forall i: nat :: i < |s.reporter.forwarded| ==> s.reporter.forwarded[i].height != h
  {
    forall i: nat | i < |s.reporter.forwarded| ensures s.reporter.forwarded[i].height != h {
      var f := s.reporter.forwarded[i];
      assert f in s.reporter.forwarded;
      QuorumIsLegitimate(c, s, f.height, f.digest);
    }
  }

  lemma GoesOnDriving<T>(r: S.Seq<T>, e: S.Event<T>)
    requires r.mode.Driving? && S.Step(r, e).mode.Driving?
    ensures S.Step(r, e).mode.height == r.mode.height
    ensures e.Recv? ==> e.resolution.height != r.mode.height
  {
  }

  lemma ChannelKeeps<T(!new)>(c: Config<T>, s: State<T>, e: Event<T>, h: nat)
    requires s.router.mode.Driving? && RouterEvent(c, s, e).Some?
    requires e.Recv? ==> s.resolutions[0].height != h
    ensures OnItsWay(s, h) ==> OnItsWay(RouterStep(c, s, e), h)
    ensures !RouterStep(c, s, e).awaiting.TipAnswer? || RouterStep(c, s, e).awaiting == s.awaiting
  {
    var s' := RouterStep(c, s, e);
    if r :| r in s.resolutions && r.height == h {
      if e.Recv? {
        assert s.resolutions == [s.resolutions[0]] + s'.resolutions;
      } else {
        assert s'.resolutions == s.resolutions;
      }
      assert r in s'.resolutions;
    }
  }

  lemma StepDelivers<T(!new)>(c: Config<T>, s: State<T>, e: Event<T>)
    requires c.Valid() && Inv(c, s) && Delivering(s)
    ensures Delivering(Step(c, s, e))
  {
    if AtNode(e) {
      NodeLeavesRouter(c, s, e);
    } else if e.Certify? || e.EngineTip? {
      ReporterDelivers(c, s, e);
    } else if e.Classify? || e.Submitted? {
      SubmitterDelivers(c, s, e);
    } else if e.TipRead? || e.Poll? {
      AnswerDelivers(c, s, e);
    } else {
      RouterDelivers(c, s, e);
    }
  }

  lemma NodeLeavesRouter<T(!new)>(c: Config<T>, s: State<T>, e: Event<T>)
    requires AtNode(e)
    ensures OnlyNodes(s, Step(c, s, e))
    ensures Delivering(s) ==> Delivering(Step(c, s, e))
  {
    var s' := Step(c, s, e);
    if s.router.mode.Driving? {
      assert OnItsWay(s, s.router.mode.height) ==> OnItsWay(s', s.router.mode.height);
    }
  }

  lemma {:induction false} RunDelivers<T(!new)>(c: Config<T>, s: State<T>, more: seq<Event<T>>)
    requires c.Valid() && Inv(c, s) && Delivering(s)
    ensures Delivering(RunFrom(c, s, more))
  {
    if more != [] {
      var p := more[..|more| - 1];
      RunDelivers(c, s, p);
      RunFromKeepsInv(c, s, p);
      StepDelivers(c, RunFrom(c, s, p), more[|more| - 1]);
    }
  }

  // ---- what is on the way arrives ----

  /** The nodes and the reporter are as they were. */
  ghost predicate OnlyRouter<T>(s: State<T>, s': State<T>) {
    && s'.books == s.books && s'.signed == s.signed && s'.tips == s.tips && s'.acks == s.acks
    && s'.reporter == s.reporter
  }

  /** What receiving a disposition is to the sequencer, while it drives. */
  lemma ReceiveStep<T(!new)>(c: Config<T>, s: State<T>, h: nat, task: S.SequencedTask<T>)
    requires Drives(s, h, task) && s.resolutions != []
    ensures Step(c, s, Recv) == s.(router := S.StepDriving(s.router, S.Recv(s.resolutions[0])),
                                   resolutions := s.resolutions[1..])
  {
    assert RouterEvent(c, s, Recv) == Some(S.Recv(s.resolutions[0]));
    assert Step(c, s, Recv) == RouterStep(c, s, Recv);
  }

  /** A disposition of the driven height ends the drive, for it is not foreign. */
  lemma ReceivedEnds<T(!new)>(c: Config<T>, s: State<T>, h: nat, task: S.SequencedTask<T>)
    requires DispositionsOk(c, s) && Drives(s, h, task) && s.resolutions != [] && s.resolutions[0].height == h
    ensures Done(Step(c, s, Recv), h, task)
  {
    var r := s.resolutions[0];
    assert ResolutionOk(c, s.router, s.acks, r);
    ReceiveStep(c, s, h, task);
    assert S.StepDriving(s.router, S.Recv(r)) == S.Finished(s.router, S.Resolved(r.kind));
    assert S.Fate(task, h, r.kind) in Step(c, s, Recv).router.fates;
  }

  /** The sequencer receives the next disposition: the drive ends, or it is of another height and the drive goes on. */
  lemma ReceiveOne<T(!new)>(c: Config<T>, s: State<T>, h: nat, task: S.SequencedTask<T>)
    requires DispositionsOk(c, s) && Drives(s, h, task) && s.resolutions != []
    ensures var s' := Step(c, s, Recv);
            && OnlyRouter(s, s')
            && (Done(s', h, task) ||
                (Drives(s', h, task) && s'.resolutions == s.resolutions[1..] &&
                 s'.submitting == s.submitting && s'.read == s.read))
  {
    ReceiveStep(c, s, h, task);
    if s.resolutions[0].height == h {
      ReceivedEnds(c, s, h, task);
    }
  }

  lemma {:induction false} ReceiveAll<T(!new)>(c: Config<T>, s: State<T>, h: nat, task: S.SequencedTask<T>)
    returns (more: seq<Event<T>>)
    requires c.Valid() && Inv(c, s) && Drives(s, h, task)
    ensures var s' := RunFrom(c, s, more);
            && OnlyRouter(s, s')
            && (Done(s', h, task) ||
                (Drives(s', h, task) && s'.resolutions == [] && s'.submitting == s.submitting && s'.read == s.read))
    decreases |s.resolutions|
  {
    more := [];
    if s.resolutions != [] {
      var s1 := Step(c, s, Recv);
      ReceiveOne(c, s, h, task);
      OneStep(c, s, Recv);
      more := [Recv];
      if !Done(s1, h, task) {
        StepKeepsInv(c, s, Recv);
        var rest := ReceiveAll(c, s1, h, task);
        RunConcat(c, s, [Recv], rest);
        more := [Recv] + rest;
      }
    }
  }

  /** The submitter finishes what it is busy with, and the sequencer hears of everything so far. */
  lemma SubmitAndReceive<T(!new)>(c: Config<T>, s: State<T>, h: nat, task: S.SequencedTask<T>)
    returns (more: seq<Event<T>>)
    requires c.Valid() && Inv(c, s) && Drives(s, h, task)
    ensures var s' := RunFrom(c, s, more);
            && OnlyRouter(s, s')
            && (Done(s', h, task) ||
                (Drives(s', h, task) && s'.resolutions == [] && s'.submitting.None? && s'.read == s.read))
  {
    var first := Submitted(true);
    var s1 := Step(c, s, first);
    assert s1 == SubmitterStep(c, s, first);
    StepKeepsInv(c, s, first);
    OneStep(c, s, first);
    var rest := ReceiveAll(c, s1, h, task);
    RunConcat(c, s, [first], rest);
    more := [first] + rest;
  }

  /** Nothing is on the way: every certificate was read and every disposition received. */
  ghost predicate Quiet<T>(s: State<T>, h: nat, task: S.SequencedTask<T>) {
    && Drives(s, h, task)
    && s.resolutions == [] && s.submitting.None? && s.read >= |s.reporter.forwarded|
  }

  /** The submitter reads the next certificate and deals with it, and the sequencer hears of it. */
  lemma ReadOne<T(!new)>(c: Config<T>, s: State<T>, h: nat, task: S.SequencedTask<T>) returns (more: seq<Event<T>>)
    requires c.Valid() && Inv(c, s) && Drives(s, h, task) && s.submitting.None?
    requires s.read < |s.reporter.forwarded|
    ensures var s' := RunFrom(c, s, more);
            && OnlyRouter(s, s')
            && (Done(s', h, task) ||
                (Drives(s', h, task) && s'.resolutions == [] && s'.submitting.None? && s'.read == s.read + 1))
  {
    var s1 := Step(c, s, Classify);
    ClassifyReads(c, s);
    StepKeepsInv(c, s, Classify);
    OneStep(c, s, Classify);
    var receive := SubmitAndReceive(c, s1, h, task);
    RunConcat(c, s, [Classify], receive);
    more := [Classify] + receive;
  }

  lemma ClassifyReads<T(!new)>(c: Config<T>, s: State<T>)
    requires s.submitting.None? && s.read < |s.reporter.forwarded|
    ensures var s1 := Step(c, s, Classify);
            OnlyRouter(s, s1) && s1.read == s.read + 1 && s1.router == s.router && s1.awaiting == s.awaiting
  {
    assert Step(c, s, Classify) == SubmitterStep(c, s, Classify);
  }

  lemma {:induction false} ReadAll<T(!new)>(c: Config<T>, s: State<T>, h: nat, task: S.SequencedTask<T>)
    returns (more: seq<Event<T>>)
    requires c.Valid() && Inv(c, s) && Drives(s, h, task) && s.submitting.None? && s.resolutions == []
    ensures OnlyRouter(s, RunFrom(c, s, more))
    ensures Done(RunFrom(c, s, more), h, task) || Quiet(RunFrom(c, s, more), h, task)
    decreases |s.reporter.forwarded| - s.read
  {
    more := [];
    if s.read < |s.reporter.forwarded| {
      more := ReadOne(c, s, h, task);
      var s1 := RunFrom(c, s, more);
      if !Done(s1, h, task) {
        RunFromKeepsInv(c, s, more);
        var rest := ReadAll(c, s1, h, task);
        RunConcat(c, s, more, rest);
        more := more + rest;
      }
    }
  }

  /** Everything on its way arrives; unless that ends the drive, it goes on with nothing else in flight. */
  lemma Settle<T(!new)>(c: Config<T>, s: State<T>, h: nat, task: S.SequencedTask<T>) returns (more: seq<Event<T>>)
    requires c.Valid() && Inv(c, s) && Drives(s, h, task)
    ensures OnlyRouter(s, RunFrom(c, s, more))
    ensures Done(RunFrom(c, s, more), h, task) || Quiet(RunFrom(c, s, more), h, task)
  {
    more := SubmitAndReceive(c, s, h, task);
    var s1 := RunFrom(c, s, more);
    if !Done(s1, h, task) {
      RunFromKeepsInv(c, s, more);
      var rest := ReadAll(c, s1, h, task);
      RunConcat(c, s, more, rest);
      more := more + rest;
    }
  }

  /** With nothing in flight, the reporter holds no certificate of the driven height: it would have arrived. */
  lemma QuietIsUncertified<T>(s: State<T>, h: nat, task: S.SequencedTask<T>)
    requires Delivering(s) && Quiet(s, h, task)
    ensures h !in s.reporter.certified
  {
    assert !OnItsWay(s, h);
    assert forall i: nat :: i < |s.reporter.forwarded| ==> s.reporter.forwarded[i].height != h;
  }

  /** How the drive of the task ends by a certificate of d. */
  function EndsAs<T>(c: Config<T>, h: nat, task: S.SequencedTask<T>, d: Digest): S.Fate<T> {
    S.Fate(task, h, if d == SkipDigest(c.namespace, h) then S.Skipped else S.Executed(true))
  }

  /** The certificate forms and is handed on. */
  lemma ThenCertified<T(!new)>(c: Config<T>, s: State<T>, h: nat, task: S.SequencedTask<T>, d: Digest)
    requires Quiet(s, h, task) && s.read == |s.reporter.forwarded| && h !in s.reporter.certified
    requires Quorate(c.n, s.acks, h, d)
    ensures var s' := Step(c, s, Certify(h, d));
            && s' == s.(reporter := s'.reporter)
            && s'.reporter.forwarded == s.reporter.forwarded + [C.CertifiedHeight(h, d)]
  {
  }

  /** The submitter reads it, and submits it unless it is of the skip digest. */
  lemma ThenSubmitted<T(!new)>(c: Config<T>, s: State<T>, h: nat, task: S.SequencedTask<T>, d: Digest)
    requires SR.Holding(s.router) && Drives(s, h, task) && s.resolutions == [] && s.submitting.None?
    requires s.read < |s.reporter.forwarded| && s.reporter.forwarded[s.read] == C.CertifiedHeight(h, d)
    requires d == SkipDigest(c.namespace, h) || d == task.digest
    ensures var s' := Step(c, Step(c, s, Classify), Submitted(true));
            s'.router == s.router && s'.awaiting == s.awaiting
            && s'.resolutions == [S.Resolution(h, EndsAs(c, h, task, d).kind)]
  {
    var cert := C.CertifiedHeight(h, d);
    assert Sub.Expected(c.namespace, s.router.assignments, cert) <==> d != SkipDigest(c.namespace, h);
    var s1 := Step(c, s, Classify);
    assert s1 == SubmitterStep(c, s, Classify);
    assert Step(c, s1, Submitted(true)) == SubmitterStep(c, s1, Submitted(true));
  }

  lemma ThenReceived<T(!new)>(c: Config<T>, s: State<T>, h: nat, task: S.SequencedTask<T>, r: S.Resolution)
    requires Drives(s, h, task) && s.resolutions == [r] && r.height == h && !r.kind.Foreign?
    ensures Step(c, s, Recv).router.fates == s.router.fates + [S.Fate(task, h, r.kind)]
  {
    assert RouterEvent(c, s, Recv) == Some(S.Recv(r));
    assert Step(c, s, Recv) == RouterStep(c, s, Recv);
  }

  /** A quorum for the assigned digest, or the skip digest, ends a quiet drive as executed, or skipped. */
  lemma QuorumEndsDrive<T(!new)>(c: Config<T>, s: State<T>, h: nat, task: S.SequencedTask<T>, d: Digest)
    returns (more: seq<Event<T>>)
    requires SR.Inv(s.router) && Delivering(s) && Quiet(s, h, task) && Quorate(c.n, s.acks, h, d)
    requires d == SkipDigest(c.namespace, h) || d == task.digest
    ensures RunFrom(c, s, more).router.fates == s.router.fates + [EndsAs(c, h, task, d)]
  {
    QuietIsUncertified(s, h, task);
    ThenCertified(c, s, h, task, d);
    var s1 := Step(c, s, Certify(h, d));
    assert SR.Holding(s.router);
    ThenSubmitted(c, s1, h, task, d);
    var s2 := Step(c, s1, Classify);
    var s3 := Step(c, s2, Submitted(true));
    ThreeSteps(c, s, s1, s2, Certify(h, d), Classify, Submitted(true));
    RunOneMore(c, s, [Certify(h, d), Classify, Submitted(true)], Recv);
    more := [Certify(h, d), Classify, Submitted(true)] + [Recv];
    ThenReceived(c, s3, h, task, S.Resolution(h, EndsAs(c, h, task, d).kind));
  }

  /** While there is room for d, a quorum gathers and the drive ends. */
  lemma RoomEndsDrive<T(!new)>(c: Config<T>, s: State<T>, h: nat, task: S.SequencedTask<T>, d: Digest)
    returns (more: seq<Event<T>>)
    requires c.Valid() && Inv(c, s) && Delivering(s) && Quiet(s, h, task)
    requires |Room(c, s, h, d)| >= Quorum(c.n)
    requires d == SkipDigest(c.namespace, h) || d == task.digest
    ensures RunFrom(c, s, more).router.fates == s.router.fates + [EndsAs(c, h, task, d)]
  {
    var k := DriveTells(c, s, h, task, d);
    var gather := RoomIsEnough(c, s, k, h, d);
    var s1 := RunFrom(c, s, gather);
    RunFromKeepsInv(c, s, gather);
    RunDelivers(c, s, gather);
    var end := QuorumEndsDrive(c, s1, h, task, d);
    RunConcat(c, s, gather, end);
    more := gather + end;
  }

  lemma DriveTells<T(!new)>(c: Config<T>, s: State<T>, h: nat, task: S.SequencedTask<T>, d: Digest) returns (k: nat)
    requires Inv(c, s) && Drives(s, h, task) && (d == SkipDigest(c.namespace, h) || d == task.digest)
    ensures Tells(c, s.router.trace, k, h, d)
  {
    DrivenIsLegitimate(c, s, h, task, d);
    k := SomethingTells(c, s, h, d);
  }

  lemma DrivenIsLegitimate<T>(c: Config<T>, s: State<T>, h: nat, task: S.SequencedTask<T>, d: Digest)
    requires RouterOk(c, s.router)
    requires s.router.mode.Driving? && s.router.mode.height == h && s.router.mode.task == task
    requires d == SkipDigest(c.namespace, h) || d == task.digest
    ensures Passed(s.router.trace, h) && Legitimate(c, s.router.placements, h, d)
  {
    var p := DrivenIsPlaced(s.router);
    assert Announce(p.height, p.task.announce) in s.router.trace;
  }

  // ---- the exact condition ----

  /** The tick in hand found no certificate, and the safe tip is past the height: it will be superseded. */
  ghost predicate Doomed<T>(s: State<T>) {
    && s.router.mode.Driving? && s.awaiting == CertAnswer(false)
    && !s.router.mode.certified && s.router.SafeTip() > s.router.mode.height
  }

  /** h will not be driven any more. */
  ghost predicate Gone<T>(s: State<T>, h: nat) {
    && (forall f :: f in s.router.fates ==> f.height != h)
    && s.router.next > h
    && (s.router.mode.Driving? ==> s.router.mode.height != h || Doomed(s))
  }

  lemma StepGone<T(!new)>(c: Config<T>, s: State<T>, e: Event<T>, h: nat)
    requires Gone(s, h) && SR.Inv(s.router)
    ensures Gone(Step(c, s, e), h)
  {
    StepOfRouter(c, s, e);
    if AtSequencer(e) && RouterEvent(c, s, e).Some? {
      var re := RouterEvent(c, s, e).value;
      assert Step(c, s, e) == RouterStep(c, s, e);
      SR.StepKeepsInv(s.router, re);
      RouterGone(s.router, re, h);
      if s.router.mode.Driving? && s.router.mode.height == h && e.TipReported? {
        assert Step(c, s, e).awaiting == s.awaiting;
      }
    } else if !s.awaiting.Nothing? {
      StepKeepsAnswer(c, s, e);
    }
  }

  /** An answer in hand is only used up by the sequencer. */
  lemma StepKeepsAnswer<T(!new)>(c: Config<T>, s: State<T>, e: Event<T>)
    requires !s.awaiting.Nothing? && !(AtSequencer(e) && RouterEvent(c, s, e).Some?)
    ensures Step(c, s, e).awaiting == s.awaiting
  {
  }

  lemma RouterGone<T>(r: S.Seq<T>, e: S.Event<T>, h: nat)
    requires r.next > h && forall f :: f in r.fates ==> f.height != h
    requires r.mode.Driving? && r.mode.height == h ==>
               (e.Tick? && !e.certSeen && !r.mode.certified && r.SafeTip() > h) || e.TipReported?
    ensures forall f :: f in S.Step(r, e).fates ==> f.height != h
    ensures S.Step(r, e).mode.Driving? && S.Step(r, e).mode.height == h ==>
              r.mode.Driving? && r.mode.height == h && e.TipReported? && S.Step(r, e).mode == r.mode
  {
    RouterEnds(r, e);
    RouterDrives(r, e);
  }

  lemma {:induction false} GoneForGood<T(!new)>(c: Config<T>, s: State<T>, more: seq<Event<T>>, h: nat)
    requires c.Valid() && Inv(c, s) && Gone(s, h)
    ensures Gone(RunFrom(c, s, more), h)
  {
    if more != [] {
      var p := more[..|more| - 1];
      GoneForGood(c, s, p, h);
      RunFromKeepsInv(c, s, p);
      StepGone(c, RunFrom(c, s, p), more[|more| - 1], h);
    }
  }

  /** The driven task is not done yet, there or anywhere. */
  lemma DrivenNotDone<T>(r: S.Seq<T>)
    requires SR.Inv(r) && SR.FatesPlaced(r) && r.mode.Driving?
    ensures forall f :: f in r.fates ==> f.height != r.mode.height
  {
    SR.DoneLength(r.fates);
    forall f | f in r.fates ensures f.height != r.mode.height {
      var k: nat :| k < |r.fates| && r.fates[k] == f;
      var p := S.Placement(f.height, f.task, k);
      assert p in r.placements;
      var last := r.placements[|r.placements| - 1];
      assert last in r.placements;
      if f.height == r.mode.height {
        PlacedOnce(r, p, last);
      }
    }
  }

  /** The tick in hand is finished, and the drive goes on. */
  lemma FinishTick<T(!new)>(c: Config<T>, s: State<T>) returns (more: seq<Event<T>>)
    requires s.router.mode.Driving? && !s.awaiting.TipAnswer? && !Doomed(s)
    ensures var s' := RunFrom(c, s, more); Drives(s', s.router.mode.height, s.router.mode.task) && OnlyRouter(s, s')
  {
    if s.awaiting.Nothing? {
      more := [];
    } else {
      more := [Tick(0)];
      OneStep(c, s, Tick(0));
      assert Step(c, s, Tick(0)) == RouterStep(c, s, Tick(0));
      assert S.OutcomeOf(s.router, S.Tick(s.awaiting.seen, 0)) == None;
    }
  }

  /** A continuation in which the drive of the task ends with a resolution. */
  ghost predicate CanEnd<T(!new)>(c: Config<T>, s: State<T>, h: nat, task: S.SequencedTask<T>) {
    exists more :: Done(RunFrom(c, s, more), h, task)
  }

  lemma RoomCanEnd<T(!new)>(c: Config<T>, s: State<T>, h: nat, task: S.SequencedTask<T>, d: Digest)
    requires c.Valid() && Inv(c, s) && Delivering(s)
    requires s.router.mode.Driving? && s.router.mode.height == h && s.router.mode.task == task && !Doomed(s)
    requires |Room(c, s, h, d)| >= Quorum(c.n)
    requires d == SkipDigest(c.namespace, h) || d == task.digest
    ensures CanEnd(c, s, h, task)
  {
    var tick := FinishTick(c, s);
    var s1 := RunFrom(c, s, tick);
    RunFromKeepsInv(c, s, tick);
    RunDelivers(c, s, tick);
    SameRoom(c, s, s1, h, d);
    var end := SettleAndEnd(c, s1, h, task, d);
    RunConcat(c, s, tick, end);
    assert Done(RunFrom(c, s, tick + end), h, task);
  }

  lemma SettleAndEnd<T(!new)>(c: Config<T>, s: State<T>, h: nat, task: S.SequencedTask<T>, d: Digest)
    returns (more: seq<Event<T>>)
    requires c.Valid() && Inv(c, s) && Delivering(s) && Drives(s, h, task)
    requires |Room(c, s, h, d)| >= Quorum(c.n)
    requires d == SkipDigest(c.namespace, h) || d == task.digest
    ensures Done(RunFrom(c, s, more), h, task)
  {
    more := Settle(c, s, h, task);
    var s1 := RunFrom(c, s, more);
    if !Done(s1, h, task) {
      RunFromKeepsInv(c, s, more);
      RunDelivers(c, s, more);
      SameRoom(c, s, s1, h, d);
      var end := RoomEndsDrive(c, s1, h, task, d);
      RunConcat(c, s, more, end);
      more := more + end;
      assert EndsAs(c, h, task, d) in RunFrom(c, s, more).router.fates;
    }
  }

  lemma SameRoom<T>(c: Config<T>, s: State<T>, s': State<T>, h: nat, d: Digest)
    requires Sized(c, s) && s'.books == s.books && s'.signed == s.signed && s'.tips == s.tips
    ensures Sized(c, s') && Room(c, s', h, d) == Room(c, s, h, d)
  {
    forall i | 0 <= i < c.n ensures MayTake(c, s', i, h, d) == MayTake(c, s, i, h, d) {
    }
  }

  /** A continuation that ends the drive has a quorum for the skip digest or the task's, so there was room for it. */
  lemma EndNeedsRoom<T(!new)>(c: Config<T>, s: State<T>, more: seq<Event<T>>, h: nat, task: S.SequencedTask<T>)
    requires c.Valid() && Inv(c, s)
    requires s.router.mode.Driving? && s.router.mode.height == h && s.router.mode.task == task
    requires Done(RunFrom(c, s, more), h, task)
    ensures |Room(c, s, h, SkipDigest(c.namespace, h))| >= Quorum(c.n) ||
            |Room(c, s, h, task.digest)| >= Quorum(c.n)
  {
    RunFromKeepsInv(c, s, more);
    var s' := RunFrom(c, s, more);
    var f :| f in s'.router.fates && f.height == h && f.task == task;
    assert FateOk(c, s'.acks, f);
    QuorateNeedsRoom(c, s, more, h, if f.kind.Executed? then task.digest else SkipDigest(c.namespace, h));
  }

  /**
   MAIN RESULT (when a drive can end). In every reachable state in which a height is driven, some
   continuation ends the drive with the task executed or skipped there if and only if the tick in hand
   is not about to supersede the height, and the skip digest or the task's digest still has a quorum of
   room: then engine, reporter, submitter and sequencer get the certificate through behind whatever is
   on the way.
   */
  lemma DriveCanEndIff<T(!new)>(c: Config<T>, events: seq<Event<T>>)
    requires c.Valid() && Run(c, events).router.mode.Driving?
    ensures Sized(c, Run(c, events))
    ensures var s := Run(c, events); var h, task := s.router.mode.height, s.router.mode.task;
            CanEnd(c, s, h, task) <==>
              && !Doomed(s)
              && (|Room(c, s, h, SkipDigest(c.namespace, h))| >= Quorum(c.n) ||
                  |Room(c, s, h, task.digest)| >= Quorum(c.n))
  {
    RunKeepsInv(c, events);
    StartInv(c);
    RunDelivers(c, Start(c), events);
    var s := Run(c, events);
    var h, task := s.router.mode.height, s.router.mode.task;
    if more :| Done(RunFrom(c, s, more), h, task) {
      EndNeedsRoom(c, s, more, h, task);
      if Doomed(s) {
        DoomedIsGone(c, events);
        GoneForGood(c, s, more, h);
      }
    }
    if !Doomed(s) {
      if |Room(c, s, h, SkipDigest(c.namespace, h))| >= Quorum(c.n) {
        RoomCanEnd(c, s, h, task, SkipDigest(c.namespace, h));
      } else if |Room(c, s, h, task.digest)| >= Quorum(c.n) {
        RoomCanEnd(c, s, h, task, task.digest);
      }
    }
  }

  lemma DoomedIsGone<T(!new)>(c: Config<T>, events: seq<Event<T>>)
    requires c.Valid() && Doomed(Run(c, events))
    ensures Gone(Run(c, events), Run(c, events).router.mode.height)
  {
    var s := Run(c, events);
    RunKeepsInv(c, events);
    var env := SysRuns.SequencerRunOf(c, events);
    SR.TasksEndWhereLastPlaced<T>(c.reports, MaxFaults(c.n), c.timeout, c.tip, env);
    DrivenNotDone(s.router);
    var p := DrivenIsPlaced(s.router);
    PlacedIsPulled(s.router, p);
  }
}
