/**
 Concrete runs of the system: one that executes its task, and two in which an assigned height
 ends without a certificate.
 */
module SampleRuns {
  import opened Common
  import opened Consensus
  import opened Wire
  import opened System
  import opened Certifiable
  import opened DriveEnds
  import B = TaskBook
  import S = Sequencer
  import TR = TipReports

  // ---- the beginning they share ----

  /** The height the first task is assigned. */
  ghost function FirstHeight<T>(c: Config<T>): nat {
    Max(c.tip, TR.SafeTipOf(c.reports, MaxFaults(c.n)))
  }

  /** A valid configuration, and a task its nodes can validate whose digest is not the skip digest. */
  ghost predicate Startable<T>(c: Config<T>, task: S.SequencedTask<T>) {
    c.Valid() && task.digest == c.validate(task.announce) && task.digest != SkipDigest(c.namespace, FirstHeight(c))
  }

  /** The task is driven at the first height, and nothing else happened to the sequencer. */
  ghost predicate DrivingFirst<T>(c: Config<T>, r: S.Seq<T>, task: S.SequencedTask<T>, skipping: bool) {
    && r.mode == S.Driving(FirstHeight(c), task, c.timeout, skipping, false)
    && r.placements == [S.Placement(FirstHeight(c), task, 0)] && r.fates == [] && r.outcomes == [] && r.superseded == []
    && r.maxFaults == MaxFaults(c.n)
  }

  /** The sequencer after it pulled its first task. */
  ghost function Pulled<T>(c: Config<T>, task: S.SequencedTask<T>): S.Seq<T> {
    Start(c).router.(mode := S.Pending(task), pulled := [task])
  }

  lemma AssignsFirst<T(!new)>(c: Config<T>, s: State<T>, task: S.SequencedTask<T>)
    requires s.awaiting == TipAnswer([], c.tip) && s.router == Pulled(c, task)
    ensures var s' := Step(c, s, Assign(0));
            && s' == s.(router := s'.router, awaiting := Nothing) && DrivingFirst(c, s'.router, task, false)
            && s'.router.reports == c.reports && s'.router.trace == [Announce(FirstHeight(c), task.announce)]
  {
    assert Step(c, s, Assign(0)) == RouterStep(c, s, Assign(0));
    assert S.NextHeight(s.router, [], c.tip) == FirstHeight(c);
  }

  /** The sequencer takes the task and announces it at the first height. */
  lemma AnnounceFirst<T(!new)>(c: Config<T>, task: S.SequencedTask<T>) returns (events: seq<Event<T>>)
    requires Startable(c, task)
    ensures var s := Run(c, events);
            && s == Start(c).(router := s.router) && DrivingFirst(c, s.router, task, false)
            && s.router.reports == c.reports && s.router.trace == [Announce(FirstHeight(c), task.announce)]
  {
    var pull: Event<T>, read: Event<T>, assign: Event<T> := Pull(0, task), TipRead(0), Assign(0);
    var s0 := Start(c);
    var s1 := s0.(router := Pulled(c, task));
    assert Step(c, s0, pull) == RouterStep(c, s0, pull) == s1;
    var s2 := s1.(awaiting := TipAnswer([], c.tip));
    assert Step(c, s1, read) == s2;
    ThreeSteps(c, s0, s1, s2, pull, read, assign);
    events := [pull, read, assign];
    AssignsFirst(c, s2, task);
  }

  // ---- a run that executes its task ----

  /** The participants that are faulty or whose engines have not left the height behind. */
  ghost function NotPast<T>(c: Config<T>, h: nat): set<nat>
    requires |c.tips| == c.n
  {
    set i | 0 <= i < c.n && (i in c.faulty || c.tips[i] <= h)
  }

  /** In fresh books everybody who is not past the height has room for its announced task. */
  lemma FreshRoom<T>(c: Config<T>, s: State<T>, h: nat, d: Digest)
    requires c.Valid() && Sized(c, s) && s.tips == c.tips
    requires forall i :: 0 <= i < c.n ==> s.books[i] == B.Empty() && s.signed[i] == map[]
    ensures Room(c, s, h, d) == NotPast(c, h)
  {
    forall i | 0 <= i < c.n ensures MayTake(c, s, i, h, d) <==> i in NotPast(c, h) {
      assert CanHear(c, s.books[i], h, d);
    }
  }

  /**
   The steps are not too strict: in every valid configuration in which a quorum is faulty or not past the
   first height, every task whose digest is not the skip digest has a run that executes it there, so
   what is promised of every run speaks about real ones.
   */
  lemma SomeRunExecutes<T(!new)>(c: Config<T>, task: S.SequencedTask<T>) returns (events: seq<Event<T>>)
    requires Startable(c, task) && |NotPast(c, FirstHeight(c))| >= Quorum(c.n)
    ensures Run(c, events).router.fates == [S.Fate(task, FirstHeight(c), S.Executed(true))]
  {
    var announced := AnnounceFirst(c, task);
    var s, h := Run(c, announced), FirstHeight(c);
    RunKeepsInv(c, announced);
    StartInv(c);
    RunDelivers(c, Start(c), announced);
    FreshRoom(c, s, h, task.digest);
    var end := RoomEndsDrive(c, s, h, task, task.digest);
    RunConcat(c, Start(c), announced, end);
    events := announced + end;
  }

  // ---- runs from height 0 ----

  /** A router with an empty journal and no tip reports. */
  ghost predicate Fresh<T>(c: Config<T>, task: S.SequencedTask<T>) {
    Startable(c, task) && c.tip == 0 && c.reports == map[]
  }

  lemma NoReportsNoTip(maxFaults: nat)
    ensures TR.SafeTipOf<nat>(map[], maxFaults) == 0
  {
    var none: map<nat, nat> := map[];
    assert forall t :: TR.Reached(none, t) == {};
    TR.SafeTipUnique(none, maxFaults, 0);
  }

  lemma FreshStartsAtZero<T>(c: Config<T>, task: S.SequencedTask<T>)
    requires Fresh(c, task)
    ensures FirstHeight(c) == 0
  {
    NoReportsNoTip(MaxFaults(c.n));
  }

  /** The run goes on: participant i, whose book is empty, hears the k-th directive and takes d at height 0. */
  lemma TakesAtZero<T(!new)>(c: Config<T>, events: seq<Event<T>>, i: nat, k: nat, d: Digest)
    returns (longer: seq<Event<T>>)
    requires c.Valid() && i < c.n
    requires var s := Run(c, events);
             && Sized(c, s) && 0 !in s.signed[i] && s.books[i] == B.Empty() && s.tips[i] == 0
             && Tells(c, s.router.trace, k, 0, d)
    ensures i < |Run(c, events).signed| && OnlyTook(Run(c, events), Run(c, longer), i, 0, d)
    ensures Run(c, longer).tips == Run(c, events).tips
  {
    RunKeepsInv(c, events);
    var more := HearAndTake(c, Run(c, events), i, k, 0, d);
    RunConcat(c, Start(c), events, more);
    longer := events + more;
  }

  /** The reporter is asked for the driven height and has no certificate. */
  ghost function Polled<T>(s: State<T>): State<T> {
    s.(awaiting := CertAnswer(false))
  }

  lemma PollFindsNothing<T(!new)>(c: Config<T>, s: State<T>)
    requires s.router.mode.Driving? && s.awaiting.Nothing? && s.reporter.certified == map[]
    ensures Step(c, s, Poll) == Polled(s)
  {
    assert Step(c, s, Poll) == AnswerStep(s, Poll);
  }

  lemma PollThenTick<T(!new)>(c: Config<T>, s: State<T>, now: nat)
    requires s.router.mode.Driving? && s.awaiting.Nothing? && s.reporter.certified == map[]
    ensures RunFrom(c, s, [Poll, Tick(now)]) == s.(router := S.StepDriving(s.router, S.Tick(false, now)))
  {
    PollFindsNothing(c, s);
    var poll: seq<Event<T>> := [Poll];
    RunOneMore(c, s, poll, Tick(now));
    OneStep(c, s, Poll);
    assert poll + [Tick(now)] == [Poll, Tick(now)];
    TickAfterPoll(c, s, now);
  }

  lemma TickAfterPoll<T(!new)>(c: Config<T>, s: State<T>, now: nat)
    requires s.router.mode.Driving? && s.awaiting.Nothing?
    ensures Step(c, Polled(s), Tick(now)) == s.(router := S.StepDriving(s.router, S.Tick(false, now)))
  {
    var p := Polled(s);
    assert RouterEvent(c, p, Tick(now)) == Some(S.Tick(false, now));
    assert Step(c, p, Tick(now)) == RouterStep(c, p, Tick(now));
    assert p.resolutions[0..] == p.resolutions;
  }

  // ---- a split height ----

  /** A tick past the deadline: the sequencer gives height 0 up and broadcasts its Skip. */
  lemma ThenGivenUp<T(!new)>(c: Config<T>, s: State<T>, task: S.SequencedTask<T>) returns (more: seq<Event<T>>)
    requires Fresh(c, task) && DrivingFirst(c, s.router, task, false) && s.router.reports == map[]
    requires s.awaiting.Nothing? && s.reporter.certified == map[]
    ensures var s' := RunFrom(c, s, more);
            && s' == s.(router := s'.router) && DrivingFirst(c, s'.router, task, true)
            && s'.router.trace == s.router.trace + [Skip(0)]
  {
    more := [Poll, Tick(c.timeout)];
    PollThenTick(c, s, c.timeout);
    FreshStartsAtZero(c, task);
    NoReportsNoTip(MaxFaults(c.n));
    assert S.StepDriving(s.router, S.Tick(false, c.timeout)) == S.Ticked(s.router, false, c.timeout);
  }

  /** Two participants took the task's digest at height 0 and two the skip digest. */
  ghost predicate Split<T>(c: Config<T>, s: State<T>, task: S.SequencedTask<T>) {
    && Sized(c, s) && c.n == 4 && (forall i :: 0 <= i < 4 ==> 0 in s.signed[i])
    && s.signed[0][0] == s.signed[1][0] == task.digest
    && s.signed[2][0] == s.signed[3][0] == SkipDigest(c.namespace, 0)
  }

  /** Four engines that are all at height 0. */
  ghost predicate FourAtZero<T>(c: Config<T>, task: S.SequencedTask<T>) {
    Fresh(c, task) && c.n == 4 && c.tips == [0, 0, 0, 0]
  }

  /** The first two took the task's digest, and the other two have not been told anything. */
  ghost predicate HalfTaken<T>(c: Config<T>, s: State<T>, task: S.SequencedTask<T>) {
    && Sized(c, s) && c.n == 4 && s.tips == c.tips
    && (forall i :: 0 <= i < 2 ==> 0 in s.signed[i] && s.signed[i][0] == task.digest)
    && (forall i :: 2 <= i < 4 ==> 0 !in s.signed[i] && s.books[i] == B.Empty())
  }

  /** The first two nodes hear the announcement and sign. */
  lemma TwoSign<T(!new)>(c: Config<T>, task: S.SequencedTask<T>) returns (events: seq<Event<T>>)
    requires FourAtZero(c, task)
    ensures var s := Run(c, events);
            && HalfTaken(c, s, task) && DrivingFirst(c, s.router, task, false)
            && s.router.reports == map[] && s.router.trace == [Announce(0, task.announce)]
            && s.awaiting.Nothing? && s.reporter.certified == map[]
  {
    FreshStartsAtZero(c, task);
    var announced := AnnounceFirst(c, task);
    var one := TakesAtZero(c, announced, 0, 0, task.digest);
    events := TakesAtZero(c, one, 1, 0, task.digest);
  }

  /** Then the sequencer gives the height up. */
  lemma HalfSigned<T(!new)>(c: Config<T>, task: S.SequencedTask<T>) returns (events: seq<Event<T>>)
    requires FourAtZero(c, task)
    ensures var s := Run(c, events);
            && HalfTaken(c, s, task) && DrivingFirst(c, s.router, task, true)
            && s.router.trace == [Announce(0, task.announce), Skip(0)]
  {
    var two := TwoSign(c, task);
    var more := ThenGivenUp(c, Run(c, two), task);
    RunConcat(c, Start(c), two, more);
    events := two + more;
  }

  /** The other two hear only the Skip. */
  lemma SplitReached<T(!new)>(c: Config<T>, task: S.SequencedTask<T>) returns (events: seq<Event<T>>)
    requires FourAtZero(c, task)
    ensures Split(c, Run(c, events), task) && DrivingFirst(c, Run(c, events).router, task, true)
  {
    var half := HalfSigned(c, task);
    var three := TakesAtZero(c, half, 2, 1, SkipDigest(c.namespace, 0));
    events := TakesAtZero(c, three, 3, 1, SkipDigest(c.namespace, 0));
  }

  /** With nobody faulty a split leaves no digest a quorum. */
  lemma SplitLeavesNoQuorum<T>(c: Config<T>, s: State<T>, task: S.SequencedTask<T>, d: Digest)
    requires c.faulty == {} && Split(c, s, task) && task.digest != SkipDigest(c.namespace, 0)
    ensures |OpenTo(c, s, 0, d)| < Quorum(4)
  {
    var few: set<nat> := if d == task.digest then {0, 1} else {2, 3};
    SubsetCardinality(OpenTo(c, s, 0, d), few);
  }

  /**
   MAIN RESULT. An assigned height need not ever resolve, with nobody faulty and nothing superseded:
   of four nodes two hear the announcement and sign, the deadline passes, the other two hear only the
   Skip and sign that. The sequencer goes on driving height 0, and no continuation certifies it.
   */
  lemma SplitRun<T(!new)>(c: Config<T>, task: S.SequencedTask<T>) returns (events: seq<Event<T>>)
    requires FourAtZero(c, task) && c.faulty == {}
    ensures var r := Run(c, events).router;
            r.mode.Driving? && r.mode.height == 0 && r.mode.task == task && r.superseded == []
    ensures forall more, d :: !Quorate(4, Run(c, events + more).acks, 0, d)
    ensures forall more, f :: f in Run(c, events + more).router.fates ==> f.height != 0
  {
    FreshStartsAtZero(c, task);
    events := SplitReached(c, task);
    forall d ensures |OpenTo(c, Run(c, events), 0, d)| < Quorum(4) {
      SplitLeavesNoQuorum(c, Run(c, events), task, d);
    }
    forall more: seq<Event<T>>
      ensures forall d :: !Quorate(4, Run(c, events + more).acks, 0, d)
      ensures forall f :: f in Run(c, events + more).router.fates ==> f.height != 0
    {
      ClosedHeightNeverCertifies(c, events, more, 0);
    }
  }

  // ---- a superseded height ----

  lemma TwoReportsMoveTheTip()
    ensures TR.SafeTipOf<nat>(map[0 := 1, 1 := 1], 1) == 1
  {
    var two: map<nat, nat> := map[0 := 1, 1 := 1];
    forall t: nat | t > 0 ensures 1 >= t <==> |TR.Reached(two, t)| >= 2 {
      assert TR.Reached(two, t) == if t == 1 then {0, 1} else {};
    }
    TR.SafeTipUnique(two, 1, 1);
  }

  lemma ReportStep<T(!new)>(c: Config<T>, s: State<T>, peer: nat)
    requires peer < |s.seen| && s.seen[peer] >= 1 && !s.router.mode.Stopped?
    ensures Step(c, s, TipReported(peer, 1)) ==
            s.(router := s.router.(reports := TR.Recorded(s.router.reports, peer, 1)))
  {
    var e: Event<T> := TipReported(peer, 1);
    assert Step(c, s, e) == RouterStep(c, s, e);
    assert s.resolutions[0..] == s.resolutions;
  }

  /** Two nodes of a longer-lived quorum report heights past 0. */
  lemma ThenReported<T(!new)>(c: Config<T>, s: State<T>) returns (more: seq<Event<T>>)
    requires |s.seen| == 4 && s.seen[0] >= 1 && s.seen[1] >= 1
    requires !s.router.mode.Stopped? && s.router.reports == map[]
    ensures RunFrom(c, s, more) == s.(router := s.router.(reports := map[0 := 1, 1 := 1]))
  {
    ReportStep(c, s, 0);
    var s1 := s.(router := s.router.(reports := map[0 := 1]));
    ReportStep(c, s1, 1);
    OneStep(c, s, TipReported(0, 1));
    RunOneMore(c, s, [TipReported(0, 1)], TipReported(1, 1));
    more := [TipReported(0, 1)] + [TipReported(1, 1)];
  }

  /** The next tick gives height 0 up. */
  lemma ThenSuperseded<T(!new)>(c: Config<T>, s: State<T>, task: S.SequencedTask<T>) returns (more: seq<Event<T>>)
    requires Fresh(c, task) && c.n == 4 && DrivingFirst(c, s.router, task, false)
    requires s.router.reports == map[0 := 1, 1 := 1]
    requires s.awaiting.Nothing? && s.reporter.certified == map[]
    ensures var s' := RunFrom(c, s, more);
            && s' == s.(router := s'.router) && s'.router.mode == S.Pending(task)
            && s'.router.placements == s.router.placements && s'.router.outcomes == [S.Superseded]
  {
    more := [Poll, Tick(0)];
    PollThenTick(c, s, 0);
    FreshStartsAtZero(c, task);
    TwoReportsMoveTheTip();
    assert S.OutcomeOf(s.router, S.Tick(false, 0)) == Some(S.Superseded);
    assert S.StepDriving(s.router, S.Tick(false, 0)) == S.Finished(s.router, S.Superseded);
  }

  /**
   The other way: a router that lost its journal drives height 0, two nodes report that they have seen
   past it, and the task moves on while nobody ever acknowledged anything at height 0.
   */
  lemma SupersededRun<T(!new)>(c: Config<T>, task: S.SequencedTask<T>) returns (events: seq<Event<T>>)
    requires Fresh(c, task) && c.n == 4 && c.seen[0] >= 1 && c.seen[1] >= 1
    ensures var s := Run(c, events);
            && s.router.placements == [S.Placement(0, task, 0)] && s.router.outcomes == [S.Superseded]
            && s.router.mode == S.Pending(task)
            && s.acks == {} && s.signed == Start(c).signed && s.tips == c.tips
  {
    FreshStartsAtZero(c, task);
    var announced := AnnounceFirst(c, task);
    var reports := ThenReported(c, Run(c, announced));
    RunConcat(c, Start(c), announced, reports);
    var more := ThenSuperseded(c, Run(c, announced + reports), task);
    RunConcat(c, Start(c), announced + reports, more);
    events := announced + reports + more;
  }

  /** MAIN RESULT. Where every engine was past height 0 and nobody is faulty, that run has lost it for good. */
  lemma SupersededForGood<T(!new)>(c: Config<T>, task: S.SequencedTask<T>) returns (events: seq<Event<T>>)
    requires Fresh(c, task) && c.n == 4 && c.seen[0] >= 1 && c.seen[1] >= 1
    requires c.faulty == {} && forall i :: 0 <= i < 4 ==> c.tips[i] >= 1
    ensures Run(c, events).router.placements == [S.Placement(0, task, 0)]
    ensures Run(c, events).router.outcomes == [S.Superseded]
    ensures forall more, d :: !Quorate(4, Run(c, events + more).acks, 0, d)
  {
    events := SupersededRun(c, task);
    RunKeepsInv(c, events);
    forall d ensures |OpenTo(c, Run(c, events), 0, d)| < Quorum(4) {
      assert OpenTo(c, Run(c, events), 0, d) == {};
    }
    forall more: seq<Event<T>> ensures forall d :: !Quorate(4, Run(c, events + more).acks, 0, d) {
      ClosedHeightNeverCertifies(c, events, more, 0);
    }
  }
}
