/**
 One life of the router with its n nodes, as a step relation.

 Every actor takes the steps of its own module. The network delivers any directive ever
 broadcast to any node, any number of times, in any order, or never; the engine proposes any
 height of its window, which starts at its tip; up to f nodes acknowledge and report whatever they
 like. The environment assumptions are the guards: an honest node acknowledges one digest per height
 and reports no height it has not seen, acks are attributed to their real signer and height, and a
 validator either errors or returns the sequenced digest. What another actor answers is read in one
 step and used in a later one.
 */
module System {
  import opened Common
  import opened Consensus
  import opened Wire
  import B = TaskBook
  import H = TaskBookHistory
  import S = Sequencer
  import SR = SequencerRuns
  import TR = TipReports
  import C = CertReporter
  import Sub = Submitter
  import A = Automaton

  datatype Config<!T> = Config(
    n: nat,
    faulty: set<nat>,
    namespace: seq<Byte>,
    timeout: nat,
    validate: T -> Digest,
    /** How many heights from its tip on an engine works on. */
    window: nat,
    /**
     From before this life: the router's replayed tip, each node's engine tip and the highest height its
     reporter has seen, the tip reports received.
     */
    tip: nat,
    tips: seq<nat>,
    seen: seq<nat>,
    reports: map<nat, nat>
  ) {
    ghost predicate Valid() {
      && n >= 1 && |faulty| <= MaxFaults(n)
      && 1 <= window <= PRUNE_SLACK
      && TipsOk(n, window, tips, seen) && Backed(n, faulty, seen, reports)
    }
  }

  /** A reporter sees certificates as they form in the engine's window, so at most a window ahead of the tip. */
  ghost predicate TipsOk(n: nat, window: nat, tips: seq<nat>, seen: seq<nat>) {
    |tips| == |seen| == n && forall i :: 0 <= i < n ==> seen[i] <= tips[i] + window
  }

  /** Only participants' reports are recorded, and an honest one's are of heights it saw. */
  ghost predicate Backed(n: nat, faulty: set<nat>, seen: seq<nat>, reports: map<nat, nat>) {
    |seen| == n && forall p :: p in reports ==> p < n && (p !in faulty ==> reports[p] <= seen[p])
  }

  datatype Ack = Ack(signer: nat, height: nat, digest: Digest)

  /** The reporter's answer the sequencer was given and has not used yet. */
  datatype Awaited =
    | Nothing
    /** The resolutions drained before the tip was asked for, and the tip. */
    | TipAnswer(buffered: seq<S.Resolution>, tip: nat)
    /** Whether the driven height had a certificate. */
    | CertAnswer(seen: bool)

  datatype State<T> = State(
    router: S.Seq<T>,
    /** Each node's task book, the digest its engine took for each height, its engine tip, what its reporter saw. */
    books: seq<B.Book<T>>,
    signed: seq<map<nat, Digest>>,
    tips: seq<nat>,
    seen: seq<nat>,
    acks: set<Ack>,
    reporter: C.Rep,
    /** The submitter: forwarded certificates read so far, and the one being submitted on-chain. */
    read: nat,
    submitting: Option<C.CertifiedHeight>,
    /** Dispositions the sequencer has not received yet. */
    resolutions: seq<S.Resolution>,
    awaiting: Awaited
  )

  datatype Event<T> =
    /** The sequencer resumes, having drained the first `drained` dispositions. */
    | Pull(drained: nat, task: S.SequencedTask<T>)
    | Exhausted(drained: nat)
    /** The reporter answers with its tip, and later the sequencer goes on to assign. */
    | TipRead(drained: nat)
    | Assign(now: nat)
    | Recv
    | Closed
    /** The reporter answers for the driven height, and later the sequencer finishes its tick. */
    | Poll
    | Tick(now: nat)
    | TipReported(peer: nat, tip: nat)
    /** Node `node`: the k-th directive ever broadcast arrives, its engine proposes, its reporter prunes. */
    | Deliver(node: nat, k: nat)
    | Propose(node: nat, height: nat, id: nat)
    | PruneBook(node: nat, floor: nat)
    /** The engine tip of node `node` moves up, or its reporter sees a certificate or a tip. */
    | NodeTip(node: nat, height: nat)
    | NodeSees(node: nat, height: nat)
    /** Node `node` signs `digest` for the height of the k-th answer of its book. */
    | Sign(node: nat, k: nat, digest: Digest)
    | FaultyAck(ack: Ack)
    /** The engine assembles a certificate (again, after a replay), or moves its tip. */
    | Certify(height: nat, digest: Digest)
    | EngineTip(height: nat)
    /** The submitter reads its next certificate, or finishes the submission it is busy with. */
    | Classify
    | Submitted(success: bool)

  // ---- one step ----

  /** The participants that acknowledged the digest for the height. */
  function Signers(n: nat, acks: set<Ack>, h: nat, d: Digest): set<nat> {
    set i | 0 <= i < n && Ack(i, h, d) in acks
  }

  /** A quorum acknowledged the digest for the height. */
  predicate Quorate(n: nat, acks: set<Ack>, h: nat, d: Digest) {
    |Signers(n, acks, h, d)| >= Quorum(n)
  }

  /** What the sequencer sees of an event; None if it is not one of its own or not possible now. */
  function RouterEvent<T(!new)>(c: Config<T>, s: State<T>, e: Event<T>): Option<S.Event<T>> {
    match e
    case Pull(k, task) =>
      if k <= |s.resolutions| && task.digest == c.validate(task.announce) && s.router.mode.Idle?
      then Some(S.Pull(s.resolutions[..k], task)) else None
    case Exhausted(k) =>
      if k <= |s.resolutions| && s.router.mode.Idle? then Some(S.Exhausted(s.resolutions[..k])) else None
    case Assign(now) =>
      if s.awaiting.TipAnswer? && s.router.mode.Pending?
      then Some(S.Assign(s.awaiting.buffered, s.awaiting.tip, now)) else None
    case Recv =>
      if s.awaiting.Nothing? && s.resolutions != [] && s.router.mode.Driving?
      then Some(S.Recv(s.resolutions[0])) else None
    case Closed => if s.awaiting.Nothing? && s.router.mode.Driving? then Some(S.Closed) else None
    case Tick(now) =>
      if s.awaiting.CertAnswer? && s.router.mode.Driving? then Some(S.Tick(s.awaiting.seen, now)) else None
    case TipReported(peer, tip) =>
      if peer < |s.seen| && (peer in c.faulty || tip <= s.seen[peer]) then Some(S.TipReported(peer, tip)) else None
    case _ => None
  }

  /** How many dispositions the sequencer takes off the channel. */
  function Taken<T>(e: Event<T>): nat {
    match e
    case Pull(k, _) => k
    case Exhausted(k) => k
    case Recv => 1
    case _ => 0
  }

  ghost function RouterStep<T(!new)>(c: Config<T>, s: State<T>, e: Event<T>): State<T> {
    match RouterEvent(c, s, e)
    case None => s
    case Some(re) =>
      s.(router := S.Step(s.router, re),
         resolutions := s.resolutions[Min(Taken(e), |s.resolutions|)..],
         awaiting := if e.TipReported? then s.awaiting else Nothing)
  }

  /** The reporter answers the sequencer. */
  function AnswerStep<T>(s: State<T>, e: Event<T>): State<T> {
    match e
    case TipRead(k) =>
      if s.awaiting.Nothing? && s.router.mode.Pending? && k <= |s.resolutions|
      then s.(awaiting := TipAnswer(s.resolutions[..k], s.reporter.tip), resolutions := s.resolutions[k..]) else s
    case Poll =>
      if s.awaiting.Nothing? && s.router.mode.Driving?
      then s.(awaiting := CertAnswer(s.router.mode.height in s.reporter.certified)) else s
    case _ => s
  }

  /** The engine of the node works on the height. */
  predicate InWindow<T>(c: Config<T>, s: State<T>, node: nat, h: nat) {
    node < |s.tips| && s.tips[node] <= h < s.tips[node] + c.window
  }

  /** The engine proposes in its window, and the reporter prunes PRUNE_SLACK below what it has seen. */
  function NodeMessage<T>(c: Config<T>, s: State<T>, e: Event<T>): Option<B.Message<T>> {
    match e
    case Deliver(_, k) => if k < |s.router.trace| then Some(B.Directive(s.router.trace[k])) else None
    case Propose(node, height, id) => if InWindow(c, s, node, height) then Some(B.Subscribe(height, id)) else None
    case PruneBook(node, floor) =>
      if node < |s.seen| && floor + PRUNE_SLACK <= s.seen[node] then Some(B.PruneBelow(floor)) else None
    case _ => None
  }

  function NodeStep<T(==)>(c: Config<T>, s: State<T>, node: nat, e: Event<T>): State<T> {
    match NodeMessage(c, s, e)
    case Some(m) => if node < |s.books| then s.(books := s.books[node := B.Step(s.books[node], m)]) else s
    case None => s
  }

  /** The engine takes the first digest it is given for a height of its window, and acknowledges it. */
  ghost function SignStep<T>(c: Config<T>, s: State<T>, node: nat, k: nat, digest: Digest): State<T> {
    if node < |s.books| && node < |s.signed| && k < |s.books[node].answers| &&
       InWindow(c, s, node, s.books[node].answers[k].height) &&
       s.books[node].answers[k].height !in s.signed[node] &&
       A.MaySign(c.namespace, s.books[node].answers[k].height, s.books[node].answers[k].resolution, c.validate, digest)
    then
      Took(s, node, s.books[node].answers[k].height, digest)
    else s
  }

  /** The engine's tip moves up, or the reporter sees a height the engine works on. */
  function TipStep<T>(c: Config<T>, s: State<T>, e: Event<T>): State<T> {
    match e
    case NodeTip(i, height) => if i < |s.tips| then s.(tips := s.tips[i := Max(s.tips[i], height)]) else s
    case NodeSees(i, height) =>
      if i < |s.seen| && i < |s.tips| && height <= s.tips[i] + c.window
      then s.(seen := s.seen[i := Max(s.seen[i], height)]) else s
    case _ => s
  }

  function Took<T>(s: State<T>, node: nat, h: nat, digest: Digest): State<T>
    requires node < |s.signed|
  {
    var taken: map<nat, Digest> := s.signed[node][h := digest];
    s.(signed := s.signed[node := taken], acks := s.acks + {Ack(node, h, digest)})
  }

  function ReporterStep<T>(c: Config<T>, s: State<T>, e: Event<T>): State<T> {
    match e
    case Certify(h, d) =>
      if Quorate(c.n, s.acks, h, d) then s.(reporter := C.Step(s.reporter, C.Certified(h, d, true))) else s
    case EngineTip(h) => s.(reporter := C.Step(s.reporter, C.Tip(h)))
    case _ => s
  }

  function SubmitterStep<T>(c: Config<T>, s: State<T>, e: Event<T>): State<T> {
    match e
    case Classify =>
      if s.submitting.Some? || s.read >= |s.reporter.forwarded| then s
      else
        var cert := s.reporter.forwarded[s.read];
        if Sub.Expected(c.namespace, s.router.assignments, cert)
        then s.(read := s.read + 1, submitting := Some(cert))
        else
          s.(read := s.read + 1,
             resolutions := s.resolutions + [S.Resolution(cert.height, Sub.Unsubmitted(c.namespace, cert))])
    case Submitted(success) =>
      if s.submitting.None? then s
      else
        s.(submitting := None,
           resolutions := s.resolutions + [S.Resolution(s.submitting.value.height, S.Executed(success))])
    case _ => s
  }

  predicate AtBook<T>(e: Event<T>) {
    e.Deliver? || e.Propose? || e.PruneBook?
  }

  predicate AtNode<T>(e: Event<T>) {
    AtBook(e) || e.NodeTip? || e.NodeSees? || e.Sign? || e.FaultyAck?
  }

  predicate AtSequencer<T>(e: Event<T>) {
    !AtNode(e) && !e.Certify? && !e.EngineTip? && !e.Classify? && !e.Submitted? && !e.TipRead? && !e.Poll?
  }

  /** A step of a node or of an operator. */
  ghost function NodeSideStep<T>(c: Config<T>, s: State<T>, e: Event<T>): State<T> {
    if AtBook(e) then NodeStep(c, s, e.node, e)
    else if e.NodeTip? || e.NodeSees? then TipStep(c, s, e)
    else if e.Sign? then SignStep(c, s, e.node, e.k, e.digest)
    else if e.FaultyAck? && e.ack.signer in c.faulty then s.(acks := s.acks + {e.ack})
    else s
  }

  /** A step of the router's engine, reporter, submitter or sequencer. */
  ghost function RouterSideStep<T(!new)>(c: Config<T>, s: State<T>, e: Event<T>): State<T> {
    if e.Certify? || e.EngineTip? then ReporterStep(c, s, e)
    else if e.Classify? || e.Submitted? then SubmitterStep(c, s, e)
    else if e.TipRead? || e.Poll? then AnswerStep(s, e)
    else RouterStep(c, s, e)
  }

  ghost function Step<T(!new)>(c: Config<T>, s: State<T>, e: Event<T>): State<T> {
    if AtNode(e) then NodeSideStep(c, s, e) else RouterSideStep(c, s, e)
  }

  /** Everybody starts afresh; journals and tip reports may already have moved the tips. */
  ghost function Start<T>(c: Config<T>): State<T> {
    State(S.Start(c.reports, MaxFaults(c.n), c.timeout, c.tip),
          seq(c.n, _ => B.Empty()), seq(c.n, _ => map[]), c.tips, c.seen, {},
          C.INITIAL.(tip := c.tip), 0, None, [], Nothing)
  }

  ghost function RunFrom<T(!new)>(c: Config<T>, s: State<T>, events: seq<Event<T>>): State<T> {
    if events == [] then s
    else Step(c, RunFrom(c, s, events[..|events| - 1]), events[|events| - 1])
  }

  ghost function Run<T(!new)>(c: Config<T>, events: seq<Event<T>>): State<T> {
    RunFrom(c, Start(c), events)
  }

  lemma RunOneMore<T(!new)>(c: Config<T>, s: State<T>, events: seq<Event<T>>, e: Event<T>)
    ensures RunFrom(c, s, events + [e]) == Step(c, RunFrom(c, s, events), e)
  {
    assert (events + [e])[..|events|] == events;
  }

  lemma {:induction false} RunConcat<T(!new)>(c: Config<T>, s: State<T>, a: seq<Event<T>>, b: seq<Event<T>>)
    ensures RunFrom(c, s, a + b) == RunFrom(c, RunFrom(c, s, a), b)
  {
    if b == [] {
      assert a + b == a;
    } else {
      RunConcat(c, s, a, b[..|b| - 1]);
      assert (a + b)[..|a + b| - 1] == a + b[..|b| - 1];
    }
  }

  /** What a step of the system is to the sequencer. */
  lemma StepOfRouter<T(!new)>(c: Config<T>, s: State<T>, e: Event<T>)
    ensures Step(c, s, e).router ==
            if AtSequencer(e) && RouterEvent(c, s, e).Some? then S.Step(s.router, RouterEvent(c, s, e).value)
            else s.router
  {
  }

  // ---- the invariant, component by component ----

  /** d is what the sequencer assigned at h. */
  ghost predicate AssignedAt<T>(placements: seq<S.Placement<T>>, h: nat, d: Digest) {
    exists p :: p in placements && p.height == h && p.task.digest == d
  }

  /** d may be certified at h: the skip digest, or what the sequencer assigned there. */
  ghost predicate Legitimate<T>(c: Config<T>, placements: seq<S.Placement<T>>, h: nat, d: Digest) {
    d == SkipDigest(c.namespace, h) || AssignedAt(placements, h, d)
  }

  /** An announcement is of the task placed at its height. */
  ghost predicate AnnouncedAt<T>(placements: seq<S.Placement<T>>, h: nat, announce: T) {
    exists p :: p in placements && p.height == h && p.task.announce == announce
  }

  /** The router has sent a directive at or above h. */
  ghost predicate Passed<T>(trace: seq<TaskDirective<T>>, h: nat) {
    exists d :: d in trace && d.height >= h
  }

  ghost predicate TraceOk<T>(r: S.Seq<T>) {
    && (forall d :: d in r.trace ==> d.height < r.next && !d.TipReport?)
    && (forall d :: d in r.trace && d.Announce? ==> AnnouncedAt(r.placements, d.height, d.task))
    && (forall p :: p in r.placements ==> Announce(p.height, p.task.announce) in r.trace)
  }

  ghost predicate RouterOk<T>(c: Config<T>, r: S.Seq<T>) {
    && SR.Inv(r) && SR.PlacementsCounted(r) && TraceOk(r)
    && (forall t :: t in r.pulled ==> t.digest == c.validate(t.announce))
  }

  ghost predicate BookOk<T>(trace: seq<TaskDirective<T>>, b: B.Book<T>) {
    && H.Inv(b) && H.AnswersSeen(b)
    && (b.maxSeen.Some? ==> Passed(trace, b.maxSeen.value))
    && (forall h :: h in b.directives ==> b.directives[h] in trace)
    && (forall a :: a in b.answers && a.resolution.Announced? ==> Announce(a.height, a.resolution.task) in trace)
  }

  /** What an engine took is legitimate, and nothing is taken ahead of the router. */
  ghost predicate SignedOk<T>(c: Config<T>, r: S.Seq<T>, signed: map<nat, Digest>) {
    forall h :: h in signed ==> Legitimate(c, r.placements, h, signed[h]) && Passed(r.trace, h)
  }

  /** What an engine took it acknowledged, and an honest participant's acks are what its engine took. */
  ghost predicate AcksOk<T>(c: Config<T>, signed: seq<map<nat, Digest>>, acks: set<Ack>) {
    && (forall i: nat, h: nat :: i < |signed| && h in signed[i] ==> Ack(i, h, signed[i][h]) in acks)
    && (forall a :: a in acks && a.signer !in c.faulty ==>
          a.signer < |signed| && a.height in signed[a.signer] && signed[a.signer][a.height] == a.digest)
  }

  /** Every certificate the reporter holds or handed on has a quorum behind it and is below the tip. */
  ghost predicate CertsOk<T>(c: Config<T>, acks: set<Ack>, rep: C.Rep) {
    && (forall h :: h in rep.certified ==> h < rep.tip && Quorate(c.n, acks, h, rep.certified[h]))
    && (forall f :: f in rep.forwarded ==> f.height < rep.tip && Quorate(c.n, acks, f.height, f.digest))
  }

  /** A disposition is backed by a quorum for the digest it stands for; a foreign one is not of the driven height. */
  ghost predicate ResolutionOk<T>(c: Config<T>, r: S.Seq<T>, acks: set<Ack>, res: S.Resolution) {
    match res.kind
    case Executed(_) =>
      exists p :: p in r.placements && p.height == res.height && Quorate(c.n, acks, res.height, p.task.digest)
    case Skipped => Quorate(c.n, acks, res.height, SkipDigest(c.namespace, res.height))
    case Foreign => res.height < r.next && (r.mode.Driving? ==> r.mode.height != res.height)
  }

  ghost predicate SubmittingOk<T>(c: Config<T>, placements: seq<S.Placement<T>>, acks: set<Ack>,
                                  submitting: Option<C.CertifiedHeight>) {
    submitting.Some? ==>
      && Quorate(c.n, acks, submitting.value.height, submitting.value.digest)
      && AssignedAt(placements, submitting.value.height, submitting.value.digest)
  }

  /** Executed only if a quorum signed the task's digest at that height, skipped only if one signed the skip digest. */
  ghost predicate FateOk<T>(c: Config<T>, acks: set<Ack>, f: S.Fate<T>) {
    match f.kind
    case Executed(_) => Quorate(c.n, acks, f.height, f.task.digest)
    case Skipped => Quorate(c.n, acks, f.height, SkipDigest(c.namespace, f.height))
    case Foreign => false
  }

  /** The i-th placement ended; if by a resolution, the quorum it stands for is there. */
  ghost predicate OutcomeOk<T>(c: Config<T>, acks: set<Ack>, r: S.Seq<T>, i: nat)
    requires i < |r.placements| && i < |r.outcomes|
  {
    r.outcomes[i].Resolved? ==>
      FateOk(c, acks, S.Fate(r.placements[i].task, r.placements[i].height, r.outcomes[i].kind))
  }

  ghost predicate EndsOk<T>(c: Config<T>, acks: set<Ack>, r: S.Seq<T>) {
    && (forall f :: f in r.fates ==> FateOk(c, acks, f))
    && (forall i: nat :: i < |r.placements| && i < |r.outcomes| ==> OutcomeOk(c, acks, r, i))
  }

  ghost predicate DispositionsOk<T>(c: Config<T>, s: State<T>) {
    && (forall r :: r in s.resolutions ==> ResolutionOk(c, s.router, s.acks, r))
    && SubmittingOk(c, s.router.placements, s.acks, s.submitting)
    && EndsOk(c, s.acks, s.router)
  }

  ghost predicate NodesOk<T>(c: Config<T>, s: State<T>) {
    && |s.books| == |s.signed| == c.n
    && (forall i :: 0 <= i < c.n ==> BookOk(s.router.trace, s.books[i]) && SignedOk(c, s.router, s.signed[i]))
  }

  ghost predicate Inv<T>(c: Config<T>, s: State<T>) {
    && RouterOk(c, s.router)
    && NodesOk(c, s)
    && TipsOk(c.n, c.window, s.tips, s.seen) && Backed(c.n, c.faulty, s.seen, s.router.reports)
    && AcksOk(c, s.signed, s.acks)
    && CertsOk(c, s.acks, s.reporter)
    && DispositionsOk(c, s)
  }

  // ---- what does not go away ----

  lemma QuorateGrows(n: nat, acks: set<Ack>, more: set<Ack>, h: nat, d: Digest)
    requires acks <= more && Quorate(n, acks, h, d)
    ensures Quorate(n, more, h, d)
  {
    SubsetCardinality(Signers(n, acks, h, d), Signers(n, more, h, d));
  }

  lemma LegitimateGrows<T>(c: Config<T>, placements: seq<S.Placement<T>>, more: seq<S.Placement<T>>,
                           h: nat, d: Digest)
    requires placements <= more && Legitimate(c, placements, h, d)
    ensures Legitimate(c, more, h, d)
  {
    if AssignedAt(placements, h, d) {
      var p :| p in placements && p.height == h && p.task.digest == d;
      assert p in more;
    }
  }

  lemma PassedGrows<T>(trace: seq<TaskDirective<T>>, more: seq<TaskDirective<T>>, h: nat)
    requires trace <= more && Passed(trace, h)
    ensures Passed(more, h)
  {
    var d :| d in trace && d.height >= h;
    assert d in more;
  }

  lemma PassedBelow<T>(trace: seq<TaskDirective<T>>, h: nat, g: nat)
    requires Passed(trace, h) && g <= h
    ensures Passed(trace, g)
  {
    var d :| d in trace && d.height >= h;
    assert d.height >= g;
  }

  lemma ResolutionOkGrows<T>(c: Config<T>, r: S.Seq<T>, acks: set<Ack>, res: S.Resolution,
                             r': S.Seq<T>, acks': set<Ack>)
    requires ResolutionOk(c, r, acks, res)
    requires r.placements <= r'.placements && acks <= acks' && r.next <= r'.next
    requires r'.mode.Driving? ==> r'.mode.height >= r.next || (r.mode.Driving? && r.mode.height == r'.mode.height)
    ensures ResolutionOk(c, r', acks', res)
  {
    match res.kind
    case Executed(_) =>
      var p :| p in r.placements && p.height == res.height && Quorate(c.n, acks, res.height, p.task.digest);
      QuorateGrows(c.n, acks, acks', res.height, p.task.digest);
      assert p in r'.placements;
    case Skipped => QuorateGrows(c.n, acks, acks', res.height, SkipDigest(c.namespace, res.height));
    case Foreign =>
  }

  lemma NodesOkGrow<T>(c: Config<T>, s: State<T>, s': State<T>)
    requires NodesOk(c, s)
    requires s'.books == s.books && s'.signed == s.signed
    requires s.router.trace <= s'.router.trace && s.router.placements <= s'.router.placements
    ensures NodesOk(c, s')
  {
    forall i | 0 <= i < c.n
      ensures BookOk(s'.router.trace, s.books[i]) && SignedOk(c, s'.router, s.signed[i])
    {
      BookOkGrows(s.router.trace, s'.router.trace, s.books[i]);
      forall h | h in s.signed[i]
        ensures Legitimate(c, s'.router.placements, h, s.signed[i][h]) && Passed(s'.router.trace, h)
      {
        assert SignedOk(c, s.router, s.signed[i]);
        LegitimateGrows(c, s.router.placements, s'.router.placements, h, s.signed[i][h]);
        PassedGrows(s.router.trace, s'.router.trace, h);
      }
    }
  }

  lemma BookOkGrows<T>(trace: seq<TaskDirective<T>>, more: seq<TaskDirective<T>>, b: B.Book<T>)
    requires trace <= more && BookOk(trace, b)
    ensures BookOk(more, b)
  {
    assert forall d :: d in trace ==> d in more;
    if b.maxSeen.Some? {
      PassedGrows(trace, more, b.maxSeen.value);
    }
  }

  lemma DispositionsOkGrow<T>(c: Config<T>, s: State<T>, s': State<T>)
    requires DispositionsOk(c, s)
    requires s'.router == s.router && s'.submitting == s.submitting
    requires forall r :: r in s'.resolutions ==> r in s.resolutions
    requires s.acks <= s'.acks
    ensures DispositionsOk(c, s')
  {
    forall r | r in s'.resolutions ensures ResolutionOk(c, s.router, s'.acks, r) {
      assert ResolutionOk(c, s.router, s.acks, r);
      ResolutionOkGrows(c, s.router, s.acks, r, s.router, s'.acks);
    }
    if s.submitting.Some? {
      QuorateGrows(c.n, s.acks, s'.acks, s.submitting.value.height, s.submitting.value.digest);
    }
    EndsOkGrow(c, s.acks, s'.acks, s.router);
  }

  lemma EndsOkGrow<T>(c: Config<T>, acks: set<Ack>, more: set<Ack>, r: S.Seq<T>)
    requires acks <= more && EndsOk(c, acks, r)
    ensures EndsOk(c, more, r)
  {
    forall f | f in r.fates ensures FateOk(c, more, f) {
      FateOkGrows(c, acks, more, f);
    }
    forall i: nat | i < |r.placements| && i < |r.outcomes| ensures OutcomeOk(c, more, r, i) {
      assert OutcomeOk(c, acks, r, i);
      if r.outcomes[i].Resolved? {
        FateOkGrows(c, acks, more, S.Fate(r.placements[i].task, r.placements[i].height, r.outcomes[i].kind));
      }
    }
  }

  lemma FateOkGrows<T>(c: Config<T>, acks: set<Ack>, more: set<Ack>, f: S.Fate<T>)
    requires acks <= more && FateOk(c, acks, f)
    ensures FateOk(c, more, f)
  {
    if f.kind.Executed? {
      QuorateGrows(c.n, acks, more, f.height, f.task.digest);
    } else {
      QuorateGrows(c.n, acks, more, f.height, SkipDigest(c.namespace, f.height));
    }
  }

  lemma CertsOkGrow<T>(c: Config<T>, acks: set<Ack>, more: set<Ack>, rep: C.Rep)
    requires acks <= more && CertsOk(c, acks, rep)
    ensures CertsOk(c, more, rep)
  {
    forall h | h in rep.certified ensures Quorate(c.n, more, h, rep.certified[h]) {
      QuorateGrows(c.n, acks, more, h, rep.certified[h]);
    }
    forall f | f in rep.forwarded ensures Quorate(c.n, more, f.height, f.digest) {
      QuorateGrows(c.n, acks, more, f.height, f.digest);
    }
  }

  // ---- nodes ----

  lemma BookStepOk<T>(trace: seq<TaskDirective<T>>, b: B.Book<T>, m: B.Message<T>)
    requires BookOk(trace, b)
    requires m.Directive? ==> m.directive in trace
    ensures BookOk(trace, B.Step(b, m))
  {
    H.StepKeepsInv(b, m);
    H.StepAnswersSeen(b, m);
    H.StepAnswers(b, m);
    if m.Directive? {
      H.DirectiveStep(b, m.directive);
    }
    var b' := B.Step(b, m);
    forall a | a in b'.answers && a.resolution.Announced? ensures Announce(a.height, a.resolution.task) in trace {
      if a !in b.answers {
        if a.height in b.directives && a.resolution == B.ResolutionOf(b.directives[a.height]) {
          assert b.directives[a.height] == Announce(a.height, a.resolution.task);
        } else {
          assert m.directive == Announce(a.height, a.resolution.task);
        }
      }
    }
  }

  lemma NodeKeepsInv<T(!new)>(c: Config<T>, s: State<T>, node: nat, e: Event<T>)
    requires Inv(c, s)
    ensures Inv(c, NodeStep(c, s, node, e))
  {
    var s', m := NodeStep(c, s, node, e), NodeMessage(c, s, e);
    if m.Some? && node < |s.books| {
      BookStepOk(s.router.trace, s.books[node], m.value);
      assert NodesOk(c, s') by {
        assert forall i :: 0 <= i < c.n && i != node ==> s'.books[i] == s.books[i];
      }
      DispositionsOkGrow(c, s, s');
    }
  }

  /** What an honest node signs is legitimate: its validator only ever returns the sequenced digest. */
  lemma SignedIsLegitimate<T>(c: Config<T>, r: S.Seq<T>, b: B.Book<T>, k: nat, digest: Digest)
    requires RouterOk(c, r) && BookOk(r.trace, b) && k < |b.answers|
    requires A.MaySign(c.namespace, b.answers[k].height, b.answers[k].resolution, c.validate, digest)
    ensures Legitimate(c, r.placements, b.answers[k].height, digest)
    ensures Passed(r.trace, b.answers[k].height)
  {
    var a := b.answers[k];
    assert a in b.answers;
    PassedBelow(r.trace, b.maxSeen.value, a.height);
    if digest != SkipDigest(c.namespace, a.height) {
      AnnouncedIsAssigned(c, r, Announce(a.height, a.resolution.task));
    }
  }

  /** An announcement's validated digest is what the sequencer assigned at its height. */
  lemma AnnouncedIsAssigned<T>(c: Config<T>, r: S.Seq<T>, d: TaskDirective<T>)
    requires RouterOk(c, r) && d in r.trace && d.Announce?
    ensures AssignedAt(r.placements, d.height, c.validate(d.task))
  {
    assert AnnouncedAt(r.placements, d.height, d.task);
    var p :| p in r.placements && p.height == d.height && p.task.announce == d.task;
    PlacedIsPulled(r, p);
  }

  lemma PlacedIsPulled<T>(r: S.Seq<T>, p: S.Placement<T>)
    requires SR.Inv(r) && p in r.placements
    ensures p.task in r.pulled && p.height < r.next
  {
    var i :| 0 <= i < |r.placements| && r.placements[i] == p;
    assert p.task == r.pulled[p.index];
  }

  lemma SignKeepsInv<T(!new)>(c: Config<T>, s: State<T>, node: nat, k: nat, digest: Digest)
    requires Inv(c, s)
    ensures Inv(c, SignStep(c, s, node, k, digest))
  {
    var s' := SignStep(c, s, node, k, digest);
    if s' != s {
      SignedIsLegitimate(c, s.router, s.books[node], k, digest);
      var h: nat := s.books[node].answers[k].height;
      assert s'.signed[node] == s.signed[node][h := digest];
      TookKeepsAcks(c, s, node, h, digest);
      assert NodesOk(c, s') by {
        assert forall i :: 0 <= i < c.n && i != node ==> s'.signed[i] == s.signed[i];
      }
      CertsOkGrow(c, s.acks, s'.acks, s.reporter);
      DispositionsOkGrow(c, s, s');
    }
  }

  lemma TookKeepsAcks<T>(c: Config<T>, s: State<T>, node: nat, h: nat, digest: Digest)
    requires AcksOk(c, s.signed, s.acks) && node < |s.signed| && h !in s.signed[node]
    ensures AcksOk(c, Took(s, node, h, digest).signed, Took(s, node, h, digest).acks)
  {
    var s' := Took(s, node, h, digest);
    assert forall i :: 0 <= i < |s.signed| && i != node ==> s'.signed[i] == s.signed[i];
  }

  lemma FaultyKeepsInv<T(!new)>(c: Config<T>, s: State<T>, ack: Ack)
    requires Inv(c, s) && ack.signer in c.faulty
    ensures Inv(c, s.(acks := s.acks + {ack}))
  {
    var s' := s.(acks := s.acks + {ack});
    CertsOkGrow(c, s.acks, s'.acks, s.reporter);
    DispositionsOkGrow(c, s, s');
    assert NodesOk(c, s');
  }

  lemma TipKeepsInv<T(!new)>(c: Config<T>, s: State<T>, e: Event<T>)
    requires Inv(c, s)
    ensures Inv(c, TipStep(c, s, e))
  {
    var s' := TipStep(c, s, e);
    assert s' == s.(tips := s'.tips, seen := s'.seen);
    assert NodesOk(c, s');
    DispositionsOkGrow(c, s, s');
  }

  // ---- the reporter and the submitter ----

  lemma ReporterKeepsInv<T(!new)>(c: Config<T>, s: State<T>, e: Event<T>)
    requires Inv(c, s)
    ensures Inv(c, ReporterStep(c, s, e))
  {
    var s' := ReporterStep(c, s, e);
    assert CertsOk(c, s.acks, s'.reporter);
    DispositionsOkGrow(c, s, s');
    assert NodesOk(c, s');
  }

  lemma AnswerKeepsInv<T(!new)>(c: Config<T>, s: State<T>, e: Event<T>)
    requires Inv(c, s)
    ensures Inv(c, AnswerStep(s, e))
  {
    var s' := AnswerStep(s, e);
    DispositionsOkGrow(c, s, s');
    assert NodesOk(c, s');
  }

  /** No two placements share a height. */
  lemma PlacedOnce<T>(r: S.Seq<T>, p: S.Placement<T>, q: S.Placement<T>)
    requires SR.Inv(r) && p in r.placements && q in r.placements && p.height == q.height
    ensures p == q
  {
    var i :| 0 <= i < |r.placements| && r.placements[i] == p;
    var j :| 0 <= j < |r.placements| && r.placements[j] == q;
    assert i == j;
  }

  lemma DrivenIsPlaced<T>(r: S.Seq<T>) returns (p: S.Placement<T>)
    requires SR.Inv(r) && r.mode.Driving?
    ensures p in r.placements && p.height == r.mode.height && p.task == r.mode.task
  {
    p := r.placements[|r.placements| - 1];
    assert p in r.placements;
  }

  /**
   MAIN RESULT, one state: a digest with a quorum behind it is the skip digest or what was assigned
   there, and the router has sent a directive at or above its height.
   */
  lemma QuorumIsLegitimate<T(!new)>(c: Config<T>, s: State<T>, h: nat, d: Digest)
    requires c.Valid() && Inv(c, s) && Quorate(c.n, s.acks, h, d)
    ensures Legitimate(c, s.router.placements, h, d)
    ensures Passed(s.router.trace, h) && h < s.router.next
  {
    var i := HonestMember(c.n, Signers(c.n, s.acks, h, d), c.faulty);
    assert Ack(i, h, d) in s.acks;
    assert SignedOk(c, s.router, s.signed[i]);
    var sent :| sent in s.router.trace && sent.height >= h;
    assert sent.height < s.router.next;
  }

  lemma SubmitterKeepsInv<T(!new)>(c: Config<T>, s: State<T>, e: Event<T>)
    requires c.Valid() && Inv(c, s)
    ensures Inv(c, SubmitterStep(c, s, e))
  {
    SubmitterKeepsDispositions(c, s, e);
    assert NodesOk(c, SubmitterStep(c, s, e));
  }

  lemma SubmitterKeepsDispositions<T(!new)>(c: Config<T>, s: State<T>, e: Event<T>)
    requires c.Valid() && Inv(c, s)
    ensures DispositionsOk(c, SubmitterStep(c, s, e))
  {
    var s' := SubmitterStep(c, s, e);
    if e.Classify? && s.submitting.None? && s.read < |s.reporter.forwarded| {
      var cert := s.reporter.forwarded[s.read];
      assert cert in s.reporter.forwarded;
      ClassifiedOk(c, s, cert);
    } else if e.Submitted? && s.submitting.Some? {
      SubmittedOk(c, s, e.success);
    }
    assert EndsOk(c, s'.acks, s'.router);
  }

  lemma SubmittedOk<T>(c: Config<T>, s: State<T>, success: bool)
    requires SubmittingOk(c, s.router.placements, s.acks, s.submitting) && s.submitting.Some?
    ensures ResolutionOk(c, s.router, s.acks, S.Resolution(s.submitting.value.height, S.Executed(success)))
  {
    var cert := s.submitting.value;
    var p :| p in s.router.placements && p.height == cert.height && p.task.digest == cert.digest;
  }

  /** How the submitter classifies a certificate the reporter handed it. */
  lemma ClassifiedOk<T(!new)>(c: Config<T>, s: State<T>, cert: C.CertifiedHeight)
    requires c.Valid() && Inv(c, s) && cert in s.reporter.forwarded
    ensures Sub.Expected(c.namespace, s.router.assignments, cert) ==>
              AssignedAt(s.router.placements, cert.height, cert.digest)
    ensures !Sub.Expected(c.namespace, s.router.assignments, cert) ==>
              ResolutionOk(c, s.router, s.acks, S.Resolution(cert.height, Sub.Unsubmitted(c.namespace, cert)))
  {
    QuorumIsLegitimate(c, s, cert.height, cert.digest);
    if s.router.mode.Driving? {
      var driven := DrivenIsPlaced(s.router);
      if cert.height == s.router.mode.height && cert.digest != SkipDigest(c.namespace, cert.height) {
        var p :| p in s.router.placements && p.height == cert.height && p.task.digest == cert.digest;
        PlacedOnce(s.router, p, driven);
      }
    }
  }

  // ---- the sequencer ----

  /** What one event adds to the sequencer's histories. */
  lemma RouterGrows<T>(r: S.Seq<T>, e: S.Event<T>)
    requires SR.Inv(r)
    ensures r.placements <= S.Step(r, e).placements && r.trace <= S.Step(r, e).trace && r.next <= S.Step(r, e).next
  {
    SR.StepKeepsInv(r, e);
    SR.StepTraceGrows(r, e);
    PlacementsGrow(r, e);
  }

  lemma PlacementsGrow<T>(r: S.Seq<T>, e: S.Event<T>)
    ensures r.placements <= S.Step(r, e).placements
  {
  }

  /** Where the sequencer may be driving after one event: where it was, or at a height it had not reached. */
  lemma RouterDrives<T>(r: S.Seq<T>, e: S.Event<T>)
    ensures S.Step(r, e).mode.Driving? ==>
              (r.mode.Driving? && S.Step(r, e).mode.height == r.mode.height) ||
              (e.Assign? && S.Step(r, e).mode.height >= r.next)
  {
    if e.Assign? {
      SR.DrainedGrows(r.next, e.buffered);
    }
  }

  lemma RouterPulls<T>(r: S.Seq<T>, e: S.Event<T>)
    ensures S.Step(r, e).pulled == r.pulled || (e.Pull? && S.Step(r, e).pulled == r.pulled + [e.task])
  {
  }

  /** A drive ends as `OutcomeOf` says; nothing else ends a placement or a task. */
  lemma RouterEnds<T>(r: S.Seq<T>, e: S.Event<T>)
    ensures var r' := S.Step(r, e);
            if r.mode.Driving? && S.OutcomeOf(r, e).Some? then r' == S.Finished(r, S.OutcomeOf(r, e).value)
            else r'.outcomes == r.outcomes && r'.fates == r.fates && r.placements <= r'.placements
  {
  }

  lemma RouterReports<T>(r: S.Seq<T>, e: S.Event<T>)
    ensures S.Step(r, e).reports == r.reports ||
            (e.TipReported? && S.Step(r, e).reports == TR.Recorded(r.reports, e.peer, e.tip))
  {
  }

  /** A directive is sent while its height is driven, and announces the driven task. */
  lemma RouterSends<T>(r: S.Seq<T>, e: S.Event<T>, d: TaskDirective<T>)
    requires SR.Inv(r)
    requires d in S.Step(r, e).trace && d !in r.trace
    ensures S.Step(r, e).mode.Driving? && d.height == S.Step(r, e).mode.height && !d.TipReport?
    ensures d.Announce? ==> d.task == S.Step(r, e).mode.task.announce
  {
  }

  /** A height is announced as soon as it is placed. */
  lemma RouterPlaces<T>(r: S.Seq<T>, e: S.Event<T>, p: S.Placement<T>)
    requires p in S.Step(r, e).placements && p !in r.placements
    ensures Announce(p.height, p.task.announce) in S.Step(r, e).trace
  {
  }

  lemma TraceKeepsOk<T>(r: S.Seq<T>, e: S.Event<T>)
    requires SR.Inv(r) && TraceOk(r)
    ensures TraceOk(S.Step(r, e))
  {
    var r' := S.Step(r, e);
    forall d | d in r'.trace
      ensures d.height < r'.next && !d.TipReport?
      ensures d.Announce? ==> AnnouncedAt(r'.placements, d.height, d.task)
    {
      SentOk(r, e, d);
    }
    RouterGrows(r, e);
    forall p | p in r'.placements ensures Announce(p.height, p.task.announce) in r'.trace {
      if p !in r.placements {
        RouterPlaces(r, e, p);
      }
    }
  }

  lemma SentOk<T>(r: S.Seq<T>, e: S.Event<T>, d: TaskDirective<T>)
    requires SR.Inv(r) && TraceOk(r) && d in S.Step(r, e).trace
    ensures d.height < S.Step(r, e).next && !d.TipReport?
    ensures d.Announce? ==> AnnouncedAt(S.Step(r, e).placements, d.height, d.task)
  {
    var r' := S.Step(r, e);
    if d in r.trace {
      RouterGrows(r, e);
      if d.Announce? {
        var p :| p in r.placements && p.height == d.height && p.task.announce == d.task;
        assert p in r'.placements;
      }
    } else {
      RouterSends(r, e, d);
      SR.StepKeepsInv(r, e);
      var p := DrivenIsPlaced(r');
      PlacedIsPulled(r', p);
    }
  }

  lemma RouterKeepsOk<T(!new)>(c: Config<T>, r: S.Seq<T>, e: S.Event<T>)
    requires RouterOk(c, r)
    requires e.Pull? ==> e.task.digest == c.validate(e.task.announce)
    ensures RouterOk(c, S.Step(r, e))
  {
    SR.StepKeepsInv(r, e);
    SR.StepCounted(r, e);
    TraceKeepsOk(r, e);
    RouterPulls(r, e);
  }

  lemma RouterStepKeepsInv<T(!new)>(c: Config<T>, s: State<T>, e: Event<T>)
    requires c.Valid() && Inv(c, s)
    ensures Inv(c, RouterStep(c, s, e))
  {
    if RouterEvent(c, s, e).Some? {
      var re := RouterEvent(c, s, e).value;
      RouterKeepsOk(c, s.router, re);
      RouterNodesOk(c, s, e, re);
      RouterStaysBacked(c, s, e, re);
      RouterDispositions(c, s, e, re);
    }
  }

  lemma RouterNodesOk<T(!new)>(c: Config<T>, s: State<T>, e: Event<T>, re: S.Event<T>)
    requires RouterOk(c, s.router) && NodesOk(c, s) && RouterEvent(c, s, e) == Some(re)
    ensures NodesOk(c, RouterStep(c, s, e))
  {
    RouterGrows(s.router, re);
    NodesOkGrow(c, s, RouterStep(c, s, e));
  }

  lemma RouterStaysBacked<T(!new)>(c: Config<T>, s: State<T>, e: Event<T>, re: S.Event<T>)
    requires Backed(c.n, c.faulty, s.seen, s.router.reports) && RouterEvent(c, s, e) == Some(re)
    ensures Backed(c.n, c.faulty, s.seen, S.Step(s.router, re).reports)
  {
    RouterReports(s.router, re);
  }

  lemma RouterDispositions<T(!new)>(c: Config<T>, s: State<T>, e: Event<T>, re: S.Event<T>)
    requires c.Valid() && Inv(c, s) && RouterEvent(c, s, e) == Some(re)
    ensures DispositionsOk(c, RouterStep(c, s, e))
  {
    var s' := RouterStep(c, s, e);
    RouterGrows(s.router, re);
    RouterDrives(s.router, re);
    forall r | r in s'.resolutions ensures ResolutionOk(c, s'.router, s.acks, r) {
      assert r in s.resolutions;
      ResolutionOkGrows(c, s.router, s.acks, r, s'.router, s.acks);
    }
    if s.submitting.Some? {
      var cert := s.submitting.value;
      var p :| p in s.router.placements && p.height == cert.height && p.task.digest == cert.digest;
      assert p in s'.router.placements;
    }
    RouterEndsOk(c, s, e, re);
  }

  lemma RouterEndsOk<T(!new)>(c: Config<T>, s: State<T>, e: Event<T>, re: S.Event<T>)
    requires c.Valid() && Inv(c, s) && RouterEvent(c, s, e) == Some(re)
    ensures EndsOk(c, s.acks, S.Step(s.router, re))
  {
    var r, r' := s.router, S.Step(s.router, re);
    PlacementsGrow(r, re);
    RouterEnds(r, re);
    if r.mode.Driving? && S.OutcomeOf(r, re).Some? {
      if re.Recv? {
        ReceivedFateOk(c, s, re.resolution);
      }
      EndedOk(c, s.acks, r, S.OutcomeOf(r, re).value);
    } else {
      forall i: nat | i < |r'.placements| && i < |r'.outcomes| ensures OutcomeOk(c, s.acks, r', i) {
        assert OutcomeOk(c, s.acks, r, i);
      }
    }
  }

  /** The driven placement ends with the given outcome. */
  lemma EndedOk<T(!new)>(c: Config<T>, acks: set<Ack>, r: S.Seq<T>, outcome: S.HeightOutcome)
    requires RouterOk(c, r) && EndsOk(c, acks, r) && r.mode.Driving?
    requires outcome.Resolved? ==> FateOk(c, acks, S.Fate(r.mode.task, r.mode.height, outcome.kind))
    ensures EndsOk(c, acks, S.Finished(r, outcome))
  {
    var r' := S.Finished(r, outcome);
    assert r.placements[|r.placements| - 1] == S.Placement(r.mode.height, r.mode.task, SatSub(|r.pulled|, 1));
    forall i: nat | i < |r'.placements| && i < |r'.outcomes| ensures OutcomeOk(c, acks, r', i) {
      if i < |r.outcomes| {
        assert OutcomeOk(c, acks, r, i);
      }
    }
  }

  lemma ReceivedFateOk<T(!new)>(c: Config<T>, s: State<T>, res: S.Resolution)
    requires c.Valid() && Inv(c, s) && s.router.mode.Driving? && res in s.resolutions
    requires res.height == s.router.mode.height
    ensures FateOk(c, s.acks, S.Fate(s.router.mode.task, s.router.mode.height, res.kind))
  {
    assert ResolutionOk(c, s.router, s.acks, res);
    if res.kind.Executed? {
      var p :| p in s.router.placements && p.height == res.height && Quorate(c.n, s.acks, res.height, p.task.digest);
      var driven := DrivenIsPlaced(s.router);
      PlacedOnce(s.router, p, driven);
    }
  }

  // ---- every reachable state ----

  lemma NodeSideKeepsInv<T(!new)>(c: Config<T>, s: State<T>, e: Event<T>)
    requires c.Valid() && Inv(c, s)
    ensures Inv(c, NodeSideStep(c, s, e))
  {
    if AtBook(e) {
      NodeKeepsInv(c, s, e.node, e);
    } else if e.NodeTip? || e.NodeSees? {
      TipKeepsInv(c, s, e);
    } else if e.Sign? {
      SignKeepsInv(c, s, e.node, e.k, e.digest);
    } else if e.FaultyAck? && e.ack.signer in c.faulty {
      FaultyKeepsInv(c, s, e.ack);
    }
  }

  lemma RouterSideKeepsInv<T(!new)>(c: Config<T>, s: State<T>, e: Event<T>)
    requires c.Valid() && Inv(c, s)
    ensures Inv(c, RouterSideStep(c, s, e))
  {
    if e.Certify? || e.EngineTip? {
      ReporterKeepsInv(c, s, e);
    } else if e.Classify? || e.Submitted? {
      SubmitterKeepsInv(c, s, e);
    } else if e.TipRead? || e.Poll? {
      AnswerKeepsInv(c, s, e);
    } else {
      RouterStepKeepsInv(c, s, e);
    }
  }

  lemma StepKeepsInv<T(!new)>(c: Config<T>, s: State<T>, e: Event<T>)
    requires c.Valid() && Inv(c, s)
    ensures Inv(c, Step(c, s, e))
  {
    if AtNode(e) {
      NodeSideKeepsInv(c, s, e);
    } else {
      RouterSideKeepsInv(c, s, e);
    }
  }

  /** From any state with the invariant, in particular from any reachable one, every continuation keeps it. */
  lemma {:induction false} RunFromKeepsInv<T(!new)>(c: Config<T>, s: State<T>, events: seq<Event<T>>)
    requires c.Valid() && Inv(c, s)
    ensures Inv(c, RunFrom(c, s, events))
  {
    if events != [] {
      RunFromKeepsInv(c, s, events[..|events| - 1]);
      StepKeepsInv(c, RunFrom(c, s, events[..|events| - 1]), events[|events| - 1]);
    }
  }

  lemma RunKeepsInv<T(!new)>(c: Config<T>, events: seq<Event<T>>)
    requires c.Valid()
    ensures Inv(c, Run(c, events))
  {
    StartInv(c);
    RunFromKeepsInv(c, Start(c), events);
  }

  lemma StartInv<T(!new)>(c: Config<T>)
    requires c.Valid()
    ensures Inv(c, Start(c))
  {
    StartRouterOk(c);
    StartNodesOk(c);
    StartDispositionsOk(c);
  }

  lemma StartRouterOk<T>(c: Config<T>)
    ensures RouterOk(c, Start(c).router)
  {
    SR.StartInv<T>(c.reports, MaxFaults(c.n), c.timeout, c.tip, []);
    SR.StartCounted<T>(c.reports, MaxFaults(c.n), c.timeout, c.tip);
    assert Start(c).router == SR.RunOf(c.reports, MaxFaults(c.n), c.timeout, c.tip, []);
  }

  lemma StartNodesOk<T>(c: Config<T>)
    ensures NodesOk(c, Start(c)) && AcksOk(c, Start(c).signed, {})
  {
  }

  lemma StartDispositionsOk<T>(c: Config<T>)
    ensures DispositionsOk(c, Start(c)) && CertsOk(c, {}, Start(c).reporter)
  {
  }
}
