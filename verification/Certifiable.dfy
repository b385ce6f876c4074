/**
 Which heights can still be certified.

 An engine takes one digest per height for good, and none below its tip, so every digest taken at a
 height and every tip that moves past it leaves less room. `Room` says who can still acknowledge a
 digest; a height the router has passed can be certified for a digest exactly while its room is a quorum.
 */
module Certifiable {
  import opened Common
  import opened Consensus
  import opened Wire
  import opened System
  import B = TaskBook
  import H = TaskBookHistory
  import S = Sequencer
  import SR = SequencerRuns
  import A = Automaton

  // ---- the condition ----

  /** The book has handed out an announced task with this digest for h, as its k-th answer. */
  predicate HandedOut<T>(c: Config<T>, b: B.Book<T>, h: nat, d: Digest, k: nat) {
    && k < |b.answers| && b.answers[k].height == h
    && b.answers[k].resolution.Announced? && c.validate(b.answers[k].resolution.task) == d
  }

  /** The book has handed out the task, or can still come to record its announcement. */
  ghost predicate CanHear<T>(c: Config<T>, b: B.Book<T>, h: nat, d: Digest) {
    H.CanRecord(b, h, c.validate, d) || exists k: nat :: HandedOut(c, b, h, d, k)
  }

  /** The engine took nothing at h, and has not left h behind. */
  predicate Undecided<T>(s: State<T>, i: nat, h: nat)
    requires i < |s.signed| && i < |s.tips|
  {
    h !in s.signed[i] && s.tips[i] <= h
  }

  /** Participant i may acknowledge d at h: it is faulty, it took d, or it is undecided and can hear of d. */
  ghost predicate MayTake<T>(c: Config<T>, s: State<T>, i: nat, h: nat, d: Digest)
    requires i < |s.books| && i < |s.signed| && i < |s.tips|
  {
    || i in c.faulty
    || (h in s.signed[i] && s.signed[i][h] == d)
    || (Undecided(s, i, h) && (d == SkipDigest(c.namespace, h) || CanHear(c, s.books[i], h, d)))
  }

  ghost predicate Sized<T>(c: Config<T>, s: State<T>) {
    |s.books| == |s.signed| == |s.tips| == c.n
  }

  ghost function Room<T>(c: Config<T>, s: State<T>, h: nat, d: Digest): set<nat>
    requires Sized(c, s)
  {
    set i | 0 <= i < c.n && MayTake(c, s, i, h, d)
  }

  /** Some continuation makes a quorum acknowledge d at h. */
  ghost predicate Certifiable<T(!new)>(c: Config<T>, s: State<T>, h: nat, d: Digest) {
    exists more :: Quorate(c.n, RunFrom(c, s, more).acks, h, d)
  }

  // ---- room only shrinks ----

  lemma HearingShrinks<T>(c: Config<T>, b: B.Book<T>, m: B.Message<T>, h: nat, d: Digest)
    requires H.Inv(b) && CanHear(c, B.Step(b, m), h, d)
    requires m.PruneBelow? ==> m.floor <= h
    ensures CanHear(c, b, h, d)
  {
    var b' := B.Step(b, m);
    if H.CanRecord(b', h, c.validate, d) {
      H.CanRecordShrinks(b, m, h, c.validate, d);
    } else {
      var k: nat :| HandedOut(c, b', h, d, k);
      var a := b'.answers[k];
      assert a in b'.answers;
      if a in b.answers {
        var j: nat :| j < |b.answers| && b.answers[j] == a;
        assert HandedOut(c, b, h, d, j);
      } else {
        H.NewTaskCouldBeRecorded(b, m, a, c.validate);
      }
    }
  }

  /** A book is never pruned at or above its engine's tip: the reporter is at most a window ahead. */
  lemma PrunedBelowTip<T>(c: Config<T>, s: State<T>, e: Event<T>, m: B.Message<T>)
    requires c.Valid() && TipsOk(c.n, c.window, s.tips, s.seen)
    requires NodeMessage(c, s, e) == Some(m) && m.PruneBelow?
    ensures m.floor <= s.tips[e.node]
  {
  }

  lemma SignedIsMayTake<T(!new)>(c: Config<T>, s: State<T>, e: Event<T>, h: nat, d: Digest)
    requires e.Sign? && Sized(c, s) && e.node < c.n && h !in s.signed[e.node]
    requires var s' := SignStep(c, s, e.node, e.k, e.digest);
             h in s'.signed[e.node] && s'.signed[e.node][h] == d
    ensures MayTake(c, s, e.node, h, d)
  {
    if d != SkipDigest(c.namespace, h) {
      assert HandedOut(c, s.books[e.node], h, d, e.k);
    }
  }

  lemma StepKeepsNodes<T(!new)>(c: Config<T>, s: State<T>, e: Event<T>)
    ensures !AtBook(e) ==> Step(c, s, e).books == s.books
    ensures !e.Sign? ==> Step(c, s, e).signed == s.signed
    ensures |Step(c, s, e).tips| == |s.tips| && forall i :: 0 <= i < |s.tips| ==> s.tips[i] <= Step(c, s, e).tips[i]
  {
  }

  lemma StepOfBook<T(!new)>(c: Config<T>, s: State<T>, e: Event<T>, i: nat)
    requires AtBook(e) && i < |s.books|
    ensures |Step(c, s, e).books| == |s.books|
    ensures Step(c, s, e).books[i] ==
            if e.node == i && NodeMessage(c, s, e).Some? then B.Step(s.books[i], NodeMessage(c, s, e).value)
            else s.books[i]
    ensures Step(c, s, e).tips == s.tips
  {
  }

  lemma StepOfSigned<T(!new)>(c: Config<T>, s: State<T>, e: Event<T>, i: nat, h: nat)
    requires e.Sign? && i < |s.signed|
    ensures |Step(c, s, e).signed| == |s.signed|
    ensures e.node != i || h in s.signed[i] ==>
              (h in Step(c, s, e).signed[i] <==> h in s.signed[i])
              && (h in s.signed[i] ==> Step(c, s, e).signed[i][h] == s.signed[i][h])
  {
  }

  lemma RoomShrinks<T(!new)>(c: Config<T>, s: State<T>, e: Event<T>, i: nat, h: nat, d: Digest)
    requires c.Valid() && Inv(c, s) && Inv(c, Step(c, s, e)) && i < c.n
    requires MayTake(c, Step(c, s, e), i, h, d)
    ensures MayTake(c, s, i, h, d)
  {
    StepKeepsNodes(c, s, e);
    if AtBook(e) {
      BookRoomShrinks(c, s, e, i, h, d);
    } else if e.Sign? {
      StepOfSigned(c, s, e, i, h);
      if e.node == i && h !in s.signed[i] && h in Step(c, s, e).signed[i] && i !in c.faulty {
        SignedIsMayTake(c, s, e, h, d);
      }
    }
  }

  lemma BookRoomShrinks<T(!new)>(c: Config<T>, s: State<T>, e: Event<T>, i: nat, h: nat, d: Digest)
    requires c.Valid() && Inv(c, s) && AtBook(e) && Sized(c, Step(c, s, e)) && i < c.n
    requires Step(c, s, e).signed == s.signed && MayTake(c, Step(c, s, e), i, h, d)
    ensures MayTake(c, s, i, h, d)
  {
    StepOfBook(c, s, e, i);
    var m := NodeMessage(c, s, e);
    if m.Some? && e.node == i && Undecided(s, i, h) && CanHear(c, Step(c, s, e).books[i], h, d) {
      if m.value.PruneBelow? {
        PrunedBelowTip(c, s, e, m.value);
      }
      assert BookOk(s.router.trace, s.books[i]);
      HearingShrinks(c, s.books[i], m.value, h, d);
    }
  }

  lemma {:induction false} RoomShrinksInRun<T(!new)>(c: Config<T>, s: State<T>, more: seq<Event<T>>, h: nat, d: Digest)
    requires c.Valid() && Inv(c, s)
    ensures Inv(c, RunFrom(c, s, more))
    ensures Room(c, RunFrom(c, s, more), h, d) <= Room(c, s, h, d)
  {
    RunFromKeepsInv(c, s, more);
    if more != [] {
      var p, e := more[..|more| - 1], more[|more| - 1];
      RoomShrinksInRun(c, s, p, h, d);
      var s1 := RunFrom(c, s, p);
      forall i | i in Room(c, Step(c, s1, e), h, d) ensures i in Room(c, s1, h, d) {
        RoomShrinks(c, s1, e, i, h, d);
      }
    }
  }

  /** Whoever acknowledged d at h had room for it. */
  lemma SignersHaveRoom<T(!new)>(c: Config<T>, s: State<T>, h: nat, d: Digest)
    requires Inv(c, s)
    ensures Signers(c.n, s.acks, h, d) <= Room(c, s, h, d)
  {
  }

  lemma QuorateNeedsRoom<T(!new)>(c: Config<T>, s: State<T>, more: seq<Event<T>>, h: nat, d: Digest)
    requires c.Valid() && Inv(c, s)
    requires Quorate(c.n, RunFrom(c, s, more).acks, h, d)
    ensures |Room(c, s, h, d)| >= Quorum(c.n)
  {
    RoomShrinksInRun(c, s, more, h, d);
    SignersHaveRoom(c, RunFrom(c, s, more), h, d);
    SubsetCardinality(Signers(c.n, RunFrom(c, s, more).acks, h, d), Room(c, s, h, d));
  }

  /** The participants that are faulty, took d at h, or took nothing there with their tips not past it. */
  ghost function OpenTo<T>(c: Config<T>, s: State<T>, h: nat, d: Digest): set<nat>
    requires Sized(c, s)
  {
    set i | 0 <= i < c.n && (i in c.faulty || Undecided(s, i, h) || (h in s.signed[i] && s.signed[i][h] == d))
  }

  /**
   MAIN RESULT (a height can be lost). In a reachable state where, for every digest, the participants that
   are faulty, took that digest at h, or took nothing there with their tips not past it are fewer than a
   quorum, no continuation ever certifies h, and no task ever ends there.
   */
  lemma ClosedHeightNeverCertifies<T(!new)>(c: Config<T>, events: seq<Event<T>>, more: seq<Event<T>>, h: nat)
    requires c.Valid() && Sized(c, Run(c, events))
    requires forall d :: |OpenTo(c, Run(c, events), h, d)| < Quorum(c.n)
    ensures forall d :: !Quorate(c.n, Run(c, events + more).acks, h, d)
    ensures forall f :: f in Run(c, events + more).router.fates ==> f.height != h
  {
    var s := Run(c, events);
    RunKeepsInv(c, events);
    RunConcat(c, Start(c), events, more);
    forall d ensures !Quorate(c.n, RunFrom(c, s, more).acks, h, d) {
      if Quorate(c.n, RunFrom(c, s, more).acks, h, d) {
        QuorateNeedsRoom(c, s, more, h, d);
        SubsetCardinality(Room(c, s, h, d), OpenTo(c, s, h, d));
      }
    }
    RunFromKeepsInv(c, s, more);
    forall f | f in RunFrom(c, s, more).router.fates ensures f.height != h {
      assert FateOk(c, RunFrom(c, s, more).acks, f);
    }
  }

  // ---- while there is room, a quorum can be gathered ----

  /** A trace entry that tells participants of h: any directive at or above it, or the announcement of the task. */
  ghost predicate Tells<T>(c: Config<T>, trace: seq<TaskDirective<T>>, k: nat, h: nat, d: Digest) {
    && k < |trace| && trace[k].height >= h
    && (d == SkipDigest(c.namespace, h) ||
        (trace[k].Announce? && trace[k].height == h && c.validate(trace[k].task) == d))
  }

  /** The node's book after it heard a directive and was then asked for h. */
  function HeardAndAsked<T(==)>(b: B.Book<T>, sent: TaskDirective<T>, h: nat): B.Book<T> {
    B.ApplySubscribe(B.ApplyDirective(b, sent), h, 0)
  }

  /** A directive at or above h makes the book answer, with the task if it is announced and can be recorded. */
  lemma HeardAnswer<T>(c: Config<T>, b: B.Book<T>, sent: TaskDirective<T>, h: nat, d: Digest)
    requires H.Inv(b) && !sent.TipReport? && sent.height >= h
    requires d == SkipDigest(c.namespace, h) ||
             (sent.Announce? && sent.height == h && c.validate(sent.task) == d && H.CanRecord(b, h, c.validate, d))
    ensures var answers := HeardAndAsked(b, sent, h).answers;
            && answers != [] && answers[|answers| - 1].height == h
            && A.MaySign(c.namespace, h, answers[|answers| - 1].resolution, c.validate, d)
  {
    H.HeardDecides(b, sent, h);
    if d != SkipDigest(c.namespace, h) && h !in b.directives {
      H.HeardAnnounces(b, h, sent.task);
    }
  }

  /** A directive at or above h arrives, the engine proposes h, and it takes d if the answer allows it. */
  lemma HearAndTake<T(!new)>(c: Config<T>, s: State<T>, i: nat, k: nat, h: nat, d: Digest)
    returns (more: seq<Event<T>>)
    requires NodesOk(c, s) && TraceOk(s.router) && i < c.n && h !in s.signed[i] && InWindow(c, s, i, h)
    requires Tells(c, s.router.trace, k, h, d)
    requires d == SkipDigest(c.namespace, h) || H.CanRecord(s.books[i], h, c.validate, d)
    ensures OnlyTook(s, RunFrom(c, s, more), i, h, d) && RunFrom(c, s, more).tips == s.tips
  {
    assert s.router.trace[k] in s.router.trace;
    assert BookOk(s.router.trace, s.books[i]);
    more := HearProposeSign(c, s, i, k, h, d);
  }

  lemma HearProposeSign<T(!new)>(c: Config<T>, s: State<T>, i: nat, k: nat, h: nat, d: Digest)
    returns (more: seq<Event<T>>)
    requires i < |s.books| && i < |s.signed| && H.Inv(s.books[i]) && h !in s.signed[i] && InWindow(c, s, i, h)
    requires Tells(c, s.router.trace, k, h, d) && !s.router.trace[k].TipReport?
    requires d == SkipDigest(c.namespace, h) || H.CanRecord(s.books[i], h, c.validate, d)
    ensures OnlyTook(s, RunFrom(c, s, more), i, h, d) && RunFrom(c, s, more).tips == s.tips
  {
    HeardAnswer(c, s.books[i], s.router.trace[k], h, d);
    HearsAndProposes(c, s, i, k, h);
    var b := HeardAndAsked(s.books[i], s.router.trace[k], h);
    var s2 := s.(books := s.books[i := b]);
    var sign := Sign(i, |b.answers| - 1, d);
    ThreeSteps(c, s, Step(c, s, Deliver(i, k)), s2, Deliver(i, k), Propose(i, h, 0), sign);
    more := [Deliver(i, k), Propose(i, h, 0), sign];
    SignTakes(c, s2, i, |b.answers| - 1, d);
    OnlyBookMoved(s, i, b, h, d);
  }

  lemma OnlyBookMoved<T>(s: State<T>, i: nat, b: B.Book<T>, h: nat, d: Digest)
    requires i < |s.books| && i < |s.signed|
    ensures OnlyTook(s, Took(s.(books := s.books[i := b]), i, h, d), i, h, d)
  {
  }

  lemma HearsAndProposes<T(!new)>(c: Config<T>, s: State<T>, i: nat, k: nat, h: nat)
    requires i < |s.books| && k < |s.router.trace| && InWindow(c, s, i, h)
    ensures Step(c, Step(c, s, Deliver(i, k)), Propose(i, h, 0)) ==
            s.(books := s.books[i := HeardAndAsked(s.books[i], s.router.trace[k], h)])
  {
    var b1 := B.ApplyDirective(s.books[i], s.router.trace[k]);
    var s1 := s.(books := s.books[i := b1]);
    assert Step(c, s, Deliver(i, k)) == s1;
    assert s1.books[i := B.ApplySubscribe(b1, h, 0)] == s.books[i := B.ApplySubscribe(b1, h, 0)];
  }

  lemma SignTakes<T(!new)>(c: Config<T>, s: State<T>, i: nat, k: nat, d: Digest)
    requires i < |s.books| && i < |s.signed| && k < |s.books[i].answers|
    requires s.books[i].answers[k].height !in s.signed[i] && InWindow(c, s, i, s.books[i].answers[k].height)
    requires A.MaySign(c.namespace, s.books[i].answers[k].height, s.books[i].answers[k].resolution, c.validate, d)
    ensures Step(c, s, Sign(i, k, d)) == Took(s, i, s.books[i].answers[k].height, d)
  {
  }

  lemma OneStep<T(!new)>(c: Config<T>, s: State<T>, e: Event<T>)
    ensures RunFrom(c, s, [e]) == Step(c, s, e)
  {
    assert [e][..0] == [];
  }

  lemma TwoSteps<T(!new)>(c: Config<T>, s: State<T>, e1: Event<T>, e2: Event<T>)
    ensures RunFrom(c, s, [e1, e2]) == Step(c, Step(c, s, e1), e2)
  {
    OneStep(c, s, e1);
    RunOneMore(c, s, [e1], e2);
    assert [e1] + [e2] == [e1, e2];
  }

  lemma ThreeSteps<T(!new)>(c: Config<T>, s: State<T>, s1: State<T>, s2: State<T>,
                            e1: Event<T>, e2: Event<T>, e3: Event<T>)
    requires Step(c, s, e1) == s1 && Step(c, s1, e2) == s2
    ensures RunFrom(c, s, [e1, e2, e3]) == Step(c, s2, e3)
  {
    TwoSteps(c, s, e1, e2);
    RunOneMore(c, s, [e1, e2], e3);
    assert [e1, e2] + [e3] == [e1, e2, e3];
  }

  /** An engine that is more than a window short of h moves up to it; any other stays where it is. */
  lemma CatchUp<T(!new)>(c: Config<T>, s: State<T>, i: nat, h: nat) returns (more: seq<Event<T>>)
    requires c.Valid() && i < |s.tips| && s.tips[i] <= h
    ensures var s' := RunFrom(c, s, more);
            && InWindow(c, s', i, h) && |s'.tips| == |s.tips| && s' == s.(tips := s'.tips)
            && (forall j :: 0 <= j < |s.tips| && (j != i || InWindow(c, s, i, h)) ==> s'.tips[j] == s.tips[j])
  {
    if InWindow(c, s, i, h) {
      more := [];
    } else {
      more := [NodeTip(i, h)];
      OneStep(c, s, NodeTip(i, h));
    }
  }

  /** Nothing changed but that participant i acknowledged d at h, having consulted its book and maybe caught up. */
  ghost predicate OnlyTook<T>(s: State<T>, s': State<T>, i: nat, h: nat, d: Digest)
    requires i < |s.signed|
  {
    && |s'.books| == |s.books| && (forall j :: 0 <= j < |s.books| && j != i ==> s'.books[j] == s.books[j])
    && s' == Took(s, i, h, d).(books := s'.books, tips := s'.tips)
  }

  /** Participant i is among those that acknowledged d at h; everybody else is where they were. */
  ghost predicate Joined<T>(c: Config<T>, s: State<T>, s': State<T>, i: nat, h: nat, d: Digest)
    requires Sized(c, s)
  {
    && Sized(c, s') && OnlyNodes(s, s') && s.acks <= s'.acks && Ack(i, h, d) in s'.acks
    && (forall j :: 0 <= j < c.n && j != i ==> Same(s, s', j))
    && (forall j :: 0 <= j < c.n && (j != i || NotBehind(c, s, i, h)) ==> s'.tips[j] == s.tips[j])
  }

  ghost predicate Same<T>(s: State<T>, s': State<T>, j: nat)
    requires j < |s.books| == |s'.books| && j < |s.signed| == |s'.signed|
  {
    s'.books[j] == s.books[j] && s'.signed[j] == s.signed[j]
  }

  /** Only the nodes moved. */
  ghost predicate OnlyNodes<T>(s: State<T>, s': State<T>) {
    && s'.router == s.router && s'.reporter == s.reporter && s'.read == s.read && s'.submitting == s.submitting
    && s'.resolutions == s.resolutions && s'.awaiting == s.awaiting
  }

  /** The engine is not more than a window short of h. */
  predicate NotBehind<T>(c: Config<T>, s: State<T>, i: nat, h: nat)
    requires i < |s.tips|
  {
    h < s.tips[i] + c.window
  }

  lemma TookJoins<T>(c: Config<T>, s: State<T>, s1: State<T>, s': State<T>, i: nat, h: nat, d: Digest)
    requires Sized(c, s) && i < c.n && |s1.tips| == c.n && s1 == s.(tips := s1.tips)
    requires forall j :: 0 <= j < c.n && (j != i || InWindow(c, s, i, h)) ==> s1.tips[j] == s.tips[j]
    requires s.tips[i] <= h && OnlyTook(s1, s', i, h, d) && s'.tips == s1.tips
    ensures Joined(c, s, s', i, h, d)
  {
  }

  /** Participant i, which has room for d, acknowledges it; nobody else's room changes. */
  lemma Acknowledge<T(!new)>(c: Config<T>, s: State<T>, i: nat, k: nat, h: nat, d: Digest)
    returns (more: seq<Event<T>>)
    requires c.Valid() && Inv(c, s) && i < c.n && MayTake(c, s, i, h, d) && Tells(c, s.router.trace, k, h, d)
    ensures Joined(c, s, RunFrom(c, s, more), i, h, d)
  {
    if h in s.signed[i] && s.signed[i][h] == d {
      more := [];
    } else if i in c.faulty {
      more := [FaultyAck(Ack(i, h, d))];
      FaultyJoins(c, s, i, h, d);
    } else {
      more := CatchUpAndTake(c, s, i, k, h, d);
    }
  }

  lemma FaultyJoins<T(!new)>(c: Config<T>, s: State<T>, i: nat, h: nat, d: Digest)
    requires Sized(c, s) && i in c.faulty
    ensures Joined(c, s, RunFrom(c, s, [FaultyAck(Ack(i, h, d))]), i, h, d)
  {
    OneStep(c, s, FaultyAck(Ack(i, h, d)));
    assert Step(c, s, FaultyAck(Ack(i, h, d))) == s.(acks := s.acks + {Ack(i, h, d)});
  }

  lemma CatchUpAndTake<T(!new)>(c: Config<T>, s: State<T>, i: nat, k: nat, h: nat, d: Digest)
    returns (more: seq<Event<T>>)
    requires c.Valid() && Inv(c, s) && i < c.n && Undecided(s, i, h) && Tells(c, s.router.trace, k, h, d)
    requires d == SkipDigest(c.namespace, h) || CanHear(c, s.books[i], h, d)
    ensures Joined(c, s, RunFrom(c, s, more), i, h, d)
  {
    var up := CatchUp(c, s, i, h);
    var s1 := RunFrom(c, s, up);
    RunFromKeepsInv(c, s, up);
    var take := TakeInTurn(c, s1, i, k, h, d);
    RunConcat(c, s, up, take);
    more := up + take;
    TookJoins(c, s, s1, RunFrom(c, s1, take), i, h, d);
  }

  lemma TakeInTurn<T(!new)>(c: Config<T>, s: State<T>, i: nat, k: nat, h: nat, d: Digest)
    returns (more: seq<Event<T>>)
    requires NodesOk(c, s) && TraceOk(s.router) && i < c.n && h !in s.signed[i] && InWindow(c, s, i, h)
    requires Tells(c, s.router.trace, k, h, d) && (d == SkipDigest(c.namespace, h) || CanHear(c, s.books[i], h, d))
    ensures OnlyTook(s, RunFrom(c, s, more), i, h, d) && RunFrom(c, s, more).tips == s.tips
  {
    if d == SkipDigest(c.namespace, h) || H.CanRecord(s.books[i], h, c.validate, d) {
      more := HearAndTake(c, s, i, k, h, d);
    } else {
      var j: nat :| HandedOut(c, s.books[i], h, d, j);
      more := [Sign(i, j, d)];
      OneStep(c, s, Sign(i, j, d));
      SignTakes(c, s, i, j, d);
    }
  }

  /** All participants below m that have room for d acknowledged it, and the others are where they were. */
  ghost predicate Gathered<T>(c: Config<T>, s: State<T>, s': State<T>, h: nat, d: Digest, m: nat)
    requires Sized(c, s)
  {
    && Sized(c, s') && OnlyNodes(s, s')
    && (forall i :: 0 <= i < m && i < c.n && MayTake(c, s, i, h, d) ==> Ack(i, h, d) in s'.acks)
    && (forall j :: m <= j < c.n ==> Same(s, s', j))
    && (forall j :: 0 <= j < c.n && (j >= m || NotBehind(c, s, j, h)) ==> s'.tips[j] == s.tips[j])
  }

  lemma GatherOne<T>(c: Config<T>, s: State<T>, s1: State<T>, s2: State<T>, h: nat, d: Digest, m: nat)
    requires Sized(c, s) && m < c.n
    requires Gathered(c, s, s1, h, d, m)
    requires if MayTake(c, s, m, h, d) then Joined(c, s1, s2, m, h, d) else s2 == s1
    ensures Gathered(c, s, s2, h, d, m + 1)
  {
    assert Same(s, s1, m) && s1.tips[m] == s.tips[m];
    forall j | m + 1 <= j < c.n ensures Same(s, s2, j) {
      assert Same(s, s1, j);
      assert MayTake(c, s, m, h, d) ==> Same(s1, s2, j);
    }
  }

  /** All participants below m that have room for d acknowledge it, one after the other. */
  lemma {:induction false} Gather<T(!new)>(c: Config<T>, s: State<T>, k: nat, h: nat, d: Digest, m: nat)
    returns (more: seq<Event<T>>)
    requires c.Valid() && Inv(c, s) && m <= c.n && Tells(c, s.router.trace, k, h, d)
    ensures Inv(c, RunFrom(c, s, more)) && Gathered(c, s, RunFrom(c, s, more), h, d, m)
  {
    if m == 0 {
      more := [];
    } else {
      var before := Gather(c, s, k, h, d, m - 1);
      more := GatherNext(c, s, before, k, h, d, m - 1);
    }
  }

  lemma GatherNext<T(!new)>(c: Config<T>, s: State<T>, before: seq<Event<T>>, k: nat, h: nat, d: Digest, m: nat)
    returns (more: seq<Event<T>>)
    requires c.Valid() && Sized(c, s) && m < c.n && Tells(c, s.router.trace, k, h, d)
    requires Inv(c, RunFrom(c, s, before)) && Gathered(c, s, RunFrom(c, s, before), h, d, m)
    ensures Inv(c, RunFrom(c, s, more)) && Gathered(c, s, RunFrom(c, s, more), h, d, m + 1)
  {
    var s1 := RunFrom(c, s, before);
    var last := JoinIfRoom(c, s, s1, k, h, d, m);
    more := before + last;
    RunConcat(c, s, before, last);
    RunFromKeepsInv(c, s1, last);
    GatherOne(c, s, s1, RunFrom(c, s1, last), h, d, m);
  }

  lemma JoinIfRoom<T(!new)>(c: Config<T>, s: State<T>, s1: State<T>, k: nat, h: nat, d: Digest, m: nat)
    returns (last: seq<Event<T>>)
    requires c.Valid() && Inv(c, s1) && Sized(c, s) && m < c.n && Tells(c, s1.router.trace, k, h, d)
    requires Gathered(c, s, s1, h, d, m)
    ensures if MayTake(c, s, m, h, d) then Joined(c, s1, RunFrom(c, s1, last), m, h, d)
            else RunFrom(c, s1, last) == s1
  {
    if MayTake(c, s, m, h, d) {
      assert Same(s, s1, m) && s1.tips[m] == s.tips[m];
      last := Acknowledge(c, s1, m, k, h, d);
    } else {
      last := [];
    }
  }

  /** Only the nodes move, and engines that are not more than a window short of h keep their tips. */
  lemma RoomIsEnough<T(!new)>(c: Config<T>, s: State<T>, k: nat, h: nat, d: Digest) returns (more: seq<Event<T>>)
    requires c.Valid() && Inv(c, s) && Tells(c, s.router.trace, k, h, d)
    requires |Room(c, s, h, d)| >= Quorum(c.n)
    ensures Quorate(c.n, RunFrom(c, s, more).acks, h, d) && OnlyNodes(s, RunFrom(c, s, more))
    ensures |RunFrom(c, s, more).tips| == c.n
    ensures forall i :: 0 <= i < c.n && NotBehind(c, s, i, h) ==> RunFrom(c, s, more).tips[i] == s.tips[i]
  {
    more := Gather(c, s, k, h, d, c.n);
    SubsetCardinality(Room(c, s, h, d), Signers(c.n, RunFrom(c, s, more).acks, h, d));
  }

  // ---- the exact condition ----

  /** A height the router has passed is never assigned again, so what may be certified there is settled. */
  lemma LegitimateIsSettled<T(!new)>(c: Config<T>, s: State<T>, more: seq<Event<T>>, h: nat, d: Digest)
    requires c.Valid() && Inv(c, s) && h < s.router.next
    requires Legitimate(c, RunFrom(c, s, more).router.placements, h, d)
    ensures Legitimate(c, s.router.placements, h, d)
  {
    if d != SkipDigest(c.namespace, h) {
      var s' := RunFrom(c, s, more);
      var p :| p in s'.router.placements && p.height == h && p.task.digest == d;
      PlacedEarlier(c, s, more, p);
    }
  }

  lemma {:induction false} PlacedEarlier<T(!new)>(c: Config<T>, s: State<T>, more: seq<Event<T>>, p: S.Placement<T>)
    requires c.Valid() && Inv(c, s)
    requires p in RunFrom(c, s, more).router.placements && p.height < s.router.next
    ensures p in s.router.placements && s.router.next <= RunFrom(c, s, more).router.next
  {
    NextGrows(c, s, more);
    if more != [] {
      var before := more[..|more| - 1];
      RunFromKeepsInv(c, s, before);
      NextGrows(c, s, before);
      StepPlacesAbove(c, RunFrom(c, s, before), more[|more| - 1], p);
      PlacedEarlier(c, s, before, p);
    }
  }

  lemma StepPlacesAbove<T(!new)>(c: Config<T>, s: State<T>, e: Event<T>, p: S.Placement<T>)
    requires p in Step(c, s, e).router.placements && p.height < s.router.next
    ensures p in s.router.placements
  {
    StepOfRouter(c, s, e);
    if AtSequencer(e) && RouterEvent(c, s, e).Some? {
      var re := RouterEvent(c, s, e).value;
      if re.Assign? {
        SR.DrainedGrows(s.router.next, re.buffered);
      }
    }
  }

  lemma {:induction false} NextGrows<T(!new)>(c: Config<T>, s: State<T>, more: seq<Event<T>>)
    requires c.Valid() && Inv(c, s)
    ensures s.router.next <= RunFrom(c, s, more).router.next
  {
    if more != [] {
      var before, e := more[..|more| - 1], more[|more| - 1];
      NextGrows(c, s, before);
      RunFromKeepsInv(c, s, before);
      StepNextGrows(c, RunFrom(c, s, before), e);
    }
  }

  lemma StepNextGrows<T(!new)>(c: Config<T>, s: State<T>, e: Event<T>)
    requires SR.Inv(s.router)
    ensures s.router.next <= Step(c, s, e).router.next
  {
    StepOfRouter(c, s, e);
    if AtSequencer(e) && RouterEvent(c, s, e).Some? {
      SR.StepKeepsInv(s.router, RouterEvent(c, s, e).value);
    }
  }

  /** For a legitimate digest of a height the router has passed there is a directive that tells of it. */
  lemma SomethingTells<T(!new)>(c: Config<T>, s: State<T>, h: nat, d: Digest) returns (k: nat)
    requires Inv(c, s) && Passed(s.router.trace, h) && Legitimate(c, s.router.placements, h, d)
    ensures Tells(c, s.router.trace, k, h, d)
  {
    if d == SkipDigest(c.namespace, h) {
      var sent :| sent in s.router.trace && sent.height >= h;
      k :| 0 <= k < |s.router.trace| && s.router.trace[k] == sent;
    } else {
      var p :| p in s.router.placements && p.height == h && p.task.digest == d;
      PlacedIsPulled(s.router, p);
      assert Announce(h, p.task.announce) in s.router.trace;
      k :| 0 <= k < |s.router.trace| && s.router.trace[k] == Announce(h, p.task.announce);
    }
  }

  /**
   MAIN RESULT (when a height can still be certified). In every reachable state, for every height the
   router has passed (in particular every height it has assigned) and every digest: some continuation
   certifies the digest there if and only if it is the skip digest or the one assigned there, and the
   participants that still have room for it are a quorum.
   */
  lemma CertifiableIff<T(!new)>(c: Config<T>, events: seq<Event<T>>, h: nat, d: Digest)
    requires c.Valid() && Passed(Run(c, events).router.trace, h)
    ensures Sized(c, Run(c, events))
    ensures Certifiable(c, Run(c, events), h, d) <==>
              && Legitimate(c, Run(c, events).router.placements, h, d)
              && |Room(c, Run(c, events), h, d)| >= Quorum(c.n)
  {
    RunKeepsInv(c, events);
    var s := Run(c, events);
    if more :| Quorate(c.n, RunFrom(c, s, more).acks, h, d) {
      QuorumIsSettled(c, s, more, h, d);
      QuorateNeedsRoom(c, s, more, h, d);
    }
    if Legitimate(c, s.router.placements, h, d) && |Room(c, s, h, d)| >= Quorum(c.n) {
      var k := SomethingTells(c, s, h, d);
      var more := RoomIsEnough(c, s, k, h, d);
    }
  }

  /** What a continuation certifies at a height the router has passed was legitimate there before. */
  lemma QuorumIsSettled<T(!new)>(c: Config<T>, s: State<T>, more: seq<Event<T>>, h: nat, d: Digest)
    requires c.Valid() && Inv(c, s) && Passed(s.router.trace, h)
    requires Quorate(c.n, RunFrom(c, s, more).acks, h, d)
    ensures Legitimate(c, s.router.placements, h, d)
  {
    var sent :| sent in s.router.trace && sent.height >= h;
    RunFromKeepsInv(c, s, more);
    QuorumIsLegitimate(c, RunFrom(c, s, more), h, d);
    LegitimateIsSettled(c, s, more, h, d);
  }

  /**
   MAIN RESULT. No engine has to move for it: if no engine is more than a window short of h, a digest that
   is legitimate there and has room is certified by a continuation in which no tip changes.
   */
  lemma CertifiableInPlace<T(!new)>(c: Config<T>, events: seq<Event<T>>, h: nat, d: Digest)
    returns (more: seq<Event<T>>)
    requires c.Valid() && Passed(Run(c, events).router.trace, h) && Sized(c, Run(c, events))
    requires Legitimate(c, Run(c, events).router.placements, h, d)
    requires |Room(c, Run(c, events), h, d)| >= Quorum(c.n)
    requires forall i :: 0 <= i < c.n ==> NotBehind(c, Run(c, events), i, h)
    ensures Quorate(c.n, Run(c, events + more).acks, h, d) && Run(c, events + more).tips == Run(c, events).tips
  {
    RunKeepsInv(c, events);
    var s := Run(c, events);
    var k := SomethingTells(c, s, h, d);
    more := RoomIsEnough(c, s, k, h, d);
    RunConcat(c, Start(c), events, more);
  }

  /**
   MAIN RESULT (no height is lost while the skip digest has room). If the participants that are faulty,
   took the skip digest at h, or took nothing there with their tips not past it are a quorum, a height
   the router has passed can still be certified as skipped, wherever its directives got to.
   */
  lemma SkippableWhileRoom<T(!new)>(c: Config<T>, events: seq<Event<T>>, h: nat)
    requires c.Valid() && Passed(Run(c, events).router.trace, h)
    requires Sized(c, Run(c, events))
    requires |OpenTo(c, Run(c, events), h, SkipDigest(c.namespace, h))| >= Quorum(c.n)
    ensures Certifiable(c, Run(c, events), h, SkipDigest(c.namespace, h))
  {
    var d := SkipDigest(c.namespace, h);
    CertifiableIff(c, events, h, d);
    assert Room(c, Run(c, events), h, d) == OpenTo(c, Run(c, events), h, d);
  }
}
