/** What holds over every run of the sequencer, for every environment script. */
module SequencerRuns {
  import opened Common
  import opened Wire
  import opened Sequencer
  import TR = TipReports

  // ---- the invariant ----

  /** Heights are handed out in strictly increasing order, to the pulled tasks in the order they were pulled. */
  ghost predicate Placed<T>(s: Seq<T>) {
    && (forall i :: 0 <= i < |s.placements| ==>
          && s.placements[i].height < s.next
          && s.placements[i].index < |s.pulled|
          && s.placements[i].task == s.pulled[s.placements[i].index])
    && (forall i, j :: 0 <= i < j < |s.placements| ==>
          s.placements[i].height < s.placements[j].height && s.placements[i].index <= s.placements[j].index)
  }

  /** The assignment map holds exactly the height being driven. */
  ghost predicate Holding<T>(s: Seq<T>) {
    if s.mode.Driving? then
      && s.placements != []
      && s.placements[|s.placements| - 1] == Placement(s.mode.height, s.mode.task, SatSub(|s.pulled|, 1))
      && s.assignments == map[s.mode.height := Assignment(s.mode.task.digest, s.mode.task.task)]
    else s.assignments == map[]
  }

  function InFlight<T>(mode: Mode<T>): seq<SequencedTask<T>> {
    if mode.Pending? || mode.Driving? then [mode.task] else []
  }

  function Done<T>(fates: seq<Fate<T>>): seq<SequencedTask<T>> {
    if fates == [] then [] else Done(fates[..|fates| - 1]) + [fates[|fates| - 1].task]
  }

  /** Every pulled task is done, in flight, or abandoned by shutdown, once and in pull order. */
  ghost predicate Conserved<T>(s: Seq<T>) {
    && s.pulled == Done(s.fates) + InFlight(s.mode) + s.abandoned
    && (!s.mode.Stopped? ==> s.abandoned == [])
    && |s.abandoned| <= 1
  }

  /** Supersessions happen at strictly growing safe tips, each below what is driven next. */
  ghost predicate SupersededOk<T>(s: Seq<T>) {
    && (forall i :: 0 <= i < |s.superseded| ==> 0 < s.superseded[i] <= s.SafeTip())
    && (forall i, j :: 0 <= i < j < |s.superseded| ==> s.superseded[i] < s.superseded[j])
    && (s.mode.Driving? ==> forall i :: 0 <= i < |s.superseded| ==> s.superseded[i] <= s.mode.height)
  }

  ghost predicate Inv<T>(s: Seq<T>) {
    Placed(s) && Holding(s) && Conserved(s) && SupersededOk(s)
  }

  lemma {:induction false} DrainedGrows(next: nat, buffered: seq<Resolution>)
    ensures Drained(next, buffered) >= next
    ensures forall r :: r in buffered ==> Drained(next, buffered) > r.height
  {
    if buffered != [] {
      DrainedGrows(next, buffered[..|buffered| - 1]);
    }
  }

  lemma NextKeepsInv<T>(s: Seq<T>, next: nat)
    requires Inv(s) && next >= s.next
    ensures Inv(s.(next := next))
  {
  }

  lemma PullKeepsInv<T>(s: Seq<T>, next: nat, task: SequencedTask<T>)
    requires Inv(s) && next >= s.next && s.mode.Idle?
    ensures Inv(s.(next := next, mode := Pending(task), pulled := s.pulled + [task]))
  {
    var s' := s.(next := next, mode := Pending(task), pulled := s.pulled + [task]);
    assert Conserved(s');
    assert Placed(s');
  }

  lemma ReportKeepsInv<T>(s: Seq<T>, peer: nat, tip: nat)
    requires Inv(s)
    ensures Inv(s.(reports := TR.Recorded(s.reports, peer, tip)))
    ensures s.SafeTip() <= s.(reports := TR.Recorded(s.reports, peer, tip)).SafeTip()
  {
    TR.SafeTipMonotone(s.reports, s.maxFaults, peer, tip);
  }

  /** The assigned height is new, at least the tips read, and goes to the pending task. */
  lemma AssignKeepsInv<T>(s: Seq<T>, buffered: seq<Resolution>, reporterTip: nat, now: nat)
    requires Inv(s) && s.mode.Pending?
    ensures Inv(Assigned(s, buffered, reporterTip, now))
    ensures Assigned(s, buffered, reporterTip, now).next >= s.next
  {
    DrainedGrows(s.next, buffered);
    var s' := Assigned(s, buffered, reporterTip, now);
    assert s.pulled[|s.pulled| - 1] == s.mode.task;
    assert Placed(s') && Holding(s');
    assert Conserved(s');
    assert SupersededOk(s');
  }

  lemma FinishKeepsInv<T>(s: Seq<T>, outcome: HeightOutcome)
    requires Inv(s) && s.mode.Driving?
    requires outcome.Superseded? ==> s.SafeTip() > s.mode.height
    ensures Inv(Finished(s, outcome))
  {
    FinishKeepsHolding(s, outcome);
    FinishKeepsConserved(s, outcome);
    FinishKeepsSuperseded(s, outcome);
  }

  lemma FinishKeepsHolding<T>(s: Seq<T>, outcome: HeightOutcome)
    requires Placed(s) && Holding(s) && s.mode.Driving?
    ensures Placed(Finished(s, outcome)) && Holding(Finished(s, outcome))
  {
    var s' := Finished(s, outcome);
    assert s'.placements == s.placements && s'.pulled == s.pulled && s'.next == s.next;
    assert s'.assignments == map[];
  }

  lemma FinishKeepsConserved<T>(s: Seq<T>, outcome: HeightOutcome)
    requires Conserved(s) && s.mode.Driving?
    ensures Conserved(Finished(s, outcome))
  {
    var s' := Finished(s, outcome);
    if outcome.Resolved? && !outcome.kind.Foreign? {
      assert s'.fates[..|s.fates|] == s.fates;
      assert Done(s'.fates) == Done(s.fates) + [s.mode.task];
    }
  }

  lemma FinishKeepsSuperseded<T>(s: Seq<T>, outcome: HeightOutcome)
    requires SupersededOk(s) && s.mode.Driving?
    requires outcome.Superseded? ==> s.SafeTip() > s.mode.height
    ensures SupersededOk(Finished(s, outcome))
  {
  }

  lemma TickKeepsInv<T>(s: Seq<T>, certSeen: bool, now: nat)
    requires Inv(s) && s.mode.Driving?
    ensures Inv(Ticked(s, certSeen, now))
  {
    var s' := Ticked(s, certSeen, now);
    assert Holding(s') && Placed(s');
    assert SupersededOk(s') && Conserved(s');
  }

  lemma StepKeepsInv<T>(s: Seq<T>, e: Event<T>)
    requires Inv(s)
    ensures Inv(Step(s, e)) && s.next <= Step(s, e).next && s.SafeTip() <= Step(s, e).SafeTip()
  {
    if s.mode.Stopped? {
    } else if e.TipReported? {
      ReportKeepsInv(s, e.peer, e.tip);
    } else if s.mode.Idle? {
      if e.Pull? {
        DrainedGrows(s.next, e.buffered);
        PullKeepsInv(s, Drained(s.next, e.buffered), e.task);
      } else if e.Exhausted? {
        DrainedGrows(s.next, e.buffered);
        var s' := s.(next := Drained(s.next, e.buffered), mode := Stopped);
        assert Conserved(s') && Placed(s');
      }
    } else if s.mode.Pending? {
      if e.Assign? {
        AssignKeepsInv(s, e.buffered, e.reporterTip, e.now);
      }
    } else {
      DrivingKeepsInv(s, e);
    }
  }

  lemma DrivingKeepsInv<T>(s: Seq<T>, e: Event<T>)
    requires Inv(s) && s.mode.Driving? && !e.TipReported?
    ensures Inv(StepDriving(s, e)) && s.next <= StepDriving(s, e).next && s.SafeTip() == StepDriving(s, e).SafeTip()
  {
    if OutcomeOf(s, e).Some? {
      FinishKeepsInv(s, OutcomeOf(s, e).value);
    } else if e.Recv? {
      NextKeepsInv(s, Max(s.next, e.resolution.height + 1));
    } else if e.Tick? {
      TickKeepsInv(s, e.certSeen, e.now);
    }
  }

  lemma {:induction false} RunInv<T>(s: Seq<T>, env: seq<Event<T>>)
    requires Inv(s)
    ensures Inv(StepAll(s, env))
    ensures s.next <= StepAll(s, env).next && s.SafeTip() <= StepAll(s, env).SafeTip()
  {
    if env != [] {
      var p, e := env[..|env| - 1], env[|env| - 1];
      RunInv(s, p);
      StepKeepsInv(StepAll(s, p), e);
    }
  }

  /** The state after a whole run from startup. */
  ghost function RunOf<T>(reports: map<nat, nat>, maxFaults: nat, timeout: nat, tip: nat, env: seq<Event<T>>): Seq<T> {
    StepAll(Start(reports, maxFaults, timeout, tip), env)
  }

  lemma StartInv<T>(reports: map<nat, nat>, maxFaults: nat, timeout: nat, tip: nat, env: seq<Event<T>>)
    ensures Inv(RunOf(reports, maxFaults, timeout, tip, env))
  {
    RunInv(Start<T>(reports, maxFaults, timeout, tip), env);
  }

  // ---- tasks and heights ----

  /**
   MAIN RESULT. In every run the pulled tasks are, in order, the tasks done, then the one in
   flight, then the one abandoned by shutdown; nothing is lost, duplicated or reordered.
   */
  lemma TasksConserved<T>(reports: map<nat, nat>, maxFaults: nat, timeout: nat, tip: nat, env: seq<Event<T>>)
    ensures var s := RunOf(reports, maxFaults, timeout, tip, env);
            && s.pulled == Done(s.fates) + InFlight(s.mode) + s.abandoned
            && |InFlight(s.mode)| + |s.abandoned| <= 1
  {
    StartInv(reports, maxFaults, timeout, tip, env);
  }

  /** MAIN RESULT. The assignment map holds exactly the driven height, with the driven task's digest. */
  lemma OneOutstandingHeight<T>(reports: map<nat, nat>, maxFaults: nat, timeout: nat, tip: nat, env: seq<Event<T>>)
    ensures var s := RunOf(reports, maxFaults, timeout, tip, env);
            && (s.mode.Driving? ==>
                  s.assignments == map[s.mode.height := Assignment(s.mode.task.digest, s.mode.task.task)])
            && (!s.mode.Driving? ==> s.assignments == map[])
  {
    StartInv(reports, maxFaults, timeout, tip, env);
  }

  /** No height is handed out twice; a task that is placed again is placed strictly higher. */
  lemma PlacementsIncrease<T>(reports: map<nat, nat>, maxFaults: nat, timeout: nat, tip: nat, env: seq<Event<T>>,
                              i: nat, j: nat)
    requires i < j < |RunOf(reports, maxFaults, timeout, tip, env).placements|
    ensures var s := RunOf(reports, maxFaults, timeout, tip, env);
            && s.placements[i].height < s.placements[j].height
            && s.placements[i].index <= s.placements[j].index < |s.pulled|
            && s.placements[i].task == s.pulled[s.placements[i].index]
            && s.placements[j].task == s.pulled[s.placements[j].index]
  {
    StartInv(reports, maxFaults, timeout, tip, env);
  }

  /** The k-th task done was executed or skipped at the last height it was placed at. */
  ghost predicate FatesPlaced<T>(s: Seq<T>) {
    forall k :: 0 <= k < |s.fates| ==>
      && !s.fates[k].kind.Foreign?
      && Placement(s.fates[k].height, s.fates[k].task, k) in s.placements
      && forall p :: p in s.placements && p.index == k ==> p.height <= s.fates[k].height
  }

  lemma {:induction false} DoneLength<T>(fates: seq<Fate<T>>)
    ensures |Done(fates)| == |fates|
  {
    if fates != [] {
      DoneLength(fates[..|fates| - 1]);
    }
  }

  lemma FinishFatesPlaced<T>(s: Seq<T>, outcome: HeightOutcome)
    requires Inv(s) && FatesPlaced(s) && s.mode.Driving?
    ensures FatesPlaced(Finished(s, outcome))
  {
    LastPlacedHighest(s);
    DoneLength(s.fates);
    assert |s.pulled| == |s.fates| + 1;
    var s', k := Finished(s, outcome), |s.fates|;
    assert s'.placements == s.placements;
    if |s'.fates| > k {
      assert s'.fates[k].height == s.mode.height && s'.fates[k].task == s.mode.task;
      assert Placement(s.mode.height, s.mode.task, k) in s.placements;
    }
  }

  lemma LastPlacedHighest<T>(s: Seq<T>)
    requires Placed(s) && Holding(s) && s.mode.Driving?
    ensures Placement(s.mode.height, s.mode.task, SatSub(|s.pulled|, 1)) in s.placements
    ensures forall p :: p in s.placements ==> p.height <= s.mode.height
  {
    var last := s.placements[|s.placements| - 1];
    assert last in s.placements;
    forall p | p in s.placements ensures p.height <= s.mode.height {
      var i :| 0 <= i < |s.placements| && s.placements[i] == p;
      assert i < |s.placements| - 1 ==> p.height < last.height;
    }
  }

  lemma AssignFatesPlaced<T>(s: Seq<T>, buffered: seq<Resolution>, reporterTip: nat, now: nat)
    requires Inv(s) && FatesPlaced(s) && s.mode.Pending?
    ensures FatesPlaced(Assigned(s, buffered, reporterTip, now))
  {
    DoneLength(s.fates);
    assert |s.pulled| == |s.fates| + 1;
  }

  lemma StepFatesPlaced<T>(s: Seq<T>, e: Event<T>)
    requires Inv(s) && FatesPlaced(s)
    ensures FatesPlaced(Step(s, e))
  {
    if s.mode.Driving? && !e.TipReported? {
      if OutcomeOf(s, e).Some? {
        FinishFatesPlaced(s, OutcomeOf(s, e).value);
      }
    } else if s.mode.Pending? && e.Assign? {
      AssignFatesPlaced(s, e.buffered, e.reporterTip, e.now);
    }
  }

  lemma {:induction false} RunFatesPlaced<T>(s: Seq<T>, env: seq<Event<T>>)
    requires Inv(s) && FatesPlaced(s)
    ensures FatesPlaced(StepAll(s, env))
  {
    if env != [] {
      RunFatesPlaced(s, env[..|env| - 1]);
      RunInv(s, env[..|env| - 1]);
      StepFatesPlaced(StepAll(s, env[..|env| - 1]), env[|env| - 1]);
    }
  }

  /** MAIN RESULT. A task is done only by an executed or skipped resolution of the last height it was placed at. */
  lemma TasksEndWhereLastPlaced<T>(reports: map<nat, nat>, maxFaults: nat, timeout: nat, tip: nat, env: seq<Event<T>>)
    ensures FatesPlaced(RunOf(reports, maxFaults, timeout, tip, env))
  {
    RunFatesPlaced(Start<T>(reports, maxFaults, timeout, tip), env);
  }

  // ---- the beginning and the end of a run ----

  /** A run starts at the reporter's tip or the safe tip, whichever is higher. */
  lemma StartsAtTheTips<T>(reports: map<nat, nat>, maxFaults: nat, timeout: nat, tip: nat)
    ensures var s := Start<T>(reports, maxFaults, timeout, tip);
            s.next >= tip && s.next >= s.SafeTip() && (s.next == tip || s.next == s.SafeTip())
  {
  }

  /** An exhausted source, or a closed channel while driving, stops the sequencer for good: nothing happens after. */
  lemma {:induction false} ShutdownIsFinal<T>(s: Seq<T>, e: Event<T>, env: seq<Event<T>>)
    requires (s.mode.Idle? && e.Exhausted?) || (s.mode.Driving? && e.Closed?)
    ensures Step(s, e).mode.Stopped? && StepAll(Step(s, e), env) == Step(s, e)
    ensures Step(s, e).trace == s.trace && Step(s, e).placements == s.placements && Step(s, e).fates == s.fates
  {
    if env != [] {
      ShutdownIsFinal(s, e, env[..|env| - 1]);
    }
  }

  // ---- how placements end ----

  function Count<X>(s: seq<X>, p: X -> bool): nat {
    if s == [] then 0 else Count(s[..|s| - 1], p) + if p(s[|s| - 1]) then 1 else 0
  }

  lemma CountOneMore<X>(s: seq<X>, x: X, p: X -> bool)
    ensures Count(s + [x], p) == Count(s, p) + if p(x) then 1 else 0
  {
    assert (s + [x])[..|s|] == s;
  }

  /** The drive ended with no resolution of its height: superseded, or shut down. */
  predicate Unresolved(o: HeightOutcome) {
    !o.Resolved?
  }

  /** The height was consumed by a foreign certificate. */
  predicate ConsumedForeign(o: HeightOutcome) {
    o == Resolved(Foreign)
  }

  /** Every placement but the driven one has ended, and its end is accounted for once. */
  ghost predicate PlacementsCounted<T>(s: Seq<T>) {
    && |s.placements| == |s.outcomes| + (if s.mode.Driving? then 1 else 0)
    && Count(s.outcomes, Unresolved) == |s.superseded| + |s.abandoned|
    && |s.outcomes| == |s.fates| + Count(s.outcomes, ConsumedForeign) + Count(s.outcomes, Unresolved)
  }

  lemma FinishCounted<T>(s: Seq<T>, outcome: HeightOutcome)
    requires PlacementsCounted(s) && s.mode.Driving?
    ensures PlacementsCounted(Finished(s, outcome))
  {
    CountOneMore(s.outcomes, outcome, Unresolved);
    CountOneMore(s.outcomes, outcome, ConsumedForeign);
  }

  lemma StartCounted<T>(reports: map<nat, nat>, maxFaults: nat, timeout: nat, tip: nat)
    ensures PlacementsCounted(Start<T>(reports, maxFaults, timeout, tip))
  {
  }

  lemma StepCounted<T>(s: Seq<T>, e: Event<T>)
    requires PlacementsCounted(s)
    ensures PlacementsCounted(Step(s, e))
  {
    if s.mode.Driving? && OutcomeOf(s, e).Some? {
      FinishCounted(s, OutcomeOf(s, e).value);
    }
  }

  /**
   MAIN RESULT. Of all the heights ever assigned, those that ended with no resolution are exactly as
   many as the supersessions plus the one abandoned by shutdown; the others are the one being
   driven, those consumed by foreign certificates, and one per task done.
   */
  lemma {:induction false} UnresolvedPlacements<T>(reports: map<nat, nat>, maxFaults: nat, timeout: nat, tip: nat,
                                                   env: seq<Event<T>>)
    ensures PlacementsCounted(RunOf(reports, maxFaults, timeout, tip, env))
    ensures |RunOf(reports, maxFaults, timeout, tip, env).abandoned| <= 1
  {
    StartInv(reports, maxFaults, timeout, tip, env);
    if env != [] {
      UnresolvedPlacements(reports, maxFaults, timeout, tip, env[..|env| - 1]);
      StepCounted(RunOf(reports, maxFaults, timeout, tip, env[..|env| - 1]), env[|env| - 1]);
    }
  }

  // ---- supersession ----

  lemma {:induction false} IncreasingBound(s: seq<nat>, i: nat)
    requires forall i, j :: 0 <= i < j < |s| ==> s[i] < s[j]
    requires forall i :: 0 <= i < |s| ==> s[i] > 0
    requires i < |s|
    ensures s[i] >= i + 1
  {
    if i > 0 {
      IncreasingBound(s, i - 1);
    }
  }

  /**
   MAIN RESULT. Supersession cannot livelock: between two of them the safe tip strictly grew,
   so a run has no more supersessions than its final safe tip.
   */
  lemma SupersessionsBounded<T>(reports: map<nat, nat>, maxFaults: nat, timeout: nat, tip: nat, env: seq<Event<T>>)
    ensures var s := RunOf(reports, maxFaults, timeout, tip, env);
            && (forall i, j :: 0 <= i < j < |s.superseded| ==> s.superseded[i] < s.superseded[j])
            && |s.superseded| <= s.SafeTip()
  {
    StartInv(reports, maxFaults, timeout, tip, env);
    var s := RunOf(reports, maxFaults, timeout, tip, env);
    if s.superseded != [] {
      IncreasingBound(s.superseded, |s.superseded| - 1);
    }
  }

  // ---- the directive trace ----

  /** One height's broadcasts: identical announcements, then skips. */
  datatype Block<T> = Block(height: nat, announce: T, announces: nat, skips: nat)

  function Repeat<X>(x: X, n: nat): seq<X> {
    if n == 0 then [] else Repeat(x, n - 1) + [x]
  }

  function RenderBlock<T>(b: Block<T>): seq<TaskDirective<T>> {
    Repeat(Announce(b.height, b.announce), b.announces) + Repeat(Skip(b.height), b.skips)
  }

  function Render<T>(blocks: seq<Block<T>>): seq<TaskDirective<T>> {
    if blocks == [] then [] else Render(blocks[..|blocks| - 1]) + RenderBlock(blocks[|blocks| - 1])
  }

  ghost predicate IsTraceOf<T>(s: Seq<T>, blocks: seq<Block<T>>) {
    && s.trace == Render(blocks)
    && |blocks| == |s.placements|
    && (forall i :: 0 <= i < |blocks| ==>
          && blocks[i].height == s.placements[i].height
          && blocks[i].announce == s.placements[i].task.announce
          && blocks[i].announces >= 1)
    && (s.mode.Driving? && !s.mode.skipping && blocks != [] ==> blocks[|blocks| - 1].skips == 0)
  }

  lemma RenderAppend<T>(blocks: seq<Block<T>>, b: Block<T>)
    ensures Render(blocks + [b]) == Render(blocks) + RenderBlock(b)
  {
    assert (blocks + [b])[..|blocks|] == blocks;
  }

  /** One more announcement or one more skip at the end of a block; announcements only before the first skip. */
  function Grown<T>(b: Block<T>, skipping: bool): Block<T> {
    if skipping then b.(skips := b.skips + 1) else b.(announces := b.announces + 1)
  }

  function Sent<T>(b: Block<T>, skipping: bool): TaskDirective<T> {
    if skipping then Skip(b.height) else Announce(b.height, b.announce)
  }

  lemma BlockGrows<T>(b: Block<T>, skipping: bool)
    requires !skipping ==> b.skips == 0
    ensures RenderBlock(Grown(b, skipping)) == RenderBlock(b) + [Sent(b, skipping)]
  {
    if skipping {
      var skip := TaskDirective<T>.Skip(b.height);
      assert Repeat(skip, b.skips + 1) == Repeat(skip, b.skips) + [Sent(b, true)];
    } else {
      assert Repeat(TaskDirective<T>.Skip(b.height), b.skips) == [];
    }
  }

  lemma LastBlockGrows<T>(blocks: seq<Block<T>>, skipping: bool)
    requires blocks != [] && (!skipping ==> blocks[|blocks| - 1].skips == 0)
    ensures var earlier, b := blocks[..|blocks| - 1], blocks[|blocks| - 1];
            Render(earlier + [Grown(b, skipping)]) == Render(blocks) + [Sent(b, skipping)]
  {
    var earlier, b := blocks[..|blocks| - 1], blocks[|blocks| - 1];
    BlockGrows(b, skipping);
    RenderAppend(earlier, Grown(b, skipping));
    AppendAssociates(Render(earlier), RenderBlock(b), [Sent(b, skipping)]);
  }

  lemma AppendAssociates<X>(a: seq<X>, b: seq<X>, c: seq<X>)
    ensures (a + b) + c == a + (b + c)
  {
  }

  lemma TickExtendsBlock<T>(s: Seq<T>, certSeen: bool, now: nat, blocks: seq<Block<T>>) returns (blocks': seq<Block<T>>)
    requires Inv(s) && IsTraceOf(s, blocks) && s.mode.Driving?
    ensures IsTraceOf(Ticked(s, certSeen, now), blocks')
  {
    if s.mode.certified || certSeen {
      return blocks;
    }
    var skipping := s.mode.skipping || now >= s.mode.deadline;
    blocks' := blocks[..|blocks| - 1] + [Grown(blocks[|blocks| - 1], skipping)];
    LastBlockGrows(blocks, skipping);
  }

  lemma AssignOpensBlock<T>(s: Seq<T>, buffered: seq<Resolution>, reporterTip: nat, now: nat, blocks: seq<Block<T>>)
    returns (blocks': seq<Block<T>>)
    requires IsTraceOf(s, blocks) && s.mode.Pending?
    ensures IsTraceOf(Assigned(s, buffered, reporterTip, now), blocks')
  {
    var s' := Assigned(s, buffered, reporterTip, now);
    var b := Block(s'.mode.height, s.mode.task.announce, 1, 0);
    var sent: TaskDirective<T> := Announce(b.height, b.announce);
    assert Repeat(sent, 1) == [sent];
    assert RenderBlock(b) == [sent];
    blocks' := blocks + [b];
    RenderAppend(blocks, b);
  }

  /**
   MAIN RESULT. The whole directive trace of a run is a concatenation of blocks, one per
   assignment and hence with strictly increasing heights: one or more identical announcements
   of the assigned task, then zero or more skips.
   */
  lemma {:induction false} TraceIsBlocks<T>(s: Seq<T>, env: seq<Event<T>>, blocks: seq<Block<T>>)
    returns (blocks': seq<Block<T>>)
    requires Inv(s) && IsTraceOf(s, blocks)
    ensures IsTraceOf(StepAll(s, env), blocks')
    ensures forall i, j :: 0 <= i < j < |blocks'| ==> blocks'[i].height < blocks'[j].height
  {
    RunInv(s, env);
    if env == [] {
      blocks' := blocks;
    } else {
      var p, e := env[..|env| - 1], env[|env| - 1];
      RunInv(s, p);
      var before := StepAll(s, p);
      blocks' := TraceIsBlocks(s, p, blocks);
      blocks' := StepBlocks(before, e, blocks');
    }
  }

  lemma StepBlocks<T>(s: Seq<T>, e: Event<T>, blocks: seq<Block<T>>) returns (blocks': seq<Block<T>>)
    requires Inv(s) && IsTraceOf(s, blocks)
    ensures IsTraceOf(Step(s, e), blocks')
  {
    blocks' := blocks;
    if s.mode.Pending? && e.Assign? {
      blocks' := AssignOpensBlock(s, e.buffered, e.reporterTip, e.now, blocks);
    } else if s.mode.Driving? && e.Tick? && OutcomeOf(s, e).None? {
      blocks' := TickExtendsBlock(s, e.certSeen, e.now, blocks);
    } else {
      OtherEventsSendNothing(s, e);
    }
  }

  /**
   MAIN RESULT. Every tick that saw no certificate and does not supersede the height broadcasts exactly one
   directive: the announcement again, or a Skip once a tick of the drive was late.
   */
  lemma TickSendsOne<T>(s: Seq<T>, now: nat)
    requires s.mode.Driving? && !s.mode.certified && s.SafeTip() <= s.mode.height
    ensures var s', h := Step(s, Tick(false, now)), s.mode.height;
            && s'.mode.Driving? && s'.mode.height == h && s'.mode.task == s.mode.task
            && (!s.mode.skipping && now < s.mode.deadline ==>
                  s'.trace == s.trace + [Announce(h, s.mode.task.announce)] && !s'.mode.skipping)
            && (s.mode.skipping || now >= s.mode.deadline ==> s'.trace == s.trace + [Skip(h)] && s'.mode.skipping)
  {
  }

  /** The ticks of one drive that broadcast: those before the first late one, and those from it on. */
  datatype Tally = Tally(onTime: nat, late: nat)

  /** In state s the event is a tick that found no certificate and does not supersede. */
  ghost predicate Unanswered<T>(s: Seq<T>, e: Event<T>) {
    s.mode.Driving? && e.Tick? && !e.certSeen && !s.mode.certified && s.SafeTip() <= s.mode.height
  }

  /** The ticks of the drive of placement j in the run of env from s0. */
  ghost function TallyOf<T>(s0: Seq<T>, env: seq<Event<T>>, j: nat): Tally {
    if env == [] then Tally(0, 0)
    else
      var before, s, e := TallyOf(s0, env[..|env| - 1], j), StepAll(s0, env[..|env| - 1]), env[|env| - 1];
      if |s.placements| != j + 1 || !Unanswered(s, e) then before
      else if before.late > 0 || e.now >= s.mode.deadline then before.(late := before.late + 1)
      else before.(onTime := before.onTime + 1)
  }

  function BlockOf<T>(p: Placement<T>, t: Tally): Block<T> {
    Block(p.height, p.task.announce, 1 + t.onTime, t.late)
  }

  /** The block of placement j: announced when assigned and at every tick on time, skipped at every late one. */
  ghost function CountedBlock<T>(s0: Seq<T>, env: seq<Event<T>>, j: nat): Block<T>
    requires j < |StepAll(s0, env).placements|
  {
    BlockOf(StepAll(s0, env).placements[j], TallyOf(s0, env, j))
  }

  ghost function CountedBlocks<T>(s0: Seq<T>, env: seq<Event<T>>): seq<Block<T>> {
    seq(|StepAll(s0, env).placements|, j requires 0 <= j < |StepAll(s0, env).placements| => CountedBlock(s0, env, j))
  }

  /** Skipping is a latch: it is on exactly when a tick of the drive was late. */
  ghost predicate LatchOk<T>(s0: Seq<T>, env: seq<Event<T>>) {
    var s := StepAll(s0, env);
    s.mode.Driving? ==> s.placements != [] && (s.mode.skipping <==> TallyOf(s0, env, |s.placements| - 1).late > 0)
  }

  lemma {:induction false} NotYetPlaced<T>(s0: Seq<T>, env: seq<Event<T>>, j: nat)
    requires |StepAll(s0, env).placements| <= j
    ensures TallyOf(s0, env, j) == Tally(0, 0)
  {
    if env != [] {
      var p := env[..|env| - 1];
      PlacementsKept(StepAll(s0, p), env[|env| - 1]);
      NotYetPlaced(s0, p, j);
    }
  }

  lemma PlacementsKept<T>(s: Seq<T>, e: Event<T>)
    ensures s.placements <= Step(s, e).placements
    ensures Step(s, e).placements != s.placements ==> s.mode.Pending? && e.Assign?
  {
  }

  /** A tally moves only for the placement being driven, by a tick that broadcasts. */
  lemma TallyOneMore<T>(s0: Seq<T>, p: seq<Event<T>>, e: Event<T>, j: nat)
    ensures var s, before := StepAll(s0, p), TallyOf(s0, p, j);
            TallyOf(s0, p + [e], j) ==
            if |s.placements| != j + 1 || !Unanswered(s, e) then before
            else if before.late > 0 || e.now >= s.mode.deadline then before.(late := before.late + 1)
            else before.(onTime := before.onTime + 1)
  {
    assert (p + [e])[..|p|] == p;
  }

  lemma StepAllOneMore<T>(s0: Seq<T>, p: seq<Event<T>>, e: Event<T>)
    ensures StepAll(s0, p + [e]) == Step(StepAll(s0, p), e)
  {
    assert (p + [e])[..|p|] == p;
  }

  /** A placement that is not driven, or an event that does not broadcast, leaves the block as it was. */
  lemma SameBlock<T>(s0: Seq<T>, p: seq<Event<T>>, e: Event<T>, j: nat)
    requires j < |StepAll(s0, p).placements|
    requires j + 1 < |StepAll(s0, p).placements| || !Unanswered(StepAll(s0, p), e)
    ensures j < |StepAll(s0, p + [e]).placements| && CountedBlock(s0, p + [e], j) == CountedBlock(s0, p, j)
  {
    StepAllOneMore(s0, p, e);
    PlacementsKept(StepAll(s0, p), e);
    TallyOneMore(s0, p, e, j);
  }

  /** The driven placement is the last one. */
  ghost predicate DrivenLast<T>(s: Seq<T>) {
    s.mode.Driving? ==>
      && s.placements != []
      && s.placements[|s.placements| - 1].height == s.mode.height
      && s.placements[|s.placements| - 1].task == s.mode.task
  }

  /** Whether a tick broadcasts the Skip. */
  ghost predicate SendsSkip<T>(s: Seq<T>, e: Event<T>)
    requires Unanswered(s, e)
  {
    s.mode.skipping || e.now >= s.mode.deadline
  }

  lemma TickSends<T>(s: Seq<T>, e: Event<T>)
    requires Unanswered(s, e)
    ensures var s' := Step(s, e);
            && s'.placements == s.placements && s'.mode.Driving? && s'.mode.skipping == SendsSkip(s, e)
            && s'.trace == s.trace + [if SendsSkip(s, e) then Skip(s.mode.height)
                                      else Announce(s.mode.height, s.mode.task.announce)]
  {
    TickSendsOne(s, e.now);
    OtherwisePlacedNothing(s, e);
  }

  /** The tally of the driven placement moves with the latch. */
  lemma TickTallied<T>(s0: Seq<T>, p: seq<Event<T>>, e: Event<T>)
    requires var s := StepAll(s0, p); s.placements != [] && Unanswered(s, e)
    requires LatchOk(s0, p)
    ensures var s, last := StepAll(s0, p), |StepAll(s0, p).placements| - 1;
            var before, after := TallyOf(s0, p, last), TallyOf(s0, p + [e], last);
            if SendsSkip(s, e) then after == before.(late := before.late + 1)
            else before.late == 0 && after == before.(onTime := before.onTime + 1)
  {
    TallyOneMore(s0, p, e, |StepAll(s0, p).placements| - 1);
  }

  lemma LatchAfterTick<T>(s0: Seq<T>, p: seq<Event<T>>, e: Event<T>)
    requires var s := StepAll(s0, p); s.placements != [] && Unanswered(s, e)
    requires LatchOk(s0, p)
    ensures LatchOk(s0, p + [e])
  {
    StepAllOneMore(s0, p, e);
    TickSends(StepAll(s0, p), e);
    TickTallied(s0, p, e);
  }

  lemma TickPlacesNothing<T>(s0: Seq<T>, p: seq<Event<T>>, e: Event<T>)
    requires Unanswered(StepAll(s0, p), e)
    ensures StepAll(s0, p + [e]).placements == StepAll(s0, p).placements
  {
    StepAllOneMore(s0, p, e);
    OtherwisePlacedNothing(StepAll(s0, p), e);
  }

  lemma TallyGrows<T>(p: Placement<T>, before: Tally, after: Tally, skipping: bool)
    requires if skipping then after == before.(late := before.late + 1)
             else before.late == 0 && after == before.(onTime := before.onTime + 1)
    ensures BlockOf(p, after) == Grown(BlockOf(p, before), skipping)
    ensures !skipping ==> BlockOf(p, before).skips == 0
  {
  }

  /** A tick that broadcasts makes the last block grow. */
  lemma GrownBlock<T>(s0: Seq<T>, p: seq<Event<T>>, e: Event<T>)
    requires var s := StepAll(s0, p); s.placements != [] && Unanswered(s, e)
    requires LatchOk(s0, p)
    ensures var s, last := StepAll(s0, p), |StepAll(s0, p).placements| - 1;
            && StepAll(s0, p + [e]).placements == s.placements
            && CountedBlock(s0, p + [e], last) == Grown(CountedBlock(s0, p, last), SendsSkip(s, e))
            && (!SendsSkip(s, e) ==> CountedBlock(s0, p, last).skips == 0)
  {
    var s, last := StepAll(s0, p), |StepAll(s0, p).placements| - 1;
    TickPlacesNothing(s0, p, e);
    TickTallied(s0, p, e);
    TallyGrows(s.placements[last], TallyOf(s0, p, last), TallyOf(s0, p + [e], last), SendsSkip(s, e));
  }

  lemma LastReplaced<X>(before: seq<X>, after: seq<X>, x: X)
    requires |before| == |after| > 0 && after[|after| - 1] == x
    requires forall j :: 0 <= j < |before| - 1 ==> after[j] == before[j]
    ensures after == before[..|before| - 1] + [x]
  {
  }

  lemma GrownBlocks<T>(s0: Seq<T>, p: seq<Event<T>>, e: Event<T>)
    requires var s := StepAll(s0, p); s.placements != [] && Unanswered(s, e)
    requires LatchOk(s0, p)
    ensures var before, last := CountedBlocks(s0, p), |StepAll(s0, p).placements| - 1;
            CountedBlocks(s0, p + [e]) == before[..last] + [Grown(before[last], SendsSkip(StepAll(s0, p), e))]
  {
    var before, after := CountedBlocks(s0, p), CountedBlocks(s0, p + [e]);
    GrownBlock(s0, p, e);
    forall j | 0 <= j < |before| - 1 ensures after[j] == before[j] {
      SameBlock(s0, p, e, j);
    }
    LastReplaced(before, after, CountedBlock(s0, p + [e], |before| - 1));
  }

  /** The tick broadcasts for the driven placement, whose block grows. */
  lemma CountUnanswered<T>(s0: Seq<T>, p: seq<Event<T>>, e: Event<T>)
    requires var s := StepAll(s0, p); DrivenLast(s) && Unanswered(s, e)
    requires LatchOk(s0, p) && StepAll(s0, p).trace == Render(CountedBlocks(s0, p))
    ensures LatchOk(s0, p + [e]) && StepAll(s0, p + [e]).trace == Render(CountedBlocks(s0, p + [e]))
  {
    var s, before := StepAll(s0, p), CountedBlocks(s0, p);
    LatchAfterTick(s0, p, e);
    GrownBlock(s0, p, e);
    GrownBlocks(s0, p, e);
    LastBlockGrows(before, SendsSkip(s, e));
    TickSends(s, e);
    StepAllOneMore(s0, p, e);
    assert before[|before| - 1] == CountedBlock(s0, p, |before| - 1);
  }

  lemma OtherwisePlacedNothing<T>(s: Seq<T>, e: Event<T>)
    requires !(s.mode.Pending? && e.Assign?)
    ensures Step(s, e).placements == s.placements
  {
  }

  lemma AssignOpens<T>(s: Seq<T>, e: Event<T>)
    requires s.mode.Pending? && e.Assign?
    ensures var s' := Step(s, e);
            && s'.mode.Driving? && !s'.mode.skipping && |s'.placements| == |s.placements| + 1
            && var p := s'.placements[|s.placements|]; s'.trace == s.trace + [Announce(p.height, p.task.announce)]
  {
  }

  /** Nothing was counted yet for the placement an assignment makes. */
  lemma OpenedTally<T>(s0: Seq<T>, p: seq<Event<T>>, e: Event<T>)
    requires StepAll(s0, p).mode.Pending?
    ensures TallyOf(s0, p + [e], |StepAll(s0, p).placements|) == Tally(0, 0)
  {
    NotYetPlaced(s0, p, |StepAll(s0, p).placements|);
    TallyOneMore(s0, p, e, |StepAll(s0, p).placements|);
  }

  /** An assignment opens a block with its first announcement. */
  lemma OpenedBlock<T>(s0: Seq<T>, p: seq<Event<T>>, e: Event<T>) returns (b: Block<T>)
    requires StepAll(s0, p).mode.Pending? && e.Assign?
    ensures var s, s' := StepAll(s0, p), StepAll(s0, p + [e]);
            && |s'.placements| == |s.placements| + 1 && s'.trace == s.trace + [Announce(b.height, b.announce)]
            && CountedBlock(s0, p + [e], |s.placements|) == b && b.announces == 1 && b.skips == 0
            && LatchOk(s0, p + [e])
  {
    StepAllOneMore(s0, p, e);
    AssignOpens(StepAll(s0, p), e);
    OpenedTally(s0, p, e);
    b := CountedBlock(s0, p + [e], |StepAll(s0, p).placements|);
  }

  lemma CountAssigned<T>(s0: Seq<T>, p: seq<Event<T>>, e: Event<T>)
    requires StepAll(s0, p).mode.Pending? && e.Assign?
    requires StepAll(s0, p).trace == Render(CountedBlocks(s0, p))
    ensures LatchOk(s0, p + [e]) && StepAll(s0, p + [e]).trace == Render(CountedBlocks(s0, p + [e]))
  {
    var before := CountedBlocks(s0, p);
    var b := OpenedBlock(s0, p, e);
    FirstAnnouncement(b);
    RenderAppend(before, b);
    forall j | 0 <= j < |before| ensures CountedBlocks(s0, p + [e])[j] == before[j] {
      SameBlock(s0, p, e, j);
    }
    assert CountedBlocks(s0, p + [e]) == before + [b];
  }

  lemma FirstAnnouncement<T>(b: Block<T>)
    requires b.announces == 1 && b.skips == 0
    ensures RenderBlock(b) == [TaskDirective<T>.Announce(b.height, b.announce)]
  {
    var sent: TaskDirective<T> := Announce(b.height, b.announce);
    assert Repeat(sent, 1) == Repeat(sent, 0) + [sent];
    assert Repeat(TaskDirective<T>.Skip(b.height), 0) == [];
  }

  /** Nothing else broadcasts or counts. */
  lemma CountNothing<T>(s0: Seq<T>, p: seq<Event<T>>, e: Event<T>)
    requires LatchOk(s0, p) && StepAll(s0, p).trace == Render(CountedBlocks(s0, p))
    requires !(StepAll(s0, p).mode.Pending? && e.Assign?) && !Unanswered(StepAll(s0, p), e)
    ensures LatchOk(s0, p + [e]) && StepAll(s0, p + [e]).trace == Render(CountedBlocks(s0, p + [e]))
  {
    var s := StepAll(s0, p);
    StepAllOneMore(s0, p, e);
    SilentStep(s, e);
    forall j | 0 <= j < |s.placements| ensures CountedBlocks(s0, p + [e])[j] == CountedBlocks(s0, p)[j] {
      SameBlock(s0, p, e, j);
    }
    assert CountedBlocks(s0, p + [e]) == CountedBlocks(s0, p);
    if s.mode.Driving? {
      TallyOneMore(s0, p, e, |s.placements| - 1);
    }
  }

  lemma SilentStep<T>(s: Seq<T>, e: Event<T>)
    requires !(s.mode.Pending? && e.Assign?) && !Unanswered(s, e)
    ensures Step(s, e).trace == s.trace && Step(s, e).placements == s.placements
    ensures Step(s, e).mode.Driving? ==> s.mode.Driving? && Step(s, e).mode.skipping == s.mode.skipping
  {
  }

  /**
   MAIN RESULT (the broadcasts, counted). In every run the directive trace is one block per assignment, in
   order: the height is announced once when it is assigned and once more at every tick that saw no
   certificate and did not supersede it, up to the first late one, and skipped at every such tick from
   that one on. No broadcast is left out and none is added.
   */
  lemma {:induction false} TraceCounted<T>(s0: Seq<T>, env: seq<Event<T>>)
    requires Inv(s0) && s0.mode.Idle? && s0.placements == [] && s0.trace == []
    ensures StepAll(s0, env).trace == Render(CountedBlocks(s0, env))
    ensures LatchOk(s0, env)
  {
    if env != [] {
      var p, e := env[..|env| - 1], env[|env| - 1];
      assert env == p + [e];
      TraceCounted(s0, p);
      RunInv(s0, p);
      var s := StepAll(s0, p);
      if s.mode.Pending? && e.Assign? {
        CountAssigned(s0, p, e);
      } else if Unanswered(s, e) {
        CountUnanswered(s0, p, e);
      } else {
        CountNothing(s0, p, e);
      }
    }
  }

  lemma OtherEventsSendNothing<T>(s: Seq<T>, e: Event<T>)
    requires !(s.mode.Pending? && e.Assign?)
    requires !(s.mode.Driving? && e.Tick? && OutcomeOf(s, e).None?)
    ensures Step(s, e).trace == s.trace && Step(s, e).placements == s.placements
    ensures Step(s, e).mode.Driving? ==> Step(s, e).mode == s.mode
  {
  }

  /** What a run sends from some point on concerns only heights above h. */
  ghost predicate SilentAt<T>(s: Seq<T>, h: nat, from: nat) {
    && s.next > h
    && (s.mode.Driving? ==> s.mode.height > h || (s.mode.height == h && s.mode.certified))
    && from <= |s.trace|
    && (forall i :: from <= i < |s.trace| ==> s.trace[i].height > h)
  }

  lemma StepSilent<T>(s: Seq<T>, e: Event<T>, h: nat, from: nat)
    requires SilentAt(s, h, from)
    ensures SilentAt(Step(s, e), h, from)
  {
    if (s.mode.Pending? && e.Assign?) || (s.mode.Idle? && (e.Pull? || e.Exhausted?)) {
      DrainedGrows(s.next, e.buffered);
    }
  }

  /** MAIN RESULT. Once a tick saw the certificate of the driven height, nothing is ever sent for it again. */
  lemma {:induction false} NothingSentAfterCertificate<T>(s: Seq<T>, now: nat, env: seq<Event<T>>, i: nat)
    requires Inv(s) && s.mode.Driving?
    requires |s.trace| <= i < |StepAll(Step(s, Tick(true, now)), env).trace|
    ensures StepAll(Step(s, Tick(true, now)), env).trace[i].height > s.mode.height
  {
    var s1 := Step(s, Tick(true, now));
    assert SilentAt(s1, s.mode.height, |s.trace|);
    RunSilent(s1, env, s.mode.height, |s.trace|);
  }

  lemma {:induction false} RunSilent<T>(s: Seq<T>, env: seq<Event<T>>, h: nat, from: nat)
    requires SilentAt(s, h, from)
    ensures SilentAt(StepAll(s, env), h, from)
  {
    if env != [] {
      RunSilent(s, env[..|env| - 1], h, from);
      StepSilent(StepAll(s, env[..|env| - 1]), env[|env| - 1], h, from);
    }
  }

  /** From position `from` on, everything sent for h is a Skip. */
  ghost predicate OnlySkipsAt<T>(s: Seq<T>, h: nat, from: nat) {
    && s.next > h
    && (s.mode.Driving? ==> s.mode.height > h || (s.mode.height == h && s.mode.skipping))
    && from <= |s.trace|
    && (forall i :: from <= i < |s.trace| && s.trace[i].height == h ==> s.trace[i] == Skip(h))
  }

  lemma {:induction false} RunOnlySkips<T>(s: Seq<T>, env: seq<Event<T>>, h: nat, from: nat)
    requires OnlySkipsAt(s, h, from)
    ensures OnlySkipsAt(StepAll(s, env), h, from)
  {
    if env != [] {
      RunOnlySkips(s, env[..|env| - 1], h, from);
      StepOnlySkips(StepAll(s, env[..|env| - 1]), env[|env| - 1], h, from);
    }
  }

  lemma StepOnlySkips<T>(s: Seq<T>, e: Event<T>, h: nat, from: nat)
    requires OnlySkipsAt(s, h, from)
    ensures OnlySkipsAt(Step(s, e), h, from)
  {
    if (s.mode.Pending? && e.Assign?) || (s.mode.Idle? && (e.Pull? || e.Exhausted?)) {
      DrainedGrows(s.next, e.buffered);
    }
  }

  /**
   MAIN RESULT. The first tick past the deadline abandons the height for good: unless the height
   certified or is superseded that tick sends Skip, and in every continuation whatever else is
   sent for the height is a Skip too.
   */
  lemma LateTickAbandons<T>(s: Seq<T>, now: nat, env: seq<Event<T>>, i: nat)
    requires Inv(s) && s.mode.Driving? && now >= s.mode.deadline
    requires !s.mode.certified && s.SafeTip() <= s.mode.height
    ensures var s' := StepAll(Step(s, Tick(false, now)), env);
            && |s.trace| < |s'.trace| && s'.trace[|s.trace|] == Skip(s.mode.height)
            && (|s.trace| <= i < |s'.trace| && s'.trace[i].height == s.mode.height ==> s'.trace[i].Skip?)
  {
    var s1 := Step(s, Tick(false, now));
    assert OnlySkipsAt(s1, s.mode.height, |s.trace|);
    RunOnlySkips(s1, env, s.mode.height, |s.trace|);
    TraceGrows(s1, env);
  }

  lemma {:induction false} TraceGrows<T>(s: Seq<T>, env: seq<Event<T>>)
    ensures s.trace <= StepAll(s, env).trace
  {
    if env != [] {
      TraceGrows(s, env[..|env| - 1]);
      StepTraceGrows(StepAll(s, env[..|env| - 1]), env[|env| - 1]);
    }
  }

  lemma StepTraceGrows<T>(s: Seq<T>, e: Event<T>)
    ensures s.trace <= Step(s, e).trace
  {
  }

  /** MAIN RESULT. An assigned height is at least the reporter tip, the safe tip, and past every resolution drained. */
  lemma AssignedHeightIsFresh<T>(s: Seq<T>, buffered: seq<Resolution>, reporterTip: nat, now: nat)
    requires Inv(s) && s.mode.Pending?
    ensures var s' := Step(s, Assign(buffered, reporterTip, now));
            && s'.mode.Driving? && s'.mode.task == s.mode.task
            && s'.mode.height >= reporterTip && s'.mode.height >= s.SafeTip()
            && (forall r :: r in buffered ==> r.height < s'.mode.height)
            && (forall p :: p in s.placements ==> p.height < s'.mode.height)
  {
    DrainedGrows(s.next, buffered);
  }

  /** An assigned height is the least that is possible: no height is left out without a reason. */
  lemma AssignedHeightIsLeast<T>(s: Seq<T>, buffered: seq<Resolution>, reporterTip: nat, now: nat, h: nat)
    requires s.mode.Pending? && h >= s.next && h >= reporterTip && h >= s.SafeTip()
    requires forall r :: r in buffered ==> r.height < h
    ensures Step(s, Assign(buffered, reporterTip, now)).mode.height <= h
    ensures var s' := Step(s, Assign(buffered, reporterTip, now)); s'.next == s'.mode.height + 1
  {
    DrainedIsLeast(s.next, buffered, h);
  }

  lemma {:induction false} DrainedIsLeast(next: nat, buffered: seq<Resolution>, h: nat)
    requires h >= next && forall r :: r in buffered ==> r.height < h
    ensures Drained(next, buffered) <= h
  {
    if buffered != [] {
      assert buffered[|buffered| - 1] in buffered;
      DrainedIsLeast(next, buffered[..|buffered| - 1], h);
    }
  }

  /** The dispositions the sequencer takes off the channel at an event. */
  function Observed<T>(s: Seq<T>, e: Event<T>): seq<Resolution> {
    match e
    case Pull(buffered, _) => if s.mode.Idle? then buffered else []
    case Exhausted(buffered) => if s.mode.Idle? then buffered else []
    case Assign(buffered, _, _) => if s.mode.Pending? then buffered else []
    case Recv(r) => if s.mode.Driving? then [r] else []
    case _ => []
  }

  /**
   The next height moves for a reason only: past what was observed, to the reporter's tip or the safe tip at
   an assignment, and past what was assigned.
   */
  lemma NextMovesForAReason<T>(s: Seq<T>, e: Event<T>)
    requires Inv(s)
    ensures var next := Step(s, e).next;
            || next == s.next
            || (exists r :: r in Observed(s, e) && next == r.height + 1)
            || (e.Assign? && s.mode.Pending? &&
                (next == s.next + 1 || next == e.reporterTip + 1 || next == s.SafeTip() + 1 ||
                 exists r :: r in Observed(s, e) && next == r.height + 2))
  {
    if e.Pull? || e.Exhausted? || e.Assign? {
      DrainedIsReached(s.next, e.buffered);
    } else if e.Recv? && s.mode.Driving? {
      assert e.resolution in Observed(s, e);
    }
  }

  lemma {:induction false} DrainedIsReached(next: nat, buffered: seq<Resolution>)
    ensures Drained(next, buffered) == next || exists r :: r in buffered && Drained(next, buffered) == r.height + 1
  {
    if buffered != [] {
      var p := buffered[..|buffered| - 1];
      assert buffered == p + [buffered[|buffered| - 1]];
      DrainedIsReached(next, p);
      assert buffered[|buffered| - 1] in buffered;
    }
  }

  /** From placement number `from` on, only heights above h are handed out. */
  ghost predicate OnlyAbove<T>(s: Seq<T>, h: nat, from: nat) {
    && s.next > h && from <= |s.placements|
    && forall i :: from <= i < |s.placements| ==> s.placements[i].height > h
  }

  lemma StepOnlyAbove<T>(s: Seq<T>, e: Event<T>, h: nat, from: nat)
    requires OnlyAbove(s, h, from)
    ensures OnlyAbove(Step(s, e), h, from)
  {
    if (s.mode.Pending? && e.Assign?) || (s.mode.Idle? && (e.Pull? || e.Exhausted?)) {
      DrainedGrows(s.next, e.buffered);
    }
  }

  lemma {:induction false} RunOnlyAbove<T>(s: Seq<T>, env: seq<Event<T>>, h: nat, from: nat)
    requires OnlyAbove(s, h, from)
    ensures OnlyAbove(StepAll(s, env), h, from)
  {
    if env != [] {
      RunOnlyAbove(s, env[..|env| - 1], h, from);
      StepOnlyAbove(StepAll(s, env[..|env| - 1]), env[|env| - 1], h, from);
    }
  }

  /** MAIN RESULT. A height whose resolution was received, its own or another one's, is never assigned afterwards. */
  lemma ResolvedHeightNeverAssigned<T>(s: Seq<T>, r: Resolution, env: seq<Event<T>>, i: nat)
    requires Inv(s) && s.mode.Driving?
    requires |s.placements| <= i < |StepAll(Step(s, Recv(r)), env).placements|
    ensures StepAll(Step(s, Recv(r)), env).placements[i].height > r.height
  {
    RunOnlyAbove(Step(s, Recv(r)), env, r.height, |s.placements|);
  }

  /** MAIN RESULT. The same of every disposition ever observed: drained while idle or pending, or received. */
  lemma ObservedHeightNeverAssigned<T>(s: Seq<T>, e: Event<T>, r: Resolution, env: seq<Event<T>>, i: nat)
    requires Inv(s) && r in Observed(s, e)
    requires |s.placements| <= i < |StepAll(Step(s, e), env).placements|
    ensures StepAll(Step(s, e), env).placements[i].height > r.height
  {
    if e.Pull? || e.Exhausted? || e.Assign? {
      DrainedGrows(s.next, e.buffered);
    }
    RunOnlyAbove(Step(s, e), env, r.height, |s.placements|);
  }

  /**
   MAIN RESULT. The round timeout counts from the assignment: while no tick is a timeout or more after it,
   only announcements are sent for the height, and such a tick, without a certificate and without
   supersession, sends Skip.
   */
  lemma TimeoutFromAssignment<T>(s: Seq<T>, buffered: seq<Resolution>, reporterTip: nat, now: nat,
                                 env: seq<Event<T>>, late: nat)
    requires Inv(s) && s.mode.Pending?
    requires forall e :: e in env && e.Tick? ==> e.now < now + s.timeout
    ensures var s1 := Step(s, Assign(buffered, reporterTip, now)); var s2 := StepAll(s1, env); var h := s1.mode.height;
            && (forall i :: |s1.trace| <= i < |s2.trace| && s2.trace[i].height == h ==> s2.trace[i].Announce?)
            && ((s2.mode.Driving? && s2.mode.height == h && !s2.mode.certified && s2.SafeTip() <= h &&
                 late >= now + s.timeout) ==>
                  Step(s2, Tick(false, late)).trace == s2.trace + [Skip(h)])
  {
    var s1 := Step(s, Assign(buffered, reporterTip, now));
    StepKeepsInv(s, Assign(buffered, reporterTip, now));
    NoSkipBeforeDeadline(s1, env, s1.mode.height, now + s.timeout);
  }

  /** While h is driven it is not skipping, and from position `from` on everything sent for h is an announcement. */
  ghost predicate OnlyAnnounces<T>(s: Seq<T>, h: nat, deadline: nat, from: nat) {
    && s.next > h
    && (s.mode.Driving? ==>
          s.mode.height > h || (s.mode.height == h && !s.mode.skipping && s.mode.deadline == deadline))
    && from <= |s.trace|
    && (forall i :: from <= i < |s.trace| && s.trace[i].height == h ==> s.trace[i].Announce?)
  }

  lemma StepOnlyAnnounces<T>(s: Seq<T>, e: Event<T>, h: nat, deadline: nat, from: nat)
    requires OnlyAnnounces(s, h, deadline, from)
    requires e.Tick? ==> e.now < deadline
    ensures OnlyAnnounces(Step(s, e), h, deadline, from)
  {
    if (s.mode.Pending? && e.Assign?) || (s.mode.Idle? && (e.Pull? || e.Exhausted?)) {
      DrainedGrows(s.next, e.buffered);
    }
  }

  /** MAIN RESULT. While no tick is past its deadline, a height is never skipped: only announcements are sent for it. */
  lemma {:induction false} NoSkipBeforeDeadline<T>(s: Seq<T>, env: seq<Event<T>>, h: nat, deadline: nat)
    requires Inv(s) && s.mode.Driving? && s.mode.height == h && s.mode.deadline == deadline && !s.mode.skipping
    requires forall e :: e in env && e.Tick? ==> e.now < deadline
    ensures OnlyAnnounces(StepAll(s, env), h, deadline, |s.trace|)
  {
    if env != [] {
      NoSkipBeforeDeadline(s, env[..|env| - 1], h, deadline);
      StepOnlyAnnounces(StepAll(s, env[..|env| - 1]), env[|env| - 1], h, deadline, |s.trace|);
    }
  }
}
