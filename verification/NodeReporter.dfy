/**
 The node's sink for engine activity: counts certificates once per height across journal
 replays, taps them to the application, tracks the tip and prunes the task book behind it.
 */
module NodeReporter {
  import opened Common
  import opened Consensus
  import opened Wire
  import Book = TaskBook
  import History = TaskBookHistory

  datatype Activity = Certified(height: nat, digest: Digest) | Tip(height: nat) | Ack(height: nat)

  datatype Observation = Observation(height: nat, digest: Digest)

  datatype Node = Node(
    tip: nat,
    certified: set<nat>,
    certifiedCount: nat,
    skippedCount: nat,
    tapped: seq<Observation>,
    floors: seq<nat>
  )

  const INITIAL: Node := Node(0, {}, 0, 0, [], [])

  function Advanced(n: Node, height: nat): Node {
    if height <= n.tip then n
    else
      var floor := SatSub(height, PRUNE_SLACK);
      if floor > 0 then
        n.(tip := height, floors := n.floors + [floor], certified := set h | h in n.certified && h >= floor)
      else n.(tip := height)
  }

  function Step(n: Node, namespace: seq<Byte>, tap: bool, a: Activity): Node {
    match a
    case Ack(_) => n
    case Tip(height) => Advanced(n, height)
    case Certified(height, digest) =>
      if height in n.certified then n
      else
        Advanced(n.(certified := n.certified + {height},
                    certifiedCount := n.certifiedCount + 1,
                    skippedCount := n.skippedCount + if digest == SkipDigest(namespace, height) then 1 else 0,
                    tapped := if tap then n.tapped + [Observation(height, digest)] else n.tapped), height)
  }

  function After(namespace: seq<Byte>, tap: bool, log: seq<Activity>): Node {
    if log == [] then INITIAL
    else Step(After(namespace, tap, log[..|log| - 1]), namespace, tap, log[|log| - 1])
  }

  class NodeReporter {
    const namespace: seq<Byte>
    const tap: bool
    var tipHandle: nat
    var certified: set<nat>
    var certifiedCounter: nat
    var skippedCounter: nat
    /** Everything sent to the tap, in order. */
    var tapped: seq<Observation>
    /** The prune requests sent to the task book, in order. */
    var floors: seq<nat>

    function State(): Node
      reads this
    {
      Node(tipHandle, certified, certifiedCounter, skippedCounter, tapped, floors)
    }

    constructor (namespace: seq<Byte>, tap: bool)
      ensures this.namespace == namespace && this.tap == tap && State() == INITIAL
    {
      this.namespace, this.tap := namespace, tap;
      tipHandle, certified, certifiedCounter, skippedCounter, tapped, floors := 0, {}, 0, 0, [], [];
    }

    method Advance(height: nat)
      modifies this`tipHandle, this`floors, this`certified
      ensures State() == Advanced(old(State()), height)
    {
      if height <= tipHandle {
        return;
      }
      tipHandle := height;
      var floor := SatSub(height, PRUNE_SLACK);
      if floor > 0 {
        floors := floors + [floor];
        certified := set h | h in certified && h >= floor;
      }
    }

    /** The actor loop over a mailbox that delivers `mailbox` and then closes. */
    method Run(mailbox: seq<Activity>)
      requires State() == INITIAL
      modifies this
      ensures State() == After(namespace, tap, mailbox)
    {
      for i := 0 to |mailbox|
        invariant State() == After(namespace, tap, mailbox[..i])
      {
        assert mailbox[..i + 1][..i] == mailbox[..i];
        match mailbox[i] {
          case Certified(height, digest) =>
            if height !in certified {
              certified := certified + {height};
              certifiedCounter := certifiedCounter + 1;
              var skipped := digest == SkipDigest(namespace, height);
              if skipped {
                skippedCounter := skippedCounter + 1;
              }
              if tap {
                tapped := tapped + [Observation(height, digest)];
              }
              Advance(height);
            }
          case Tip(height) => Advance(height);
          case Ack(_) =>
        }
      }
      assert mailbox[..|mailbox|] == mailbox;
    }
  }

  // ---- the history a run is judged by ----

  function HighestTip(log: seq<Activity>): nat {
    if log == [] then 0
    else
      var a := log[|log| - 1];
      Max(HighestTip(log[..|log| - 1]), if a.Ack? then 0 else a.height)
  }

  function CertifiedHeights(log: seq<Activity>): set<nat> {
    if log == [] then {}
    else
      var a := log[|log| - 1];
      CertifiedHeights(log[..|log| - 1]) + if a.Certified? then {a.height} else {}
  }

  /** The first certificate of each height, in order. */
  function FirstObservations(log: seq<Activity>): seq<Observation> {
    if log == [] then []
    else
      var p, a := log[..|log| - 1], log[|log| - 1];
      FirstObservations(p) +
      if a.Certified? && a.height !in CertifiedHeights(p) then [Observation(a.height, a.digest)] else []
  }

  function SkippedOf(namespace: seq<Byte>, o: seq<Observation>): set<nat> {
    set x | x in o && x.digest == SkipDigest(namespace, x.height) :: x.height
  }

  /** Whether h was certified since the tip last passed h + PRUNE_SLACK. */
  function Held(log: seq<Activity>, h: nat): bool {
    if log == [] then false
    else
      var p, a := log[..|log| - 1], log[|log| - 1];
      if !a.Ack? && a.height > HighestTip(p) && a.height > h + PRUNE_SLACK then false
      else Held(p, h) || (a.Certified? && a.height == h)
  }

  /** Message i repeats a certified height the tip has passed by more than PRUNE_SLACK since it last came. */
  predicate ForgottenReplay(log: seq<Activity>, i: nat)
    requires i < |log|
  {
    log[i].Certified? && log[i].height in CertifiedHeights(log[..i]) && !Held(log[..i], log[i].height)
  }

  ghost predicate NoForgottenReplay(log: seq<Activity>) {
    forall i :: 0 <= i < |log| ==> !ForgottenReplay(log, i)
  }

  lemma ForgottenReplayLast(log: seq<Activity>)
    requires log != []
    ensures NoForgottenReplay(log) <==> NoForgottenReplay(log[..|log| - 1]) && !ForgottenReplay(log, |log| - 1)
  {
    var p := log[..|log| - 1];
    forall i | 0 <= i < |p| ensures ForgottenReplay(p, i) == ForgottenReplay(log, i) {
      assert p[..i] == log[..i];
    }
  }

  /** No certificate arrives more than PRUNE_SLACK below the tip. */
  ghost predicate NoneStale(log: seq<Activity>) {
    forall i :: 0 <= i < |log| && log[i].Certified? ==> log[i].height >= SatSub(HighestTip(log[..i]), PRUNE_SLACK)
  }

  /** In particular nothing forgotten is replayed where nothing stale arrives. */
  lemma NoneStaleNoneForgotten(log: seq<Activity>)
    requires NoneStale(log)
    ensures NoForgottenReplay(log)
  {
    forall i | 0 <= i < |log| && log[i].Certified? && log[i].height in CertifiedHeights(log[..i])
      ensures Held(log[..i], log[i].height)
    {
      HeldAboveHorizon(log[..i], log[i].height);
    }
  }

  lemma {:induction false} HeldAboveHorizon(log: seq<Activity>, h: nat)
    requires h in CertifiedHeights(log) && h >= SatSub(HighestTip(log), PRUNE_SLACK)
    ensures Held(log, h)
  {
    var p := log[..|log| - 1];
    if h in CertifiedHeights(p) {
      HeldAboveHorizon(p, h);
    }
  }

  /** The dedupe set holds exactly the heights certified since the tip last passed them by more than PRUNE_SLACK. */
  lemma {:induction false} DedupeIsHeld(namespace: seq<Byte>, tap: bool, log: seq<Activity>, h: nat)
    ensures h in After(namespace, tap, log).certified <==> Held(log, h)
  {
    if log != [] {
      var p := log[..|log| - 1];
      DedupeIsHeld(namespace, tap, p, h);
      DedupeAgrees(namespace, tap, p);
    }
  }

  /** The dedupe set forgets nothing at or above the horizon and holds only certified heights. */
  lemma {:induction false} DedupeAgrees(namespace: seq<Byte>, tap: bool, log: seq<Activity>)
    ensures var n := After(namespace, tap, log);
            && n.tip == HighestTip(log)
            && n.certified <= CertifiedHeights(log)
            && forall h :: h in CertifiedHeights(log) && h >= SatSub(n.tip, PRUNE_SLACK) ==> h in n.certified
    ensures forall h :: h in CertifiedHeights(log) ==> h <= HighestTip(log)
  {
    if log != [] {
      DedupeAgrees(namespace, tap, log[..|log| - 1]);
    }
  }

  function HeightsOf(o: seq<Observation>): set<nat> {
    set x | x in o :: x.height
  }

  lemma HeightsOfAppend(o: seq<Observation>, x: Observation)
    ensures HeightsOf(o + [x]) == HeightsOf(o) + {x.height}
  {
    assert x in o + [x];
    forall h | h in HeightsOf(o) ensures h in HeightsOf(o + [x]) {
      var y :| y in o && y.height == h;
      assert y in o + [x];
    }
  }

  /** The first observations name every certified height, each once. */
  lemma {:induction false} ObservationsDistinct(log: seq<Activity>)
    ensures HeightsOf(FirstObservations(log)) == CertifiedHeights(log)
    ensures |CertifiedHeights(log)| == |FirstObservations(log)|
  {
    if log != [] {
      var p, a := log[..|log| - 1], log[|log| - 1];
      ObservationsDistinct(p);
      if a.Certified? {
        if a.height in CertifiedHeights(p) {
          assert CertifiedHeights(log) == CertifiedHeights(p);
          assert FirstObservations(log) == FirstObservations(p);
        } else {
          HeightsOfAppend(FirstObservations(p), Observation(a.height, a.digest));
        }
      } else {
        assert FirstObservations(log) == FirstObservations(p);
      }
    }
  }

  lemma SkippedOfAppend(namespace: seq<Byte>, o: seq<Observation>, x: Observation)
    ensures SkippedOf(namespace, o + [x]) ==
            SkippedOf(namespace, o) + if x.digest == SkipDigest(namespace, x.height) then {x.height} else {}
  {
    forall y ensures y in o + [x] <==> y in o || y == x {
    }
    forall h | h in SkippedOf(namespace, o) ensures h in SkippedOf(namespace, o + [x]) {
      var y :| y in o && y.digest == SkipDigest(namespace, y.height) && y.height == h;
      assert y in o + [x];
    }
    if x.digest == SkipDigest(namespace, x.height) {
      assert x in o + [x];
    }
  }

  lemma SkippedAreObserved(namespace: seq<Byte>, o: seq<Observation>)
    ensures SkippedOf(namespace, o) <= HeightsOf(o)
  {
  }

  /** The counters and the tap account for the observations `o` of the heights `heights`. */
  ghost predicate Accounted(n: Node, namespace: seq<Byte>, tap: bool, o: seq<Observation>, heights: set<nat>) {
    && n.tapped == (if tap then o else [])
    && n.certifiedCount == |heights|
    && n.skippedCount == |SkippedOf(namespace, o)|
  }

  /** A first certificate is counted. */
  lemma CountFirst(n: Node, namespace: seq<Byte>, tap: bool, o: seq<Observation>, heights: set<nat>, x: Observation)
    requires Accounted(n, namespace, tap, o, heights) && HeightsOf(o) == heights
    requires x.height !in n.certified && x.height !in heights
    ensures Accounted(Step(n, namespace, tap, Certified(x.height, x.digest)), namespace, tap,
                      o + [x], heights + {x.height})
  {
    CountSkipped(namespace, o, heights, x);
    var n' := Step(n, namespace, tap, Certified(x.height, x.digest));
    assert n'.certifiedCount == n.certifiedCount + 1;
    assert n'.skippedCount == n.skippedCount + if x.digest == SkipDigest(namespace, x.height) then 1 else 0;
  }

  lemma CountSkipped(namespace: seq<Byte>, o: seq<Observation>, heights: set<nat>, x: Observation)
    requires HeightsOf(o) == heights && x.height !in heights
    ensures |SkippedOf(namespace, o + [x])| ==
            |SkippedOf(namespace, o)| + if x.digest == SkipDigest(namespace, x.height) then 1 else 0
  {
    SkippedOfAppend(namespace, o, x);
    SkippedAreObserved(namespace, o);
    assert x.height !in SkippedOf(namespace, o);
  }

  /** A message that is not the first certificate of its height adds nothing to the history. */
  lemma NothingNew(log: seq<Activity>)
    requires log != []
    requires var a := log[|log| - 1]; !(a.Certified? && a.height !in CertifiedHeights(log[..|log| - 1]))
    ensures FirstObservations(log) == FirstObservations(log[..|log| - 1])
    ensures CertifiedHeights(log) == CertifiedHeights(log[..|log| - 1])
  {
  }

  lemma NothingCounted(n: Node, namespace: seq<Byte>, tap: bool, a: Activity)
    requires a.Certified? ==> a.height in n.certified
    ensures var n' := Step(n, namespace, tap, a);
            n'.tapped == n.tapped && n'.certifiedCount == n.certifiedCount && n'.skippedCount == n.skippedCount
  {
  }

  lemma SomethingNew(log: seq<Activity>, x: Observation)
    requires log != [] && log[|log| - 1] == Certified(x.height, x.digest)
    requires x.height !in CertifiedHeights(log[..|log| - 1])
    ensures FirstObservations(log) == FirstObservations(log[..|log| - 1]) + [x]
    ensures CertifiedHeights(log) == CertifiedHeights(log[..|log| - 1]) + {x.height}
  {
  }

  lemma AccountingStep(n: Node, namespace: seq<Byte>, tap: bool, log: seq<Activity>)
    requires log != [] && !ForgottenReplay(log, |log| - 1)
    requires n == After(namespace, tap, log[..|log| - 1])
    requires var p := log[..|log| - 1]; Accounted(n, namespace, tap, FirstObservations(p), CertifiedHeights(p))
    ensures Accounted(Step(n, namespace, tap, log[|log| - 1]), namespace, tap,
                      FirstObservations(log), CertifiedHeights(log))
  {
    var p, a := log[..|log| - 1], log[|log| - 1];
    if a.Certified? {
      DedupeIsHeld(namespace, tap, p, a.height);
    }
    if a.Certified? && a.height !in CertifiedHeights(p) {
      DedupeAgrees(namespace, tap, p);
      ObservationsDistinct(p);
      var x := Observation(a.height, a.digest);
      SomethingNew(log, x);
      CountFirst(n, namespace, tap, FirstObservations(p), CertifiedHeights(p), x);
    } else {
      NothingNew(log);
      NothingCounted(n, namespace, tap, a);
    }
  }

  /** Certificates are never undercounted, and a forgotten replay is counted for good. */
  lemma {:induction false} Overcounted(namespace: seq<Byte>, tap: bool, log: seq<Activity>)
    ensures After(namespace, tap, log).certifiedCount >= |CertifiedHeights(log)|
    ensures !NoForgottenReplay(log) ==> After(namespace, tap, log).certifiedCount > |CertifiedHeights(log)|
  {
    if log != [] {
      var p, a := log[..|log| - 1], log[|log| - 1];
      Overcounted(namespace, tap, p);
      ForgottenReplayLast(log);
      DedupeAgrees(namespace, tap, p);
      if a.Certified? {
        DedupeIsHeld(namespace, tap, p, a.height);
      }
    }
  }

  /**
   MAIN RESULT. Over every run, whatever is replayed, the accounting is exact (the tap stream is
   the first certificate of every height, the certified counter counts the distinct certified
   heights, the skipped counter those whose first certificate carries the skip digest) if and
   only if no height is replayed that the tip has passed by more than PRUNE_SLACK since.
   */
  lemma {:induction false} AccountingExact(namespace: seq<Byte>, tap: bool, log: seq<Activity>)
    ensures Accounted(After(namespace, tap, log), namespace, tap, FirstObservations(log), CertifiedHeights(log))
            <==> NoForgottenReplay(log)
  {
    Overcounted(namespace, tap, log);
    if log != [] && NoForgottenReplay(log) {
      var p := log[..|log| - 1];
      ForgottenReplayLast(log);
      AccountingExact(namespace, tap, p);
      AccountingStep(After(namespace, tap, p), namespace, tap, log);
    }
  }

  /** Replays can only be overcounted, and only below the horizon: here height 0 is counted twice. */
  lemma StaleReplayCountedTwice(namespace: seq<Byte>, digest: Digest)
    ensures var log := [Certified(0, digest), Tip(PRUNE_SLACK + 1), Certified(0, digest)];
            After(namespace, true, log).certifiedCount == 2 && |CertifiedHeights(log)| == 1
  {
    var c, t := Certified(0, digest), Tip(PRUNE_SLACK + 1);
    var log := [c, t, c];
    assert log[..2] == [c, t] && [c, t][..1] == [c] && [c][..0] == [];
    assert After(namespace, true, [c]) == Step(INITIAL, namespace, true, c);
    assert After(namespace, true, [c, t]) == Step(After(namespace, true, [c]), namespace, true, t);
    assert 0 !in After(namespace, true, [c, t]).certified;
    assert CertifiedHeights([c]) == {0};
    assert CertifiedHeights([c, t]) == {0};
    assert CertifiedHeights(log) == {0};
  }

  /** MAIN RESULT. The prune floors sent to the task book strictly increase and stay PRUNE_SLACK below the tip. */
  lemma {:induction false} FloorsIncrease(namespace: seq<Byte>, tap: bool, log: seq<Activity>)
    ensures var n := After(namespace, tap, log);
            && (forall i :: 0 <= i < |n.floors| ==> 0 < n.floors[i] && n.floors[i] + PRUNE_SLACK <= n.tip)
            && (forall i, j :: 0 <= i < j < |n.floors| ==> n.floors[i] < n.floors[j])
            && n.tip == HighestTip(log)
  {
    if log != [] {
      FloorsIncrease(namespace, tap, log[..|log| - 1]);
      DedupeAgrees(namespace, tap, log);
    }
  }

  /** The floors due: one for every message that raises the tip past 1024, that far below the new tip. */
  function FloorsDue(log: seq<Activity>): seq<nat> {
    if log == [] then []
    else
      var p, a := log[..|log| - 1], log[|log| - 1];
      if !a.Ack? && a.height > HighestTip(p) && a.height > 1024 then FloorsDue(p) + [a.height - 1024]
      else FloorsDue(p)
  }

  /**
   MAIN RESULT. The book is pruned right behind the tip: exactly the floors due are sent, so some floor was
   sent exactly when the tip is past the slack of 1024, and the last one is that far below the tip.
   */
  lemma {:induction false} FloorsFollowTip(namespace: seq<Byte>, tap: bool, log: seq<Activity>)
    ensures var floors, tip := After(namespace, tap, log).floors, HighestTip(log);
            && floors == FloorsDue(log)
            && (floors != [] <==> tip > 1024)
            && (floors != [] ==> floors[|floors| - 1] == tip - 1024)
  {
    if log != [] {
      var p := log[..|log| - 1];
      FloorsFollowTip(namespace, tap, p);
      DedupeAgrees(namespace, tap, p);
    }
  }

  /**
   MAIN RESULT. The reporter and the task book together never drop a directive the engine can still
   ask for: when every prune of the book comes from the reporter, the book holds, at every height
   within PRUNE_SLACK of both the reporter's tip and the highest directive, what a log that is
   never pruned would hold.
   */
  lemma DirectivesRetained<T>(namespace: seq<Byte>, tap: bool, log: seq<Activity>, msgs: seq<Book.Message<T>>, h: nat)
    requires forall m :: m in msgs && m.PruneBelow? ==> m.floor in After(namespace, tap, log).floors
    requires h >= SatSub(HighestTip(log), PRUNE_SLACK) && History.AboveHorizon(msgs, h)
    ensures History.DirectiveAt(Book.After(msgs), h) == History.Standing(msgs, h)
    ensures (exists m :: m in msgs && History.IsHeightDirective(m) && m.directive.height == h) ==>
              h in Book.After(msgs).directives
  {
    FloorsIncrease(namespace, tap, log);
    FloorBelow(msgs, h);
    History.DirectivesRefine(msgs, h);
    if m :| m in msgs && History.IsHeightDirective(m) && m.directive.height == h {
      if m.directive.Announce? {
        AnnouncedFound(msgs, h, m.directive.task);
      }
    }
  }

  lemma {:induction false} FloorBelow<T>(msgs: seq<Book.Message<T>>, h: nat)
    requires forall m :: m in msgs && m.PruneBelow? ==> m.floor <= h
    ensures History.HighestFloor(msgs) <= h
  {
    if msgs != [] {
      FloorBelow(msgs[..|msgs| - 1], h);
      assert msgs[|msgs| - 1] in msgs;
    }
  }

  lemma {:induction false} AnnouncedFound<T>(msgs: seq<Book.Message<T>>, h: nat, task: T)
    requires Book.Directive(Announce(h, task)) in msgs
    ensures History.FirstAnnounced(msgs, h).Some?
  {
    var p := msgs[..|msgs| - 1];
    assert msgs == p + [msgs[|msgs| - 1]];
    if msgs[|msgs| - 1] != Book.Directive(Announce(h, task)) {
      AnnouncedFound(p, h, task);
    }
  }
}
