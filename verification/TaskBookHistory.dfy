/**
 What the task book does over every message sequence, stated on the messages alone.

 `Decided` says how a height is decided by the directives that ever arrived, with no
 pruning, no max_seen and no waiters; `Expected` says which subscriptions are answered
 when. The pruned actor refines both at every height it still has to remember.
 */
module TaskBookHistory {
  import opened Common
  import opened Consensus
  import opened Wire
  import opened TaskBook

  // ---- the history a run is judged by ----

  predicate IsHeightDirective<T>(m: Message<T>) {
    m.Directive? && !m.directive.TipReport?
  }

  /** A directive for a height above h arrived. */
  ghost predicate RouterPassed<T>(msgs: seq<Message<T>>, h: nat) {
    exists i :: 0 <= i < |msgs| && IsHeightDirective(msgs[i]) && msgs[i].directive.height > h
  }

  /** The first task announced for h. */
  function FirstAnnounced<T>(msgs: seq<Message<T>>, h: nat): Option<T> {
    if msgs == [] then None
    else
      var earlier, m := FirstAnnounced(msgs[..|msgs| - 1], h), msgs[|msgs| - 1];
      if earlier.Some? then earlier
      else if m.Directive? && m.directive.Announce? && m.directive.height == h then Some(m.directive.task)
      else None
  }

  ghost predicate SkipArrived<T>(msgs: seq<Message<T>>, h: nat) {
    Directive(Skip(h)) in msgs
  }

  /** First announcement wins, a Skip overrides it for good, and a passed-over height without either is skipped. */
  ghost function Decided<T>(msgs: seq<Message<T>>, h: nat): Option<Resolution<T>> {
    if SkipArrived(msgs, h) then Some(Skipped)
    else if FirstAnnounced(msgs, h).Some? then Some(Announced(FirstAnnounced(msgs, h).value))
    else if RouterPassed(msgs, h) then Some(Skipped)
    else None
  }

  /** The subscriptions of one height: answered so far, and still parked. */
  datatype Trail<T> = Trail(answered: seq<Answer<T>>, parked: seq<nat>)

  /** After message m: a new subscriber joins, and if the height is decided all of them are answered so. */
  function NextTrail<T>(before: Trail<T>, m: Message<T>, h: nat, decided: Option<Resolution<T>>): Trail<T> {
    var parked := if m.Subscribe? && m.height == h then before.parked + [m.id] else before.parked;
    match decided
    case None => Trail(before.answered, parked)
    case Some(r) => Trail(before.answered + Send(h, parked, r), [])
  }

  /** A subscription is answered as soon as its height is decided, with the decision of that moment. */
  ghost function Expected<T>(msgs: seq<Message<T>>, h: nat): Trail<T> {
    if msgs == [] then Trail([], [])
    else NextTrail(Expected(msgs[..|msgs| - 1], h), msgs[|msgs| - 1], h, Decided(msgs, h))
  }

  /** The highest height any directive named. */
  function HighestDirective<T>(msgs: seq<Message<T>>): Option<nat> {
    if msgs == [] then None
    else
      var earlier, m := HighestDirective(msgs[..|msgs| - 1]), msgs[|msgs| - 1];
      if IsHeightDirective(m) && (earlier.None? || m.directive.height > earlier.value)
      then Some(m.directive.height) else earlier
  }

  /** The highest floor of any external prune. */
  function HighestFloor<T>(msgs: seq<Message<T>>): nat {
    if msgs == [] then 0
    else
      var earlier, m := HighestFloor(msgs[..|msgs| - 1]), msgs[|msgs| - 1];
      if m.PruneBelow? then Max(earlier, m.floor) else earlier
  }

  predicate AboveHorizon<T>(msgs: seq<Message<T>>, h: nat) {
    HighestDirective(msgs).Some? ==> h >= SatSub(HighestDirective(msgs).value, PRUNE_SLACK)
  }

  /** The heights the book has not been allowed to forget. */
  predicate Remembered<T>(msgs: seq<Message<T>>, h: nat) {
    AboveHorizon(msgs, h) && h >= HighestFloor(msgs)
  }

  // ---- one height of the book ----

  function AnswersAt<T>(answers: seq<Answer<T>>, h: nat): seq<Answer<T>> {
    if answers == [] then []
    else
      AnswersAt(answers[..|answers| - 1], h) +
      if answers[|answers| - 1].height == h then [answers[|answers| - 1]] else []
  }

  lemma {:induction false} AnswersAtConcat<T>(a: seq<Answer<T>>, b: seq<Answer<T>>, h: nat)
    ensures AnswersAt(a + b, h) == AnswersAt(a, h) + AnswersAt(b, h)
  {
    if b == [] {
      assert a + b == a;
    } else {
      AnswersAtConcat(a, b[..|b| - 1], h);
      assert (a + b)[..|a + b| - 1] == a + b[..|b| - 1];
    }
  }

  lemma {:induction false} AnswersAtSend<T>(g: nat, ids: seq<nat>, r: Resolution<T>, h: nat)
    ensures AnswersAt(Send(g, ids, r), h) == if g == h then Send(g, ids, r) else []
  {
    if ids != [] {
      AnswersAtSend(g, ids[..|ids| - 1], r, h);
      AnswersAtConcat(Send(g, ids[..|ids| - 1], r), [Answer(g, ids[|ids| - 1], r)], h);
    }
  }

  lemma AnswersAtOneSkip<T>(waiters: map<nat, seq<nat>>, directives: map<nat, TaskDirective<T>>, g: nat, h: nat)
    ensures AnswersAt(SkipAt(waiters, directives, g), h) == if g == h then SkipAt(waiters, directives, g) else []
  {
    if g in waiters && g !in directives {
      AnswersAtSend(g, waiters[g], Resolution<T>.Skipped, h);
    }
  }

  lemma NoneAtRight<T>(a: seq<Answer<T>>, b: seq<Answer<T>>, h: nat)
    requires AnswersAt(b, h) == []
    ensures AnswersAt(a + b, h) == AnswersAt(a, h)
  {
    AnswersAtConcat(a, b, h);
  }

  lemma NoneAtLeft<T>(a: seq<Answer<T>>, b: seq<Answer<T>>, h: nat)
    requires AnswersAt(a, h) == []
    ensures AnswersAt(a + b, h) == AnswersAt(b, h)
  {
    AnswersAtConcat(a, b, h);
  }

  /** The answers `last` are all at height g, and `below` are below it. */
  lemma AtHeightOrBelow<T>(below: seq<Answer<T>>, last: seq<Answer<T>>, g: nat, h: nat, x: seq<Answer<T>>)
    requires AnswersAt(below, h) == if h < g then x else []
    requires AnswersAt(last, h) == if h == g then x else []
    ensures AnswersAt(below + last, h) == if h <= g then x else []
  {
    if h == g {
      NoneAtLeft(below, last, h);
    } else {
      NoneAtRight(below, last, h);
    }
  }

  lemma {:induction false} AnswersAtSkip<T>(waiters: map<nat, seq<nat>>, directives: map<nat, TaskDirective<T>>,
                                            height: nat, h: nat)
    ensures AnswersAt(SkipAnswers(waiters, directives, height), h) ==
            if h < height then SkipAt(waiters, directives, h) else []
  {
    if height > 0 {
      var g := height - 1;
      AnswersAtSkip(waiters, directives, g, h);
      AnswersAtOneSkip(waiters, directives, g, h);
      AtHeightOrBelow(SkipAnswers(waiters, directives, g), SkipAt(waiters, directives, g), g, h,
                      SkipAt(waiters, directives, h));
    }
  }

  // ---- what every step keeps ----

  /** The book's own invariant. */
  ghost predicate Inv<T>(b: Book<T>) {
    && (forall h :: h in b.directives ==> b.directives[h].height == h && !b.directives[h].TipReport?)
    && (forall h :: h in b.directives ==>
          b.maxSeen.Some? && SatSub(b.maxSeen.value, PRUNE_SLACK) <= h <= b.maxSeen.value)
    && (forall h :: h in b.waiters ==> h !in b.directives && b.waiters[h] != [])
    && (forall h :: h in b.waiters && b.maxSeen.Some? ==> h >= b.maxSeen.value)
  }

  ghost predicate Recordable<T>(b: Book<T>, d: TaskDirective<T>) {
    && !d.TipReport? && d.height !in b.directives
    && (b.maxSeen.Some? ==> d.height >= SatSub(b.maxSeen.value, PRUNE_SLACK))
  }

  function Raise(maxSeen: Option<nat>, height: nat): nat {
    if maxSeen.Some? then Max(maxSeen.value, height) else height
  }

  lemma RecordKeepsInv<T>(b: Book<T>, d: TaskDirective<T>)
    requires Inv(b) && Recordable(b, d)
    ensures Inv(Record(b, d))
    ensures Record(b, d).maxSeen == Some(Raise(b.maxSeen, d.height))
  {
    var recorded := b.directives[d.height := d];
    if b.maxSeen.Some? && d.height <= b.maxSeen.value {
      assert Record(b, d).directives == recorded;
    } else {
      assert Record(b, d).directives == KeepFrom(recorded, SatSub(d.height, PRUNE_SLACK));
    }
  }

  lemma RecordAnswers<T>(b: Book<T>, d: TaskDirective<T>, h: nat)
    requires Inv(b) && Recordable(b, d)
    ensures var released := if h > d.height then [] else WaitersAt(b.waiters, h);
            var r := if h == d.height then ResolutionOf(d) else Skipped;
            AnswersAt(Record(b, d).answers, h) == AnswersAt(b.answers, h) + Send(h, released, r)
  {
    var sent := Send(d.height, WaitersAt(b.waiters, d.height), ResolutionOf(d));
    var waiters, directives := b.waiters - {d.height}, b.directives[d.height := d];
    var skipped := SkipAnswers(waiters, directives, d.height);
    AnswersAtSend(d.height, WaitersAt(b.waiters, d.height), ResolutionOf(d), h);
    AnswersAtSkip(waiters, directives, d.height, h);
    AnswersAtConcat(b.answers, sent, h);
    if h >= d.height {
      NoneAtRight(b.answers + sent, skipped, h);
    } else {
      NoneAtRight(b.answers, sent, h);
      AnswersAtConcat(b.answers + sent, skipped, h);
      SkippedAreUnrecorded(b, d, h);
    }
  }

  /** Below a directive, what is skipped is what was parked: only unrecorded heights have waiters. */
  lemma SkippedAreUnrecorded<T>(b: Book<T>, d: TaskDirective<T>, h: nat)
    requires Inv(b) && h < d.height
    ensures SkipAt(b.waiters - {d.height}, b.directives[d.height := d], h) == Send(h, WaitersAt(b.waiters, h), Skipped)
  {
  }

  lemma RecordWaiters<T>(b: Book<T>, d: TaskDirective<T>, h: nat)
    requires Inv(b) && Recordable(b, d)
    ensures WaitersAt(Record(b, d).waiters, h) == if h > d.height then WaitersAt(b.waiters, h) else []
  {
  }

  lemma RecordDirectives<T>(b: Book<T>, d: TaskDirective<T>, h: nat)
    requires Inv(b) && Recordable(b, d)
    requires h >= SatSub(Raise(b.maxSeen, d.height), PRUNE_SLACK)
    ensures h in Record(b, d).directives <==> h == d.height || h in b.directives
    ensures h in Record(b, d).directives ==>
              Record(b, d).directives[h] == if h == d.height then d else b.directives[h]
  {
  }

  lemma DirectiveStep<T>(b: Book<T>, d: TaskDirective<T>)
    requires Inv(b)
    ensures Inv(ApplyDirective(b, d))
    ensures d.TipReport? ==> ApplyDirective(b, d) == b
    ensures !d.TipReport? ==>
              ApplyDirective(b, d).maxSeen == Some(Raise(b.maxSeen, d.height))
  {
    if !d.TipReport? {
      if d.height in b.directives {
      } else if b.maxSeen.Some? && d.height < SatSub(b.maxSeen.value, PRUNE_SLACK) {
      } else {
        RecordKeepsInv(b, d);
      }
    }
  }

  lemma StepKeepsInv<T>(b: Book<T>, m: Message<T>)
    requires Inv(b)
    ensures Inv(Step(b, m))
  {
    if m.Directive? {
      DirectiveStep(b, m.directive);
    }
  }

  lemma {:induction false} AfterInv<T>(msgs: seq<Message<T>>)
    ensures Inv(After(msgs))
    ensures After(msgs).maxSeen == HighestDirective(msgs)
  {
    if msgs != [] {
      AfterInv(msgs[..|msgs| - 1]);
      StepKeepsInv(After(msgs[..|msgs| - 1]), msgs[|msgs| - 1]);
      if msgs[|msgs| - 1].Directive? {
        DirectiveStep(After(msgs[..|msgs| - 1]), msgs[|msgs| - 1].directive);
      }
    }
  }

  // ---- the history, one message at a time ----

  lemma HistoryStep<T>(p: seq<Message<T>>, m: Message<T>, h: nat)
    ensures SkipArrived(p + [m], h) <==> SkipArrived(p, h) || m == Directive(Skip(h))
    ensures RouterPassed(p + [m], h) <==> RouterPassed(p, h) || (IsHeightDirective(m) && m.directive.height > h)
  {
    var msgs := p + [m];
    if RouterPassed(p, h) {
      var i :| 0 <= i < |p| && IsHeightDirective(p[i]) && p[i].directive.height > h;
      assert msgs[i] == p[i];
    }
    if IsHeightDirective(m) && m.directive.height > h {
      assert msgs[|p|] == m;
    }
  }

  lemma {:induction false} PassedIffHigher<T>(msgs: seq<Message<T>>, h: nat)
    ensures RouterPassed(msgs, h) <==> HighestDirective(msgs).Some? && HighestDirective(msgs).value > h
  {
    if msgs != [] {
      var p, m := msgs[..|msgs| - 1], msgs[|msgs| - 1];
      assert msgs == p + [m];
      PassedIffHigher(p, h);
      HistoryStep(p, m, h);
    }
  }

  /** The directive the book must hold for h. */
  ghost function Standing<T>(msgs: seq<Message<T>>, h: nat): Option<TaskDirective<T>> {
    if SkipArrived(msgs, h) then Some(Skip(h))
    else if FirstAnnounced(msgs, h).Some? then Some(Announce(h, FirstAnnounced(msgs, h).value))
    else None
  }

  function DirectiveAt<T>(b: Book<T>, h: nat): Option<TaskDirective<T>> {
    if h in b.directives then Some(b.directives[h]) else None
  }

  /** The recorded directives at every remembered height are those of a log that is never pruned. */
  lemma {:induction false} DirectivesRefine<T>(msgs: seq<Message<T>>, h: nat)
    requires Remembered(msgs, h)
    ensures DirectiveAt(After(msgs), h) == Standing(msgs, h)
  {
    if msgs != [] {
      var p, m := msgs[..|msgs| - 1], msgs[|msgs| - 1];
      assert msgs == p + [m];
      AfterInv(p);
      DirectivesRefine(p, h);
      HistoryStep(p, m, h);
      var b := After(p);
      if m.Directive? && !m.directive.TipReport? && Recordable(b, m.directive) {
        RecordDirectives(b, m.directive, h);
      }
    }
  }

  lemma LookupRefines<T>(msgs: seq<Message<T>>, h: nat)
    requires Remembered(msgs, h)
    ensures Lookup(After(msgs), h) == Decided(msgs, h)
  {
    DirectivesRefine(msgs, h);
    AfterInv(msgs);
    PassedIffHigher(msgs, h);
  }

  /** Nobody is parked at a decided height. */
  lemma DecidedNotParked<T>(b: Book<T>, h: nat)
    requires Inv(b) && Lookup(b, h).Some?
    ensures WaitersAt(b.waiters, h) == []
  {
  }

  /** The subscriptions of height h, as the book has them. */
  function TrailOf<T>(b: Book<T>, h: nat): Trail<T> {
    Trail(AnswersAt(b.answers, h), WaitersAt(b.waiters, h))
  }

  lemma NobodyToAnswer<T>(b: Book<T>, m: Message<T>, h: nat)
    requires Inv(b) && !m.Subscribe?
    ensures NextTrail(TrailOf(b, h), m, h, Lookup(b, h)) == TrailOf(b, h)
  {
    if Lookup(b, h).Some? {
      DecidedNotParked(b, h);
    }
  }

  /** One directive: whoever was parked at h is answered with the new decision, if there is one. */
  lemma DirectiveAtHeight<T>(b: Book<T>, d: TaskDirective<T>, h: nat)
    requires Inv(b)
    requires b.maxSeen.Some? ==> h >= SatSub(b.maxSeen.value, PRUNE_SLACK)
    requires !d.TipReport? ==> h >= SatSub(d.height, PRUNE_SLACK)
    ensures var b' := ApplyDirective(b, d);
            TrailOf(b', h) == NextTrail(TrailOf(b, h), Directive(d), h, Lookup(b', h))
  {
    var b', m := ApplyDirective(b, d), Directive(d);
    if d.TipReport? || (d.height !in b.directives && !Recordable(b, d)) {
      NobodyToAnswer(b, m, h);
    } else if d.height in b.directives {
      assert WaitersAt(b.waiters, d.height) == [];
      assert b'.answers == b.answers && b'.waiters == b.waiters;
      DirectiveStep(b, d);
      NobodyToAnswer(b', m, h);
    } else {
      RecordAnswers(b, d, h);
      RecordWaiters(b, d, h);
      RecordDirectives(b, d, h);
      RecordKeepsInv(b, d);
      if h > d.height {
        NobodyToAnswer(b, m, h);
        assert Lookup(b', h) == Lookup(b, h);
      }
    }
  }

  /** One subscription: answered at once if its height is decided, else parked behind the others. */
  lemma SubscribeAtHeight<T>(b: Book<T>, g: nat, id: nat, h: nat)
    requires Inv(b)
    ensures TrailOf(ApplySubscribe(b, g, id), h) == NextTrail(TrailOf(b, h), Subscribe(g, id), h, Lookup(b, h))
  {
    if Lookup(b, h).Some? {
      DecidedNotParked(b, h);
    }
    if Lookup(b, g).Some? {
      var a := Answer(g, id, Lookup(b, g).value);
      AnswersAtConcat(b.answers, [a], h);
      assert AnswersAt([a], h) == if g == h then [a] else [];
      if g == h {
        assert [id][..0] == [] && [] + [id] == [id];
        assert Send(h, [id], a.resolution) == Send(h, [], a.resolution) + [a];
      }
    }
  }

  lemma SubscribeKeepsLookup<T>(b: Book<T>, g: nat, id: nat, h: nat)
    ensures Lookup(ApplySubscribe(b, g, id), h) == Lookup(b, h)
  {
  }

  /** Every message, at a height that is above the horizon after it. */
  lemma MessageAtHeight<T>(b: Book<T>, m: Message<T>, h: nat)
    requires Inv(b)
    requires Step(b, m).maxSeen.Some? ==> h >= SatSub(Step(b, m).maxSeen.value, PRUNE_SLACK)
    requires m.PruneBelow? ==> h >= m.floor
    ensures TrailOf(Step(b, m), h) == NextTrail(TrailOf(b, h), m, h, Lookup(Step(b, m), h))
  {
    match m
    case Directive(d) =>
      DirectiveStep(b, d);
      DirectiveAtHeight(b, d, h);
    case PruneBelow(floor) =>
      NobodyToAnswer(b, m, h);
      assert Lookup(ApplyPrune(b, floor), h) == Lookup(b, h);
    case Subscribe(g, id) =>
      SubscribeAtHeight(b, g, id, h);
      SubscribeKeepsLookup(b, g, id, h);
  }

  /**
   MAIN RESULT. At every remembered height, over every message sequence, the pruned actor
   answers and parks exactly the subscriptions the never-forgetting history says, in the same
   order, with the decision of the moment each was answered.
   */
  lemma {:induction false} BookRefinesHistory<T>(msgs: seq<Message<T>>, h: nat)
    requires Remembered(msgs, h)
    ensures Lookup(After(msgs), h) == Decided(msgs, h)
    ensures TrailOf(After(msgs), h) == Expected(msgs, h)
  {
    LookupRefines(msgs, h);
    if msgs != [] {
      var p, m := msgs[..|msgs| - 1], msgs[|msgs| - 1];
      AfterInv(p);
      AfterInv(msgs);
      BookRefinesHistory(p, h);
      MessageAtHeight(After(p), m, h);
    }
  }

  // ---- properties of every run, at every height ----

  /** Below the horizon every subscription is answered Skip, and nothing stays parked or recorded there. */
  lemma BelowHorizonSkips<T>(msgs: seq<Message<T>>, h: nat)
    requires !AboveHorizon(msgs, h)
    ensures Lookup(After(msgs), h) == Some(Skipped)
    ensures WaitersAt(After(msgs).waiters, h) == []
  {
    AfterInv(msgs);
  }

  function Ids<T>(answers: seq<Answer<T>>): seq<nat> {
    if answers == [] then [] else Ids(answers[..|answers| - 1]) + [answers[|answers| - 1].id]
  }

  lemma {:induction false} IdsConcat<T>(a: seq<Answer<T>>, b: seq<Answer<T>>)
    ensures Ids(a + b) == Ids(a) + Ids(b)
  {
    if b == [] {
      assert a + b == a;
    } else {
      IdsConcat(a, b[..|b| - 1]);
      assert (a + b)[..|a + b| - 1] == a + b[..|b| - 1];
    }
  }

  lemma {:induction false} IdsSend<T>(h: nat, ids: seq<nat>, r: Resolution<T>)
    ensures Ids(Send(h, ids, r)) == ids
  {
    if ids != [] {
      IdsSend(h, ids[..|ids| - 1], r);
      assert Ids(Send(h, ids, r)) == ids[..|ids| - 1] + [ids[|ids| - 1]];
    }
  }

  function Subscribers<T>(msgs: seq<Message<T>>, h: nat): seq<nat> {
    if msgs == [] then []
    else
      var m := msgs[|msgs| - 1];
      Subscribers(msgs[..|msgs| - 1], h) + if m.Subscribe? && m.height == h then [m.id] else []
  }

  /** The subscribers of h: those answered, in answer order, then those parked. */
  function Accounted<T>(b: Book<T>, h: nat): seq<nat> {
    Ids(AnswersAt(b.answers, h)) + WaitersAt(b.waiters, h)
  }

  lemma DirectiveLosesNobody<T>(b: Book<T>, d: TaskDirective<T>, h: nat)
    requires Inv(b)
    ensures Accounted(ApplyDirective(b, d), h) == Accounted(b, h)
  {
    if !d.TipReport? && Recordable(b, d) {
      RecordAnswers(b, d, h);
      RecordWaiters(b, d, h);
      var released := if h > d.height then [] else WaitersAt(b.waiters, h);
      var r := if h == d.height then ResolutionOf(d) else Skipped;
      IdsConcat(AnswersAt(b.answers, h), Send(h, released, r));
      IdsSend(h, released, r);
    } else if !d.TipReport? && d.height in b.directives {
      assert WaitersAt(b.waiters, d.height) == [];
      assert ApplyDirective(b, d).answers == b.answers;
    }
  }

  /** A subscription answered at once is appended to the answers of its own height. */
  lemma AnsweredAtOnce<T>(b: Book<T>, a: Answer<T>, h: nat)
    ensures Ids(AnswersAt(b.answers + [a], h)) == if a.height == h then Ids(AnswersAt(b.answers, h)) + [a.id]
                                                 else Ids(AnswersAt(b.answers, h))
  {
    AnswersAtConcat(b.answers, [a], h);
    assert AnswersAt([a], h) == if a.height == h then [a] else [];
    IdsConcat(AnswersAt(b.answers, h), AnswersAt([a], h));
    assert Ids([a]) == [a.id];
  }

  lemma SubscribeAccounted<T>(b: Book<T>, g: nat, id: nat, h: nat)
    requires Inv(b)
    ensures Accounted(ApplySubscribe(b, g, id), h) == if g == h then Accounted(b, h) + [id] else Accounted(b, h)
  {
    if Lookup(b, g).Some? {
      AnsweredAtOnce(b, Answer(g, id, Lookup(b, g).value), h);
      if g == h {
        DecidedNotParked(b, h);
      }
    } else {
      ParkedAccounted(b, g, id, h);
    }
  }

  lemma ParkedAccounted<T>(b: Book<T>, g: nat, id: nat, h: nat)
    requires Lookup(b, g).None?
    ensures Accounted(ApplySubscribe(b, g, id), h) == if g == h then Accounted(b, h) + [id] else Accounted(b, h)
  {
    var ids, parked := Ids(AnswersAt(b.answers, h)), WaitersAt(b.waiters, h);
    assert WaitersAt(ApplySubscribe(b, g, id).waiters, h) == if g == h then parked + [id] else parked;
    assert ids + (parked + [id]) == (ids + parked) + [id];
  }

  /**
   MAIN RESULT. No subscription is lost, duplicated or overtaken: at every height of every run
   the subscribers answered (in answer order) followed by those still parked are exactly the
   subscribers of that height, in subscription order.
   */
  lemma {:induction false} WaitersConserved<T>(msgs: seq<Message<T>>, h: nat)
    ensures Accounted(After(msgs), h) == Subscribers(msgs, h)
  {
    if msgs != [] {
      var p, m := msgs[..|msgs| - 1], msgs[|msgs| - 1];
      var b := After(p);
      AfterInv(p);
      WaitersConserved(p, h);
      match m {
        case Directive(d) => DirectiveLosesNobody(b, d, h);
        case PruneBelow(floor) =>
        case Subscribe(g, id) => SubscribeAccounted(b, g, id, h);
      }
    }
  }

  /**
   MAIN RESULT. A parked height has no directive and is at least max_seen, strictly so while
   max_seen still has its directive; hence no directive for a higher height ever arrived.
   */
  lemma ParkedIsUndecided<T>(msgs: seq<Message<T>>, h: nat)
    requires h in After(msgs).waiters
    ensures var b := After(msgs);
            && h !in b.directives
            && b.waiters[h] != []
            && (b.maxSeen.Some? ==> h >= b.maxSeen.value)
            && (b.maxSeen.Some? && b.maxSeen.value in b.directives ==> h > b.maxSeen.value)
    ensures !RouterPassed(msgs, h)
  {
    AfterInv(msgs);
    PassedIffHigher(msgs, h);
  }

  /** A prune removes exactly what is below the floor, and touches neither waiters nor answers. */
  lemma PruneForgetsBelow<T>(b: Book<T>, floor: nat, h: nat)
    ensures DirectiveAt(ApplyPrune(b, floor), h) == if h < floor then None else DirectiveAt(b, h)
    ensures TrailOf(ApplyPrune(b, floor), h) == TrailOf(b, h) && ApplyPrune(b, floor).maxSeen == b.maxSeen
  {
  }

  /** Waiters passed over by one directive are released lowest height first. */
  lemma {:induction false} SkippedLowestFirst<T>(waiters: map<nat, seq<nat>>, directives: map<nat, TaskDirective<T>>,
                                                 height: nat, i: nat, j: nat)
    requires i <= j < |SkipAnswers(waiters, directives, height)|
    ensures SkipAnswers(waiters, directives, height)[i].height <= SkipAnswers(waiters, directives, height)[j].height
  {
    if height > 0 {
      var below, last := SkipAnswers(waiters, directives, height - 1), SkipAt(waiters, directives, height - 1);
      if j < |below| {
        SkippedLowestFirst(waiters, directives, height - 1, i, j);
      } else {
        if height - 1 in waiters {
          SendMembers(height - 1, waiters[height - 1], Resolution<T>.Skipped);
        }
        SkipAnswersMembers(waiters, directives, height - 1);
        assert last[j - |below|] in last;
        if i < |below| {
          assert below[i] in below;
        } else {
          assert last[i - |below|] in last;
        }
      }
    }
  }

  /** Every parked height is above the highest height any directive named. */
  ghost predicate AllParkedAbove<T>(b: Book<T>) {
    forall h :: h in b.waiters && b.maxSeen.Some? ==> h > b.maxSeen.value
  }

  /**
   Every parked height stays strictly above max_seen, whoever subscribes next, exactly while
   max_seen still has its directive (or there is none yet).
   */
  lemma StrictlyAboveIff<T>(msgs: seq<Message<T>>)
    ensures var b := After(msgs);
            (forall h: nat, id: nat :: AllParkedAbove(ApplySubscribe(b, h, id)))
            <==> (b.maxSeen.Some? ==> b.maxSeen.value in b.directives)
  {
    AfterInv(msgs);
    var b := After(msgs);
    if b.maxSeen.Some? && b.maxSeen.value !in b.directives {
      ParksAtMaxSeen(b, 0);
      assert !AllParkedAbove(ApplySubscribe(b, b.maxSeen.value, 0));
    } else {
      forall h: nat, id: nat ensures AllParkedAbove(ApplySubscribe(b, h, id)) {
        ParksAbove(b, h, id);
      }
    }
  }

  lemma ParksAtMaxSeen<T>(b: Book<T>, id: nat)
    requires b.maxSeen.Some? && b.maxSeen.value !in b.directives
    ensures !AllParkedAbove(ApplySubscribe(b, b.maxSeen.value, id))
  {
    assert b.maxSeen.value in ApplySubscribe(b, b.maxSeen.value, id).waiters;
  }

  lemma ParksAbove<T>(b: Book<T>, h: nat, id: nat)
    requires Inv(b) && (b.maxSeen.Some? ==> b.maxSeen.value in b.directives)
    ensures AllParkedAbove(ApplySubscribe(b, h, id))
  {
  }

  /** Nothing is invented: a task handed out for h was announced for h by a delivered directive. */
  lemma {:induction false} AnnouncedOnlyIfDelivered<T>(msgs: seq<Message<T>>)
    ensures forall h :: h in After(msgs).directives ==> Directive(After(msgs).directives[h]) in msgs
    ensures forall a :: a in After(msgs).answers && a.resolution.Announced? ==>
                          Directive(Announce(a.height, a.resolution.task)) in msgs
  {
    if msgs != [] {
      var p, m := msgs[..|msgs| - 1], msgs[|msgs| - 1];
      assert msgs == p + [m];
      AfterInv(p);
      AnnouncedOnlyIfDelivered(p);
      StepAnswers(After(p), m);
    }
  }

  lemma {:induction false} SendMembers<T>(h: nat, ids: seq<nat>, r: Resolution<T>)
    ensures forall a :: a in Send(h, ids, r) ==> a.height == h && a.resolution == r
  {
    if ids != [] {
      SendMembers(h, ids[..|ids| - 1], r);
    }
  }

  lemma {:induction false} SkipAnswersMembers<T>(waiters: map<nat, seq<nat>>, directives: map<nat, TaskDirective<T>>,
                                                 height: nat)
    ensures forall a :: a in SkipAnswers(waiters, directives, height) ==> a.resolution == Skipped && a.height < height
  {
    if height > 0 {
      SkipAnswersMembers(waiters, directives, height - 1);
      var g := height - 1;
      if g in waiters && g !in directives {
        SendMembers(g, waiters[g], Resolution<T>.Skipped);
      }
    }
  }

  /** Every new answer is Skip, or the task of the recorded or just delivered directive of its height. */
  lemma StepAnswers<T>(b: Book<T>, m: Message<T>)
    requires Inv(b)
    ensures forall a :: a in Step(b, m).answers ==>
              || a in b.answers
              || a.resolution == Skipped
              || (a.height in b.directives && a.resolution == ResolutionOf(b.directives[a.height]))
              || (m.Directive? && !m.directive.TipReport? && a.height == m.directive.height &&
                  a.resolution == ResolutionOf(m.directive))
  {
    if m.Directive? && !m.directive.TipReport? {
      var d := m.directive;
      SendMembers(d.height, WaitersAt(b.waiters, d.height), ResolutionOf(d));
      SendMembers(d.height, WaitersAt(b.waiters, d.height), Resolution<T>.Skipped);
      SkipAnswersMembers(b.waiters - {d.height}, b.directives[d.height := d], d.height);
    }
  }

  /** Nothing is answered ahead of the router: every answer is for a height at or below max_seen. */
  ghost predicate AnswersSeen<T>(b: Book<T>) {
    forall a :: a in b.answers ==> b.maxSeen.Some? && a.height <= b.maxSeen.value
  }

  lemma StepAnswersSeen<T>(b: Book<T>, m: Message<T>)
    requires Inv(b) && AnswersSeen(b)
    ensures AnswersSeen(Step(b, m))
  {
    if m.Directive? && !m.directive.TipReport? {
      var d := m.directive;
      DirectiveStep(b, d);
      SendMembers(d.height, WaitersAt(b.waiters, d.height), ResolutionOf(d));
      SendMembers(d.height, WaitersAt(b.waiters, d.height), Resolution<T>.Skipped);
      SkipAnswersMembers(b.waiters - {d.height}, b.directives[d.height := d], d.height);
    }
  }

  /** The book can still record a directive for h. */
  predicate WithinHorizon<T>(b: Book<T>, h: nat) {
    b.maxSeen.Some? ==> h >= SatSub(b.maxSeen.value, PRUNE_SLACK)
  }

  /** A height once below the horizon stays there, and no task is handed out for it any more. */
  lemma BelowHorizonForGood<T>(b: Book<T>, m: Message<T>, h: nat)
    requires Inv(b) && !WithinHorizon(b, h)
    ensures !WithinHorizon(Step(b, m), h)
    ensures forall a :: a in Step(b, m).answers && a.height == h && a.resolution.Announced? ==> a in b.answers
  {
    StepAnswers(b, m);
    if m.Directive? {
      DirectiveStep(b, m.directive);
    }
  }

  /** The book can still come to hand out a task with the given digest for h, not having done so. */
  predicate CanRecord<T>(b: Book<T>, h: nat, validate: T -> Digest, d: Digest) {
    && WithinHorizon(b, h)
    && (h in b.directives ==> b.directives[h].Announce? && validate(b.directives[h].task) == d)
  }

  /** What a book has recorded otherwise, or has left below its horizon, it never hands out that task for. */
  lemma CanRecordShrinks<T>(b: Book<T>, m: Message<T>, h: nat, validate: T -> Digest, d: Digest)
    requires Inv(b) && CanRecord(Step(b, m), h, validate, d)
    requires m.PruneBelow? ==> m.floor <= h
    ensures CanRecord(b, h, validate, d)
  {
    if m.Directive? {
      DirectiveStep(b, m.directive);
      if Recordable(b, m.directive) {
        RecordDirectives(b, m.directive, h);
      }
    }
  }

  lemma NewTaskCouldBeRecorded<T>(b: Book<T>, m: Message<T>, a: Answer<T>, validate: T -> Digest)
    requires Inv(b) && a in Step(b, m).answers && a !in b.answers && a.resolution.Announced?
    ensures CanRecord(b, a.height, validate, validate(a.resolution.task))
  {
    StepAnswers(b, m);
  }

  /** A directive at or above h decides h. */
  lemma HeardDecides<T>(b: Book<T>, d: TaskDirective<T>, h: nat)
    requires Inv(b) && !d.TipReport? && d.height >= h
    ensures Lookup(ApplyDirective(b, d), h).Some?
  {
    DirectiveStep(b, d);
  }

  /** An announcement heard within the horizon, while nothing is recorded for its height, is what the book answers. */
  lemma HeardAnnounces<T>(b: Book<T>, h: nat, task: T)
    requires Inv(b) && WithinHorizon(b, h) && h !in b.directives
    ensures Lookup(ApplyDirective(b, Announce(h, task)), h) == Some(Announced(task))
  {
    RecordDirectives(b, Announce(h, task), h);
  }

  /** The log is bounded however long the run. */
  lemma LogIsBounded<T>(msgs: seq<Message<T>>)
    ensures |After(msgs).directives| <= PRUNE_SLACK + 1
  {
    AfterInv(msgs);
    var b := After(msgs);
    if b.maxSeen.Some? {
      IntervalCardinality(b.directives.Keys, SatSub(b.maxSeen.value, PRUNE_SLACK), b.maxSeen.value + 1);
    } else {
      assert b.directives == map[];
    }
  }

  /**
   The floor in `Remembered` is needed, and the parked height need not exceed max_seen: after an
   external prune past the only announced height, a subscription there parks at max_seen itself.
   */
  lemma ExternalPruneForgets<T>(task: T, id: nat)
    ensures var msgs := [Directive(Announce(5, task)), PruneBelow(6), Subscribe(5, id)];
            && Decided(msgs, 5) == Some(Announced(task))
            && After(msgs).waiters == map[5 := [id]]
            && After(msgs).maxSeen == Some(5)
  {
    var m0: Message<T> := Directive(Announce(5, task));
    var m1: Message<T> := PruneBelow(6);
    var m2: Message<T> := Subscribe(5, id);
    var msgs := [m0, m1, m2];
    assert msgs[..2] == [m0, m1] && [m0, m1][..1] == [m0] && [m0][..0] == [];
    assert After([m0]) == ApplyDirective(Empty(), m0.directive);
    assert After([m0]).directives == map[5 := m0.directive];
    assert After([m0]).waiters == map[];
    assert After([m0, m1]) == ApplyPrune(After([m0]), 6);
    assert After([m0, m1]).directives == map[];
    assert After([m0, m1]).waiters == map[];
    assert After(msgs) == ApplySubscribe(After([m0, m1]), 5, id);
    assert WaitersAt(map[], 5) + [id] == [id];
    assert FirstAnnounced([m0], 5) == Some(task);
    assert FirstAnnounced([m0, m1], 5) == Some(task);
  }
}
