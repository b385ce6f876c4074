/**
 The node's directive log: resolves aggregation heights to the router's directives.

 `Book` and `Step` specify the actor, class `TaskBook` is the actor. The module
 TaskBookHistory relates the actor to the message history alone.
 */
module TaskBook {
  import opened Common
  import opened Consensus
  import opened Wire

  /** How a height resolved. */
  datatype Resolution<T> = Announced(task: T) | Skipped

  datatype Message<T> =
    | Directive(directive: TaskDirective<T>)
    | Subscribe(height: nat, id: nat)
    | PruneBelow(floor: nat)

  /** A resolution sent to the subscriber `id` of `height`. */
  datatype Answer<T> = Answer(height: nat, id: nat, resolution: Resolution<T>)

  /** The actor's state, with everything it has sent. A subscriber is named by an id. */
  datatype Book<T> = Book(
    directives: map<nat, TaskDirective<T>>,
    maxSeen: Option<nat>,
    waiters: map<nat, seq<nat>>,
    answers: seq<Answer<T>>
  )

  function Empty<T>(): Book<T> {
    Book(map[], None, map[], [])
  }

  function ResolutionOf<T>(d: TaskDirective<T>): Resolution<T> {
    if d.Announce? then Announced(d.task) else Skipped
  }

  /** The same resolution sent to each of `ids` in order. */
  function Send<T>(height: nat, ids: seq<nat>, r: Resolution<T>): seq<Answer<T>> {
    if ids == [] then [] else Send(height, ids[..|ids| - 1], r) + [Answer(height, ids[|ids| - 1], r)]
  }

  function WaitersAt(waiters: map<nat, seq<nat>>, h: nat): seq<nat> {
    if h in waiters then waiters[h] else []
  }

  /** What skip rule 2 sends to the waiters parked at `height`. */
  function SkipAt<T>(waiters: map<nat, seq<nat>>, directives: map<nat, TaskDirective<T>>,
                     height: nat): seq<Answer<T>> {
    if height in waiters && height !in directives then Send(height, waiters[height], Skipped) else []
  }

  /** What skip rule 2 sends to the waiters parked below `height`, lowest first. */
  function SkipAnswers<T>(waiters: map<nat, seq<nat>>, directives: map<nat, TaskDirective<T>>,
                          height: nat): seq<Answer<T>> {
    if height == 0 then []
    else SkipAnswers(waiters, directives, height - 1) + SkipAt(waiters, directives, height - 1)
  }

  function SkipWaiters<T>(waiters: map<nat, seq<nat>>, directives: map<nat, TaskDirective<T>>,
                          height: nat): map<nat, seq<nat>> {
    map h | h in waiters && !(h < height && h !in directives) :: waiters[h]
  }

  /** A directive for a height that has none recorded. */
  function Record<T>(b: Book<T>, d: TaskDirective<T>): Book<T> {
    var recorded := Book(b.directives[d.height := d], b.maxSeen, b.waiters - {d.height},
                         b.answers + Send(d.height, WaitersAt(b.waiters, d.height), ResolutionOf(d)));
    if b.maxSeen.Some? && d.height <= b.maxSeen.value then recorded
    else Book(KeepFrom(recorded.directives, SatSub(d.height, PRUNE_SLACK)), Some(d.height),
              SkipWaiters(recorded.waiters, recorded.directives, d.height),
              recorded.answers + SkipAnswers(recorded.waiters, recorded.directives, d.height))
  }

  function ApplyDirective<T(==)>(b: Book<T>, d: TaskDirective<T>): Book<T> {
    if d.TipReport? then b
    else if d.height in b.directives then
      if b.directives[d.height].Announce? && d.Skip? then
        b.(directives := b.directives[d.height := d],
           waiters := b.waiters - {d.height},
           answers := b.answers + Send(d.height, WaitersAt(b.waiters, d.height), Skipped))
      else b
    else if b.maxSeen.Some? && d.height < SatSub(b.maxSeen.value, PRUNE_SLACK) then b
    else Record(b, d)
  }

  /** The resolution a subscription would get now; None parks it. */
  function Lookup<T>(b: Book<T>, h: nat): Option<Resolution<T>> {
    if h in b.directives then Some(ResolutionOf(b.directives[h]))
    else if b.maxSeen.Some? && h < b.maxSeen.value then Some(Skipped)
    else None
  }

  function ApplySubscribe<T>(b: Book<T>, h: nat, id: nat): Book<T> {
    match Lookup(b, h)
    case Some(r) => b.(answers := b.answers + [Answer(h, id, r)])
    case None => b.(waiters := b.waiters[h := WaitersAt(b.waiters, h) + [id]])
  }

  function ApplyPrune<T>(b: Book<T>, floor: nat): Book<T> {
    b.(directives := KeepFrom(b.directives, floor))
  }

  function Step<T(==)>(b: Book<T>, m: Message<T>): Book<T> {
    match m
    case Directive(d) => ApplyDirective(b, d)
    case Subscribe(h, id) => ApplySubscribe(b, h, id)
    case PruneBelow(floor) => ApplyPrune(b, floor)
  }

  function After<T(==)>(msgs: seq<Message<T>>): Book<T> {
    if msgs == [] then Empty() else Step(After(msgs[..|msgs| - 1]), msgs[|msgs| - 1])
  }

  /** The actor. */
  class TaskBook<T(==)> {
    var directives: map<nat, TaskDirective<T>>
    var maxSeen: Option<nat>
    var waiters: map<nat, seq<nat>>
    /** Everything sent through a responder, in order. */
    var answers: seq<Answer<T>>

    function State(): Book<T>
      reads this
    {
      Book(directives, maxSeen, waiters, answers)
    }

    constructor ()
      ensures State() == Empty<T>()
    {
      directives, maxSeen, waiters, answers := map[], None, map[], [];
    }

    method SendAll(height: nat, ids: seq<nat>, r: Resolution<T>)
      modifies this`answers
      ensures answers == old(answers) + Send(height, ids, r)
    {
      for i := 0 to |ids|
        invariant answers == old(answers) + Send(height, ids[..i], r)
      {
        assert ids[..i + 1][..i] == ids[..i];
        answers := answers + [Answer(height, ids[i], r)];
      }
      assert ids[..|ids|] == ids;
    }

    /** Removes and answers the waiters parked at `height`, if any. */
    method Release(height: nat, r: Resolution<T>)
      modifies this`answers, this`waiters
      ensures waiters == old(waiters) - {height}
      ensures answers == old(answers) + Send(height, WaitersAt(old(waiters), height), r)
    {
      if height in waiters {
        var parked := waiters[height];
        waiters := waiters - {height};
        SendAll(height, parked, r);
      }
    }

    method HandleDirective(d: TaskDirective<T>)
      modifies this
      ensures State() == ApplyDirective(old(State()), d)
    {
      if d.TipReport? {
        return;
      }
      if d.height in directives {
        var existing := directives[d.height];
        if existing == d {
        } else if existing.Announce? && d.Skip? {
          directives := directives[d.height := d];
          Release(d.height, Skipped);
        }
        return;
      }
      if maxSeen.Some? && d.height < SatSub(maxSeen.value, PRUNE_SLACK) {
        return;
      }
      directives := directives[d.height := d];
      Release(d.height, ResolutionOf(d));
      if maxSeen.None? || d.height > maxSeen.value {
        maxSeen := Some(d.height);
        SkipBelow(d.height);
        PruneBelow(SatSub(d.height, PRUNE_SLACK));
      }
    }

    /** Skip rule 2: releases every waiter parked below `height`, lowest first. */
    method SkipBelow(height: nat)
      modifies this`answers, this`waiters
      ensures waiters == SkipWaiters(old(waiters), directives, height)
      ensures answers == old(answers) + SkipAnswers(old(waiters), directives, height)
    {
      ghost var parked := waiters;
      for h := 0 to height
        invariant waiters == SkipWaiters(parked, directives, h)
        invariant answers == old(answers) + SkipAnswers(parked, directives, h)
      {
        if h in waiters {
          if h !in directives {
            Release(h, Skipped);
          }
        }
      }
    }

    method HandleSubscribe(height: nat, id: nat)
      modifies this
      ensures State() == ApplySubscribe(old(State()), height, id)
    {
      if height in directives {
        answers := answers + [Answer(height, id, ResolutionOf(directives[height]))];
        return;
      }
      if maxSeen.Some? && height < maxSeen.value {
        answers := answers + [Answer(height, id, Skipped)];
        return;
      }
      waiters := waiters[height := WaitersAt(waiters, height) + [id]];
    }

    method PruneBelow(floor: nat)
      modifies this`directives
      ensures State() == ApplyPrune(old(State()), floor)
    {
      directives := KeepFrom(directives, floor);
    }

    /** The actor loop over a mailbox that delivers `mailbox` and then closes. */
    method Run(mailbox: seq<Message<T>>)
      requires State() == Empty<T>()
      modifies this
      ensures State() == After(mailbox)
    {
      for i := 0 to |mailbox|
        invariant State() == After(mailbox[..i])
      {
        assert mailbox[..i + 1][..i] == mailbox[..i];
        match mailbox[i] {
          case Directive(d) => HandleDirective(d);
          case Subscribe(h, id) => HandleSubscribe(h, id);
          case PruneBelow(floor) => PruneBelow(floor);
        }
      }
      assert mailbox[..|mailbox|] == mailbox;
    }
  }
}
