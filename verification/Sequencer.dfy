/**
 The router's height allocator: one outstanding height, driven until it resolves.

 The environment is a script of events, one for each time the sequencer resumes from an
 await (plus the tip reports another task records in between). `Step` is what one event
 does; class `Sequencer` is the source's nested loops over such a script.
 */
module Sequencer {
  import opened Common
  import opened Wire
  import TR = TipReports

  datatype SequencedTask<T> = SequencedTask(task: T, announce: T, digest: Digest)

  datatype Assignment<T> = Assignment(digest: Digest, task: T)

  datatype ResolutionKind = Executed(success: bool) | Skipped | Foreign

  /** A certified height's final disposition, sent by the submitter. */
  datatype Resolution = Resolution(height: nat, kind: ResolutionKind)

  datatype Event<T> =
    /** Idle: the buffered resolutions are drained, then the source yields a task. */
    | Pull(buffered: seq<Resolution>, task: SequencedTask<T>)
    /** Idle: the same, and the source is exhausted. */
    | Exhausted(buffered: seq<Resolution>)
    /** A task is pending: resolutions are drained, the reporter tip is read, a height is assigned at time `now`. */
    | Assign(buffered: seq<Resolution>, reporterTip: nat, now: nat)
    /** Driving: a resolution arrives. */
    | Recv(resolution: Resolution)
    /** Driving: the resolution channel closed. */
    | Closed
    /** Driving: the rebroadcast timer fires; `certSeen` is what the reporter answers if asked. */
    | Tick(certSeen: bool, now: nat)
    /** At any time: a node's tip report is recorded. */
    | TipReported(peer: nat, tip: nat)

  datatype Mode<T> =
    | Idle
    | Pending(task: SequencedTask<T>)
    | Driving(height: nat, task: SequencedTask<T>, deadline: nat, skipping: bool, certified: bool)
    | Stopped

  datatype HeightOutcome = Resolved(kind: ResolutionKind) | Superseded | ChannelClosed

  /** One assignment of a height to the task pulled as number `index`. */
  datatype Placement<T> = Placement(height: nat, task: SequencedTask<T>, index: nat)

  /** A task the sequencer is done with. */
  datatype Fate<T> = Fate(task: SequencedTask<T>, height: nat, kind: ResolutionKind)

  /** The sequencer's state and, from `trace` on, the history of its run. */
  datatype Seq<T> = Seq(
    next: nat,
    reports: map<nat, nat>,
    maxFaults: nat,
    timeout: nat,
    assignments: map<nat, Assignment<T>>,
    mode: Mode<T>,
    trace: seq<TaskDirective<T>>,
    pulled: seq<SequencedTask<T>>,
    placements: seq<Placement<T>>,
    fates: seq<Fate<T>>,
    superseded: seq<nat>,
    abandoned: seq<SequencedTask<T>>,
    /** How every drive that is over ended, in order. */
    outcomes: seq<HeightOutcome>
  ) {
    ghost function SafeTip(): nat {
      TR.SafeTipOf(reports, maxFaults)
    }
  }

  /** next_height after the given resolutions of other heights were observed. */
  function Drained(next: nat, buffered: seq<Resolution>): nat {
    if buffered == [] then next
    else Max(Drained(next, buffered[..|buffered| - 1]), buffered[|buffered| - 1].height + 1)
  }

  /** The height an assignment takes. */
  ghost function NextHeight<T>(s: Seq<T>, buffered: seq<Resolution>, reporterTip: nat): nat {
    Max(Max(Drained(s.next, buffered), reporterTip), s.SafeTip())
  }

  ghost function Assigned<T>(s: Seq<T>, buffered: seq<Resolution>, reporterTip: nat, now: nat): Seq<T>
    requires s.mode.Pending?
  {
    var height, task := NextHeight(s, buffered, reporterTip), s.mode.task;
    s.(next := height + 1,
       assignments := s.assignments[height := Assignment(task.digest, task.task)],
       mode := Driving(height, task, now + s.timeout, false, false),
       trace := s.trace + [Announce(height, task.announce)],
       placements := s.placements + [Placement(height, task, SatSub(|s.pulled|, 1))])
  }

  /** Whether an event ends the drive of the current height, and how. */
  ghost function OutcomeOf<T>(s: Seq<T>, e: Event<T>): Option<HeightOutcome>
    requires s.mode.Driving?
  {
    match e
    case Recv(r) => if r.height == s.mode.height then Some(Resolved(r.kind)) else None
    case Closed => Some(ChannelClosed)
    case Tick(certSeen, _) =>
      if !s.mode.certified && !certSeen && s.SafeTip() > s.mode.height then Some(Superseded) else None
    case _ => None
  }

  ghost function Finished<T>(s: Seq<T>, outcome: HeightOutcome): Seq<T>
    requires s.mode.Driving?
  {
    var released := s.(assignments := s.assignments - {s.mode.height}, outcomes := s.outcomes + [outcome]);
    match outcome
    case Resolved(Foreign) => released.(mode := Pending(s.mode.task))
    case Resolved(kind) => released.(mode := Idle, fates := s.fates + [Fate(s.mode.task, s.mode.height, kind)])
    case Superseded => released.(mode := Pending(s.mode.task), superseded := s.superseded + [s.SafeTip()])
    case ChannelClosed => released.(mode := Stopped, abandoned := s.abandoned + [s.mode.task])
  }

  /** A rebroadcast tick that does not supersede the height. */
  function Ticked<T>(s: Seq<T>, certSeen: bool, now: nat): Seq<T>
    requires s.mode.Driving?
  {
    if s.mode.certified || certSeen then s.(mode := s.mode.(certified := true))
    else
      var skipping := s.mode.skipping || now >= s.mode.deadline;
      s.(mode := s.mode.(skipping := skipping),
         trace := s.trace + [if skipping then Skip(s.mode.height) else Announce(s.mode.height, s.mode.task.announce)])
  }

  ghost function StepDriving<T>(s: Seq<T>, e: Event<T>): Seq<T>
    requires s.mode.Driving?
  {
    if OutcomeOf(s, e).Some? then Finished(s, OutcomeOf(s, e).value)
    else
      match e
      case Recv(r) => s.(next := Max(s.next, r.height + 1))
      case Tick(certSeen, now) => Ticked(s, certSeen, now)
      case _ => s
  }

  /** One event. An event the current await does not select for is not observed. */
  ghost function Step<T>(s: Seq<T>, e: Event<T>): Seq<T> {
    if s.mode.Stopped? then s
    else if e.TipReported? then s.(reports := TR.Recorded(s.reports, e.peer, e.tip))
    else if s.mode.Idle? then
      match e
      case Pull(buffered, task) =>
        s.(next := Drained(s.next, buffered), mode := Pending(task), pulled := s.pulled + [task])
      case Exhausted(buffered) => s.(next := Drained(s.next, buffered), mode := Stopped)
      case _ => s
    else if s.mode.Pending? then
      if e.Assign? then Assigned(s, e.buffered, e.reporterTip, e.now) else s
    else StepDriving(s, e)
  }

  ghost function StepAll<T>(s: Seq<T>, env: seq<Event<T>>): Seq<T> {
    if env == [] then s else Step(StepAll(s, env[..|env| - 1]), env[|env| - 1])
  }

  /** The events env[i..j], from state s. */
  ghost function StepFrom<T>(s: Seq<T>, env: seq<Event<T>>, i: nat, j: nat): Seq<T>
    requires i <= j <= |env|
    decreases j - i
  {
    if i == j then s else Step(StepFrom(s, env, i, j - 1), env[j - 1])
  }

  lemma {:induction false} StepFromStart<T>(s: Seq<T>, env: seq<Event<T>>, j: nat)
    requires j <= |env|
    ensures StepFrom(s, env, 0, j) == StepAll(s, env[..j])
  {
    if j > 0 {
      StepFromStart(s, env, j - 1);
      assert env[..j][..j - 1] == env[..j - 1];
    }
  }

  lemma {:induction false} StepFromJoin<T>(s: Seq<T>, env: seq<Event<T>>, i: nat, j: nat, k: nat)
    requires i <= j <= k <= |env|
    ensures StepFrom(s, env, i, k) == StepFrom(StepFrom(s, env, i, j), env, j, k)
    decreases k
  {
    if j < k {
      StepFromJoin(s, env, i, j, k - 1);
    }
  }

  /** The state after the settle delay, for a reporter tip and the reports received meanwhile. */
  ghost function Start<T>(reports: map<nat, nat>, maxFaults: nat, timeout: nat, reporterTip: nat): Seq<T> {
    Seq(Max(reporterTip, TR.SafeTipOf(reports, maxFaults)), reports, maxFaults, timeout, map[], Idle,
        [], [], [], [], [], [], [])
  }

  class Sequencer<T(0)> {
    const tipReports: TR.TipReports<nat>
    const roundTimeout: nat
    var nextHeight: nat
    var assignments: map<nat, Assignment<T>>
    /** Every directive broadcast, in order. */
    var trace: seq<TaskDirective<T>>
    ghost var pulled: seq<SequencedTask<T>>
    ghost var placements: seq<Placement<T>>
    ghost var fates: seq<Fate<T>>
    ghost var superseded: seq<nat>
    ghost var abandoned: seq<SequencedTask<T>>
    ghost var outcomes: seq<HeightOutcome>

    /** The state, given where in its code the sequencer is waiting. */
    ghost function State(mode: Mode<T>): Seq<T>
      reads this, tipReports
    {
      Seq(nextHeight, tipReports.reports, tipReports.maxFaults, roundTimeout, assignments, mode,
          trace, pulled, placements, fates, superseded, abandoned, outcomes)
    }

    constructor (tipReports: TR.TipReports<nat>, roundTimeout: nat)
      ensures this.tipReports == tipReports && this.roundTimeout == roundTimeout
      ensures State(Idle) == Start<T>(tipReports.reports, tipReports.maxFaults, roundTimeout, 0).(next := 0)
    {
      this.tipReports, this.roundTimeout := tipReports, roundTimeout;
      nextHeight, assignments, trace := 0, map[], [];
      pulled, placements, fates, superseded, abandoned, outcomes := [], [], [], [], [], [];
    }

    method DrainResolutions(buffered: seq<Resolution>)
      modifies this`nextHeight
      ensures nextHeight == Drained(old(nextHeight), buffered)
    {
      for i := 0 to |buffered|
        invariant nextHeight == Drained(old(nextHeight), buffered[..i])
      {
        assert buffered[..i + 1][..i] == buffered[..i];
        nextHeight := Max(nextHeight, buffered[i].height + 1);
      }
      assert buffered[..|buffered|] == buffered;
    }

    /** The timer branch of the drive: latches, then broadcasts unless the height is certified or superseded. */
    method OnTick(height: nat, task: SequencedTask<T>, deadline: nat, skipping: bool, certified: bool,
                  certSeen: bool, now: nat)
      returns (superseded: bool, skipping': bool, certified': bool)
      modifies this`trace
      ensures var s, e := old(State(Driving(height, task, deadline, skipping, certified))), Tick(certSeen, now);
              && (superseded ==> OutcomeOf(s, e) == Some(Superseded) && trace == old(trace))
              && (!superseded ==>
                    OutcomeOf(s, e) == None &&
                    State(Driving(height, task, deadline, skipping', certified')) == Ticked(s, certSeen, now))
    {
      skipping', certified' := skipping, certified;
      if certified || certSeen {
        return false, skipping, true;
      }
      var safeTip := tipReports.SafeTip();
      if safeTip > height {
        return true, skipping, certified;
      }
      if !skipping && now >= deadline {
        skipping' := true;
      }
      trace := trace + [if skipping' then Skip(height) else Announce(height, task.announce)];
      return false, skipping', certified;
    }

    /** One turn of the drive loop: a resolution, a timer tick, or the channel closing. */
    method DriveEvent(height: nat, task: SequencedTask<T>, deadline: nat, skipping: bool, certified: bool, e: Event<T>)
      returns (outcome: Option<HeightOutcome>, skipping': bool, certified': bool)
      modifies this`nextHeight, this`trace, tipReports
      ensures var s := old(State(Driving(height, task, deadline, skipping, certified)));
              && outcome == OutcomeOf(s, e)
              && State(Driving(height, task, deadline, skipping', certified')) ==
                 if outcome.Some? then s else Step(s, e)
    {
      outcome, skipping', certified' := None, skipping, certified;
      match e {
        case Recv(r) =>
          if r.height == height {
            outcome := Some(Resolved(r.kind));
          } else {
            nextHeight := Max(nextHeight, r.height + 1);
          }
        case Closed =>
          outcome := Some(ChannelClosed);
        case Tick(certSeen, now) =>
          var passed, skip, cert := OnTick(height, task, deadline, skipping, certified, certSeen, now);
          if passed {
            outcome := Some(Superseded);
          } else {
            skipping', certified' := skip, cert;
          }
        case TipReported(peer, tip) =>
          tipReports.Record(peer, tip);
        case _ =>
      }
    }

    /**
     Broadcasts the directive for `height` from script position `start` on, until an event ends
     the drive (`outcome`) or the script does. `mode` is where the drive stood at that event.
     */
    method DriveHeight(height: nat, task: SequencedTask<T>, now: nat, env: seq<Event<T>>, start: nat)
      returns (outcome: Option<HeightOutcome>, pos: nat, ghost mode: Mode<T>)
      requires start <= |env|
      modifies this`nextHeight, this`trace, tipReports
      ensures start <= pos <= |env| && (pos < |env| ==> outcome.Some?)
      ensures mode.Driving? && mode.height == height && mode.task == task
      ensures State(mode) == StepFrom(old(State(Driving(height, task, now + roundTimeout, false, false))
                                         .(trace := trace + [Announce(height, task.announce)])), env, start, pos)
      ensures outcome == if pos < |env| then OutcomeOf(State(mode), env[pos]) else None
    {
      var deadline := now + roundTimeout;
      var skipping, certified := false, false;
      trace := trace + [Announce(height, task.announce)];
      pos, outcome := start, None;
      mode := Driving(height, task, deadline, skipping, certified);
      ghost var s0 := State(mode);
      while pos < |env|
        invariant start <= pos <= |env|
        invariant outcome.None?
        invariant mode == Driving(height, task, deadline, skipping, certified)
        invariant State(mode) == StepFrom(s0, env, start, pos)
      {
        outcome, skipping, certified := DriveEvent(height, task, deadline, skipping, certified, env[pos]);
        if outcome.Some? {
          mode := Driving(height, task, deadline, skipping, certified);
          return;
        }
        mode := Driving(height, task, deadline, skipping, certified);
        pos := pos + 1;
      }
    }

    /** Assigns the next height to the pending task. */
    method AssignNext(task: SequencedTask<T>, buffered: seq<Resolution>, reporterTip: nat, now: nat)
      returns (height: nat)
      modifies this`nextHeight, this`assignments, this`placements
      ensures var s := old(State(Pending(task)));
              && height == NextHeight(s, buffered, reporterTip)
              && State(Driving(height, task, now + roundTimeout, false, false))
                 .(trace := trace + [Announce(height, task.announce)]) ==
                 Assigned(s, buffered, reporterTip, now)
    {
      DrainResolutions(buffered);
      var safeTip := tipReports.SafeTip();
      nextHeight := Max(Max(nextHeight, reporterTip), safeTip);
      height := nextHeight;
      nextHeight := nextHeight + 1;
      assignments := assignments[height := Assignment(task.digest, task.task)];
      placements := placements + [Placement(height, task, SatSub(|pulled|, 1))];
    }

    /** Releases the height and decides what becomes of the task: still pending, done, or dropped at shutdown. */
    method Settle(height: nat, task: SequencedTask<T>, outcome: HeightOutcome, ghost driven: Mode<T>)
      returns (pending: bool, stopped: bool)
      requires driven.Driving? && driven.height == height && driven.task == task
      modifies this`assignments, this`fates, this`superseded, this`abandoned, this`outcomes
      ensures pending ==> !stopped
      ensures State(if stopped then Stopped else if pending then Pending(task) else Idle) ==
              Finished(old(State(driven)), outcome)
    {
      assignments := assignments - {height};
      outcomes := outcomes + [outcome];
      pending, stopped := false, false;
      match outcome {
        case Resolved(Executed(success)) =>
          fates := fates + [Fate(task, height, Executed(success))];
        case Resolved(Skipped) =>
          fates := fates + [Fate(task, height, Skipped)];
        case Resolved(Foreign) =>
          pending := true;
        case Superseded =>
          superseded := superseded + [TR.SafeTipOf(tipReports.reports, tipReports.maxFaults)];
          pending := true;
        case ChannelClosed =>
          abandoned := abandoned + [task];
          stopped := true;
      }
    }

    /** Assigns a height to `task` at the Assign event env[start] and drives it. */
    method PlaceTask(task: SequencedTask<T>, env: seq<Event<T>>, start: nat)
      returns (height: nat, outcome: Option<HeightOutcome>, pos: nat, ghost mode: Mode<T>)
      requires start < |env| && env[start].Assign?
      modifies this, tipReports
      ensures start < pos <= |env| && (pos < |env| ==> outcome.Some?)
      ensures mode.Driving? && mode.height == height && mode.task == task
      ensures State(mode) == StepFrom(old(State(Pending(task))), env, start, pos)
      ensures outcome == if pos < |env| then OutcomeOf(State(mode), env[pos]) else None
    {
      ghost var s0 := State(Pending(task));
      var from := start + 1;
      height := AssignNext(task, env[start].buffered, env[start].reporterTip, env[start].now);
      ghost var s1 := State(Driving(height, task, env[start].now + roundTimeout, false, false))
                      .(trace := trace + [Announce(height, task.announce)]);
      assert s1 == StepFrom(s0, env, start, from);
      outcome, pos, mode := DriveHeight(height, task, env[start].now, env, from);
      StepFromJoin(s0, env, start, from, pos);
    }

    /** One turn with a pending task: an assignment that is driven to its end, or a tip report. */
    method TaskTurn(task: SequencedTask<T>, env: seq<Event<T>>, start: nat)
      returns (pos: nat, pending: bool, stopped: bool, ghost mode: Mode<T>)
      requires start < |env|
      modifies this, tipReports
      ensures start < pos <= |env|
      ensures stopped ==> mode.Stopped?
      ensures !stopped && pos < |env| ==> mode == if pending then Pending(task) else Idle
      ensures State(mode) == StepFrom(old(State(Pending(task))), env, start, pos)
    {
      ghost var s0 := State(Pending(task));
      pending, stopped := true, false;
      if env[start].Assign? {
        var height, outcome;
        height, outcome, pos, mode := PlaceTask(task, env, start);
        if outcome.Some? {
          ghost var driven := mode;
          pending, stopped := Settle(height, task, outcome.value, driven);
          mode := if stopped then Stopped else if pending then Pending(task) else Idle;
          pos := pos + 1;
        }
      } else {
        if env[start].TipReported? {
          tipReports.Record(env[start].peer, env[start].tip);
        }
        pos, mode := start + 1, Pending(task);
      }
    }

    /** Assigns heights to `task` from script position `start` on, until it is consumed or the script ends. */
    method RunTask(task: SequencedTask<T>, env: seq<Event<T>>, start: nat)
      returns (pos: nat, stopped: bool, ghost mode: Mode<T>)
      requires start <= |env|
      modifies this, tipReports
      ensures start <= pos <= |env|
      ensures stopped ==> mode.Stopped?
      ensures !stopped && pos < |env| ==> mode.Idle?
      ensures State(mode) == StepFrom(old(State(Pending(task))), env, start, pos)
    {
      pos, mode, stopped := start, Pending(task), false;
      ghost var s0 := State(mode);
      var pending := true;
      while pending && !stopped && pos < |env|
        invariant start <= pos <= |env|
        invariant stopped ==> mode.Stopped?
        invariant !stopped && pos < |env| ==> mode == if pending then Pending(task) else Idle
        invariant State(mode) == StepFrom(s0, env, start, pos)
        decreases |env| - pos
      {
        var from := pos;
        pos, pending, stopped, mode := TaskTurn(task, env, from);
        StepFromJoin(s0, env, start, from, pos);
      }
    }

    /** One turn of the main loop: waits for a task at env[start] and works on it. */
    method NextTask(env: seq<Event<T>>, start: nat) returns (pos: nat, stopped: bool, ghost mode: Mode<T>)
      requires start < |env|
      modifies this, tipReports
      ensures start < pos <= |env|
      ensures stopped ==> mode.Stopped?
      ensures !stopped && pos < |env| ==> mode.Idle?
      ensures State(mode) == StepFrom(old(State(Idle)), env, start, pos)
    {
      pos, stopped, mode := start + 1, false, Idle;
      ghost var s0 := State(Idle);
      match env[start] {
        case Exhausted(buffered) =>
          DrainResolutions(buffered);
          stopped, mode := true, Stopped;
        case Pull(buffered, task) =>
          DrainResolutions(buffered);
          pulled := pulled + [task];
          var from := start + 1;
          ghost var s1 := State(Pending(task));
          pos, stopped, mode := RunTask(task, env, from);
          assert s1 == StepFrom(s0, env, start, from);
          StepFromJoin(s0, env, start, from, pos);
        case TipReported(peer, reported) =>
          tipReports.Record(peer, reported);
        case _ =>
      }
    }

    /**
     The main loop over the script `env`, up to its end or to the sequencer's shutdown.
     The settle delay is over: `tip` is the reporter tip read after it.
     */
    method Run(tip: nat, env: seq<Event<T>>) returns (pos: nat, ghost mode: Mode<T>)
      requires State(Idle) == Start<T>(tipReports.reports, tipReports.maxFaults, roundTimeout, 0).(next := 0)
      modifies this, tipReports
      ensures pos <= |env| && (pos < |env| ==> mode.Stopped?)
      ensures State(mode) ==
              StepAll(Start<T>(old(tipReports.reports), tipReports.maxFaults, roundTimeout, tip), env[..pos])
    {
      var safeTip := tipReports.SafeTip();
      nextHeight := Max(tip, safeTip);
      pos, mode := 0, Idle;
      var stopped := false;
      ghost var s0 := State(mode);
      while pos < |env| && !stopped
        invariant pos <= |env|
        invariant stopped ==> mode.Stopped?
        invariant !stopped && pos < |env| ==> mode.Idle?
        invariant State(mode) == StepFrom(s0, env, 0, pos)
      {
        var from := pos;
        pos, stopped, mode := NextTask(env, from);
        StepFromJoin(s0, env, 0, from, pos);
      }
      StepFromStart(s0, env, pos);
    }
  }
}
