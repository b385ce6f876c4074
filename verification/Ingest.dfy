/**
 The node's side of the directive channel: which messages reach the task book, and when the
 node answers a stale directive with its own tip.

 A run is the sequence of messages received, with the clock and the engine tip read at each.
 */
module Ingest {
  import opened Common
  import opened Wire

  const U64_MAX: nat := U64_BOUND - 1

  datatype Received = Received(peer: nat, message: seq<Byte>, now: nat, tip: nat)

  /** A tip report sent to the router, and when. */
  datatype Report = Report(now: nat, tip: nat)

  datatype Settings<!T> = Settings(router: nat, window: nat, minInterval: nat, heights: Codec<nat>, tasks: Codec<T>)

  datatype Ingested<T> = Ingested(
    delivered: seq<TaskDirective<T>>,
    reports: seq<Report>,
    /** When the operator was warned of a directive beyond the proposal window. */
    warnings: seq<nat>
  )

  /** The rate limit: the last event is at least the interval ago. */
  predicate Due(last: Option<nat>, now: nat, minInterval: nat) {
    last.None? || SatSub(now, last.value) >= minInterval
  }

  function LastReport<T>(i: Ingested<T>): Option<nat> {
    if i.reports == [] then None else Some(i.reports[|i.reports| - 1].now)
  }

  function LastWarning<T>(i: Ingested<T>): Option<nat> {
    if i.warnings == [] then None else Some(i.warnings[|i.warnings| - 1])
  }

  /** u64 addition that saturates: an overflowing end of the window is unreachable. */
  predicate BeyondWindow(height: nat, tip: nat, window: nat) {
    height >= Min(tip + window, U64_MAX)
  }

  /** The height directive a message of the router carries; everything else is dropped. */
  function DirectiveIn<T>(c: Settings<T>, r: Received): Option<TaskDirective<T>> {
    if r.peer != c.router then None
    else
      var d := Decode(r.message, c.heights, c.tasks);
      if d.Some? && !d.value.TipReport? then d else None
  }

  /** A directive below the node's own tip arrived. */
  predicate Stale<T>(c: Settings<T>, r: Received) {
    var d := DirectiveIn(c, r);
    d.Some? && d.value.height < r.tip
  }

  function Step<T>(c: Settings<T>, i: Ingested<T>, r: Received): Ingested<T> {
    match DirectiveIn(c, r)
    case None => i
    case Some(d) =>
      Ingested(
        i.delivered + [d],
        if d.height < r.tip && Due(LastReport(i), r.now, c.minInterval)
        then i.reports + [Report(r.now, r.tip)] else i.reports,
        if BeyondWindow(d.height, r.tip, c.window) && Due(LastWarning(i), r.now, c.minInterval)
        then i.warnings + [r.now] else i.warnings)
  }

  function After<T>(c: Settings<T>, log: seq<Received>): Ingested<T> {
    if log == [] then Ingested([], [], []) else Step(c, After(c, log[..|log| - 1]), log[|log| - 1])
  }

  class Ingest<T> {
    const settings: Settings<T>
    var lastReport: Option<nat>
    var lastBeyondWindowWarning: Option<nat>
    var delivered: seq<TaskDirective<T>>
    var reports: seq<Report>
    var warnings: seq<nat>

    function State(): Ingested<T>
      reads this
    {
      Ingested(delivered, reports, warnings)
    }

    predicate Valid()
      reads this
    {
      lastReport == LastReport(State()) && lastBeyondWindowWarning == LastWarning(State())
    }

    constructor (settings: Settings<T>)
      ensures this.settings == settings && Valid() && State() == After<T>(settings, [])
    {
      this.settings := settings;
      lastReport, lastBeyondWindowWarning := None, None;
      delivered, reports, warnings := [], [], [];
    }

    method Handle(r: Received)
      requires Valid()
      modifies this
      ensures Valid() && State() == Step(settings, old(State()), r)
    {
      if r.peer != settings.router {
        return;
      }
      match Decode(r.message, settings.heights, settings.tasks) {
        case None =>
        case Some(TipReport(_)) =>
        case Some(d) =>
          var tip := r.tip;
          if d.height < tip && Due(lastReport, r.now, settings.minInterval) {
            lastReport := Some(r.now);
            reports := reports + [Report(r.now, tip)];
          }
          if BeyondWindow(d.height, tip, settings.window) && Due(lastBeyondWindowWarning, r.now, settings.minInterval) {
            lastBeyondWindowWarning := Some(r.now);
            warnings := warnings + [r.now];
          }
          delivered := delivered + [d];
      }
    }

    /** The loop over a channel that delivers `log` and then closes. */
    method Run(log: seq<Received>)
      requires Valid() && State() == After<T>(settings, [])
      modifies this
      ensures State() == After(settings, log)
    {
      for i := 0 to |log|
        invariant Valid() && State() == After(settings, log[..i])
      {
        assert log[..i + 1][..i] == log[..i];
        Handle(log[i]);
      }
      assert log[..|log|] == log;
    }
  }

  // ---- what reaches the task book ----

  /** What the router sends: each directive written and sent as one message. */
  ghost predicate Carries<T>(c: Settings<T>, r: Received, d: TaskDirective<T>) {
    && r.peer == c.router && r.message == Write(d, c.heights, c.tasks)
    && !d.TipReport? && PartsRoundTrip(d, c.heights, c.tasks)
  }

  /** A message that is not for the task book: of another peer, malformed, or a tip report. */
  predicate Noise<T>(c: Settings<T>, r: Received) {
    || r.peer != c.router
    || Decode(r.message, c.heights, c.tasks).None?
    || Decode(r.message, c.heights, c.tasks).value.TipReport?
  }

  /**
   MAIN RESULT. Whatever else arrives in between (from other peers, malformed, or a tip report),
   the task book gets the router's directives, as they were before writing, in order of arrival.
   */
  lemma {:induction false} DeliversWhatTheRouterSent<T>(c: Settings<T>, log: seq<Received>,
                                                        sent: seq<TaskDirective<T>>, at: seq<nat>)
    requires |at| == |sent|
    requires forall k :: 0 <= k < |at| ==> at[k] < |log| && Carries(c, log[at[k]], sent[k])
    requires forall j, k :: 0 <= j < k < |at| ==> at[j] < at[k]
    requires forall i :: 0 <= i < |log| && i !in at ==> Noise(c, log[i])
    ensures After(c, log).delivered == sent
  {
    if log != [] {
      var p, last := log[..|log| - 1], |log| - 1;
      if |at| > 0 && at[|at| - 1] == last {
        var at', sent' := at[..|at| - 1], sent[..|sent| - 1];
        DecodeWritten(sent[|sent| - 1], c.heights, c.tasks);
        forall i | 0 <= i < |p| && i !in at' ensures Noise(c, p[i]) {
          assert at == at' + [last];
        }
        DeliversWhatTheRouterSent(c, p, sent', at');
      } else {
        forall k | 0 <= k < |at| ensures at[k] < |p| {
          assert at[k] <= at[|at| - 1];
        }
        DeliversWhatTheRouterSent(c, p, sent, at);
      }
    }
  }

  // ---- the rate-limited tip reports ----

  /** The clock never runs backwards. */
  ghost predicate ClockRuns(log: seq<Received>) {
    forall i, j :: 0 <= i <= j < |log| ==> log[i].now <= log[j].now
  }

  /** A report was sent at time t or less than the interval before it. */
  ghost predicate ReportedLately(reports: seq<Report>, t: nat, minInterval: nat) {
    exists r :: r in reports && r.now <= t && (r.now == t || t - r.now < minInterval)
  }

  ghost predicate Spaced(reports: seq<Report>, minInterval: nat) {
    forall i, j :: 0 <= i < j < |reports| ==> reports[i].now + minInterval <= reports[j].now
  }

  function LastNow(log: seq<Received>): nat {
    if log == [] then 0 else log[|log| - 1].now
  }

  /** However often directives arrive, reports are at least the interval apart. */
  lemma {:induction false} ReportsSpaced<T>(c: Settings<T>, log: seq<Received>)
    requires ClockRuns(log)
    ensures Spaced(After(c, log).reports, c.minInterval)
    ensures forall r :: r in After(c, log).reports ==> r.now <= LastNow(log)
  {
    if log != [] {
      var p := log[..|log| - 1];
      ReportsSpaced(c, p);
      assert LastNow(p) <= LastNow(log);
      StepSpaced(c, After(c, p), log[|log| - 1]);
    }
  }

  lemma StepSpaced<T>(c: Settings<T>, i: Ingested<T>, r: Received)
    requires Spaced(i.reports, c.minInterval)
    requires forall sent :: sent in i.reports ==> sent.now <= r.now
    ensures Spaced(Step(c, i, r).reports, c.minInterval)
    ensures forall sent :: sent in Step(c, i, r).reports ==> sent.now <= r.now
  {
    if i.reports != [] {
      assert i.reports[|i.reports| - 1] in i.reports;
    }
  }

  /**
   MAIN RESULT. Despite the rate limit every stale directive finds a report sent on the spot or
   less than the interval before: no dead height is rebroadcast unanswered.
   */
  lemma {:induction false} StaleDirectivesAnswered<T>(c: Settings<T>, log: seq<Received>, i: nat)
    requires ClockRuns(log) && i < |log| && Stale(c, log[i])
    ensures ReportedLately(After(c, log).reports, log[i].now, c.minInterval)
  {
    var p, last := log[..|log| - 1], log[|log| - 1];
    if i < |p| {
      StaleDirectivesAnswered(c, p, i);
      ReportsKept(c, After(c, p), last, log[i].now);
    } else {
      ReportsSpaced(c, p);
      assert LastNow(p) <= last.now;
      StaleAnswered(c, After(c, p), last);
    }
  }

  lemma ReportsKept<T>(c: Settings<T>, i: Ingested<T>, r: Received, t: nat)
    requires ReportedLately(i.reports, t, c.minInterval)
    ensures ReportedLately(Step(c, i, r).reports, t, c.minInterval)
  {
    var sent :| sent in i.reports && sent.now <= t && (sent.now == t || t - sent.now < c.minInterval);
    assert sent in Step(c, i, r).reports;
  }

  lemma StaleAnswered<T>(c: Settings<T>, i: Ingested<T>, r: Received)
    requires Stale(c, r)
    requires forall sent :: sent in i.reports ==> sent.now <= r.now
    ensures ReportedLately(Step(c, i, r).reports, r.now, c.minInterval)
  {
    var after := Step(c, i, r).reports;
    var sent := after[|after| - 1];
    assert sent in after;
  }

  /** A report says what the node's tip was when a directive below it arrived. */
  lemma {:induction false} ReportsAreTruthful<T>(c: Settings<T>, log: seq<Received>, r: Report)
    requires r in After(c, log).reports
    ensures exists i :: 0 <= i < |log| && Stale(c, log[i]) && log[i].now == r.now && log[i].tip == r.tip
  {
    var p, last := log[..|log| - 1], log[|log| - 1];
    if r in After(c, p).reports {
      ReportsAreTruthful(c, p, r);
      var i :| 0 <= i < |p| && Stale(c, p[i]) && p[i].now == r.now && p[i].tip == r.tip;
      assert log[i] == p[i];
    } else {
      assert log[|log| - 1] == last && Stale(c, last);
    }
  }

  // ---- the rate-limited warnings ----

  /** A directive the engine will not propose until its tip moves arrived. */
  predicate OutOfReach<T>(c: Settings<T>, r: Received) {
    var d := DirectiveIn(c, r);
    d.Some? && BeyondWindow(d.value.height, r.tip, c.window)
  }

  ghost predicate WarnedLately(warnings: seq<nat>, t: nat, minInterval: nat) {
    exists w :: w in warnings && w <= t && (w == t || t - w < minInterval)
  }

  lemma {:induction false} WarningsUpToNow<T>(c: Settings<T>, log: seq<Received>)
    requires ClockRuns(log)
    ensures forall w :: w in After(c, log).warnings ==> w <= LastNow(log)
    ensures forall i, j :: 0 <= i < j < |After(c, log).warnings| ==>
              After(c, log).warnings[i] + c.minInterval <= After(c, log).warnings[j]
  {
    if log != [] {
      var p := log[..|log| - 1];
      WarningsUpToNow(c, p);
      assert LastNow(p) <= LastNow(log);
      StepWarns(c, After(c, p), log[|log| - 1]);
    }
  }

  lemma StepWarns<T>(c: Settings<T>, i: Ingested<T>, r: Received)
    requires forall w :: w in i.warnings ==> w <= r.now
    requires forall j, k :: 0 <= j < k < |i.warnings| ==> i.warnings[j] + c.minInterval <= i.warnings[k]
    ensures var after := Step(c, i, r).warnings;
            && (forall w :: w in after ==> w <= r.now)
            && (forall j, k :: 0 <= j < k < |after| ==> after[j] + c.minInterval <= after[k])
    ensures OutOfReach(c, r) ==> WarnedLately(Step(c, i, r).warnings, r.now, c.minInterval)
  {
    if i.warnings != [] {
      assert i.warnings[|i.warnings| - 1] in i.warnings;
    }
    if OutOfReach(c, r) {
      var after := Step(c, i, r).warnings;
      assert after[|after| - 1] in after;
    }
  }

  /**
   MAIN RESULT. A node whose tip is stuck says so: every directive at or past the end of its window finds a
   warning given on the spot or less than the interval before, and warnings are at least the interval apart.
   */
  lemma {:induction false} OutOfReachWarned<T>(c: Settings<T>, log: seq<Received>, i: nat)
    requires ClockRuns(log) && i < |log| && OutOfReach(c, log[i])
    ensures WarnedLately(After(c, log).warnings, log[i].now, c.minInterval)
  {
    var p, last := log[..|log| - 1], log[|log| - 1];
    WarningsUpToNow(c, p);
    assert LastNow(p) <= last.now;
    StepWarns(c, After(c, p), last);
    if i < |p| {
      OutOfReachWarned(c, p, i);
      WarningsKept(c, After(c, p), last, log[i].now);
    }
  }

  lemma WarningsKept<T>(c: Settings<T>, i: Ingested<T>, r: Received, t: nat)
    requires WarnedLately(i.warnings, t, c.minInterval)
    ensures WarnedLately(Step(c, i, r).warnings, t, c.minInterval)
  {
    var w :| w in i.warnings && w <= t && (w == t || t - w < c.minInterval);
    assert w in Step(c, i, r).warnings;
  }

  /** A warning is given only when such a directive arrives. */
  lemma {:induction false} WarningsAreTruthful<T>(c: Settings<T>, log: seq<Received>, w: nat)
    requires w in After(c, log).warnings
    ensures exists i :: 0 <= i < |log| && OutOfReach(c, log[i]) && log[i].now == w
  {
    var p, last := log[..|log| - 1], log[|log| - 1];
    if w in After(c, p).warnings {
      WarningsAreTruthful(c, p, w);
      var i :| 0 <= i < |p| && OutOfReach(c, p[i]) && p[i].now == w;
      assert log[i] == p[i];
    } else {
      assert log[|log| - 1] == last && OutOfReach(c, last);
    }
  }

  /** A height is stale, in the window, or beyond it; only where the window's end overflows is the last height both. */
  lemma WindowSplits(height: nat, tip: nat, window: nat)
    requires height <= U64_MAX && tip <= U64_MAX && window >= 1
    ensures tip + window <= U64_MAX ==>
              (BeyondWindow(height, tip, window) <==> !(height < tip || tip <= height < tip + window))
    ensures tip + window > U64_MAX ==> (BeyondWindow(height, tip, window) <==> height == U64_MAX)
  {
  }

  /** A directive never triggers both: a stale height is not beyond the window, whatever the overflow. */
  lemma StaleIsNotBeyond(height: nat, tip: nat, window: nat)
    requires height < tip <= U64_MAX
    ensures !BeyondWindow(height, tip, window)
  {
  }
}
