/** Node tip reports and the (f+1)-th highest of them, the router's safe tip. */
module TipReports {
  import opened Common
  import opened Consensus
  import opened Wire

  /** The participants whose highest report is at least t. */
  function Reached<P>(reports: map<P, nat>, t: nat): set<P> {
    set p | p in reports && reports[p] >= t
  }

  /** Keeps the per-peer maximum. */
  function Recorded<P>(reports: map<P, nat>, peer: P, tip: nat): map<P, nat> {
    reports[peer := if peer in reports then Max(reports[peer], tip) else tip]
  }

  // ---- sorting ----

  predicate Descending(s: seq<nat>) {
    forall i, j :: 0 <= i < j < |s| ==> s[i] >= s[j]
  }

  function CountGe(s: seq<nat>, t: nat): nat {
    if s == [] then 0 else CountGe(s[..|s| - 1], t) + if s[|s| - 1] >= t then 1 else 0
  }

  /** Inserts x behind every element that is at least x. */
  function InsertDescending(s: seq<nat>, x: nat): seq<nat> {
    if s == [] || s[|s| - 1] >= x then s + [x]
    else InsertDescending(s[..|s| - 1], x) + [s[|s| - 1]]
  }

  lemma {:induction false} InsertKeeps(s: seq<nat>, x: nat)
    ensures multiset(InsertDescending(s, x)) == multiset(s) + multiset{x}
    ensures |InsertDescending(s, x)| == |s| + 1
  {
    if s != [] && s[|s| - 1] < x {
      InsertKeeps(s[..|s| - 1], x);
      assert s == s[..|s| - 1] + [s[|s| - 1]];
    }
  }

  lemma {:induction false} InsertDescends(s: seq<nat>, x: nat)
    requires Descending(s)
    ensures Descending(InsertDescending(s, x))
  {
    if s != [] && s[|s| - 1] < x {
      var p, low := s[..|s| - 1], s[|s| - 1];
      var r := InsertDescending(p, x);
      InsertDescends(p, x);
      InsertKeeps(p, x);
      forall i | 0 <= i < |r| ensures r[i] >= low {
        assert r[i] in multiset(r);
      }
    }
  }

  function SortDescending(s: seq<nat>): seq<nat> {
    if s == [] then [] else InsertDescending(SortDescending(s[..|s| - 1]), s[|s| - 1])
  }

  lemma {:induction false} SortSorts(s: seq<nat>)
    ensures Descending(SortDescending(s)) && multiset(SortDescending(s)) == multiset(s) && |SortDescending(s)| == |s|
  {
    if s != [] {
      var p := s[..|s| - 1];
      SortSorts(p);
      InsertKeeps(SortDescending(p), s[|s| - 1]);
      InsertDescends(SortDescending(p), s[|s| - 1]);
      assert s == p + [s[|s| - 1]];
    }
  }

  lemma {:induction false} CountInsert(s: seq<nat>, x: nat, t: nat)
    ensures CountGe(InsertDescending(s, x), t) == CountGe(s, t) + if x >= t then 1 else 0
  {
    if s == [] || s[|s| - 1] >= x {
      assert (s + [x])[..|s|] == s;
    } else {
      CountInsert(s[..|s| - 1], x, t);
      var r := InsertDescending(s[..|s| - 1], x);
      assert (r + [s[|s| - 1]])[..|r|] == r;
    }
  }

  lemma {:induction false} CountSorted(s: seq<nat>, t: nat)
    ensures CountGe(SortDescending(s), t) == CountGe(s, t)
  {
    if s != [] {
      CountSorted(s[..|s| - 1], t);
      CountInsert(SortDescending(s[..|s| - 1]), s[|s| - 1], t);
    }
  }

  /** In descending order the k-th element reaches t exactly when more than k elements do. */
  lemma {:induction false} KthReaches(s: seq<nat>, k: nat, t: nat)
    requires Descending(s)
    ensures CountGe(s, t) <= |s|
    ensures k < |s| ==> (s[k] >= t <==> CountGe(s, t) >= k + 1)
  {
    if s != [] {
      var p := s[..|s| - 1];
      if k < |p| {
        KthReaches(p, k, t);
        if CountGe(s, t) != CountGe(p, t) {
          assert s[k] >= s[|s| - 1] >= t;
        }
      } else {
        KthReaches(p, SatSub(|p|, 1), t);
        if k == |p| && s[k] >= t && |p| > 0 {
          assert p[|p| - 1] >= t;
        }
      }
    }
  }

  // ---- the order statistic ----

  /** tip reaches exactly the thresholds that more than maxFaults participants reached. */
  ghost predicate IsSafeTip<P>(reports: map<P, nat>, maxFaults: nat, tip: nat) {
    forall t :: t > 0 ==> (tip >= t <==> |Reached(reports, t)| >= maxFaults + 1)
  }

  /** `tips` lists the reports of the participants in `done`. */
  ghost predicate Lists<P>(tips: seq<nat>, reports: map<P, nat>, done: set<P>) {
    forall t :: CountGe(tips, t) == |Reached(reports, t) * done|
  }

  lemma ListsOneMore<P>(tips: seq<nat>, reports: map<P, nat>, done: set<P>, p: P)
    requires Lists(tips, reports, done) && p in reports && p !in done
    ensures Lists(tips + [reports[p]], reports, done + {p})
  {
    forall t ensures CountGe(tips + [reports[p]], t) == |Reached(reports, t) * (done + {p})| {
      CountOneMore(tips, reports[p], t);
      ReachedOneMore(reports, done, p, t);
    }
  }

  lemma CountOneMore(tips: seq<nat>, tip: nat, t: nat)
    ensures CountGe(tips + [tip], t) == CountGe(tips, t) + if tip >= t then 1 else 0
  {
    assert (tips + [tip])[..|tips|] == tips;
  }

  lemma ReachedOneMore<P>(reports: map<P, nat>, done: set<P>, p: P, t: nat)
    requires p in reports && p !in done
    ensures |Reached(reports, t) * (done + {p})| == |Reached(reports, t) * done| + if reports[p] >= t then 1 else 0
  {
    var before := Reached(reports, t) * done;
    if reports[p] >= t {
      assert Reached(reports, t) * (done + {p}) == before + {p};
    } else {
      assert Reached(reports, t) * (done + {p}) == before;
    }
  }

  /** MAIN RESULT. Sorting a list of all the reports from the highest and taking number f gives the safe tip. */
  lemma SortedGivesSafeTip<P>(tips: seq<nat>, reports: map<P, nat>, maxFaults: nat)
    requires Lists(tips, reports, reports.Keys)
    ensures IsSafeTip(reports, maxFaults, var s := SortDescending(tips); if maxFaults < |s| then s[maxFaults] else 0)
  {
    SortSorts(tips);
    forall t | t > 0
      ensures CountGe(SortDescending(tips), t) == |Reached(reports, t)|
      ensures CountGe(SortDescending(tips), t) <= |tips|
      ensures maxFaults < |tips| ==>
                (SortDescending(tips)[maxFaults] >= t <==> CountGe(SortDescending(tips), t) >= maxFaults + 1)
    {
      CountSorted(tips, t);
      KthReaches(SortDescending(tips), maxFaults, t);
      assert Reached(reports, t) * reports.Keys == Reached(reports, t);
    }
  }

  lemma {:induction false} ReportsListed<P>(reports: map<P, nat>, done: set<P>) returns (tips: seq<nat>)
    requires done <= reports.Keys
    ensures Lists(tips, reports, done)
    decreases done
  {
    if done == {} {
      tips := [];
    } else {
      var p :| p in done;
      tips := ReportsListed(reports, done - {p});
      ListsOneMore(tips, reports, done - {p}, p);
      tips := tips + [reports[p]];
      assert done - {p} + {p} == done;
    }
  }

  lemma SafeTipExists<P>(reports: map<P, nat>, maxFaults: nat)
    ensures exists tip: nat :: IsSafeTip(reports, maxFaults, tip)
  {
    var tips := ReportsListed(reports, reports.Keys);
    SortedGivesSafeTip(tips, reports, maxFaults);
  }

  /** The (f+1)-th highest report, 0 until that many peers reported. */
  ghost function SafeTipOf<P>(reports: map<P, nat>, maxFaults: nat): nat {
    SafeTipExists(reports, maxFaults);
    var tip: nat :| IsSafeTip(reports, maxFaults, tip);
    tip
  }

  /** The safe tip reaches t > 0 exactly when at least f+1 participants reported t or more. */
  lemma SafeTipReaches<P>(reports: map<P, nat>, maxFaults: nat, t: nat)
    requires t > 0
    ensures SafeTipOf(reports, maxFaults) >= t <==> |Reached(reports, t)| >= maxFaults + 1
  {
    SafeTipExists(reports, maxFaults);
    assert IsSafeTip(reports, maxFaults, SafeTipOf(reports, maxFaults));
  }

  lemma RecordedGrows<P>(reports: map<P, nat>, peer: P, tip: nat, t: nat)
    ensures Reached(reports, t) <= Reached(Recorded(reports, peer, tip), t)
  {
  }

  /** The safe tip never decreases, whoever reports whatever. */
  lemma SafeTipMonotone<P>(reports: map<P, nat>, maxFaults: nat, peer: P, tip: nat)
    ensures SafeTipOf(Recorded(reports, peer, tip), maxFaults) >= SafeTipOf(reports, maxFaults)
  {
    var t := SafeTipOf(reports, maxFaults);
    if t > 0 {
      SafeTipReaches(reports, maxFaults, t);
      RecordedGrows(reports, peer, tip, t);
      SubsetCardinality(Reached(reports, t), Reached(Recorded(reports, peer, tip), t));
      SafeTipReaches(Recorded(reports, peer, tip), maxFaults, t);
    }
  }

  /** MAIN RESULT. With at most f faulty reporters, some honest one reported the safe tip or more. */
  lemma SafeTipIsHonest<P>(reports: map<P, nat>, maxFaults: nat, faulty: set<P>) returns (honest: P)
    requires |faulty| <= maxFaults
    requires SafeTipOf(reports, maxFaults) > 0
    ensures honest in reports && honest !in faulty && reports[honest] >= SafeTipOf(reports, maxFaults)
  {
    var t := SafeTipOf(reports, maxFaults);
    SafeTipReaches(reports, maxFaults, t);
    if Reached(reports, t) <= faulty {
      SubsetCardinality(Reached(reports, t), faulty);
    }
    honest :| honest in Reached(reports, t) && honest !in faulty;
  }

  /** A value that reaches the same thresholds is the safe tip. */
  lemma SafeTipUnique<P>(reports: map<P, nat>, maxFaults: nat, tip: nat)
    requires IsSafeTip(reports, maxFaults, tip)
    ensures tip == SafeTipOf(reports, maxFaults)
  {
    if tip > 0 {
      SafeTipReaches(reports, maxFaults, tip);
    }
    if SafeTipOf(reports, maxFaults) > 0 {
      SafeTipReaches(reports, maxFaults, SafeTipOf(reports, maxFaults));
    }
  }

  /** The reports after a run of the ingest: who reported what, in order. */
  function AfterReports<P>(log: seq<(P, nat)>): map<P, nat> {
    if log == [] then map[]
    else Recorded(AfterReports(log[..|log| - 1]), log[|log| - 1].0, log[|log| - 1].1)
  }

  /** Who ever reported t or more. */
  function ReportedBy<P>(log: seq<(P, nat)>, t: nat): set<P> {
    set r | r in log && r.1 >= t :: r.0
  }

  lemma {:induction false} ReachedInRun<P>(log: seq<(P, nat)>, t: nat)
    ensures Reached(AfterReports(log), t) == ReportedBy(log, t)
  {
    if log != [] {
      var p, r := log[..|log| - 1], log[|log| - 1];
      assert log == p + [r];
      ReachedInRun(p, t);
      ReachedInRun(p, 0);
      assert ReportedBy(log, t) == ReportedBy(p, t) + if r.1 >= t then {r.0} else {};
    }
  }

  /**
   MAIN RESULT. After any run of reports the safe tip is at least t > 0 exactly when f+1
   participants each reported t or more at some point; what else they reported is irrelevant.
   */
  lemma SafeTipOfRun<P>(log: seq<(P, nat)>, maxFaults: nat, t: nat)
    requires t > 0
    ensures SafeTipOf(AfterReports(log), maxFaults) >= t <==> |ReportedBy(log, t)| >= maxFaults + 1
  {
    ReachedInRun(log, t);
    SafeTipReaches(AfterReports(log), maxFaults, t);
  }

  class TipReports<P(==)> {
    var reports: map<P, nat>
    const maxFaults: nat

    constructor (participantCount: nat)
      ensures reports == map[] && maxFaults == MaxFaults(participantCount)
    {
      reports, maxFaults := map[], SatSub(participantCount, 1) / 3;
    }

    method Record(peer: P, tip: nat)
      modifies this
      ensures reports == Recorded(old(reports), peer, tip)
    {
      var entry := if peer in reports then reports[peer] else 0;
      reports := reports[peer := Max(entry, tip)];
    }

    /** A message of a non-participant, one that does not decode and a directive other than a report are dropped. */
    method Ingest<T>(participants: set<P>, peer: P, message: seq<Byte>, heights: Codec<nat>, tasks: Codec<T>)
      modifies this
      ensures reports ==
                if peer in participants && Decode(message, heights, tasks).Some? &&
                   Decode(message, heights, tasks).value.TipReport?
                then Recorded(old(reports), peer, Decode(message, heights, tasks).value.height)
                else old(reports)
    {
      if peer !in participants {
        return;
      }
      match Decode(message, heights, tasks) {
        case Some(TipReport(height)) => Record(peer, height);
        case Some(_) =>
        case None =>
      }
    }

    /** Collects the reports in any order, sorts them from the highest and takes number f. */
    method SafeTip() returns (tip: nat)
      ensures tip == SafeTipOf(reports, maxFaults)
    {
      var tips: seq<nat> := [];
      var collected: set<P> := {};
      while reports.Keys - collected != {}
        invariant collected <= reports.Keys
        invariant Lists(tips, reports, collected)
        decreases reports.Keys - collected
      {
        var p :| p in reports.Keys - collected;
        ListsOneMore(tips, reports, collected, p);
        tips := tips + [reports[p]];
        collected := collected + {p};
      }
      assert collected == reports.Keys;
      SortedGivesSafeTip(tips, reports, maxFaults);
      tips := SortDescending(tips);
      tip := if maxFaults < |tips| then tips[maxFaults] else 0;
      SafeTipUnique(reports, maxFaults, tip);
    }
  }
}
