/**
 The constants and the quorum rule shared by the router and the nodes:
 PRUNE_SLACK and the N3f1 fault model (f = (n-1)/3, quorum = n - f).
 */
module Consensus {
  import opened Common

  /** Retention horizon shared by the task book and both reporters. */
  const PRUNE_SLACK: nat := 1024

  /** Faults tolerated among n participants; saturating, so 0 when n == 0. */
  function MaxFaults(n: nat): (f: nat)
    ensures n >= 1 ==> 3 * f + 1 <= n <= 3 * f + 3
  {
    SatSub(n, 1) / 3
  }

  /** Acks needed for a certificate. */
  function Quorum(n: nat): (q: nat)
    ensures n >= 1 ==> 1 <= q <= n && q >= 2 * MaxFaults(n) + 1
  {
    n - MaxFaults(n)
  }

  /** The participants missing from a set. */
  function Absent(n: nat, a: set<nat>): set<nat> {
    set i | 0 <= i < n && i !in a
  }

  lemma {:induction false} PresentOrAbsent(n: nat, a: set<nat>)
    requires forall i :: i in a ==> i < n
    ensures |a| + |Absent(n, a)| == n
  {
    if n == 0 {
      assert a == {} && Absent(n, a) == {};
    } else {
      var rest := a - {n - 1};
      PresentOrAbsent(n - 1, rest);
      if n - 1 in a {
        assert a == rest + {n - 1} && Absent(n, a) == Absent(n - 1, rest);
      } else {
        assert rest == a && Absent(n, a) == Absent(n - 1, a) + {n - 1};
      }
    }
  }

  /**
   MAIN RESULT (what a quorum is). For every n, a set of participants is a quorum exactly when at most
   f = (n-1)/3 are absent from it: f silent participants never prevent one, and f + 1 always do.
   */
  lemma QuorumIffFewAbsent(n: nat, a: set<nat>)
    requires n >= 1 && forall i :: i in a ==> i < n
    ensures |a| >= Quorum(n) <==> |Absent(n, a)| <= MaxFaults(n)
  {
    PresentOrAbsent(n, a);
  }

  /** Everybody outside a set of at most f participants is a quorum. */
  lemma OthersAreQuorum(n: nat, faulty: set<nat>)
    requires n >= 1 && |faulty| <= MaxFaults(n)
    ensures |Absent(n, faulty)| >= Quorum(n)
  {
    var others := Absent(n, faulty);
    SubsetCardinality(Absent(n, others), faulty);
    QuorumIffFewAbsent(n, others);
  }

  /** Two subsets of a universe overlap in at least |a| + |b| - n members. */
  lemma OverlapBound(n: nat, a: set<nat>, b: set<nat>)
    requires forall i :: i in a + b ==> i < n
    ensures |a * b| + n >= |a| + |b|
  {
    assert |a + b| == |a| + |b| - |a * b|;
    IntervalCardinality(a + b, 0, n);
  }

  /** For every n: two quorums share a participant outside any set of at most f faulty ones. */
  lemma QuorumIntersection(n: nat, a: set<nat>, b: set<nat>, faulty: set<nat>) returns (i: nat)
    requires n >= 1
    requires forall i :: i in a + b ==> i < n
    requires |a| >= Quorum(n) && |b| >= Quorum(n)
    requires |faulty| <= MaxFaults(n)
    ensures i in a && i in b && i !in faulty
  {
    OverlapBound(n, a, b);
    var common := a * b;
    assert |common| >= MaxFaults(n) + 1;
    if common <= faulty {
      SubsetCardinality(common, faulty);
    }
    i :| i in common && i !in faulty;
  }

  /** Every quorum contains an honest participant. */
  lemma HonestMember(n: nat, a: set<nat>, faulty: set<nat>) returns (i: nat)
    requires n >= 1
    requires forall i :: i in a ==> i < n
    requires |a| >= Quorum(n)
    requires |faulty| <= MaxFaults(n)
    ensures i in a && i !in faulty
  {
    i := QuorumIntersection(n, a, a, faulty);
  }
}
