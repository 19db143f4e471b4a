/**
 * Complaints as the server returns them, the 24-hour expiry rule and the
 * student's statistics (total, pending, resolved).
 */
module Complaints {

  /** A complaint record; `category` is the JSON field `type`, `timestamp` is creation time in ms. */
  datatype Complaint = Complaint(
    id: string,
    studentId: string,
    name: string,
    category: string,
    description: string,
    status: string,
    timestamp: int)

  const Pending := "pending"
  const InProgress := "in-progress"
  const Resolved := "resolved"
  const Rejected := "rejected"

  /** The four statuses the admin status select offers, in its order. */
  const Statuses: seq<string> := [Pending, InProgress, Resolved, Rejected]

  /** 24 h in milliseconds. */
  const DayMs: int := 24 * 60 * 60 * 1000

  /** A complaint is expired when strictly more than 24 h have passed since it was submitted. */
  predicate IsExpired(timestamp: int, now: int) {
    now - timestamp > DayMs
  }

  /** Exactly 24 h is not expired; one millisecond more is. */
  lemma ExpiryBoundary(timestamp: int)
    ensures !IsExpired(timestamp, timestamp + 86_400_000)
    ensures IsExpired(timestamp, timestamp + 86_400_001)
  {
  }

  /** Once expired, a complaint stays expired. */
  lemma ExpiryMonotone(timestamp: int, now: int, later: int)
    requires now <= later && IsExpired(timestamp, now)
    ensures IsExpired(timestamp, later)
  {
  }

  /** A complaint submitted 25 h before `now` is expired. */
  lemma TwentyFiveHoursExpired(now: int)
    ensures IsExpired(now - 25 * 60 * 60 * 1000, now)
  {
  }

  /** `complaints.filter(c => c.status === status)`: exact, case-sensitive matches, in order. */
  function WithStatus(cs: seq<Complaint>, status: string): (r: seq<Complaint>)
    ensures |r| <= |cs|
    ensures forall c :: c in r <==> c in cs && c.status == status
  {
    if cs == [] then []
    else (if cs[0].status == status then [cs[0]] else []) + WithStatus(cs[1..], status)
  }

  /** Filtering a concatenation filters each part. */
  lemma {:induction false} WithStatusAppend(a: seq<Complaint>, b: seq<Complaint>, status: string)
    ensures WithStatus(a + b, status) == WithStatus(a, status) + WithStatus(b, status)
  {
    if a == [] {
      assert a + b == b;
    } else {
      assert (a + b)[0] == a[0] && (a + b)[1..] == a[1..] + b;
      WithStatusAppend(a[1..], b, status);
    }
  }

  /** Complaints with two different statuses are disjoint, so their counts add up to at most the total. */
  lemma {:induction false} DistinctStatusesBounded(cs: seq<Complaint>, s1: string, s2: string)
    requires s1 != s2
    ensures |WithStatus(cs, s1)| + |WithStatus(cs, s2)| <= |cs|
  {
    if cs != [] {
      DistinctStatusesBounded(cs[1..], s1, s2);
    }
  }

  datatype Stats = Stats(total: nat, pending: nat, resolved: nat)

  /** The three counters of the student dashboard. */
  function StudentStats(cs: seq<Complaint>): (s: Stats)
    ensures s.total == |cs|
    ensures s.pending + s.resolved <= s.total
    ensures s.pending == |WithStatus(cs, Pending)| && s.resolved == |WithStatus(cs, Resolved)|
  {
    DistinctStatusesBounded(cs, Pending, Resolved);
    Stats(|cs|, |WithStatus(cs, Pending)|, |WithStatus(cs, Resolved)|)
  }

  /** The counters over two lists put together are the sums of the counters over each. */
  lemma StatsAppend(a: seq<Complaint>, b: seq<Complaint>)
    ensures StudentStats(a + b).total == StudentStats(a).total + StudentStats(b).total
    ensures StudentStats(a + b).pending == StudentStats(a).pending + StudentStats(b).pending
    ensures StudentStats(a + b).resolved == StudentStats(a).resolved + StudentStats(b).resolved
  {
    WithStatusAppend(a, b, Pending);
    WithStatusAppend(a, b, Resolved);
  }
}
