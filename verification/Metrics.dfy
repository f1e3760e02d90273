/**
 * The metrics service: request totals polled from the server become operations in a rolling window.
 *
 * get_metrics runs as overlapping coroutines, but it suspends only while it waits for the totals;
 * everything after that is one uninterrupted step.  So a history is any sequence of totals, late
 * answers included, at non-decreasing clock readings.
 */
module Metrics {

  datatype Poll = Poll(at: real, total: int)

  const MAX_ENTRIES := 60
  const WINDOW := 1.0

  /** The total on record after the first i polls. */
  function TotalAfter(polls: seq<Poll>, i: nat): int
    requires i <= |polls|
  {
    if i == 0 then 0 else polls[i - 1].total
  }

  /** Each poll's time, and how much the total had grown since the poll before. */
  function Deltas(polls: seq<Poll>): (r: seq<(real, int)>)
    ensures |r| == |polls|
  {
    if polls == [] then []
    else
      var n := |polls| - 1;
      Deltas(polls[..n]) + [(polls[n].at, polls[n].total - TotalAfter(polls, n))]
  }

  predicate Chronological(polls: seq<Poll>) {
    var n := |polls| - 1;
    n > 0 ==> polls[n - 1].at <= polls[n].at && Chronological(polls[..n])
  }

  lemma {:induction false} ChronologicalAt(polls: seq<Poll>, i: nat, j: nat)
    requires Chronological(polls) && i <= j < |polls|
    ensures polls[i].at <= polls[j].at
  {
    var n := |polls| - 1;
    if i < n && j == n {
      ChronologicalAt(polls[..n], i, n - 1);
    } else if j < n {
      ChronologicalAt(polls[..n], i, j);
    }
  }

  predicate IsRecent(at: real, now: real) {
    now - at <= WINDOW
  }

  /** How many of the oldest polls the bounded history has dropped. */
  function Forgotten(polls: seq<Poll>): (n: nat)
    ensures n <= |polls| && |polls| - n <= MAX_ENTRIES
  {
    if |polls| > MAX_ENTRIES then |polls| - MAX_ENTRIES else 0
  }

  /** What the bounded history holds after some polls. */
  function History(polls: seq<Poll>): seq<(real, int)> {
    Deltas(polls)[Forgotten(polls)..]
  }

  function Bounded(entries: seq<(real, int)>): seq<(real, int)> {
    if |entries| > MAX_ENTRIES then entries[1..] else entries
  }

  /** The first poll from which on all are recent. */
  function WindowStart(polls: seq<Poll>, now: real): (r: nat)
    ensures r <= |polls| && forall i :: r <= i < |polls| ==> IsRecent(polls[i].at, now)
    ensures r > 0 ==> !IsRecent(polls[r - 1].at, now)
  {
    if polls == [] || !IsRecent(polls[|polls| - 1].at, now) then |polls|
    else WindowStart(polls[..|polls| - 1], now)
  }

  /** The first poll that is both recent and still in the history. */
  function FirstCounted(polls: seq<Poll>, now: real): (r: nat)
    ensures r <= |polls|
  {
    if WindowStart(polls, now) < Forgotten(polls) then Forgotten(polls) else WindowStart(polls, now)
  }

  /** The sum of the counts whose timestamps are recent. */
  function RecentSum(history: seq<(real, int)>, now: real): int {
    if history == [] then 0
    else
      var (at, count) := history[|history| - 1];
      RecentSum(history[..|history| - 1], now) + if IsRecent(at, now) then count else 0
  }

  /** In a history in order of time, the recent entries are the last ones. */
  lemma RecentIsSuffix(polls: seq<Poll>, now: real, i: nat)
    requires Chronological(polls) && i < |polls|
    ensures IsRecent(polls[i].at, now) <==> i >= WindowStart(polls, now)
  {
    if i < WindowStart(polls, now) {
      ChronologicalAt(polls, i, WindowStart(polls, now) - 1);
    }
  }

  /**
   * The polls from number b on, and no others, are counted: those made at most one second ago that
   * are among the last sixty.
   */
  ghost predicate CountedFrom(polls: seq<Poll>, now: real, b: nat) {
    b <= |polls| && forall i :: 0 <= i < |polls| ==> (b <= i <==> now - polls[i].at <= 1.0 && i + 60 >= |polls|)
  }

  lemma FirstCountedMeans(polls: seq<Poll>, now: real)
    requires Chronological(polls)
    ensures CountedFrom(polls, now, FirstCounted(polls, now))
  {
    forall i | 0 <= i < |polls|
      ensures FirstCounted(polls, now) <= i <==> now - polls[i].at <= 1.0 && i + 60 >= |polls|
    {
      RecentIsSuffix(polls, now, i);
    }
  }

  lemma SumOneMore(history: seq<(real, int)>, at: real, count: int, now: real)
    ensures RecentSum(history + [(at, count)], now)
         == RecentSum(history, now) + if IsRecent(at, now) then count else 0
  {
    var all := history + [(at, count)];
    assert all[..|all| - 1] == history;
  }

  /** Adding up differences over a suffix leaves the two totals at its ends. */
  lemma {:induction false} Telescopes(polls: seq<Poll>, from: nat, start: nat, now: real)
    requires from <= start <= |polls|
    requires forall i :: from <= i < |polls| ==> (IsRecent(polls[i].at, now) <==> i >= start)
    ensures RecentSum(Deltas(polls)[from..], now) == TotalAfter(polls, |polls|) - TotalAfter(polls, start)
  {
    if from < |polls| {
      var n := |polls| - 1;
      Telescopes(polls[..n], from, if start <= n then start else n, now);
      var count := polls[n].total - TotalAfter(polls, n);
      assert Deltas(polls)[from..] == Deltas(polls[..n])[from..] + [(polls[n].at, count)];
      SumOneMore(Deltas(polls[..n])[from..], polls[n].at, count, now);
    }
  }

  /**
   * The rolling window telescopes: the recent counts in the bounded history add up to the newest
   * total minus the total recorded by the poll just before the first one counted.
   */
  lemma WindowTelescopes(polls: seq<Poll>, now: real)
    requires Chronological(polls)
    ensures RecentSum(History(polls), now)
         == TotalAfter(polls, |polls|) - TotalAfter(polls, FirstCounted(polls, now))
  {
    forall i | Forgotten(polls) <= i < |polls|
      ensures IsRecent(polls[i].at, now) <==> i >= FirstCounted(polls, now)
    {
      RecentIsSuffix(polls, now, i);
    }
    Telescopes(polls, Forgotten(polls), FirstCounted(polls, now), now);
  }

  /** Totals that arrive in order never show as a negative rate, nor as more than all requests. */
  lemma InOrderTotalsAreSane(polls: seq<Poll>, now: real)
    requires Chronological(polls)
    requires forall i :: 0 <= i < |polls| ==> polls[i].total >= 0
    requires forall i, j :: 0 <= i <= j < |polls| ==> polls[i].total <= polls[j].total
    ensures 0 <= RecentSum(History(polls), now) <= TotalAfter(polls, |polls|)
  {
    WindowTelescopes(polls, now);
  }

  /**
   * The rate is negative exactly when the total has fallen below the one recorded just before the
   * first poll counted.
   */
  lemma RateIsNegative(polls: seq<Poll>, now: real)
    requires Chronological(polls)
    ensures RecentSum(History(polls), now) < 0 <==> TotalAfter(polls, |polls|) < TotalAfter(polls, FirstCounted(polls, now))
  {
    WindowTelescopes(polls, now);
  }

  /** As when the server has been restarted in between, or when an older answer overtakes a newer one. */
  lemma FallenTotalIsNegative()
    ensures var polls := [Poll(0.0, 10), Poll(5.0, 7)];
      Chronological(polls) && RecentSum(History(polls), 5.0) == -3
  {
    var polls := [Poll(0.0, 10), Poll(5.0, 7)];
    assert WindowStart(polls, 5.0) == 1 by {
      assert polls[..1] == [Poll(0.0, 10)];
    }
    WindowTelescopes(polls, 5.0);
  }

  lemma TwoPolls(at: real)
    requires at >= 0.0
    ensures var polls := [Poll(0.0, 10), Poll(at, 30)];
      RecentSum(History(polls), at) == if at <= 1.0 then 30 else 20
  {
    var polls := [Poll(0.0, 10), Poll(at, 30)];
    assert polls[..1] == [Poll(0.0, 10)];
    WindowTelescopes(polls, at);
  }

  /** A poll made exactly a second ago is counted; one made a little earlier is not. */
  lemma OneSecondIsCounted()
    ensures RecentSum(History([Poll(0.0, 10), Poll(1.0, 30)]), 1.0) == 30
    ensures RecentSum(History([Poll(0.0, 10), Poll(1.001, 30)]), 1.001) == 20
    ensures RecentSum(History([Poll(0.0, 10), Poll(2.5, 30)]), 2.5) == 20
  {
    TwoPolls(1.0);
    TwoPolls(1.001);
    TwoPolls(2.5);
  }

  /** So many polls at one moment, with one more request in each. */
  function Burst(n: nat): (r: seq<Poll>)
    ensures |r| == n && forall i :: 0 <= i < n ==> r[i] == Poll(5.0, i + 1)
  {
    seq(n, i => Poll(5.0, i + 1))
  }

  lemma {:induction false} BurstIsChronological(n: nat)
    ensures Chronological(Burst(n))
  {
    if n > 0 {
      BurstIsChronological(n - 1);
      assert Burst(n)[..n - 1] == Burst(n - 1);
    }
  }

  /** Of these, the last sixty are counted. */
  lemma SixtyAreCounted(n: nat)
    ensures RecentSum(History(Burst(n)), 5.0) == if n <= 60 then n else 60
  {
    BurstIsChronological(n);
    WindowTelescopes(Burst(n), 5.0);
  }

  /** The service's two variables, and the polls that made them what they are. */
  class MetricsService {
    var lastTotal: int
    var requestHistory: seq<(real, int)>
    ghost var polls: seq<Poll>

    ghost predicate Valid()
      reads this
    {
      Consistent(polls, lastTotal, requestHistory)
    }

    constructor ()
      ensures Valid() && polls == []
    {
      lastTotal, requestHistory, polls := 0, [], [];
    }

    /** deque.append on a deque of bounded length. */
    method Append(at: real, count: int)
      modifies `requestHistory
      ensures requestHistory == Bounded(old(requestHistory) + [(at, count)])
    {
      requestHistory := requestHistory + [(at, count)];
      if |requestHistory| > MAX_ENTRIES {
        requestHistory := requestHistory[1..];
      }
    }

    method SumRecent(now: real) returns (sum: int)
      ensures sum == RecentSum(requestHistory, now)
    {
      sum := 0;
      for i := 0 to |requestHistory|
        invariant sum == RecentSum(requestHistory[..i], now)
      {
        assert requestHistory[..i + 1][..i] == requestHistory[..i];
        var (at, count) := requestHistory[i];
        if IsRecent(at, now) {
          sum := sum + count;
        }
      }
      assert requestHistory[..|requestHistory|] == requestHistory;
    }

    /** What get_metrics does once it has the server's answer. */
    method GetMetrics(total: int, now: real) returns (recentOps: int)
      requires Valid()
      requires polls != [] ==> polls[|polls| - 1].at <= now
      modifies this
      ensures Valid() && polls == old(polls) + [Poll(now, total)]
      ensures recentOps == RecentSum(History(polls), now)
      ensures exists b :: CountedFrom(polls, now, b) && recentOps == total - (if b == 0 then 0 else polls[b - 1].total)
    {
      var delta := total - lastTotal;
      PollEffect(polls, lastTotal, requestHistory, total, delta, now);
      lastTotal := total;
      polls := polls + [Poll(now, total)];
      Append(now, delta);
      recentOps := SumRecent(now);
      FirstCountedMeans(polls, now);
    }
  }

  /** Appending to the bounded history gives the bounded history of one more poll. */
  lemma HistoryGrows(polls: seq<Poll>, poll: Poll)
    ensures History(polls + [poll])
         == Bounded(History(polls) + [(poll.at, poll.total - TotalAfter(polls, |polls|))])
  {
    var more := polls + [poll];
    assert more[..|polls|] == polls;
    assert Deltas(more) == Deltas(polls) + [(poll.at, poll.total - TotalAfter(polls, |polls|))];
  }

  /** The two variables after some polls. */
  ghost predicate Consistent(polls: seq<Poll>, lastTotal: int, history: seq<(real, int)>) {
    Chronological(polls) && lastTotal == TotalAfter(polls, |polls|) && history == History(polls)
  }

  lemma PollEffect(polls: seq<Poll>, lastTotal: int, history: seq<(real, int)>, total: int, delta: int, now: real)
    requires Consistent(polls, lastTotal, history) && delta == total - lastTotal
    requires polls != [] ==> polls[|polls| - 1].at <= now
    ensures var more, after := polls + [Poll(now, total)], Bounded(history + [(now, delta)]);
      && Consistent(more, total, after)
      && RecentSum(after, now) == total - TotalAfter(more, FirstCounted(more, now))
  {
    assert (polls + [Poll(now, total)])[..|polls|] == polls;
    HistoryGrows(polls, Poll(now, total));
    WindowTelescopes(polls + [Poll(now, total)], now);
  }
}
