/** The retry schedule, written out twice in the sources: internal/client/sync/queue.go
    and internal/client/layout/sync.go. */
module Backoff {

  /** 1, 5, 15 and 60 minutes, then hourly; in seconds. */
  function BackoffFor(retryCount: nat): int {
    if retryCount < 4 then [60, 300, 900, 3600][retryCount] else 3600
  }

  /** The wait never gets shorter from one failure to the next, and never exceeds an hour. */
  lemma BackoffGrows(j: nat, k: nat)
    requires j <= k
    ensures 60 <= BackoffFor(j) <= BackoffFor(k) <= 3600
  {
    if j < 4 && k < 4 {
      assert [60, 300, 900, 3600][j] <= [60, 300, 900, 3600][k];
    }
  }

  /** The k-th and the next of these times are at least the k-th wait apart. */
  ghost predicate Spaced(times: seq<int>) {
    forall k {:trigger times[k]} :: 1 <= k < |times| ==> times[k - 1] + BackoffFor(k) <= times[k]
  }

  lemma SpacedAppend(times: seq<int>, t: int)
    requires Spaced(times) && (times != [] ==> times[|times| - 1] + BackoffFor(|times|) <= t)
    ensures Spaced(times + [t])
  {
  }

  lemma NoneSpaced()
    ensures Spaced([])
  {
  }

  /** So N of them, from the third on, take at least 20 minutes and an hour for each after that. */
  lemma {:induction false} SpacedSpan(times: seq<int>, n: nat)
    requires Spaced(times) && 3 <= n <= |times|
    ensures times[n - 1] - times[0] >= 20 * 60 + 3600 * (n - 3)
  {
    if n == 3 {
      assert times[0] + 300 <= times[1] && times[1] + 900 <= times[2];
    } else {
      SpacedSpan(times, n - 1);
    }
  }
}
