/** How many calls get through, per window and in any stretch of time. */
module RateLimiterProofs {
  import opened Common
  import opened RateLimiterModel

  function Max(a: int, b: int): int {
    if a < b then b else a
  }

  predicate NonDecreasing(times: seq<int>) {
    forall i, j | 0 <= i < j < |times| :: times[i] <= times[j]
  }

  /** The call that opened the window of call `k`: a window ends when a call comes later than its length. */
  function WindowStart(times: seq<int>, window: int, k: nat): (p: nat)
    requires k < |times|
    ensures p <= k
  {
    if k == 0 then 0
    else
      var p := WindowStart(times, window, k - 1);
      if times[k] > times[p] + window then k else p
  }

  lemma {:induction false} EntryCountsWindow(times: seq<int>, limit: int, window: int, k: nat)
    requires k < |times|
    ensures var p := WindowStart(times, window, k);
            EntryAfter(times[..k + 1], limit, window) == Some(Entry(k - p + 1, times[p] + window))
    decreases k
  {
    var prefix := times[..k + 1];
    assert prefix[..|prefix| - 1] == times[..k];
    if k > 0 {
      EntryCountsWindow(times, limit, window, k - 1);
    }
  }

  /** Of every window exactly the first calls are allowed: as many as the limit, and at least one. */
  lemma AllowedExactly(times: seq<int>, limit: int, window: int, k: nat)
    requires k < |times|
    ensures Allowed(times, limit, window, k) <==> k - WindowStart(times, window, k) < Max(1, limit)
  {
    if k > 0 {
      EntryCountsWindow(times, limit, window, k - 1);
    }
  }

  // ----- Counting --------------------------------------------------------

  /** The allowed calls among `i` to `j`. */
  function AllowedIn(times: seq<int>, limit: int, window: int, i: nat, j: nat): set<int>
    requires i <= j < |times|
  {
    set k: int | i <= k <= j && Allowed(times, limit, window, k)
  }

  predicate Between(lo: int, k: int, hi: int) {
    lo <= k < hi
  }

  function Range(lo: int, hi: int): set<int> {
    set k: int | lo <= k < hi && Between(lo, k, hi)
  }

  lemma {:induction false} RangeSize(lo: int, hi: int)
    requires lo <= hi
    ensures |Range(lo, hi)| == hi - lo
    decreases hi - lo
  {
    if lo < hi {
      RangeSize(lo, hi - 1);
      assert Range(lo, hi) == Range(lo, hi - 1) + {hi - 1};
    } else {
      assert Range(lo, hi) == {};
    }
  }

  lemma InTwoRanges(s: set<int>, lo: int, hi: int, lo': int, hi': int)
    requires lo <= hi && lo' <= hi' && forall k | k in s :: Between(lo, k, hi) || Between(lo', k, hi')
    ensures |s| <= (hi - lo) + (hi' - lo')
  {
    var a, b := Range(lo, hi), Range(lo', hi');
    RangeSize(lo, hi);
    RangeSize(lo', hi');
    SubsetIsSmaller(b - a, b);
    assert s <= a + (b - a);
    SubsetIsSmaller(s, a + (b - a));
  }

  lemma {:induction false} StartsInOrder(times: seq<int>, window: int, j: nat, k: nat)
    requires j <= k < |times|
    ensures WindowStart(times, window, j) <= WindowStart(times, window, k)
    ensures WindowStart(times, window, k) > j || WindowStart(times, window, k) == WindowStart(times, window, j)
    decreases k
  {
    if j < k {
      StartsInOrder(times, window, j, k - 1);
    }
  }

  /** A window that opens after another starts later than that one's end. */
  lemma {:induction false} WindowsAreApart(times: seq<int>, window: int, j: nat, k: nat)
    requires j <= k < |times| && NonDecreasing(times)
    requires WindowStart(times, window, k) != WindowStart(times, window, j)
    ensures times[WindowStart(times, window, k)] > times[WindowStart(times, window, j)] + window
    decreases k
  {
    if WindowStart(times, window, k - 1) != WindowStart(times, window, j) {
      WindowsAreApart(times, window, j, k - 1);
      StartsInOrder(times, window, k - 1, k);
    }
  }

  /** At most two windows reach into a stretch no longer than a window. */
  lemma AtMostTwoWindows(times: seq<int>, window: int, i: nat, j: nat, k: nat)
    requires i <= k <= j < |times| && NonDecreasing(times) && times[j] - times[i] <= window
    ensures var p, q := WindowStart(times, window, i), WindowStart(times, window, j);
            WindowStart(times, window, k) == p || WindowStart(times, window, k) == q
  {
    var p, q, r := WindowStart(times, window, i), WindowStart(times, window, j), WindowStart(times, window, k);
    StartsInOrder(times, window, i, k);
    StartsInOrder(times, window, k, j);
    if r != q {
      WindowsAreApart(times, window, k, j);
      assert times[r] < times[q] - window <= times[j] - window <= times[i];
      assert r <= i;
    }
  }

  /** An allowed call of a short stretch is among the first of one of the two windows. */
  lemma AllowedIsIn(times: seq<int>, limit: int, window: int, i: nat, j: nat, k: nat)
    requires i <= k <= j < |times| && NonDecreasing(times) && times[j] - times[i] <= window
    requires Allowed(times, limit, window, k)
    ensures var (p, q, m) := (WindowStart(times, window, i), WindowStart(times, window, j), Max(1, limit));
            && (p == q ==> p <= k < p + m)
            && (p != q ==> p + 1 <= k < p + m || q <= k < q + m)
  {
    var p, q := WindowStart(times, window, i), WindowStart(times, window, j);
    AllowedExactly(times, limit, window, k);
    AtMostTwoWindows(times, window, i, j, k);
    if p != q {
      WindowsAreApart(times, window, i, j);
      assert times[p] < times[q] - window <= times[j] - window <= times[i];
    }
  }

  /**
    In a stretch of time no longer than a window, fewer than twice the limit
    get through: at most `2 * max(1, limit) - 1`.
  */
  lemma BurstIsBounded(times: seq<int>, limit: int, window: int, i: nat, j: nat)
    requires i <= j < |times| && NonDecreasing(times) && times[j] - times[i] <= window
    ensures |AllowedIn(times, limit, window, i, j)| <= 2 * Max(1, limit) - 1
  {
    var p, q, m := WindowStart(times, window, i), WindowStart(times, window, j), Max(1, limit);
    var allowed := AllowedIn(times, limit, window, i, j);
    forall k: int | k in allowed
      ensures if p == q then Between(p, k, p + m) else Between(p + 1, k, p + m) || Between(q, k, q + m)
    {
      AllowedIsIn(times, limit, window, i, j, k);
    }
    if p == q {
      InTwoRanges(allowed, p, p + m, q, q);
    } else {
      InTwoRanges(allowed, p + 1, p + m, q, q + m);
    }
  }

  /** One window's first call, the rest of its calls at its very end, and the next window's right after. */
  function Burst(limit: nat, window: nat): seq<int> {
    seq(2 * limit, k => if k == 0 then 0 else if k < limit then window else window + 1)
  }

  lemma {:induction false} BurstWindows(limit: nat, window: nat, k: nat)
    requires limit >= 2 && window >= 1 && k < 2 * limit
    ensures WindowStart(Burst(limit, window), window, k) == if k < limit then 0 else limit
  {
    if k > 0 {
      BurstWindows(limit, window, k - 1);
    }
  }

  lemma BurstIsReached(limit: nat, window: nat)
    requires limit >= 2 && window >= 1
    ensures var times := Burst(limit, window);
            && NonDecreasing(times) && times[2 * limit - 1] - times[1] <= window
            && |AllowedIn(times, limit, window, 1, 2 * limit - 1)| == 2 * limit - 1
  {
    var times := Burst(limit, window);
    forall k: nat | 1 <= k < 2 * limit ensures Allowed(times, limit, window, k) {
      AllowedExactly(times, limit, window, k);
      BurstWindows(limit, window, k);
    }
    assert AllowedIn(times, limit, window, 1, 2 * limit - 1) == Range(1, 2 * limit);
    RangeSize(1, 2 * limit);
  }

  /** No stretch as long as a window lets more calls through than a single window may. */
  ghost predicate Slides(limit: int, window: int) {
    forall times: seq<int>, i: nat, j: nat
      | i <= j < |times| && NonDecreasing(times) && times[j] - times[i] <= window ::
      |AllowedIn(times, limit, window, i, j)| <= Max(1, limit)
  }

  /** The window counts as a sliding one exactly when it holds one call, or is empty. */
  lemma SlidesExactly(limit: int, window: int)
    ensures Slides(limit, window) <==> limit <= 1 || window <= 0
  {
    if limit <= 1 {
      forall times: seq<int>, i: nat, j: nat
        | i <= j < |times| && NonDecreasing(times) && times[j] - times[i] <= window
        ensures |AllowedIn(times, limit, window, i, j)| <= Max(1, limit)
      {
        BurstIsBounded(times, limit, window, i, j);
      }
    } else if window <= 0 {
      forall times: seq<int>, i: nat, j: nat
        | i <= j < |times| && NonDecreasing(times) && times[j] - times[i] <= window
        ensures |AllowedIn(times, limit, window, i, j)| <= Max(1, limit)
      {
        OneMomentIsOneWindow(times, limit, window, i, j);
      }
    } else {
      BurstIsReached(limit, window);
      var times := Burst(limit, window);
      assert |AllowedIn(times, limit, window, 1, 2 * limit - 1)| > Max(1, limit);
    }
  }

  lemma OneMomentIsOneWindow(times: seq<int>, limit: int, window: int, i: nat, j: nat)
    requires window <= 0
    requires i <= j < |times| && NonDecreasing(times) && times[j] - times[i] <= window
    ensures |AllowedIn(times, limit, window, i, j)| <= Max(1, limit)
  {
    var p, q, m := WindowStart(times, window, i), WindowStart(times, window, j), Max(1, limit);
    assert times[i] <= times[p] + window;
    if p != q {
      WindowsAreApart(times, window, i, j);
    }
    forall k: int | k in AllowedIn(times, limit, window, i, j) ensures k in Range(p, p + m) {
      AllowedIsIn(times, limit, window, i, j, k);
    }
    RangeSize(p, p + m);
    SubsetIsSmaller(AllowedIn(times, limit, window, i, j), Range(p, p + m));
  }
}
