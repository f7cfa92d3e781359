/**
  A fixed-window rate limiter: a count per key that starts again at the first
  call after its window has ended. Times are passed in and never go back.
*/
module RateLimiterModel {
  import opened Common

  datatype Entry = Entry(count: int, windowEnd: int)

  /** One call for a key at time `now`: the new entry, and whether the limit is exceeded. */
  function Call(entry: Option<Entry>, now: int, limit: int, window: int): (Entry, bool) {
    if entry.None? || now > entry.value.windowEnd then (Entry(1, now + window), false)
    else
      var e := entry.value.(count := entry.value.count + 1);
      (e, e.count > limit)
  }

  /** The entry of a key after calls at these times. */
  function EntryAfter(times: seq<int>, limit: int, window: int): Option<Entry> {
    if times == [] then None
    else
      var n := |times| - 1;
      Some(Call(EntryAfter(times[..n], limit, window), times[n], limit, window).0)
  }

  /** Whether the call at index `k` is within the limit. */
  predicate Allowed(times: seq<int>, limit: int, window: int, k: nat)
    requires k < |times|
  {
    !Call(EntryAfter(times[..k], limit, window), times[k], limit, window).1
  }
}
