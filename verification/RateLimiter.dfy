/** The limiter itself: its table of windows, updated in place by each call. */
module RateLimiter {
  import opened Common
  import opened RateLimiterModel

  /** The times of the calls for one key. */
  function TimesOf(calls: seq<(string, int)>, key: string): seq<int> {
    if calls == [] then []
    else
      var n := |calls| - 1;
      TimesOf(calls[..n], key) + if calls[n].0 == key then [calls[n].1] else []
  }

  class RateLimiter {
    const limit: int
    const window: int
    var entries: map<string, Entry>

    /** All calls since the limiter was made or reset. */
    ghost var calls: seq<(string, int)>

    function EntryOf(key: string): Option<Entry>
      reads this
    {
      if key in entries then Some(entries[key]) else None
    }

    ghost predicate Valid()
      reads this
    {
      forall key :: EntryOf(key) == EntryAfter(TimesOf(calls, key), limit, window)
    }

    constructor (limit: int, window: int)
      ensures Valid() && calls == [] && this.limit == limit && this.window == window
    {
      this.limit, this.window := limit, window;
      entries, calls := map[], [];
    }

    /** Counts the call; it is exceeded unless it is allowed among the calls for its own key. */
    method IsExceeded(key: string, now: int) returns (exceeded: bool)
      requires Valid()
      modifies this
      ensures Valid() && calls == old(calls) + [(key, now)]
      ensures var times := TimesOf(calls, key);
              |times| > 0 && exceeded == !Allowed(times, limit, window, |times| - 1)
    {
      assert (calls + [(key, now)])[..|calls|] == calls;
      assert EntryOf(key) == EntryAfter(TimesOf(calls, key), limit, window);
      ghost var times := TimesOf(calls, key) + [now];
      assert times[..|times| - 1] == TimesOf(calls, key);
      if key !in entries || now > entries[key].windowEnd {
        entries := entries[key := Entry(1, now + window)];
        exceeded := false;
      } else {
        var e := entries[key].(count := entries[key].count + 1);
        entries := entries[key := e];
        exceeded := e.count > limit;
      }
      calls := calls + [(key, now)];
      assert TimesOf(calls, key) == times;
      forall other ensures EntryOf(other) == EntryAfter(TimesOf(calls, other), limit, window) {
        if other != key {
          assert TimesOf(calls, other) == old(TimesOf(calls, other));
          assert old(EntryOf(other)) == EntryAfter(old(TimesOf(calls, other)), limit, window);
        }
      }
    }

    method Reset()
      modifies this
      ensures Valid() && calls == []
    {
      entries, calls := map[], [];
    }
  }
}
