/** Counting failed logins per client: at most three within any window, however records are
    forgotten. */
module AuthFailures {
  import opened Wrappers

  const LIMIT := 3

  /** How often a client failed, and when it last did. */
  datatype FailRecord = FailRecord(n: nat, ts: int)

  /** Times never go back. */
  ghost predicate InOrder(times: seq<int>) {
    forall i, j :: 0 <= i < j < |times| ==> times[i] <= times[j]
  }

  /** Any four failures in a row span more than a window. */
  ghost predicate Spaced(times: seq<int>, window: int) {
    forall i :: 0 <= i < |times| - LIMIT ==> times[i + LIMIT] - times[i] > window
  }

  /** What an entry stands for: the failures since the last gap longer than the window. */
  ghost predicate Describes(rec: FailRecord, times: seq<int>, window: int) {
    && 1 <= rec.n <= LIMIT && rec.n <= |times| && rec.ts == times[|times| - 1]
    && (rec.n < |times| ==> times[|times| - rec.n] - times[|times| - rec.n - 1] > window)
  }

  /** What is known about one client whose entry is gone, or was never made. */
  ghost predicate Quiet(times: seq<int>, window: int, clock: int) {
    times != [] ==> clock - times[|times| - 1] > window
  }

  /** Within any stretch no longer than the window there are at most three of them. */
  lemma AtMostThree(times: seq<int>, window: int, i: nat, j: nat, k: nat, l: nat)
    requires InOrder(times) && Spaced(times, window)
    requires i < j < k < l < |times|
    ensures times[l] - times[i] > window
  {
    assert times[i + LIMIT] - times[i] > window;
    assert i + LIMIT < l ==> times[i + LIMIT] <= times[l];
  }

  /** Counting one more keeps the spacing. */
  lemma OneMore(rec: FailRecord, times: seq<int>, window: int, now: int)
    requires InOrder(times) && Spaced(times, window) && Describes(rec, times, window) && rec.n < LIMIT
    requires times != [] ==> times[|times| - 1] <= now
    ensures InOrder(times + [now]) && Spaced(times + [now], window)
    ensures Describes(FailRecord(rec.n + 1, now), times + [now], window)
  {
    var longer := times + [now];
    var first := |times| - LIMIT;
    if first >= 0 {
      var gap := |times| - rec.n;
      assert times[first] <= times[gap - 1];
      assert rec.n > 0 ==> times[gap] <= times[|times| - 1];
    }
    forall k | 0 <= k < |longer| - LIMIT ensures longer[k + LIMIT] - longer[k] > window {
      if k < first { assert times[k + LIMIT] - times[k] > window; }
    }
  }

  /** Starting over after a silence keeps it too. */
  lemma StartOver(times: seq<int>, window: int, now: int)
    requires InOrder(times) && Spaced(times, window) && window >= 0
    requires Quiet(times, window, now)
    ensures InOrder(times + [now]) && Spaced(times + [now], window)
    ensures Describes(FailRecord(1, now), times + [now], window)
  {
    var longer := times + [now];
    forall i | 0 <= i < |longer| - LIMIT ensures longer[i + LIMIT] - longer[i] > window {
      if i + LIMIT == |times| {
        assert times[i] <= times[|times| - 1];
      }
    }
  }

  lemma GoneQuiet(rec: FailRecord, times: seq<int>, window: int, now: int)
    requires Describes(rec, times, window) && now - rec.ts > window
    ensures Quiet(times, window, now)
  {
  }

  /** One client: its entry, if it has one, describes its failures; without one it has been silent. */
  ghost predicate Tracked(rec: Option<FailRecord>, times: seq<int>, window: int, clock: int) {
    && InOrder(times) && Spaced(times, window) && (times != [] ==> times[|times| - 1] <= clock)
    && if rec.Some? then Describes(rec.value, times, window) else Quiet(times, window, clock)
  }

  /** Time may pass, and an entry older than the window may be dropped. */
  lemma TimePasses(rec: Option<FailRecord>, times: seq<int>, window: int, clock: int, now: int, dropped: bool)
    requires Tracked(rec, times, window, clock) && clock <= now
    requires dropped ==> rec.Some? && now - rec.value.ts > window
    ensures Tracked(if dropped then None else rec, times, window, now)
  {
    hide InOrder, Spaced;
  }

  class FailureRecords {
    const window: int
    var entries: map<string, FailRecord>
    var cleanupScheduled: bool
    // the recorded failures of each client since it last succeeded
    ghost var recorded: map<string, seq<int>>
    // no call has read a later time
    ghost var clock: int

    ghost function Times(key: string): seq<int>
      reads `recorded
    {
      if key in recorded then recorded[key] else []
    }

    ghost function Entry(key: string): Option<FailRecord>
      reads `entries
    {
      if key in entries then Some(entries[key]) else None
    }

    ghost predicate Tracks(key: string)
      reads this
    {
      Tracked(Entry(key), Times(key), window, clock)
    }

    ghost predicate Valid()
      reads this
    {
      window >= 0 && (entries != map[] ==> cleanupScheduled) && forall key :: Tracks(key)
    }

    constructor (window: int)
      requires window >= 0
      ensures Valid() && recorded == map[] && entries == map[] && clock == 0 && this.window == window
    {
      this.window, entries, cleanupScheduled, recorded, clock := window, map[], false, map[], 0;
    }

    /** Whether the client must wait: three failures, the last one not yet a window ago. */
    ghost predicate Blocked(key: string, now: int)
      reads `entries
    {
      key in entries && entries[key].n >= LIMIT && now - entries[key].ts <= window
    }

    method Note(key: string, rec: FailRecord, now: int)
      requires Valid() && now >= clock && Tracked(Some(rec), Times(key) + [now], window, now)
      modifies this
      ensures Valid() && clock == now
      ensures recorded == old(recorded)[key := old(Times(key)) + [now]]
    {
      hide Tracked;
      recorded := recorded[key := Times(key) + [now]];
      entries := entries[key := rec];
      if !cleanupScheduled { cleanupScheduled := true; }
      clock := now;
      forall k: string ensures Tracks(k) {
        assert old(Tracks(k));
        if k != key { TimePasses(old(Entry(k)), old(Times(k)), window, old(clock), now, false); }
      }
    }

    ghost method Wait(now: int)
      requires Valid() && now >= clock
      modifies `clock
      ensures Valid() && clock == now
    {
      hide Tracked;
      clock := now;
      forall k: string ensures Tracks(k) {
        assert old(Tracks(k));
        TimePasses(old(Entry(k)), old(Times(k)), window, old(clock), now, false);
      }
    }

    /** A blocked client's failures are not even counted. */
    method Record(key: string, now: int) returns (blocked: bool)
      requires Valid() && now >= clock
      modifies this
      ensures Valid() && clock == now
      ensures blocked == old(Blocked(key, now))
      ensures recorded == if blocked then old(recorded) else old(recorded)[key := old(Times(key)) + [now]]
    {
      ghost var times := Times(key);
      assert Tracks(key);
      hide InOrder, Spaced, Describes, Valid;
      var silent := key !in entries || now - entries[key].ts > window;
      var rec := if silent then FailRecord(0, now) else entries[key];
      blocked := rec.n >= LIMIT;
      if blocked {
        Wait(now);
      } else {
        if silent {
          if key in entries { GoneQuiet(entries[key], times, window, now); }
          StartOver(times, window, now);
        } else {
          OneMore(rec, times, window, now);
        }
        Note(key, FailRecord(rec.n + 1, now), now);
      }
    }

    /** A success forgets the failures. */
    method Clear(key: string)
      requires Valid()
      modifies `entries, `recorded
      ensures Valid() && recorded == old(recorded) - {key} && entries == old(entries) - {key}
    {
      NothingRecorded(window, clock);
      hide Tracked;
      entries, recorded := entries - {key}, recorded - {key};
      forall k: string ensures Tracks(k) { assert old(Tracks(k)); }
    }

    /** A correct credential counts only for a client that is not blocked. */
    method ClearIfAllowed(key: string, now: int) returns (allowed: bool)
      requires Valid() && now >= clock
      modifies this
      ensures Valid() && clock == now && allowed == !old(Blocked(key, now))
      ensures if allowed then recorded == old(recorded) - {key} && entries == old(entries) - {key}
              else recorded == old(recorded) && entries == old(entries)
    {
      allowed := !(key in entries && now - entries[key].ts <= window && entries[key].n >= LIMIT);
      hide Valid;
      Wait(now);
      if allowed { Clear(key); }
    }

    method Limited(key: string, now: int) returns (blocked: bool)
      requires Valid() && now >= clock
      modifies this
      ensures Valid() && clock == now && blocked == old(Blocked(key, now)) == Blocked(key, now)
      ensures recorded == old(recorded)
    {
      if key in entries && now - entries[key].ts > window {
        Drop(key, now);
        return false;
      }
      blocked := key in entries && entries[key].n >= LIMIT;
      hide Valid;
      Wait(now);
    }

    method Drop(key: string, now: int)
      requires Valid() && now >= clock && key in entries && now - entries[key].ts > window
      modifies this
      ensures Valid() && clock == now && recorded == old(recorded) && entries == old(entries) - {key}
    {
      hide Tracked;
      clock := now;
      entries := entries - {key};
      forall k: string ensures Tracks(k) {
        assert old(Tracks(k));
        TimePasses(old(Entry(k)), old(Times(k)), window, old(clock), now, k == key);
      }
    }

    /** The scheduled sweep forgets only entries that no longer block anybody. */
    method Cleanup(now: int)
      requires Valid() && now >= clock
      modifies this
      ensures Valid() && clock == now && recorded == old(recorded)
      ensures entries == map key | key in old(entries) && now - old(entries)[key].ts <= window :: old(entries)[key]
      ensures forall key :: Blocked(key, now) == old(Blocked(key, now))
    {
      hide Tracked;
      clock := now;
      entries := map key | key in entries && now - entries[key].ts <= window :: entries[key];
      if entries == map[] { cleanupScheduled := false; }
      forall k: string ensures Tracks(k) {
        assert old(Tracks(k));
        TimePasses(old(Entry(k)), old(Times(k)), window, old(clock), now, k in old(entries) && k !in entries);
      }
    }
  }

  lemma NothingRecorded(window: int, clock: int)
    ensures Tracked(None, [], window, clock)
  {
  }
}
