/**
  Counting timestamps in a sliding window.  The watcher's caps and the sign-in send limits work the
  same way: count what is recent, refuse at the limit, record the new stamp a little later, and
  forget stamps that are too old to count.
 */
module RollingWindow {

  /** How many stamps are at or after lo. */
  function Since(ts: seq<real>, lo: real): nat {
    if ts == [] then 0 else Since(ts[..|ts| - 1], lo) + (if ts[|ts| - 1] >= lo then 1 else 0)
  }

  /** How many stamps lie in the closed window [x, x + w]. */
  function InWindow(ts: seq<real>, x: real, w: real): nat {
    if ts == [] then 0 else InWindow(ts[..|ts| - 1], x, w) + (if x <= ts[|ts| - 1] <= x + w then 1 else 0)
  }

  /** No closed window of length w holds more than cap stamps. */
  ghost predicate Capped(ts: seq<real>, w: real, cap: int) {
    forall x :: InWindow(ts, x, w) <= cap
  }

  /** kept is what remains of full after dropping a prefix of stamps older than `bound`. */
  predicate Pruned(full: seq<real>, kept: seq<real>, bound: real) {
    && |kept| <= |full|
    && kept == full[|full| - |kept|..]
    && (forall k :: 0 <= k < |full| - |kept| ==> full[k] < bound)
  }

  lemma {:induction false} SinceShrinks(ts: seq<real>, lo: real, lo': real)
    requires lo <= lo'
    ensures Since(ts, lo') <= Since(ts, lo) <= |ts|
  {
    if ts != [] {
      SinceShrinks(ts[..|ts| - 1], lo, lo');
    }
  }

  lemma {:induction false} WindowBelowSince(ts: seq<real>, x: real, w: real)
    ensures InWindow(ts, x, w) <= Since(ts, x)
  {
    if ts != [] {
      WindowBelowSince(ts[..|ts| - 1], x, w);
    }
  }

  /** Recording a stamp t keeps the cap if, even at the time of an earlier check c <= t, the window
      ending at c was not full: the gap between check and record can only empty the window. */
  lemma RecordKeepsCap(ts: seq<real>, w: real, cap: int, c: real, t: real)
    requires Capped(ts, w, cap) && c <= t && Since(ts, c - w) < cap
    ensures Capped(ts + [t], w, cap)
  {
    forall x
      ensures InWindow(ts + [t], x, w) <= cap
    {
      assert (ts + [t])[..|ts|] == ts;
      assert InWindow(ts, x, w) <= cap;
      if x <= t <= x + w {
        WindowBelowSince(ts, x, w);
        SinceShrinks(ts, c - w, x);
      }
    }
  }

  /** Counting back from the latest stamp, the open-ended count is the count of a closed window. */
  lemma {:induction false} SinceIsWindow(ts: seq<real>, t: real, w: real)
    requires w >= 0.0 && forall k :: 0 <= k < |ts| ==> ts[k] <= t
    ensures InWindow(ts, t - w, w) == Since(ts, t - w)
  {
    if ts != [] {
      SinceIsWindow(ts[..|ts| - 1], t, w);
    }
  }

  /** And that is exactly when recording t, which nothing recorded is later than, keeps the cap. */
  lemma RecordKeepsCapIff(ts: seq<real>, w: real, cap: int, t: real)
    requires cap >= 1 && forall k :: 0 <= k < |ts| ==> ts[k] <= t
    ensures Capped(ts + [t], w, cap) <==> Capped(ts, w, cap) && Since(ts, t - w) < cap
  {
    assert (ts + [t])[..|ts|] == ts;
    if Capped(ts + [t], w, cap) {
      forall x
        ensures InWindow(ts, x, w) <= cap
      {
        assert InWindow(ts + [t], x, w) <= cap;
      }
      assert InWindow(ts + [t], t - w, w) <= cap;
      if w >= 0.0 {
        SinceIsWindow(ts, t, w);
      } else {
        SinceNone(ts, t - w);
      }
    }
    if Capped(ts, w, cap) && Since(ts, t - w) < cap {
      RecordKeepsCap(ts, w, cap, t, t);
    }
  }

  lemma SinceRecord(ts: seq<real>, t: real, lo: real)
    ensures Since(ts + [t], lo) == Since(ts, lo) + (if t >= lo then 1 else 0)
  {
    assert (ts + [t])[..|ts|] == ts;
  }

  lemma {:induction false} SinceAppend(a: seq<real>, b: seq<real>, lo: real)
    ensures Since(a + b, lo) == Since(a, lo) + Since(b, lo)
  {
    if b == [] {
      assert a + b == a;
    } else {
      SinceAppend(a, b[..|b| - 1], lo);
      assert (a + b)[..|a + b| - 1] == a + b[..|b| - 1];
    }
  }

  lemma {:induction false} SinceNone(ts: seq<real>, lo: real)
    requires forall k :: 0 <= k < |ts| ==> ts[k] < lo
    ensures Since(ts, lo) == 0
  {
    if ts != [] {
      SinceNone(ts[..|ts| - 1], lo);
    }
  }

  lemma {:induction false} SinceAll(ts: seq<real>, lo: real)
    requires forall k :: 0 <= k < |ts| ==> ts[k] >= lo
    ensures Since(ts, lo) == |ts|
  {
    if ts != [] {
      SinceAll(ts[..|ts| - 1], lo);
    }
  }

  /** Pruning never changes a count over a window it did not cut into. */
  lemma PruningIsInvisible(full: seq<real>, kept: seq<real>, bound: real, lo: real)
    requires Pruned(full, kept, bound) && bound <= lo
    ensures Since(kept, lo) == Since(full, lo)
  {
    var gone := full[..|full| - |kept|];
    assert full == gone + kept;
    SinceAppend(gone, kept, lo);
    SinceNone(gone, lo);
  }

  /** Oldest first. */
  predicate Sorted(ts: seq<real>) {
    |ts| <= 1 || (ts[0] <= ts[1] && Sorted(ts[1..]))
  }

  lemma {:induction false} SortedFirst(ts: seq<real>, k: nat)
    requires Sorted(ts) && k < |ts|
    ensures ts[0] <= ts[k]
  {
    if k > 0 {
      SortedFirst(ts[1..], k - 1);
    }
  }

  /** Nothing in a deque is later than `now`. */
  predicate Past(ts: seq<real>, now: real) {
    Sorted(ts) && (ts == [] || ts[|ts| - 1] <= now)
  }

  lemma {:induction false} SortedAppend(ts: seq<real>, t: real)
    requires Past(ts, t)
    ensures Past(ts + [t], t)
  {
    if |ts| == 1 {
      assert (ts + [t])[1..] == [t];
    } else if |ts| > 1 {
      SortedAppend(ts[1..], t);
      assert (ts + [t])[1..] == ts[1..] + [t];
    }
  }

  /** Stale stamps popped from the left. */
  function Evicted(dq: seq<real>, cutoff: real): seq<real> {
    if dq != [] && dq[0] < cutoff then Evicted(dq[1..], cutoff) else dq
  }

  /** The eviction loop shared by the watcher's deques. */
  method Evict(dq: seq<real>, cutoff: real) returns (rest: seq<real>)
    ensures rest == Evicted(dq, cutoff)
  {
    rest := dq;
    while rest != [] && rest[0] < cutoff
      invariant Evicted(rest, cutoff) == Evicted(dq, cutoff)
    {
      rest := rest[1..];
    }
  }

  /** A deque holds, oldest first, the full history minus stamps too old to count at time `now`. */
  predicate DequeRight(full: seq<real>, dq: seq<real>, now: real, w: real) {
    Pruned(full, dq, now - w) && Past(dq, now)
  }

  /** Evicting a right deque leaves a right deque whose length is the exact count over the full history. */
  lemma {:induction false} EvictedRight(full: seq<real>, dq: seq<real>, now: real, w: real)
    requires DequeRight(full, dq, now, w)
    ensures DequeRight(full, Evicted(dq, now - w), now, w)
    ensures |Evicted(dq, now - w)| == Since(full, now - w)
    decreases |dq|
  {
    if dq != [] && dq[0] < now - w {
      assert dq[0] == full[|full| - |dq|];
      EvictedRight(full, dq[1..], now, w);
    } else {
      forall k: nat | k < |dq|
        ensures dq[k] >= now - w
      {
        SortedFirst(dq, k);
      }
      SinceAll(dq, now - w);
      PruningIsInvisible(full, dq, now - w, now - w);
    }
  }

  /** A right deque stays right as time passes... */
  lemma DequeAges(full: seq<real>, dq: seq<real>, now: real, t: real, w: real)
    requires DequeRight(full, dq, now, w) && now <= t
    ensures DequeRight(full, dq, t, w) && Since(full, t - w) <= Since(full, now - w)
  {
    SinceShrinks(full, now - w, t - w);
  }

  /** ...and when a stamp is recorded on it. */
  lemma DequeRecords(full: seq<real>, dq: seq<real>, now: real, w: real)
    requires DequeRight(full, dq, now, w)
    ensures DequeRight(full + [now], dq + [now], now, w)
  {
    SortedAppend(dq, now);
  }
}
