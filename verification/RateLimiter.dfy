// The hashed-IP sliding-window limiter of functions/lib/site-data-rate-limit.ts, which
// functions/selector-snapshot/[[path]].ts repeats for its writes: what it holds for each caller
// follows the full log of that caller's admissions since it was last evicted.
module RateLimiter {
  import opened Options

  type Key = string

  // What an outside observer sees of one limiter.
  datatype Event = Admitted(key: Key, at: int) | Evicted(key: Key)

  const SITE_DATA_WINDOW_MS: nat := 60_000
  const SITE_DATA_MAX_PER_WINDOW: nat := 1_200
  const SITE_DATA_MAX_TRACKED_IPS: nat := 5_000
  const POST_WINDOW_MS: nat := 60_000
  const POST_MAX_PER_WINDOW: nat := 10
  const POST_MAX_TRACKED_IPS: nat := 5_000

  // The stamps later than `cutoff`, in order.
  function After(stamps: seq<int>, cutoff: int): seq<int> {
    if stamps == [] then []
    else
      var last := stamps[|stamps| - 1];
      After(stamps[..|stamps| - 1], cutoff) + if last > cutoff then [last] else []
  }

  // All admissions of `k`, whatever was evicted in between.
  ghost function AllAdmissions(events: seq<Event>, k: Key): seq<int> {
    if events == [] then []
    else
      var before := AllAdmissions(events[..|events| - 1], k);
      var last := events[|events| - 1];
      if last.Admitted? && last.key == k then before + [last.at] else before
  }

  ghost function Extended(log: seq<int>, e: Event, k: Key): seq<int> {
    if e.key != k then log
    else if e.Evicted? then []
    else log + [e.at]
  }

  // The admissions of `k` since it was last evicted.
  ghost function Admissions(events: seq<Event>, k: Key): seq<int> {
    if events == [] then []
    else
      var before := Admissions(events[..|events| - 1], k);
      Extended(before, events[|events| - 1], k)
  }

  // How many stamps fall in the half-open window that ends at `end`.
  ghost function InWindow(stamps: seq<int>, end: int, window: nat): nat {
    if stamps == [] then 0
    else
      InWindow(stamps[..|stamps| - 1], end, window)
      + if end - window < stamps[|stamps| - 1] <= end then 1 else 0
  }

  ghost predicate Ordered(stamps: seq<int>) {
    forall i, j :: 0 <= i < j < |stamps| ==> stamps[i] <= stamps[j]
  }

  ghost predicate NoneLater(stamps: seq<int>, end: int) {
    forall i :: 0 <= i < |stamps| ==> stamps[i] <= end
  }

  // Any `max + 1` stamps in a row take at least a whole window.
  ghost predicate Spaced(stamps: seq<int>, max: nat, window: nat) {
    forall i :: 0 <= i && i + max < |stamps| ==> stamps[i + max] - stamps[i] >= window
  }

  lemma {:induction false} AfterIsSuffix(stamps: seq<int>, cutoff: int)
    requires Ordered(stamps)
    ensures |After(stamps, cutoff)| <= |stamps|
    ensures forall i :: 0 <= i < |stamps| ==> (stamps[i] > cutoff <==> i >= |stamps| - |After(stamps, cutoff)|)
  {
    if stamps != [] {
      var n := |stamps| - 1;
      AfterIsSuffix(stamps[..n], cutoff);
      forall i | 0 <= i < n
        ensures stamps[i] > cutoff <==> i >= n + 1 - |After(stamps, cutoff)|
      {
        assert stamps[..n][i] == stamps[i] <= stamps[n];
      }
    }
  }

  lemma {:induction false} AfterShorter(stamps: seq<int>, cutoff: int)
    ensures |After(stamps, cutoff)| <= |stamps|
  {
    if stamps != [] {
      AfterShorter(stamps[..|stamps| - 1], cutoff);
    }
  }

  lemma {:induction false} AfterAppend(stamps: seq<int>, at: int, cutoff: int)
    ensures After(stamps + [at], cutoff) == After(stamps, cutoff) + if at > cutoff then [at] else []
  {
    assert (stamps + [at])[..|stamps|] == stamps;
  }

  // Pruning at a cutoff loses nothing for any later one.
  lemma {:induction false} AfterLater(stamps: seq<int>, early: int, late: int)
    requires early <= late
    ensures After(After(stamps, early), late) == After(stamps, late)
  {
    if stamps != [] {
      var n := |stamps| - 1;
      AfterLater(stamps[..n], early, late);
      AfterAppend(After(stamps[..n], early), stamps[n], late);
      assert After(stamps[..n], early) + [] == After(stamps[..n], early);
    }
  }

  lemma {:induction false} InWindowIsAfter(stamps: seq<int>, end: int, window: nat)
    requires NoneLater(stamps, end)
    ensures InWindow(stamps, end, window) == |After(stamps, end - window)|
  {
    if stamps != [] {
      InWindowIsAfter(stamps[..|stamps| - 1], end, window);
    }
  }

  // Spacing is what bounds every window, wherever it ends.
  lemma {:induction false} SpacedBoundsWindows(stamps: seq<int>, end: int, max: nat, window: nat)
    requires Ordered(stamps) && Spaced(stamps, max, window)
    ensures InWindow(stamps, end, window) <= max
  {
    if stamps != [] {
      var n := |stamps| - 1;
      if stamps[n] > end {
        SpacedBoundsWindows(stamps[..n], end, max, window);
      } else {
        forall i | 0 <= i <= n
          ensures stamps[i] <= end
        {
          if i < n {
            assert stamps[i] <= stamps[n];
          }
        }
        InWindowIsAfter(stamps, end, window);
        AfterIsSuffix(stamps, end - window);
        if n >= max {
          assert stamps[n - max + max] - stamps[n - max] >= window;
        }
      }
    }
  }

  lemma {:induction false} AdmitKeepsSpacing(stamps: seq<int>, now: int, max: nat, window: nat)
    requires Ordered(stamps) && Spaced(stamps, max, window) && NoneLater(stamps, now)
    requires |After(stamps, now - window)| < max
    ensures Ordered(stamps + [now]) && Spaced(stamps + [now], max, window) && NoneLater(stamps + [now], now)
  {
    AfterIsSuffix(stamps, now - window);
  }

  lemma {:induction false} AdmissionsAppend(events: seq<Event>, e: Event, k: Key)
    ensures Admissions(events + [e], k) == Extended(Admissions(events, k), e, k)
  {
    assert (events + [e])[..|events|] == events;
  }

  lemma ExtendedByEviction(log: seq<int>, evicted: Key, k: Key)
    ensures Extended(log, Evicted(evicted), k) == if k == evicted then [] else log
  {
  }

  // At no moment of the run had any key too many admissions in a row.
  ghost predicate AlwaysSpaced(events: seq<Event>, max: nat, window: nat) {
    && (forall k: Key :: Ordered(Admissions(events, k)) && Spaced(Admissions(events, k), max, window))
    && (events == [] || AlwaysSpaced(events[..|events| - 1], max, window))
  }

  lemma {:induction false} AlwaysSpacedPrefix(events: seq<Event>, n: nat, max: nat, window: nat)
    requires AlwaysSpaced(events, max, window) && n <= |events|
    ensures AlwaysSpaced(events[..n], max, window)
  {
    if n < |events| {
      var before := events[..|events| - 1];
      AlwaysSpacedPrefix(before, n, max, window);
      assert before[..n] == events[..n];
    } else {
      assert events[..n] == events;
    }
  }

  lemma {:induction false} InWindowAppend(a: seq<int>, b: seq<int>, end: int, window: nat)
    ensures InWindow(a + b, end, window) == InWindow(a, end, window) + InWindow(b, end, window)
  {
    if b == [] {
      assert a + b == a;
    } else {
      var n := |b| - 1;
      InWindowAppend(a, b[..n], end, window);
      assert (a + b)[..|a + b| - 1] == a + b[..n];
    }
  }

  lemma {:induction false} UnevictedAppend(before: seq<Event>, segment: seq<Event>, k: Key)
    requires Evicted(k) !in segment
    ensures Admissions(before + segment, k) == Admissions(before, k) + AllAdmissions(segment, k)
  {
    if segment == [] {
      assert before + segment == before;
    } else {
      var n := |segment| - 1;
      UnevictedAppend(before, segment[..n], k);
      assert before + segment == before + segment[..n] + [segment[n]];
      AdmissionsAppend(before + segment[..n], segment[n], k);
      assert Evicted(k) != segment[n];
    }
  }

  // While a key is not evicted, no window of the length metered holds more than `max` of its
  // admissions, wherever in the run and whenever the window ends.
  lemma {:induction false} UnevictedWindow(events: seq<Event>, from: nat, to: nat, k: Key, end: int, max: nat, window: nat)
    requires AlwaysSpaced(events, max, window)
    requires from <= to <= |events| && Evicted(k) !in events[from..to]
    ensures InWindow(AllAdmissions(events[from..to], k), end, window) <= max
  {
    AlwaysSpacedPrefix(events, to, max, window);
    assert events[..to] == events[..from] + events[from..to];
    UnevictedAppend(events[..from], events[from..to], k);
    SpacedBoundsWindows(Admissions(events[..to], k), end, max, window);
    InWindowAppend(Admissions(events[..from], k), AllAdmissions(events[from..to], k), end, window);
  }

  // What the limiter holds for one key agrees with the key's log from `cutoff` on.
  ghost predicate Follows(held: seq<int>, log: seq<int>, max: nat, window: nat, clock: int) {
    && |held| <= max
    && Ordered(log) && NoneLater(log, clock) && Spaced(log, max, window)
    && After(held, clock - window) == After(log, clock - window)
  }

  lemma FollowsLater(held: seq<int>, log: seq<int>, max: nat, window: nat, clock: int, now: int)
    requires Follows(held, log, max, window, clock) && clock <= now
    ensures Follows(held, log, max, window, now)
    ensures Follows(After(held, now - window), log, max, window, now)
    ensures |After(held, now - window)| == InWindow(log, now, window)
  {
    hide After, InWindow, Spaced, Ordered;
    AfterLater(held, clock - window, now - window);
    AfterLater(log, clock - window, now - window);
    AfterLater(held, now - window, now - window);
    AfterShorter(held, now - window);
    InWindowIsAfter(log, now, window);
  }

  lemma {:induction false} FollowsAdmission(held: seq<int>, log: seq<int>, max: nat, window: nat, now: int)
    requires Follows(held, log, max, window, now) && held == After(held, now - window) && |held| < max
    ensures Follows(held + [now], log + [now], max, window, now)
  {
    hide After, InWindow, Spaced, Ordered, NoneLater;
    AdmitKeepsSpacing(log, now, max, window);
    AfterAppend(held, now, now - window);
    AfterAppend(log, now, now - window);
  }

  ghost predicate Distinct(order: seq<Key>) {
    forall i, j :: 0 <= i < j < |order| ==> order[i] != order[j]
  }

  lemma {:induction false} SizeOfDistinct(order: seq<Key>)
    requires Distinct(order)
    ensures |set k | k in order| == |order|
  {
    if order != [] {
      var n := |order| - 1;
      SizeOfDistinct(order[..n]);
      assert (set k | k in order) == (set k | k in order[..n]) + {order[n]};
      forall k | k in order[..n]
        ensures k != order[n]
      {
      }
    }
  }

  // The state of a limiter explained by its events.
  ghost predicate Explains(
    events: seq<Event>, stamps: map<Key, seq<int>>, order: seq<Key>, max: nat, window: nat, clock: int)
  {
    && Distinct(order)
    && (forall k :: k in order <==> k in stamps)
    && (forall k :: k in stamps ==> Follows(stamps[k], Admissions(events, k), max, window, clock))
    && (forall k :: k !in stamps ==> Admissions(events, k) == [])
  }

  lemma ExplainsLater(
    events: seq<Event>, stamps: map<Key, seq<int>>, order: seq<Key>, max: nat, window: nat, clock: int, now: int)
    requires Explains(events, stamps, order, max, window, clock) && clock <= now
    ensures Explains(events, stamps, order, max, window, now)
  {
    forall k | k in stamps
      ensures Follows(stamps[k], Admissions(events, k), max, window, now)
    {
      FollowsLater(stamps[k], Admissions(events, k), max, window, clock, now);
    }
  }

  lemma ExplainsEviction(
    events: seq<Event>, stamps: map<Key, seq<int>>, order: seq<Key>, max: nat, window: nat, clock: int)
    requires Explains(events, stamps, order, max, window, clock) && order != []
    ensures order[0] in stamps
    ensures Explains(events + [Evicted(order[0])], stamps - {order[0]}, order[1..], max, window, clock)
  {
    hide Follows, Admissions, Extended;
    var oldest, rest := order[0], order[1..];
    forall k
      ensures Admissions(events + [Evicted(oldest)], k) == if k == oldest then [] else Admissions(events, k)
      ensures k in rest <==> k in order && k != oldest
    {
      AdmissionsAppend(events, Evicted(oldest), k);
      ExtendedByEviction(Admissions(events, k), oldest, k);
      if k in order && k != oldest {
        var i :| 0 <= i < |order| && order[i] == k;
        assert rest[i - 1] == k;
      }
    }
  }

  // What `recent` is, and what admitting one more makes of it.
  lemma {:induction false} RecentFollows(
    events: seq<Event>, stamps: map<Key, seq<int>>, order: seq<Key>, max: nat, window: nat, now: int, key: Key,
    recent: seq<int>)
    requires Explains(events, stamps, order, max, window, now)
    requires recent == After(if key in stamps then stamps[key] else [], now - window)
    ensures Follows(recent, Admissions(events, key), max, window, now)
    ensures recent == After(recent, now - window)
    ensures |recent| == InWindow(Admissions(events, key), now, window)
    ensures key !in stamps ==> recent == []
  {
    assert key !in stamps ==> recent == [];
    hide Follows, After, InWindow;
    var held := if key in stamps then stamps[key] else [];
    FollowsLater(held, Admissions(events, key), max, window, now, now);
    AfterLater(held, now - window, now - window);
  }

  lemma {:induction false} ExplainsAdmission(
    events: seq<Event>, stamps: map<Key, seq<int>>, order: seq<Key>, max: nat, window: nat, now: int, key: Key,
    recent: seq<int>)
    requires Explains(events, stamps, order, max, window, now)
    requires recent == After(if key in stamps then stamps[key] else [], now - window) && |recent| < max
    ensures Explains(
      events + [Admitted(key, now)], stamps[key := recent + [now]], if key in stamps then order else order + [key],
      max, window, now)
  {
    hide Follows, After, InWindow, Admissions;
    RecentFollows(events, stamps, order, max, window, now, key, recent);
    FollowsAdmission(recent, Admissions(events, key), max, window, now);
    var later := events + [Admitted(key, now)];
    forall k
      ensures Admissions(later, k) == if k == key then Admissions(events, key) + [now] else Admissions(events, k)
    {
      AdmissionsAppend(events, Admitted(key, now), k);
    }
  }

  lemma {:induction false} ExplainsPruning(
    events: seq<Event>, stamps: map<Key, seq<int>>, order: seq<Key>, max: nat, window: nat, now: int, key: Key,
    recent: seq<int>)
    requires Explains(events, stamps, order, max, window, now) && key in stamps
    requires recent == After(stamps[key], now - window)
    ensures Explains(events, stamps[key := recent], order, max, window, now)
  {
    hide Follows, After, InWindow, Admissions;
    RecentFollows(events, stamps, order, max, window, now, key, recent);
  }

  lemma {:induction false} AlwaysSpacedMore(
    events: seq<Event>, e: Event, stamps: map<Key, seq<int>>, order: seq<Key>, max: nat, window: nat, clock: int)
    requires AlwaysSpaced(events, max, window)
    requires Explains(events + [e], stamps, order, max, window, clock)
    ensures AlwaysSpaced(events + [e], max, window)
  {
    assert (events + [e])[..|events|] == events;
    forall k: Key
      ensures Ordered(Admissions(events + [e], k)) && Spaced(Admissions(events + [e], k), max, window)
    {
      if k in stamps {
        assert Follows(stamps[k], Admissions(events + [e], k), max, window, clock);
      }
    }
  }

  class Limiter {
    const window: nat
    const max: nat
    const capacity: nat
    // A JavaScript Map: its entries, and its keys in the order they were inserted.
    var stamps: map<Key, seq<int>>
    var order: seq<Key>
    ghost var events: seq<Event>
    ghost var clock: int

    ghost predicate Valid()
      reads this
    {
      && max >= 1
      && Explains(events, stamps, order, max, window, clock)
      && AlwaysSpaced(events, max, window)
      && |order| <= if capacity == 0 then 1 else capacity
    }

    constructor (window: nat, max: nat, capacity: nat)
      requires max >= 1
      ensures Valid() && events == [] && stamps == map[] && order == []
      ensures this.window == window && this.max == max && this.capacity == capacity
    {
      this.window, this.max, this.capacity := window, max, capacity;
      stamps, order, events, clock := map[], [], [], 0;
    }

    constructor SiteData()
      ensures Valid() && events == [] && stamps == map[] && order == []
      ensures window == 60_000 && max == 1_200 && capacity == 5_000
    {
      window, max, capacity := SITE_DATA_WINDOW_MS, SITE_DATA_MAX_PER_WINDOW, SITE_DATA_MAX_TRACKED_IPS;
      stamps, order, events, clock := map[], [], [], 0;
    }

    constructor SnapshotPosts()
      ensures Valid() && events == [] && stamps == map[] && order == []
      ensures window == 60_000 && max == 10 && capacity == 5_000
    {
      window, max, capacity := POST_WINDOW_MS, POST_MAX_PER_WINDOW, POST_MAX_TRACKED_IPS;
      stamps, order, events, clock := map[], [], [], 0;
    }

    // However many callers there are, the map stays within its capacity.
    lemma SizeBounded()
      requires Valid()
      ensures |stamps| <= if capacity == 0 then 1 else capacity
    {
      SizeOfDistinct(order);
      assert stamps.Keys == set k | k in order;
    }

    // A caller without a key cannot be metered. Otherwise the call is limited exactly when the
    // key's log since its last eviction already holds `max` admissions in the window that ends now.
    method IsLimited(key: Option<Key>, now: int) returns (limited: bool)
      requires Valid() && clock <= now
      modifies this
      ensures Valid() && clock == if key.None? then old(clock) else now
      ensures key.None? ==> !limited && events == old(events) && stamps == old(stamps) && order == old(order)
      ensures key.Some? ==> (limited <==> InWindow(old(Admissions(events, key.value)), now, window) >= max)
      ensures limited ==> events == old(events) && order == old(order) && stamps.Keys == old(stamps.Keys)
      ensures key.Some? && !limited ==>
        if key.value in old(stamps) then
          order == old(order) && events == old(events) + [Admitted(key.value, now)]
        else if |old(order)| >= capacity && old(order) != [] then
          && order == old(order)[1..] + [key.value]
          && events == old(events) + [Evicted(old(order)[0])] + [Admitted(key.value, now)]
        else
          order == old(order) + [key.value] && events == old(events) + [Admitted(key.value, now)]
    {
      hide Explains, Follows, Admissions, InWindow, After, Extended, AlwaysSpaced;
      if key.None? {
        return false;
      }
      var k := key.value;
      ghost var log := Admissions(events, k);
      ExplainsLater(events, stamps, order, max, window, clock, now);
      clock := now;
      var cutoff := now - window;
      var recent := After(if k in stamps then stamps[k] else [], cutoff);
      RecentFollows(events, stamps, order, max, window, now, k, recent);
      if |recent| >= max {
        ExplainsPruning(events, stamps, order, max, window, now, k, recent);
        stamps := stamps[k := recent];
        return true;
      }
      if k !in stamps && |order| >= capacity && order != [] {
        ExplainsEviction(events, stamps, order, max, window, now);
        AlwaysSpacedMore(events, Evicted(order[0]), stamps - {order[0]}, order[1..], max, window, now);
        events := events + [Evicted(order[0])];
        stamps, order := stamps - {order[0]}, order[1..];
      }
      ExplainsAdmission(events, stamps, order, max, window, now, k, recent);
      ghost var admitted := events;
      events := events + [Admitted(k, now)];
      if k !in stamps {
        order := order + [k];
      }
      AlwaysSpacedMore(admitted, Admitted(k, now), stamps[k := recent + [now]], order, max, window, now);
      stamps := stamps[k := recent + [now]];
      return false;
    }
  }
}
