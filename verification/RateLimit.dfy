/**
 The fixed-window rate limiter of src/middleware/rateLimit.ts.  Every reading of the clock is a
 parameter of its own, so the clock may move between two readings of one request.
 */
module RateLimit {
  import opened Options

  type Key = string

  datatype Entry = Entry(count: nat, resetAt: int)

  type Entries = map<Key, Entry>

  datatype Limits = Limits(windowMs: nat, max: int)

  datatype Verdict = Verdict(allowed: bool, retryAfterSec: int)

  function Lookup(entries: Entries, key: Key): Option<Entry> {
    if key in entries then Some(entries[key]) else None
  }

  /** What `live` finds at `now`. */
  function Live(entries: Entries, key: Key, now: int): Option<Entry> {
    if key in entries && entries[key].resetAt > now then Some(entries[key]) else None
  }

  /** The map once `live` has dropped an expired entry. */
  function Expired(entries: Entries, key: Key, now: int): Entries {
    if key in entries && entries[key].resetAt <= now then entries - {key} else entries
  }

  /** `Math.ceil(ms / 1000)`. */
  function CeilSeconds(ms: int): (s: int)
    ensures 1000 * s - 1000 < ms <= 1000 * s
  {
    (ms + 999) / 1000
  }

  function VerdictOn(limits: Limits, live: Option<Entry>, later: int): Verdict {
    if live.None? || live.value.count < limits.max then Verdict(true, 0)
    else
      var seconds := CeilSeconds(live.value.resetAt - later);
      Verdict(false, if seconds < 1 then 1 else seconds)
  }

  function AfterHit(limits: Limits, entries: Entries, key: Key, now: int, later: int): Entries {
    match Live(entries, key, now)
    case Some(entry) => entries[key := Entry(entry.count + 1, entry.resetAt)]
    case None => entries[key := Entry(1, later + limits.windowMs)]
  }

  function Swept(entries: Entries, now: int): Entries {
    map key | key in entries && entries[key].resetAt > now :: entries[key]
  }

  /** A request with the four clock readings it may take. */
  datatype Request = Request(key: Key, checkNow: int, checkLater: int, hitNow: int, hitLater: int)

  function Respond(limits: Limits, entries: Entries, r: Request): Verdict {
    VerdictOn(limits, Live(entries, r.key, r.checkNow), r.checkLater)
  }

  function Handle(limits: Limits, entries: Entries, r: Request): Entries {
    var checked := Expired(entries, r.key, r.checkNow);
    if Respond(limits, entries, r).allowed then AfterHit(limits, checked, r.key, r.hitNow, r.hitLater) else checked
  }

  class RateLimiter {
    const limits: Limits
    var entries: Entries

    constructor (limits: Limits)
      ensures this.limits == limits && entries == map[]
    {
      this.limits := limits;
      entries := map[];
    }

    method LiveEntry(key: Key, now: int) returns (entry: Option<Entry>)
      modifies this
      ensures entry == Live(old(entries), key, now) && entries == Expired(old(entries), key, now)
    {
      if key in entries {
        if entries[key].resetAt <= now {
          entries := entries - {key};
          return None;
        }
        return Some(entries[key]);
      }
      return None;
    }

    method Check(key: Key, now: int, later: int) returns (verdict: Verdict)
      modifies this
      ensures verdict == VerdictOn(limits, Live(old(entries), key, now), later)
      ensures entries == Expired(old(entries), key, now)
    {
      var entry := LiveEntry(key, now);
      if entry.None? || entry.value.count < limits.max {
        return Verdict(true, 0);
      }
      var seconds := CeilSeconds(entry.value.resetAt - later);
      return Verdict(false, if seconds < 1 then 1 else seconds);
    }

    method Hit(key: Key, now: int, later: int)
      modifies this
      ensures entries == AfterHit(limits, old(entries), key, now, later)
    {
      var entry := LiveEntry(key, now);
      match entry {
        case Some(e) => entries := entries[key := Entry(e.count + 1, e.resetAt)];
        case None => entries := entries[key := Entry(1, later + limits.windowMs)];
      }
    }

    method Reset(key: Key)
      modifies this
      ensures entries == old(entries) - {key}
    {
      entries := entries - {key};
    }

    /** The background timer: one pass over the map, deleting as it goes. */
    method Sweep(now: int)
      modifies this
      ensures entries == Swept(old(entries), now)
    {
      var rest := entries.Keys;
      while rest != {}
        invariant rest <= old(entries).Keys
        invariant forall k :: k in entries <==> k in old(entries) && (k in rest || old(entries)[k].resetAt > now)
        invariant forall k :: k in entries ==> entries[k] == old(entries)[k]
        decreases |rest|
      {
        var key :| key in rest;
        rest := rest - {key};
        if key in entries && entries[key].resetAt <= now {
          entries := entries - {key};
        }
      }
    }

    /** The `rateLimitByIp` middleware: the request passes, or is told when to come back. */
    method HandleRequest(request: Request) returns (verdict: Verdict)
      modifies this
      ensures verdict == Respond(limits, old(entries), request)
      ensures entries == Handle(limits, old(entries), request)
    {
      verdict := Check(request.key, request.checkNow, request.checkLater);
      if verdict.allowed {
        Hit(request.key, request.hitNow, request.hitLater);
      }
    }
  }

  // ---- Runs of the middleware ----

  datatype Event = Arrives(request: Request) | Sweeps(now: int)

  function Step(limits: Limits, entries: Entries, event: Event): Entries {
    match event
    case Arrives(r) => Handle(limits, entries, r)
    case Sweeps(now) => Swept(entries, now)
  }

  function Clock(event: Event): int {
    match event
    case Arrives(r) => r.hitLater
    case Sweeps(now) => now
  }

  predicate ReadsInOrder(clock: int, event: Event) {
    match event
    case Arrives(r) => clock <= r.checkNow <= r.checkLater <= r.hitNow <= r.hitLater
    case Sweeps(now) => clock <= now
  }

  /** The readings never go back. */
  predicate Ordered(clock: int, events: seq<Event>)
    decreases |events|
  {
    events == [] || (ReadsInOrder(clock, events[0]) && Ordered(Clock(events[0]), events[1..]))
  }

  function RunAll(limits: Limits, entries: Entries, events: seq<Event>): Entries
    decreases |events|
  {
    if events == [] then entries else RunAll(limits, Step(limits, entries, events[0]), events[1..])
  }

  predicate Admits(limits: Limits, entries: Entries, event: Event, key: Key) {
    event.Arrives? && event.request.key == key && Respond(limits, entries, event.request).allowed
  }

  /** When the request is let through: the last clock reading its hit takes. */
  function AdmittedAt(entries: Entries, r: Request): int {
    if Live(Expired(entries, r.key, r.checkNow), r.key, r.hitNow).Some? then r.hitNow else r.hitLater
  }

  /** When the key's requests were let through. */
  function Admitted(limits: Limits, entries: Entries, events: seq<Event>, key: Key): seq<int>
    decreases |events|
  {
    if events == [] then []
    else
      (if Admits(limits, entries, events[0], key) then [AdmittedAt(entries, events[0].request)] else [])
      + Admitted(limits, Step(limits, entries, events[0]), events[1..], key)
  }

  // ---- Pace: what the admitted times of one key keep ----

  predicate Sorted(times: seq<int>) {
    forall i, j :: 0 <= i < j < |times| ==> times[i] <= times[j]
  }

  /** Any `2 * max` admitted requests span a whole window; one more span more than that. */
  ghost predicate Spread(limits: Limits, times: seq<int>) {
    && (forall i, j :: 0 <= i < |times| && 0 <= j < |times| && j == i + 2 * limits.max - 1 ==>
          times[i] + limits.windowMs <= times[j])
    && (forall i, j :: 0 <= i < |times| && 0 <= j < |times| && j == i + 2 * limits.max ==>
          times[i] + limits.windowMs < times[j])
  }

  /** `first` begins the latest window: what came before is older, and all but `max` by a whole window. */
  ghost predicate LatestWindow(limits: Limits, times: seq<int>, first: nat) {
    && first < |times| <= first + limits.max
    && (forall i :: 0 <= i < first ==> times[i] < times[first])
    && (forall i :: 0 <= i < |times| ==> times[i] < times[first] + limits.windowMs)
    && (forall i :: 0 <= i <= first - limits.max ==> times[i] + limits.windowMs <= times[first])
    && (forall i :: 0 <= i < first - limits.max ==> times[i] + limits.windowMs < times[first])
  }

  /** The entry describes the latest window, or that window is over. */
  ghost predicate Describes(limits: Limits, entry: Option<Entry>, times: seq<int>, first: nat, clock: int) {
    && Sorted(times)
    && Spread(limits, times)
    && (times == [] ==> entry.None?)
    && (times != [] ==>
          && times[|times| - 1] <= clock
          && LatestWindow(limits, times, first)
          && var end := times[first] + limits.windowMs;
             if entry.Some? then entry.value == Entry(|times| - first, end) else end <= clock)
  }

  lemma OpenWindow(limits: Limits, times: seq<int>, first: nat, t: int)
    requires limits.max >= 1 && limits.windowMs >= 1
    requires times != [] ==> LatestWindow(limits, times, first) && times[first] + limits.windowMs <= t
    ensures LatestWindow(limits, times + [t], |times|)
  {
  }

  lemma FillWindow(limits: Limits, times: seq<int>, first: nat, t: int)
    requires limits.max >= 1
    requires LatestWindow(limits, times, first) && |times| < first + limits.max
    requires t < times[first] + limits.windowMs
    ensures LatestWindow(limits, times + [t], first)
  {
  }

  lemma SpreadOneMore(limits: Limits, times: seq<int>, first: nat, t: int)
    requires limits.max >= 1
    requires Spread(limits, times) && LatestWindow(limits, times + [t], first) && (times + [t])[first] <= t
    ensures Spread(limits, times + [t])
  {
  }

  /** A key's entry after an event that lets none of its requests through. */
  lemma EntryWithoutHit(limits: Limits, entries: Entries, event: Event, key: Key, clock: int)
    requires ReadsInOrder(clock, event) && !Admits(limits, entries, event, key)
    ensures var before, after := Lookup(entries, key), Lookup(Step(limits, entries, event), key);
            after == before || (after.None? && before.Some? && before.value.resetAt <= Clock(event))
  {
  }

  /** A key's entry after one of its requests was let through. */
  lemma EntryAfterHit(limits: Limits, entries: Entries, event: Event, key: Key, clock: int, t: int)
    requires ReadsInOrder(clock, event) && Admits(limits, entries, event, key) && t == AdmittedAt(entries, event.request)
    ensures clock <= t <= Clock(event)
    ensures var before, after := Lookup(entries, key), Lookup(Step(limits, entries, event), key);
            if before.Some? && t < before.value.resetAt
            then before.value.count < limits.max && after == Some(Entry(before.value.count + 1, before.value.resetAt))
            else after == Some(Entry(1, t + limits.windowMs))
  {
  }

  lemma HitDescribes(limits: Limits, entry: Option<Entry>, times: seq<int>, first: nat, clock: int, t: int, now: int)
    returns (latest: nat)
    requires limits.max >= 1 && limits.windowMs >= 1
    requires Describes(limits, entry, times, first, clock) && clock <= t <= now
    requires entry.Some? && t < entry.value.resetAt ==> entry.value.count < limits.max
    ensures var after := if entry.Some? && t < entry.value.resetAt then Entry(entry.value.count + 1, entry.value.resetAt)
                         else Entry(1, t + limits.windowMs);
            Describes(limits, Some(after), times + [t], latest, now)
  {
    if entry.Some? && t < entry.value.resetAt {
      latest := first;
      FillWindow(limits, times, first, t);
    } else {
      latest := |times|;
      OpenWindow(limits, times, first, t);
    }
    SpreadOneMore(limits, times, latest, t);
  }

  /** An entry left alone, or dropped after its window. */
  lemma RestDescribes(limits: Limits, before: Option<Entry>, after: Option<Entry>, times: seq<int>, first: nat,
                      clock: int, now: int)
    requires Describes(limits, before, times, first, clock) && clock <= now
    requires after == before || (after.None? && before.Some? && before.value.resetAt <= now)
    ensures Describes(limits, after, times, first, now)
  {
  }

  lemma StepDescribes(limits: Limits, entries: Entries, event: Event, key: Key, times: seq<int>, first: nat, clock: int,
                      more: seq<int>) returns (latest: nat)
    requires limits.max >= 1 && limits.windowMs >= 1
    requires ReadsInOrder(clock, event)
    requires Describes(limits, Lookup(entries, key), times, first, clock)
    requires more == if Admits(limits, entries, event, key) then times + [AdmittedAt(entries, event.request)] else times
    ensures Describes(limits, Lookup(Step(limits, entries, event), key), more, latest, Clock(event))
  {
    latest := first;
    if Admits(limits, entries, event, key) {
      var t := AdmittedAt(entries, event.request);
      EntryAfterHit(limits, entries, event, key, clock, t);
      latest := HitDescribes(limits, Lookup(entries, key), times, first, clock, t, Clock(event));
    } else {
      EntryWithoutHit(limits, entries, event, key, clock);
      RestDescribes(limits, Lookup(entries, key), Lookup(Step(limits, entries, event), key), times, first,
                    clock, Clock(event));
    }
  }

  lemma AdmittedNext(limits: Limits, entries: Entries, events: seq<Event>, key: Key, times: seq<int>)
    returns (more: seq<int>)
    requires events != []
    ensures more == if Admits(limits, entries, events[0], key)
                    then times + [AdmittedAt(entries, events[0].request)] else times
    ensures more + Admitted(limits, Step(limits, entries, events[0]), events[1..], key) ==
            times + Admitted(limits, entries, events, key)
  {
    more := if Admits(limits, entries, events[0], key) then times + [AdmittedAt(entries, events[0].request)] else times;
  }

  lemma {:induction false} RunKeepsPace(limits: Limits, entries: Entries, events: seq<Event>, key: Key,
                                        times: seq<int>, first: nat, clock: int)
    requires limits.max >= 1 && limits.windowMs >= 1
    requires Ordered(clock, events)
    requires Describes(limits, Lookup(entries, key), times, first, clock)
    ensures Spread(limits, times + Admitted(limits, entries, events, key))
    ensures Sorted(times + Admitted(limits, entries, events, key))
    decreases |events|
  {
    if events == [] {
      assert times + [] == times;
    } else {
      var more := AdmittedNext(limits, entries, events, key, times);
      var latest := StepDescribes(limits, entries, events[0], key, times, first, clock, more);
      RunKeepsPace(limits, Step(limits, entries, events[0]), events[1..], key, more, latest, Clock(events[0]));
    }
  }

  // ---- The sliding bound ----

  /** How many of the times lie in the half-open interval. */
  function Within(times: seq<int>, from: int, to: int): nat {
    if times == [] then 0 else (if from <= times[0] < to then 1 else 0) + Within(times[1..], from, to)
  }

  lemma {:induction false} WithinIsASpan(times: seq<int>, from: int, to: int) returns (i: nat)
    requires Sorted(times)
    ensures i + Within(times, from, to) <= |times|
    ensures forall k :: i <= k < i + Within(times, from, to) ==> from <= times[k] < to
  {
    if times == [] {
      return 0;
    }
    assert Sorted(times[1..]);
    var n := Within(times[1..], from, to);
    i := WithinIsASpan(times[1..], from, to);
    assert forall k :: i <= k < i + n ==> times[1..][k] == times[k + 1];
    if from <= times[0] < to && n > 0 {
      FirstsCount(times[1..], from, to);
      i := 0;
      assert forall k :: 0 <= k < n ==> times[1..][k] == times[k + 1];
    } else if from <= times[0] < to {
      i := 0;
    } else {
      i := i + 1;
    }
  }

  /** From the left border on, the counted ones come first. */
  lemma {:induction false} FirstsCount(times: seq<int>, from: int, to: int)
    requires Sorted(times) && (times != [] ==> from <= times[0])
    ensures Within(times, from, to) <= |times|
    ensures forall k :: 0 <= k < Within(times, from, to) ==> from <= times[k] < to
  {
    if times != [] {
      assert Sorted(times[1..]);
      FirstsCount(times[1..], from, to);
      assert forall k :: 0 <= k < |times| - 1 ==> times[1..][k] == times[k + 1];
      if times[0] >= to {
        NothingCounts(times, from, to);
      }
    }
  }

  lemma {:induction false} NothingCounts(times: seq<int>, from: int, to: int)
    requires forall k :: 0 <= k < |times| ==> to <= times[k]
    ensures Within(times, from, to) == 0
  {
    if times != [] {
      assert forall k :: 0 <= k < |times| - 1 ==> times[1..][k] == times[k + 1];
      NothingCounts(times[1..], from, to);
    }
  }

  lemma SpreadBoundsCounts(limits: Limits, times: seq<int>, from: int)
    requires limits.max >= 1 && Sorted(times) && Spread(limits, times)
    ensures Within(times, from, from + limits.windowMs) <= 2 * limits.max - 1
    ensures Within(times, from, from + limits.windowMs + 1) <= 2 * limits.max
  {
    var i := WithinIsASpan(times, from, from + limits.windowMs);
    var j := WithinIsASpan(times, from, from + limits.windowMs + 1);
    var last := i + 2 * limits.max - 1;
    assert last < |times| ==> times[i] + limits.windowMs <= times[last];
    last := j + 2 * limits.max;
    assert last < |times| ==> times[j] + limits.windowMs < times[last];
  }

  /**
   Of one key's requests, any stretch as long as the window lets through at most `2 * max - 1`
   without its right end, and at most `2 * max` with it.
   */
  lemma SlidingBound(limits: Limits, events: seq<Event>, key: Key, clock: int, from: int)
    requires limits.max >= 1 && limits.windowMs >= 1 && Ordered(clock, events)
    ensures var times := Admitted(limits, map[], events, key);
            && Within(times, from, from + limits.windowMs) <= 2 * limits.max - 1
            && Within(times, from, from + limits.windowMs + 1) <= 2 * limits.max
  {
    var times := Admitted(limits, map[], events, key);
    RunKeepsPace(limits, map[], events, key, [], 0, clock);
    assert [] + times == times;
    SpreadBoundsCounts(limits, times, from);
  }

  // ---- The bound is reached ----

  function Copies<T>(x: T, n: nat): seq<T> {
    if n == 0 then [] else [x] + Copies(x, n - 1)
  }

  lemma CopiesCons<T>(x: T, n: nat, rest: seq<T>)
    requires n > 0
    ensures Copies(x, n) + rest == [x] + (Copies(x, n - 1) + rest)
  {
  }

  /** A request whose clock stands still. */
  function At(key: Key, t: int): Event {
    Arrives(Request(key, t, t, t, t))
  }

  lemma NextIsAdmitted(limits: Limits, entries: Entries, after: Entries, key: Key, t: int, rest: seq<Event>,
                       clock: int, times: seq<int>)
    requires Admits(limits, entries, At(key, t), key) && after == Step(limits, entries, At(key, t))
    requires clock <= t && Ordered(t, rest) && times == Admitted(limits, after, rest, key)
    ensures Ordered(clock, [At(key, t)] + rest) && Admitted(limits, entries, [At(key, t)] + rest, key) == [t] + times
  {
    assert ([At(key, t)] + rest)[1..] == rest;
  }

  lemma StepOpens(limits: Limits, entries: Entries, key: Key, t: int)
    requires key in entries ==> entries[key].resetAt <= t
    ensures Admits(limits, entries, At(key, t), key)
    ensures Step(limits, entries, At(key, t)) == entries[key := Entry(1, t + limits.windowMs)]
  {
  }

  lemma StepFills(limits: Limits, entries: Entries, key: Key, t: int, count: nat, end: int)
    requires key in entries && entries[key] == Entry(count, end) && t < end && count < limits.max
    ensures Admits(limits, entries, At(key, t), key)
    ensures Step(limits, entries, At(key, t)) == entries[key := Entry(count + 1, end)]
  {
  }

  /** As many requests as the open window has room for, all at one moment. */
  lemma {:induction false} BurstIsAdmitted(limits: Limits, entries: Entries, after: Entries, key: Key, t: int, n: nat,
                                           count: nat, end: int, rest: seq<Event>, clock: int, times: seq<int>)
    requires key in entries && entries[key] == Entry(count, end) && t < end && count + n <= limits.max
    requires after == entries[key := Entry(count + n, end)] && times == Admitted(limits, after, rest, key)
    requires clock <= t && Ordered(t, rest)
    ensures Ordered(clock, Copies(At(key, t), n) + rest)
    ensures Admitted(limits, entries, Copies(At(key, t), n) + rest, key) == Copies(t, n) + times
    decreases n
  {
    if n == 0 {
      assert Copies(At(key, t), 0) + rest == rest && Copies(t, 0) + times == times;
      assert after == entries;
    } else {
      var next := entries[key := Entry(count + 1, end)];
      StepFills(limits, entries, key, t, count, end);
      assert next[key := Entry(count + n, end)] == after;
      BurstIsAdmitted(limits, next, after, key, t, n - 1, count + 1, end, rest, t, times);
      NextIsAdmitted(limits, entries, next, key, t, Copies(At(key, t), n - 1) + rest, clock, Copies(t, n - 1) + times);
      CopiesCons(At(key, t), n, rest);
      CopiesCons(t, n, times);
    }
  }

  /** One request that opens a window, and others that fill it. */
  lemma WindowIsAdmitted(limits: Limits, entries: Entries, key: Key, first: int, t: int, end: int, rest: seq<Event>,
                         clock: int, times: seq<int>) returns (events: seq<Event>)
    requires limits.max >= 1 && (key in entries ==> entries[key].resetAt <= first)
    requires clock <= first <= t < end == first + limits.windowMs && Ordered(t, rest)
    requires times == Admitted(limits, entries[key := Entry(limits.max, end)], rest, key)
    ensures events == [At(key, first)] + (Copies(At(key, t), limits.max - 1) + rest)
    ensures Ordered(clock, events)
    ensures Admitted(limits, entries, events, key) == [first] + (Copies(t, limits.max - 1) + times)
  {
    var begun := entries[key := Entry(1, end)];
    var after := entries[key := Entry(limits.max, end)];
    assert begun[key := Entry(limits.max, end)] == after;
    StepOpens(limits, entries, key, first);
    BurstIsAdmitted(limits, begun, after, key, t, limits.max - 1, 1, end, rest, first, times);
    NextIsAdmitted(limits, entries, begun, key, first, Copies(At(key, t), limits.max - 1) + rest, clock,
                   Copies(t, limits.max - 1) + times);
    events := [At(key, first)] + (Copies(At(key, t), limits.max - 1) + rest);
  }

  lemma {:induction false} WithinConcat(a: seq<int>, b: seq<int>, from: int, to: int)
    ensures Within(a + b, from, to) == Within(a, from, to) + Within(b, from, to)
  {
    if a == [] {
      assert a + b == b;
    } else {
      assert (a + b)[1..] == a[1..] + b;
      WithinConcat(a[1..], b, from, to);
    }
  }

  lemma {:induction false} WithinCopies(t: int, n: nat, from: int, to: int)
    ensures Within(Copies(t, n), from, to) == if from <= t < to then n else 0
    decreases n
  {
    if n > 0 {
      assert Copies(t, n)[1..] == Copies(t, n - 1);
      WithinCopies(t, n - 1, from, to);
    }
  }

  /** One request, then the rest of its window at its very end, then a whole window at once. */
  lemma PackedRun(limits: Limits, key: Key) returns (events: seq<Event>)
    requires limits.max >= 1 && limits.windowMs >= 1
    ensures Ordered(0, events)
    ensures Admitted(limits, map[], events, key) ==
            [0] + (Copies<int>(limits.windowMs - 1, limits.max - 1) +
                   ([limits.windowMs] + (Copies<int>(limits.windowMs, limits.max - 1) + [])))
  {
    var end: int, more: nat := limits.windowMs, limits.max - 1;
    var filled: Entries := map[key := Entry(limits.max, end)];
    var second := WindowIsAdmitted(limits, filled, key, end, end, end + end, [], end - 1, []);
    var times := [end] + (Copies(end, more) + []);
    var empty: Entries := map[];
    assert filled == empty[key := Entry(limits.max, end)];
    events := WindowIsAdmitted(limits, empty, key, 0, end - 1, end, second, 0, times);
  }

  lemma WithinOne(t: int, from: int, to: int)
    ensures Within([t], from, to) == if from <= t < to then 1 else 0
  {
    assert [t][1..] == [];
  }

  lemma PackedCounts(end: int, more: nat, from: int, to: int)
    ensures Within([0] + (Copies(end - 1, more) + ([end] + (Copies(end, more) + []))), from, to) ==
            (if from <= 0 < to then 1 else 0) + (if from <= end - 1 < to then more else 0)
            + (if from <= end < to then more + 1 else 0)
  {
    assert Copies(end, more) + [] == Copies(end, more);
    WithinConcat([0], Copies(end - 1, more) + ([end] + Copies(end, more)), from, to);
    WithinConcat(Copies(end - 1, more), [end] + Copies(end, more), from, to);
    WithinConcat([end], Copies(end, more), from, to);
    WithinCopies(end - 1, more, from, to);
    WithinCopies(end, more, from, to);
    WithinOne(0, from, to);
    WithinOne(end, from, to);
  }

  /** Both halves of the bound are reached by one run, for every maximum and every window of two milliseconds or more. */
  lemma SlidingBoundIsReached(limits: Limits, key: Key) returns (events: seq<Event>)
    requires limits.max >= 1 && limits.windowMs >= 2
    ensures Ordered(0, events)
    ensures var times := Admitted(limits, map[], events, key);
            && Within(times, limits.windowMs - 1, 2 * limits.windowMs - 1) == 2 * limits.max - 1
            && Within(times, 0, limits.windowMs + 1) == 2 * limits.max
  {
    events := PackedRun(limits, key);
    PackedCounts(limits.windowMs, limits.max - 1, limits.windowMs - 1, 2 * limits.windowMs - 1);
    PackedCounts(limits.windowMs, limits.max - 1, 0, limits.windowMs + 1);
  }

  /** Without `max >= 1` the bound fails at once: a key without an entry is always let through. */
  lemma ZeroMaxStillAdmits(limits: Limits, r: Request, from: int)
    requires limits.max <= 0 && limits.windowMs >= 1 && from == r.hitLater
    requires r.checkNow <= r.checkLater <= r.hitNow <= r.hitLater
    ensures Within(Admitted(limits, map[], [Arrives(r)], r.key), from, from + limits.windowMs) > 2 * limits.max - 1
  {
    var event := Arrives(r);
    assert Admits(limits, map[], event, r.key);
    assert [event][1..] == [];
    assert Admitted(limits, Step(limits, map[], event), [], r.key) == [];
    assert Admitted(limits, map[], [event], r.key) == [from];
    assert [from][1..] == [];
  }

  // ---- The sweep cannot be observed ----

  function Responses(limits: Limits, entries: Entries, events: seq<Event>): seq<Verdict>
    decreases |events|
  {
    if events == [] then []
    else
      (if events[0].Arrives? then [Respond(limits, entries, events[0].request)] else [])
      + Responses(limits, Step(limits, entries, events[0]), events[1..])
  }

  /** Every request is answered, in the state that the events before it have left. */
  lemma {:induction false} EveryRequestIsAnswered(limits: Limits, entries: Entries, events: seq<Event>, last: Event)
    ensures RunAll(limits, entries, events + [last]) == Step(limits, RunAll(limits, entries, events), last)
    ensures Responses(limits, entries, events + [last]) ==
            Responses(limits, entries, events)
            + (if last.Arrives? then [Respond(limits, RunAll(limits, entries, events), last.request)] else [])
    decreases |events|
  {
    if events == [] {
      assert [last][1..] == [];
      assert events + [last] == [last];
    } else {
      assert (events + [last])[1..] == events[1..] + [last];
      EveryRequestIsAnswered(limits, Step(limits, entries, events[0]), events[1..], last);
    }
  }

  function WithoutSweeps(events: seq<Event>): seq<Event> {
    if events == [] then []
    else (if events[0].Arrives? then [events[0]] else []) + WithoutSweeps(events[1..])
  }

  /** From `clock` on, both maps hold the same live entries. */
  ghost predicate SameLive(a: Entries, b: Entries, clock: int) {
    forall key, now :: now >= clock ==> Live(a, key, now) == Live(b, key, now)
  }

  lemma SameLiveAfterRequest(limits: Limits, a: Entries, b: Entries, clock: int, event: Event)
    requires SameLive(a, b, clock) && ReadsInOrder(clock, event) && event.Arrives?
    ensures Respond(limits, a, event.request) == Respond(limits, b, event.request)
    ensures SameLive(Step(limits, a, event), Step(limits, b, event), Clock(event))
  {
    var r := event.request;
    var a1, b1 := Expired(a, r.key, r.checkNow), Expired(b, r.key, r.checkNow);
    assert Live(a, r.key, r.checkNow) == Live(b, r.key, r.checkNow);
    forall key, now | now >= r.checkNow ensures Live(a1, key, now) == Live(b1, key, now) {
      assert Live(a, key, now) == Live(b, key, now);
    }
    assert Live(a1, r.key, r.hitNow) == Live(b1, r.key, r.hitNow);
    forall key, now | now >= Clock(event)
      ensures Live(Step(limits, a, event), key, now) == Live(Step(limits, b, event), key, now)
    {
      assert Live(a1, key, now) == Live(b1, key, now);
    }
  }

  lemma SameLiveAfterSweep(a: Entries, b: Entries, clock: int, now: int)
    requires SameLive(a, b, clock) && clock <= now
    ensures SameLive(Swept(a, now), b, now)
  {
    forall key, t | t >= now ensures Live(Swept(a, now), key, t) == Live(b, key, t) {
      assert Live(a, key, t) == Live(b, key, t);
    }
  }

  lemma {:induction false} SweepsDoNotMatter(limits: Limits, a: Entries, b: Entries, events: seq<Event>, clock: int)
    requires SameLive(a, b, clock) && Ordered(clock, events)
    ensures Responses(limits, a, events) == Responses(limits, b, WithoutSweeps(events))
    decreases |events|
  {
    if events != [] {
      var event := events[0];
      match event
      case Arrives(r) =>
        SameLiveAfterRequest(limits, a, b, clock, event);
        SweepsDoNotMatter(limits, Step(limits, a, event), Step(limits, b, event), events[1..], Clock(event));
        assert WithoutSweeps(events)[1..] == WithoutSweeps(events[1..]);
      case Sweeps(now) =>
        SameLiveAfterSweep(a, b, clock, now);
        SweepsDoNotMatter(limits, Swept(a, now), b, events[1..], now);
        assert WithoutSweeps(events) == WithoutSweeps(events[1..]);
        assert Responses(limits, a, events) == Responses(limits, Swept(a, now), events[1..]);
    }
  }

  /** Every verdict, retry time included, is the one a limiter without the sweep would give. */
  lemma SweepIsInvisible(limits: Limits, entries: Entries, events: seq<Event>, clock: int)
    requires Ordered(clock, events)
    ensures Responses(limits, entries, events) == Responses(limits, entries, WithoutSweeps(events))
  {
    SweepsDoNotMatter(limits, entries, entries, events, clock);
  }

  // ---- Retry-After can be relied on ----

  lemma {:induction false} EntryWithoutHits(limits: Limits, entries: Entries, events: seq<Event>, key: Key, clock: int)
    requires Ordered(clock, events) && Admitted(limits, entries, events, key) == []
    ensures var before, after := Lookup(entries, key), Lookup(RunAll(limits, entries, events), key);
            after == before || after.None?
    decreases |events|
  {
    if events != [] {
      EntryWithoutHit(limits, entries, events[0], key, clock);
      EntryWithoutHits(limits, Step(limits, entries, events[0]), events[1..], key, Clock(events[0]));
    }
  }

  /** Refused once and having waited as told, a key with no request let through since is let through. */
  lemma WaitingIsRewarded(limits: Limits, entries: Entries, refused: Request, events: seq<Event>, again: Request)
    requires ReadsInOrder(refused.checkNow, Arrives(refused)) && !Respond(limits, entries, refused).allowed
    requires Ordered(refused.hitLater, events)
    requires Admitted(limits, Handle(limits, entries, refused), events, refused.key) == []
    requires again.key == refused.key
    requires again.checkNow >= refused.checkLater + 1000 * Respond(limits, entries, refused).retryAfterSec
    ensures Respond(limits, RunAll(limits, Handle(limits, entries, refused), events), again).allowed
  {
    EntryWithoutHits(limits, Handle(limits, entries, refused), events, refused.key, refused.hitLater);
  }

  /** Until the window ends it stays refused, and the wait announced is at most a second longer. */
  lemma RefusedUntilTheEnd(limits: Limits, entries: Entries, r: Request, again: Request)
    requires ReadsInOrder(r.checkNow, Arrives(r)) && !Respond(limits, entries, r).allowed
    requires again.key == r.key
    ensures Respond(limits, Handle(limits, entries, r), again).allowed <==> entries[r.key].resetAt <= again.checkNow
    ensures var retryAfterSec := Respond(limits, entries, r).retryAfterSec;
            retryAfterSec >= 1 &&
            (retryAfterSec > 1 ==> r.checkLater + 1000 * retryAfterSec < entries[r.key].resetAt + 1000)
  {
  }
}
