/**
 The login route's use of a rate limiter (src/admin/auth.ts): the check comes first, the password
 is compared while other requests go on, and only then is a failure counted or the key forgotten.

 The route keeps two limiters, one by address and one by e-mail; each is followed on its own, what
 the other one says being an input.
 */
module LoginLimit {
  import opened Options
  import opened RateLimit

  type RequestId = nat

  /** A limiter's entries, and the key of every login between its check and its verdict. */
  datatype State = State(entries: Entries, inFlight: map<RequestId, Key>)

  datatype Step =
    | Begins(r: RequestId, key: Key, now: int, otherAllows: bool)
    | Fails(r: RequestId, now: int, later: int)
    | Succeeds(r: RequestId, resets: bool)   // only the limiter by e-mail is reset
    | Breaks(r: RequestId)                   // the lookup throws
    | Sweeps(now: int)

  predicate Enabled(s: State, step: Step) {
    match step
    case Begins(r, _, _, _) => r !in s.inFlight
    case Fails(r, _, _) => r in s.inFlight
    case Succeeds(r, _) => r in s.inFlight
    case Breaks(r) => r in s.inFlight
    case Sweeps(_) => true
  }

  predicate Allows(limits: Limits, entries: Entries, key: Key, now: int) {
    VerdictOn(limits, Live(entries, key, now), now).allowed
  }

  function Next(limits: Limits, s: State, step: Step): State
    requires Enabled(s, step)
  {
    match step
    case Begins(r, key, now, otherAllows) =>
      State(Expired(s.entries, key, now),
            if Allows(limits, s.entries, key, now) && otherAllows then s.inFlight[r := key] else s.inFlight)
    case Fails(r, now, later) =>
      State(AfterHit(limits, s.entries, s.inFlight[r], now, later), s.inFlight - {r})
    case Succeeds(r, resets) =>
      State(if resets then s.entries - {s.inFlight[r]} else s.entries, s.inFlight - {r})
    case Breaks(r) => s.(inFlight := s.inFlight - {r})
    case Sweeps(now) => s.(entries := Swept(s.entries, now))
  }

  /** A sweep may come at any time; it drops the entries whose window has ended, and those alone. */
  lemma SweepsWrite(limits: Limits, s: State, now: int, key: Key)
    ensures Enabled(s, Step.Sweeps(now))
    ensures var t := Next(limits, s, Step.Sweeps(now));
            t.inFlight == s.inFlight
            && (key in t.entries <==> key in s.entries && now < s.entries[key].resetAt)
            && (key in t.entries ==> t.entries[key] == s.entries[key])
  {
  }

  /** A success forgets the key's failures if its limiter is one that is reset; a lookup that throws counts nothing. */
  lemma SuccessWrites(limits: Limits, s: State, r: RequestId, resets: bool)
    requires r in s.inFlight
    ensures Enabled(s, Succeeds(r, resets)) && Enabled(s, Breaks(r))
    ensures var t := Next(limits, s, Succeeds(r, resets));
            t.inFlight == s.inFlight - {r}
            && t.entries.Keys == s.entries.Keys - (if resets then {s.inFlight[r]} else {})
            && forall key :: key in t.entries ==> t.entries[key] == s.entries[key]
    ensures Next(limits, s, Breaks(r)) == State(s.entries, s.inFlight - {r})
  {
  }

  function Waiting(s: State, key: Key): set<RequestId> {
    set r | r in s.inFlight && s.inFlight[r] == key
  }

  function Counted(s: State, key: Key): nat {
    if key in s.entries then s.entries[key].count else 0
  }

  /** A run during which never more than `width` logins of the key are in flight at once. */
  predicate Narrow(limits: Limits, s: State, steps: seq<Step>, key: Key, width: nat)
    decreases |steps|
  {
    |Waiting(s, key)| <= width &&
    (steps == [] || (Enabled(s, steps[0]) && Narrow(limits, Next(limits, s, steps[0]), steps[1..], key, width)))
  }

  function Run(limits: Limits, s: State, steps: seq<Step>, key: Key, width: nat): State
    requires Narrow(limits, s, steps, key, width)
    decreases |steps|
  {
    if steps == [] then s else Run(limits, Next(limits, s, steps[0]), steps[1..], key, width)
  }

  lemma WaitingAfter(limits: Limits, s: State, step: Step, key: Key)
    requires Enabled(s, step)
    ensures var t := Next(limits, s, step);
            && (step.Begins? && step.key == key && Allows(limits, s.entries, key, step.now) && step.otherAllows ==>
                  Waiting(t, key) == Waiting(s, key) + {step.r})
            && ((step.Fails? || step.Succeeds? || step.Breaks?) && s.inFlight[step.r] == key ==>
                  Waiting(t, key) == Waiting(s, key) - {step.r} && step.r in Waiting(s, key))
            && (Waiting(t, key) == Waiting(s, key)
                || (step.Begins? && step.key == key && Allows(limits, s.entries, key, step.now) && step.otherAllows)
                || ((step.Fails? || step.Succeeds? || step.Breaks?) && s.inFlight[step.r] == key))
  {
  }

  /** Counted failures and logins in flight together. */
  lemma StepKeepsTotal(limits: Limits, s: State, step: Step, key: Key, width: nat)
    requires limits.max >= 1 && width >= 1 && Enabled(s, step)
    requires |Waiting(s, key)| <= width && |Waiting(Next(limits, s, step), key)| <= width
    requires Counted(s, key) + |Waiting(s, key)| <= limits.max - 1 + width
    ensures Counted(Next(limits, s, step), key) + |Waiting(Next(limits, s, step), key)| <= limits.max - 1 + width
  {
    WaitingAfter(limits, s, step, key);
  }

  /**
   Of one key never more than max - 1 + width failures are counted in a window, where `width` is how
   many of its logins are ever in flight at once; one after the other, that is the maximum itself.
   */
  lemma {:induction false} FailuresAreBounded(limits: Limits, s: State, steps: seq<Step>, key: Key, width: nat)
    requires limits.max >= 1 && width >= 1 && Narrow(limits, s, steps, key, width)
    requires Counted(s, key) + |Waiting(s, key)| <= limits.max - 1 + width
    ensures Counted(Run(limits, s, steps, key, width), key) <= limits.max - 1 + width
    decreases |steps|
  {
    if steps != [] {
      StepKeepsTotal(limits, s, steps[0], key, width);
      FailuresAreBounded(limits, Next(limits, s, steps[0]), steps[1..], key, width);
    }
  }

  // ---- Any stretch as long as the window, for a limiter that is never reset ----

  predicate ReadsAfter(clock: int, step: Step) {
    match step
    case Begins(_, _, now, _) => clock <= now
    case Fails(_, now, later) => clock <= now <= later
    case Sweeps(now) => clock <= now
    case _ => true
  }

  function ClockAfter(clock: int, step: Step): int {
    match step
    case Begins(_, _, now, _) => now
    case Fails(_, _, later) => later
    case Sweeps(now) => now
    case _ => clock
  }

  /** The readings of the clock never go back. */
  predicate InOrder(clock: int, steps: seq<Step>)
    decreases |steps|
  {
    steps == [] || (ReadsAfter(clock, steps[0]) && InOrder(ClockAfter(clock, steps[0]), steps[1..]))
  }

  predicate NeverReset(steps: seq<Step>) {
    forall i :: 0 <= i < |steps| && steps[i].Succeeds? ==> !steps[i].resets
  }

  predicate FailsOn(s: State, step: Step, key: Key) {
    step.Fails? && step.r in s.inFlight && s.inFlight[step.r] == key
  }

  /** The clock reading a counted failure takes last. */
  function FailedAt(s: State, step: Step, key: Key): int
    requires step.Fails?
  {
    if Live(s.entries, key, step.now).Some? then step.now else step.later
  }

  /** When failures of the key were counted. */
  function FailureTimes(limits: Limits, s: State, steps: seq<Step>, key: Key, width: nat): seq<int>
    requires Narrow(limits, s, steps, key, width)
    decreases |steps|
  {
    if steps == [] then []
    else
      (if FailsOn(s, steps[0], key) then [FailedAt(s, steps[0], key)] else [])
      + FailureTimes(limits, Next(limits, s, steps[0]), steps[1..], key, width)
  }

  /** Another step leaves the key's entry, or drops it after its window. */
  lemma EntryWithoutFailure(limits: Limits, s: State, step: Step, key: Key, clock: int)
    requires Enabled(s, step) && ReadsAfter(clock, step) && !FailsOn(s, step, key)
    requires step.Succeeds? ==> !step.resets
    ensures var before, after := Lookup(s.entries, key), Lookup(Next(limits, s, step).entries, key);
            after == before || (after.None? && before.Some? && before.value.resetAt <= ClockAfter(clock, step))
  {
  }

  lemma EntryAfterFailure(limits: Limits, s: State, step: Step, key: Key, t: int)
    requires Enabled(s, step) && FailsOn(s, step, key) && t == FailedAt(s, step, key) && step.now <= step.later
    ensures step.now <= t <= step.later
    ensures var before, after := Lookup(s.entries, key), Lookup(Next(limits, s, step).entries, key);
            after == Some(if before.Some? && t < before.value.resetAt
                          then Entry(before.value.count + 1, before.value.resetAt)
                          else Entry(1, t + limits.windowMs))
  {
  }

  /** A login about to fail leaves room for its failure. */
  lemma RoomForFailure(s: State, step: Step, key: Key, capacity: nat)
    requires FailsOn(s, step, key) && Counted(s, key) + |Waiting(s, key)| <= capacity
    ensures Counted(s, key) < capacity
  {
    assert step.r in Waiting(s, key);
    assert Waiting(s, key) != {};
  }

  lemma FailureKeepsPace(limits: Limits, wide: Limits, s: State, step: Step, key: Key, times: seq<int>, first: nat,
                         clock: int, t: int) returns (latest: nat)
    requires wide.max >= 1 && wide.windowMs == limits.windowMs >= 1 && Enabled(s, step) && ReadsAfter(clock, step)
    requires FailsOn(s, step, key) && t == FailedAt(s, step, key) && Counted(s, key) < wide.max
    requires Describes(wide, Lookup(s.entries, key), times, first, clock)
    ensures Describes(wide, Lookup(Next(limits, s, step).entries, key), times + [t], latest, step.later)
  {
    EntryAfterFailure(limits, s, step, key, t);
    latest := HitDescribes(wide, Lookup(s.entries, key), times, first, clock, t, step.later);
  }

  lemma StepKeepsPace(limits: Limits, wide: Limits, s: State, step: Step, key: Key, times: seq<int>, first: nat,
                      clock: int, more: seq<int>) returns (latest: nat)
    requires wide.max >= 1 && wide.windowMs == limits.windowMs >= 1 && Enabled(s, step) && ReadsAfter(clock, step)
    requires step.Succeeds? ==> !step.resets
    requires Counted(s, key) + |Waiting(s, key)| <= wide.max
    requires Describes(wide, Lookup(s.entries, key), times, first, clock)
    requires more == if FailsOn(s, step, key) then times + [FailedAt(s, step, key)] else times
    ensures Describes(wide, Lookup(Next(limits, s, step).entries, key), more, latest, ClockAfter(clock, step))
  {
    latest := first;
    if FailsOn(s, step, key) {
      RoomForFailure(s, step, key, wide.max);
      latest := FailureKeepsPace(limits, wide, s, step, key, times, first, clock, FailedAt(s, step, key));
    } else {
      EntryWithoutFailure(limits, s, step, key, clock);
      RestDescribes(wide, Lookup(s.entries, key), Lookup(Next(limits, s, step).entries, key), times, first,
                    clock, ClockAfter(clock, step));
    }
  }

  lemma FailureTimesNext(limits: Limits, s: State, steps: seq<Step>, key: Key, width: nat, times: seq<int>)
    returns (more: seq<int>)
    requires Narrow(limits, s, steps, key, width) && steps != []
    ensures more == if FailsOn(s, steps[0], key) then times + [FailedAt(s, steps[0], key)] else times
    ensures more + FailureTimes(limits, Next(limits, s, steps[0]), steps[1..], key, width) ==
            times + FailureTimes(limits, s, steps, key, width)
  {
    more := if FailsOn(s, steps[0], key) then times + [FailedAt(s, steps[0], key)] else times;
  }

  lemma NextStillNarrow(limits: Limits, s: State, steps: seq<Step>, key: Key, width: nat)
    requires limits.max >= 1 && width >= 1 && steps != [] && Narrow(limits, s, steps, key, width) && NeverReset(steps)
    requires Counted(s, key) + |Waiting(s, key)| <= limits.max - 1 + width
    ensures Narrow(limits, Next(limits, s, steps[0]), steps[1..], key, width) && NeverReset(steps[1..])
    ensures var t := Next(limits, s, steps[0]);
            Counted(t, key) + |Waiting(t, key)| <= limits.max - 1 + width
  {
    StepKeepsTotal(limits, s, steps[0], key, width);
  }

  lemma {:induction false} FailuresKeepPace(limits: Limits, wide: Limits, s: State, steps: seq<Step>, key: Key, width: nat,
                                            times: seq<int>, first: nat, clock: int)
    requires limits.max >= 1 && width >= 1 && limits.windowMs >= 1
    requires wide == Limits(limits.windowMs, limits.max - 1 + width)
    requires Narrow(limits, s, steps, key, width) && InOrder(clock, steps) && NeverReset(steps)
    requires Counted(s, key) + |Waiting(s, key)| <= wide.max
    requires Describes(wide, Lookup(s.entries, key), times, first, clock)
    ensures Sorted(times + FailureTimes(limits, s, steps, key, width))
    ensures Spread(wide, times + FailureTimes(limits, s, steps, key, width))
    decreases |steps|
  {
    if steps == [] {
      assert times + [] == times;
    } else {
      var t := Next(limits, s, steps[0]);
      var more := FailureTimesNext(limits, s, steps, key, width, times);
      var latest := StepKeepsPace(limits, wide, s, steps[0], key, times, first, clock, more);
      NextStillNarrow(limits, s, steps, key, width);
      FailuresKeepPace(limits, wide, t, steps[1..], key, width, more, latest, ClockAfter(clock, steps[0]));
    }
  }

  lemma NothingYet(wide: Limits, s: State, key: Key, clock: int)
    requires s == State(map[], map[])
    ensures Describes(wide, Lookup(s.entries, key), [], 0, clock)
    ensures Counted(s, key) + |Waiting(s, key)| == 0
  {
    assert Waiting(s, key) == {};
  }

  lemma PaceFromTheStart(limits: Limits, wide: Limits, s: State, steps: seq<Step>, key: Key, width: nat, clock: int,
                         times: seq<int>)
    requires limits.max >= 1 && width >= 1 && limits.windowMs >= 1 && s == State(map[], map[])
    requires wide == Limits(limits.windowMs, limits.max - 1 + width)
    requires Narrow(limits, s, steps, key, width) && InOrder(clock, steps) && NeverReset(steps)
    requires times == FailureTimes(limits, s, steps, key, width)
    ensures Sorted(times) && Spread(wide, times)
  {
    NothingYet(wide, s, key, clock);
    assert [] + times == times;
    FailuresKeepPace(limits, wide, s, steps, key, width, [], 0, clock);
  }

  /**
   A limiter that no success resets, as the one by address: with c = max - 1 + width, any stretch as
   long as the window holds at most 2c - 1 counted failures of a key, 2c with its right end.
   */
  lemma FailuresInAnyWindow(limits: Limits, steps: seq<Step>, key: Key, width: nat, clock: int, from: int, s: State)
    requires limits.max >= 1 && width >= 1 && limits.windowMs >= 1 && s == State(map[], map[])
    requires Narrow(limits, s, steps, key, width) && InOrder(clock, steps) && NeverReset(steps)
    ensures var times := FailureTimes(limits, s, steps, key, width);
            && Within(times, from, from + limits.windowMs) <= 2 * (limits.max - 1 + width) - 1
            && Within(times, from, from + limits.windowMs + 1) <= 2 * (limits.max - 1 + width)
  {
    var wide := Limits(limits.windowMs, limits.max - 1 + width);
    var times := FailureTimes(limits, s, steps, key, width);
    PaceFromTheStart(limits, wide, s, steps, key, width, clock, times);
    SpreadBoundsCounts(wide, times, from);
  }

  // ---- The bound is reached ----

  /** `n` logins of the key begin at time 0, numbered from `first`. */
  function Burst(key: Key, first: nat, n: nat): seq<Step>
    decreases n
  {
    if n == 0 then [] else [Begins(first, key, 0, true)] + Burst(key, first + 1, n - 1)
  }

  function Failures(first: nat, n: nat): seq<Step>
    decreases n
  {
    if n == 0 then [] else [Fails(first, 0, 0)] + Failures(first + 1, n - 1)
  }

  /** Logins of `key` alone are in flight, those numbered `first` up to `last`. */
  ghost predicate Holds(s: State, key: Key, first: nat, last: nat) {
    && (forall r :: r in s.inFlight <==> first <= r < last)
    && (forall r :: r in s.inFlight ==> s.inFlight[r] == key)
  }

  lemma {:induction false} RangeCount(first: nat, last: nat, all: set<nat>)
    requires first <= last && forall r :: r in all <==> first <= r < last
    ensures |all| == last - first
    decreases last - first
  {
    if first < last {
      RangeCount(first + 1, last, all - {first});
    } else {
      assert all == {};
    }
  }

  lemma WaitingCount(s: State, key: Key, first: nat, last: nat)
    requires first <= last && Holds(s, key, first, last)
    ensures |Waiting(s, key)| == last - first
  {
    RangeCount(first, last, Waiting(s, key));
  }

  /** The failures of the logins in flight are counted one by one. */
  lemma {:induction false} FailuresCount(limits: Limits, s: State, key: Key, first: nat, last: nat, width: nat)
    requires limits.windowMs >= 1 && first <= last && last - first <= width && Holds(s, key, first, last)
    requires key in s.entries ==> s.entries[key].resetAt > 0
    ensures Narrow(limits, s, Failures(first, last - first), key, width)
    ensures var t := Run(limits, s, Failures(first, last - first), key, width);
            Counted(t, key) == Counted(s, key) + (last - first) && t.inFlight == map[]
            && (key in t.entries ==> t.entries[key].resetAt > 0)
    decreases last - first
  {
    WaitingCount(s, key, first, last);
    if first < last {
      var steps := Failures(first, last - first);
      var t := Next(limits, s, steps[0]);
      assert steps[1..] == Failures(first + 1, last - first - 1);
      FailuresCount(limits, t, key, first + 1, last, width);
    } else {
      assert s.inFlight == map[];
    }
  }

  /** While the count is below the maximum, any number of logins may begin. */
  lemma {:induction false} BurstBegins(limits: Limits, s: State, key: Key, from: nat, first: nat, last: nat, width: nat)
    requires from <= first <= last && last - from <= width && Holds(s, key, from, first)
    requires Counted(s, key) < limits.max && (key in s.entries ==> s.entries[key].resetAt > 0)
    ensures Narrow(limits, s, Burst(key, first, last - first), key, width)
    ensures var t := Run(limits, s, Burst(key, first, last - first), key, width);
            t.entries == s.entries && Holds(t, key, from, last)
    decreases last - first
  {
    WaitingCount(s, key, from, first);
    if first < last {
      var steps := Burst(key, first, last - first);
      assert steps[1..] == Burst(key, first + 1, last - first - 1);
      BurstBegins(limits, Next(limits, s, steps[0]), key, from, first + 1, last, width);
    }
  }

  lemma {:induction false} RunConcat(limits: Limits, s: State, a: seq<Step>, b: seq<Step>, key: Key, width: nat)
    requires Narrow(limits, s, a, key, width) && Narrow(limits, Run(limits, s, a, key, width), b, key, width)
    ensures Narrow(limits, s, a + b, key, width)
    ensures Run(limits, s, a + b, key, width) == Run(limits, Run(limits, s, a, key, width), b, key, width)
    decreases |a|
  {
    if a == [] {
      assert a + b == b;
    } else {
      assert (a + b)[1..] == a[1..] + b;
      RunConcat(limits, Next(limits, s, a[0]), a[1..], b, key, width);
    }
  }

  /** A burst of logins that all fail. */
  lemma BurstFails(limits: Limits, s: State, key: Key, n: nat, width: nat) returns (steps: seq<Step>)
    requires limits.windowMs >= 1 && n <= width && s.inFlight == map[]
    requires Counted(s, key) < limits.max && (key in s.entries ==> s.entries[key].resetAt > 0)
    ensures Narrow(limits, s, steps, key, width)
    ensures var t := Run(limits, s, steps, key, width);
            Counted(t, key) == Counted(s, key) + n && t.inFlight == map[]
            && (key in t.entries ==> t.entries[key].resetAt > 0)
  {
    BurstBegins(limits, s, key, 0, 0, n, width);
    var begun := Run(limits, s, Burst(key, 0, n), key, width);
    FailuresCount(limits, begun, key, 0, n, width);
    RunConcat(limits, s, Burst(key, 0, n), Failures(0, n), key, width);
    steps := Burst(key, 0, n) + Failures(0, n);
  }

  lemma {:induction false} FailuresOneByOne(limits: Limits, s: State, key: Key, n: nat, width: nat) returns (steps: seq<Step>)
    requires limits.windowMs >= 1 && width >= 1 && s.inFlight == map[]
    requires Counted(s, key) + n < limits.max && (key in s.entries ==> s.entries[key].resetAt > 0)
    ensures Narrow(limits, s, steps, key, width)
    ensures var t := Run(limits, s, steps, key, width);
            Counted(t, key) == Counted(s, key) + n && t.inFlight == map[]
            && (key in t.entries ==> t.entries[key].resetAt > 0)
    decreases n
  {
    if n == 0 {
      steps := [];
      assert Waiting(s, key) == {};
    } else {
      var first := BurstFails(limits, s, key, 1, width);
      var rest := FailuresOneByOne(limits, Run(limits, s, first, key, width), key, n - 1, width);
      RunConcat(limits, s, first, rest, key, width);
      steps := first + rest;
    }
  }

  /** The bound cannot be improved: for every maximum and every width a run reaches it. */
  lemma FailuresReachTheBound(limits: Limits, key: Key, width: nat) returns (steps: seq<Step>)
    requires limits.max >= 1 && limits.windowMs >= 1 && width >= 1
    ensures var s := State(map[], map[]);
            Narrow(limits, s, steps, key, width)
            && Counted(Run(limits, s, steps, key, width), key) == limits.max - 1 + width
  {
    var s := State(map[], map[]);
    var one := FailuresOneByOne(limits, s, key, limits.max - 1, width);
    var all := BurstFails(limits, Run(limits, s, one, key, width), key, width, width);
    RunConcat(limits, s, one, all, key, width);
    steps := one + all;
  }
}
