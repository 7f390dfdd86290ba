/**
 What one manual retry of an exhausted row buys, whatever happens to the settings meanwhile.
 */
module DeliveryRetries {
  import opened Options
  import opened Selection
  import opened DeliveryQueue
  import opened DeliverySafety
  import opened DeliveryLeases
  import opened DeliveryBounds
  import opened PunchStatus

  /** Nothing more is owed: delivered, or parked until the next retry. */
  predicate Closed(p: Punch) {
    p.row.delivered || p.row.nextAttemptAt >= PARKED
  }

  // ---- The next attempt ----

  predicate CommitsOn(s: State, step: Step, id: RowId) {
    step.Commit? && step.w in s.workers && s.workers[step.w].InFlight? && s.workers[step.w].id == id
  }

  /** No attempt on the row is committed during the run. */
  predicate Untried(s: State, steps: seq<Step>, id: RowId)
    requires Valid(s, steps)
    decreases |steps|
  {
    steps == [] || (!CommitsOn(s, steps[0], id) && Untried(Next(s, steps[0]), steps[1..], id))
  }

  lemma {:induction false} UntriedKeepsCount(s: State, steps: seq<Step>, id: RowId)
    requires Valid(s, steps) && Untried(s, steps, id)
    requires id in s.punches && id in s.used && id in Run(s, steps).punches
    ensures Run(s, steps).punches[id].row.attempts == s.punches[id].row.attempts
    ensures Run(s, steps).punches[id].row.delivered == s.punches[id].row.delivered
    decreases |steps|
  {
    if steps != [] {
      var t := Next(s, steps[0]);
      if id in t.punches {
        UntriedKeepsCount(t, steps[1..], id);
      } else {
        UsedGrows(t, steps[1..], id);
      }
    }
  }

  lemma CommitClosesExactly(p: Punch, n: nat, outcome: Outcome, max: nat, now: int)
    requires n >= 1 && !p.row.delivered && now + LONGEST_BACKOFF_MS < PARKED
    ensures Closed(CommitPunch(p, n, outcome, max, now)) <==> outcome.Success? || n >= max
  {
  }

  /**
   One worker, any settings: the next committed attempt on an undelivered row with n attempts closes
   it if and only if it succeeds or n + 1 reaches the maximum its tick had read.
   */
  lemma NextAttemptClosesExactly(s: State, waiting: seq<Step>, w: WorkerId, outcome: Outcome, id: RowId, t: State)
    requires Solo(s, w) && Valid(s, waiting) && t == Run(s, waiting) && Untried(s, waiting, id)
    requires id in s.punches && !s.punches[id].row.delivered && id in t.punches
    requires CommitsOn(t, Commit(w, outcome), id) && BeforeParking(t)
    ensures Enabled(t, Commit(w, outcome))
    ensures var p := Next(t, Commit(w, outcome)).punches[id];
            var n := s.punches[id].row.attempts + 1;
            && p.row.attempts == n
            && (Closed(p) <==> outcome.Success? || n >= t.workers[w].max)
  {
    UntriedKeepsCount(s, waiting, id);
    RunSolo(s, waiting, w);
    assert Holds(t.workers[w], id);
    CommitClosesExactly(t.punches[id], s.punches[id].row.attempts + 1, outcome, t.workers[w].max, t.now);
  }

  // ---- Over whole runs ----

  lemma UntouchedWhileParked(s: State, step: Step, w: WorkerId, id: RowId)
    requires Solo(s, w) && Enabled(s, step) && s.now < PARKED && id in s.punches
    requires s.punches[id].row.nextAttemptAt >= PARKED && !Holds(s.workers[w], id) && !Retries(step, id)
    ensures !Holds(Next(s, step).workers[w], id)
    ensures id in Next(s, step).punches ==> Next(s, step).punches[id] == s.punches[id]
  {
  }

  /** A parked row of one worker, with a maximum never above its attempts plus one. */
  lemma {:induction false} RetriesBuyOneAttemptEach(s: State, steps: seq<Step>, w: WorkerId, id: RowId)
    requires Solo(s, w) && Valid(s, steps) && Run(s, steps).now < PARKED
    requires id in s.punches && id in Run(s, steps).punches
    requires s.punches[id].row.nextAttemptAt >= PARKED && !Holds(s.workers[w], id)
    requires NeverAbove(s, steps, s.punches[id].row.attempts + 1)
    ensures Run(s, steps).punches[id].row.attempts <= s.punches[id].row.attempts + RetriesOf(steps, id)
    ensures var p := Run(s, steps).punches[id];
            p.row.attempts == s.punches[id].row.attempts + RetriesOf(steps, id) ==> Closed(p)
    decreases |steps|
  {
    if steps != [] {
      var n, t := s.punches[id].row.attempts, Next(s, steps[0]);
      ClockRuns(s, steps);
      StepSolo(s, steps[0], w);
      StepNeverAbove(s, steps, n + 1);
      RetriesOfCons(steps, id);
      if Retries(steps[0], id) {
        RunWithinCredit(t, steps[1..], w, id, n + 1, n + 1);
      } else if id in t.punches {
        UntouchedWhileParked(s, steps[0], w, id);
        RetriesBuyOneAttemptEach(t, steps[1..], w, id);
      } else {
        UsedGrows(t, steps[1..], id);
      }
    }
  }

  // ---- The bound is sharp ----

  lemma LeaseOne(punches: map<RowId, Punch>, id: RowId, lease: int)
    requires id in punches
    ensures LeaseAll(punches, [id], lease) == punches[id := LeasePunch(punches[id], lease)]
  {
    var leased, updated := LeaseAll(punches, [id], lease), punches[id := LeasePunch(punches[id], lease)];
    assert leased.Keys == updated.Keys;
    forall x | x in leased ensures leased[x] == updated[x] {
      assert x in [id] <==> x == id;
    }
  }

  /** An idle worker polls, claims the row and reads it. */
  lemma TakesUp(s: State, w: WorkerId, id: RowId) returns (steps: seq<Step>)
    requires w in s.workers && s.workers[w] == Idle && Goes(s, id)
    ensures steps == [Poll(w), Claim(w, [id]), Read(w)] && Valid(s, steps)
    ensures Run(s, steps) ==
            s.(punches := s.punches[id := LeasePunch(s.punches[id], s.now + LEASE_MS)],
               workers := s.workers[w := InFlight(s.max, id, s.punches[id].row.attempts, [], s.now + LEASE_MS)])
  {
    var s1 := Next(s, Poll(w));
    assert Distinct([id]) && forall x :: x in [id] <==> x == id;
    var s2 := Next(s1, Claim(w, [id]));
    LeaseOne(s.punches, id, s.now + LEASE_MS);
    assert s2.workers[w] == Working(s.max, [id], s.now + LEASE_MS);
    assert [id][1..] == [] && Dispatches(s2, id);
    var s3 := Next(s2, Read(w));
    assert s3.workers == s.workers[w := InFlight(s.max, id, s.punches[id].row.attempts, [], s.now + LEASE_MS)];
    var r2 := RunCons(s2, Read(w), []);
    var r1 := RunCons(s1, Claim(w, [id]), r2);
    steps := RunCons(s, Poll(w), r1);
  }

  /** It goes on to fail. */
  lemma FailsOnce(s: State, w: WorkerId, id: RowId) returns (steps: seq<Step>, t: State)
    requires w in s.workers && s.workers[w] == Idle && Goes(s, id)
    ensures Valid(s, steps) && t == Run(s, steps) && RetriesOf(steps, id) == 0
    ensures forall k :: 0 <= k < |steps| ==> !steps[k].SetMax?
    ensures t.workers == s.workers && t.now == s.now && t.max == s.max && t.devices == s.devices
    ensures id in t.punches
    ensures t.punches[id] ==
            CommitPunch(LeasePunch(s.punches[id], s.now + LEASE_MS), s.punches[id].row.attempts + 1,
                        Failure("HTTP 500"), s.max, s.now)
  {
    var failure := Commit(w, Failure("HTTP 500"));
    var taken := TakesUp(s, w, id);
    var read := Run(s, taken);
    t := Next(read, failure);
    assert t.workers == s.workers;
    var last := RunCons(read, failure, []);
    RunConcat(s, taken, last);
    steps := taken + last;
    NoRetries(steps, id);
  }

  lemma {:induction false} NoRetries(steps: seq<Step>, id: RowId)
    requires forall k :: 0 <= k < |steps| ==> !steps[k].Retry?
    ensures RetriesOf(steps, id) == 0
  {
    if steps != [] {
      NoRetries(steps[1..], id);
    }
  }

  lemma {:induction false} RetriesOfConcat(a: seq<Step>, b: seq<Step>, id: RowId)
    ensures RetriesOf(a + b, id) == RetriesOf(a, id) + RetriesOf(b, id)
  {
    if a == [] {
      assert a + b == b;
    } else {
      assert (a + b)[1..] == a[1..] + b;
      RetriesOfConcat(a[1..], b, id);
    }
  }

  /** A tried row with attempts to spare goes again once its backoff is over. */
  lemma GoesAgain(s: State, w: WorkerId, id: RowId) returns (steps: seq<Step>, t: State)
    requires w in s.workers && s.workers[w] == Idle && Goes(s, id)
    requires s.punches[id].row.attempts + 1 < s.max
    ensures Valid(s, steps) && t == Run(s, steps) && RetriesOf(steps, id) == 0
    ensures forall k :: 0 <= k < |steps| ==> !steps[k].SetMax?
    ensures t.workers == s.workers && t.max == s.max && s.now <= t.now <= s.now + LONGEST_BACKOFF_MS
    ensures Goes(t, id) && t.punches[id].row.attempts == s.punches[id].row.attempts + 1
  {
    var first, failed := FailsOnce(s, w, id);
    var wait := ComputeBackoffMs(s.punches[id].row.attempts + 1);
    t := Next(failed, Advance(wait));
    var pause := RunCons(failed, Advance(wait), []);
    RunConcat(s, first, pause);
    steps := first + pause;
    NoRetries(pause, id);
    RetriesOfConcat(first, pause, id);
  }

  /** A maximum of at least attempts + 2 lets one retry buy two attempts. */
  lemma RaisedMaximumBuysTwo(s: State, w: WorkerId, id: RowId, max: nat) returns (steps: seq<Step>)
    requires w in s.workers && s.workers[w] == Idle && id in s.punches && !s.punches[id].row.delivered
    requires s.punches[id].row.device in s.devices && HasActiveWebhook(s.devices[s.punches[id].row.device])
    requires max >= s.punches[id].row.attempts + 2
    ensures Valid(s, steps) && RetriesOf(steps, id) == 1 && id in Run(s, steps).punches
    ensures forall k :: 0 <= k < |steps| && steps[k].SetMax? ==> steps[k].newMax == max
    ensures Run(s, steps).now <= s.now + LONGEST_BACKOFF_MS
    ensures var p := Run(s, steps).punches[id];
            && p.row.attempts == s.punches[id].row.attempts + 2
            && !p.row.delivered
            && (max > s.punches[id].row.attempts + 2 && Run(s, steps).now + LONGEST_BACKOFF_MS < PARKED ==> !Closed(p))
  {
    var s1 := Next(s, SetMax(max));
    var s2 := Next(s1, Retry({id}));
    var first, s3 := GoesAgain(s2, w, id);
    var second, s4 := FailsOnce(s3, w, id);
    RunConcat(s2, first, second);
    RetriesOfConcat(first, second, id);
    var r1 := RunCons(s1, Retry({id}), first + second);
    RetriesOfCons(r1, id);
    assert r1[1..] == first + second;
    steps := RunCons(s, SetMax(max), r1);
    RetriesOfCons(steps, id);
    assert steps[1..] == r1;
    assert RetriesOf([Retry({id})], id) == 1 && RetriesOf([SetMax(max)], id) == 0;
  }

  /** Under a maximum never above `ceiling`, no run gets more attempts than retries out of the row. */
  ghost predicate BuysOneEach(s: State, id: RowId, ceiling: nat)
    requires id in s.punches
  {
    forall steps :: Valid(s, steps) && Run(s, steps).now < PARKED && NeverAbove(s, steps, ceiling)
                    && id in Run(s, steps).punches ==>
      Run(s, steps).punches[id].row.attempts <= s.punches[id].row.attempts + RetriesOf(steps, id)
  }

  /**
   The exact condition: retries of a parked row with n attempts buy one attempt each, in every run,
   if and only if the maximum is never set above n + 1.
   */
  lemma OneAttemptPerRetryExactly(s: State, w: WorkerId, id: RowId, ceiling: nat)
    requires Solo(s, w) && s.workers[w] == Idle && s.max <= ceiling && s.now + LONGEST_BACKOFF_MS < PARKED
    requires id in s.punches && !s.punches[id].row.delivered && s.punches[id].row.nextAttemptAt >= PARKED
    requires s.punches[id].row.device in s.devices && HasActiveWebhook(s.devices[s.punches[id].row.device])
    ensures BuysOneEach(s, id, ceiling) <==> ceiling <= s.punches[id].row.attempts + 1
  {
    var n := s.punches[id].row.attempts;
    if ceiling <= n + 1 {
      forall steps | Valid(s, steps) && Run(s, steps).now < PARKED && NeverAbove(s, steps, ceiling)
                     && id in Run(s, steps).punches
        ensures Run(s, steps).punches[id].row.attempts <= n + RetriesOf(steps, id)
      {
        RetriesBuyOneAttemptEach(s, steps, w, id);
      }
    } else {
      var steps := RaisedMaximumBuysTwo(s, w, id, ceiling);
      assert NeverAbove(s, steps, ceiling);
      assert Run(s, steps).punches[id].row.attempts > n + RetriesOf(steps, id);
    }
  }

  /** From a fresh database: one failed attempt under a maximum of 1, and the row is parked. */
  lemma ExhaustsOne(w: WorkerId, d: DeviceId, id: RowId) returns (s: State, steps: seq<Step>)
    ensures Init(s) && s.workers.Keys == {w} && Valid(s, steps)
    ensures var t := Run(s, steps);
            && t.now == 0 && t.workers == map[w := Idle] && t.devices == map[d := Device(true, Some("u"))]
            && t.punches.Keys == {id} && t.punches[id].row.device == d
            && t.punches[id].row.attempts == 1 && !t.punches[id].row.delivered && !t.punches[id].row.held
            && t.punches[id].row.nextAttemptAt == PARKED && !t.punches[id].hist.retried
  {
    var failure := Commit(w, Failure("HTTP 500"));
    s := State(0, 1, map[d := Device(true, Some("u"))], map[], map[w := Idle], {});
    var sent := SendsOne(s, w, d, id);
    var t := Run(s, sent);
    var last := RunCons(t, failure, []);
    RunConcat(s, sent, last);
    steps := sent + last;
    assert Run(s, steps).workers == map[w := Idle];
  }

  /** Then the maximum is raised to 5: one retry leads to two more attempts, and a third is scheduled. */
  lemma RaisingTheMaximumReopensARetriedRow(w: WorkerId, d: DeviceId, id: RowId)
    returns (s: State, exhausted: seq<Step>, steps: seq<Step>)
    ensures Init(s) && s.workers.Keys == {w} && Valid(s, exhausted) && Valid(Run(s, exhausted), steps)
    ensures id in Run(s, exhausted).punches && id in Run(Run(s, exhausted), steps).punches
    ensures var p := Run(s, exhausted).punches[id];
            p.row.attempts == 1 && !p.row.delivered && p.row.nextAttemptAt == PARKED
    ensures RetriesOf(steps, id) == 1
    ensures var p := Run(Run(s, exhausted), steps).punches[id];
            p.row.attempts == 3 && !Closed(p)
  {
    s, exhausted := ExhaustsOne(w, d, id);
    steps := RaisedMaximumBuysTwo(Run(s, exhausted), w, id, 5);
  }

  /** Or nothing but the maximum changes: the row is badged pending, and stays parked. */
  lemma RaisingTheMaximumStrandsAPendingRow(w: WorkerId, d: DeviceId, id: RowId) returns (s: State, steps: seq<Step>)
    ensures Init(s) && s.workers.Keys == {w} && Valid(s, steps)
    ensures var t := Run(s, steps);
            && id in t.punches && d in t.devices && t.punches[id].row.device == d
            && ComputeStatus(t.punches[id].row, t.devices[d], t.max) == Pending
            && t.punches[id].row.nextAttemptAt == PARKED && !t.punches[id].hist.retried
  {
    s, steps := ExhaustsOne(w, d, id);
    var raise := RunCons(Run(s, steps), SetMax(5), []);
    RunConcat(s, steps, raise);
    steps := steps + raise;
  }
}
