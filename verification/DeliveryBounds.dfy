/**
 How often a row is attempted, where it is parked, and whether its badge tells the truth.
 */
module DeliveryBounds {
  import opened Options
  import opened DeliveryQueue
  import opened DeliverySafety
  import opened DeliveryLeases
  import opened PunchStatus

  // ---- Attempt bound, one worker ----

  /** How many retries in the run hit the row. */
  function RetriesOf(steps: seq<Step>, id: RowId): (n: nat) {
    if steps == [] then 0
    else (if steps[0].Retry? && id in steps[0].targets then 1 else 0) + RetriesOf(steps[1..], id)
  }

  /** The largest maximum in force at any moment of the run. */
  function LargestMax(max: nat, steps: seq<Step>): (m: nat)
    ensures m >= max
    decreases |steps|
  {
    if steps == [] then max
    else if steps[0].SetMax? && steps[0].newMax > max then LargestMax(steps[0].newMax, steps[1..])
    else LargestMax(max, steps[1..])
  }

  predicate NeverAbove(s: State, steps: seq<Step>, ceiling: nat) {
    && s.max <= ceiling
    && (forall w :: w in s.workers && !s.workers[w].Idle? ==> s.workers[w].max <= ceiling)
    && (forall k :: 0 <= k < |steps| && steps[k].SetMax? ==> steps[k].newMax <= ceiling)
  }

  /** One more attempt is owed: the row is in a worker's hands or its turn will come. */
  function Owed(p: Punch, held: bool): nat {
    if !p.row.delivered && (p.row.nextAttemptAt < PARKED || held) then 1 else 0
  }

  ghost predicate WithinCredit(s: State, w: WorkerId, id: RowId, credit: nat)
    requires w in s.workers
  {
    id in s.punches ==> s.punches[id].row.attempts + Owed(s.punches[id], Holds(s.workers[w], id)) <= credit
  }

  lemma StepWithinCredit(s: State, step: Step, w: WorkerId, id: RowId, ceiling: nat, credit: nat)
    requires Solo(s, w) && Enabled(s, step) && s.now < PARKED
    requires NeverAbove(s, [step], ceiling) && ceiling <= credit && id in s.used
    requires WithinCredit(s, w, id, credit)
    ensures w in Next(s, step).workers
    ensures WithinCredit(Next(s, step), w, id, credit + RetriesOf([step], id))
  {
    assert step.Commit? ==> step.w == w && Holds(s.workers[w], s.workers[w].id);
    assert QueueDistinct(s.workers[w]);
  }

  lemma {:induction false} RunWithinCredit(
    s: State, steps: seq<Step>, w: WorkerId, id: RowId, ceiling: nat, credit: nat)
    requires Solo(s, w) && Valid(s, steps) && Run(s, steps).now < PARKED
    requires NeverAbove(s, steps, ceiling) && ceiling <= credit && id in s.used
    requires WithinCredit(s, w, id, credit)
    ensures w in Run(s, steps).workers
    ensures WithinCredit(Run(s, steps), w, id, credit + RetriesOf(steps, id))
    decreases |steps|
  {
    if steps != [] {
      var t := Next(s, steps[0]);
      ClockRuns(s, steps);
      StepSolo(s, steps[0], w);
      StepWithinCredit(s, steps[0], w, id, ceiling, credit);
      StepNeverAbove(s, steps, ceiling);
      RetriesOfCons(steps, id);
      RunWithinCredit(t, steps[1..], w, id, ceiling, credit + RetriesOf([steps[0]], id));
    }
  }

  lemma RetriesOfCons(steps: seq<Step>, id: RowId)
    requires steps != []
    ensures RetriesOf(steps, id) == RetriesOf([steps[0]], id) + RetriesOf(steps[1..], id)
  {
    assert [steps[0]][1..] == [];
    assert RetriesOf([], id) == 0;
  }

  lemma {:induction false} ClockRuns(s: State, steps: seq<Step>)
    requires Valid(s, steps)
    ensures s.now <= Run(s, steps).now
    decreases |steps|
  {
    if steps != [] {
      ClockRuns(Next(s, steps[0]), steps[1..]);
    }
  }

  lemma StepNeverAbove(s: State, steps: seq<Step>, ceiling: nat)
    requires steps != [] && Enabled(s, steps[0]) && NeverAbove(s, steps, ceiling)
    ensures NeverAbove(s, [steps[0]], ceiling)
    ensures NeverAbove(Next(s, steps[0]), steps[1..], ceiling)
  {
  }

  lemma {:induction false} AttemptsBoundedFrom(s: State, steps: seq<Step>, w: WorkerId, id: RowId, ceiling: nat)
    requires Solo(s, w) && Valid(s, steps) && Run(s, steps).now < PARKED
    requires NeverAbove(s, steps, ceiling) && ceiling >= 1 && id !in s.used
    ensures id in Run(s, steps).punches ==>
              Run(s, steps).punches[id].row.attempts <= ceiling + RetriesOf(steps, id)
    decreases |steps|
  {
    if steps != [] {
      var t := Next(s, steps[0]);
      StepSolo(s, steps[0], w);
      StepNeverAbove(s, steps, ceiling);
      if steps[0].Ingest? && steps[0].newId == id {
        RunWithinCredit(t, steps[1..], w, id, ceiling, ceiling);
      } else {
        AttemptsBoundedFrom(t, steps[1..], w, id, ceiling);
      }
    }
  }

  lemma {:induction false} LargestMaxCovers(max: nat, steps: seq<Step>, k: nat)
    requires k < |steps| && steps[k].SetMax?
    ensures steps[k].newMax <= LargestMax(max, steps)
    decreases |steps|
  {
    var next := if steps[0].SetMax? && steps[0].newMax > max then steps[0].newMax else max;
    assert LargestMax(max, steps) == LargestMax(next, steps[1..]);
    if k > 0 {
      LargestMaxCovers(next, steps[1..], k - 1);
    }
  }

  /**
   One worker: a row is attempted at most as often as the largest maximum ever in force,
   plus once for each manual retry of it.
   */
  lemma AttemptsAreBounded(s: State, steps: seq<Step>, w: WorkerId, id: RowId)
    requires Init(s) && s.workers.Keys == {w} && Valid(s, steps) && Run(s, steps).now < PARKED
    requires id in Run(s, steps).punches
    ensures Run(s, steps).punches[id].row.attempts <= LargestMax(s.max, steps) + RetriesOf(steps, id)
  {
    var ceiling := LargestMax(s.max, steps);
    forall k | 0 <= k < |steps| && steps[k].SetMax? ensures steps[k].newMax <= ceiling {
      LargestMaxCovers(s.max, steps, k);
    }
    AttemptsBoundedFrom(s, steps, w, id, ceiling);
  }

  // ---- Parking, any number of workers ----

  /** Only a retry brings a parked row back: settings, webhook edits and time do not. */
  lemma {:induction false} ParkedStaysParked(s: State, steps: seq<Step>, id: RowId)
    requires Valid(s, steps) && Run(s, steps).now < PARKED
    requires id in s.punches && id in s.used && s.punches[id].row.nextAttemptAt >= PARKED
    requires forall w :: w in s.workers ==> !Holds(s.workers[w], id)
    requires forall k :: 0 <= k < |steps| ==> !Retries(steps[k], id)
    ensures id in Run(s, steps).punches ==> Run(s, steps).punches[id] == s.punches[id]
    decreases |steps|
  {
    if steps != [] {
      var t := Next(s, steps[0]);
      ClockRuns(s, steps);
      assert !Retries(steps[0], id);
      if id in t.punches {
        assert t.punches[id] == s.punches[id];
        ParkedStaysParked(t, steps[1..], id);
      } else {
        UsedGrows(t, steps[1..], id);
      }
    }
  }

  /** Clock and schedule stay clear of the parking date. */
  predicate BeforeParking(s: State) {
    s.now + LONGEST_BACKOFF_MS < PARKED
  }

  /** Parked exactly when the last committed attempt reached the maximum its tick had read. */
  ghost predicate ParkedByLastCommit(p: Punch) {
    !p.row.delivered && p.log != [] && !p.hist.retried ==>
      (p.row.nextAttemptAt == PARKED <==> p.row.attempts >= p.hist.maxAtCommit)
  }

  lemma StepParkedByLastCommit(s: State, step: Step, id: RowId)
    requires Enabled(s, step) && BeforeParking(s) && id in Next(s, step).punches
    requires id in s.punches ==> ParkedByLastCommit(s.punches[id])
    ensures ParkedByLastCommit(Next(s, step).punches[id])
  {
  }

  lemma {:induction false} RunParkedByLastCommit(s: State, steps: seq<Step>)
    requires Valid(s, steps) && BeforeParking(Run(s, steps))
    requires forall id :: id in s.punches ==> ParkedByLastCommit(s.punches[id])
    ensures forall id :: id in Run(s, steps).punches ==> ParkedByLastCommit(Run(s, steps).punches[id])
    decreases |steps|
  {
    if steps != [] {
      ClockRuns(s, steps);
      var t := Next(s, steps[0]);
      forall id | id in t.punches ensures ParkedByLastCommit(t.punches[id]) {
        StepParkedByLastCommit(s, steps[0], id);
      }
      RunParkedByLastCommit(t, steps[1..]);
    }
  }

  /** For every row tried and not retried since: parked if and only if its attempts reached that maximum. */
  lemma ParkedExactlyWhenExhausted(s: State, steps: seq<Step>, id: RowId)
    requires Init(s) && Valid(s, steps) && BeforeParking(Run(s, steps))
    requires id in Run(s, steps).punches
    requires var p := Run(s, steps).punches[id]; !p.row.delivered && p.row.attempts > 0 && !p.hist.retried
    ensures var p := Run(s, steps).punches[id];
            p.row.nextAttemptAt == PARKED <==> p.row.attempts >= p.hist.maxAtCommit
  {
    RunParkedByLastCommit(s, steps);
    InitSafe(s);
    RunSafe(s, steps);
    assert PunchSafe(Run(s, steps), id);
  }

  // ---- The badge, any number of workers ----

  predicate NeverRaised(s: State, steps: seq<Step>)
    requires Valid(s, steps)
    decreases |steps|
  {
    steps == [] || ((steps[0].SetMax? ==> steps[0].newMax <= s.max) && NeverRaised(Next(s, steps[0]), steps[1..]))
  }

  predicate NeverLowered(s: State, steps: seq<Step>)
    requires Valid(s, steps)
    decreases |steps|
  {
    steps == [] || ((steps[0].SetMax? ==> steps[0].newMax >= s.max) && NeverLowered(Next(s, steps[0]), steps[1..]))
  }

  ghost predicate Scheduled(s: State, id: RowId)
    requires id in s.punches
  {
    var row := s.punches[id].row;
    row.delivered || row.nextAttemptAt <= s.now + LONGEST_BACKOFF_MS || row.attempts >= s.max
  }

  lemma StepScheduled(s: State, step: Step, id: RowId)
    requires Enabled(s, step) && id in Next(s, step).punches
    requires id in s.punches ==> Scheduled(s, id)
    requires step.Commit? ==> s.workers[step.w].max >= s.max
    requires step.SetMax? ==> step.newMax <= s.max
    ensures Scheduled(Next(s, step), id)
  {
  }

  lemma {:induction false} RunScheduled(s: State, steps: seq<Step>)
    requires Valid(s, steps) && NeverRaised(s, steps)
    requires forall id :: id in s.punches ==> Scheduled(s, id)
    requires forall w :: w in s.workers && !s.workers[w].Idle? ==> s.workers[w].max >= s.max
    ensures forall id :: id in Run(s, steps).punches ==> Scheduled(Run(s, steps), id)
    decreases |steps|
  {
    if steps != [] {
      var t := Next(s, steps[0]);
      forall id | id in t.punches ensures Scheduled(t, id) {
        StepScheduled(s, steps[0], id);
      }
      RunScheduled(t, steps[1..]);
    }
  }

  /** While the maximum is never raised, a row badged pending is due within six hours, so never parked. */
  lemma PendingIsScheduled(s: State, steps: seq<Step>, id: RowId, device: Device)
    requires Init(s) && Valid(s, steps) && NeverRaised(s, steps)
    requires id in Run(s, steps).punches
    requires ComputeStatus(Run(s, steps).punches[id].row, device, Run(s, steps).max) == Pending
    ensures Run(s, steps).punches[id].row.nextAttemptAt <= Run(s, steps).now + LONGEST_BACKOFF_MS
    ensures BeforeParking(Run(s, steps)) ==> Run(s, steps).punches[id].row.nextAttemptAt < PARKED
  {
    RunScheduled(s, steps);
    assert Scheduled(Run(s, steps), id);
  }

  lemma {:induction false} RunKeepsMaxAtCommit(s: State, steps: seq<Step>)
    requires Valid(s, steps) && NeverLowered(s, steps)
    requires forall id :: id in s.punches ==> s.punches[id].hist.maxAtCommit <= s.max
    requires forall w :: w in s.workers && !s.workers[w].Idle? ==> s.workers[w].max <= s.max
    ensures forall id :: id in Run(s, steps).punches ==> Run(s, steps).punches[id].hist.maxAtCommit <= Run(s, steps).max
    decreases |steps|
  {
    if steps != [] {
      RunKeepsMaxAtCommit(Next(s, steps[0]), steps[1..]);
    }
  }

  /** While the maximum is never lowered, a row badged failed under a live webhook is parked unless retried since. */
  lemma FailedIsParked(s: State, steps: seq<Step>, id: RowId, device: Device)
    requires Init(s) && Valid(s, steps) && NeverLowered(s, steps) && BeforeParking(Run(s, steps))
    requires id in Run(s, steps).punches && HasActiveWebhook(device)
    requires ComputeStatus(Run(s, steps).punches[id].row, device, Run(s, steps).max) == Failed
    requires !Run(s, steps).punches[id].hist.retried
    ensures Run(s, steps).punches[id].row.nextAttemptAt == PARKED
  {
    RunKeepsMaxAtCommit(s, steps);
    InitSafe(s);
    RunSafe(s, steps);
    assert PunchSafe(Run(s, steps), id);
    ParkedExactlyWhenExhausted(s, steps, id);
  }

  /**
   Of a row tried, undelivered, not held, not retried since and under a live webhook, the badge tells
   whether it is parked if and only if the maximum of now judges its attempts as that of its last
   commit did.
   */
  lemma BadgeTellsParkingExactly(s: State, steps: seq<Step>, id: RowId, device: Device)
    requires Init(s) && Valid(s, steps) && BeforeParking(Run(s, steps))
    requires id in Run(s, steps).punches && HasActiveWebhook(device)
    requires var p := Run(s, steps).punches[id]; !p.row.delivered && p.row.attempts > 0 && !p.hist.retried
    ensures var t := Run(s, steps);
            var p := t.punches[id];
            && ComputeStatus(p.row, device, t.max) in {Failed, Pending}
            && ((ComputeStatus(p.row, device, t.max) == Failed <==> p.row.nextAttemptAt == PARKED) <==>
                (p.row.attempts >= t.max <==> p.row.attempts >= p.hist.maxAtCommit))
  {
    ParkedExactlyWhenExhausted(s, steps, id);
    InitSafe(s);
    RunSafe(s, steps);
    assert PunchSafe(Run(s, steps), id);
  }

  /**
   Without `NeverLowered` the badge can lie: one failed attempt under a maximum of 5, then the
   maximum drops to 1.  The row reads failed, was never retried, and is due again in 30 s.
   */
  lemma LoweringTheMaximumBreaksTheBadge(w: WorkerId, d: DeviceId, id: RowId) returns (s: State, steps: seq<Step>)
    ensures Init(s) && Valid(s, steps) && BeforeParking(Run(s, steps))
    ensures id in Run(s, steps).punches && d in Run(s, steps).devices
    ensures var p := Run(s, steps).punches[id];
            && HasActiveWebhook(Run(s, steps).devices[d])
            && ComputeStatus(p.row, Run(s, steps).devices[d], Run(s, steps).max) == Failed
            && !p.hist.retried
            && p.row.nextAttemptAt == Run(s, steps).now + 30_000
  {
    var failure := Commit(w, Failure("HTTP 500"));
    s := State(0, 5, map[d := Device(true, Some("u"))], map[], map[w := Idle], {});
    var sent := SendsOne(s, w, d, id);
    var t := Run(s, sent);
    var t1 := Next(t, failure);
    var r1 := RunCons(t1, SetMax(1), []);
    var rest := RunCons(t, failure, r1);
    RunConcat(s, sent, rest);
    steps := sent + rest;
  }
}
