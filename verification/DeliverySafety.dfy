/**
 What every run of the delivery queue keeps, with any number of workers and no
 assumption about leases: overlapping claims, crashes, retries and edits included.
 */
module DeliverySafety {
  import opened Options
  import opened DeliveryQueue

  /** The row always mirrors its log. */
  ghost predicate PunchMirrorsLog(p: Punch) {
    && p.row.attempts == (if p.log == [] then 0 else p.log[|p.log| - 1].attempt)
    && p.row.lastError == (if p.log == [] then None else p.log[|p.log| - 1].error)
    && (p.row.delivered <==> exists k :: 0 <= k < |p.log| && p.log[k].delivered)
    && (p.row.deliveredAt.Some? <==> p.row.delivered)
    && forall k :: 0 <= k < |p.log| ==> 1 <= p.log[k].attempt <= k + 1
  }

  ghost predicate PunchSafe(s: State, id: RowId)
    requires id in s.punches
  {
    && id in s.used
    && s.punches[id].row.device in s.devices
    && PunchMirrorsLog(s.punches[id])
    && (s.punches[id].row.held ==> s.punches[id].log == [])
  }

  /** What a worker carries: rows that are off hold, and a count no newer than the log. */
  ghost predicate WorkerSafe(s: State, w: WorkerId)
    requires w in s.workers
  {
    var pc := s.workers[w];
    && (pc.Idle? || pc.max >= 1)
    && (forall id :: Holds(pc, id) ==> id in s.used && (id in s.punches ==> !s.punches[id].row.held))
    && (pc.InFlight? && pc.id in s.punches ==> pc.readAttempts <= |s.punches[pc.id].log|)
  }

  ghost predicate Safe(s: State) {
    && s.max >= 1
    && (forall id :: id in s.punches ==> PunchSafe(s, id))
    && (forall w :: w in s.workers ==> WorkerSafe(s, w))
  }

  lemma CommitMirrors(p: Punch, n: nat, outcome: Outcome, max: nat, now: int)
    requires PunchMirrorsLog(p) && 1 <= n <= |p.log| + 1
    ensures PunchMirrorsLog(CommitPunch(p, n, outcome, max, now))
  {
    var q := CommitPunch(p, n, outcome, max, now);
    assert q.log[|p.log|] == CommitEntry(n, outcome);
    if p.row.delivered {
      var k :| 0 <= k < |p.log| && p.log[k].delivered;
      assert q.log[k].delivered;
    }
  }

  lemma CommitKeepsPunch(s: State, w: WorkerId, outcome: Outcome, id: RowId)
    requires Enabled(s, Commit(w, outcome)) && id in s.punches && PunchSafe(s, id) && WorkerSafe(s, w)
    ensures PunchSafe(Next(s, Commit(w, outcome)), id)
  {
    var pc := s.workers[w];
    if id == pc.id {
      assert Holds(pc, id);
      CommitMirrors(s.punches[id], pc.readAttempts + 1, outcome, pc.max, s.now);
    }
  }

  /** A step that commits nothing leaves the log alone, and holds only new rows. */
  lemma OtherStepKeepsPunch(s: State, step: Step, id: RowId)
    requires Enabled(s, step) && !step.Commit? && id in Next(s, step).punches
    requires id in s.punches ==> PunchSafe(s, id)
    ensures PunchSafe(Next(s, step), id)
  {
    var t := Next(s, step);
    assert id in s.punches ==> t.punches[id].log == s.punches[id].log;
  }

  lemma StepKeepsPunch(s: State, step: Step, id: RowId)
    requires Enabled(s, step) && id in Next(s, step).punches
    requires id in s.punches ==> PunchSafe(s, id)
    requires step.Commit? ==> WorkerSafe(s, step.w)
    ensures PunchSafe(Next(s, step), id)
  {
    match step
    case Commit(w, outcome) => CommitKeepsPunch(s, w, outcome, id);
    case _ => OtherStepKeepsPunch(s, step, id);
  }

  /** Steps of other processes, and of the world, leave what this worker carries in order. */
  lemma StepKeepsWorker(s: State, step: Step, w: WorkerId)
    requires Enabled(s, step) && w in Next(s, step).workers && WorkerSafe(s, w) && s.max >= 1
    requires step.Claim? ==> forall id :: id in step.ids ==> PunchSafe(s, id)
    requires step.Read? ==> forall id :: id in s.punches ==> PunchSafe(s, id)
    ensures WorkerSafe(Next(s, step), w)
  {
    match step
    case Read(v) => ReadKeepsWorker(s, v, w);
    case Commit(v, outcome) => CommitKeepsWorker(s, v, outcome, w);
    case Ingest(_, _) =>
    case Poll(_) =>
    case Claim(_, _) =>
    case Skip(_) =>
    case Crash(_) =>
    case Retry(_) =>
    case SetWebhook(_, _) =>
    case SetMax(_) =>
    case Delete(_) =>
    case Advance(_) =>
  }

  lemma ReadKeepsWorker(s: State, v: WorkerId, w: WorkerId)
    requires Enabled(s, Read(v)) && w in s.workers && WorkerSafe(s, w)
    requires forall id :: id in s.punches ==> PunchSafe(s, id)
    ensures WorkerSafe(Next(s, Read(v)), w)
  {
    var head := s.workers[v].queue[0];
    assert v == w ==> Holds(s.workers[w], head);
    assert head in s.punches ==> PunchSafe(s, head);
  }

  lemma CommitKeepsWorker(s: State, v: WorkerId, outcome: Outcome, w: WorkerId)
    requires Enabled(s, Commit(v, outcome)) && w in s.workers && WorkerSafe(s, w)
    ensures WorkerSafe(Next(s, Commit(v, outcome)), w)
  {
  }

  lemma StepSafe(s: State, step: Step)
    requires Safe(s) && Enabled(s, step)
    ensures Safe(Next(s, step))
  {
    var t := Next(s, step);
    forall id | id in t.punches ensures PunchSafe(t, id) { StepKeepsPunch(s, step, id); }
    forall w | w in t.workers ensures WorkerSafe(t, w) { StepKeepsWorker(s, step, w); }
  }

  lemma {:induction false} RunSafe(s: State, steps: seq<Step>)
    requires Safe(s) && Valid(s, steps)
    ensures Safe(Run(s, steps))
    decreases |steps|
  {
    if steps != [] {
      StepSafe(s, steps[0]);
      RunSafe(Next(s, steps[0]), steps[1..]);
    }
  }

  lemma {:induction false} UsedGrows(s: State, steps: seq<Step>, id: RowId)
    requires Valid(s, steps) && id in s.used
    ensures id in Run(s, steps).used
    ensures id !in s.punches ==> id !in Run(s, steps).punches
    decreases |steps|
  {
    if steps != [] {
      UsedGrows(Next(s, steps[0]), steps[1..], id);
    }
  }

  /** Once delivered, always delivered, whatever stale workers still commit. */
  lemma {:induction false} DeliveredIsAbsorbing(s: State, steps: seq<Step>, id: RowId)
    requires Safe(s) && Valid(s, steps)
    requires id in s.punches && s.punches[id].row.delivered
    requires id in Run(s, steps).punches
    ensures Run(s, steps).punches[id].row.delivered
    decreases |steps|
  {
    if steps != [] {
      var t := Next(s, steps[0]);
      StepSafe(s, steps[0]);
      if id !in t.punches {
        assert PunchSafe(s, id);
        assert id in t.used;
        UsedGrows(t, steps[1..], id);
      } else {
        DeliveredIsAbsorbing(t, steps[1..], id);
      }
    }
  }

  lemma InitSafe(s: State)
    requires Init(s)
    ensures Safe(s)
  {
  }

  /** The delivery log of every reachable state, with no hypothesis on the run. */
  lemma LogFactsUnconditionally(s: State, steps: seq<Step>, id: RowId)
    requires Init(s) && Valid(s, steps) && id in Run(s, steps).punches
    ensures var p := Run(s, steps).punches[id];
            && p.row.attempts <= |p.log|
            && (p.row.delivered <==> exists k :: 0 <= k < |p.log| && p.log[k].delivered)
            && (p.row.attempts == 0 <==> p.log == [])
            && (p.log != [] ==> p.row.lastError == p.log[|p.log| - 1].error)
  {
    InitSafe(s);
    RunSafe(s, steps);
    assert PunchSafe(Run(s, steps), id);
  }

  /** No claim later in the run takes a delivered row. */
  lemma DeliveredIsNeverClaimed(s: State, steps: seq<Step>, i: nat, j: nat, id: RowId)
    requires Init(s) && Valid(s, steps) && i <= j < |steps|
    requires id in After(s, steps, i).punches && After(s, steps, i).punches[id].row.delivered
    requires steps[j].Claim?
    ensures id !in steps[j].ids
  {
    InitSafe(s);
    RunSplit(s, steps, i);
    RunSafe(s, steps[..i]);
    AfterStep(s, steps, j);
    AfterBetween(s, steps, i, j);
    if id in After(s, steps, j).punches {
      DeliveredIsAbsorbing(After(s, steps, i), steps[i..j], id);
    }
  }

  ghost predicate Retries(step: Step, id: RowId) {
    step.Retry? && id in step.targets
  }

  lemma {:induction false} HoldLastsUntilRetry(s: State, steps: seq<Step>, id: RowId)
    requires Valid(s, steps) && id in s.punches && s.punches[id].row.held && id in s.used
    requires forall k :: 0 <= k < |steps| ==> !Retries(steps[k], id)
    ensures id in Run(s, steps).punches ==> Run(s, steps).punches[id].row.held
    decreases |steps|
  {
    if steps != [] {
      assert !Retries(steps[0], id);
      var t := Next(s, steps[0]);
      if id in t.punches {
        assert t.punches[id].row.held;
        HoldLastsUntilRetry(t, steps[1..], id);
      } else {
        UsedGrows(t, steps[1..], id);
      }
    }
  }

  /** A row ingested without a live webhook is not sent before a retry clears the hold. */
  lemma HeldIsNeverSent(s: State, steps: seq<Step>, i: nat, j: nat, id: RowId)
    requires Init(s) && Valid(s, steps) && i < j < |steps|
    requires steps[i].Ingest? && steps[i].newId == id
    requires steps[i].device in After(s, steps, i).devices
    requires !HasActiveWebhook(After(s, steps, i).devices[steps[i].device])
    requires forall k :: i < k < j ==> !Retries(steps[k], id)
    ensures !Sends(After(s, steps, j), steps[j], id)
    ensures id in After(s, steps, j).punches ==> After(s, steps, j).punches[id].log == []
  {
    InitSafe(s);
    AfterStep(s, steps, i);
    AfterBetween(s, steps, i + 1, j);
    HoldLastsUntilRetry(After(s, steps, i + 1), steps[i + 1..j], id);
    RunSplit(s, steps, j);
    RunSafe(s, steps[..j]);
    var before := After(s, steps, j);
    if id in before.punches {
      assert PunchSafe(before, id);
      AfterStep(s, steps, j);
      if steps[j].Read? {
        assert WorkerSafe(before, steps[j].w);
      }
    }
  }
}
