/**
 The bounds of one worker, for any number of workers that keep to their leases.
 */
module DeliveryFleet {
  import opened DeliveryQueue
  import opened DeliverySafety
  import opened DeliveryLeases
  import opened DeliveryBounds
  import opened DeliveryRetries

  /** Some worker holds the row under a lease that has not run out. */
  ghost predicate LiveHeld(s: State, id: RowId) {
    exists w :: LiveHold(s, w, id)
  }

  ghost predicate WithinFleetCredit(s: State, id: RowId, credit: nat) {
    id in s.punches ==> s.punches[id].row.attempts + Owed(s.punches[id], LiveHeld(s, id)) <= credit
  }

  /** A live hold is an old one, or comes of a claim. */
  lemma HeldBefore(s: State, step: Step, id: RowId)
    requires Enabled(s, step) && LiveHeld(Next(s, step), id)
    ensures LiveHeld(s, id) || (step.Claim? && id in step.ids)
  {
    var w :| LiveHold(Next(s, step), w, id);
    if !(step.Claim? && step.w == w) {
      HoldsBefore(s, step, w, id);
    }
  }

  /** After its commit nobody holds the row. */
  lemma CommitReleases(s: State, v: WorkerId, outcome: Outcome, id: RowId)
    requires Leased(s) && Enabled(s, Commit(v, outcome)) && KeepsLeases(s, Commit(v, outcome)) && s.workers[v].id == id
    ensures LiveHold(s, v, id) && !LiveHeld(Next(s, Commit(v, outcome)), id)
  {
    var t := Next(s, Commit(v, outcome));
    assert LiveHold(s, v, id) && QueueDistinct(s.workers[v]);
    if LiveHeld(t, id) {
      var w :| LiveHold(t, w, id);
      HoldsBefore(s, Commit(v, outcome), w, id);
    }
  }

  lemma CommitWithinFleetCredit(s: State, v: WorkerId, outcome: Outcome, id: RowId, ceiling: nat, credit: nat)
    requires Leased(s) && Enabled(s, Commit(v, outcome)) && KeepsLeases(s, Commit(v, outcome)) && s.workers[v].id == id
    requires s.workers[v].max <= ceiling <= credit && WithinFleetCredit(s, id, credit)
    ensures WithinFleetCredit(Next(s, Commit(v, outcome)), id, credit)
  {
    CommitReleases(s, v, outcome, id);
    assert LeaseSafe(s, v, id) && LiveHeld(s, id);
  }

  lemma StepWithinFleetCredit(s: State, step: Step, id: RowId, ceiling: nat, credit: nat)
    requires Leased(s) && Enabled(s, step) && KeepsLeases(s, step) && s.now < PARKED
    requires NeverAbove(s, [step], ceiling) && ceiling <= credit && id in s.used
    requires WithinFleetCredit(s, id, credit)
    ensures WithinFleetCredit(Next(s, step), id, credit + RetriesOf([step], id))
  {
    if step.Commit? && s.workers[step.w].id == id {
      CommitWithinFleetCredit(s, step.w, step.outcome, id, ceiling, credit);
    } else if LiveHeld(Next(s, step), id) {
      HeldBefore(s, step, id);
    }
  }

  lemma {:induction false} RunWithinFleetCredit(s: State, steps: seq<Step>, id: RowId, ceiling: nat, credit: nat)
    requires Leased(s) && Valid(s, steps) && RunKeepsLeases(s, steps) && Run(s, steps).now < PARKED
    requires NeverAbove(s, steps, ceiling) && ceiling <= credit && id in s.used
    requires WithinFleetCredit(s, id, credit)
    ensures WithinFleetCredit(Run(s, steps), id, credit + RetriesOf(steps, id))
    decreases |steps|
  {
    if steps != [] {
      ClockRuns(s, steps);
      StepLeased(s, steps[0]);
      StepNeverAbove(s, steps, ceiling);
      StepWithinFleetCredit(s, steps[0], id, ceiling, credit);
      RetriesOfCons(steps, id);
      RunWithinFleetCredit(Next(s, steps[0]), steps[1..], id, ceiling, credit + RetriesOf([steps[0]], id));
    }
  }

  lemma {:induction false} FleetAttemptsBoundedFrom(s: State, steps: seq<Step>, id: RowId, ceiling: nat)
    requires Leased(s) && Valid(s, steps) && RunKeepsLeases(s, steps) && Run(s, steps).now < PARKED
    requires NeverAbove(s, steps, ceiling) && ceiling >= 1 && id !in s.used
    ensures id in Run(s, steps).punches ==>
              Run(s, steps).punches[id].row.attempts <= ceiling + RetriesOf(steps, id)
    decreases |steps|
  {
    if steps != [] {
      var t := Next(s, steps[0]);
      StepLeased(s, steps[0]);
      StepNeverAbove(s, steps, ceiling);
      if steps[0].Ingest? && steps[0].newId == id {
        RunWithinFleetCredit(t, steps[1..], id, ceiling, ceiling);
      } else {
        FleetAttemptsBoundedFrom(t, steps[1..], id, ceiling);
      }
    }
  }

  /**
   Any number of workers that keep to their leases: a row is attempted at most as often as the
   largest maximum ever in force, plus once for each manual retry of it.
   */
  lemma FleetAttemptsAreBounded(s: State, steps: seq<Step>, id: RowId)
    requires Init(s) && Valid(s, steps) && RunKeepsLeases(s, steps) && Run(s, steps).now < PARKED
    requires id in Run(s, steps).punches
    ensures Run(s, steps).punches[id].row.attempts <= LargestMax(s.max, steps) + RetriesOf(steps, id)
  {
    var ceiling := LargestMax(s.max, steps);
    forall k | 0 <= k < |steps| && steps[k].SetMax? ensures steps[k].newMax <= ceiling {
      LargestMaxCovers(s.max, steps, k);
    }
    FleetAttemptsBoundedFrom(s, steps, id, ceiling);
  }

  lemma FleetLeavesParked(s: State, step: Step, id: RowId)
    requires Leased(s) && Enabled(s, step) && KeepsLeases(s, step) && s.now < PARKED && id in s.punches
    requires s.punches[id].row.nextAttemptAt >= PARKED && !LiveHeld(s, id) && !Retries(step, id)
    ensures !LiveHeld(Next(s, step), id)
    ensures id in Next(s, step).punches ==> Next(s, step).punches[id] == s.punches[id]
  {
    if step.Commit? && s.workers[step.w].id == id {
      CommitReleases(s, step.w, step.outcome, id);
      assert false;
    }
    if LiveHeld(Next(s, step), id) {
      HeldBefore(s, step, id);
    }
  }

  /** And retries of a parked row buy one attempt each, while the maximum is at most its attempts plus one. */
  lemma {:induction false} FleetRetriesBuyOneAttemptEach(s: State, steps: seq<Step>, id: RowId)
    requires Leased(s) && Valid(s, steps) && RunKeepsLeases(s, steps) && Run(s, steps).now < PARKED
    requires id in s.punches && id in Run(s, steps).punches
    requires s.punches[id].row.nextAttemptAt >= PARKED && !LiveHeld(s, id)
    requires NeverAbove(s, steps, s.punches[id].row.attempts + 1)
    ensures Run(s, steps).punches[id].row.attempts <= s.punches[id].row.attempts + RetriesOf(steps, id)
    ensures var p := Run(s, steps).punches[id];
            p.row.attempts == s.punches[id].row.attempts + RetriesOf(steps, id) ==> Closed(p)
    decreases |steps|
  {
    if steps != [] {
      var n, t := s.punches[id].row.attempts, Next(s, steps[0]);
      ClockRuns(s, steps);
      StepLeased(s, steps[0]);
      StepNeverAbove(s, steps, n + 1);
      RetriesOfCons(steps, id);
      if Retries(steps[0], id) {
        RunWithinFleetCredit(t, steps[1..], id, n + 1, n + 1);
      } else if id in t.punches {
        FleetLeavesParked(s, steps[0], id);
        FleetRetriesBuyOneAttemptEach(t, steps[1..], id);
      } else {
        UsedGrows(t, steps[1..], id);
      }
    }
  }
}
