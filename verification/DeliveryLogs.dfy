/**
 The delivery log of one row: exact if and only if every commit finds the row as it was read.
 */
module DeliveryLogs {
  import opened DeliveryQueue
  import opened DeliverySafety

  /** Numbered 1..attempts, with at most one delivered entry, which is the last. */
  ghost predicate ExactLog(p: Punch) {
    && |p.log| == p.row.attempts
    && (forall k :: 0 <= k < |p.log| ==> p.log[k].attempt == k + 1)
    && (forall k :: 0 <= k < |p.log| - 1 ==> !p.log[k].delivered)
    && (p.row.delivered <==> p.log != [] && p.log[|p.log| - 1].delivered)
  }

  /** A commit finds the row undelivered, with the count its worker read: nothing in the update asks for it. */
  predicate AsRead(s: State, step: Step, id: RowId) {
    step.Commit? && step.w in s.workers && s.workers[step.w].InFlight? && s.workers[step.w].id == id && id in s.punches ==>
      !s.punches[id].row.delivered && s.workers[step.w].readAttempts == s.punches[id].row.attempts
  }

  predicate AlwaysAsRead(s: State, steps: seq<Step>, id: RowId)
    requires Valid(s, steps)
    decreases |steps|
  {
    steps == [] || (AsRead(s, steps[0], id) && AlwaysAsRead(Next(s, steps[0]), steps[1..], id))
  }

  lemma CommitExactly(p: Punch, n: nat, outcome: Outcome, max: nat, now: int)
    requires ExactLog(p) && n >= 1
    ensures ExactLog(CommitPunch(p, n, outcome, max, now)) <==> n == p.row.attempts + 1 && !p.row.delivered
  {
    var q := CommitPunch(p, n, outcome, max, now);
    assert forall k :: 0 <= k < |p.log| ==> q.log[k] == p.log[k];
    assert q.log[|p.log|] == CommitEntry(n, outcome);
    if p.row.delivered {
      assert q.log[|p.log| - 1].delivered;
    }
  }

  /** A wrong number, or an entry after the delivered one: no later entry repairs either. */
  ghost predicate Spoiled(p: Punch) {
    || (exists k :: 0 <= k < |p.log| && p.log[k].attempt != k + 1)
    || (exists k :: 0 <= k < |p.log| - 1 && p.log[k].delivered)
  }

  lemma CommitSpoils(p: Punch, n: nat, outcome: Outcome, max: nat, now: int)
    requires n >= 1 && (Spoiled(p) || (ExactLog(p) && (n != p.row.attempts + 1 || p.row.delivered)))
    ensures Spoiled(CommitPunch(p, n, outcome, max, now))
  {
    var q := CommitPunch(p, n, outcome, max, now);
    assert q.log[|p.log|] == CommitEntry(n, outcome);
    if k :| 0 <= k < |p.log| && p.log[k].attempt != k + 1 {
      assert q.log[k].attempt != k + 1;
    } else if k :| 0 <= k < |p.log| && p.log[k].delivered {
      assert q.log[k].delivered;
    }
  }

  lemma StepKeepsSpoiled(s: State, step: Step, id: RowId)
    requires Enabled(s, step) && id in s.punches && id in s.used && id in Next(s, step).punches
    requires Spoiled(s.punches[id])
    ensures Spoiled(Next(s, step).punches[id])
  {
    if step.Commit? && s.workers[step.w].id == id {
      var pc := s.workers[step.w];
      CommitSpoils(s.punches[id], pc.readAttempts + 1, step.outcome, pc.max, s.now);
    } else {
      assert Next(s, step).punches[id].log == s.punches[id].log;
    }
  }

  lemma {:induction false} SpoiledForever(s: State, steps: seq<Step>, id: RowId)
    requires Valid(s, steps) && id in s.punches && id in s.used && id in Run(s, steps).punches
    requires Spoiled(s.punches[id])
    ensures Spoiled(Run(s, steps).punches[id])
    decreases |steps|
  {
    if steps != [] {
      var t := Next(s, steps[0]);
      if id in t.punches {
        StepKeepsSpoiled(s, steps[0], id);
        SpoiledForever(t, steps[1..], id);
      } else {
        UsedGrows(t, steps[1..], id);
      }
    }
  }

  /** One step from an exact log. */
  lemma StepExactly(s: State, step: Step, id: RowId)
    requires Enabled(s, step) && id in Next(s, step).punches && s.punches.Keys <= s.used
    requires id in s.punches ==> ExactLog(s.punches[id])
    ensures AsRead(s, step, id) ==> ExactLog(Next(s, step).punches[id])
    ensures !AsRead(s, step, id) ==> Spoiled(Next(s, step).punches[id])
  {
    if step.Commit? && s.workers[step.w].id == id {
      var pc := s.workers[step.w];
      CommitExactly(s.punches[id], pc.readAttempts + 1, step.outcome, pc.max, s.now);
      if !AsRead(s, step, id) {
        CommitSpoils(s.punches[id], pc.readAttempts + 1, step.outcome, pc.max, s.now);
      }
    }
  }

  /**
   Any number of workers, any run: where a row's log starts exact (or the row is yet to come), it
   ends exact if and only if every commit on the row found it as its worker had read it.
   */
  lemma {:induction false} ExactIffAsRead(s: State, steps: seq<Step>, id: RowId)
    requires Valid(s, steps) && s.punches.Keys <= s.used && id in Run(s, steps).punches
    requires id in s.punches ==> ExactLog(s.punches[id])
    ensures ExactLog(Run(s, steps).punches[id]) <==> AlwaysAsRead(s, steps, id)
    decreases |steps|
  {
    if steps != [] {
      var t := Next(s, steps[0]);
      assert t.punches.Keys <= t.used;
      if id in t.punches {
        StepExactly(s, steps[0], id);
        if AsRead(s, steps[0], id) {
          ExactIffAsRead(t, steps[1..], id);
        } else {
          SpoiledForever(t, steps[1..], id);
        }
      } else {
        if id in s.used {
          UsedGrows(t, steps[1..], id);
        }
        ExactIffAsRead(t, steps[1..], id);
      }
    }
  }

  /** From a fresh database: the exact condition for an exact log. */
  lemma LogIsExactIffCommitsFindTheRowAsRead(s: State, steps: seq<Step>, id: RowId)
    requires Init(s) && Valid(s, steps) && id in Run(s, steps).punches
    ensures ExactLog(Run(s, steps).punches[id]) <==> AlwaysAsRead(s, steps, id)
  {
    ExactIffAsRead(s, steps, id);
  }
}
