/**
 Leases: when commits respect them, or when there is one worker, every commit finds its row as
 it was read, and so the delivery log is exact.
 */
module DeliveryLeases {
  import opened Options
  import opened DeliveryQueue
  import opened Selection
  import opened DeliveryLogs

  /** The worker holds the row and its lease has not run out. */
  predicate LiveHold(s: State, w: WorkerId, id: RowId) {
    w in s.workers && Holds(s.workers[w], id) && s.now < s.workers[w].lease
  }

  /** What a worker knows about a row it holds is still true. */
  ghost predicate UpToDate(pc: Pc, id: RowId, p: Punch) {
    && !p.row.delivered
    && (pc.InFlight? && pc.id == id ==> pc.readAttempts == p.row.attempts)
  }

  ghost predicate QueueDistinct(pc: Pc) {
    match pc
    case Working(_, queue, _) => Distinct(queue)
    case InFlight(_, id, _, queue, _) => Distinct(queue) && id !in queue
    case _ => true
  }

  /** A commit lands strictly inside its own lease; a retry does not touch a leased row. */
  ghost predicate KeepsLeases(s: State, step: Step) {
    && (step.Commit? && step.w in s.workers && s.workers[step.w].InFlight? ==>
          s.now < s.workers[step.w].lease)
    && (step.Retry? ==> forall w, id :: id in step.targets ==> !LiveHold(s, w, id))
  }

  ghost predicate RunKeepsLeases(s: State, steps: seq<Step>)
    requires Valid(s, steps)
    decreases |steps|
  {
    steps == [] || (KeepsLeases(s, steps[0]) && RunKeepsLeases(Next(s, steps[0]), steps[1..]))
  }

  // ---- Any number of workers, leases respected ----

  ghost predicate LeaseSafe(s: State, w: WorkerId, id: RowId) {
    LiveHold(s, w, id) && id in s.punches ==>
      && s.punches[id].row.nextAttemptAt == s.workers[w].lease
      && UpToDate(s.workers[w], id, s.punches[id])
  }

  ghost predicate Leased(s: State) {
    && s.punches.Keys <= s.used
    && (forall w, id :: w in s.workers && Holds(s.workers[w], id) ==> id in s.used)
    && (forall w :: w in s.workers ==> QueueDistinct(s.workers[w]))
    && (forall w, id :: LeaseSafe(s, w, id))
    && (forall v, w, id :: LiveHold(s, v, id) && LiveHold(s, w, id) ==> v == w)
  }

  lemma HoldsBefore(s: State, step: Step, w: WorkerId, id: RowId)
    requires Enabled(s, step) && LiveHold(Next(s, step), w, id)
    requires !(step.Claim? && step.w == w)
    ensures LiveHold(s, w, id) && Next(s, step).workers[w].lease == s.workers[w].lease
  {
  }

  lemma StepLeaseSafe(s: State, step: Step, w: WorkerId, id: RowId)
    requires Leased(s) && Enabled(s, step) && KeepsLeases(s, step)
    ensures LeaseSafe(Next(s, step), w, id)
  {
    var t := Next(s, step);
    if LiveHold(t, w, id) && id in t.punches && !(step.Claim? && step.w == w) {
      HoldsBefore(s, step, w, id);
      assert LeaseSafe(s, w, id);
      match step
      case Commit(v, _) =>
        assert QueueDistinct(s.workers[v]);
        assert s.workers[v].id == id ==> LiveHold(s, v, id);
      case Ingest(_, _) =>
      case Poll(_) =>
      case Claim(_, _) =>
      case Read(_) =>
      case Skip(_) =>
      case Crash(_) =>
      case Retry(_) =>
      case SetWebhook(_, _) =>
      case SetMax(_) =>
      case Delete(_) =>
      case Advance(_) =>
    }
  }

  lemma StepKeepsQueuesDistinct(s: State, step: Step, w: WorkerId)
    requires Enabled(s, step) && w in Next(s, step).workers && QueueDistinct(s.workers[w])
    ensures QueueDistinct(Next(s, step).workers[w])
  {
  }

  lemma StepKeepsHoldsUsed(s: State, step: Step, w: WorkerId, id: RowId)
    requires Enabled(s, step) && s.punches.Keys <= s.used
    requires w in s.workers && Holds(s.workers[w], id) ==> id in s.used
    requires w in Next(s, step).workers && Holds(Next(s, step).workers[w], id)
    ensures id in Next(s, step).used
  {
  }

  /** No second worker gets a live lease on a row. */
  lemma StepKeepsLeasesApart(s: State, step: Step, v: WorkerId, w: WorkerId, id: RowId)
    requires Leased(s) && Enabled(s, step)
    requires LiveHold(Next(s, step), v, id) && LiveHold(Next(s, step), w, id)
    ensures v == w
  {
    assert LeaseSafe(s, v, id) && LeaseSafe(s, w, id);
    if !(step.Claim? && step.w == v) {
      HoldsBefore(s, step, v, id);
    }
    if !(step.Claim? && step.w == w) {
      HoldsBefore(s, step, w, id);
    }
  }

  lemma StepLeased(s: State, step: Step)
    requires Leased(s) && Enabled(s, step) && KeepsLeases(s, step)
    ensures Leased(Next(s, step))
  {
    var t := Next(s, step);
    forall w, id ensures LeaseSafe(t, w, id) { StepLeaseSafe(s, step, w, id); }
    forall w | w in t.workers ensures QueueDistinct(t.workers[w]) { StepKeepsQueuesDistinct(s, step, w); }
    forall w, id | w in t.workers && Holds(t.workers[w], id) ensures id in t.used {
      StepKeepsHoldsUsed(s, step, w, id);
    }
    forall v, w, id | LiveHold(t, v, id) && LiveHold(t, w, id) ensures v == w {
      StepKeepsLeasesApart(s, step, v, w, id);
    }
  }

  lemma LeasedCommitsAsRead(s: State, step: Step, id: RowId)
    requires Leased(s) && Enabled(s, step) && KeepsLeases(s, step)
    ensures AsRead(s, step, id)
  {
    if step.Commit? && s.workers[step.w].id == id {
      assert LiveHold(s, step.w, id) && LeaseSafe(s, step.w, id);
    }
  }

  lemma {:induction false} RunLeased(s: State, steps: seq<Step>)
    requires Leased(s) && Valid(s, steps) && RunKeepsLeases(s, steps)
    ensures Leased(Run(s, steps))
    ensures forall id :: AlwaysAsRead(s, steps, id)
    decreases |steps|
  {
    if steps != [] {
      StepLeased(s, steps[0]);
      RunLeased(Next(s, steps[0]), steps[1..]);
      forall id ensures AsRead(s, steps[0], id) { LeasedCommitsAsRead(s, steps[0], id); }
    }
  }

  /**
   N workers, crashes, any interleaving: if commits and retries keep to the leases, no row
   is ever under two live leases and every delivery log is exact.
   */
  lemma LeasesGiveExactLogs(s: State, steps: seq<Step>)
    requires Init(s) && Valid(s, steps) && RunKeepsLeases(s, steps)
    ensures forall id :: id in Run(s, steps).punches ==> ExactLog(Run(s, steps).punches[id])
    ensures forall v, w, id :: LiveHold(Run(s, steps), v, id) && LiveHold(Run(s, steps), w, id) ==> v == w
  {
    RunLeased(s, steps);
    forall id | id in Run(s, steps).punches ensures ExactLog(Run(s, steps).punches[id]) {
      ExactIffAsRead(s, steps, id);
    }
  }

  // ---- One worker, no hypothesis on leases ----

  ghost predicate Solo(s: State, w: WorkerId) {
    && s.workers.Keys == {w}
    && s.punches.Keys <= s.used
    && QueueDistinct(s.workers[w])
    && (forall id :: Holds(s.workers[w], id) ==>
          id in s.used && (id in s.punches ==> UpToDate(s.workers[w], id, s.punches[id])))
  }

  lemma StepKeepsSoloHold(s: State, step: Step, w: WorkerId, id: RowId)
    requires s.workers.Keys == {w} && Enabled(s, step) && QueueDistinct(s.workers[w])
    requires s.punches.Keys <= s.used
    requires Holds(s.workers[w], id) ==>
               id in s.used && (id in s.punches ==> UpToDate(s.workers[w], id, s.punches[id]))
    requires Holds(Next(s, step).workers[w], id)
    ensures id in Next(s, step).used
    ensures id in Next(s, step).punches ==> UpToDate(Next(s, step).workers[w], id, Next(s, step).punches[id])
  {
  }

  lemma StepSolo(s: State, step: Step, w: WorkerId)
    requires Solo(s, w) && Enabled(s, step)
    ensures Solo(Next(s, step), w)
  {
    var t := Next(s, step);
    assert t.workers.Keys == {w};
    StepKeepsQueuesDistinct(s, step, w);
    forall id | Holds(t.workers[w], id)
      ensures id in t.used && (id in t.punches ==> UpToDate(t.workers[w], id, t.punches[id]))
    {
      StepKeepsSoloHold(s, step, w, id);
    }
  }

  lemma {:induction false} RunSolo(s: State, steps: seq<Step>, w: WorkerId)
    requires Solo(s, w) && Valid(s, steps)
    ensures Solo(Run(s, steps), w)
    ensures forall id :: AlwaysAsRead(s, steps, id)
    decreases |steps|
  {
    if steps != [] {
      StepSolo(s, steps[0], w);
      RunSolo(Next(s, steps[0]), steps[1..], w);
      forall id ensures AsRead(s, steps[0], id) { SoloCommitsAsRead(s, steps[0], w, id); }
    }
  }

  lemma SoloCommitsAsRead(s: State, step: Step, w: WorkerId, id: RowId)
    requires Solo(s, w) && Enabled(s, step)
    ensures AsRead(s, step, id)
  {
    if step.Commit? && s.workers[step.w].id == id {
      assert step.w == w && Holds(s.workers[w], id);
    }
  }

  /** One worker: every delivery log is exact, even when leases run out or retries cut them short. */
  lemma OneWorkerGivesExactLogs(s: State, steps: seq<Step>, w: WorkerId)
    requires Init(s) && s.workers.Keys == {w} && Valid(s, steps)
    ensures forall id :: id in Run(s, steps).punches ==> ExactLog(Run(s, steps).punches[id])
  {
    RunSolo(s, steps, w);
    forall id | id in Run(s, steps).punches ensures ExactLog(Run(s, steps).punches[id]) {
      ExactIffAsRead(s, steps, id);
    }
  }

  /** From a fresh database, one punch is ingested and claimed by `w`. */
  lemma ClaimsOne(s: State, w: WorkerId, d: DeviceId, id: RowId) returns (steps: seq<Step>)
    requires Init(s) && w in s.workers && d in s.devices
    requires s.devices[d] == Device(true, Some("u"))
    ensures Valid(s, steps)
    ensures Run(s, steps) ==
              s.(punches := map[id := LeasePunch(NewPunch(d, true, s.now), s.now + LEASE_MS)],
                 used := {id},
                 workers := s.workers[w := Working(s.max, [id], s.now + LEASE_MS)])
  {
    var s1 := Next(s, Ingest(id, d));
    assert s1.punches == map[id := NewPunch(d, true, s.now)];
    var s2 := Next(s1, Poll(w));
    var s3 := Next(s2, Claim(w, [id]));
    assert s3.punches == map[id := LeasePunch(NewPunch(d, true, s.now), s.now + LEASE_MS)];
    var r2 := RunCons(s2, Claim(w, [id]), []);
    var r1 := RunCons(s1, Poll(w), r2);
    steps := RunCons(s, Ingest(id, d), r1);
    assert s3.workers == s.workers[w := Working(s.max, [id], s.now + LEASE_MS)];
  }

  /** It goes on to send it. */
  lemma SendsOne(s: State, w: WorkerId, d: DeviceId, id: RowId) returns (steps: seq<Step>)
    requires Init(s) && w in s.workers && d in s.devices
    requires s.devices[d] == Device(true, Some("u"))
    ensures Valid(s, steps)
    ensures Run(s, steps) ==
              s.(punches := map[id := LeasePunch(NewPunch(d, true, s.now), s.now + LEASE_MS)],
                 used := {id},
                 workers := s.workers[w := InFlight(s.max, id, 0, [], s.now + LEASE_MS)])
  {
    var claim := ClaimsOne(s, w, d, id);
    var t := Run(s, claim);
    assert t.workers[w] == Working(s.max, [id], s.now + LEASE_MS) && Dispatches(t, id);
    assert t.workers[w].queue[1..] == [];
    var read := RunCons(t, Read(w), []);
    RunConcat(s, claim, read);
    steps := claim + read;
    assert Run(s, steps).workers == s.workers[w := InFlight(s.max, id, 0, [], s.now + LEASE_MS)];
  }

  /** When the lease has run out a second worker takes up the same row. */
  lemma SecondWorkerTakesUp(t: State, v: WorkerId, w: WorkerId, d: DeviceId, id: RowId) returns (steps: seq<Step>)
    requires v != w && {v, w} <= t.workers.Keys && d in t.devices && id in t.punches
    requires t.devices[d] == Device(true, Some("u"))
    requires t.workers[v] == InFlight(5, id, 0, [], t.now + LEASE_MS) && t.workers[w] == Idle
    requires t.punches[id] == LeasePunch(NewPunch(d, true, t.now), t.now + LEASE_MS)
    ensures Valid(t, steps)
    ensures var u := Run(t, steps);
            && {v, w} <= u.workers.Keys && id in u.punches && u.workers[v] == t.workers[v]
            && u.workers[w].InFlight? && u.workers[w].id == id && u.workers[w].readAttempts == 0
            && u.punches[id].log == []
  {
    var t0 := Next(t, Advance(60_000));
    var t1 := Next(t0, Poll(w));
    var t2 := Next(t1, Claim(w, [id]));
    assert t2.workers[w].Working? && t2.workers[w].queue == [id];
    var r2 := RunCons(t2, Read(w), []);
    var r1 := RunCons(t1, Claim(w, [id]), r2);
    var r0 := RunCons(t0, Poll(w), r1);
    steps := RunCons(t, Advance(60_000), r0);
  }

  /** Both commit. */
  lemma BothCommit(u: State, v: WorkerId, w: WorkerId, id: RowId) returns (steps: seq<Step>)
    requires v != w && {v, w} <= u.workers.Keys && id in u.punches && u.punches[id].log == []
    requires u.workers[v].InFlight? && u.workers[v].id == id && u.workers[v].readAttempts == 0
    requires u.workers[w].InFlight? && u.workers[w].id == id && u.workers[w].readAttempts == 0
    ensures Valid(u, steps) && id in Run(u, steps).punches
    ensures var p := Run(u, steps).punches[id];
            |p.log| == 2 && p.log[0].attempt == 1 && p.log[1].attempt == 1 && p.row.attempts == 1
  {
    var failure := Failure("HTTP 500");
    var next := Next(u, Commit(w, failure));
    var last := RunCons(next, Commit(v, failure), []);
    steps := RunCons(u, Commit(w, failure), last);
  }

  /**
   The lease hypothesis is needed once there are two workers: when the first commits after its
   lease ran out, both attempts are numbered 1 and the counter stays behind the log.
   */
  lemma LateCommitRepeatsANumber(v: WorkerId, w: WorkerId, d: DeviceId, id: RowId)
    returns (s: State, steps: seq<Step>)
    requires v != w
    ensures Init(s) && Valid(s, steps) && id in Run(s, steps).punches
    ensures var p := Run(s, steps).punches[id];
            |p.log| == 2 && p.log[0].attempt == 1 && p.log[1].attempt == 1 && p.row.attempts == 1
  {
    s := State(0, 5, map[d := Device(true, Some("u"))], map[], map[v := Idle, w := Idle], {});
    var first := SendsOne(s, v, d, id);
    var second := SecondWorkerTakesUp(Run(s, first), v, w, d, id);
    RunConcat(s, first, second);
    var both := BothCommit(Run(s, first + second), v, w, id);
    RunConcat(s, first + second, both);
    steps := first + second + both;
  }
}
