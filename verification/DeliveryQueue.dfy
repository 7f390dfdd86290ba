/**
 The webhook delivery queue as one database state and its atomic steps.

 Rows of `punch_records` are the queue; `webhook_deliveries` is the log.  Any number of
 worker processes interleave the statements of src/worker.ts with ingestion, manual
 retries, configuration changes, deletions and the passage of time.
 */
module DeliveryQueue {
  import opened Options
  import opened Selection

  type RowId = string
  type DeviceId = string
  type WorkerId = string

  /** All times are milliseconds since the epoch. */
  const LEASE_MS: int := 60_000
  const PARKED: int := 4_070_908_800_000
  const BACKOFF_SCHEDULE_MS: seq<int> := [30_000, 120_000, 600_000, 3_600_000, 21_600_000]
  const LONGEST_BACKOFF_MS: int := 21_600_000

  function ComputeBackoffMs(attemptNumber: nat): (ms: int)
    requires attemptNumber >= 1
    ensures 30_000 <= ms <= LONGEST_BACKOFF_MS
    ensures attemptNumber == 1 <==> ms == 30_000
    ensures attemptNumber >= |BACKOFF_SCHEDULE_MS| <==> ms == LONGEST_BACKOFF_MS
  {
    var last := |BACKOFF_SCHEDULE_MS| - 1;
    BACKOFF_SCHEDULE_MS[if attemptNumber - 1 <= last then attemptNumber - 1 else last]
  }

  /** Every wait is at least as long as the one before, and longer until the last is reached. */
  lemma BackoffGrows(m: nat, n: nat)
    requires 1 <= m < n
    ensures ComputeBackoffMs(m) <= ComputeBackoffMs(n)
    ensures m < |BACKOFF_SCHEDULE_MS| ==> ComputeBackoffMs(m) < ComputeBackoffMs(n)
  {
    if m < |BACKOFF_SCHEDULE_MS| {
      assert m == 1 || m == 2 || m == 3 || m == 4;
    }
  }

  datatype Device = Device(enabled: bool, url: Option<string>)

  datatype Row = Row(
    device: DeviceId,
    delivered: bool,
    attempts: nat,
    nextAttemptAt: int,
    held: bool,
    lastError: Option<string>,
    deliveredAt: Option<int>)

  datatype Entry = Entry(attempt: nat, delivered: bool, error: Option<string>)

  datatype Outcome = Success | Failure(error: string)

  /** Where one worker process stands inside `tick`. */
  datatype Pc =
    | Idle
    | Polled(max: nat)
    | Working(max: nat, queue: seq<RowId>, lease: int)
    | InFlight(max: nat, id: RowId, readAttempts: nat, queue: seq<RowId>, lease: int)

  /** History of one row since its last committed attempt: no step reads it. */
  datatype History = History(retried: bool, maxAtCommit: nat)

  /** A punch record, its delivery log in commit order, and its history. */
  datatype Punch = Punch(row: Row, log: seq<Entry>, hist: History)

  datatype State = State(
    now: int,
    max: nat,
    devices: map<DeviceId, Device>,
    punches: map<RowId, Punch>,
    workers: map<WorkerId, Pc>,
    used: set<RowId>)

  datatype Step =
    | Ingest(newId: RowId, device: DeviceId)
    | Poll(w: WorkerId)
    | Claim(w: WorkerId, ids: seq<RowId>)
    | Read(w: WorkerId)
    | Commit(w: WorkerId, outcome: Outcome)
    | Skip(w: WorkerId)
    | Crash(w: WorkerId)
    | Retry(targets: set<RowId>)
    | SetWebhook(device: DeviceId, config: Device)
    | SetMax(newMax: nat)
    | Delete(targets: set<RowId>)
    | Advance(dt: nat)

  /** `hasActiveWebhook`: the url is tested for truth, so "" counts as absent. */
  predicate HasActiveWebhook(d: Device) {
    d.enabled && d.url.Some? && d.url.value != ""
  }

  /** The claim query's WHERE clause; SQL tests the url with IS NOT NULL only. */
  predicate Claimable(now: int, devices: map<DeviceId, Device>, row: Row) {
    && !row.delivered
    && !row.held
    && row.nextAttemptAt <= now
    && row.device in devices
    && devices[row.device].enabled
    && devices[row.device].url.Some?
  }

  /** Whether a worker still has `id` ahead of it, or is calling its webhook. */
  predicate Holds(pc: Pc, id: RowId) {
    match pc
    case Idle => false
    case Polled(_) => false
    case Working(_, queue, _) => id in queue
    case InFlight(_, current, _, queue, _) => id == current || id in queue
  }

  function Rest(max: nat, queue: seq<RowId>, lease: int): Pc {
    if queue == [] then Idle else Working(max, queue, lease)
  }

  function NewRow(device: DeviceId, hasWebhook: bool, now: int): Row {
    Row(device, false, 0, now, !hasWebhook, None, None)
  }

  /** The row half of the transaction that ends an attempt. */
  function CommitRow(row: Row, attemptNumber: nat, outcome: Outcome, max: nat, now: int): Row
    requires attemptNumber >= 1
  {
    match outcome
    case Success =>
      row.(delivered := true, deliveredAt := Some(now), attempts := attemptNumber, lastError := None)
    case Failure(error) =>
      row.(attempts := attemptNumber, lastError := Some(error),
           nextAttemptAt := if attemptNumber >= max then PARKED else now + ComputeBackoffMs(attemptNumber))
  }

  function CommitEntry(attemptNumber: nat, outcome: Outcome): Entry {
    match outcome
    case Success => Entry(attemptNumber, true, None)
    case Failure(error) => Entry(attemptNumber, false, Some(error))
  }

  predicate Enabled(s: State, step: Step) {
    match step
    case Ingest(id, d) => id !in s.used && d in s.devices
    case Poll(w) => w in s.workers && s.workers[w].Idle?
    case Claim(w, ids) =>
      && w in s.workers && s.workers[w].Polled?
      && Distinct(ids)
      && forall id :: id in ids ==> id in s.punches && Claimable(s.now, s.devices, s.punches[id].row)
    case Read(w) => w in s.workers && s.workers[w].Working? && s.workers[w].queue != []
    case Commit(w, _) => w in s.workers && s.workers[w].InFlight?
    case Skip(w) =>
      w in s.workers && (s.workers[w].InFlight? || (s.workers[w].Working? && s.workers[w].queue != []))
    case Crash(w) => w in s.workers
    case Retry(_) => true
    case SetWebhook(_, _) => true
    case SetMax(m) => m >= 1
    case Delete(_) => true
    case Advance(_) => true
  }

  /** The punch is read with its device; a missing row or url ends its turn without a dispatch. */
  predicate Dispatches(s: State, id: RowId) {
    && id in s.punches
    && s.punches[id].row.device in s.devices
    && var url := s.devices[s.punches[id].row.device].url;
       url.Some? && url.value != ""
  }

  function NextRead(s: State, w: WorkerId): State
    requires Enabled(s, Read(w))
  {
    var pc := s.workers[w];
    var id := pc.queue[0];
    if Dispatches(s, id) then
      s.(workers := s.workers[w := InFlight(pc.max, id, s.punches[id].row.attempts, pc.queue[1..], pc.lease)])
    else
      s.(workers := s.workers[w := Rest(pc.max, pc.queue[1..], pc.lease)])
  }

  /** Log entry and row change land together. */
  function CommitPunch(p: Punch, attemptNumber: nat, outcome: Outcome, max: nat, now: int): Punch
    requires attemptNumber >= 1
  {
    Punch(CommitRow(p.row, attemptNumber, outcome, max, now),
          p.log + [CommitEntry(attemptNumber, outcome)],
          History(false, max))
  }

  /** If the row is gone, the log insert violates its foreign key and nothing is written. */
  function NextCommit(s: State, w: WorkerId, outcome: Outcome): State
    requires Enabled(s, Commit(w, outcome))
  {
    var pc := s.workers[w];
    s.(workers := s.workers[w := Rest(pc.max, pc.queue, pc.lease)],
       punches := if pc.id in s.punches
                  then s.punches[pc.id := CommitPunch(s.punches[pc.id], pc.readAttempts + 1, outcome, pc.max, s.now)]
                  else s.punches)
  }

  /** `resetForRetry`: the attempt count is not touched. */
  function RetryRow(row: Row, now: int): Row {
    row.(nextAttemptAt := now, held := false)
  }

  function RetryPunch(p: Punch, now: int): Punch {
    p.(row := RetryRow(p.row, now),
       hist := p.hist.(retried := true))
  }

  function NewPunch(device: DeviceId, hasWebhook: bool, now: int): Punch {
    Punch(NewRow(device, hasWebhook, now), [], History(false, 0))
  }

  function LeasePunch(p: Punch, lease: int): Punch {
    p.(row := p.row.(nextAttemptAt := lease))
  }

  function LeaseAll(punches: map<RowId, Punch>, ids: seq<RowId>, lease: int): map<RowId, Punch> {
    map id | id in punches :: if id in ids then LeasePunch(punches[id], lease) else punches[id]
  }

  function RetryAll(punches: map<RowId, Punch>, ids: set<RowId>, now: int): map<RowId, Punch> {
    map id | id in punches :: if id in ids then RetryPunch(punches[id], now) else punches[id]
  }

  function Next(s: State, step: Step): State
    requires Enabled(s, step)
  {
    match step
    case Ingest(id, d) =>
      s.(punches := s.punches[id := NewPunch(d, HasActiveWebhook(s.devices[d]), s.now)], used := s.used + {id})
    case Poll(w) => s.(workers := s.workers[w := Polled(s.max)])
    case Claim(w, ids) =>
      var lease := s.now + LEASE_MS;
      s.(punches := LeaseAll(s.punches, ids, lease),
         workers := s.workers[w := Rest(s.workers[w].max, ids, lease)])
    case Read(w) => NextRead(s, w)
    case Commit(w, outcome) => NextCommit(s, w, outcome)
    case Skip(w) =>
      var pc := s.workers[w];
      var queue := if pc.InFlight? then pc.queue else pc.queue[1..];
      s.(workers := s.workers[w := Rest(pc.max, queue, pc.lease)])
    case Crash(w) => s.(workers := s.workers[w := Idle])
    case Retry(ids) => s.(punches := RetryAll(s.punches, ids, s.now))
    case SetWebhook(d, config) => s.(devices := s.devices[d := config])
    case SetMax(m) => s.(max := m)
    case Delete(ids) => s.(punches := s.punches - ids)
    case Advance(dt) => s.(now := s.now + dt)
  }

  /** A run: every step is enabled where it happens. */
  predicate Valid(s: State, steps: seq<Step>)
    decreases |steps|
  {
    steps == [] || (Enabled(s, steps[0]) && Valid(Next(s, steps[0]), steps[1..]))
  }

  function Run(s: State, steps: seq<Step>): State
    requires Valid(s, steps)
    decreases |steps|
  {
    if steps == [] then s else Run(Next(s, steps[0]), steps[1..])
  }

  /** A fresh database and idle workers. */
  predicate Init(s: State) {
    && s.punches == map[] && s.used == {}
    && s.max >= 1
    && forall w :: w in s.workers ==> s.workers[w].Idle?
  }

  lemma RunCons(s: State, step: Step, rest: seq<Step>) returns (steps: seq<Step>)
    requires Enabled(s, step) && Valid(Next(s, step), rest)
    ensures steps == [step] + rest && Valid(s, steps) && Run(s, steps) == Run(Next(s, step), rest)
  {
    steps := [step] + rest;
    assert steps[1..] == rest;
  }

  lemma {:induction false} RunConcat(s: State, a: seq<Step>, b: seq<Step>)
    requires Valid(s, a) && Valid(Run(s, a), b)
    ensures Valid(s, a + b) && Run(s, a + b) == Run(Run(s, a), b)
    decreases |a|
  {
    if a == [] {
      assert a + b == b;
    } else {
      assert (a + b)[1..] == a[1..] + b;
      RunConcat(Next(s, a[0]), a[1..], b);
    }
  }

  lemma {:induction false} RunSplit(s: State, steps: seq<Step>, i: nat)
    requires Valid(s, steps) && i <= |steps|
    ensures Valid(s, steps[..i]) && Valid(Run(s, steps[..i]), steps[i..])
    ensures Run(s, steps) == Run(Run(s, steps[..i]), steps[i..])
    decreases |steps|
  {
    if i == 0 {
      assert steps[..0] == [] && steps[0..] == steps;
    } else {
      RunSplit(Next(s, steps[0]), steps[1..], i - 1);
      var front := RunCons(s, steps[0], steps[1..][..i - 1]);
      assert steps[..i] == front && steps[i..] == steps[1..][i - 1..];
    }
  }

  /** The state after the first `i` steps of a run. */
  function After(s: State, steps: seq<Step>, i: nat): State
    requires Valid(s, steps) && i <= |steps|
  {
    RunSplit(s, steps, i);
    Run(s, steps[..i])
  }

  /** `After` moves one step at a time, and what is left of the run stays a run. */
  lemma AfterStep(s: State, steps: seq<Step>, i: nat)
    requires Valid(s, steps) && i < |steps|
    ensures Enabled(After(s, steps, i), steps[i])
    ensures After(s, steps, i + 1) == Next(After(s, steps, i), steps[i])
    ensures Valid(After(s, steps, i + 1), steps[i + 1..])
  {
    RunSplit(s, steps, i);
    RunSplit(s, steps, i + 1);
    RunSplit(After(s, steps, i), steps[i..], 1);
    assert steps[..i + 1] == steps[..i] + [steps[i]];
    assert steps[i..][..1] == [steps[i]];
    RunConcat(s, steps[..i], [steps[i]]);
    assert steps[i..][1..] == steps[i + 1..];
  }

  /** The part of a run between two of its states. */
  lemma AfterBetween(s: State, steps: seq<Step>, i: nat, j: nat)
    requires Valid(s, steps) && i <= j <= |steps|
    ensures Valid(After(s, steps, i), steps[i..j])
    ensures After(s, steps, j) == Run(After(s, steps, i), steps[i..j])
  {
    RunSplit(s, steps, j);
    RunSplit(s, steps[..j], i);
    assert steps[..j][..i] == steps[..i] && steps[..j][i..] == steps[i..j];
  }

  /** The step calls the webhook for `id`. */
  predicate Sends(s: State, step: Step, id: RowId) {
    && step.Read?
    && Enabled(s, step)
    && s.workers[step.w].queue[0] == id
    && Dispatches(s, id)
  }

  /** The table of punch records. */
  function RowsOf(s: State): map<RowId, Row> {
    map id | id in s.punches :: s.punches[id].row
  }

  /** The deliveries of each punch, in commit order. */
  function LogsOf(s: State): map<RowId, seq<Entry>> {
    map id | id in s.punches :: s.punches[id].log
  }

  /** The row's turn has come: a claim may take it, and the claim's read calls the webhook. */
  predicate Goes(s: State, id: RowId) {
    id in s.punches && Claimable(s.now, s.devices, s.punches[id].row) && Dispatches(s, id)
  }
}
