/**
 The worker process of src/worker.ts, statement by statement, against the steps of the delivery
 queue.  Between its statements the rest of the system goes on.
 */
module DeliveryWorker {
  import opened Options
  import opened Selection
  import opened DeliveryQueue

  /** What the outside world does to one record's turn, and what the rest of the system does meanwhile. */
  datatype Visit =
    | Stop                                                // shutdown was requested
    | ReadFails                                           // the lookup raises
    | Throws(meanwhile: seq<Step>)                        // something after the lookup raises
    | Answers(outcome: Outcome, meanwhile: seq<Step>)     // the endpoint's answer, some time later

  /** The rows the claim query may return: `FOR UPDATE SKIP LOCKED` passes over `locked`. */
  function OpenRows(rows: map<RowId, Row>, now: int, devices: map<DeviceId, Device>, locked: set<RowId>): set<RowId> {
    set id | id in rows && id !in locked && Claimable(now, devices, rows[id])
  }

  function DueTimes(rows: map<RowId, Row>): map<RowId, int> {
    map id | id in rows :: rows[id].nextAttemptAt
  }

  /** Open rows, earliest due first, and none left out while there was room. */
  ghost predicate IsBatch(rows: map<RowId, Row>, now: int, devices: map<DeviceId, Device>,
                          locked: set<RowId>, limit: nat, ids: seq<RowId>) {
    IsLeast(OpenRows(rows, now, devices, locked), DueTimes(rows), limit, ids)
  }

  /** The claim query's rows in plain words, those it takes and those it leaves. */
  lemma BatchIsDue(rows: map<RowId, Row>, now: int, devices: map<DeviceId, Device>, locked: set<RowId>, limit: nat,
                   ids: seq<RowId>)
    requires IsBatch(rows, now, devices, locked, limit, ids)
    ensures |ids| <= limit && forall i, j :: 0 <= i < j < |ids| ==> ids[i] != ids[j]
    ensures forall id :: id in ids ==>
              && id in rows && id !in locked
              && !rows[id].delivered && !rows[id].held && rows[id].nextAttemptAt <= now
              && rows[id].device in devices && devices[rows[id].device].enabled && devices[rows[id].device].url.Some?
    ensures forall i, j :: 0 <= i < j < |ids| ==> rows[ids[i]].nextAttemptAt <= rows[ids[j]].nextAttemptAt
    ensures forall id :: id in rows && id !in locked && id !in ids
                         && !rows[id].delivered && !rows[id].held && rows[id].nextAttemptAt <= now
                         && rows[id].device in devices && devices[rows[id].device].enabled
                         && devices[rows[id].device].url.Some? ==>
              |ids| == limit && forall k :: 0 <= k < |ids| ==> rows[ids[k]].nextAttemptAt <= rows[id].nextAttemptAt
  {
    var open, due := OpenRows(rows, now, devices, locked), DueTimes(rows);
    LeastMeans(open, due, limit, ids);
    forall i | 0 <= i < |ids| ensures ids[i] in open {
      assert ids[i] in ids;
    }
  }

  /** `UPDATE ... SET nextAttemptAt WHERE id IN ids`. */
  function WithLease(rows: map<RowId, Row>, ids: seq<RowId>, lease: int): map<RowId, Row> {
    map id | id in rows :: if id in ids then rows[id].(nextAttemptAt := lease) else rows[id]
  }

  /** The two tables hold the rows and the logs of the queue's punches. */
  ghost predicate Agree(punches: map<RowId, Punch>, rows: map<RowId, Row>, log: map<RowId, seq<Entry>>) {
    && punches.Keys == rows.Keys == log.Keys
    && forall id :: id in punches ==> punches[id].row == rows[id] && punches[id].log == log[id]
  }

  /** One process's view of the queue: the clock, the settings, the tables, and its own place in it. */
  ghost predicate Matches(s: State, w: WorkerId, now: int, max: nat, devices: map<DeviceId, Device>,
                          rows: map<RowId, Row>, log: map<RowId, seq<Entry>>) {
    && s.now == now && s.max == max && s.devices == devices
    && Agree(s.punches, rows, log)
    && w in s.workers
  }

  // ---- The rest of the system ----

  predicate IsBy(step: Step, w: WorkerId) {
    match step
    case Poll(v) => v == w
    case Claim(v, _) => v == w
    case Read(v) => v == w
    case Commit(v, _) => v == w
    case Skip(v) => v == w
    case Crash(v) => v == w
    case _ => false
  }

  /** A worker's own steps are these six; those of people, of devices and of the clock are nobody's. */
  lemma OwnStepsAre(step: Step, w: WorkerId)
    ensures IsBy(step, w) <==> !(step.Ingest? || step.Retry? || step.SetWebhook? || step.SetMax? || step.Delete? || step.Advance?)
                               && step.w == w
  {
  }

  predicate ByOthers(steps: seq<Step>, w: WorkerId) {
    forall i :: 0 <= i < |steps| ==> !IsBy(steps[i], w)
  }

  /** What others do in this state, if they can. */
  function Proposed(s: State, w: WorkerId, others: seq<Step>): (steps: seq<Step>)
    ensures Valid(s, steps) && ByOthers(steps, w)
    ensures Valid(s, others) && ByOthers(others, w) ==> steps == others
  {
    if Valid(s, others) && ByOthers(others, w) then others else []
  }

  function Elsewhere(s: State, w: WorkerId, others: seq<Step>): State {
    Run(s, Proposed(s, w, others))
  }

  lemma {:induction false} OthersLeaveMine(s: State, others: seq<Step>, w: WorkerId)
    requires Valid(s, others) && ByOthers(others, w) && w in s.workers
    ensures w in Run(s, others).workers && Run(s, others).workers[w] == s.workers[w]
    decreases |others|
  {
    if others != [] {
      assert !IsBy(others[0], w);
      OthersLeaveMine(Next(s, others[0]), others[1..], w);
    }
  }

  lemma ElsewhereKeepsMine(s: State, w: WorkerId, others: seq<Step>)
    requires w in s.workers
    ensures w in Elsewhere(s, w, others).workers && Elsewhere(s, w, others).workers[w] == s.workers[w]
  {
    OthersLeaveMine(s, Proposed(s, w, others), w);
  }

  // ---- The queue after a claim and after one record's turn ----

  function Moved(s: State, w: WorkerId, pc: Pc): State {
    s.(workers := s.workers[w := pc])
  }

  function Taken(s: State, w: WorkerId, max: nat, ids: seq<RowId>): State {
    Moved(s.(punches := LeaseAll(s.punches, ids, s.now + LEASE_MS)), w, Rest(max, ids, s.now + LEASE_MS))
  }

  /** What is left of the batch after its first record. */
  function Onward(pc: Pc): Pc
    requires pc.Working? && pc.queue != []
  {
    Rest(pc.max, pc.queue[1..], pc.lease)
  }

  function Lookup(s: State, pc: Pc): Pc
    requires pc.Working? && pc.queue != [] && pc.queue[0] in s.punches
  {
    InFlight(pc.max, pc.queue[0], s.punches[pc.queue[0]].row.attempts, pc.queue[1..], pc.lease)
  }

  /** The transaction of one attempt on the row as it is by then; nothing if the row is gone. */
  function Recorded(s: State, id: RowId, attemptNumber: nat, outcome: Outcome, max: nat): State
    requires attemptNumber >= 1
  {
    if id in s.punches
    then s.(punches := s.punches[id := CommitPunch(s.punches[id], attemptNumber, outcome, max, s.now)])
    else s
  }

  function Turned(s: State, w: WorkerId, pc: Pc, visit: Visit): State
    requires pc.Working? && pc.queue != [] && !visit.Stop?
  {
    var id := pc.queue[0];
    if visit.ReadFails? || !Dispatches(s, id) then Moved(s, w, Onward(pc))
    else
      var late := Elsewhere(Moved(s, w, Lookup(s, pc)), w, visit.meanwhile);
      Moved(if visit.Throws? then late
            else Recorded(late, id, s.punches[id].row.attempts + 1, visit.outcome, pc.max),
            w, Onward(pc))
  }

  /** The batch the query returns can be claimed, and the update leaves the claim's state. */
  lemma ClaimIsAStep(s: State, w: WorkerId, rows: map<RowId, Row>, log: map<RowId, seq<Entry>>,
                     locked: set<RowId>, limit: nat, ids: seq<RowId>) returns (steps: seq<Step>)
    requires w in s.workers && s.workers[w].Polled? && Agree(s.punches, rows, log)
    requires IsBatch(rows, s.now, s.devices, locked, limit, ids)
    ensures steps == [Claim(w, ids)]
    ensures Valid(s, steps) && Run(s, steps) == Taken(s, w, s.workers[w].max, ids)
  {
    assert forall id :: id in ids ==> id in OpenRows(rows, s.now, s.devices, locked);
    steps := RunCons(s, Claim(w, ids), []);
  }

  /** One run after another. */
  lemma Then(s: State, steps: seq<Step>, t: State, more: seq<Step>, u: State) returns (all: seq<Step>)
    requires Valid(s, steps) && t == Run(s, steps)
    requires Valid(t, more) && u == Run(t, more)
    ensures all == steps + more && Valid(s, all) && u == Run(s, all)
  {
    RunConcat(s, steps, more);
    all := steps + more;
  }

  lemma CommitIsAStep(s: State, w: WorkerId, outcome: Outcome) returns (steps: seq<Step>)
    requires w in s.workers && s.workers[w].InFlight?
    ensures steps == [Commit(w, outcome)]
    ensures var pc := s.workers[w];
            && Valid(s, steps)
            && Run(s, steps) ==
               Moved(Recorded(s, pc.id, pc.readAttempts + 1, outcome, pc.max), w, Rest(pc.max, pc.queue, pc.lease))
  {
    steps := RunCons(s, Commit(w, outcome), []);
  }

  lemma SkipIsAStep(s: State, w: WorkerId) returns (steps: seq<Step>)
    requires w in s.workers && (s.workers[w].InFlight? || (s.workers[w].Working? && s.workers[w].queue != []))
    ensures steps == [Skip(w)]
    ensures var pc := s.workers[w];
            Valid(s, steps)
            && Run(s, steps) == Moved(s, w, Rest(pc.max, if pc.InFlight? then pc.queue else pc.queue[1..], pc.lease))
  {
    steps := RunCons(s, Skip(w), []);
  }

  lemma ReadIsAStep(s: State, w: WorkerId) returns (steps: seq<Step>)
    requires w in s.workers && s.workers[w].Working? && s.workers[w].queue != []
    ensures steps == [Read(w)]
    ensures var pc := s.workers[w];
            Valid(s, steps)
            && Run(s, steps) == Moved(s, w, if Dispatches(s, pc.queue[0]) then Lookup(s, pc) else Onward(pc))
  {
    steps := RunCons(s, Read(w), []);
  }

  // ---- What a whole poll does, step by step ----

  /**
   The steps of one record's turn: a lookup that raises is skipped; a record without a url is read
   and left; any other is read and, after whatever others do, ends with the endpoint's answer or a skip.
   */
  ghost predicate IsTurn(s: State, w: WorkerId, id: RowId, visit: Visit, work: seq<Step>) {
    && Valid(s, work)
    && w in s.workers && s.workers[w].Working? && s.workers[w].queue != [] && s.workers[w].queue[0] == id
    && match visit
       case Stop => false
       case ReadFails => work == [Skip(w)]
       case Throws(meanwhile) =>
         work == if Dispatches(s, id) then [Read(w)] + Proposed(Next(s, Read(w)), w, meanwhile) + [Skip(w)] else [Read(w)]
       case Answers(outcome, meanwhile) =>
         work == if Dispatches(s, id) then [Read(w)] + Proposed(Next(s, Read(w)), w, meanwhile) + [Commit(w, outcome)]
                 else [Read(w)]
  }

  /** What others do before a record's turn, and the turn. */
  datatype Turn = Turn(from: State, gap: seq<Step>, work: seq<Step>)

  ghost predicate TurnFits(turn: Turn, w: WorkerId, id: RowId, gap: seq<Step>, visit: Visit) {
    && turn.gap == Proposed(turn.from, w, gap)
    && IsTurn(Elsewhere(turn.from, w, gap), w, id, visit, turn.work)
  }

  function StepsOf(turns: seq<Turn>): seq<Step> {
    if turns == [] then []
    else
      var last := turns[|turns| - 1];
      StepsOf(turns[..|turns| - 1]) + (last.gap + last.work)
  }

  /** The turns follow one another, the first from `s`, the last to `end`. */
  ghost predicate Leads(s: State, turns: seq<Turn>, end: State)
    decreases |turns|
  {
    if turns == [] then end == s
    else
      var last := turns[|turns| - 1];
      && Leads(s, turns[..|turns| - 1], last.from)
      && Valid(last.from, last.gap + last.work) && Run(last.from, last.gap + last.work) == end
  }

  /** One turn for each of the ids in order, as far as the turns go. */
  ghost predicate InTurn(w: WorkerId, ids: seq<RowId>, gaps: seq<seq<Step>>, visits: seq<Visit>, turns: seq<Turn>) {
    && |turns| <= |ids| <= |gaps| && |ids| <= |visits|
    && forall i :: 0 <= i < |turns| ==> TurnFits(turns[i], w, ids[i], gaps[i], visits[i])
  }

  /**
   A whole poll: the settings are read, a batch is claimed, each of its records has its turn up to the
   first stop, and a stopped poll abandons the rest.
   */
  ghost predicate IsTick(s: State, w: WorkerId, batchSize: nat, locked: set<RowId>, early: seq<Step>,
                         gaps: seq<seq<Step>>, visits: seq<Visit>, ids: seq<RowId>, turns: seq<Turn>, steps: seq<Step>) {
    && Enabled(s, Poll(w))
    && var open := Elsewhere(Next(s, Poll(w)), w, early);
    && IsBatch(RowsOf(open), open.now, open.devices, locked, batchSize, ids)
    && Enabled(open, Claim(w, ids))
    && InTurn(w, ids, gaps, visits, turns)
    && (exists end :: Leads(Next(open, Claim(w, ids)), turns, end))
    && (|turns| < |ids| ==> visits[|turns|].Stop?)
    && steps == [Poll(w)] + Proposed(Next(s, Poll(w)), w, early) + [Claim(w, ids)] + StepsOf(turns)
                + (if |turns| < |ids| then [Crash(w)] else [])
  }

  lemma {:induction false} TurnsAreARun(s: State, turns: seq<Turn>, end: State)
    requires Leads(s, turns, end)
    ensures Valid(s, StepsOf(turns)) && Run(s, StepsOf(turns)) == end
    decreases |turns|
  {
    if turns != [] {
      var last := turns[|turns| - 1];
      TurnsAreARun(s, turns[..|turns| - 1], last.from);
      RunConcat(s, StepsOf(turns[..|turns| - 1]), last.gap + last.work);
    }
  }

  lemma OneMoreLeads(s: State, turns: seq<Turn>, turn: Turn, end: State)
    requires Leads(s, turns, turn.from)
    requires Valid(turn.from, turn.gap + turn.work) && Run(turn.from, turn.gap + turn.work) == end
    ensures Leads(s, turns + [turn], end)
  {
    assert (turns + [turn])[..|turns|] == turns;
  }

  lemma OneMoreInTurn(w: WorkerId, ids: seq<RowId>, gaps: seq<seq<Step>>, visits: seq<Visit>, turns: seq<Turn>, turn: Turn)
    requires InTurn(w, ids, gaps, visits, turns) && |turns| < |ids|
    requires TurnFits(turn, w, ids[|turns|], gaps[|turns|], visits[|turns|])
    ensures InTurn(w, ids, gaps, visits, turns + [turn])
  {
    var more := turns + [turn];
    forall i | 0 <= i < |more| ensures TurnFits(more[i], w, ids[i], gaps[i], visits[i]) {
      if i < |turns| {
        assert more[i] == turns[i];
      }
    }
  }

  /** A turn is a run: a skip, an empty read, or read, whatever others do, and commit or skip. */
  lemma TurnIsARun(s: State, w: WorkerId, pc: Pc, visit: Visit) returns (work: seq<Step>)
    requires w in s.workers && pc == s.workers[w] && pc.Working? && pc.queue != [] && !visit.Stop?
    ensures IsTurn(s, w, pc.queue[0], visit, work) && Run(s, work) == Turned(s, w, pc, visit)
  {
    var id := pc.queue[0];
    if visit.ReadFails? {
      work := SkipIsAStep(s, w);
    } else {
      work := ReadIsAStep(s, w);
      assert Run(s, work) == Next(s, Read(w));
      if Dispatches(s, id) {
        work := DispatchIsARun(s, w, pc, visit);
      }
    }
  }

  lemma DispatchIsARun(s: State, w: WorkerId, pc: Pc, visit: Visit) returns (work: seq<Step>)
    requires w in s.workers && pc == s.workers[w] && pc.Working? && pc.queue != []
    requires Dispatches(s, pc.queue[0]) && (visit.Throws? || visit.Answers?)
    ensures IsTurn(s, w, pc.queue[0], visit, work) && Run(s, work) == Turned(s, w, pc, visit)
  {
    var first := ReadIsAStep(s, w);
    var read := Next(s, Read(w));
    assert Run(s, first) == read && read == Moved(s, w, Lookup(s, pc));
    var others := Proposed(read, w, visit.meanwhile);
    var late := Elsewhere(read, w, visit.meanwhile);
    ElsewhereKeepsMine(read, w, visit.meanwhile);
    var end;
    if visit.Throws? {
      end := SkipIsAStep(late, w);
    } else {
      end := CommitIsAStep(late, w, visit.outcome);
    }
    work := Then(s, first, read, others, late);
    work := Then(s, work, late, end, Run(late, end));
  }

  lemma PollIsAStep(s: State, w: WorkerId) returns (steps: seq<Step>)
    requires w in s.workers && s.workers[w].Idle?
    ensures steps == [Poll(w)]
    ensures Valid(s, steps) && Run(s, steps) == Moved(s, w, Polled(s.max))
  {
    steps := RunCons(s, Poll(w), []);
  }

  lemma CrashIsAStep(s: State, w: WorkerId) returns (steps: seq<Step>)
    requires w in s.workers
    ensures steps == [Crash(w)]
    ensures Valid(s, steps) && Run(s, steps) == Moved(s, w, Idle)
  {
    steps := RunCons(s, Crash(w), []);
  }

  /** The settings, what others do, and the claim. */
  lemma OpeningIsARun(start: State, w: WorkerId, early: seq<Step>, rows: map<RowId, Row>, log: map<RowId, seq<Entry>>,
                      locked: set<RowId>, limit: nat, ids: seq<RowId>) returns (steps: seq<Step>)
    requires w in start.workers && start.workers[w].Idle?
    requires var open := Elsewhere(Moved(start, w, Polled(start.max)), w, early);
             Agree(open.punches, rows, log) && IsBatch(rows, open.now, open.devices, locked, limit, ids)
    ensures var polled := Moved(start, w, Polled(start.max));
            var open := Elsewhere(polled, w, early);
            && polled == Next(start, Poll(w)) && Enabled(open, Claim(w, ids))
            && steps == [Poll(w)] + Proposed(polled, w, early) + [Claim(w, ids)]
            && Valid(start, steps) && Run(start, steps) == Next(open, Claim(w, ids)) == Taken(open, w, start.max, ids)
  {
    var polled := Moved(start, w, Polled(start.max));
    var open := Elsewhere(polled, w, early);
    ElsewhereKeepsMine(polled, w, early);
    var poll := PollIsAStep(start, w);
    steps := Then(start, poll, polled, Proposed(polled, w, early), open);
    var claim := ClaimIsAStep(open, w, rows, log, locked, limit, ids);
    steps := Then(start, steps, open, claim, Taken(open, w, start.max, ids));
  }

  lemma SameRows(punches: map<RowId, Punch>, rows: map<RowId, Row>, log: map<RowId, seq<Entry>>, s: State)
    requires Agree(punches, rows, log) && s.punches == punches
    ensures RowsOf(s) == rows
  {
  }

  lemma TickIsARun(start: State, w: WorkerId, batchSize: nat, locked: set<RowId>, early: seq<Step>,
                   gaps: seq<seq<Step>>, visits: seq<Visit>, open: State, rows: map<RowId, Row>, log: map<RowId, seq<Entry>>,
                   ids: seq<RowId>, turns: seq<Turn>, end: State) returns (steps: seq<Step>)
    requires w in start.workers && start.workers[w].Idle? && w in end.workers
    requires open == Elsewhere(Moved(start, w, Polled(start.max)), w, early) && Agree(open.punches, rows, log)
    requires IsBatch(rows, open.now, open.devices, locked, batchSize, ids)
    requires InTurn(w, ids, gaps, visits, turns) && Leads(Taken(open, w, start.max, ids), turns, end)
    requires |turns| < |ids| ==> visits[|turns|].Stop?
    ensures IsTick(start, w, batchSize, locked, early, gaps, visits, ids, turns, steps)
    ensures Valid(start, steps) && Run(start, steps) == if |turns| < |ids| then Moved(end, w, Idle) else end
  {
    var claimed := Taken(open, w, start.max, ids);
    SameRows(open.punches, rows, log, open);
    steps := OpeningIsARun(start, w, early, rows, log, locked, batchSize, ids);
    TurnsAreARun(claimed, turns, end);
    steps := Then(start, steps, claimed, StepsOf(turns), end);
    if |turns| < |ids| {
      var crash := CrashIsAStep(end, w);
      steps := Then(start, steps, end, crash, Moved(end, w, Idle));
    } else {
      assert steps + [] == steps;
    }
  }

  /** The worker's own steps among those of a run. */
  function Own(steps: seq<Step>, w: WorkerId): seq<Step> {
    if steps == [] then []
    else if IsBy(steps[0], w) then [steps[0]] + Own(steps[1..], w)
    else Own(steps[1..], w)
  }

  lemma {:induction false} OwnConcat(a: seq<Step>, b: seq<Step>, w: WorkerId)
    ensures Own(a + b, w) == Own(a, w) + Own(b, w)
  {
    if a == [] {
      assert a + b == b;
    } else {
      assert (a + b)[1..] == a[1..] + b;
      OwnConcat(a[1..], b, w);
    }
  }

  lemma {:induction false} OthersOwnNothing(steps: seq<Step>, w: WorkerId)
    requires ByOthers(steps, w)
    ensures Own(steps, w) == []
  {
    if steps != [] {
      assert !IsBy(steps[0], w);
      OthersOwnNothing(steps[1..], w);
    }
  }

  /** What the worker itself does in one record's turn. */
  function Deeds(w: WorkerId, dispatches: bool, visit: Visit): seq<Step> {
    match visit
    case Stop => []
    case ReadFails => [Skip(w)]
    case Throws(_) => if dispatches then [Read(w), Skip(w)] else [Read(w)]
    case Answers(outcome, _) => if dispatches then [Read(w), Commit(w, outcome)] else [Read(w)]
  }

  function DeedsOf(w: WorkerId, ids: seq<RowId>, gaps: seq<seq<Step>>, visits: seq<Visit>, turns: seq<Turn>): seq<Step>
    requires |turns| <= |ids| <= |gaps| && |ids| <= |visits|
  {
    if turns == [] then []
    else
      var n := |turns| - 1;
      DeedsOf(w, ids, gaps, visits, turns[..n])
      + Deeds(w, Dispatches(Elsewhere(turns[n].from, w, gaps[n]), ids[n]), visits[n])
  }

  lemma OwnOfTurn(turn: Turn, w: WorkerId, id: RowId, gap: seq<Step>, visit: Visit)
    requires TurnFits(turn, w, id, gap, visit)
    ensures Own(turn.gap + turn.work, w) == Deeds(w, Dispatches(Elsewhere(turn.from, w, gap), id), visit)
  {
    OwnConcat(turn.gap, turn.work, w);
    OthersOwnNothing(turn.gap, w);
    var s := Elsewhere(turn.from, w, gap);
    if (visit.Throws? || visit.Answers?) && Dispatches(s, id) {
      var between := Proposed(Next(s, Read(w)), w, visit.meanwhile);
      var last := if visit.Throws? then Skip(w) else Commit(w, visit.outcome);
      OwnConcat([Read(w)] + between, [last], w);
      OwnConcat([Read(w)], between, w);
      OthersOwnNothing(between, w);
    }
  }

  lemma {:induction false} OwnOfTurns(w: WorkerId, ids: seq<RowId>, gaps: seq<seq<Step>>, visits: seq<Visit>,
                                      turns: seq<Turn>)
    requires InTurn(w, ids, gaps, visits, turns)
    ensures Own(StepsOf(turns), w) == DeedsOf(w, ids, gaps, visits, turns)
    decreases |turns|
  {
    if turns != [] {
      var n := |turns| - 1;
      OwnOfTurns(w, ids, gaps, visits, turns[..n]);
      OwnOfTurn(turns[n], w, ids[n], gaps[n], visits[n]);
      OwnConcat(StepsOf(turns[..n]), turns[n].gap + turns[n].work, w);
    }
  }

  lemma OwnOfParts(w: WorkerId, others: seq<Step>, claim: Step, work: seq<Step>, close: seq<Step>)
    requires ByOthers(others, w) && IsBy(claim, w) && (close == [] || close == [Crash(w)])
    ensures Own([Poll(w)] + others + [claim] + work + close, w) == [Poll(w), claim] + Own(work, w) + close
  {
    OwnConcat([Poll(w)] + others + [claim] + work, close, w);
    OwnConcat([Poll(w)] + others + [claim], work, w);
    OwnConcat([Poll(w)] + others, [claim], w);
    OwnConcat([Poll(w)], others, w);
    OthersOwnNothing(others, w);
    assert Own([Poll(w)], w) == [Poll(w)] && Own([claim], w) == [claim] && Own(close, w) == close;
  }

  /**
   Among all that happens during a poll, the worker's own steps are: read the settings, claim the
   batch, then for each claimed record in order what its turn asks for, and no more; every record has
   its turn unless a stop came.
   */
  lemma OwnStepsOfATick(s: State, w: WorkerId, batchSize: nat, locked: set<RowId>, early: seq<Step>,
                        gaps: seq<seq<Step>>, visits: seq<Visit>, ids: seq<RowId>, turns: seq<Turn>, steps: seq<Step>)
    requires IsTick(s, w, batchSize, locked, early, gaps, visits, ids, turns, steps)
    ensures Own(steps, w) ==
            [Poll(w), Claim(w, ids)] + DeedsOf(w, ids, gaps, visits, turns) + (if |turns| < |ids| then [Crash(w)] else [])
    ensures (forall i :: 0 <= i < |ids| ==> !visits[i].Stop?) ==> |turns| == |ids|
  {
    OwnOfTurns(w, ids, gaps, visits, turns);
    OwnOfParts(w, Proposed(Next(s, Poll(w)), w, early), Claim(w, ids), StepsOf(turns),
               if |turns| < |ids| then [Crash(w)] else []);
  }

  lemma ClaimMatches(s: State, w: WorkerId, now: int, max: nat, devices: map<DeviceId, Device>,
                     rows: map<RowId, Row>, log: map<RowId, seq<Entry>>, read: nat, ids: seq<RowId>)
    requires Matches(s, w, now, max, devices, rows, log)
    ensures Matches(Taken(s, w, read, ids), w, now, max, devices, WithLease(rows, ids, now + LEASE_MS), log)
  {
  }

  lemma RecordMatches(s: State, w: WorkerId, now: int, max: nat, devices: map<DeviceId, Device>,
                      rows: map<RowId, Row>, log: map<RowId, seq<Entry>>,
                      id: RowId, n: nat, outcome: Outcome, maxAttempts: nat)
    requires Matches(s, w, now, max, devices, rows, log) && id in rows && n >= 1
    ensures Matches(Recorded(s, id, n, outcome, maxAttempts), w, now, max, devices,
                    rows[id := CommitRow(rows[id], n, outcome, maxAttempts, now)],
                    log[id := log[id] + [CommitEntry(n, outcome)]])
  {
  }

  class Worker {
    const me: WorkerId
    var now: int
    var webhookMaxAttempts: nat
    var devices: map<DeviceId, Device>
    var punchRecords: map<RowId, Row>
    var webhookDeliveries: map<RowId, seq<Entry>>

    /** The whole system; the other fields are what this process sees of it. */
    var system: State

    ghost predicate Mirrors()
      reads this
    {
      Matches(system, me, now, webhookMaxAttempts, devices, punchRecords, webhookDeliveries)
    }

    /** While this process waits, the clock, the settings and the tables may change under it. */
    method Meanwhile(others: seq<Step>)
      requires Mirrors()
      modifies this
      ensures Mirrors() && system == Elsewhere(old(system), me, others)
    {
      ElsewhereKeepsMine(system, me, others);
      system := Elsewhere(system, me, others);
      now := system.now;
      webhookMaxAttempts := system.max;
      devices := system.devices;
      punchRecords := RowsOf(system);
      webhookDeliveries := LogsOf(system);
    }

    /** The inner SELECT. */
    method SelectDue(batchSize: nat, locked: set<RowId>) returns (ids: seq<RowId>)
      ensures IsBatch(punchRecords, now, devices, locked, batchSize, ids)
    {
      ids := SelectLeast(OpenRows(punchRecords, now, devices, locked), DueTimes(punchRecords), batchSize);
    }

    method ClaimBatch(batchSize: nat, locked: set<RowId>) returns (ids: seq<RowId>)
      requires Mirrors() && system.workers[me].Polled?
      modifies this`punchRecords, this`system
      ensures Mirrors()
      ensures IsBatch(old(punchRecords), now, devices, locked, batchSize, ids)
      ensures punchRecords == WithLease(old(punchRecords), ids, now + LEASE_MS)
      ensures system == Taken(old(system), me, old(system).workers[me].max, ids)
    {
      ids := SelectDue(batchSize, locked);
      var max := system.workers[me].max;
      ClaimMatches(system, me, now, webhookMaxAttempts, devices, punchRecords, webhookDeliveries, max, ids);
      system := Taken(system, me, max, ids);
      punchRecords := WithLease(punchRecords, ids, now + LEASE_MS);
    }

    /** The two statements of the transaction: the log entry, and the row as it is now. */
    method WriteAttempt(id: RowId, attemptNumber: nat, maxAttempts: nat, outcome: Outcome)
      requires id in webhookDeliveries && id in punchRecords && attemptNumber >= 1
      modifies this`punchRecords, this`webhookDeliveries
      ensures punchRecords ==
              old(punchRecords)[id := CommitRow(old(punchRecords)[id], attemptNumber, outcome, maxAttempts, now)]
      ensures webhookDeliveries ==
              old(webhookDeliveries)[id := old(webhookDeliveries)[id] + [CommitEntry(attemptNumber, outcome)]]
    {
      var row := punchRecords[id];
      match outcome {
        case Success =>
          webhookDeliveries := webhookDeliveries[id := webhookDeliveries[id] + [Entry(attemptNumber, true, None)]];
          punchRecords := punchRecords[id := row.(
            delivered := true, deliveredAt := Some(now), attempts := attemptNumber, lastError := None)];
        case Failure(error) =>
          webhookDeliveries := webhookDeliveries[id := webhookDeliveries[id] + [Entry(attemptNumber, false, Some(error))]];
          var nextAttemptAt := if attemptNumber >= maxAttempts then PARKED else now + ComputeBackoffMs(attemptNumber);
          punchRecords := punchRecords[id := row.(
            attempts := attemptNumber, lastError := Some(error), nextAttemptAt := nextAttemptAt)];
      }
    }

    /** The transaction; if the record is gone its log entry breaks the foreign key and nothing is written. */
    method RecordAttempt(id: RowId, attemptNumber: nat, maxAttempts: nat, outcome: Outcome)
      requires Mirrors() && attemptNumber >= 1
      modifies this`punchRecords, this`webhookDeliveries, this`system
      ensures Mirrors() && system == Recorded(old(system), id, attemptNumber, outcome, maxAttempts)
    {
      if id in punchRecords {
        RecordMatches(system, me, now, webhookMaxAttempts, devices, punchRecords, webhookDeliveries,
                      id, attemptNumber, outcome, maxAttempts);
        system := Recorded(system, id, attemptNumber, outcome, maxAttempts);
        WriteAttempt(id, attemptNumber, maxAttempts, outcome);
      }
    }

    /** The process goes on to its next statement; nobody else sees it. */
    method Advance(pc: Pc)
      requires Mirrors()
      modifies this`system
      ensures Mirrors() && system == Moved(old(system), me, pc)
    {
      system := Moved(system, me, pc);
    }

    method ProcessPunchRecord(id: RowId, maxAttempts: nat, visit: Visit)
      requires Mirrors() && !visit.Stop?
      requires var pc := system.workers[me]; pc.Working? && pc.queue != [] && pc.queue[0] == id && pc.max == maxAttempts
      modifies this
      ensures Mirrors()
      ensures system == Turned(old(system), me, old(system).workers[me], visit)
    {
      var pc := system.workers[me];
      if visit.ReadFails?
         || id !in punchRecords || punchRecords[id].device !in devices
         || devices[punchRecords[id].device].url.None? || devices[punchRecords[id].device].url.value == "" {
        Advance(Onward(pc));
        return;
      }
      var punch := punchRecords[id];
      Advance(Lookup(system, pc));
      Meanwhile(visit.meanwhile);
      if visit.Answers? {
        RecordAttempt(id, punch.attempts + 1, maxAttempts, visit.outcome);
      }
      Advance(Onward(pc));
    }

    /** One round of the loop. */
    method NextRecord(ids: seq<RowId>, i: nat, maxAttempts: nat, ghost lease: int, gap: seq<Step>, visit: Visit)
      returns (ghost turn: Turn)
      requires Mirrors() && i < |ids| && !visit.Stop?
      requires system.workers[me] == Rest(maxAttempts, ids[i..], lease)
      modifies this
      ensures Mirrors() && system.workers[me] == Rest(maxAttempts, ids[i + 1..], lease)
      ensures TurnFits(turn, me, ids[i], gap, visit) && turn.from == old(system)
      ensures Valid(turn.from, turn.gap + turn.work) && Run(turn.from, turn.gap + turn.work) == system
    {
      ghost var from := system;
      ElsewhereKeepsMine(from, me, gap);
      Meanwhile(gap);
      ghost var before := system;
      ProcessPunchRecord(ids[i], maxAttempts, visit);
      ghost var work := TurnIsARun(before, me, before.workers[me], visit);
      turn := Turn(from, Proposed(from, me, gap), work);
      RunConcat(from, turn.gap, work);
      assert ids[i..][1..] == ids[i + 1..];
    }

    /** The records of a claimed batch, up to the first stop. */
    method WorkOff(batch: seq<RowId>, maxAttempts: nat, ghost lease: int, gaps: seq<seq<Step>>, visits: seq<Visit>)
      returns (ghost turns: seq<Turn>, stopped: bool)
      requires Mirrors() && |visits| >= |batch| && |gaps| >= |batch|
      requires system.workers[me] == Rest(maxAttempts, batch, lease)
      modifies this
      ensures Mirrors() && (!stopped ==> system.workers[me].Idle?)
      ensures InTurn(me, batch, gaps, visits, turns) && Leads(old(system), turns, system)
      ensures stopped <==> |turns| < |batch|
      ensures stopped ==> visits[|turns|].Stop?
    {
      ghost var claimed := system;
      turns := [];
      var i := 0;
      assert batch[0..] == batch;
      while i < |batch| && !visits[i].Stop?
        invariant 0 <= i <= |batch| && |turns| == i
        invariant Mirrors() && system.workers[me] == Rest(maxAttempts, batch[i..], lease)
        invariant InTurn(me, batch, gaps, visits, turns) && Leads(claimed, turns, system)
      {
        ghost var turn := NextRecord(batch, i, maxAttempts, lease, gaps[i], visits[i]);
        OneMoreInTurn(me, batch, gaps, visits, turns, turn);
        OneMoreLeads(claimed, turns, turn, system);
        turns := turns + [turn];
        i := i + 1;
      }
      stopped := i < |batch|;
    }

    /**
     One poll: read the settings, claim a batch, give each record its turn unless told to stop.
     `gaps[i]` is what others do before the i-th record, `early` before the claim.
     */
    method Tick(batchSize: nat, locked: set<RowId>, early: seq<Step>, gaps: seq<seq<Step>>, visits: seq<Visit>)
      returns (ghost ids: seq<RowId>, ghost turns: seq<Turn>, ghost steps: seq<Step>)
      requires Mirrors() && system.workers[me].Idle? && |visits| >= batchSize && |gaps| >= batchSize
      modifies this
      ensures Mirrors() && system.workers[me].Idle?
      ensures IsTick(old(system), me, batchSize, locked, early, gaps, visits, ids, turns, steps)
      ensures Valid(old(system), steps) && system == Run(old(system), steps)
    {
      ghost var start := system;
      var maxAttempts := webhookMaxAttempts;
      Advance(Polled(maxAttempts));
      ElsewhereKeepsMine(system, me, early);
      Meanwhile(early);
      ghost var open, rows, log := system, punchRecords, webhookDeliveries;
      var batch := ClaimBatch(batchSize, locked);
      ids := batch;
      var stopped;
      turns, stopped := WorkOff(batch, maxAttempts, now + LEASE_MS, gaps, visits);
      steps := TickIsARun(start, me, batchSize, locked, early, gaps, visits, open, rows, log, ids, turns, system);
      if stopped {
        Advance(Idle);
      }
    }
  }
}
