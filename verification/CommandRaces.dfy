/**
 The command queue when requests do overlap: exactly which runs undo a report, and exactly which
 print a command twice.
 */
module CommandRaces {
  import opened Options
  import opened Selection
  import opened Commands

  /** A run: every step is enabled where it happens, and nothing else is asked. */
  ghost predicate Runs(s: State, steps: seq<Step>)
    decreases |steps|
  {
    steps == [] || (Enabled(s, steps[0]) && Runs(Next(s, steps[0]), steps[1..]))
  }

  /** An open poll has read the command. */
  predicate HasRead(s: State, p: PollId, id: Id) {
    p in s.polls && id in IdsOf(s.polls[p].batch)
  }

  predicate Marks(s: State, step: Step, id: Id) {
    step.Mark? && HasRead(s, step.p, id)
  }

  /** Commands are enqueued once, and an open poll holds each of its commands once. */
  ghost predicate Tidy(s: State) {
    && s.commands.Keys <= s.used
    && (forall p, id :: HasRead(s, p, id) ==> id in s.used)
    && (forall p :: p in s.polls ==> Distinct(IdsOf(s.polls[p].batch)))
  }

  /** A poll holds a command after a step only if it did before, or has just read it. */
  lemma ReadBefore(s: State, step: Step, p: PollId, id: Id)
    requires Enabled(s, step) && HasRead(Next(s, step), p, id)
    ensures || (HasRead(s, p, id) && step != Mark(p) && step != Drop(p))
            || (step.Read? && id in PendingOf(s.commands, step.device))
  {
    var t := Next(s, step);
    if step.Read? {
      IdsOfEmissions(s.commands, step.device, step.ids);
      assert p in s.polls ==> t.polls[p] == s.polls[p];
    } else {
      assert t.polls[p] == s.polls[p];
    }
  }

  lemma StepTidy(s: State, step: Step)
    requires Tidy(s) && Enabled(s, step)
    ensures Tidy(Next(s, step))
  {
    var t := Next(s, step);
    forall p, id | HasRead(t, p, id) ensures id in t.used {
      ReadBefore(s, step, p, id);
    }
    forall p | p in t.polls ensures Distinct(IdsOf(t.polls[p].batch)) {
      if step.Read? {
        IdsOfEmissions(s.commands, step.device, step.ids);
      }
      assert p in s.polls ==> t.polls[p] == s.polls[p];
    }
  }

  lemma IdsOfEmissions(commands: Table, device: DeviceId, ids: seq<Id>)
    ensures IdsOf(Emissions(commands, device, ids)) == ids
  {
  }

  lemma FreshIsTidy(s: State)
    requires Fresh(s)
    ensures Tidy(s)
  {
  }

  /** The command is past pending, or gone for good: no poll will read it any more. */
  predicate Spent(s: State, id: Id) {
    id in s.used && (id in s.commands ==> s.commands[id].status != Pending)
  }

  lemma StepKeepsSpent(s: State, step: Step, id: Id)
    requires Enabled(s, step) && Spent(s, id)
    ensures Spent(Next(s, step), id)
  {
  }

  lemma SpentIsNotRead(s: State, step: Step, p: PollId, id: Id)
    requires Enabled(s, step) && Spent(s, id) && HasRead(Next(s, step), p, id)
    ensures HasRead(s, p, id) && step != Mark(p) && step != Drop(p)
  {
    ReadBefore(s, step, p, id);
  }

  // ---- Statuses ----

  predicate Lowers(s: State, step: Step, id: Id) {
    && id in s.commands && id in Next(s, step).commands
    && Rank(Next(s, step).commands[id].status) < Rank(s.commands[id].status)
  }

  /** The one step that lowers a status: the second statement of a poll, on an acknowledged command. */
  lemma LowersExactly(s: State, step: Step, id: Id)
    requires Enabled(s, step) && (id in s.commands ==> id in s.used)
    ensures Lowers(s, step, id) <==> Marks(s, step, id) && id in s.commands && s.commands[id].status == Acked
  {
  }

  ghost predicate EverLowers(s: State, steps: seq<Step>, id: Id)
    decreases |steps|
  {
    steps != [] && (Lowers(s, steps[0], id) || EverLowers(Next(s, steps[0]), steps[1..], id))
  }

  /** The open poll `p` reaches its second statement with the command still there. */
  ghost predicate MarksLater(s: State, steps: seq<Step>, p: PollId, id: Id)
    decreases |steps|
  {
    && steps != [] && id in s.commands
    && (steps[0] == Mark(p) || (steps[0] != Drop(p) && MarksLater(Next(s, steps[0]), steps[1..], p, id)))
  }

  /** A report arrives between the two statements of a poll that has read its command. */
  ghost predicate ReportsMidPoll(s: State, steps: seq<Step>, id: Id)
    decreases |steps|
  {
    steps != [] &&
    (|| (steps[0].Ack? && steps[0].id == id && id in s.commands
         && exists p :: HasRead(s, p, id) && MarksLater(Next(s, steps[0]), steps[1..], p, id))
     || ReportsMidPoll(Next(s, steps[0]), steps[1..], id))
  }

  lemma {:induction false} LoweredByAnOpenPoll(s: State, steps: seq<Step>, id: Id) returns (p: PollId)
    requires Runs(s, steps) && Spent(s, id) && EverLowers(s, steps, id) && id in s.commands
    ensures HasRead(s, p, id) && MarksLater(s, steps, p, id)
    decreases |steps|
  {
    LowersExactly(s, steps[0], id);
    if Lowers(s, steps[0], id) {
      p := steps[0].p;
    } else {
      var t := Next(s, steps[0]);
      StepKeepsSpent(s, steps[0], id);
      if id !in t.commands {
        GoneNeverLowers(t, steps[1..], id);
      }
      p := LoweredByAnOpenPoll(t, steps[1..], id);
      SpentIsNotRead(s, steps[0], p, id);
    }
  }

  lemma {:induction false} GoneNeverLowers(s: State, steps: seq<Step>, id: Id)
    requires Runs(s, steps) && id in s.used && id !in s.commands
    ensures !EverLowers(s, steps, id)
    decreases |steps|
  {
    if steps != [] {
      GoneNeverLowers(Next(s, steps[0]), steps[1..], id);
    }
  }

  lemma {:induction false} AckedThenMarkedLowers(s: State, steps: seq<Step>, p: PollId, id: Id)
    requires Runs(s, steps) && HasRead(s, p, id) && MarksLater(s, steps, p, id)
    requires s.commands[id].status == Acked
    ensures EverLowers(s, steps, id)
    decreases |steps|
  {
    if steps[0] != Mark(p) {
      var t := Next(s, steps[0]);
      assert id in t.commands;
      if t.commands[id].status == Acked {
        assert HasRead(t, p, id);
        AckedThenMarkedLowers(t, steps[1..], p, id);
      }
    }
  }

  /** No open poll holds the command while it is acknowledged. */
  ghost predicate Unexposed(s: State, id: Id) {
    id in s.commands && s.commands[id].status == Acked ==> forall p :: !HasRead(s, p, id)
  }

  lemma ExposedByAReport(s: State, step: Step, id: Id)
    requires Enabled(s, step) && Unexposed(s, id) && !Unexposed(Next(s, step), id) && Tidy(s)
    ensures step.Ack? && step.id == id && id in s.commands
  {
    var t := Next(s, step);
    var p :| HasRead(t, p, id);
    if s.commands[id].status == Acked {
      SpentIsNotRead(s, step, p, id);
    }
  }

  lemma {:induction false} LoweredIffReportedMidPollFrom(s: State, steps: seq<Step>, id: Id)
    requires Runs(s, steps) && Tidy(s) && Unexposed(s, id)
    ensures EverLowers(s, steps, id) <==> ReportsMidPoll(s, steps, id)
    decreases |steps|
  {
    if steps != [] {
      var t := Next(s, steps[0]);
      StepTidy(s, steps[0]);
      LowersExactly(s, steps[0], id);
      if steps[0].Ack? && steps[0].id == id && id in s.commands {
        if EverLowers(t, steps[1..], id) {
          var p := LoweredByAnOpenPoll(t, steps[1..], id);
          assert HasRead(s, p, id);
        }
        if p :| HasRead(s, p, id) && MarksLater(t, steps[1..], p, id) {
          AckedThenMarkedLowers(t, steps[1..], p, id);
        }
        if ReportsMidPoll(t, steps[1..], id) {
          MidPollReportLowers(t, steps[1..], id);
        }
      } else {
        if !Unexposed(t, id) {
          ExposedByAReport(s, steps[0], id);
        }
        LoweredIffReportedMidPollFrom(t, steps[1..], id);
      }
    }
  }

  lemma {:induction false} MidPollReportLowers(s: State, steps: seq<Step>, id: Id)
    requires Runs(s, steps) && ReportsMidPoll(s, steps, id)
    ensures EverLowers(s, steps, id)
    decreases |steps|
  {
    var t := Next(s, steps[0]);
    if steps[0].Ack? && steps[0].id == id && id in s.commands
       && exists p :: HasRead(s, p, id) && MarksLater(t, steps[1..], p, id) {
      var p :| HasRead(s, p, id) && MarksLater(t, steps[1..], p, id);
      AckedThenMarkedLowers(t, steps[1..], p, id);
    } else {
      MidPollReportLowers(t, steps[1..], id);
    }
  }

  /**
   Any interleaving of the statements: a command's status ever falls if and only if some report of it
   arrives between the two statements of a poll that has read it.
   */
  lemma LoweredIffReportedMidPoll(s: State, steps: seq<Step>, id: Id)
    requires Fresh(s) && Runs(s, steps)
    ensures EverLowers(s, steps, id) <==> ReportsMidPoll(s, steps, id)
  {
    LoweredIffReportedMidPollFrom(s, steps, id);
  }

  // ---- Printing ----

  /** How often the command has been printed. */
  function Times(emitted: seq<Emission>, id: Id): nat {
    if emitted == [] then 0 else (if emitted[0].id == id then 1 else 0) + Times(emitted[1..], id)
  }

  lemma {:induction false} TimesConcat(a: seq<Emission>, b: seq<Emission>, id: Id)
    ensures Times(a + b, id) == Times(a, id) + Times(b, id)
  {
    if a == [] {
      assert a + b == b;
    } else {
      assert (a + b)[1..] == a[1..] + b;
      TimesConcat(a[1..], b, id);
    }
  }

  lemma {:induction false} TimesInBatch(batch: seq<Emission>, id: Id)
    requires Distinct(IdsOf(batch))
    ensures Times(batch, id) == if id in IdsOf(batch) then 1 else 0
  {
    if batch != [] {
      var rest := batch[1..];
      assert forall i :: 0 <= i < |rest| ==> IdsOf(rest)[i] == IdsOf(batch)[i + 1];
      TimesInBatch(rest, id);
      if id in IdsOf(batch) {
        var i :| 0 <= i < |batch| && IdsOf(batch)[i] == id;
        assert i > 0 ==> IdsOf(rest)[i - 1] == id;
        assert batch[0].id == id ==> id !in IdsOf(rest);
      }
    }
  }

  /** How many second statements of the run print the command. */
  ghost function MarksOf(s: State, steps: seq<Step>, id: Id): nat
    decreases |steps|
  {
    if steps == [] then 0 else (if Marks(s, steps[0], id) then 1 else 0) + MarksOf(Next(s, steps[0]), steps[1..], id)
  }

  lemma {:induction false} PrintedByMarks(s: State, steps: seq<Step>, id: Id)
    requires Runs(s, steps) && Tidy(s)
    ensures Times(Run(s, steps).emitted, id) == Times(s.emitted, id) + MarksOf(s, steps, id)
    decreases |steps|
  {
    if steps != [] {
      StepTidy(s, steps[0]);
      PrintedByMarks(Next(s, steps[0]), steps[1..], id);
      if steps[0].Mark? {
        var batch := s.polls[steps[0].p].batch;
        TimesConcat(s.emitted, batch, id);
        TimesInBatch(batch, id);
      }
    }
  }

  /** The open poll `p` reaches its second statement. */
  ghost predicate Completes(s: State, steps: seq<Step>, p: PollId)
    decreases |steps|
  {
    steps != [] && (steps[0] == Mark(p) || (steps[0] != Drop(p) && Completes(Next(s, steps[0]), steps[1..], p)))
  }

  /** At some moment two open polls have both read the command, and both go on to complete. */
  ghost predicate PollsOverlap(s: State, steps: seq<Step>, id: Id)
    decreases |steps|
  {
    || (exists p, q :: p != q && HasRead(s, p, id) && HasRead(s, q, id) && Completes(s, steps, p) && Completes(s, steps, q))
    || (steps != [] && PollsOverlap(Next(s, steps[0]), steps[1..], id))
  }

  lemma {:induction false} CompletingPollPrints(s: State, steps: seq<Step>, p: PollId, id: Id)
    requires Runs(s, steps) && HasRead(s, p, id) && Completes(s, steps, p)
    ensures MarksOf(s, steps, id) >= 1
    decreases |steps|
  {
    if steps[0] != Mark(p) {
      CompletingPollPrints(Next(s, steps[0]), steps[1..], p, id);
    }
  }

  lemma {:induction false} TwoCompletingPollsPrintTwice(s: State, steps: seq<Step>, p: PollId, q: PollId, id: Id)
    requires Runs(s, steps) && p != q && HasRead(s, p, id) && HasRead(s, q, id)
    requires Completes(s, steps, p) && Completes(s, steps, q)
    ensures MarksOf(s, steps, id) >= 2
    decreases |steps|
  {
    var t := Next(s, steps[0]);
    if steps[0] == Mark(p) {
      CompletingPollPrints(t, steps[1..], q, id);
    } else if steps[0] == Mark(q) {
      CompletingPollPrints(t, steps[1..], p, id);
    } else {
      TwoCompletingPollsPrintTwice(t, steps[1..], p, q, id);
    }
  }

  lemma {:induction false} OverlapPrintsTwice(s: State, steps: seq<Step>, id: Id)
    requires Runs(s, steps) && PollsOverlap(s, steps, id)
    ensures MarksOf(s, steps, id) >= 2
    decreases |steps|
  {
    if p, q :| p != q && HasRead(s, p, id) && HasRead(s, q, id) && Completes(s, steps, p) && Completes(s, steps, q) {
      TwoCompletingPollsPrintTwice(s, steps, p, q, id);
    } else {
      OverlapPrintsTwice(Next(s, steps[0]), steps[1..], id);
    }
  }

  /** A spent command can only be printed by a poll already open. */
  lemma {:induction false} SpentPrintedByAnOpenPoll(s: State, steps: seq<Step>, id: Id) returns (q: PollId)
    requires Runs(s, steps) && Spent(s, id) && MarksOf(s, steps, id) >= 1
    ensures HasRead(s, q, id) && Completes(s, steps, q)
    decreases |steps|
  {
    if Marks(s, steps[0], id) {
      q := steps[0].p;
    } else {
      StepKeepsSpent(s, steps[0], id);
      q := SpentPrintedByAnOpenPoll(Next(s, steps[0]), steps[1..], id);
      SpentIsNotRead(s, steps[0], q, id);
    }
  }

  lemma {:induction false} PrintedTwiceOverlaps(s: State, steps: seq<Step>, id: Id)
    requires Runs(s, steps) && Tidy(s) && MarksOf(s, steps, id) >= 2
    ensures PollsOverlap(s, steps, id)
    decreases |steps|
  {
    var t := Next(s, steps[0]);
    StepTidy(s, steps[0]);
    if Marks(s, steps[0], id) {
      var p := steps[0].p;
      assert Spent(t, id);
      var q := SpentPrintedByAnOpenPoll(t, steps[1..], id);
      assert HasRead(s, q, id) && q != p;
      assert Completes(s, steps, p) && Completes(s, steps, q);
    } else {
      PrintedTwiceOverlaps(t, steps[1..], id);
    }
  }

  /**
   Any interleaving of the statements: a command is printed more than once if and only if two polls
   that have both read it are open together and both complete.
   */
  lemma PrintedTwiceIffPollsOverlap(s: State, steps: seq<Step>, id: Id)
    requires Fresh(s) && Runs(s, steps)
    ensures Times(Run(s, steps).emitted, id) >= 2 <==> PollsOverlap(s, steps, id)
  {
    FreshIsTidy(s);
    PrintedByMarks(s, steps, id);
    if Times(Run(s, steps).emitted, id) >= 2 {
      PrintedTwiceOverlaps(s, steps, id);
    }
    if PollsOverlap(s, steps, id) {
      OverlapPrintsTwice(s, steps, id);
    }
  }

  // ---- Both happen ----

  lemma OneIsOldest(commands: Table, device: DeviceId, id: Id)
    requires commands.Keys == {id} && commands[id].device == device && commands[id].status == Pending
    ensures IsOldest(commands, device, [id])
  {
    assert PendingOf(commands, device) == {id};
    assert forall x :: x in [id] <==> x == id;
  }

  lemma RunTwo(s: State, a: Step, b: Step) returns (steps: seq<Step>)
    requires Enabled(s, a) && Enabled(Next(s, a), b)
    ensures steps == [a, b] && Runs(s, steps) && Run(s, steps) == Next(Next(s, a), b)
  {
    steps := [a, b];
    assert steps[1..] == [b] && [b][1..] == [];
    assert Run(Next(Next(s, a), b), []) == Next(Next(s, a), b);
    assert Run(Next(s, a), [b]) == Next(Next(s, a), b);
  }

  lemma {:induction false} RunsConcat(s: State, a: seq<Step>, b: seq<Step>)
    requires Runs(s, a) && Runs(Run(s, a), b)
    ensures Runs(s, a + b) && Run(s, a + b) == Run(Run(s, a), b)
    decreases |a|
  {
    if a == [] {
      assert a + b == b;
    } else {
      assert (a + b)[1..] == a[1..] + b;
      RunsConcat(Next(s, a[0]), a[1..], b);
    }
  }

  /** Enqueue, read, report, mark: the report is undone. */
  lemma LateMarkUndoesAReport(s: State, p: PollId, device: DeviceId, id: Id, text: string, body: string)
    returns (steps: seq<Step>)
    requires Fresh(s)
    ensures steps == [Enqueue(id, device, text), Read(p, device, [id]), Ack(id, body), Mark(p)] && Runs(s, steps)
    ensures id in Run(s, steps).commands && Run(s, steps).commands[id].status == Sent
    ensures Run(s, steps).commands[id].response == Some(body)
  {
    var s1 := Next(s, Enqueue(id, device, text));
    assert s1.commands.Keys == {id};
    OneIsOldest(s1.commands, device, id);
    var first := RunTwo(s, Enqueue(id, device, text), Read(p, device, [id]));
    var s2 := Run(s, first);
    assert IdsOf(s2.polls[p].batch) == [id];
    var second := RunTwo(s2, Ack(id, body), Mark(p));
    RunsConcat(s, first, second);
    steps := first + second;
  }

  /** Enqueue, two overlapping polls: the command is printed twice. */
  lemma OverlappingPollsRepeat(s: State, p: PollId, q: PollId, device: DeviceId, id: Id, text: string)
    returns (steps: seq<Step>)
    requires Fresh(s) && p != q
    ensures Runs(s, steps)
    ensures steps == [Enqueue(id, device, text), Read(p, device, [id])] + [Read(q, device, [id]), Mark(p)] + [Mark(q)]
    ensures Times(Run(s, steps).emitted, id) == 2
  {
    var s1 := Next(s, Enqueue(id, device, text));
    assert s1.commands.Keys == {id};
    OneIsOldest(s1.commands, device, id);
    var first := RunTwo(s, Enqueue(id, device, text), Read(p, device, [id]));
    var s2 := Run(s, first);
    var second := RunTwo(s2, Read(q, device, [id]), Mark(p));
    var s4 := Run(s2, second);
    var e := Emission(id, device, s.now);
    assert s4.polls[q].batch == [e] && s4.emitted == [e];
    var last := [Mark(q)];
    assert last[1..] == [];
    assert Run(s4, last) == Next(s4, Mark(q));
    RunsConcat(s, first, second);
    RunsConcat(s, first + second, last);
    steps := first + second + last;
    assert Run(s, steps).emitted == [e] + [e];
    assert [e][1..] == [];
    TimesConcat([e], [e], id);
  }
}
