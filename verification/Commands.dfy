/**
 The device command queue (src/adms/getrequest.ts, src/adms/devicecmd.ts): a poll reads the
 oldest pending commands, marks them sent and prints them; a report acknowledges one.
 */
module Commands {
  import opened Options
  import opened JsText
  import opened Selection

  type DeviceId = string
  type PollId = string

  datatype Status = Pending | Sent | Acked

  datatype Command = Command(device: DeviceId, text: string, status: Status, createdAt: int, response: Option<string>)

  const POLL_LIMIT: nat := 10

  function Rank(status: Status): nat {
    match status
    case Pending => 0
    case Sent => 1
    case Acked => 2
  }

  // ---- The statements ----

  type Table = map<Id, Command>

  function PendingOf(commands: Table, device: DeviceId): set<Id> {
    set id | id in commands && commands[id].device == device && commands[id].status == Pending
  }

  function CreationTimes(commands: Table): map<Id, int> {
    map id | id in commands :: commands[id].createdAt
  }

  /** What the poll's query may return. */
  ghost predicate IsOldest(commands: Table, device: DeviceId, ids: seq<Id>) {
    IsLeast(PendingOf(commands, device), CreationTimes(commands), POLL_LIMIT, ids)
  }

  /** The query in plain words: at most ten of the device's pending commands, none left out for a younger one. */
  lemma OldestMeans(commands: Table, device: DeviceId, ids: seq<Id>)
    requires IsOldest(commands, device, ids)
    ensures |ids| <= 10 && forall i, j :: 0 <= i < j < |ids| ==> ids[i] != ids[j]
    ensures forall id :: id in ids ==> id in commands && commands[id].device == device && commands[id].status == Pending
    ensures forall i, j :: 0 <= i < j < |ids| ==> commands[ids[i]].createdAt <= commands[ids[j]].createdAt
    ensures forall id :: id in commands && commands[id].device == device && commands[id].status == Pending && id !in ids ==>
              |ids| == 10 && forall k :: 0 <= k < |ids| ==> commands[ids[k]].createdAt <= commands[id].createdAt
  {
    var pending, times := PendingOf(commands, device), CreationTimes(commands);
    LeastMeans(pending, times, POLL_LIMIT, ids);
    forall i | 0 <= i < |ids| ensures ids[i] in pending {
      assert ids[i] in ids;
    }
  }

  /** The update names ids only: it does not look at the status it overwrites. */
  function MarkSent(commands: Table, ids: seq<Id>): Table {
    map id | id in commands :: if id in ids then commands[id].(status := Sent) else commands[id]
  }

  function Acknowledge(commands: Table, id: Id, body: string): Table {
    if id in commands then commands[id := commands[id].(status := Acked, response := Some(body))] else commands
  }

  // ---- The report's id: the first match of ID=([^&\s]+) ----

  predicate IdChar(c: char) {
    c != '&' && !IsSpace(c)
  }

  function IdRun(s: string): (run: string)
    ensures run <= s
    ensures forall i :: 0 <= i < |run| ==> IdChar(run[i])
    ensures |run| < |s| ==> !IdChar(s[|run|])
  {
    if s != [] && IdChar(s[0]) then [s[0]] + IdRun(s[1..]) else []
  }

  predicate MatchesAt(s: string) {
    |s| > 3 && s[..3] == "ID=" && IdChar(s[3])
  }

  function ExtractId(body: string): Option<string> {
    if body == [] then None
    else if MatchesAt(body) then Some(IdRun(body[3..]))
    else ExtractId(body[1..])
  }

  /** The match is the leftmost one, and the id extends as far as it can. */
  lemma {:induction false} ExtractsTheFirst(body: string, at: nat)
    requires at < |body| && MatchesAt(body[at..])
    requires forall i :: 0 <= i < at ==> !MatchesAt(body[i..])
    ensures ExtractId(body) == Some(IdRun(body[at + 3..]))
  {
    if at > 0 {
      assert body[0..] == body && !MatchesAt(body[0..]);
      assert body[1..][at - 1..] == body[at..] && body[1..][at + 2..] == body[at + 3..];
      forall i | 0 <= i < at - 1 ensures !MatchesAt(body[1..][i..]) {
        assert body[1..][i..] == body[i + 1..];
      }
      ExtractsTheFirst(body[1..], at - 1);
    } else {
      assert body[0..] == body;
    }
  }

  lemma {:induction false} ExtractsIffMatches(body: string)
    ensures ExtractId(body).Some? <==> exists i :: 0 <= i < |body| && MatchesAt(body[i..])
  {
    if body != [] {
      var tail := body[1..];
      assert body[0..] == body;
      assert forall i :: 0 <= i < |tail| ==> tail[i..] == body[i + 1..];
      assert forall i :: 1 <= i < |body| ==> body[i..] == tail[i - 1..];
      ExtractsIffMatches(tail);
    }
  }

  /** "ID=" stands here, before a character that is neither an ampersand nor white space. */
  predicate NamesAt(body: string, i: nat) {
    && i < |body| - 3
    && body[i] == 'I' && body[i + 1] == 'D' && body[i + 2] == '='
    && body[i + 3] != '&' && !IsSpace(body[i + 3])
  }

  lemma NamesWhereItMatches(body: string, i: nat)
    requires i < |body|
    ensures MatchesAt(body[i..]) <==> NamesAt(body, i)
  {
    if i < |body| - 3 {
      assert body[i..][..3] == [body[i], body[i + 1], body[i + 2]];
    }
  }

  /** There is an id to read if and only if one is named somewhere. */
  lemma AnIdIsReadIff(body: string)
    ensures ExtractId(body).Some? <==> exists i: nat :: NamesAt(body, i)
  {
    ExtractsIffMatches(body);
    forall i | 0 <= i < |body| ensures MatchesAt(body[i..]) <==> NamesAt(body, i) {
      NamesWhereItMatches(body, i);
    }
  }

  lemma {:induction false} IdRunStops(id: string, rest: string)
    requires forall i :: 0 <= i < |id| ==> IdChar(id[i])
    requires rest != [] ==> !IdChar(rest[0])
    ensures IdRun(id + rest) == id
  {
    if id != [] {
      assert (id + rest)[1..] == id[1..] + rest;
      IdRunStops(id[1..], rest);
    } else {
      assert id + rest == rest;
    }
  }

  lemma ExtractedHere(body: string, id: string)
    requires MatchesAt(body) && IdRun(body[3..]) == id
    ensures ExtractId(body) == Some(id)
  {
  }

  lemma ReportMatches(body: string, id: string, rest: string)
    requires id != "" && IdChar(id[0])
    requires body == "ID=" + id + rest
    ensures MatchesAt(body) && body[3..] == id + rest
  {
    assert body[..3] == "ID=" && body[3] == id[0];
  }

  /** A report "ID=<id>&..." or "ID=<id>" names its command, whatever fields follow. */
  lemma ReportNamesItsCommand(body: string, id: string, rest: string)
    requires id != "" && forall i :: 0 <= i < |id| ==> IdChar(id[i])
    requires rest != [] ==> !IdChar(rest[0])
    requires body == "ID=" + id + rest
    ensures ExtractId(body) == Some(id)
  {
    ReportMatches(body, id, rest);
    IdRunStops(id, rest);
    ExtractedHere(body, id);
  }

  /** An id ends at an ampersand, at white space, or with the report. */
  lemma ReportFormats(id: string, rest: string, c: char)
    requires id != "" && '&' !in id && (forall i :: 0 <= i < |id| ==> !IsSpace(id[i])) && IsSpace(c)
    ensures ExtractId("ID=" + id + "&" + rest) == Some(id)
    ensures ExtractId("ID=" + id + [c] + rest) == Some(id)
    ensures ExtractId("ID=" + id) == Some(id)
  {
    assert "ID=" + id + "&" + rest == "ID=" + id + ("&" + rest);
    assert "ID=" + id + [c] + rest == "ID=" + id + ([c] + rest);
    assert "ID=" + id == "ID=" + id + "";
    ReportNamesItsCommand("ID=" + id + "&" + rest, id, "&" + rest);
    ReportNamesItsCommand("ID=" + id + [c] + rest, id, [c] + rest);
    ReportNamesItsCommand("ID=" + id, id, "");
  }

  /** Wherever the report names an id first, that is the id read, up to an ampersand, white space or the end. */
  lemma FirstIdIsTaken(before: string, id: string, rest: string, body: string)
    requires id != "" && '&' !in id && (forall i :: 0 <= i < |id| ==> !IsSpace(id[i]))
    requires rest == "" || rest[0] == '&' || IsSpace(rest[0])
    requires body == before + ("ID=" + id + rest)
    requires forall i :: 0 <= i < |before| ==> !NamesAt(body, i)
    ensures ExtractId(body) == Some(id)
  {
    ReportMatches(body[|before|..], id, rest);
    assert body[|before| + 3..] == id + rest;
    forall i | 0 <= i < |before| ensures !MatchesAt(body[i..]) {
      NamesWhereItMatches(body, i);
    }
    ExtractsTheFirst(body, |before|);
    IdRunStops(id, rest);
  }

  /** The table after a report. */
  function AfterReport(commands: Table, body: string): Table {
    match ExtractId(body)
    case Some(id) => Acknowledge(commands, id, body)
    case None => commands
  }

  /** A report "ID=<id>&..." acknowledges that command, if there is one, and touches nothing else. */
  lemma ReportAcknowledges(commands: Table, id: Id, rest: string, body: string)
    requires id != "" && '&' !in id && (forall i :: 0 <= i < |id| ==> !IsSpace(id[i]))
    requires body == "ID=" + id + "&" + rest || body == "ID=" + id
    ensures var after := AfterReport(commands, body);
            && after.Keys == commands.Keys
            && (forall x :: x in commands && x != id ==> after[x] == commands[x])
            && (id in commands ==>
                  && after[id].status == Acked && after[id].response == Some(body)
                  && after[id].device == commands[id].device && after[id].text == commands[id].text
                  && after[id].createdAt == commands[id].createdAt)
  {
    ReportFormats(id, rest, ' ');
  }

  // ---- The handlers ----

  function Line(commands: Table, id: Id): string
    requires id in commands
  {
    "C:" + id + ":" + commands[id].text
  }

  function LinesOf(commands: Table, ids: seq<Id>): (lines: seq<string>)
    requires forall id :: id in ids ==> id in commands
    ensures |lines| == |ids|
  {
    seq(|ids|, i requires 0 <= i < |ids| => Line(commands, ids[i]))
  }

  lemma LineReadsBack(line: string, id: string, text: string)
    requires ':' !in id && line == "C:" + id + ":" + text
    ensures Split(line, ':') == ["C", id] + Split(text, ':')
  {
    var head := "C";
    assert line == head + [':'] + (id + [':'] + text);
    SplitAtFirst(head, ':', id + [':'] + text);
    SplitAtFirst(id, ':', text);
    assert ["C"] + ([id] + Split(text, ':')) == ["C", id] + Split(text, ':');
  }

  lemma {:induction false} JoinWithFinalNewline(lines: seq<string>)
    requires lines != []
    ensures Join(lines, '\n') + "\n" == Join(lines + [""], '\n')
  {
    assert (lines + [""])[1..] == lines[1..] + [""];
    if |lines| > 1 {
      JoinWithFinalNewline(lines[1..]);
    } else {
      assert Join(lines + [""], '\n') == lines[0] + "\n" + Join([""], '\n');
    }
  }

  function NewlinesIn(lines: seq<string>): nat {
    if lines == [] then 0 else Occurrences(lines[0], '\n') + NewlinesIn(lines[1..])
  }

  lemma {:induction false} BodyNewlines(lines: seq<string>, body: string)
    requires lines != [] && body == Join(lines, '\n') + "\n"
    ensures Occurrences(body, '\n') == NewlinesIn(lines) + |lines|
  {
    var first := lines[0];
    assert Occurrences("\n", '\n') == 1;
    if |lines| == 1 {
      OccurrencesConcat(first, "\n", '\n');
      assert NewlinesIn(lines[1..]) == 0;
    } else {
      var rest := Join(lines[1..], '\n') + "\n";
      assert body == first + ("\n" + rest);
      OccurrencesConcat(first, "\n" + rest, '\n');
      OccurrencesConcat("\n", rest, '\n');
      BodyNewlines(lines[1..], rest);
    }
  }

  lemma {:induction false} NoNewlinesMeans(lines: seq<string>)
    ensures NewlinesIn(lines) == 0 <==> forall i :: 0 <= i < |lines| ==> '\n' !in lines[i]
  {
    if lines != [] {
      OccursIffCounted(lines[0], '\n');
      NoNewlinesMeans(lines[1..]);
    }
  }

  /** Read line by line and colon by colon, the body gives every command's id and text back in order. */
  ghost predicate ReadsBack(commands: Table, ids: seq<Id>, body: string)
    requires forall id :: id in ids ==> id in commands
  {
    var lines := Split(body, '\n');
    && |lines| == |ids| + 1 && lines[|ids|] == ""
    && forall i :: 0 <= i < |ids| ==> Split(lines[i], ':') == ["C", ids[i]] + Split(commands[ids[i]].text, ':')
  }

  lemma LineHasNewline(line: string, id: string, text: string)
    requires line == "C:" + id + ":" + text && '\n' !in id
    ensures '\n' in line <==> '\n' in text
  {
    if '\n' in text {
      var k :| 0 <= k < |text| && text[k] == '\n';
      assert line[|line| - |text| + k] == '\n';
    }
  }

  /** The body reads back, and has a line for each command and no more, if and only if no text holds a newline. */
  lemma PrintedBodyReadsBackExactly(commands: Table, ids: seq<Id>, body: string)
    requires ids != [] && forall id :: id in ids ==> id in commands && ':' !in id && '\n' !in id
    requires body == Join(LinesOf(commands, ids), '\n') + "\n"
    ensures ReadsBack(commands, ids, body) <==> forall id :: id in ids ==> '\n' !in commands[id].text
    ensures |Split(body, '\n')| == |ids| + 1 <==> forall id :: id in ids ==> '\n' !in commands[id].text
  {
    var lines := LinesOf(commands, ids);
    SplitCounts(body, '\n');
    BodyNewlines(lines, body);
    NoNewlinesMeans(lines);
    forall i | 0 <= i < |ids|
      ensures '\n' in lines[i] <==> '\n' in commands[ids[i]].text
      ensures Split(lines[i], ':') == ["C", ids[i]] + Split(commands[ids[i]].text, ':')
    {
      LineHasNewline(lines[i], ids[i], commands[ids[i]].text);
      LineReadsBack(lines[i], ids[i], commands[ids[i]].text);
    }
    if NewlinesIn(lines) == 0 {
      JoinWithFinalNewline(lines);
      SplitOfJoin(lines + [""], '\n');
    }
  }

  /** A text with a newline is printed as two lines, and the second may read as another command. */
  lemma NewlineSplitsALine(commands: Table, id: Id, other: Id, a: string, b: string, body: string)
    requires id in commands && commands[id].text == a + "\nC:" + other + ":" + b
    requires '\n' !in id && '\n' !in other && '\n' !in a && '\n' !in b
    requires body == Join(LinesOf(commands, [id]), '\n') + "\n"
    ensures Split(body, '\n') == ["C:" + id + ":" + a, "C:" + other + ":" + b, ""]
  {
    var first, second := "C:" + id + ":" + a, "C:" + other + ":" + b;
    assert LinesOf(commands, [id]) == [Line(commands, id)];
    assert body == first + ['\n'] + (second + ['\n'] + "");
    SplitAtFirst(first, '\n', second + ['\n'] + "");
    SplitAtFirst(second, '\n', "");
    assert Split("", '\n') == [""];
  }

  /** The two handlers, each run without interruption, once the device is resolved and trusted. */
  class CommandQueue {
    var commands: Table

    method HandleGetRequest(device: DeviceId) returns (body: string, ids: seq<Id>)
      modifies this
      ensures IsOldest(old(commands), device, ids)
      ensures commands == MarkSent(old(commands), ids) && commands.Keys == old(commands).Keys
      ensures forall id :: id in ids ==> id in old(commands) && commands[id] == old(commands)[id].(status := Sent)
      ensures forall id :: id in old(commands) && id !in ids ==> commands[id] == old(commands)[id]
      ensures body == if ids == [] then "OK" else Join(LinesOf(old(commands), ids), '\n') + "\n"
    {
      ids := SelectLeast(PendingOf(commands, device), CreationTimes(commands), POLL_LIMIT);
      assert forall id :: id in ids ==> id in PendingOf(commands, device);
      if |ids| == 0 {
        assert MarkSent(commands, ids) == commands;
        return "OK", ids;
      }
      body := Join(LinesOf(commands, ids), '\n') + "\n";
      commands := MarkSent(commands, ids);
    }

    method HandleDeviceCmd(body: string)
      modifies this
      ensures commands == AfterReport(old(commands), body)
    {
      var idMatch := ExtractId(body);
      if idMatch.Some? && idMatch.value in commands {
        commands := commands[idMatch.value := commands[idMatch.value].(status := Acked, response := Some(body))];
      }
    }
  }

  // ---- Runs: the two statements of a poll are separate steps ----

  /** One printed command, as it was when the poll read it. */
  datatype Emission = Emission(id: Id, device: DeviceId, createdAt: int)

  /** A poll between its two statements. */
  datatype Poll = Poll(device: DeviceId, batch: seq<Emission>)

  datatype State = State(now: int, commands: Table, polls: map<PollId, Poll>, emitted: seq<Emission>, used: set<Id>)

  datatype Step =
    | Enqueue(id: Id, device: DeviceId, text: string)
    | Read(p: PollId, device: DeviceId, ids: seq<Id>)
    | Mark(p: PollId)
    | Drop(p: PollId)
    | Ack(id: Id, body: string)
    | Purge(targets: set<Id>)
    | Advance(dt: nat)

  ghost predicate Enabled(s: State, step: Step) {
    match step
    case Enqueue(id, _, _) => id !in s.used
    case Read(p, device, ids) => p !in s.polls && IsOldest(s.commands, device, ids)
    case Mark(p) => p in s.polls
    case Drop(p) => p in s.polls
    case Ack(_, _) => true
    case Purge(_) => true
    case Advance(_) => true
  }

  function Emissions(commands: Table, device: DeviceId, ids: seq<Id>): (batch: seq<Emission>)
    ensures |batch| == |ids|
    ensures forall i :: 0 <= i < |ids| ==>
              batch[i] == Emission(ids[i], device, if ids[i] in commands then commands[ids[i]].createdAt else 0)
  {
    seq(|ids|, i requires 0 <= i < |ids| =>
      Emission(ids[i], device, if ids[i] in commands then commands[ids[i]].createdAt else 0))
  }

  function IdsOf(batch: seq<Emission>): (ids: seq<Id>)
    ensures |ids| == |batch|
    ensures forall i :: 0 <= i < |batch| ==> ids[i] == batch[i].id
  {
    seq(|batch|, i requires 0 <= i < |batch| => batch[i].id)
  }

  function Next(s: State, step: Step): State {
    match step
    case Enqueue(id, device, text) =>
      s.(commands := s.commands[id := Command(device, text, Pending, s.now, None)], used := s.used + {id})
    case Read(p, device, ids) =>
      if ids == [] then s else s.(polls := s.polls[p := Poll(device, Emissions(s.commands, device, ids))])
    case Mark(p) =>
      if p !in s.polls then s
      else s.(commands := MarkSent(s.commands, IdsOf(s.polls[p].batch)), polls := s.polls - {p},
              emitted := s.emitted + s.polls[p].batch)
    case Drop(p) => s.(polls := s.polls - {p})
    case Ack(id, body) => s.(commands := Acknowledge(s.commands, id, body))
    case Purge(ids) => s.(commands := s.commands - ids)
    case Advance(dt) => s.(now := s.now + dt)
  }

  /** Enqueueing, purging and the passing of time, in plain words. */
  lemma QuietStepsWrite(s: State, id: Id, device: DeviceId, text: string, targets: set<Id>, dt: nat)
    ensures Enabled(s, Enqueue(id, device, text)) <==> id !in s.used
    ensures var t := Next(s, Enqueue(id, device, text));
            t.commands.Keys == s.commands.Keys + {id} && t.commands[id] == Command(device, text, Pending, s.now, None)
            && (forall x :: x in s.commands && x != id ==> t.commands[x] == s.commands[x])
            && t == State(s.now, t.commands, s.polls, s.emitted, s.used + {id})
    ensures Enabled(s, Purge(targets)) && Enabled(s, Advance(dt))
    ensures var t := Next(s, Purge(targets));
            t.commands.Keys == s.commands.Keys - targets
            && (forall x :: x in t.commands ==> t.commands[x] == s.commands[x])
            && t == State(s.now, t.commands, s.polls, s.emitted, s.used)
    ensures Next(s, Advance(dt)) == State(s.now + dt, s.commands, s.polls, s.emitted, s.used)
  {
  }

  function Run(s: State, steps: seq<Step>): State
    decreases |steps|
  {
    if steps == [] then s else Run(Next(s, steps[0]), steps[1..])
  }

  /** A device's requests follow one another: no poll while one is open, no report on what is not yet sent. */
  ghost predicate OneAtATime(s: State, step: Step) {
    match step
    case Read(_, device, _) => forall p :: p in s.polls ==> s.polls[p].device != device
    case Ack(id, _) => forall p :: p in s.polls ==> id !in IdsOf(s.polls[p].batch)
    case _ => true
  }

  ghost predicate Orderly(s: State, steps: seq<Step>)
    decreases |steps|
  {
    steps == [] || (Enabled(s, steps[0]) && OneAtATime(s, steps[0]) && Orderly(Next(s, steps[0]), steps[1..]))
  }

  // ---- What orderly runs keep ----

  /** Different commands, and of one device the older one first. */
  predicate Before(d: Emission, e: Emission) {
    d.id != e.id && (d.device == e.device ==> d.createdAt <= e.createdAt)
  }

  predicate InOrder(emitted: seq<Emission>) {
    forall i, j :: 0 <= i < j < |emitted| ==> Before(emitted[i], emitted[j])
  }

  /** A pending command of this device that is not in `batch`. */
  predicate Waits(commands: Table, id: Id, device: DeviceId, batch: seq<Emission>) {
    id in commands && commands[id].device == device && commands[id].status == Pending && id !in IdsOf(batch)
  }

  /** A command once printed: never pending again, and no older one of its device is. */
  ghost predicate Printed(s: State, e: Emission) {
    && e.id in s.used && e.createdAt <= s.now
    && (e.id in s.commands ==> s.commands[e.id].status != Pending)
    && forall id :: Waits(s.commands, id, e.device, []) ==> e.createdAt <= s.commands[id].createdAt
  }

  /** A command an open poll has read: still pending, and no older one is left out. */
  ghost predicate Held(s: State, poll: Poll, e: Emission) {
    && e.id in s.used && e.createdAt <= s.now && e.device == poll.device
    && (e.id in s.commands ==> s.commands[e.id].status == Pending && s.commands[e.id].device == e.device
                               && s.commands[e.id].createdAt == e.createdAt)
    && forall id :: Waits(s.commands, id, e.device, poll.batch) ==> e.createdAt <= s.commands[id].createdAt
  }

  ghost predicate PollSane(s: State, p: PollId)
    requires p in s.polls
  {
    && InOrder(s.emitted + s.polls[p].batch)
    && forall e :: e in s.polls[p].batch ==> Held(s, s.polls[p], e)
  }

  ghost predicate Apart(a: Poll, b: Poll) {
    a.device != b.device && forall d, e :: d in a.batch && e in b.batch ==> d.id != e.id
  }

  ghost predicate Sane(s: State) {
    && (forall id :: id in s.commands ==> id in s.used && s.commands[id].createdAt <= s.now)
    && InOrder(s.emitted)
    && (forall e :: e in s.emitted ==> Printed(s, e))
    && (forall p :: p in s.polls ==> PollSane(s, p))
    && (forall p, q :: p in s.polls && q in s.polls && p != q ==> Apart(s.polls[p], s.polls[q]))
  }

  lemma StepKeepsPrinted(s: State, step: Step, e: Emission)
    requires Sane(s) && Enabled(s, step) && OneAtATime(s, step) && e in s.emitted
    ensures Printed(Next(s, step), e)
  {
    assert Printed(s, e);
    var t := Next(s, step);
    forall id | Waits(t.commands, id, e.device, []) ensures e.createdAt <= t.commands[id].createdAt {
      assert (step.Enqueue? && id == step.id) || Waits(s.commands, id, e.device, []);
    }
  }

  lemma StepKeepsHeld(s: State, step: Step, p: PollId, e: Emission)
    requires Sane(s) && Enabled(s, step) && OneAtATime(s, step)
    requires p in s.polls && p in Next(s, step).polls && e in s.polls[p].batch
    ensures Next(s, step).polls[p] == s.polls[p] && Held(Next(s, step), s.polls[p], e)
  {
    assert PollSane(s, p) && Held(s, s.polls[p], e);
    var t := Next(s, step);
    var batch := s.polls[p].batch;
    assert e.id in IdsOf(batch);
    forall id | Waits(t.commands, id, e.device, batch) ensures e.createdAt <= t.commands[id].createdAt {
      assert (step.Enqueue? && id == step.id) || Waits(s.commands, id, e.device, batch);
    }
  }

  lemma ReadHolds(s: State, p: PollId, device: DeviceId, ids: seq<Id>, i: nat)
    requires Sane(s) && Enabled(s, Read(p, device, ids)) && i < |ids|
    ensures var poll := Poll(device, Emissions(s.commands, device, ids));
            Held(s, poll, poll.batch[i])
    ensures ids[i] in s.commands && s.commands[ids[i]].status == Pending && s.commands[ids[i]].device == device
  {
    var poll := Poll(device, Emissions(s.commands, device, ids));
    assert ids[i] in PendingOf(s.commands, device);
    forall id | Waits(s.commands, id, device, poll.batch) ensures poll.batch[i].createdAt <= s.commands[id].createdAt {
      assert IdsOf(poll.batch) == ids;
      assert id in PendingOf(s.commands, device);
      assert NoLater(CreationTimes(s.commands), ids[i], id);
    }
  }

  lemma ReadInOrder(s: State, p: PollId, device: DeviceId, ids: seq<Id>)
    requires Sane(s) && Enabled(s, Read(p, device, ids))
    ensures InOrder(s.emitted + Emissions(s.commands, device, ids))
  {
    var batch := Emissions(s.commands, device, ids);
    forall i, j | 0 <= i < j < |s.emitted + batch| ensures Before((s.emitted + batch)[i], (s.emitted + batch)[j]) {
      if j >= |s.emitted| {
        var k := j - |s.emitted|;
        ReadHolds(s, p, device, ids, k);
        if i < |s.emitted| {
          assert Printed(s, s.emitted[i]);
          assert Waits(s.commands, ids[k], device, []);
        } else {
          ReadHolds(s, p, device, ids, i - |s.emitted|);
          assert NoLater(CreationTimes(s.commands), ids[i - |s.emitted|], ids[k]);
        }
      }
    }
  }

  lemma ReadApart(s: State, p: PollId, device: DeviceId, ids: seq<Id>, q: PollId)
    requires Sane(s) && Enabled(s, Read(p, device, ids)) && OneAtATime(s, Read(p, device, ids)) && q in s.polls
    ensures var poll := Poll(device, Emissions(s.commands, device, ids));
            Apart(poll, s.polls[q]) && Apart(s.polls[q], poll)
  {
    var batch := Emissions(s.commands, device, ids);
    forall d, e | d in batch && e in s.polls[q].batch ensures d.id != e.id {
      var i :| 0 <= i < |batch| && batch[i] == d;
      ReadHolds(s, p, device, ids, i);
      assert PollSane(s, q) && Held(s, s.polls[q], e);
    }
  }

  lemma ReadSane(s: State, p: PollId, device: DeviceId, ids: seq<Id>)
    requires Sane(s) && Enabled(s, Read(p, device, ids)) && OneAtATime(s, Read(p, device, ids))
    ensures Sane(Next(s, Read(p, device, ids)))
  {
    if ids != [] {
      var t := Next(s, Read(p, device, ids));
      forall e | e in t.emitted ensures Printed(t, e) { StepKeepsPrinted(s, Read(p, device, ids), e); }
      forall q | q in t.polls ensures PollSane(t, q) {
        if q == p {
          ReadInOrder(s, p, device, ids);
          forall e | e in t.polls[p].batch ensures Held(t, t.polls[p], e) {
            var i :| 0 <= i < |ids| && t.polls[p].batch[i] == e;
            ReadHolds(s, p, device, ids, i);
          }
        } else {
          assert PollSane(s, q);
          forall e | e in s.polls[q].batch ensures Held(t, s.polls[q], e) {
            StepKeepsHeld(s, Read(p, device, ids), q, e);
          }
        }
      }
      forall q | q in s.polls ensures Apart(t.polls[p], s.polls[q]) && Apart(s.polls[q], t.polls[p]) {
        ReadApart(s, p, device, ids, q);
      }
    }
  }

  lemma MarkPrints(s: State, p: PollId, e: Emission)
    requires Sane(s) && p in s.polls && e in s.polls[p].batch
    ensures Printed(Next(s, Mark(p)), e)
  {
    var t := Next(s, Mark(p));
    var batch := s.polls[p].batch;
    assert PollSane(s, p) && Held(s, s.polls[p], e);
    var i :| 0 <= i < |batch| && batch[i] == e;
    assert IdsOf(batch)[i] == e.id;
    forall id | Waits(t.commands, id, e.device, []) ensures e.createdAt <= t.commands[id].createdAt {
      assert Waits(s.commands, id, e.device, batch);
    }
  }

  lemma MarkInOrder(s: State, p: PollId, q: PollId)
    requires Sane(s) && p in s.polls && q in s.polls && p != q
    ensures InOrder(s.emitted + s.polls[p].batch + s.polls[q].batch)
  {
    assert PollSane(s, p) && PollSane(s, q) && Apart(s.polls[p], s.polls[q]);
    var a, b, c := s.emitted, s.polls[p].batch, s.polls[q].batch;
    var all := a + b + c;
    forall i, j | 0 <= i < j < |all| ensures Before(all[i], all[j]) {
      if j < |a + b| {
        assert all[i] == (a + b)[i] && all[j] == (a + b)[j];
      } else {
        assert all[j] == (a + c)[j - |b|] && all[j] in c;
        if i < |a| {
          assert all[i] == (a + c)[i];
        } else if i < |a + b| {
          assert all[i] in b;
          assert Held(s, s.polls[p], all[i]) && Held(s, s.polls[q], all[j]);
        } else {
          assert all[i] == (a + c)[i - |b|];
        }
      }
    }
  }

  lemma MarkSane(s: State, p: PollId)
    requires Sane(s) && p in s.polls
    ensures Sane(Next(s, Mark(p)))
  {
    var t := Next(s, Mark(p));
    assert PollSane(s, p);
    forall e | e in t.emitted ensures Printed(t, e) {
      if e in s.emitted {
        StepKeepsPrinted(s, Mark(p), e);
      } else {
        MarkPrints(s, p, e);
      }
    }
    forall q | q in t.polls ensures PollSane(t, q) {
      MarkInOrder(s, p, q);
      forall e | e in s.polls[q].batch ensures Held(t, s.polls[q], e) { StepKeepsHeld(s, Mark(p), q, e); }
    }
  }

  /** Every other step leaves the emitted commands as they are. */
  lemma OtherStepSane(s: State, step: Step)
    requires Sane(s) && Enabled(s, step) && OneAtATime(s, step) && !step.Read? && !step.Mark?
    ensures Sane(Next(s, step))
  {
    var t := Next(s, step);
    forall e | e in t.emitted ensures Printed(t, e) { StepKeepsPrinted(s, step, e); }
    forall q | q in t.polls ensures PollSane(t, q) {
      assert PollSane(s, q);
      forall e | e in s.polls[q].batch ensures Held(t, s.polls[q], e) { StepKeepsHeld(s, step, q, e); }
    }
  }

  lemma StepSane(s: State, step: Step)
    requires Sane(s) && Enabled(s, step) && OneAtATime(s, step)
    ensures Sane(Next(s, step))
  {
    match step
    case Read(p, device, ids) => ReadSane(s, p, device, ids);
    case Mark(p) => MarkSane(s, p);
    case _ => OtherStepSane(s, step);
  }

  lemma {:induction false} RunSane(s: State, steps: seq<Step>)
    requires Sane(s) && Orderly(s, steps)
    ensures Sane(Run(s, steps))
    decreases |steps|
  {
    if steps != [] {
      StepSane(s, steps[0]);
      RunSane(Next(s, steps[0]), steps[1..]);
    }
  }

  predicate Fresh(s: State) {
    s.commands == map[] && s.polls == map[] && s.emitted == [] && s.used == {}
  }

  /** Over a whole orderly run no command is printed twice, and each device gets its commands oldest first. */
  lemma PrintedOnceInOrder(s: State, steps: seq<Step>)
    requires Fresh(s) && Orderly(s, steps)
    ensures var emitted := Run(s, steps).emitted;
            forall i, j :: 0 <= i < j < |emitted| ==>
              && emitted[i].id != emitted[j].id
              && (emitted[i].device == emitted[j].device ==> emitted[i].createdAt <= emitted[j].createdAt)
  {
    RunSane(s, steps);
    var emitted := Run(s, steps).emitted;
    forall i, j | 0 <= i < j < |emitted|
      ensures emitted[i].id != emitted[j].id
      ensures emitted[i].device == emitted[j].device ==> emitted[i].createdAt <= emitted[j].createdAt
    {
      assert Before(emitted[i], emitted[j]);
    }
  }

  /** A status only rises, as long as the command is kept. */
  lemma StatusRises(s: State, step: Step, id: Id)
    requires Sane(s) && Enabled(s, step) && OneAtATime(s, step)
    requires id in s.commands && id in Next(s, step).commands
    ensures Rank(s.commands[id].status) <= Rank(Next(s, step).commands[id].status)
  {
    if step.Mark? && id in IdsOf(s.polls[step.p].batch) {
      var batch := s.polls[step.p].batch;
      var i :| 0 <= i < |batch| && IdsOf(batch)[i] == id;
      assert PollSane(s, step.p) && Held(s, s.polls[step.p], batch[i]);
    }
  }

  lemma {:induction false} GoneStaysGone(s: State, steps: seq<Step>, id: Id)
    requires Orderly(s, steps) && id in s.used && id !in s.commands
    ensures id !in Run(s, steps).commands
    decreases |steps|
  {
    if steps != [] {
      GoneStaysGone(Next(s, steps[0]), steps[1..], id);
    }
  }

  lemma {:induction false} StatusOnlyRises(s: State, steps: seq<Step>, id: Id)
    requires Sane(s) && Orderly(s, steps) && id in s.commands && id in Run(s, steps).commands
    ensures Rank(s.commands[id].status) <= Rank(Run(s, steps).commands[id].status)
    ensures s.commands[id].status == Acked ==> Run(s, steps).commands[id].status == Acked
    ensures s.commands[id].status != Pending ==> Run(s, steps).commands[id].status != Pending
    decreases |steps|
  {
    if steps != [] {
      var t := Next(s, steps[0]);
      StepSane(s, steps[0]);
      if id in t.commands {
        StatusRises(s, steps[0], id);
        StatusOnlyRises(t, steps[1..], id);
      } else {
        GoneStaysGone(t, steps[1..], id);
      }
    }
  }

  // ---- Draining ----

  /** The device polls, round after round, with nothing else going on. */
  ghost predicate Rounds(s: State, p: PollId, device: DeviceId, batches: seq<seq<Id>>)
    decreases |batches|
  {
    batches == [] ||
    (Enabled(s, Read(p, device, batches[0])) && Rounds(AfterRound(s, p, device, batches[0]), p, device, batches[1..]))
  }

  function AfterRound(s: State, p: PollId, device: DeviceId, ids: seq<Id>): State {
    Next(Next(s, Read(p, device, ids)), Mark(p))
  }

  function AfterRounds(s: State, p: PollId, device: DeviceId, batches: seq<seq<Id>>): State
    decreases |batches|
  {
    if batches == [] then s else AfterRounds(AfterRound(s, p, device, batches[0]), p, device, batches[1..])
  }

  function Min(a: nat, b: nat): nat {
    if a < b then a else b
  }

  lemma {:induction false} DistinctCounts(ids: seq<Id>, all: set<Id>)
    requires Distinct(ids) && all == set id | id in ids
    ensures |all| == |ids|
    decreases |ids|
  {
    if ids != [] {
      var last := |ids| - 1;
      var front := set id | id in ids[..last];
      assert all == front + {ids[last]};
      DistinctCounts(ids[..last], front);
    }
  }

  lemma RoundDrains(s: State, p: PollId, device: DeviceId, ids: seq<Id>)
    requires Enabled(s, Read(p, device, ids))
    ensures var t := AfterRound(s, p, device, ids);
            var n := |PendingOf(s.commands, device)|;
            && |t.emitted| == |s.emitted| + Min(POLL_LIMIT, n)
            && |PendingOf(t.commands, device)| == n - Min(POLL_LIMIT, n)
            && p !in t.polls
  {
    var before := PendingOf(s.commands, device);
    var t := AfterRound(s, p, device, ids);
    var taken := set id | id in ids;
    DistinctCounts(ids, taken);
    assert taken <= before;
    assert PendingOf(t.commands, device) == before - taken by {
      if ids != [] {
        assert IdsOf(Emissions(s.commands, device, ids)) == ids;
      }
    }
    assert |before - taken| == |before| - |taken|;
    if |ids| < POLL_LIMIT {
      assert before == taken;
    }
  }

  /** k polls print exactly min(10k, n) of the n pending commands and leave the rest pending. */
  lemma {:induction false} PollsDrain(s: State, p: PollId, device: DeviceId, batches: seq<seq<Id>>)
    requires Rounds(s, p, device, batches)
    ensures var n, k := |PendingOf(s.commands, device)|, |batches|;
            var end := AfterRounds(s, p, device, batches);
            && |end.emitted| == |s.emitted| + Min(10 * k, n)
            && |PendingOf(end.commands, device)| == n - Min(10 * k, n)
    decreases |batches|
  {
    if batches != [] {
      RoundDrains(s, p, device, batches[0]);
      PollsDrain(AfterRound(s, p, device, batches[0]), p, device, batches[1..]);
    }
  }
}
