/**
 Registration of one serial number (src/adms/deviceLookup.ts) and its claim
 (src/admin/devices.ts): pings that run their SQL statements one by one, interleaved with each
 other, with claims, dismissals and edits in any order.
 */
module Registration {
  import opened Options

  type CompanyId = string
  type CallId = string
  type ClaimId = string

  /** The `pending_devices` row. */
  datatype Pending = Pending(secret: Option<string>, company: Option<CompanyId>, pingCount: nat)

  /** A `devices` row with this serial number. */
  datatype Device = Device(secret: string, company: CompanyId)

  datatype Reply = Trusted | Rejected | Unclaimed(isNew: bool)

  /** The statement a ping executes next, and what its first one reported. */
  datatype Pc =
    | AtCreate
    | AtBump(isNew: bool)
    | AtSecret(isNew: bool)
    | AtCompany(isNew: bool)
    | Answered(reply: Reply)

  datatype Call = Call(secret: Option<string>, company: Option<CompanyId>, pc: Pc)

  datatype ClaimRequest = ClaimRequest(superAdmin: bool, ownCompany: CompanyId, company: CompanyId)

  datatype ClaimPc =
    | Ready(deviceSecret: string, sawPending: bool, company: CompanyId)
    | Forbidden
    | Claimed
    | Conflict
    | NoSuchCompany
    | Errored

  datatype State = State(
    pending: Option<Pending>,
    devices: seq<Device>,
    calls: map<CallId, Call>,
    claims: map<ClaimId, ClaimPc>)

  datatype Step =
    | Arrive(c: CallId, secret: Option<string>, company: Option<CompanyId>)
    | Execute(c: CallId)
    | Fail(c: CallId, tookEffect: bool)   // a statement throws; it may have taken effect and lost its answer
    | ReadPending(k: ClaimId, request: ClaimRequest, fallback: string)
    | CommitClaim(k: ClaimId, companyExists: bool)
    | Dismiss
    | AddDevice(device: Device)
    | EditSecret(newSecret: string)
    | RemoveDevice

  // ---- The statements ----

  /** The truth value JavaScript gives an optional string. */
  predicate Truthy(x: Option<string>) {
    x.Some? && x.value != ""
  }

  /** `createMany` with `skipDuplicates`. */
  function CreateRow(p: Option<Pending>): Option<Pending> {
    if p.None? then Some(Pending(None, None, 0)) else p
  }

  function Bump(p: Option<Pending>): Option<Pending> {
    if p.None? then None else Some(p.value.(pingCount := p.value.pingCount + 1))
  }

  /** `SET secret ... WHERE secret IS NULL`. */
  function SetSecret(p: Option<Pending>, secret: Option<string>): Option<Pending> {
    if p.Some? && Truthy(secret) && p.value.secret.None? then Some(p.value.(secret := secret)) else p
  }

  function SetCompany(p: Option<Pending>, company: Option<CompanyId>): Option<Pending> {
    if p.Some? && Truthy(company) && p.value.company.None? then Some(p.value.(company := company)) else p
  }

  predicate IsDeviceRequestTrusted(deviceSecret: string, secretFromPath: Option<string>) {
    secretFromPath == Some(deviceSecret)
  }

  /** What the claim does with the row it read, before its transaction. */
  function Prepare(p: Option<Pending>, request: ClaimRequest, fallback: string): ClaimPc {
    if !request.superAdmin && request.ownCompany != request.company then Forbidden
    else if !request.superAdmin && p.Some? && Truthy(p.value.company) && p.value.company != Some(request.company)
    then Forbidden
    else
      Ready(if p.Some? && p.value.secret.Some? then p.value.secret.value else fallback, p.Some?, request.company)
  }

  /** The outcome of the claim transaction: unique key, foreign key, then the row to delete. */
  function Commit(pending: Option<Pending>, devices: seq<Device>, claim: ClaimPc, companyExists: bool): ClaimPc
    requires claim.Ready?
  {
    if devices != [] then Conflict
    else if !companyExists then NoSuchCompany
    else if claim.sawPending && pending.None? then Errored
    else Claimed
  }

  predicate Enabled(s: State, step: Step) {
    match step
    case Arrive(c, _, _) => c !in s.calls
    case Execute(c) => c in s.calls && !s.calls[c].pc.Answered?
    case Fail(c, _) => c in s.calls && !s.calls[c].pc.Answered?
    case ReadPending(k, _, _) => k !in s.claims
    case CommitClaim(k, _) => k in s.claims && s.claims[k].Ready?
    case Dismiss => true
    case AddDevice(_) => true
    case EditSecret(_) => true
    case RemoveDevice => true
  }

  /** `resolveDevice` up to the first statement of the upsert. */
  function Resolve(devices: seq<Device>, secret: Option<string>): Pc {
    if devices == [] then AtCreate
    else if IsDeviceRequestTrusted(devices[0].secret, secret) then Answered(Trusted)
    else Answered(Rejected)
  }

  function Statement(p: Option<Pending>, call: Call): (Option<Pending>, Pc)
    requires !call.pc.Answered?
  {
    match call.pc
    case AtCreate => (CreateRow(p), AtBump(p.None?))
    case AtBump(isNew) => (Bump(p), AtSecret(isNew))
    case AtSecret(isNew) => (SetSecret(p, call.secret), AtCompany(isNew))
    case AtCompany(isNew) => (SetCompany(p, call.company), Answered(Unclaimed(isNew)))
  }

  function Next(s: State, step: Step): State
    requires Enabled(s, step)
  {
    match step
    case Arrive(c, secret, company) =>
      s.(calls := s.calls[c := Call(secret, company, Resolve(s.devices, secret))])
    case Execute(c) =>
      var (row, pc) := Statement(s.pending, s.calls[c]);
      s.(pending := row, calls := s.calls[c := s.calls[c].(pc := pc)])
    case Fail(c, tookEffect) =>
      s.(pending := if tookEffect then Statement(s.pending, s.calls[c]).0 else s.pending,
         calls := s.calls[c := s.calls[c].(pc := Answered(Unclaimed(false)))])
    case ReadPending(k, request, fallback) =>
      s.(claims := s.claims[k := Prepare(s.pending, request, fallback)])
    case CommitClaim(k, companyExists) =>
      var claim := s.claims[k];
      var outcome := Commit(s.pending, s.devices, claim, companyExists);
      var t := s.(claims := s.claims[k := outcome]);
      if outcome != Claimed then t
      else t.(devices := [Device(claim.deviceSecret, claim.company)],
              pending := if claim.sawPending then None else s.pending)
    case Dismiss => s.(pending := None)
    case AddDevice(device) => if s.devices == [] then s.(devices := [device]) else s
    case EditSecret(secret) =>
      s.(devices := seq(|s.devices|, i requires 0 <= i < |s.devices| => s.devices[i].(secret := secret)))
    case RemoveDevice => s.(devices := [])
  }

  /** What administrators do besides claiming is never refused; each changes the pending row or the device, not both. */
  lemma AdministratorsWrite(s: State, device: Device, secret: string)
    ensures Enabled(s, Dismiss) && Next(s, Dismiss) == State(None, s.devices, s.calls, s.claims)
    ensures Enabled(s, RemoveDevice) && Next(s, RemoveDevice) == State(s.pending, [], s.calls, s.claims)
    ensures Enabled(s, AddDevice(device))
    ensures Next(s, AddDevice(device)) ==
            State(s.pending, if |s.devices| == 0 then [device] else s.devices, s.calls, s.claims)
    ensures Enabled(s, EditSecret(secret))
    ensures var t := Next(s, EditSecret(secret));
            t.pending == s.pending && t.calls == s.calls && t.claims == s.claims && |t.devices| == |s.devices|
            && forall i :: 0 <= i < |s.devices| ==> t.devices[i] == Device(secret, s.devices[i].company)
  {
  }

  /** The claim transaction on the rows as they are by then: it creates the device, or leaves everything alone. */
  lemma ClaimTransactionWrites(s: State, k: ClaimId, companyExists: bool, claim: ClaimPc)
    requires k in s.claims && s.claims[k] == claim && claim.Ready?
    ensures Enabled(s, CommitClaim(k, companyExists))
    ensures var t := Next(s, CommitClaim(k, companyExists));
            && t.calls == s.calls && t.claims.Keys == s.claims.Keys
            && (forall j :: j in s.claims && j != k ==> t.claims[j] == s.claims[j])
            && t.claims[k] == (if |s.devices| > 0 then Conflict
                               else if !companyExists then NoSuchCompany
                               else if claim.sawPending && s.pending == None then Errored
                               else Claimed)
            && (t.claims[k] != Claimed ==> t.pending == s.pending && t.devices == s.devices)
            && (t.claims[k] == Claimed ==>
                  && t.devices == [Device(claim.deviceSecret, claim.company)]
                  && t.pending == if claim.sawPending then None else s.pending)
  {
  }

  predicate Valid(s: State, steps: seq<Step>)
    decreases |steps|
  {
    steps == [] || (Enabled(s, steps[0]) && Valid(Next(s, steps[0]), steps[1..]))
  }

  function Run(s: State, steps: seq<Step>): State
    requires Valid(s, steps)
    decreases |steps|
  {
    if steps == [] then s else Run(Next(s, steps[0]), steps[1..])
  }

  // ---- One lifetime of the pending row ----

  ghost predicate Removes(s: State, step: Step) {
    Enabled(s, step) && s.pending.Some? && Next(s, step).pending.None?
  }

  /** A run in which the row, once there, is never removed. */
  ghost predicate Lifetime(s: State, steps: seq<Step>)
    decreases |steps|
  {
    steps == [] || (Enabled(s, steps[0]) && !Removes(s, steps[0]) && Lifetime(Next(s, steps[0]), steps[1..]))
  }

  /** A statement of a call takes effect in this step. */
  predicate Acts(s: State, step: Step) {
    (step.Execute? || (step.Fail? && step.tookEffect)) && step.c in s.calls
  }

  /** The secret this step tries to record, if the row is there to take it. */
  function OfferedSecret(s: State, step: Step): Option<string> {
    if Acts(s, step) && s.calls[step.c].pc.AtSecret? && s.pending.Some? && Truthy(s.calls[step.c].secret)
    then s.calls[step.c].secret else None
  }

  function OfferedCompany(s: State, step: Step): Option<CompanyId> {
    if Acts(s, step) && s.calls[step.c].pc.AtCompany? && s.pending.Some? && Truthy(s.calls[step.c].company)
    then s.calls[step.c].company else None
  }

  function FirstSecret(s: State, steps: seq<Step>): Option<string>
    requires Valid(s, steps)
    decreases |steps|
  {
    if steps == [] then None
    else if OfferedSecret(s, steps[0]).Some? then OfferedSecret(s, steps[0])
    else FirstSecret(Next(s, steps[0]), steps[1..])
  }

  function FirstCompany(s: State, steps: seq<Step>): Option<CompanyId>
    requires Valid(s, steps)
    decreases |steps|
  {
    if steps == [] then None
    else if OfferedCompany(s, steps[0]).Some? then OfferedCompany(s, steps[0])
    else FirstCompany(Next(s, steps[0]), steps[1..])
  }

  predicate Increments(s: State, step: Step) {
    Acts(s, step) && s.calls[step.c].pc.AtBump? && s.pending.Some?
  }

  function IncrementsIn(s: State, steps: seq<Step>): nat
    requires Valid(s, steps)
    decreases |steps|
  {
    if steps == [] then 0
    else (if Increments(s, steps[0]) then 1 else 0) + IncrementsIn(Next(s, steps[0]), steps[1..])
  }

  function Or(a: Option<string>, b: Option<string>): Option<string> {
    if a.Some? then a else b
  }

  lemma {:induction false} RowFollowsItsOffers(s: State, steps: seq<Step>)
    requires Lifetime(s, steps) && s.pending.Some?
    ensures Valid(s, steps) && Run(s, steps).pending.Some?
    ensures Run(s, steps).pending.value.secret == Or(s.pending.value.secret, FirstSecret(s, steps))
    ensures Run(s, steps).pending.value.company == Or(s.pending.value.company, FirstCompany(s, steps))
    ensures Run(s, steps).pending.value.pingCount == s.pending.value.pingCount + IncrementsIn(s, steps)
    decreases |steps|
  {
    if steps != [] {
      var t := Next(s, steps[0]);
      assert t.pending.Some?;
      RowFollowsItsOffers(t, steps[1..]);
    }
  }

  /**
   Between two removals the row's secret and company are the first ones offered to it, whatever
   else is offered, and its count is the number of increments performed.
   */
  lemma {:induction false} FirstWriteWins(s: State, steps: seq<Step>)
    requires Lifetime(s, steps) && s.pending.None?
    ensures Valid(s, steps)
    ensures var end := Run(s, steps).pending;
            end.Some? ==>
              && end.value.secret == FirstSecret(s, steps)
              && end.value.company == FirstCompany(s, steps)
              && end.value.pingCount == IncrementsIn(s, steps)
    decreases |steps|
  {
    if steps != [] {
      var t := Next(s, steps[0]);
      if t.pending.Some? {
        RowFollowsItsOffers(t, steps[1..]);
      } else {
        FirstWriteWins(t, steps[1..]);
      }
    }
  }

  // ---- Who reports first contact ----

  predicate ReportsNew(pc: Pc) {
    match pc
    case AtCreate => false
    case AtBump(isNew) => isNew
    case AtSecret(isNew) => isNew
    case AtCompany(isNew) => isNew
    case Answered(reply) => reply == Unclaimed(true)
  }

  /** The calls that report, or will report, having created the row. */
  function Reporters(s: State): set<CallId> {
    set c | c in s.calls && ReportsNew(s.calls[c].pc)
  }

  predicate NoFailure(steps: seq<Step>) {
    forall i :: 0 <= i < |steps| ==> !steps[i].Fail?
  }

  lemma StepReporters(s: State, step: Step)
    requires Enabled(s, step) && !step.Fail?
    ensures var creates := s.pending.None? && Next(s, step).pending.Some?;
            && |Reporters(Next(s, step))| == |Reporters(s)| + (if creates then 1 else 0)
            && Reporters(s) <= Reporters(Next(s, step))
  {
    var t := Next(s, step);
    if step.Execute? && s.calls[step.c].pc.AtCreate? && s.pending.None? {
      assert Reporters(t) == Reporters(s) + {step.c};
    } else {
      assert Reporters(t) == Reporters(s);
    }
  }

  lemma {:induction false} ReportersOfLifetime(s: State, steps: seq<Step>)
    requires Lifetime(s, steps) && NoFailure(steps)
    ensures Valid(s, steps)
    ensures Reporters(s) <= Reporters(Run(s, steps))
    ensures |Reporters(Run(s, steps))| ==
            |Reporters(s)| + (if s.pending.None? && Run(s, steps).pending.Some? then 1 else 0)
    decreases |steps|
  {
    if steps != [] {
      var t := Next(s, steps[0]);
      StepReporters(s, steps[0]);
      ReportersOfLifetime(t, steps[1..]);
      LifetimeKeepsRow(t, steps[1..]);
    }
  }

  lemma {:induction false} LifetimeKeepsRow(s: State, steps: seq<Step>)
    requires Lifetime(s, steps)
    ensures Valid(s, steps) && (s.pending.Some? ==> Run(s, steps).pending.Some?)
    decreases |steps|
  {
    if steps != [] {
      LifetimeKeepsRow(Next(s, steps[0]), steps[1..]);
    }
  }

  /** Without failures, exactly one call of a lifetime reports having created its row. */
  lemma ExactlyOneReportsNew(s: State, steps: seq<Step>) returns (creator: CallId)
    requires Lifetime(s, steps) && NoFailure(steps)
    requires s.pending.None? && Valid(s, steps) && Run(s, steps).pending.Some?
    ensures Reporters(Run(s, steps)) - Reporters(s) == {creator}
  {
    ReportersOfLifetime(s, steps);
    var newcomers := Reporters(Run(s, steps)) - Reporters(s);
    assert Reporters(Run(s, steps)) == Reporters(s) + newcomers;
    assert |newcomers| == 1;
    creator :| creator in newcomers;
    assert |newcomers - {creator}| == 0;
    assert newcomers == {creator};
  }

  lemma StepReportersAnyway(s: State, step: Step)
    requires Enabled(s, step)
    ensures s.pending.Some? || Next(s, step).pending.None? ==> Reporters(Next(s, step)) <= Reporters(s)
    ensures step.Execute? || step.Fail? ==> Reporters(Next(s, step)) <= Reporters(s) + {step.c}
    ensures s.pending.None? && Next(s, step).pending.Some? ==> step.Execute? || step.Fail?
  {
  }

  lemma {:induction false} NoFurtherReporters(s: State, steps: seq<Step>)
    requires Lifetime(s, steps) && s.pending.Some?
    ensures Valid(s, steps) && Reporters(Run(s, steps)) <= Reporters(s)
    decreases |steps|
  {
    if steps != [] {
      StepReportersAnyway(s, steps[0]);
      NoFurtherReporters(Next(s, steps[0]), steps[1..]);
    }
  }

  /** Whatever fails, at most one call of a lifetime reports having created its row. */
  lemma {:induction false} AtMostOneReportsNew(s: State, steps: seq<Step>) returns (creator: CallId)
    requires Lifetime(s, steps) && s.pending.None?
    ensures Valid(s, steps) && Reporters(Run(s, steps)) <= Reporters(s) + {creator}
    decreases |steps|
  {
    if steps == [] {
      creator := "";
    } else {
      var t := Next(s, steps[0]);
      StepReportersAnyway(s, steps[0]);
      if t.pending.Some? {
        creator := steps[0].c;
        NoFurtherReporters(t, steps[1..]);
      } else {
        creator := AtMostOneReportsNew(t, steps[1..]);
      }
    }
  }

  // ---- Devices ----

  /** No serial number ever has two devices. */
  lemma {:induction false} NeverTwoDevices(s: State, steps: seq<Step>)
    requires |s.devices| <= 1 && Valid(s, steps)
    ensures |Run(s, steps).devices| <= 1
    decreases |steps|
  {
    if steps != [] {
      NeverTwoDevices(Next(s, steps[0]), steps[1..]);
    }
  }

  /** An admin edits or removes the device. */
  predicate TouchesDevice(step: Step) {
    step.EditSecret? || step.RemoveDevice?
  }

  lemma {:induction false} DeviceStays(s: State, steps: seq<Step>)
    requires Valid(s, steps) && s.devices != []
    requires forall i :: 0 <= i < |steps| ==> !TouchesDevice(steps[i])
    ensures Run(s, steps).devices == s.devices
    decreases |steps|
  {
    if steps != [] {
      assert !TouchesDevice(steps[0]);
      DeviceStays(Next(s, steps[0]), steps[1..]);
    }
  }

  /** A claim that has read its row keeps what it read until its transaction. */
  lemma {:induction false} ClaimKeepsItsReading(s: State, steps: seq<Step>, k: ClaimId)
    requires Valid(s, steps) && k in s.claims
    requires forall i :: 0 <= i < |steps| ==> !(steps[i].CommitClaim? && steps[i].k == k)
    ensures k in Run(s, steps).claims && Run(s, steps).claims[k] == s.claims[k]
    decreases |steps|
  {
    if steps != [] {
      assert !(steps[0].CommitClaim? && steps[0].k == k);
      ClaimKeepsItsReading(Next(s, steps[0]), steps[1..], k);
    }
  }

  /** Some ping got as far as offering its secret to the row. */
  ghost predicate SecretOffered(s: State, steps: seq<Step>)
    decreases |steps|
  {
    steps != [] && Enabled(s, steps[0]) &&
    (OfferedSecret(s, steps[0]).Some? || SecretOffered(Next(s, steps[0]), steps[1..]))
  }

  lemma {:induction false} OfferedIsFirst(s: State, steps: seq<Step>)
    requires Valid(s, steps) && SecretOffered(s, steps)
    ensures FirstSecret(s, steps).Some?
    decreases |steps|
  {
    if OfferedSecret(s, steps[0]).None? {
      OfferedIsFirst(Next(s, steps[0]), steps[1..]);
    }
  }

  /** A ping that gets through all its statements has offered its secret, or the row was gone. */
  lemma {:induction false} CompletedPingOffers(s: State, steps: seq<Step>, c: CallId)
    requires Lifetime(s, steps) && s.pending.None? && c !in s.calls
    requires Valid(s, steps) && c in Run(s, steps).calls
    requires NoFailureOf(steps, c) && Run(s, steps).calls[c].pc.Answered? && Run(s, steps).calls[c].pc.reply.Unclaimed?
    requires Truthy(Run(s, steps).calls[c].secret)
    ensures SecretOffered(s, steps)
    decreases |steps|
  {
    var t := Next(s, steps[0]);
    assert !(steps[0].Fail? && steps[0].c == c);
    if c in t.calls {
      OffersBeforeAnswering(t, steps[1..], c);
    } else if t.pending.None? {
      CompletedPingOffers(t, steps[1..], c);
    } else {
      CompletedWhileThere(t, steps[1..], c);
    }
  }

  predicate NoFailureOf(steps: seq<Step>, c: CallId) {
    forall i :: 0 <= i < |steps| ==> !(steps[i].Fail? && steps[i].c == c)
  }

  lemma {:induction false} CompletedWhileThere(s: State, steps: seq<Step>, c: CallId)
    requires Lifetime(s, steps) && s.pending.Some? && c !in s.calls
    requires Valid(s, steps) && c in Run(s, steps).calls
    requires NoFailureOf(steps, c) && Run(s, steps).calls[c].pc.Answered? && Run(s, steps).calls[c].pc.reply.Unclaimed?
    requires Truthy(Run(s, steps).calls[c].secret)
    ensures SecretOffered(s, steps)
    decreases |steps|
  {
    var t := Next(s, steps[0]);
    assert !(steps[0].Fail? && steps[0].c == c);
    if c in t.calls {
      OffersBeforeAnswering(t, steps[1..], c);
    } else {
      CompletedWhileThere(t, steps[1..], c);
    }
  }

  /** A call on its way to `Unclaimed` passes its secret statement, with the row in place. */
  lemma {:induction false} OffersBeforeAnswering(s: State, steps: seq<Step>, c: CallId)
    requires Lifetime(s, steps) && Valid(s, steps) && c in s.calls
    requires s.calls[c].pc.AtCreate? || ((s.calls[c].pc.AtBump? || s.calls[c].pc.AtSecret?) && s.pending.Some?)
             || (s.calls[c].pc.Answered? && !s.calls[c].pc.reply.Unclaimed?)
    requires NoFailureOf(steps, c) && c in Run(s, steps).calls
    requires Run(s, steps).calls[c].pc.Answered? && Run(s, steps).calls[c].pc.reply.Unclaimed?
    requires Truthy(Run(s, steps).calls[c].secret)
    ensures SecretOffered(s, steps)
    decreases |steps|
  {
    if steps != [] {
      var t := Next(s, steps[0]);
      assert !(steps[0].Fail? && steps[0].c == c);
      if s.calls[c].pc.AtSecret? && steps[0] == Execute(c) {
        CallKeepsSecret(s, steps, c);
      } else {
        OffersBeforeAnswering(t, steps[1..], c);
      }
    }
  }

  lemma {:induction false} CallKeepsSecret(s: State, steps: seq<Step>, c: CallId)
    requires Valid(s, steps) && c in s.calls
    ensures c in Run(s, steps).calls && Run(s, steps).calls[c].secret == s.calls[c].secret
    decreases |steps|
  {
    if steps != [] {
      CallKeepsSecret(Next(s, steps[0]), steps[1..], c);
    }
  }

  /** A ping that ran through its upsert and failed nowhere. */
  ghost predicate CompletedPing(s: State, steps: seq<Step>, c: CallId)
    requires Valid(s, steps)
  {
    && c !in s.calls && NoFailureOf(steps, c)
    && var end := Run(s, steps);
       && c in end.calls && Truthy(end.calls[c].secret)
       && end.calls[c].pc.Answered? && end.calls[c].pc.reply.Unclaimed?
  }

  lemma CapturedByThen(s: State, before: seq<Step>, c: CallId) returns (first: string)
    requires Lifetime(s, before) && s.pending.None? && Valid(s, before) && Run(s, before).pending.Some?
    requires CompletedPing(s, before, c)
    ensures FirstSecret(s, before) == Some(first) && Run(s, before).pending.value.secret == Some(first)
  {
    CompletedPingOffers(s, before, c);
    OfferedIsFirst(s, before);
    FirstWriteWins(s, before);
    first := FirstSecret(s, before).value;
  }

  lemma ClaimReadsTheSecret(s: State, k: ClaimId, request: ClaimRequest, fallback: string, read: State, first: string)
    requires s.pending.Some? && s.pending.value.secret == Some(first)
    requires Enabled(s, ReadPending(k, request, fallback)) && read == Next(s, ReadPending(k, request, fallback))
    requires read.claims[k].Ready?
    ensures read.claims[k] == Ready(first, true, request.company)
  {
  }

  /** The claim's transaction uses what its reading saw. */
  lemma ClaimCommitsItsReading(read: State, between: seq<Step>, k: ClaimId, ready: State, companyExists: bool,
                               claimed: State)
    requires Valid(read, between) && ready == Run(read, between)
    requires k in read.claims && read.claims[k].Ready?
    requires forall i :: 0 <= i < |between| ==> !(between[i].CommitClaim? && between[i].k == k)
    requires Enabled(ready, CommitClaim(k, companyExists)) && claimed == Next(ready, CommitClaim(k, companyExists))
    requires claimed.claims[k] == Claimed
    ensures claimed.devices == [Device(read.claims[k].deviceSecret, read.claims[k].company)]
    ensures read.claims[k].sawPending ==> claimed.pending.None?
  {
    ClaimKeepsItsReading(read, between, k);
  }

  /**
   End to end: `before` runs from the row's birth to the claim's reading, with one completed
   ping in it; anything but this claim may happen between the reading and the transaction; after
   it, anything but an edit or removal of the device until the next request arrives.
   */
  lemma ClaimCarriesTheFirstSecret(s: State, before: seq<Step>, c: CallId,
                                   k: ClaimId, request: ClaimRequest, fallback: string, read: State,
                                   between: seq<Step>, ready: State, companyExists: bool, claimed: State,
                                   after: seq<Step>, secret: Option<string>)
    requires Lifetime(s, before) && s.pending.None? && Valid(s, before) && Run(s, before).pending.Some?
    requires CompletedPing(s, before, c)
    requires Enabled(Run(s, before), ReadPending(k, request, fallback))
    requires read == Next(Run(s, before), ReadPending(k, request, fallback)) && read.claims[k].Ready?
    requires Valid(read, between) && ready == Run(read, between)
    requires forall i :: 0 <= i < |between| ==> !(between[i].CommitClaim? && between[i].k == k)
    requires Enabled(ready, CommitClaim(k, companyExists)) && claimed == Next(ready, CommitClaim(k, companyExists))
    requires claimed.claims[k] == Claimed
    requires Valid(claimed, after) && forall i :: 0 <= i < |after| ==> !TouchesDevice(after[i])
    ensures FirstSecret(s, before).Some? && claimed.pending.None?
    ensures claimed.devices == [Device(FirstSecret(s, before).value, request.company)]
    ensures Resolve(Run(claimed, after).devices, secret) ==
            Answered(if secret == FirstSecret(s, before) then Trusted else Rejected)
  {
    var first := CapturedByThen(s, before, c);
    ClaimReadsTheSecret(Run(s, before), k, request, fallback, read, first);
    ClaimCommitsItsReading(read, between, k, ready, companyExists, claimed);
    DeviceStays(claimed, after);
  }

  // ---- One process ----

  /** The row after the first `done` of the four statements of an upsert with nobody else at work. */
  function Upserted(p: Option<Pending>, secret: Option<string>, company: Option<CompanyId>, done: nat): Option<Pending> {
    var row := if p.Some? then p.value else Pending(None, None, 0);
    if done == 0 then p
    else Some(Pending(
      if done >= 3 && row.secret.None? && secret != Some("") then secret else row.secret,
      if done >= 4 && row.company.None? && company != Some("") then company else row.company,
      if done >= 2 then row.pingCount + 1 else row.pingCount))
  }

  /** How many statements took effect when number `failAt`, counted from 0, throws. */
  function Done(failAt: nat, lost: bool): nat {
    if failAt >= 4 then 4 else if lost then failAt + 1 else failAt
  }

  /** A company's own admin may claim a row attributed to that company or to none. */
  predicate MayClaim(p: Option<Pending>, request: ClaimRequest) {
    request.superAdmin
    || (request.ownCompany == request.company
        && (p.None? || p.value.company.None? || p.value.company == Some("") || p.value.company == Some(request.company)))
  }

  /** The rows of one serial number, as one request finds and leaves them when it is alone. */
  class Registry {
    var pending: Option<Pending>
    var devices: seq<Device>
    var pings: nat

    /** `upsertPendingDevice`; statement number `failAt` throws, before or after taking effect. */
    method UpsertPendingDevice(serialNumber: string, secret: Option<string>, company: Option<CompanyId>,
                               failAt: nat, lost: bool)
      returns (isNew: bool)
      modifies this`pending
      ensures serialNumber == "" ==> pending == old(pending) && !isNew
      ensures serialNumber != "" ==>
                && pending == Upserted(old(pending), secret, company, Done(failAt, lost))
                && (isNew <==> old(pending).None? && failAt >= 4)
    {
      if serialNumber == "" || (failAt == 0 && !lost) {
        return false;
      }
      var created := pending.None?;
      pending := CreateRow(pending);
      if failAt == 0 || (failAt == 1 && !lost) {
        return false;
      }
      pending := Bump(pending);
      if failAt == 1 || (failAt == 2 && !lost) {
        return false;
      }
      if Truthy(secret) {
        pending := SetSecret(pending, secret);
      }
      if failAt == 2 || (failAt == 3 && !lost) {
        return false;
      }
      if Truthy(company) {
        pending := SetCompany(pending, company);
      }
      if failAt == 3 {
        return false;
      }
      return created;
    }

    /** `resolveDevice`, with its log of first contacts. */
    method ResolveDevice(serialNumber: string, secret: Option<string>, company: Option<CompanyId>,
                         failAt: nat, lost: bool)
      returns (reply: Reply)
      modifies this
      ensures devices == old(devices)
      ensures serialNumber != "" && old(devices) != [] ==>
                && pending == old(pending) && pings == old(pings)
                && reply == (if secret == Some(devices[0].secret) then Trusted else Rejected)
      ensures serialNumber != "" && old(devices) == [] ==>
                && pending == Upserted(old(pending), secret, company, Done(failAt, lost))
                && reply == Unclaimed(old(pending).None? && failAt >= 4)
                && pings == old(pings) + (if reply.isNew then 1 else 0)
      ensures serialNumber == "" ==>
                pending == old(pending) && reply == Unclaimed(false) && pings == old(pings) + 1
    {
      if serialNumber != "" && devices != [] {
        return if IsDeviceRequestTrusted(devices[0].secret, secret) then Trusted else Rejected;
      }
      var isNew := UpsertPendingDevice(serialNumber, secret, company, failAt, lost);
      if serialNumber == "" || isNew {
        pings := pings + 1;
      }
      return Unclaimed(isNew);
    }

    /** The `/claim` handler with nobody else at work between its reading and its transaction. */
    method Claim(request: ClaimRequest, fallback: string, companyExists: bool) returns (outcome: ClaimPc)
      modifies this
      ensures pings == old(pings)
      ensures outcome == Claimed <==> MayClaim(old(pending), request) && old(devices) == [] && companyExists
      ensures outcome == Forbidden <==> !MayClaim(old(pending), request)
      ensures outcome == Conflict <==> MayClaim(old(pending), request) && old(devices) != []
      ensures outcome == Claimed ==>
                && pending.None?
                && devices == [Device(if old(pending).Some? && old(pending).value.secret.Some?
                                      then old(pending).value.secret.value else fallback, request.company)]
      ensures outcome != Claimed ==> pending == old(pending) && devices == old(devices)
      ensures !outcome.Errored? && !outcome.Ready?
    {
      outcome := Prepare(pending, request, fallback);
      if !outcome.Ready? {
        return;
      }
      var claim := outcome;
      outcome := Commit(pending, devices, claim, companyExists);
      if outcome == Claimed {
        devices := [Device(claim.deviceSecret, claim.company)];
        if claim.sawPending {
          pending := None;
        }
      }
    }
  }

  /** Where a call stands after `done` statements. */
  function PcAt(done: nat, isNew: bool): Pc {
    match done
    case 0 => AtCreate
    case 1 => AtBump(isNew)
    case 2 => AtSecret(isNew)
    case 3 => AtCompany(isNew)
    case _ => Answered(Unclaimed(isNew))
  }

  /** What is left, from statement `done` on, of a ping that nobody interrupts. */
  function SoloRest(c: CallId, done: nat, failAt: nat, lost: bool): seq<Step>
    decreases 4 - done
  {
    if done >= 4 then []
    else if done == failAt then [Fail(c, lost)]
    else [Execute(c)] + SoloRest(c, done + 1, failAt, lost)
  }

  lemma OneStatement(p: Option<Pending>, secret: Option<string>, company: Option<CompanyId>, done: nat, isNew: bool,
                     call: Call)
    requires done < 4 && call == Call(secret, company, PcAt(done, isNew)) && isNew == p.None?
    ensures Statement(Upserted(p, secret, company, done), call) ==
            (Upserted(p, secret, company, done + 1), PcAt(done + 1, isNew))
  {
  }

  lemma {:induction false} SoloRestUpserts(s: State, c: CallId, p: Option<Pending>, done: nat, failAt: nat, lost: bool)
    requires done <= 4 && done <= failAt && c in s.calls
    requires s.calls[c].pc == PcAt(done, p.None?)
    requires s.pending == Upserted(p, s.calls[c].secret, s.calls[c].company, done)
    ensures Valid(s, SoloRest(c, done, failAt, lost))
    ensures var t := Run(s, SoloRest(c, done, failAt, lost));
            && t.pending == Upserted(p, s.calls[c].secret, s.calls[c].company, Done(failAt, lost))
            && c in t.calls && t.calls[c].pc == Answered(Unclaimed(p.None? && failAt >= 4))
    decreases 4 - done
  {
    if done < 4 {
      var call := s.calls[c];
      OneStatement(p, call.secret, call.company, done, p.None?, call);
      if done == failAt {
        var t := Next(s, Fail(c, lost));
        assert Run(t, []) == t && SoloRest(c, done, failAt, lost)[1..] == [];
      } else {
        var t := Next(s, Execute(c));
        assert t.calls[c].secret == call.secret && t.calls[c].company == call.company;
        SoloRestUpserts(t, c, p, done + 1, failAt, lost);
        assert SoloRest(c, done, failAt, lost)[1..] == SoloRest(c, done + 1, failAt, lost);
      }
    }
  }

  /** The method is the interleaved statements run without interruption, wherever they fail. */
  lemma UpsertIsASoloPing(s: State, c: CallId, secret: Option<string>, company: Option<CompanyId>,
                          failAt: nat, lost: bool, steps: seq<Step>)
    requires s.devices == [] && c !in s.calls
    requires steps == [Arrive(c, secret, company)] + SoloRest(c, 0, failAt, lost)
    ensures Valid(s, steps)
    ensures var t := Run(s, steps);
            && t.pending == Upserted(s.pending, secret, company, Done(failAt, lost))
            && c in t.calls && t.calls[c].pc == Answered(Unclaimed(s.pending.None? && failAt >= 4))
  {
    var t := Next(s, Arrive(c, secret, company));
    SoloRestUpserts(t, c, s.pending, 0, failAt, lost);
    assert steps[1..] == SoloRest(c, 0, failAt, lost);
  }
}
