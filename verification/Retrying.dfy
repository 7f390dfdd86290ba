/**
 Manual retries (src/admin/punchRecords.ts): who may retry what, and whether it leads anywhere.
 */
module Retrying {
  import opened Options
  import opened Selection
  import opened DeliveryQueue

  type CompanyId = string

  datatype Scope = Everyone | Only(company: CompanyId)

  datatype Reply = Ok(retried: nat) | NotFound | Forbidden | NothingToRetry

  /** The update of `resetForRetry` on the table of punch records. */
  function Reset(rows: map<RowId, Row>, ids: set<RowId>, now: int): map<RowId, Row> {
    map id | id in rows :: if id in ids then RetryRow(rows[id], now) else rows[id]
  }

  /** The update is the queue's retry step. */
  lemma ResetIsTheRetryStep(s: State, ids: set<RowId>)
    ensures RowsOf(Next(s, DeliveryQueue.Retry(ids))) == Reset(RowsOf(s), ids, s.now)
  {
  }

  /** Every punch record belongs to a device, and every device to a company. */
  ghost predicate Linked(rows: map<RowId, Row>, devices: map<DeviceId, Device>, companies: map<DeviceId, CompanyId>) {
    (forall id :: id in rows ==> rows[id].device in devices) && devices.Keys <= companies.Keys
  }

  /** The rows the bulk route's query finds: it asks for a url that is not null. */
  function Eligible(rows: map<RowId, Row>, devices: map<DeviceId, Device>, companies: map<DeviceId, CompanyId>,
                    scope: Scope, ids: seq<RowId>): set<RowId>
    requires Linked(rows, devices, companies)
  {
    set id | id in ids && id in rows
             && devices[rows[id].device].enabled && devices[rows[id].device].url.Some?
             && (scope == Everyone || companies[rows[id].device] == scope.company)
  }

  class RetryAdmin {
    var now: int
    var devices: map<DeviceId, Device>
    var companies: map<DeviceId, CompanyId>
    var punchRecords: map<RowId, Row>

    ghost predicate Valid()
      reads this
    {
      Linked(punchRecords, devices, companies)
    }

    method ResetForRetry(ids: set<RowId>)
      requires Valid()
      modifies this`punchRecords
      ensures Valid() && punchRecords == Reset(old(punchRecords), ids, now)
    {
      punchRecords := Reset(punchRecords, ids, now);
    }

    method Retry(scope: Scope, id: RowId) returns (reply: Reply)
      requires Valid()
      modifies this`punchRecords
      ensures Valid()
      ensures reply == NotFound <==> id !in old(punchRecords)
      ensures reply == Forbidden <==>
                id in old(punchRecords) && scope.Only? && scope.company != companies[old(punchRecords)[id].device]
      ensures reply.Ok? ==> reply.retried == 1 && HasActiveWebhook(devices[old(punchRecords)[id].device])
      ensures reply == NothingToRetry ==> id in old(punchRecords) && !HasActiveWebhook(devices[old(punchRecords)[id].device])
      ensures punchRecords == if reply.Ok? then Reset(old(punchRecords), {id}, now) else old(punchRecords)
    {
      if id !in punchRecords {
        return NotFound;
      }
      var device := punchRecords[id].device;
      if scope.Only? && scope.company != companies[device] {
        return Forbidden;
      }
      if !HasActiveWebhook(devices[device]) {
        return NothingToRetry;
      }
      ResetForRetry({id});
      return Ok(1);
    }

    method RetryBulk(scope: Scope, ids: seq<RowId>) returns (reply: Reply)
      requires Valid()
      modifies this`punchRecords
      ensures Valid()
      ensures var eligible := Eligible(old(punchRecords), devices, companies, scope, ids);
              reply == Ok(|eligible|) && punchRecords == Reset(old(punchRecords), eligible, now)
      ensures punchRecords.Keys == old(punchRecords).Keys
      ensures forall id :: id in punchRecords ==>
                var device := old(punchRecords)[id].device;
                punchRecords[id] ==
                if id in ids && devices[device].enabled && devices[device].url.Some?
                   && (scope.Only? ==> companies[device] == scope.company)
                then old(punchRecords)[id].(nextAttemptAt := now, held := false) else old(punchRecords)[id]
    {
      var visibleIds := Eligible(punchRecords, devices, companies, scope, ids);
      ResetForRetry(visibleIds);
      return Ok(|visibleIds|);
    }
  }

  // ---- What a retry leads to ----

  /** Right after a retry the row goes exactly when it is undelivered and its device has an active webhook. */
  lemma RetryGoesExactly(s: State, targets: set<RowId>, id: RowId)
    requires id in targets && id in s.punches && s.punches[id].row.device in s.devices
    ensures Goes(Next(s, Retry(targets)), id) <==>
              !s.punches[id].row.delivered && HasActiveWebhook(s.devices[s.punches[id].row.device])
  {
  }

  /** Held, parked or exhausted as it was: after the retry an idle worker can poll, claim and send it. */
  lemma RetryReachesTheEndpoint(s: State, id: RowId, w: WorkerId) returns (steps: seq<Step>)
    requires id in s.punches && s.punches[id].row.device in s.devices && !s.punches[id].row.delivered
    requires HasActiveWebhook(s.devices[s.punches[id].row.device])
    requires w in s.workers && s.workers[w].Idle?
    ensures steps == [Retry({id}), Poll(w), Claim(w, [id]), Read(w)]
    ensures DeliveryQueue.Valid(s, steps)
    ensures Sends(After(s, steps, 3), steps[3], id)
  {
    var s1 := Next(s, Retry({id}));
    var s2 := Next(s1, Poll(w));
    RetryGoesExactly(s, {id}, id);
    assert s2.punches[id].row == s1.punches[id].row;
    assert Distinct([id]) && forall x :: x in [id] ==> x == id;
    var s3 := Next(s2, Claim(w, [id]));
    assert s3.workers[w].queue == [id];
    assert Sends(s3, Read(w), id);
    steps := RunCons(s3, Read(w), []);
    steps := RunCons(s2, Claim(w, [id]), steps);
    steps := RunCons(s1, Poll(w), steps);
    steps := RunCons(s, Retry({id}), steps);
    AfterThree(s, steps, s1, s2, s3);
  }

  lemma AfterThree(s: State, steps: seq<Step>, s1: State, s2: State, s3: State)
    requires DeliveryQueue.Valid(s, steps) && |steps| == 4
    requires Enabled(s, steps[0]) && s1 == Next(s, steps[0])
    requires Enabled(s1, steps[1]) && s2 == Next(s1, steps[1])
    requires Enabled(s2, steps[2]) && s3 == Next(s2, steps[2])
    ensures After(s, steps, 3) == s3
  {
    assert After(s, steps, 0) == s;
    AfterStep(s, steps, 0);
    AfterStep(s, steps, 1);
    AfterStep(s, steps, 2);
  }

  /**
   The bulk route also counts a device whose url is the empty string, where the single route
   refuses: such an undelivered row is retried and still does not go.
   */
  lemma BulkRetryGoesExactly(s: State, companies: map<DeviceId, CompanyId>, scope: Scope, ids: seq<RowId>, id: RowId)
    requires Linked(RowsOf(s), s.devices, companies)
    requires id in Eligible(RowsOf(s), s.devices, companies, scope, ids) && !s.punches[id].row.delivered
    ensures Goes(Next(s, Retry(Eligible(RowsOf(s), s.devices, companies, scope, ids))), id) <==>
              s.devices[s.punches[id].row.device].url != Some("")
  {
    RetryGoesExactly(s, Eligible(RowsOf(s), s.devices, companies, scope, ids), id);
  }
}
