/**
 The writes of the delivery queue in plain words, with the numbers the source gives them.
 */
module DeliverySteps {
  import Calendar
  import opened Options
  import opened DeliveryQueue

  /** Ingestion: undelivered, untried, due at once, and held unless the webhook is on and has a url. */
  lemma IngestWrites(s: State, id: RowId, d: DeviceId)
    requires id !in s.used && d in s.devices
    ensures Enabled(s, Ingest(id, d))
    ensures var t := Next(s, Ingest(id, d));
            && t.punches.Keys == s.punches.Keys + {id}
            && t.punches[id].log == []
            && t.punches[id].row ==
               Row(d, false, 0, s.now, !(s.devices[d].enabled && s.devices[d].url.Some? && s.devices[d].url.value != ""),
                   None, None)
            && t.punches[id].hist == History(false, 0)
  {
  }

  /** A claim: the claimed rows are leased for a minute, and nothing else changes about any row. */
  lemma ClaimWrites(s: State, w: WorkerId, ids: seq<RowId>, id: RowId)
    requires Enabled(s, Claim(w, ids)) && id in s.punches
    ensures var t := Next(s, Claim(w, ids));
            && t.punches.Keys == s.punches.Keys && t.punches[id].log == s.punches[id].log
            && t.punches[id].row ==
               if id in ids then s.punches[id].row.(nextAttemptAt := s.now + 60_000) else s.punches[id].row
  {
  }

  /** The wait after the n-th attempt: 30 seconds, 2 minutes, 10 minutes, 1 hour, then 6 hours every time. */
  function Wait(n: nat): int {
    match n
    case 1 => 30 * 1000
    case 2 => 2 * 60 * 1000
    case 3 => 10 * 60 * 1000
    case 4 => 60 * 60 * 1000
    case _ => 6 * 60 * 60 * 1000
  }

  /**
   The end of an attempt: its number is one more than the count read; a success is stamped and the
   schedule left alone, a failure waits, or is parked once the maximum read is reached.
   */
  lemma CommitWrites(s: State, w: WorkerId, outcome: Outcome)
    requires Enabled(s, Commit(w, outcome)) && s.workers[w].id in s.punches
    ensures var t := Next(s, Commit(w, outcome));
            var id, n, max := s.workers[w].id, s.workers[w].readAttempts + 1, s.workers[w].max;
            var before := s.punches[id];
            && t.punches.Keys == s.punches.Keys
            && (forall x :: x in s.punches && x != id ==> t.punches[x] == s.punches[x])
            && match outcome
               case Success =>
                 && t.punches[id].log == before.log + [Entry(n, true, None)]
                 && t.punches[id].row ==
                    Row(before.row.device, true, n, before.row.nextAttemptAt, before.row.held, None, Some(s.now))
               case Failure(error) =>
                 && t.punches[id].log == before.log + [Entry(n, false, Some(error))]
                 && t.punches[id].row ==
                    Row(before.row.device, before.row.delivered, n, if n >= max then PARKED else s.now + Wait(n),
                        before.row.held, Some(error), before.row.deliveredAt)
  {
  }

  /** If the row is gone nothing is written. */
  lemma CommitOfAGoneRow(s: State, w: WorkerId, outcome: Outcome)
    requires Enabled(s, Commit(w, outcome)) && s.workers[w].id !in s.punches
    ensures Next(s, Commit(w, outcome)).punches == s.punches
  {
  }

  /** A retry: due at once and off hold, with the count and everything else as it was. */
  lemma RetryWrites(s: State, targets: set<RowId>, id: RowId)
    requires id in s.punches
    ensures var t := Next(s, Retry(targets));
            && t.punches.Keys == s.punches.Keys && t.punches[id].log == s.punches[id].log
            && t.punches[id].row ==
               if id in targets then s.punches[id].row.(nextAttemptAt := s.now, held := false) else s.punches[id].row
  {
  }

  /** The administrators and the clock are never in each other's way, and each changes one thing. */
  lemma AdministrationWrites(s: State, d: DeviceId, config: Device, max: nat, targets: set<RowId>, dt: nat)
    ensures Enabled(s, SetWebhook(d, config)) && Enabled(s, Retry(targets)) && Enabled(s, Delete(targets))
    ensures Enabled(s, Advance(dt)) && (Enabled(s, SetMax(max)) <==> max > 0)
    ensures var t := Next(s, SetWebhook(d, config));
            t.devices.Keys == s.devices.Keys + {d} && t.devices[d] == config
            && (forall e :: e in s.devices && e != d ==> t.devices[e] == s.devices[e])
            && t == State(s.now, s.max, t.devices, s.punches, s.workers, s.used)
    ensures var t := Next(s, Delete(targets));
            t.punches.Keys == s.punches.Keys - targets
            && (forall id :: id in t.punches ==> t.punches[id] == s.punches[id])
            && t == State(s.now, s.max, s.devices, t.punches, s.workers, s.used)
    ensures Next(s, Advance(dt)) == State(s.now + dt, s.max, s.devices, s.punches, s.workers, s.used)
    ensures max > 0 ==> Next(s, SetMax(max)) == State(s.now, max, s.devices, s.punches, s.workers, s.used)
  {
  }

  /** An idle worker, and no other, may poll; any worker may crash, whatever it is doing. */
  lemma WorkersStartAndStop(s: State, w: WorkerId)
    ensures Enabled(s, Poll(w)) <==> w in s.workers && s.workers[w] == Idle
    ensures Enabled(s, Crash(w)) <==> w in s.workers
    ensures w in s.workers ==> Next(s, Crash(w)) == s.(workers := s.workers[w := Idle])
  {
  }

  /** The parking date is the first moment of 2099. */
  lemma ParkedUntil2099(year: int)
    requires year == 2099
    ensures PARKED == Calendar.DayFromYear(year) * Calendar.MS_PER_DAY
  {
    Calendar.DayFromYearIsDayNumber(year);
  }
}
