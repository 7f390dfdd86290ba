/**
 Storing ATTLOG batches (src/adms/cdata.ts): one batch insert, a per-record fallback, and the
 decision to acknowledge.  A device repeats a batch until it is acknowledged; the unique
 dedupe key turns that repetition into exactly one row per punch.
 */
module Ingestion {
  import opened Options
  import opened Attlog
  import opened Calendar
  import opened Datetime
  import opened Readings
  import opened Timezone
  import DeliveryQueue
  import Registration

  type DeviceId = DeliveryQueue.DeviceId

  type LocalZone = z: Zone | |z.offsets| == |z.transitions| + 1 witness Zone([], [0])

  /** What a registered device's row says when a request arrives. */
  datatype Registered = Registered(
    id: DeviceId,
    secret: string,
    webhook: DeliveryQueue.Device,
    timezone: Option<LocalZone>)

  datatype Row = Row(device: DeviceId, record: Record, punchTimeUtc: Option<int>, held: bool)

  /** The unique constraint `dedupe_key`. */
  datatype Key = Key(device: DeviceId, pin: string, punchTime: int, status: int, verifyMode: int)

  function KeyFor(device: DeviceId, record: Record): Key {
    Key(device, record.pin, record.punchTime, record.status, record.verifyMode)
  }

  function KeyOf(row: Row): Key {
    KeyFor(row.device, row.record)
  }

  function PunchRow(device: Registered, record: Record): Row {
    Row(device.id, record,
        if device.timezone.Some? then Some(ZonedWallClockToUtc(device.timezone.value, record.punchTime)) else None,
        !DeliveryQueue.HasActiveWebhook(device.webhook))
  }

  function Batch(device: Registered, records: seq<Record>): (rows: seq<Row>)
    ensures |rows| == |records|
    ensures forall i :: 0 <= i < |rows| ==> rows[i] == PunchRow(device, records[i])
  {
    seq(|records|, i requires 0 <= i < |records| => PunchRow(device, records[i]))
  }

  // ---- The table ----

  type Table = seq<Row>

  /** Whether the database can hold a record at all: a fixed property of the record. */
  type Storable = Record -> bool

  predicate Has(table: Table, key: Key) {
    exists i :: 0 <= i < |table| && KeyOf(table[i]) == key
  }

  /** The row is this device's punch by this person, at this time, of this status and verify mode. */
  predicate SamePunch(row: Row, device: DeviceId, record: Record) {
    && row.device == device
    && row.record.pin == record.pin
    && row.record.punchTime == record.punchTime
    && row.record.status == record.status
    && row.record.verifyMode == record.verifyMode
  }

  ghost predicate Unique(table: Table) {
    forall i, j :: 0 <= i < j < |table| ==> !SamePunch(table[i], table[j].device, table[j].record)
  }

  predicate AllStorable(rows: seq<Row>, storable: Storable) {
    forall i :: 0 <= i < |rows| ==> storable(rows[i].record)
  }

  function Insert(table: Table, row: Row, storable: Storable): Table {
    if storable(row.record) && !Has(table, KeyOf(row)) then table + [row] else table
  }

  /** Rows inserted in order, leaving out duplicates and what cannot be stored. */
  function InsertAll(table: Table, rows: seq<Row>, storable: Storable): (after: Table)
    ensures table <= after
    ensures |after| <= |table| + |rows|
    decreases |rows|
  {
    if rows == [] then table else InsertAll(Insert(table, rows[0], storable), rows[1..], storable)
  }

  // ---- The database under the statements ----

  /** The punch records, and whether the row of the one device followed is still there. */
  datatype Db = Db(device: DeviceId, rows: Table, registered: bool)

  /** How one statement fares: it may also take effect and lose its answer. */
  datatype Fault = Fine | Refused | Lost

  /** What happens just before a statement: rows of other requests, or the end of the device; and how it fares. */
  datatype Weather = Weather(others: seq<Row>, deletes: bool, fault: Fault)

  const CALM: Weather := Weather([], false, Fine)

  /** The weather of the next statement; calm once the script has run out. */
  function Next(script: seq<Weather>): Weather {
    if script == [] then CALM else script[0]
  }

  function Rest(script: seq<Weather>): seq<Weather> {
    if script == [] then [] else script[1..]
  }

  /** Deleting a device cascades to its rows. */
  function Without(rows: Table, device: DeviceId): Table {
    if rows == [] then [] else (if rows[0].device == device then [] else [rows[0]]) + Without(rows[1..], device)
  }

  /** A deletion takes every row of the device and no other. */
  lemma {:induction false} OnlyItsRowsGo(rows: Table, device: DeviceId, row: Row)
    ensures multiset(Without(rows, device))[row] == if row.device == device then 0 else multiset(rows)[row]
  {
    if rows != [] {
      assert rows == [rows[0]] + rows[1..];
      OnlyItsRowsGo(rows[1..], device, row);
    }
  }

  /** What a statement finds.  A deleted device does not come back under its id. */
  function Found(db: Db, weather: Weather, storable: Storable): (found: Db)
    ensures found.device == db.device && (found.registered ==> db.registered)
    ensures found.registered ==> found.rows == InsertAll(db.rows, weather.others, storable)
  {
    var rows := InsertAll(db.rows, weather.others, storable);
    if db.registered && !weather.deletes then db.(rows := rows)
    else Db(db.device, Without(rows, db.device), false)
  }

  /** The column types can hold the record, and the foreign key finds its device. */
  predicate Accepts(db: Db, row: Row, storable: Storable) {
    storable(row.record) && (row.device == db.device ==> db.registered)
  }

  predicate AcceptsAll(db: Db, rows: seq<Row>, storable: Storable) {
    forall i :: 0 <= i < |rows| ==> Accepts(db, rows[i], storable)
  }

  function Put(db: Db, row: Row, storable: Storable): (after: Db)
    ensures after.device == db.device && after.registered == db.registered && db.rows <= after.rows
    ensures db.registered ==> after.rows == Insert(db.rows, row, storable)
  {
    if Accepts(db, row, storable) then db.(rows := Insert(db.rows, row, storable)) else db
  }

  function PutAll(db: Db, rows: seq<Row>, storable: Storable): (after: Db)
    ensures after.device == db.device && after.registered == db.registered && db.rows <= after.rows
  {
    if AcceptsAll(db, rows, storable) then db.(rows := InsertAll(db.rows, rows, storable)) else db
  }

  datatype DbError = Transient | Data | Duplicate
  datatype DbResult = Done(count: nat) | Raised(error: DbError)

  class PunchTable {
    const device: DeviceId
    var rows: Table
    var registered: bool

    function State(): Db
      reads this
    {
      Db(device, rows, registered)
    }

    /** What goes on between two statements. */
    method Meanwhile(weather: Weather, storable: Storable)
      modifies this
      ensures State() == Found(old(State()), weather, storable)
    {
      rows := InsertAll(rows, weather.others, storable);
      if !registered || weather.deletes {
        registered := false;
        rows := Without(rows, device);
      }
    }

    /** `createMany` with `skipDuplicates`: one statement, every row or none. */
    method CreateMany(batch: seq<Row>, storable: Storable, weather: Weather) returns (result: DbResult)
      modifies this
      ensures var before := Found(old(State()), weather, storable);
              var after := PutAll(before, batch, storable);
              && State() == (if weather.fault != Refused then after else before)
              && result == if weather.fault != Fine then Raised(Transient)
                           else if AcceptsAll(before, batch, storable) then Done(|after.rows| - |before.rows|)
                           else Raised(Data)
    {
      Meanwhile(weather, storable);
      var before, accepted := |rows|, AcceptsAll(State(), batch, storable);
      if weather.fault != Refused && accepted {
        rows := InsertAll(rows, batch, storable);
      }
      if weather.fault != Fine {
        return Raised(Transient);
      }
      return if accepted then Done(|rows| - before) else Raised(Data);
    }

    /** `create`: one row, refused as unstorable, for want of its device, or as a duplicate. */
    method Create(row: Row, storable: Storable, weather: Weather) returns (result: DbResult)
      modifies this
      ensures var before := Found(old(State()), weather, storable);
              && State() == (if weather.fault != Refused then Put(before, row, storable) else before)
              && result == if weather.fault != Fine then Raised(Transient)
                           else if !Accepts(before, row, storable) then Raised(Data)
                           else if Has(before.rows, KeyOf(row)) then Raised(Duplicate) else Done(1)
    {
      Meanwhile(weather, storable);
      var accepted, duplicate := Accepts(State(), row, storable), Has(rows, KeyOf(row));
      if weather.fault != Refused && accepted {
        rows := Insert(rows, row, storable);
      }
      if weather.fault != Fine {
        return Raised(Transient);
      }
      return if !accepted then Raised(Data) else if duplicate then Raised(Duplicate) else Done(1);
    }
  }

  // ---- Storing one batch ----

  datatype Tally = Tally(inserted: nat, duplicates: nat, skipped: nat)

  const ZERO: Tally := Tally(0, 0, 0)

  datatype Outcome = Outcome(db: Db, stored: bool, tally: Tally)

  function Count(tally: Tally, before: Db, row: Row, storable: Storable): Tally {
    if !Accepts(before, row, storable) then tally.(skipped := tally.skipped + 1)
    else if Has(before.rows, KeyOf(row)) then tally.(duplicates := tally.duplicates + 1)
    else tally.(inserted := tally.inserted + 1)
  }

  /** The per-record fallback from `tally` on; it gives up at the first transient failure. */
  function OneByOne(db: Db, rows: seq<Row>, storable: Storable, script: seq<Weather>, tally: Tally): (outcome: Outcome)
    ensures outcome.db.device == db.device && (outcome.db.registered ==> db.registered)
    decreases |rows|
  {
    if rows == [] then Outcome(db, true, tally)
    else
      var before := Found(db, Next(script), storable);
      var after := Put(before, rows[0], storable);
      match Next(script).fault
      case Fine => OneByOne(after, rows[1..], storable, Rest(script), Count(tally, before, rows[0], storable))
      case Refused => Outcome(before, false, tally)
      case Lost => Outcome(after, false, tally)
  }

  function Store(db: Db, rows: seq<Row>, storable: Storable, script: seq<Weather>): (outcome: Outcome)
    ensures outcome.db.device == db.device && (outcome.db.registered ==> db.registered)
  {
    if rows == [] then Outcome(db, true, ZERO)
    else
      var before := Found(db, Next(script), storable);
      var after := PutAll(before, rows, storable);
      match Next(script).fault
      case Refused => Outcome(before, false, ZERO)
      case Lost => Outcome(after, false, ZERO)
      case Fine =>
        if AcceptsAll(before, rows, storable)
        then Outcome(after, true, Tally(|after.rows| - |before.rows|, |rows| - (|after.rows| - |before.rows|), 0))
        else OneByOne(before, rows, storable, Rest(script), ZERO)
  }

  lemma OneByOneStep(db: Db, rows: seq<Row>, i: nat, storable: Storable, script: seq<Weather>, tally: Tally,
                     before: Db, after: Db)
    requires i < |rows|
    requires before == Found(db, Next(script), storable) && after == Put(before, rows[i], storable)
    ensures OneByOne(db, rows[i..], storable, script, tally) ==
            match Next(script).fault
            case Fine =>
              OneByOne(after, rows[i + 1..], storable, Rest(script), Count(tally, before, rows[i], storable))
            case Refused => Outcome(before, false, tally)
            case Lost => Outcome(after, false, tally)
  {
    assert rows[i..][1..] == rows[i + 1..];
  }

  /** The loop that isolates the rows the database cannot hold. */
  method InsertOneByOne(db: PunchTable, rows: seq<Row>, storable: Storable, script: seq<Weather>)
    returns (stored: bool, tally: Tally)
    modifies db
    ensures Outcome(db.State(), stored, tally) == OneByOne(old(db.State()), rows, storable, script, ZERO)
  {
    var weather := script;
    tally := ZERO;
    assert rows[0..] == rows;
    for i := 0 to |rows|
      invariant OneByOne(old(db.State()), rows, storable, script, ZERO) ==
                OneByOne(db.State(), rows[i..], storable, weather, tally)
    {
      ghost var before := Found(db.State(), Next(weather), storable);
      OneByOneStep(db.State(), rows, i, storable, weather, tally, before, Put(before, rows[i], storable));
      var result := db.Create(rows[i], storable, Next(weather));
      weather := Rest(weather);
      match result {
        case Done(_) => tally := tally.(inserted := tally.inserted + 1);
        case Raised(Duplicate) => tally := tally.(duplicates := tally.duplicates + 1);
        case Raised(Data) => tally := tally.(skipped := tally.skipped + 1);
        case Raised(Transient) => return false, tally;
      }
    }
    return true, tally;
  }

  /** `storeAttlog` from the parsed records on. */
  method StoreRecords(db: PunchTable, device: Registered, records: seq<Record>, storable: Storable, script: seq<Weather>)
    returns (stored: bool, tally: Tally)
    modifies db
    ensures Outcome(db.State(), stored, tally) == Store(old(db.State()), Batch(device, records), storable, script)
  {
    if |records| == 0 {
      return true, ZERO;
    }
    var rows := Batch(device, records);
    var result := db.CreateMany(rows, storable, Next(script));
    match result {
      case Done(count) =>
        return true, Tally(count, |rows| - count, 0);
      case Raised(error) =>
        if error != Data {
          return false, ZERO;
        }
    }
    stored, tally := InsertOneByOne(db, rows, storable, Rest(script));
  }

  method StoreAttlog(db: PunchTable, device: Registered, body: string, storable: Storable, script: seq<Weather>)
    returns (stored: bool, tally: Tally)
    modifies db
    ensures Outcome(db.State(), stored, tally) == Store(old(db.State()), Batch(device, Records(body)), storable, script)
  {
    var records, _ := ParseAttlogBody(body);
    stored, tally := StoreRecords(db, device, records, storable, script);
  }

  // ---- Answering one push ----

  datatype Reply = Ok | ServerError | Unclaimed | Unauthorized

  /** One push of a body: who the serial number resolves to, the secret in its path, the weather. */
  datatype Push = Push(device: Option<Registered>, secret: Option<string>, script: seq<Weather>)

  /** The serial number finds a device, and not a deleted one. */
  predicate Resolves(db: Db, push: Push) {
    push.device.Some? && (push.device.value.id == db.device ==> db.registered)
  }

  predicate Trusted(push: Push) {
    push.device.Some? && Registration.IsDeviceRequestTrusted(push.device.value.secret, push.secret)
  }

  function RowsOf(push: Push, records: seq<Record>): seq<Row>
    requires push.device.Some?
  {
    Batch(push.device.value, records)
  }

  /** The database and the reply after one push of the records. */
  function Answer(db: Db, records: seq<Record>, push: Push, storable: Storable): (answer: (Db, Reply))
    ensures answer.0.device == db.device && (answer.0.registered ==> db.registered)
  {
    if !Resolves(db, push) then (db, Unclaimed)
    else if !Trusted(push) then (db, Unauthorized)
    else
      var outcome := Store(db, RowsOf(push, records), storable, push.script);
      (outcome.db, if outcome.stored then Ok else ServerError)
  }

  method HandleCdataPost(db: PunchTable, push: Push, body: string, storable: Storable) returns (reply: Reply)
    modifies db
    ensures (db.State(), reply) == Answer(old(db.State()), Records(body), push, storable)
  {
    if !Resolves(db.State(), push) {
      return Unclaimed;
    }
    if !Trusted(push) {
      return Unauthorized;
    }
    var stored, _ := StoreAttlog(db, push.device.value, body, storable, push.script);
    return if stored then Ok else ServerError;
  }

  /** Only a push that carries the registered device's own secret reaches the table or is answered OK. */
  lemma OnlyTheSecretOpensTheTable(db: Db, records: seq<Record>, push: Push, storable: Storable)
    ensures var (after, reply) := Answer(db, records, push, storable);
            if push.device.None? || (push.device.value.id == db.device && !db.registered)
            then after == db && reply == Unclaimed
            else if push.secret != Some(push.device.value.secret) then after == db && reply == Unauthorized
            else reply == Ok || reply == ServerError
  {
  }

  // ---- A device repeating its buffer ----

  function Deliver(db: Db, records: seq<Record>, pushes: seq<Push>, storable: Storable): (end: Db)
    ensures end.device == db.device && (end.registered ==> db.registered)
    decreases |pushes|
  {
    if pushes == [] then db
    else Deliver(Answer(db, records, pushes[0], storable).0, records, pushes[1..], storable)
  }

  /** Some push of the sequence was answered OK. */
  predicate Acked(db: Db, records: seq<Record>, pushes: seq<Push>, storable: Storable)
    decreases |pushes|
  {
    pushes != [] &&
    var (after, reply) := Answer(db, records, pushes[0], storable);
    reply == Ok || Acked(after, records, pushes[1..], storable)
  }

  /** A sequence of pushes is answered OK if and only if one of them is, the others before it having had their effect. */
  lemma {:induction false} AckedAtAPush(db: Db, records: seq<Record>, pushes: seq<Push>, storable: Storable)
    ensures Acked(db, records, pushes, storable) <==>
            exists n :: 0 <= n < |pushes|
                        && Answer(Deliver(db, records, pushes[..n], storable), records, pushes[n], storable).1 == Ok
    decreases |pushes|
  {
    if pushes != [] {
      var after, rest := Answer(db, records, pushes[0], storable).0, pushes[1..];
      AckedAtAPush(after, records, rest, storable);
      assert pushes[..0] == [];
      forall n | 0 <= n < |rest|
        ensures rest[n] == pushes[n + 1]
        ensures Deliver(after, records, rest[..n], storable) == Deliver(db, records, pushes[..n + 1], storable)
      {
        DeliverFirst(db, records, pushes[0], rest[..n], pushes[..n + 1], storable);
      }
      assert forall n :: 1 <= n < |pushes| ==> pushes[n] == rest[n - 1];
    }
  }

  lemma DeliverFirst(db: Db, records: seq<Record>, push: Push, rest: seq<Push>, pushes: seq<Push>, storable: Storable)
    requires pushes == [push] + rest
    ensures Deliver(db, records, pushes, storable) == Deliver(Answer(db, records, push, storable).0, records, rest, storable)
  {
    assert pushes[1..] == rest;
  }

  // ---- Laws of the insert ----

  /** Every storable row already has its key in the table. */
  ghost predicate Present(table: Table, rows: seq<Row>, storable: Storable) {
    forall i :: 0 <= i < |rows| && storable(rows[i].record) ==> Has(table, KeyOf(rows[i]))
  }

  lemma HasGrows(table: Table, after: Table, key: Key)
    requires table <= after && Has(table, key)
    ensures Has(after, key)
  {
    var i :| 0 <= i < |table| && KeyOf(table[i]) == key;
    assert KeyOf(after[i]) == key;
  }

  lemma PresentGrows(table: Table, after: Table, rows: seq<Row>, storable: Storable)
    requires table <= after && Present(table, rows, storable)
    ensures Present(after, rows, storable)
  {
    forall i | 0 <= i < |rows| && storable(rows[i].record) ensures Has(after, KeyOf(rows[i])) {
      HasGrows(table, after, KeyOf(rows[i]));
    }
  }

  lemma InsertHas(table: Table, row: Row, storable: Storable)
    requires storable(row.record)
    ensures Has(Insert(table, row, storable), KeyOf(row))
  {
    var after := Insert(table, row, storable);
    if !Has(table, KeyOf(row)) {
      assert after[|table|] == row;
    }
  }

  lemma PresentAfterInsert(table: Table, done: seq<Row>, row: Row, storable: Storable)
    requires Present(table, done, storable)
    ensures Present(Insert(table, row, storable), done + [row], storable)
  {
    var after := Insert(table, row, storable);
    PresentGrows(table, after, done, storable);
    if storable(row.record) {
      InsertHas(table, row, storable);
    }
  }

  lemma {:induction false} InsertAllPresent(table: Table, done: seq<Row>, rows: seq<Row>, storable: Storable)
    requires Present(table, done, storable)
    ensures Present(InsertAll(table, rows, storable), done + rows, storable)
    decreases |rows|
  {
    if rows == [] {
      assert done + rows == done;
    } else {
      PresentAfterInsert(table, done, rows[0], storable);
      assert done + [rows[0]] + rows[1..] == done + rows;
      InsertAllPresent(Insert(table, rows[0], storable), done + [rows[0]], rows[1..], storable);
    }
  }

  lemma {:induction false} InsertAllIdle(table: Table, rows: seq<Row>, storable: Storable)
    requires Present(table, rows, storable)
    ensures InsertAll(table, rows, storable) == table
    decreases |rows|
  {
    if rows != [] {
      assert Insert(table, rows[0], storable) == table;
      InsertAllIdle(table, rows[1..], storable);
    }
  }

  lemma {:induction false} InsertAllConcat(table: Table, a: seq<Row>, b: seq<Row>, storable: Storable)
    ensures InsertAll(table, a + b, storable) == InsertAll(InsertAll(table, a, storable), b, storable)
    decreases |a|
  {
    if a == [] {
      assert a + b == b;
    } else {
      assert (a + b)[1..] == a[1..] + b;
      InsertAllConcat(Insert(table, a[0], storable), a[1..], b, storable);
    }
  }

  /** Repeating a batch over a part of itself already stored comes to the longer part. */
  lemma InsertAllAbsorbs(table: Table, rows: seq<Row>, j: nat, k: nat, storable: Storable)
    requires j <= |rows| && k <= |rows|
    ensures InsertAll(InsertAll(table, rows[..j], storable), rows[..k], storable) ==
            InsertAll(table, rows[..if j <= k then k else j], storable)
  {
    var part := InsertAll(table, rows[..j], storable);
    InsertAllPresent(table, [], rows[..j], storable);
    assert [] + rows[..j] == rows[..j];
    if j <= k {
      assert rows[..k] == rows[..j] + rows[j..k];
      InsertAllConcat(part, rows[..j], rows[j..k], storable);
      InsertAllIdle(part, rows[..j], storable);
      InsertAllConcat(table, rows[..j], rows[j..k], storable);
    } else {
      assert forall i :: 0 <= i < k ==> rows[..k][i] == rows[..j][i];
      InsertAllIdle(part, rows[..k], storable);
    }
  }

  // ---- Where new rows come from ----

  /** The first storable row of the batch with its key. */
  ghost predicate FirstOfKey(rows: seq<Row>, k: nat, storable: Storable)
    requires k < |rows|
  {
    && storable(rows[k].record)
    && forall j :: 0 <= j < k && storable(rows[j].record) ==> KeyOf(rows[j]) != KeyOf(rows[k])
  }

  ghost predicate Wins(rows: seq<Row>, row: Row, storable: Storable) {
    exists k :: 0 <= k < |rows| && rows[k] == row && FirstOfKey(rows, k, storable)
  }

  ghost predicate WinsSome(batches: seq<seq<Row>>, row: Row, storable: Storable) {
    exists j :: 0 <= j < |batches| && Wins(batches[j], row, storable)
  }

  /** Old rows stay; a new row is another request's, or the first of its key in a batch. */
  ghost predicate Grown(table: Table, after: Table, others: seq<Row>, batches: seq<seq<Row>>, storable: Storable) {
    && table <= after
    && (Unique(table) ==> Unique(after))
    && forall i :: |table| <= i < |after| ==> after[i] in others || WinsSome(batches, after[i], storable)
  }

  lemma WinsSomeOfMore(a: seq<seq<Row>>, b: seq<seq<Row>>, row: Row, storable: Storable)
    requires WinsSome(a, row, storable) || WinsSome(b, row, storable)
    ensures WinsSome(a + b, row, storable)
  {
    if WinsSome(a, row, storable) {
      var j :| 0 <= j < |a| && Wins(a[j], row, storable);
      assert Wins((a + b)[j], row, storable);
    } else {
      var j :| 0 <= j < |b| && Wins(b[j], row, storable);
      assert Wins((a + b)[|a| + j], row, storable);
    }
  }

  lemma GrownTransitive(t0: Table, t1: Table, t2: Table, o1: seq<Row>, o2: seq<Row>,
                        b1: seq<seq<Row>>, b2: seq<seq<Row>>, storable: Storable)
    requires Grown(t0, t1, o1, b1, storable) && Grown(t1, t2, o2, b2, storable)
    ensures Grown(t0, t2, o1 + o2, b1 + b2, storable)
  {
    forall i | |t0| <= i < |t2| && t2[i] !in o1 + o2 ensures WinsSome(b1 + b2, t2[i], storable) {
      assert i < |t1| ==> t2[i] == t1[i];
      WinsSomeOfMore(b1, b2, t2[i], storable);
    }
  }

  /** The same batch again is no further batch. */
  lemma GrownTwiceTheSame(table: Table, after: Table, others: seq<Row>, rows: seq<Row>, storable: Storable)
    requires Grown(table, after, others, [rows] + [rows], storable)
    ensures Grown(table, after, others, [rows], storable)
  {
    forall i | |table| <= i < |after| && after[i] !in others ensures WinsSome([rows], after[i], storable) {
      var j :| 0 <= j < 2 && Wins(([rows] + [rows])[j], after[i], storable);
      assert Wins([rows][0], after[i], storable);
    }
  }

  lemma {:induction false} OthersGrow(table: Table, others: seq<Row>, storable: Storable)
    ensures Grown(table, InsertAll(table, others, storable), others, [], storable)
    decreases |others|
  {
    if others != [] {
      var one := Insert(table, others[0], storable);
      assert Grown(table, one, [others[0]], [], storable);
      OthersGrow(one, others[1..], storable);
      GrownTransitive(table, one, InsertAll(one, others[1..], storable), [others[0]], others[1..], [], [], storable);
      assert [others[0]] + others[1..] == others;
    }
  }

  lemma InsertGrows(table: Table, rows: seq<Row>, k: nat, storable: Storable)
    requires k < |rows| && Present(table, rows[..k], storable)
    ensures Grown(table, Insert(table, rows[k], storable), [], [rows], storable)
    ensures Present(Insert(table, rows[k], storable), rows[..k + 1], storable)
  {
    assert rows[..k + 1] == rows[..k] + [rows[k]];
    PresentAfterInsert(table, rows[..k], rows[k], storable);
    if storable(rows[k].record) && !Has(table, KeyOf(rows[k])) {
      assert forall j :: 0 <= j < k ==> rows[..k][j] == rows[j];
      assert FirstOfKey(rows, k, storable);
      assert Wins([rows][0], rows[k], storable);
    }
  }

  lemma {:induction false} BatchGrows(table: Table, rows: seq<Row>, k: nat, storable: Storable)
    requires k <= |rows| && Present(table, rows[..k], storable)
    ensures Grown(table, InsertAll(table, rows[k..], storable), [], [rows], storable)
    decreases |rows| - k
  {
    if k < |rows| {
      var one := Insert(table, rows[k], storable);
      assert rows[k..][1..] == rows[k + 1..];
      InsertGrows(table, rows, k, storable);
      BatchGrows(one, rows, k + 1, storable);
      var after := InsertAll(one, rows[k + 1..], storable);
      GrownTransitive(table, one, after, [], [], [rows], [rows], storable);
      GrownTwiceTheSame(table, after, [], rows, storable);
    }
  }

  // ---- One try ----

  /** Everything other requests write during a script. */
  function OthersIn(script: seq<Weather>): seq<Row> {
    if script == [] then [] else script[0].others + OthersIn(script[1..])
  }

  lemma OthersInSplit(script: seq<Weather>)
    ensures OthersIn(script) == Next(script).others + OthersIn(Rest(script))
  {
  }

  /** More permitted sources permit the same growth. */
  lemma GrownWeaken(table: Table, after: Table, o: seq<Row>, more: seq<Row>, batches: seq<seq<Row>>, storable: Storable)
    requires Grown(table, after, o, batches, storable)
    ensures Grown(table, after, o + more, batches, storable)
  {
  }

  /** What other requests write first, then one row of the batch. */
  lemma StatementGrows(table: Table, others: seq<Row>, rows: seq<Row>, k: nat, storable: Storable)
    requires k < |rows| && Present(table, rows[..k], storable)
    ensures var before := InsertAll(table, others, storable);
            var after := Insert(before, rows[k], storable);
            && Grown(table, before, others, [rows], storable)
            && Grown(table, after, others, [rows], storable)
            && Present(after, rows[..k + 1], storable)
  {
    var before := InsertAll(table, others, storable);
    OthersGrow(table, others, storable);
    PresentGrows(table, before, rows[..k], storable);
    InsertGrows(before, rows, k, storable);
    var after := Insert(before, rows[k], storable);
    GrownTransitive(table, before, after, others, [], [], [rows], storable);
    GrownTransitive(table, before, before, others, [], [], [rows], storable);
    assert others + [] == others && [] + [rows] == [rows];
  }

  lemma {:induction false} FallbackGrows(db: Db, rows: seq<Row>, k: nat, storable: Storable,
                                         script: seq<Weather>, tally: Tally)
    requires k <= |rows| && Present(db.rows, rows[..k], storable)
    ensures var outcome := OneByOne(db, rows[k..], storable, script, tally);
            outcome.db.registered ==>
              && Grown(db.rows, outcome.db.rows, OthersIn(script), [rows], storable)
              && (outcome.stored ==> Present(outcome.db.rows, rows, storable))
    decreases |rows| - k
  {
    var outcome := OneByOne(db, rows[k..], storable, script, tally);
    if k == |rows| {
      assert rows[..k] == rows;
    } else if outcome.db.registered {
      var weather, rest := Next(script), OthersIn(Rest(script));
      var before := Found(db, weather, storable);
      var after := Put(before, rows[k], storable);
      OneByOneStep(db, rows, k, storable, script, tally, before, after);
      OthersInSplit(script);
      StatementGrows(db.rows, weather.others, rows, k, storable);
      match weather.fault
      case Fine =>
        FallbackGrows(after, rows, k + 1, storable, Rest(script), Count(tally, before, rows[k], storable));
        GrownTransitive(db.rows, after.rows, outcome.db.rows, weather.others, rest, [rows], [rows], storable);
        GrownTwiceTheSame(db.rows, outcome.db.rows, OthersIn(script), rows, storable);
      case Refused =>
        GrownWeaken(db.rows, before.rows, weather.others, rest, [rows], storable);
      case Lost =>
        GrownWeaken(db.rows, after.rows, weather.others, rest, [rows], storable);
    }
  }

  /** What other requests write first, then the whole batch. */
  lemma BatchStatementGrows(table: Table, others: seq<Row>, rows: seq<Row>, storable: Storable)
    ensures var before := InsertAll(table, others, storable);
            var after := InsertAll(before, rows, storable);
            && Grown(table, before, others, [rows], storable)
            && Grown(table, after, others, [rows], storable)
            && Present(after, rows, storable)
  {
    var before := InsertAll(table, others, storable);
    var after := InsertAll(before, rows, storable);
    OthersGrow(table, others, storable);
    assert rows[..0] == [] && rows[0..] == rows && [] + rows == rows;
    BatchGrows(before, rows, 0, storable);
    InsertAllPresent(before, [], rows, storable);
    GrownTransitive(table, before, after, others, [], [], [rows], storable);
    GrownTransitive(table, before, before, others, [], [], [rows], storable);
    assert others + [] == others && [] + [rows] == [rows];
  }

  lemma FallbackAfterOthersGrows(table: Table, before: Db, others: seq<Row>, rows: seq<Row>, storable: Storable,
                                 script: seq<Weather>)
    requires before.rows == InsertAll(table, others, storable)
    ensures var outcome := OneByOne(before, rows, storable, script, ZERO);
            outcome.db.registered ==>
              && Grown(table, outcome.db.rows, others + OthersIn(script), [rows], storable)
              && (outcome.stored ==> Present(outcome.db.rows, rows, storable))
  {
    var outcome := OneByOne(before, rows, storable, script, ZERO);
    if outcome.db.registered {
      OthersGrow(table, others, storable);
      assert rows[..0] == [] && rows[0..] == rows;
      FallbackGrows(before, rows, 0, storable, script, ZERO);
      GrownTransitive(table, before.rows, outcome.db.rows, others, OthersIn(script), [], [rows], storable);
      assert [] + [rows] == [rows];
    }
  }

  /**
   One try on a device that is not deleted meanwhile adds rows of its own batch only, the first
   storable row of each key; acknowledged, all of them.
   */
  lemma StoreGrows(db: Db, rows: seq<Row>, storable: Storable, script: seq<Weather>)
    ensures var outcome := Store(db, rows, storable, script);
            outcome.db.registered ==>
              && Grown(db.rows, outcome.db.rows, OthersIn(script), [rows], storable)
              && (outcome.stored ==> Present(outcome.db.rows, rows, storable))
  {
    if rows != [] && Store(db, rows, storable, script).db.registered {
      var others, rest := Next(script).others, OthersIn(Rest(script));
      var before := Found(db, Next(script), storable);
      OthersInSplit(script);
      BatchStatementGrows(db.rows, others, rows, storable);
      if Next(script).fault == Fine && !AcceptsAll(before, rows, storable) {
        FallbackAfterOthersGrows(db.rows, before, others, rows, storable, Rest(script));
      } else {
        GrownWeaken(db.rows, before.rows, others, rest, [rows], storable);
        GrownWeaken(db.rows, InsertAll(before.rows, rows, storable), others, rest, [rows], storable);
      }
    }
  }

  // ---- Exactly once ----

  function OthersOf(pushes: seq<Push>): seq<Row> {
    if pushes == [] then [] else OthersIn(pushes[0].script) + OthersOf(pushes[1..])
  }

  /** The batch of every push, as the device was configured when it arrived. */
  function BatchesOf(records: seq<Record>, pushes: seq<Push>): seq<seq<Row>> {
    if pushes == [] then []
    else (if pushes[0].device.Some? then [RowsOf(pushes[0], records)] else []) + BatchesOf(records, pushes[1..])
  }

  /** Every registered push resolves to the same device row. */
  predicate SameDevice(pushes: seq<Push>, id: DeviceId) {
    forall i :: 0 <= i < |pushes| && pushes[i].device.Some? ==> pushes[i].device.value.id == id
  }

  ghost predicate Recorded(table: Table, id: DeviceId, records: seq<Record>, storable: Storable) {
    forall i :: 0 <= i < |records| && storable(records[i]) ==> Has(table, KeyFor(id, records[i]))
  }

  lemma RecordedGrows(table: Table, after: Table, id: DeviceId, records: seq<Record>, storable: Storable)
    requires table <= after && Recorded(table, id, records, storable)
    ensures Recorded(after, id, records, storable)
  {
    forall i | 0 <= i < |records| && storable(records[i]) ensures Has(after, KeyFor(id, records[i])) {
      HasGrows(table, after, KeyFor(id, records[i]));
    }
  }

  lemma AnswerGrows(db: Db, records: seq<Record>, push: Push, storable: Storable)
    ensures var (after, reply) := Answer(db, records, push, storable);
            after.registered ==>
              && Grown(db.rows, after.rows, OthersIn(push.script), BatchesOf(records, [push]), storable)
              && (reply == Ok ==> push.device.Some? && Recorded(after.rows, push.device.value.id, records, storable))
  {
    if push.device.Some? {
      var rows := RowsOf(push, records);
      assert BatchesOf(records, [push]) == [rows];
      StoreGrows(db, rows, storable, push.script);
      var (after, reply) := Answer(db, records, push, storable);
      if reply == Ok && after.registered {
        forall i | 0 <= i < |records| && storable(records[i])
          ensures Has(after.rows, KeyFor(push.device.value.id, records[i]))
        {
          assert KeyOf(rows[i]) == KeyFor(push.device.value.id, records[i]);
        }
      }
    }
  }

  lemma GrownAcross(table: Table, after: Table, end: Table, records: seq<Record>, pushes: seq<Push>, storable: Storable)
    requires pushes != []
    requires Grown(table, after, OthersIn(pushes[0].script), BatchesOf(records, [pushes[0]]), storable)
    requires Grown(after, end, OthersOf(pushes[1..]), BatchesOf(records, pushes[1..]), storable)
    ensures Grown(table, end, OthersOf(pushes), BatchesOf(records, pushes), storable)
  {
    var others, batches := OthersOf(pushes[1..]), BatchesOf(records, pushes[1..]);
    GrownTransitive(table, after, end, OthersIn(pushes[0].script), others,
                    BatchesOf(records, [pushes[0]]), batches, storable);
    assert BatchesOf(records, [pushes[0]]) + batches == BatchesOf(records, pushes);
  }

  lemma {:induction false} DeliverGrows(db: Db, records: seq<Record>, pushes: seq<Push>, storable: Storable)
    requires SameDevice(pushes, db.device) && Deliver(db, records, pushes, storable).registered
    ensures var end := Deliver(db, records, pushes, storable);
            && Grown(db.rows, end.rows, OthersOf(pushes), BatchesOf(records, pushes), storable)
            && (Acked(db, records, pushes, storable) || Recorded(db.rows, db.device, records, storable) ==>
                  Recorded(end.rows, db.device, records, storable))
    decreases |pushes|
  {
    if pushes != [] {
      var push, rest := pushes[0], pushes[1..];
      AnswerGrows(db, records, push, storable);
      var (after, reply) := Answer(db, records, push, storable);
      if Recorded(db.rows, db.device, records, storable) {
        RecordedGrows(db.rows, after.rows, db.device, records, storable);
      }
      DeliverGrows(after, records, rest, storable);
      GrownAcross(db.rows, after.rows, Deliver(after, records, rest, storable).rows, records, pushes, storable);
    }
  }

  // ---- A deleted device has no rows ----

  /** None of the rows is the device's, unless it is registered. */
  ghost predicate Sound(db: Db) {
    db.registered || forall i :: 0 <= i < |db.rows| ==> db.rows[i].device != db.device
  }

  lemma {:induction false} WithoutHasNone(rows: Table, device: DeviceId)
    ensures forall i :: 0 <= i < |Without(rows, device)| ==> Without(rows, device)[i].device != device
  {
    if rows != [] {
      WithoutHasNone(rows[1..], device);
    }
  }

  lemma {:induction false} InsertAllAddsNone(table: Table, rows: seq<Row>, storable: Storable, device: DeviceId)
    requires forall i :: 0 <= i < |table| ==> table[i].device != device
    requires forall i :: 0 <= i < |rows| ==> rows[i].device != device
    ensures forall i :: 0 <= i < |InsertAll(table, rows, storable)| ==> InsertAll(table, rows, storable)[i].device != device
    decreases |rows|
  {
    if rows != [] {
      InsertAllAddsNone(Insert(table, rows[0], storable), rows[1..], storable, device);
    }
  }

  lemma FoundIsSound(db: Db, weather: Weather, storable: Storable)
    ensures Sound(Found(db, weather, storable))
  {
    WithoutHasNone(InsertAll(db.rows, weather.others, storable), db.device);
  }

  lemma PutAllIsSound(db: Db, rows: seq<Row>, storable: Storable)
    requires Sound(db)
    ensures Sound(PutAll(db, rows, storable))
  {
    if !db.registered && AcceptsAll(db, rows, storable) {
      assert forall i :: 0 <= i < |rows| ==> Accepts(db, rows[i], storable);
      InsertAllAddsNone(db.rows, rows, storable, db.device);
    }
  }

  lemma {:induction false} OneByOneIsSound(db: Db, rows: seq<Row>, storable: Storable, script: seq<Weather>, tally: Tally)
    requires Sound(db)
    ensures Sound(OneByOne(db, rows, storable, script, tally).db)
    decreases |rows|
  {
    if rows != [] {
      var before := Found(db, Next(script), storable);
      FoundIsSound(db, Next(script), storable);
      OneByOneIsSound(Put(before, rows[0], storable), rows[1..], storable, Rest(script),
                      Count(tally, before, rows[0], storable));
    }
  }

  lemma StoreIsSound(db: Db, rows: seq<Row>, storable: Storable, script: seq<Weather>)
    requires Sound(db)
    ensures Sound(Store(db, rows, storable, script).db)
  {
    if rows != [] {
      var before := Found(db, Next(script), storable);
      FoundIsSound(db, Next(script), storable);
      PutAllIsSound(before, rows, storable);
      OneByOneIsSound(before, rows, storable, Rest(script), ZERO);
    }
  }

  lemma {:induction false} DeliverIsSound(db: Db, records: seq<Record>, pushes: seq<Push>, storable: Storable)
    requires Sound(db)
    ensures Sound(Deliver(db, records, pushes, storable))
    decreases |pushes|
  {
    if pushes != [] {
      if pushes[0].device.Some? {
        StoreIsSound(db, RowsOf(pushes[0], records), storable, pushes[0].script);
      }
      DeliverIsSound(Answer(db, records, pushes[0], storable).0, records, pushes[1..], storable);
    }
  }

  // ---- Counting ----

  /** How many rows hold the punch. */
  function Times(table: Table, device: DeviceId, record: Record): nat {
    if table == [] then 0
    else (if SamePunch(table[0], device, record) then 1 else 0) + Times(table[1..], device, record)
  }

  lemma {:induction false} AbsentCountsZero(table: Table, device: DeviceId, record: Record)
    requires forall i :: 0 <= i < |table| ==> !SamePunch(table[i], device, record)
    ensures Times(table, device, record) == 0
  {
    if table != [] {
      assert forall i :: 0 <= i < |table| - 1 ==> table[1..][i] == table[i + 1];
      AbsentCountsZero(table[1..], device, record);
    }
  }

  lemma {:induction false} UniqueCountsOnce(table: Table, device: DeviceId, record: Record)
    requires Unique(table) && Has(table, KeyFor(device, record))
    ensures Times(table, device, record) == 1
  {
    if SamePunch(table[0], device, record) {
      assert forall i :: 0 <= i < |table| - 1 ==> table[1..][i] == table[i + 1];
      AbsentCountsZero(table[1..], device, record);
    } else {
      var i :| 0 <= i < |table| && KeyOf(table[i]) == KeyFor(device, record);
      assert table[1..][i - 1] == table[i];
      UniqueCountsOnce(table[1..], device, record);
    }
  }

  /** Every storable record of the batch is in the table exactly once. */
  ghost predicate ExactlyOnce(db: Db, records: seq<Record>, storable: Storable) {
    forall i :: 0 <= i < |records| && storable(records[i]) ==> Times(db.rows, db.device, records[i]) == 1
  }

  /**
   Any failures, repetitions, edits of the device and writes of others: once a push of the body is
   answered OK, every storable record of it is in the table exactly once if and only if the device
   has not been deleted (or there was nothing to store).  While it has not, rows that were there are
   as they were, and a new row is another request's or the first storable one of its key.
   */
  lemma StoredExactlyOnce(db: Db, records: seq<Record>, pushes: seq<Push>, storable: Storable)
    requires Unique(db.rows) && Sound(db) && SameDevice(pushes, db.device)
    ensures var end := Deliver(db, records, pushes, storable);
            && (end.registered ==>
                  Grown(db.rows, end.rows, OthersOf(pushes), BatchesOf(records, pushes), storable))
            && (Acked(db, records, pushes, storable) ==>
                  (ExactlyOnce(end, records, storable) <==>
                     end.registered || forall i :: 0 <= i < |records| ==> !storable(records[i])))
  {
    var end := Deliver(db, records, pushes, storable);
    if end.registered {
      DeliverGrows(db, records, pushes, storable);
      if Acked(db, records, pushes, storable) {
        forall i | 0 <= i < |records| && storable(records[i]) ensures Times(end.rows, db.device, records[i]) == 1 {
          UniqueCountsOnce(end.rows, db.device, records[i]);
        }
      }
    } else {
      DeliverIsSound(db, records, pushes, storable);
      forall i | 0 <= i < |records| ensures Times(end.rows, db.device, records[i]) == 0 {
        AbsentCountsZero(end.rows, db.device, records[i]);
      }
    }
  }

  /** Two storable punches of an acknowledged body share a row exactly if they agree in all four columns. */
  lemma OneRowForEachPunch(db: Db, records: seq<Record>, pushes: seq<Push>, storable: Storable, a: nat, b: nat)
    returns (i: nat, j: nat)
    requires Unique(db.rows) && SameDevice(pushes, db.device)
    requires Acked(db, records, pushes, storable) && Deliver(db, records, pushes, storable).registered
    requires a < |records| && b < |records| && storable(records[a]) && storable(records[b])
    ensures var rows := Deliver(db, records, pushes, storable).rows;
            && i < |rows| && SamePunch(rows[i], db.device, records[a])
            && j < |rows| && SamePunch(rows[j], db.device, records[b])
            && (i == j <==> records[a].pin == records[b].pin && records[a].punchTime == records[b].punchTime
                            && records[a].status == records[b].status && records[a].verifyMode == records[b].verifyMode)
  {
    var rows := Deliver(db, records, pushes, storable).rows;
    DeliverGrows(db, records, pushes, storable);
    var key, other := KeyFor(db.device, records[a]), KeyFor(db.device, records[b]);
    assert Has(rows, key) && Has(rows, other);
    i :| 0 <= i < |rows| && KeyOf(rows[i]) == key;
    j :| 0 <= j < |rows| && KeyOf(rows[j]) == other;
  }

  /**
   And OK may be said although nothing is stored: the device is deleted between the lookup and the
   insert, the foreign key fails for every record, and that counts as an error of the data.
   */
  lemma DeletionUnderAPushIsAcknowledged(db: Db, records: seq<Record>, device: Registered, storable: Storable)
    returns (push: Push)
    requires db.registered && device.id == db.device && records != []
    ensures push.device == Some(device) && Resolves(db, push) && Trusted(push)
    ensures var (after, reply) := Answer(db, records, push, storable);
            && reply == Ok && !after.registered
            && forall i :: 0 <= i < |after.rows| ==> after.rows[i].device != db.device
  {
    push := Push(Some(device), Some(device.secret), [Weather([], true, Fine)]);
    var rows := RowsOf(push, records);
    var before := Found(db, push.script[0], storable);
    assert !Accepts(before, rows[0], storable);
    assert Rest(push.script) == [];
    UninterruptedFallback(before, rows, storable, ZERO);
    FoundIsSound(db, push.script[0], storable);
    OneByOneIsSound(before, rows, storable, [], ZERO);
  }

  lemma {:induction false} BatchesAreOfPushes(records: seq<Record>, pushes: seq<Push>, j: nat) returns (p: nat)
    requires j < |BatchesOf(records, pushes)|
    ensures p < |pushes| && pushes[p].device.Some? && BatchesOf(records, pushes)[j] == RowsOf(pushes[p], records)
  {
    var here := if pushes[0].device.Some? then 1 else 0;
    if j < here {
      p := 0;
    } else {
      var q := BatchesAreOfPushes(records, pushes[1..], j - here);
      p := q + 1;
    }
  }

  lemma WinnerComesFrom(records: seq<Record>, pushes: seq<Push>, storable: Storable, id: DeviceId, row: Row)
    returns (p: nat, first: nat)
    requires SameDevice(pushes, id) && WinsSome(BatchesOf(records, pushes), row, storable)
    ensures p < |pushes| && pushes[p].device.Some? && first < |records|
    ensures row == PunchRow(pushes[p].device.value, records[first]) && storable(records[first])
    ensures forall j :: 0 <= j < first && storable(records[j]) ==> KeyFor(id, records[j]) != KeyOf(row)
  {
    var batches := BatchesOf(records, pushes);
    var j :| 0 <= j < |batches| && Wins(batches[j], row, storable);
    p := BatchesAreOfPushes(records, pushes, j);
    first :| 0 <= first < |batches[j]| && batches[j][first] == row && FirstOfKey(batches[j], first, storable);
    forall k | 0 <= k < first && storable(records[k]) ensures KeyFor(id, records[k]) != KeyOf(row) {
      assert KeyOf(batches[j][k]) == KeyFor(id, records[k]);
    }
  }

  lemma NewRowOfKey(table: Table, end: Table, others: seq<Row>, batches: seq<seq<Row>>, storable: Storable, key: Key)
    returns (row: Row)
    requires Grown(table, end, others, batches, storable)
    requires Has(end, key) && !Has(table, key) && !Has(others, key)
    ensures row in end && KeyOf(row) == key && WinsSome(batches, row, storable)
  {
    var at :| 0 <= at < |end| && KeyOf(end[at]) == key;
    row := end[at];
    assert forall i :: 0 <= i < |table| ==> KeyOf(end[i]) != key by {
      assert forall i :: 0 <= i < |table| ==> end[i] == table[i];
    }
    assert row !in others;
  }

  /** A key nobody else wrote ends up with the first storable record of that key, as some push built it. */
  lemma FirstRecordWins(db: Db, records: seq<Record>, pushes: seq<Push>, storable: Storable, i: nat)
    returns (row: Row, p: nat, first: nat)
    requires Unique(db.rows) && SameDevice(pushes, db.device)
    requires Acked(db, records, pushes, storable) && Deliver(db, records, pushes, storable).registered
    requires i < |records| && storable(records[i])
    requires !Has(db.rows, KeyFor(db.device, records[i])) && !Has(OthersOf(pushes), KeyFor(db.device, records[i]))
    ensures row in Deliver(db, records, pushes, storable).rows && KeyOf(row) == KeyFor(db.device, records[i])
    ensures p < |pushes| && pushes[p].device.Some? && first < |records|
    ensures row == PunchRow(pushes[p].device.value, records[first]) && storable(records[first])
    ensures row.device == db.device && row.record == records[first]
    ensures forall j :: 0 <= j < first && storable(records[j]) ==>
              KeyFor(db.device, records[j]) != KeyFor(db.device, records[i])
  {
    var end := Deliver(db, records, pushes, storable);
    DeliverGrows(db, records, pushes, storable);
    row := NewRowOfKey(db.rows, end.rows, OthersOf(pushes), BatchesOf(records, pushes), storable,
                       KeyFor(db.device, records[i]));
    p, first := WinnerComesFrom(records, pushes, storable, db.device, row);
  }

  // ---- Failures leave no trace ----

  /** Nobody else writes, and the device stays. */
  predicate Quiet(script: seq<Weather>) {
    forall i :: 0 <= i < |script| ==> script[i].others == [] && !script[i].deletes
  }

  /** A fallback without other writers has stored the front part of its rows when it stops. */
  lemma {:induction false} QuietFallback(db: Db, rows: seq<Row>, storable: Storable,
                                         script: seq<Weather>, tally: Tally) returns (k: nat)
    requires Quiet(script) && db.registered
    ensures var outcome := OneByOne(db, rows, storable, script, tally);
            && k <= |rows| && outcome.db == db.(rows := InsertAll(db.rows, rows[..k], storable))
            && (outcome.stored ==> k == |rows|)
    decreases |rows|
  {
    if rows == [] {
      return 0;
    }
    var after := Put(db, rows[0], storable);
    assert Found(db, Next(script), storable) == db;
    match Next(script).fault
    case Fine =>
      var n := QuietFallback(after, rows[1..], storable, Rest(script), Count(tally, db, rows[0], storable));
      k := n + 1;
      assert rows[..k][1..] == rows[1..][..n];
    case Refused => k := 0;
    case Lost =>
      k := 1;
      assert rows[..1][1..] == [];
  }

  lemma QuietStore(db: Db, rows: seq<Row>, storable: Storable, script: seq<Weather>) returns (k: nat)
    requires Quiet(script) && db.registered
    ensures var outcome := Store(db, rows, storable, script);
            && k <= |rows| && outcome.db == db.(rows := InsertAll(db.rows, rows[..k], storable))
            && (outcome.stored ==> k == |rows|)
  {
    assert rows[..|rows|] == rows && rows[..0] == [];
    if rows == [] {
      return 0;
    }
    assert Found(db, Next(script), storable) == db;
    match Next(script).fault
    case Refused => k := 0;
    case Lost => k := if AcceptsAll(db, rows, storable) then |rows| else 0;
    case Fine =>
      if AcceptsAll(db, rows, storable) {
        k := |rows|;
      } else {
        k := QuietFallback(db, rows, storable, Rest(script), ZERO);
      }
  }

  /** Every push that resolves finds the device configured the same, and nobody else writes. */
  predicate Undisturbed(pushes: seq<Push>, device: Registered) {
    forall i :: 0 <= i < |pushes| ==>
      Quiet(pushes[i].script) && (pushes[i].device.None? || pushes[i].device == Some(device))
  }

  lemma {:induction false} UndisturbedFrom(start: Db, db: Db, records: seq<Record>, pushes: seq<Push>,
                                           storable: Storable, device: Registered, rows: seq<Row>, j: nat)
    requires Undisturbed(pushes, device) && rows == Batch(device, records) && start.registered
    requires j <= |rows| && db == start.(rows := InsertAll(start.rows, rows[..j], storable))
    ensures j == |rows| || Acked(db, records, pushes, storable) ==>
              Deliver(db, records, pushes, storable) == start.(rows := InsertAll(start.rows, rows, storable))
    decreases |pushes|
  {
    assert rows[..|rows|] == rows;
    if pushes != [] {
      var push := pushes[0];
      var (after, _) := Answer(db, records, push, storable);
      if Trusted(push) {
        var k := QuietStore(db, rows, storable, push.script);
        InsertAllAbsorbs(start.rows, rows, j, k, storable);
        UndisturbedFrom(start, after, records, pushes[1..], storable, device, rows, if j <= k then k else j);
      } else {
        UndisturbedFrom(start, after, records, pushes[1..], storable, device, rows, j);
      }
    }
  }

  /** Undisturbed, any sequence of failures that ends acknowledged equals one failure-free run. */
  lemma FailuresLeaveNoTrace(db: Db, records: seq<Record>, pushes: seq<Push>, storable: Storable, device: Registered)
    requires db.registered && Undisturbed(pushes, device) && Acked(db, records, pushes, storable)
    ensures Deliver(db, records, pushes, storable) == Store(db, Batch(device, records), storable, []).db
  {
    var rows := Batch(device, records);
    assert rows[..0] == [] && rows[..|rows|] == rows;
    UndisturbedFrom(db, db, records, pushes, storable, device, rows, 0);
    UninterruptedStores(db, rows, storable);
    var _ := QuietStore(db, rows, storable, []);
  }

  lemma {:induction false} UninterruptedFallback(db: Db, rows: seq<Row>, storable: Storable, tally: Tally)
    ensures OneByOne(db, rows, storable, [], tally).stored
    decreases |rows|
  {
    if rows != [] {
      var before := Found(db, CALM, storable);
      UninterruptedFallback(Put(before, rows[0], storable), rows[1..], storable, Count(tally, before, rows[0], storable));
    }
  }

  lemma UninterruptedStores(db: Db, rows: seq<Row>, storable: Storable)
    ensures Store(db, rows, storable, []).stored
  {
    UninterruptedFallback(Found(db, CALM, storable), rows, storable, ZERO);
  }

  // ---- The batch insert refines the per-record loop ----

  lemma {:induction false} CalmLoop(db: Db, rows: seq<Row>, storable: Storable, tally: Tally)
    requires db.registered && AllStorable(rows, storable)
    ensures var after := InsertAll(db.rows, rows, storable);
            var added := |after| - |db.rows|;
            OneByOne(db, rows, storable, [], tally) ==
            Outcome(db.(rows := after), true,
                    Tally(tally.inserted + added, tally.duplicates + (|rows| - added), tally.skipped))
    decreases |rows|
  {
    if rows != [] {
      assert Found(db, CALM, storable) == db;
      CalmLoop(Put(db, rows[0], storable), rows[1..], storable, Count(tally, db, rows[0], storable));
    }
  }

  /** Same table, same counts, duplicates inside the batch or in the table included. */
  lemma BatchInsertRefinesLoop(db: Db, rows: seq<Row>, storable: Storable)
    requires db.registered
    ensures Store(db, rows, storable, []) == OneByOne(db, rows, storable, [], ZERO)
  {
    assert Found(db, CALM, storable) == db;
    assert AcceptsAll(db, rows, storable) <==> AllStorable(rows, storable);
    if AllStorable(rows, storable) {
      CalmLoop(db, rows, storable, ZERO);
    }
  }

  function Unstorable(rows: seq<Row>, storable: Storable): nat {
    if rows == [] then 0 else (if storable(rows[0].record) then 0 else 1) + Unstorable(rows[1..], storable)
  }

  /** A completed fallback accounts for every row, and while the device is there it skips the unstorable ones only. */
  lemma {:induction false} FallbackCounts(db: Db, rows: seq<Row>, storable: Storable, script: seq<Weather>, tally: Tally)
    requires OneByOne(db, rows, storable, script, tally).stored
    ensures var outcome := OneByOne(db, rows, storable, script, tally);
            var t := outcome.tally;
            && t.inserted + t.duplicates + t.skipped == tally.inserted + tally.duplicates + tally.skipped + |rows|
            && (outcome.db.registered ==> t.skipped == tally.skipped + Unstorable(rows, storable))
    decreases |rows|
  {
    if rows != [] {
      var before := Found(db, Next(script), storable);
      FallbackCounts(Put(before, rows[0], storable), rows[1..], storable, Rest(script),
                     Count(tally, before, rows[0], storable));
    }
  }

  // ---- What a stored row says ----

  lemma StoredInstant(device: Registered, record: Record, utc: int)
    requires device.timezone.Some? && utc == ZonedWallClockToUtc(device.timezone.value, record.punchTime)
    ensures PunchRow(device, record).punchTimeUtc == Some(utc)
  {
  }

  /** A row is held exactly when the queue would hold it. */
  lemma RowIsHeldAsQueued(device: Registered, record: Record, now: int)
    ensures PunchRow(device, record).held ==
            DeliveryQueue.NewPunch(device.id, DeliveryQueue.HasActiveWebhook(device.webhook), now).row.held
  {
  }

  /**
   A device's text that its zone shows at one instant alone is stored with exactly that instant, if
   and only if the readings the conversion takes are of the year 100 or later.
   */
  lemma RowCarriesTheInstant(device: Registered, record: Record, text: string, bound: int, t: int)
    requires ParseDeviceDatetime(text) == Some(record.punchTime)
    requires device.timezone.Some? && ValidZone(device.timezone.value, bound) && bound <= MS_PER_DAY
    requires forall u :: Shows(device.timezone.value, u, record.punchTime) <==> u == t
    ensures PunchRow(device, record).punchTimeUtc == Some(t) <==> SinceYear100(device.timezone.value, record.punchTime)
  {
    ParsedTimesAreWhole(text);
    ToUtcInvertsUniqueReadings(device.timezone.value, bound, t, record.punchTime);
    StoredInstant(device, record, ZonedWallClockToUtc(device.timezone.value, record.punchTime));
  }
}
