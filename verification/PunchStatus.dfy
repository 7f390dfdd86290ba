/**
 The status badge of a punch record and the list filter meant to agree with it.

 The badge is computed in application code; the filter is a query the database evaluates.
 The query is kept as a syntax tree with a SQL-style evaluator.
 */
module PunchStatus {
  import opened Options
  import opened DeliveryQueue

  datatype Status = Delivered | Pending | Failed | NotApplicable

  function ComputeStatus(row: Row, device: Device, maxAttempts: nat): Status {
    if row.delivered then Delivered
    else if row.held then NotApplicable
    else if !HasActiveWebhook(device) then (if row.attempts > 0 then Failed else NotApplicable)
    else if row.attempts >= maxAttempts then Failed
    else Pending
  }

  datatype Where =
    | DeliveredIs(b: bool)
    | HeldIs(b: bool)
    | AttemptsIs(n: nat)
    | AttemptsGt(n: nat)
    | AttemptsGte(n: nat)
    | AttemptsLt(n: nat)
    | EnabledIs(b: bool)
    | UrlIsNull
    | UrlIsNotNull
    | And(all: seq<Where>)
    | Or(any: seq<Where>)

  predicate Eval(w: Where, row: Row, device: Device) {
    match w
    case DeliveredIs(b) => row.delivered == b
    case HeldIs(b) => row.held == b
    case AttemptsIs(n) => row.attempts == n
    case AttemptsGt(n) => row.attempts > n
    case AttemptsGte(n) => row.attempts >= n
    case AttemptsLt(n) => row.attempts < n
    case EnabledIs(b) => device.enabled == b
    case UrlIsNull => device.url.None?
    case UrlIsNotNull => device.url.Some?
    case And(all) => forall c :: c in all ==> Eval(c, row, device)
    case Or(any) => exists c :: c in any && Eval(c, row, device)
  }

  const NoActiveWebhook: Where := Or([EnabledIs(false), UrlIsNull])
  const ActiveWebhook: Where := And([EnabledIs(true), UrlIsNotNull])

  function StatusCondition(status: Status, maxAttempts: nat): Where {
    match status
    case Delivered => DeliveredIs(true)
    case NotApplicable =>
      And([DeliveredIs(false), Or([HeldIs(true), And([NoActiveWebhook, AttemptsIs(0)])])])
    case Failed =>
      And([DeliveredIs(false), HeldIs(false),
           Or([AttemptsGte(maxAttempts), And([NoActiveWebhook, AttemptsGt(0)])])])
    case Pending =>
      And([DeliveredIs(false), HeldIs(false), And([ActiveWebhook, AttemptsLt(maxAttempts)])])
  }

  lemma EvalAnd2(a: Where, b: Where, row: Row, device: Device)
    ensures Eval(And([a, b]), row, device) <==> Eval(a, row, device) && Eval(b, row, device)
  {
    assert forall c :: c in [a, b] <==> c == a || c == b;
  }

  lemma EvalAnd3(a: Where, b: Where, c: Where, row: Row, device: Device)
    ensures Eval(And([a, b, c]), row, device) <==> Eval(a, row, device) && Eval(b, row, device) && Eval(c, row, device)
  {
    assert forall x :: x in [a, b, c] <==> x == a || x == b || x == c;
  }

  lemma EvalOr2(a: Where, b: Where, row: Row, device: Device)
    ensures Eval(Or([a, b]), row, device) <==> Eval(a, row, device) || Eval(b, row, device)
  {
    assert a in [a, b] && b in [a, b];
    assert forall c :: c in [a, b] <==> c == a || c == b;
  }

  lemma EvalWebhookConditions(row: Row, device: Device)
    ensures Eval(NoActiveWebhook, row, device) <==> !device.enabled || device.url.None?
    ensures Eval(ActiveWebhook, row, device) <==> device.enabled && device.url.Some?
  {
    EvalOr2(EnabledIs(false), UrlIsNull, row, device);
    EvalAnd2(EnabledIs(true), UrlIsNotNull, row, device);
  }

  lemma NotApplicableFilter(row: Row, device: Device, max: nat)
    ensures Eval(StatusCondition(NotApplicable, max), row, device) <==>
              !row.delivered && (row.held || (!(device.enabled && device.url.Some?) && row.attempts == 0))
  {
    var untried := And([NoActiveWebhook, AttemptsIs(0)]);
    EvalWebhookConditions(row, device);
    EvalAnd2(NoActiveWebhook, AttemptsIs(0), row, device);
    EvalOr2(HeldIs(true), untried, row, device);
    EvalAnd2(DeliveredIs(false), Or([HeldIs(true), untried]), row, device);
  }

  lemma FailedFilter(row: Row, device: Device, max: nat)
    ensures Eval(StatusCondition(Failed, max), row, device) <==>
              && !row.delivered && !row.held
              && (row.attempts >= max || (!(device.enabled && device.url.Some?) && row.attempts > 0))
  {
    var tried := And([NoActiveWebhook, AttemptsGt(0)]);
    EvalWebhookConditions(row, device);
    EvalAnd2(NoActiveWebhook, AttemptsGt(0), row, device);
    EvalOr2(AttemptsGte(max), tried, row, device);
    EvalAnd3(DeliveredIs(false), HeldIs(false), Or([AttemptsGte(max), tried]), row, device);
  }

  lemma PendingFilter(row: Row, device: Device, max: nat)
    ensures Eval(StatusCondition(Pending, max), row, device) <==>
              !row.delivered && !row.held && device.enabled && device.url.Some? && row.attempts < max
  {
    var live := And([ActiveWebhook, AttemptsLt(max)]);
    EvalWebhookConditions(row, device);
    EvalAnd2(ActiveWebhook, AttemptsLt(max), row, device);
    EvalAnd3(DeliveredIs(false), HeldIs(false), live, row, device);
  }

  /**
   The filter and the badge agree on a record exactly when neither of two corners applies:
   an enabled webhook whose url is the empty string (the query sees a url, the code does not),
   and a maximum of zero on an untried record without a webhook.
   */
  ghost predicate Agrees(row: Row, device: Device, max: nat) {
    forall status :: Eval(StatusCondition(status, max), row, device) <==> ComputeStatus(row, device, max) == status
  }

  lemma FilterAgreesExactly(row: Row, device: Device, max: nat)
    ensures Agrees(row, device, max) <==>
              row.delivered || row.held
              || (&& !(device.enabled && device.url == Some("") && row.attempts < max)
                  && !(max == 0 && row.attempts == 0 && !HasActiveWebhook(device)))
  {
    NotApplicableFilter(row, device, max);
    FailedFilter(row, device, max);
    PendingFilter(row, device, max);
    assert Agrees(row, device, max) <==>
             && (Eval(StatusCondition(Delivered, max), row, device) <==> ComputeStatus(row, device, max) == Delivered)
             && (Eval(StatusCondition(Pending, max), row, device) <==> ComputeStatus(row, device, max) == Pending)
             && (Eval(StatusCondition(Failed, max), row, device) <==> ComputeStatus(row, device, max) == Failed)
             && (Eval(StatusCondition(NotApplicable, max), row, device) <==>
                   ComputeStatus(row, device, max) == NotApplicable);
  }

  /** Under the settings schema (max at least 1) only the empty url can split them. */
  lemma FilterAgreesWithSettings(row: Row, device: Device, max: nat)
    requires max >= 1 && device.url != Some("")
    ensures forall status :: Eval(StatusCondition(status, max), row, device) <==> ComputeStatus(row, device, max) == status
  {
    FilterAgreesExactly(row, device, max);
    assert Agrees(row, device, max);
  }

  function Matching(table: seq<(Row, Device)>, status: Status, max: nat): seq<(Row, Device)> {
    if table == [] then []
    else
      (if Eval(StatusCondition(status, max), table[0].0, table[0].1) then [table[0]] else [])
      + Matching(table[1..], status, max)
  }

  function Badged(table: seq<(Row, Device)>, status: Status, max: nat): seq<(Row, Device)> {
    if table == [] then []
    else
      (if ComputeStatus(table[0].0, table[0].1, max) == status then [table[0]] else [])
      + Badged(table[1..], status, max)
  }

  /** A filtered list is the table's rows carrying that badge, in order. */
  lemma {:induction false} FilterListsTheBadge(table: seq<(Row, Device)>, status: Status, max: nat)
    requires max >= 1
    requires forall i :: 0 <= i < |table| ==> table[i].1.url != Some("")
    ensures Matching(table, status, max) == Badged(table, status, max)
  {
    if table != [] {
      FilterListsTheBadge(table[1..], status, max);
      FilterAgreesWithSettings(table[0].0, table[0].1, max);
    }
  }

  lemma {:induction false} BadgesPartition(table: seq<(Row, Device)>, max: nat)
    ensures multiset(table) ==
              multiset(Badged(table, Delivered, max)) + multiset(Badged(table, Pending, max))
              + multiset(Badged(table, Failed, max)) + multiset(Badged(table, NotApplicable, max))
  {
    if table != [] {
      BadgesPartition(table[1..], max);
      assert table == [table[0]] + table[1..];
    }
  }

  /** The four filtered lists split every table: nothing is lost, nothing shown twice. */
  lemma FiltersPartition(table: seq<(Row, Device)>, max: nat)
    requires max >= 1
    requires forall i :: 0 <= i < |table| ==> table[i].1.url != Some("")
    ensures multiset(table) ==
              multiset(Matching(table, Delivered, max)) + multiset(Matching(table, Pending, max))
              + multiset(Matching(table, Failed, max)) + multiset(Matching(table, NotApplicable, max))
  {
    FilterListsTheBadge(table, Delivered, max);
    FilterListsTheBadge(table, Pending, max);
    FilterListsTheBadge(table, Failed, max);
    FilterListsTheBadge(table, NotApplicable, max);
    BadgesPartition(table, max);
  }
}
