/** `ORDER BY ... LIMIT n`: the least of some candidates, ties in any order. */
module Selection {
  type Id = string

  predicate Distinct(ids: seq<Id>) {
    forall i, j :: 0 <= i < j < |ids| ==> ids[i] != ids[j]
  }

  predicate NoLater(rank: map<Id, int>, x: Id, y: Id) {
    x in rank && y in rank && rank[x] <= rank[y]
  }

  /** Distinct candidates in order of rank; none with a lower rank left out, none at all while there was room. */
  ghost predicate IsLeast(candidates: set<Id>, rank: map<Id, int>, limit: nat, ids: seq<Id>) {
    && |ids| <= limit && Distinct(ids)
    && (forall id :: id in ids ==> id in candidates)
    && (forall i, j {:trigger NoLater(rank, ids[i], ids[j])} :: 0 <= i < j < |ids| ==> NoLater(rank, ids[i], ids[j]))
    && (forall x, id {:trigger NoLater(rank, x, id)} :: x in ids && id in candidates && id !in ids ==> NoLater(rank, x, id))
    && (|ids| < limit ==> forall id :: id in candidates ==> id in ids)
  }

  /** The same element by element. */
  lemma LeastMeans(candidates: set<Id>, rank: map<Id, int>, limit: nat, ids: seq<Id>)
    requires IsLeast(candidates, rank, limit, ids)
    ensures |ids| <= limit && forall i, j :: 0 <= i < j < |ids| ==> ids[i] != ids[j]
    ensures forall id :: id in ids ==> id in candidates
    ensures forall i, j :: 0 <= i < j < |ids| ==> NoLater(rank, ids[i], ids[j])
    ensures forall x :: x in candidates && x !in ids ==> |ids| == limit && forall k :: 0 <= k < |ids| ==> NoLater(rank, ids[k], x)
  {
    forall x | x in candidates && x !in ids ensures |ids| == limit && forall k :: 0 <= k < |ids| ==> NoLater(rank, ids[k], x) {
      assert forall k :: 0 <= k < |ids| ==> ids[k] in ids;
    }
  }

  ghost predicate IsFirst(candidates: set<Id>, rank: map<Id, int>, x: Id) {
    forall id :: id in candidates ==> NoLater(rank, x, id)
  }

  lemma {:induction false} FirstExists(candidates: set<Id>, rank: map<Id, int>) returns (best: Id)
    requires candidates != {} && candidates <= rank.Keys
    ensures best in candidates && IsFirst(candidates, rank, best)
    decreases |candidates|
  {
    var y :| y in candidates;
    var others := candidates - {y};
    best := y;
    if others != {} {
      var x := FirstExists(others, rank);
      best := if NoLater(rank, x, y) then x else y;
    }
    forall id | id in candidates ensures NoLater(rank, best, id) {
      assert id in rank;
      assert id == y || id in others;
    }
  }

  method SelectLeast(candidates: set<Id>, rank: map<Id, int>, limit: nat) returns (ids: seq<Id>)
    requires candidates <= rank.Keys
    ensures IsLeast(candidates, rank, limit, ids)
  {
    ids := [];
    var rest := candidates;
    while rest != {} && |ids| < limit
      invariant rest <= candidates
      invariant |ids| <= limit && Distinct(ids)
      invariant forall id :: id in candidates <==> id in ids || id in rest
      invariant forall id :: id in ids ==> id !in rest
      invariant forall i, j :: 0 <= i < j < |ids| ==> NoLater(rank, ids[i], ids[j])
      invariant forall x, id :: x in ids && id in rest ==> NoLater(rank, x, id)
      decreases |rest|
    {
      ghost var best := FirstExists(rest, rank);
      var next :| next in rest && forall id :: id in rest ==> NoLater(rank, next, id);
      ids := ids + [next];
      rest := rest - {next};
    }
  }
}
