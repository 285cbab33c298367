/** Removal of duplicate trust entities before their unique index is created
    (lib/migration/src/m20250113_115815_trust_entity_unique_did.rs). */
module TrustEntities {
  import opened Wrappers

  datatype TrustEntity = TrustEntity(id: Id, did: Id, anchor: Id)

  /** Entity `i` is the earliest with its DID and anchor. */
  ghost predicate Earliest(rows: seq<TrustEntity>, i: nat)
    requires i < |rows|
  {
    forall j | 0 <= j < i :: (rows[j].did, rows[j].anchor) != (rows[i].did, rows[i].anchor)
  }

  /** The rows, in order of creation, without those that repeat an earlier combination. */
  method DuplicateIds(rows: seq<TrustEntity>) returns (ids: set<Id>)
    requires forall i, j | 0 <= i < j < |rows| :: rows[i].id != rows[j].id
    ensures forall i | 0 <= i < |rows| :: rows[i].id in ids <==> !Earliest(rows, i)
  {
    ids := {};
    var combinations: set<(Id, Id)> := {};
    for n := 0 to |rows|
      invariant forall c :: c in combinations <==> exists j :: 0 <= j < n && (rows[j].did, rows[j].anchor) == c
      invariant forall id | id in ids :: exists i :: 0 <= i < n && rows[i].id == id
      invariant forall i | 0 <= i < n :: rows[i].id in ids <==> !Earliest(rows, i)
    {
      var combination := (rows[n].did, rows[n].anchor);
      if combination in combinations {
        ids := ids + {rows[n].id};
      } else {
        combinations := combinations + {combination};
      }
    }
  }

  /** What stays is one entity per combination that existed, the earliest. */
  lemma OnePerCombination(rows: seq<TrustEntity>, ids: set<Id>, i: nat)
    requires i < |rows| && forall k | 0 <= k < |rows| :: rows[k].id in ids <==> !Earliest(rows, k)
    ensures exists k :: 0 <= k <= i && rows[k].id !in ids && (rows[k].did, rows[k].anchor) == (rows[i].did, rows[i].anchor)
    ensures forall k, m | 0 <= k < |rows| && 0 <= m < |rows| && rows[k].id !in ids && rows[m].id !in ids
                          && (rows[k].did, rows[k].anchor) == (rows[m].did, rows[m].anchor) :: k == m
  {
    if !Earliest(rows, i) {
      var j :| 0 <= j < i && (rows[j].did, rows[j].anchor) == (rows[i].did, rows[i].anchor);
      OnePerCombination(rows, ids, j);
    }
    forall k, m | 0 <= k < |rows| && 0 <= m < |rows| && rows[k].id !in ids && rows[m].id !in ids
                  && (rows[k].did, rows[k].anchor) == (rows[m].did, rows[m].anchor)
      ensures k == m
    {
      assert Earliest(rows, k) && Earliest(rows, m);
    }
  }
}
