/** Identifiers for existing DIDs, page by page
    (lib/migration/src/m20250502_075301_did_identifier.rs), and the revocation list column
    that is joined to them later
    (lib/migration/src/m20250605_085900_populate_identifier_id_column_in_revocation_list.rs). */
module DidIdentifiers {
  import opened Wrappers
  import opened Paths

  const BATCH_SIZE: nat := 100

  datatype Did = Did(id: string, name: string, organisation: Option<string>, deactivated: bool, didType: string, deletedAt: Option<int>)

  datatype Status = Active | Deactivated

  datatype Identifier = Identifier(
    name: string, isRemote: bool, status: Status, organisation: Option<string>, did: string, deletedAt: Option<int>)

  datatype Credential = Credential(
    issuerDid: Option<string>, holderDid: Option<string>, issuerIdentifier: Option<string>, holderIdentifier: Option<string>)

  datatype Proof = Proof(
    holderDid: Option<string>, verifierDid: Option<string>, holderIdentifier: Option<string>, verifierIdentifier: Option<string>)

  datatype RevocationList = RevocationList(issuerDid: string, issuerIdentifier: Option<string>)

  /** The identifier of a DID has the DID's own id. */
  function IdentifierOf(d: Did, now: int): Identifier {
    Identifier(d.name, d.didType == "REMOTE", if d.deactivated then Deactivated else Active, d.organisation, d.id,
               if d.deletedAt.Some? then Some(now) else None)
  }

  /** The identifier stands for the DID: with its name and organisation, remote exactly if the DID
      is, deactivated exactly if the DID is, and deleted, as of now, exactly if the DID is. */
  predicate Describes(x: Identifier, d: Did, now: int) {
    && x.did == d.id && x.name == d.name && x.organisation == d.organisation
    && (x.isRemote <==> d.didType == "REMOTE")
    && (x.status == Deactivated <==> d.deactivated)
    && (x.deletedAt.Some? <==> d.deletedAt.Some?) && (x.deletedAt.Some? ==> x.deletedAt.value == now)
  }

  // ----- Independent queries page through the same order

  ghost predicate IdsDistinct(dids: seq<Did>) {
    forall i, j | 0 <= i < j < |dids| :: dids[i].id != dids[j].id
  }

  ghost function Ids(dids: seq<Did>): seq<string> {
    Keys(dids, (d: Did) => d.id)
  }

  /** A result of `ORDER BY id ASC` over the table. */
  ghost predicate OrderedById(dids: seq<Did>, sorted: seq<Did>) {
    && (forall d :: d in sorted <==> d in dids)
    && IdsDistinct(sorted)
    && Ascending(Ids(sorted))
  }

  lemma TailOrdered(sorted: seq<Did>)
    requires sorted != [] && IdsDistinct(sorted) && Ascending(Ids(sorted))
    ensures IdsDistinct(sorted[1..]) && Ascending(Ids(sorted[1..]))
  {
    var ids, tail := Ids(sorted), Ids(sorted[1..]);
    assert forall i | 0 <= i < |tail| :: tail[i] == ids[i + 1];
  }

  /** The first row is the least, so two results start alike. */
  lemma SameHead(a: seq<Did>, b: seq<Did>)
    requires a != [] && b != [] && (forall d :: d in a <==> d in b)
    requires IdsDistinct(a) && IdsDistinct(b) && Ascending(Ids(a)) && Ascending(Ids(b))
    ensures a[0] == b[0]
  {
    assert a[0] in b && b[0] in a;
    var i :| 0 <= i < |b| && b[i] == a[0];
    var j :| 0 <= j < |a| && a[j] == b[0];
    if i != 0 && j != 0 {
      assert AtMost(Ids(b)[0], Ids(b)[i]) && AtMost(Ids(a)[0], Ids(a)[j]);
      AtMostAntisymmetric(a[0].id, b[0].id);
    }
  }

  /** Distinct ids leave the database no choice: any two executions order the rows alike. */
  lemma {:induction false} OrderIsUnique(a: seq<Did>, b: seq<Did>)
    requires forall d :: d in a <==> d in b
    requires IdsDistinct(a) && IdsDistinct(b) && Ascending(Ids(a)) && Ascending(Ids(b))
    ensures a == b
    decreases |a|
  {
    assert a == [] <==> b == [] by {
      assert a != [] ==> a[0] in b;
      assert b != [] ==> b[0] in a;
    }
    if a != [] {
      SameHead(a, b);
      TailOrdered(a);
      TailOrdered(b);
      forall d
        ensures d in a[1..] <==> d in b[1..]
      {
        InTail(a, d);
        InTail(b, d);
      }
      OrderIsUnique(a[1..], b[1..]);
      assert a == [a[0]] + a[1..] && b == [b[0]] + b[1..];
    }
  }

  lemma InTail(a: seq<Did>, d: Did)
    requires a != [] && IdsDistinct(a)
    ensures d in a[1..] <==> d in a && d != a[0]
  {
    if d in a[1..] {
      var i :| 0 <= i < |a| - 1 && a[1..][i] == d;
      assert a[i + 1] == d;
    }
  }

  ghost function Page(sorted: seq<Did>, batch: nat): seq<Did> {
    if batch * BATCH_SIZE >= |sorted| then []
    else if (batch + 1) * BATCH_SIZE >= |sorted| then sorted[batch * BATCH_SIZE..]
    else sorted[batch * BATCH_SIZE..(batch + 1) * BATCH_SIZE]
  }

  /** Each DID among the first `n` rows has its identifier, and there is nothing else new. */
  ghost predicate CreatedFor(sorted: seq<Did>, n: nat, now: int, before: map<string, Identifier>, after: map<string, Identifier>)
    requires n <= |sorted|
  {
    && (forall i | 0 <= i < n :: sorted[i].id in after && Describes(after[sorted[i].id], sorted[i], now))
    && (forall id | id in before :: id in after && after[id] == before[id])
    && (forall id | id in after && id !in before :: exists i :: 0 <= i < n && sorted[i].id == id)
  }

  lemma CreateStep(sorted: seq<Did>, n: nat, now: int, before: map<string, Identifier>, after: map<string, Identifier>)
    requires n < |sorted| && IdsDistinct(sorted) && sorted[n].id !in before && CreatedFor(sorted, n, now, before, after)
    ensures CreatedFor(sorted, n + 1, now, before, after[sorted[n].id := IdentifierOf(sorted[n], now)])
  {
    var grown := after[sorted[n].id := IdentifierOf(sorted[n], now)];
    forall i | 0 <= i < n + 1
      ensures sorted[i].id in grown && Describes(grown[sorted[i].id], sorted[i], now)
    {
      assert i < n ==> sorted[i].id != sorted[n].id;
    }
    forall id | id in grown && id !in before
      ensures exists i :: 0 <= i < n + 1 && sorted[i].id == id
    {
      if id != sorted[n].id {
        var i :| 0 <= i < n && sorted[i].id == id;
      }
    }
  }

  class Database {
    const dids: seq<Did>
    const now: int
    var identifiers: map<string, Identifier>
    var credentials: seq<Credential>
    var proofs: seq<Proof>
    var revocationLists: seq<RevocationList>

    ghost predicate Valid()
      reads this
    {
      IdsDistinct(dids)
    }

    /** `ORDER BY id LIMIT 100 OFFSET 100 * batch`: executed afresh for every page. */
    method SelectPage(batch: nat, ghost sorted: seq<Did>) returns (page: seq<Did>)
      requires Valid() && OrderedById(dids, sorted)
      ensures page == Page(sorted, batch)
    {
      var rows := OrderBy(dids, (d: Did) => d.id);
      assert IdsDistinct(rows) by {
        OrderedIdsDistinct(dids, rows);
      }
      OrderIsUnique(rows, sorted);
      var offset := batch * BATCH_SIZE;
      if offset >= |rows| {
        page := [];
      } else if offset + BATCH_SIZE >= |rows| {
        page := rows[offset..];
      } else {
        page := rows[offset..offset + BATCH_SIZE];
      }
    }

    /** One page: whether to go on is decided by the number of inserted rows. */
    method CreateIdentifiersForDids(batch: nat, ghost sorted: seq<Did>, ghost start: map<string, Identifier>) returns (more: bool)
      requires Valid() && OrderedById(dids, sorted) && batch * BATCH_SIZE <= |sorted|
      requires forall d | d in dids :: d.id !in start
      requires CreatedFor(sorted, batch * BATCH_SIZE, now, start, identifiers)
      modifies this`identifiers
      ensures more ==> (batch + 1) * BATCH_SIZE <= |sorted| && CreatedFor(sorted, (batch + 1) * BATCH_SIZE, now, start, identifiers)
      ensures !more ==> CreatedFor(sorted, |sorted|, now, start, identifiers)
    {
      var page := SelectPage(batch, sorted);
      if page == [] {
        return false;
      }
      ghost var done := batch * BATCH_SIZE;
      for i := 0 to |page|
        invariant CreatedFor(sorted, done + i, now, start, identifiers)
      {
        assert page[i] == sorted[done + i];
        assert sorted[done + i] in sorted;
        CreateStep(sorted, done + i, now, start, identifiers);
        identifiers := identifiers[page[i].id := IdentifierOf(page[i], now)];
      }
      return |page| >= BATCH_SIZE;
    }

    /** `UPDATE ... SET target = source` on the issuer, holder and verifier columns. */
    method SetIdentifiers()
      modifies this`credentials, this`proofs
      ensures |credentials| == |old(credentials)| && |proofs| == |old(proofs)|
      ensures forall i | 0 <= i < |credentials| ::
                var c := old(credentials)[i];
                credentials[i] == c.(issuerIdentifier := c.issuerDid, holderIdentifier := c.holderDid)
      ensures forall i | 0 <= i < |proofs| ::
                var p := old(proofs)[i];
                proofs[i] == p.(holderIdentifier := p.holderDid, verifierIdentifier := p.verifierDid)
    {
      credentials := seq(|credentials|, i requires 0 <= i < |credentials| reads this => credentials[i].(issuerIdentifier := credentials[i].issuerDid));
      credentials := seq(|credentials|, i requires 0 <= i < |credentials| reads this => credentials[i].(holderIdentifier := credentials[i].holderDid));
      proofs := seq(|proofs|, i requires 0 <= i < |proofs| reads this => proofs[i].(holderIdentifier := proofs[i].holderDid));
      proofs := seq(|proofs|, i requires 0 <= i < |proofs| reads this => proofs[i].(verifierIdentifier := proofs[i].verifierDid));
    }

    /** The paging loop ends for any number of DIDs and makes exactly one identifier for each. */
    method Up(ghost sorted: seq<Did>)
      requires Valid() && OrderedById(dids, sorted) && (forall d | d in dids :: d.id !in identifiers)
      modifies this`identifiers, this`credentials, this`proofs
      ensures CreatedFor(sorted, |sorted|, now, old(identifiers), identifiers)
      ensures |credentials| == |old(credentials)| && |proofs| == |old(proofs)|
      ensures forall i | 0 <= i < |credentials| ::
                var c := old(credentials)[i];
                credentials[i] == c.(issuerIdentifier := c.issuerDid, holderIdentifier := c.holderDid)
      ensures forall i | 0 <= i < |proofs| ::
                var p := old(proofs)[i];
                proofs[i] == p.(holderIdentifier := p.holderDid, verifierIdentifier := p.verifierDid)
    {
      var batch: nat := 0;
      var more := true;
      while more
        invariant more ==> batch * BATCH_SIZE <= |sorted| && CreatedFor(sorted, batch * BATCH_SIZE, now, old(identifiers), identifiers)
        invariant !more ==> CreatedFor(sorted, |sorted|, now, old(identifiers), identifiers)
        invariant credentials == old(credentials) && proofs == old(proofs)
        decreases more, |sorted| - batch * BATCH_SIZE
      {
        more := CreateIdentifiersForDids(batch, sorted, old(identifiers));
        batch := batch + 1;
      }
      SetIdentifiers();
    }

    /** `UPDATE revocation_list SET issuer_identifier_id = identifier.id ... WHERE did_id` matches. */
    method PopulateRevocationLists()
      modifies this`revocationLists
      ensures |revocationLists| == |old(revocationLists)|
      ensures forall i | 0 <= i < |revocationLists| ::
                var l := old(revocationLists)[i];
                if exists id :: id in identifiers && identifiers[id].did == l.issuerDid
                then exists id :: id in identifiers && identifiers[id].did == l.issuerDid && revocationLists[i] == l.(issuerIdentifier := Some(id))
                else revocationLists[i] == l
    {
      var table := identifiers;
      var result := [];
      for n := 0 to |revocationLists|
        invariant |result| == n
        invariant forall i | 0 <= i < n ::
                    var l := revocationLists[i];
                    if exists id :: id in identifiers && identifiers[id].did == l.issuerDid
                    then exists id :: id in identifiers && identifiers[id].did == l.issuerDid && result[i] == l.(issuerIdentifier := Some(id))
                    else result[i] == l
      {
        var l := revocationLists[n];
        if exists id | id in identifiers :: identifiers[id].did == l.issuerDid {
          var id :| id in identifiers && identifiers[id].did == l.issuerDid;
          result := result + [l.(issuerIdentifier := Some(id))];
        } else {
          result := result + [l];
        }
      }
      revocationLists := result;
    }
  }

  lemma OrderedIdsDistinct(dids: seq<Did>, rows: seq<Did>)
    requires IdsDistinct(dids) && (forall d :: d in rows <==> d in dids) && (Distinct(dids) ==> Distinct(rows))
    ensures IdsDistinct(rows)
  {
    forall i, j | 0 <= i < j < |rows|
      ensures rows[i].id != rows[j].id
    {
      assert rows[i] in dids && rows[j] in dids;
    }
  }

  /** Identifiers created for the DIDs belong to the DID whose id they carry. */
  lemma IdentifierHasOwnDid(sorted: seq<Did>, now: int, identifiers: map<string, Identifier>, id: string)
    requires CreatedFor(sorted, |sorted|, now, map[], identifiers) && id in identifiers
    ensures identifiers[id].did == id
  {
    var i :| 0 <= i < |sorted| && sorted[i].id == id;
  }

  /** Both migrations in turn: a credential and a revocation list with the same original issuer
      DID resolve to the same identifier, and that identifier is the DID's. */
  method MigrateIssuers(db: Database, ghost sorted: seq<Did>)
    requires db.Valid() && OrderedById(db.dids, sorted) && db.identifiers == map[]
    requires forall i | 0 <= i < |db.revocationLists| :: exists d :: d in db.dids && d.id == db.revocationLists[i].issuerDid
    modifies db
    ensures |db.credentials| == |old(db.credentials)| && |db.revocationLists| == |old(db.revocationLists)|
    ensures forall i, j | 0 <= i < |db.credentials| && 0 <= j < |db.revocationLists|
                          && old(db.credentials)[i].issuerDid == Some(old(db.revocationLists)[j].issuerDid) ::
              && db.credentials[i].issuerIdentifier == db.revocationLists[j].issuerIdentifier
              && db.credentials[i].issuerIdentifier.Some?
              && db.credentials[i].issuerIdentifier.value in db.identifiers
              && Some(db.identifiers[db.credentials[i].issuerIdentifier.value].did) == old(db.credentials)[i].issuerDid
  {
    db.Up(sorted);
    db.PopulateRevocationLists();
    forall j | 0 <= j < |db.revocationLists|
      ensures var did := old(db.revocationLists)[j].issuerDid;
              did in db.identifiers && db.identifiers[did].did == did && db.revocationLists[j].issuerIdentifier == Some(did)
    {
      var did := old(db.revocationLists)[j].issuerDid;
      var d :| d in db.dids && d.id == did;
      assert d in sorted;
      var k :| 0 <= k < |sorted| && sorted[k] == d;
      assert sorted[k].id in db.identifiers && db.identifiers[did].did == did;
      forall id | id in db.identifiers && db.identifiers[id].did == did
        ensures id == did
      {
        IdentifierHasOwnDid(sorted, db.now, db.identifiers, id);
      }
    }
  }
}
