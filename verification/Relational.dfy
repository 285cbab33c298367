/** Tables, foreign keys and the delete statement.

    A row maps each non-null column to its value.  Deleting rows fails when a remaining row
    refers to a removed one through a restricting foreign key, and clears the columns that
    refer to it through an `ON DELETE SET NULL` foreign key. */
module Relational {
  import opened Wrappers

  datatype Table =
    | CredentialSchemas | ClaimSchemas | Credentials | Claims | ValidityCredentials
    | ProofSchemas | ProofInputSchemas | ProofInputClaimSchemas | Proofs | ProofClaims
    | Interactions | Blobs | RevocationLists | RevocationListEntries | WalletUnitAttestedKeys
    | Dids | KeyDids | Identifiers | Certificates | TrustEntities | History

  datatype Column =
    | ID | CredentialSchemaId | ClaimSchemaId | CredentialId | ClaimId | ProofId
    | ProofSchemaId | ProofInputSchemaId | InteractionId | CredentialBlobId
    | WalletInstanceAttestationBlobId | WalletUnitAttestationBlobId | ProofBlobId
    | RevocationListId | RevocationListEntryId | DidId | KeyId | EntityId
    | HolderIdentifierId | IssuerIdentifierId | VerifierIdentifierId | VerifierKeyId | IdentifierId

  type Row = map<Column, Id>

  type Db = map<Table, seq<Row>>

  function Rows(db: Db, t: Table): seq<Row> {
    if t in db then db[t] else []
  }

  datatype Reference = Reference(to: Table, setNull: bool)

  /** The foreign key on a column of a table, if it has one; the target is always the id. */
  type ForeignKeys = (Table, Column) -> Option<Reference>

  predicate Refs(fks: ForeignKeys, from: Table, col: Column, to: Table, setNull: bool) {
    fks(from, col) == Some(Reference(to, setNull))
  }

  /** A key that forbids deleting the row it refers to. */
  function Restrict(to: Table): Option<Reference> {
    Some(Reference(to, false))
  }

  /** `DELETE FROM table WHERE col IN ids`. */
  datatype Delete = Delete(table: Table, col: Column, ids: set<Id>)

  predicate Holds(r: Row, col: Column, ids: set<Id>) {
    col in r && r[col] in ids
  }

  // ----- Keeping and changing rows

  function FilterMap<A, B>(f: A -> Option<B>, xs: seq<A>): seq<B> {
    if xs == [] then []
    else
      var rest := FilterMap(f, xs[1..]);
      match f(xs[0]) case None => rest case Some(y) => [y] + rest
  }

  lemma {:induction false} FilterMapIn<A, B>(f: A -> Option<B>, xs: seq<A>, y: B)
    ensures y in FilterMap(f, xs) <==> exists x :: x in xs && f(x) == Some(y)
  {
    if xs != [] {
      FilterMapIn(f, xs[1..], y);
      assert xs == [xs[0]] + xs[1..];
      if x :| x in xs && f(x) == Some(y) {
        assert x == xs[0] || x in xs[1..];
      }
    }
  }

  lemma {:induction false} FilterMapFuse<A, B, C>(f: A -> Option<B>, g: B -> Option<C>, h: A -> Option<C>, xs: seq<A>)
    requires forall x | x in xs :: h(x) == match f(x) case None => None case Some(y) => g(y)
    ensures FilterMap(g, FilterMap(f, xs)) == FilterMap(h, xs)
  {
    if xs != [] {
      FilterMapFuse(f, g, h, xs[1..]);
      assert xs[0] in xs;
      match f(xs[0]) {
        case None =>
        case Some(y) =>
          assert ([y] + FilterMap(f, xs[1..]))[1..] == FilterMap(f, xs[1..]);
      }
    }
  }

  lemma {:induction false} FilterMapSame<A>(f: A -> Option<A>, xs: seq<A>)
    requires forall x | x in xs :: f(x) == Some(x)
    ensures FilterMap(f, xs) == xs
  {
    if xs != [] {
      assert xs[0] in xs;
      FilterMapSame(f, xs[1..]);
    }
  }

  lemma {:induction false} FilterMapAgree<A, B>(f: A -> Option<B>, g: A -> Option<B>, xs: seq<A>)
    requires forall x | x in xs :: f(x) == g(x)
    ensures FilterMap(f, xs) == FilterMap(g, xs)
  {
    if xs != [] {
      assert xs[0] in xs;
      FilterMapAgree(f, g, xs[1..]);
    }
  }

  // ----- The delete statement

  predicate Matches(d: Delete, t: Table, r: Row) {
    t == d.table && Holds(r, d.col, d.ids)
  }

  function RemovedIds(db: Db, d: Delete): set<Id> {
    set r | r in Rows(db, d.table) && Holds(r, d.col, d.ids) && ID in r :: r[ID]
  }

  /** A restricting foreign key refers to a row about to go. */
  predicate Violates(db: Db, fks: ForeignKeys, d: Delete) {
    exists from: Table, col: Column :: Refs(fks, from, col, d.table, false) &&
      exists r | r in Rows(db, from) :: Holds(r, col, RemovedIds(db, d))
  }

  /** The row without its set-null references to the removed ids. */
  function Cut(fks: ForeignKeys, t: Table, to: Table, gone: set<Id>, r: Row): Row {
    map c | c in r && !(Refs(fks, t, c, to, true) && r[c] in gone) :: r[c]
  }

  /** What becomes of one row of table `t`. */
  function Effect(fks: ForeignKeys, d: Delete, gone: set<Id>, t: Table, r: Row): Option<Row> {
    if Matches(d, t, r) then None else Some(Cut(fks, t, d.table, gone, r))
  }

  function AfterDelete(db: Db, fks: ForeignKeys, d: Delete): Db {
    var gone := RemovedIds(db, d);
    map t | t in db :: FilterMap((r: Row) => Effect(fks, d, gone, t, r), db[t])
  }

  /** Ids are no foreign keys, and no table refers to itself. */
  ghost predicate SoundKeys(fks: ForeignKeys) {
    forall t, c | fks(t, c).Some? :: c != ID && fks(t, c).value.to != t
  }

  lemma RowAfterDelete(db: Db, fks: ForeignKeys, d: Delete, t: Table, r': Row)
    ensures r' in Rows(AfterDelete(db, fks, d), t) <==>
              exists r :: r in Rows(db, t) && Effect(fks, d, RemovedIds(db, d), t, r) == Some(r')
  {
    if t in db {
      var gone := RemovedIds(db, d);
      FilterMapIn((r: Row) => Effect(fks, d, gone, t, r), db[t], r');
    }
  }

  // ----- Referential integrity

  ghost predicate HasId(db: Db, t: Table, v: Id) {
    exists x :: x in Rows(db, t) && Holds(x, ID, {v})
  }

  /** Some row of the table has `v` in the column `idCol` and one of the ids in `linkedCol`. */
  ghost predicate Through(db: Db, t: Table, idCol: Column, v: Id, linkedCol: Column, ids: set<Id>) {
    exists r :: r in Rows(db, t) && Holds(r, linkedCol, ids) && Holds(r, idCol, {v})
  }

  lemma ThroughRow(db: Db, t: Table, idCol: Column, linkedCol: Column, ids: set<Id>, r: Row)
    requires r in Rows(db, t) && Holds(r, linkedCol, ids) && idCol in r
    ensures Through(db, t, idCol, r[idCol], linkedCol, ids)
  {
    assert Holds(r, idCol, {r[idCol]});
  }

  lemma RowHasId(db: Db, t: Table, r: Row)
    requires r in Rows(db, t) && ID in r
    ensures HasId(db, t, r[ID])
  {
    assert Holds(r, ID, {r[ID]});
  }

  lemma RemovedById(db: Db, d: Delete)
    requires d.col == ID
    ensures RemovedIds(db, d) <= d.ids
  {
  }

  ghost predicate Integrity(db: Db, fks: ForeignKeys) {
    forall t, c, r | fks(t, c).Some? && r in Rows(db, t) && c in r :: HasId(db, fks(t, c).value.to, r[c])
  }

  /** A delete that violates no restricting foreign key keeps every reference valid. */
  lemma DeleteKeepsIntegrity(db: Db, fks: ForeignKeys, d: Delete)
    requires SoundKeys(fks) && Integrity(db, fks) && !Violates(db, fks, d)
    ensures Integrity(AfterDelete(db, fks, d), fks)
  {
    var gone, db' := RemovedIds(db, d), AfterDelete(db, fks, d);
    forall t, c, r' | fks(t, c).Some? && r' in Rows(db', t) && c in r'
      ensures HasId(db', fks(t, c).value.to, r'[c])
    {
      var to := fks(t, c).value.to;
      RowAfterDelete(db, fks, d, t, r');
      var r :| r in Rows(db, t) && Effect(fks, d, gone, t, r) == Some(r');
      assert HasId(db, to, r[c]);
      var x :| x in Rows(db, to) && Holds(x, ID, {r[c]});
      if Matches(d, to, x) {
        assert Holds(r, c, gone);
        assert Refs(fks, t, c, to, fks(t, c).value.setNull);
      } else {
        var x' := Cut(fks, to, d.table, gone, x);
        RowAfterDelete(db, fks, d, to, x');
        assert Holds(x', ID, {r'[c]});
      }
    }
  }
}
