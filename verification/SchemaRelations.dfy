/** What hangs on a list of credential schemas, and what the tables hold once all of it is
    deleted, read off the columns. */
module SchemaRelations {
  import opened Wrappers
  import opened Relational

  /** The ids that go, by the kind of row they belong to. */
  datatype Collected = Collected(
    schemas: set<Id>, claimSchemas: set<Id>, credentials: set<Id>, claims: set<Id>, proofSchemas: set<Id>,
    inputs: set<Id>, proofs: set<Id>, interactions: set<Id>, blobs: set<Id>)

  /** The NOT NULL columns the deletion relies on. */
  ghost predicate ColumnsPresent(db: Db) {
    && (forall r | r in Rows(db, Claims) :: ID in r)
    && (forall r | r in Rows(db, Credentials) :: ID in r)
    && (forall r | r in Rows(db, Proofs) :: ID in r)
    && (forall r | r in Rows(db, ClaimSchemas) :: ID in r)
    && (forall r | r in Rows(db, ProofInputSchemas) :: ID in r && ProofSchemaId in r)
    && (forall r | r in Rows(db, ProofClaims) :: ProofId in r)
  }

  /** Whether the id goes: claim schemas and credentials of the credential schemas, the claims of
      either, the proof schemas that ask for one with all their inputs, the proofs of these proof
      schemas and those that show such a claim. */
  ghost predicate GoesWithSchemas(db: Db, c: Collected, v: Id) {
    && (v in c.claimSchemas <==> Through(db, ClaimSchemas, ID, v, CredentialSchemaId, c.schemas))
    && (v in c.credentials <==> Through(db, Credentials, ID, v, CredentialSchemaId, c.schemas))
    && (v in c.claims <==> || Through(db, Claims, ID, v, CredentialId, c.credentials)
                           || Through(db, Claims, ID, v, ClaimSchemaId, c.claimSchemas))
    && (v in c.proofSchemas <==> Through(db, ProofInputSchemas, ProofSchemaId, v, CredentialSchemaId, c.schemas))
    && (v in c.inputs <==> Through(db, ProofInputSchemas, ID, v, ProofSchemaId, c.proofSchemas))
    && (v in c.proofs <==> || Through(db, Proofs, ID, v, ProofSchemaId, c.proofSchemas)
                           || Through(db, ProofClaims, ProofId, v, ClaimId, c.claims))
  }

  /** Interactions and blobs go with the credentials and proofs that refer to them. */
  ghost predicate GoesWithHolders(db: Db, c: Collected, v: Id) {
    && (v in c.interactions <==> || Through(db, Credentials, InteractionId, v, ID, c.credentials)
                                 || Through(db, Proofs, InteractionId, v, ID, c.proofs))
    && (v in c.blobs <==> || Through(db, Credentials, CredentialBlobId, v, ID, c.credentials)
                          || Through(db, Credentials, WalletInstanceAttestationBlobId, v, ID, c.credentials)
                          || Through(db, Credentials, WalletUnitAttestationBlobId, v, ID, c.credentials)
                          || Through(db, Proofs, ProofBlobId, v, ID, c.proofs))
  }

  /** The ids are those of everything that hangs on these credential schemas. */
  ghost predicate Related(db: Db, schemas: set<Id>, c: Collected) {
    c.schemas == schemas && forall v :: GoesWithSchemas(db, c, v) && GoesWithHolders(db, c, v)
  }

  /** A row goes by its own id, or with the proof input schema, proof or credential it belongs to. */
  ghost predicate RowGoes(c: Collected, t: Table, r: Row) {
    match t
    case CredentialSchemas => Holds(r, ID, c.schemas)
    case ClaimSchemas => Holds(r, ID, c.claimSchemas)
    case Credentials => Holds(r, ID, c.credentials)
    case Claims => Holds(r, ID, c.claims)
    case ValidityCredentials => Holds(r, CredentialId, c.credentials)
    case RevocationListEntries => Holds(r, CredentialId, c.credentials)
    case ProofSchemas => Holds(r, ID, c.proofSchemas)
    case ProofInputSchemas => Holds(r, ID, c.inputs)
    case ProofInputClaimSchemas => Holds(r, ProofInputSchemaId, c.inputs)
    case Proofs => Holds(r, ID, c.proofs)
    case ProofClaims => Holds(r, ProofId, c.proofs)
    case Interactions => Holds(r, ID, c.interactions)
    case Blobs => Holds(r, ID, c.blobs)
    case _ => false
  }

  /** The columns that lose their value when the blob goes. */
  predicate RefersToBlob(t: Table, col: Column) {
    || (t == Credentials && (col == CredentialBlobId || col == WalletInstanceAttestationBlobId || col == WalletUnitAttestationBlobId))
    || (t == Proofs && col == ProofBlobId)
  }

  /** `r` is `x` without its references to blobs that go. */
  ghost predicate LosesBlobs(c: Collected, t: Table, x: Row, r: Row) {
    && (forall col :: col in r <==> col in x && !(RefersToBlob(t, col) && x[col] in c.blobs))
    && (forall col | col in r :: r[col] == x[col])
  }

  ghost predicate Remains(db: Db, c: Collected, t: Table, r: Row) {
    exists x :: x in Rows(db, t) && !RowGoes(c, t, x) && LosesBlobs(c, t, x, r)
  }

  /** Exactly the rows that do not go are left, without their references to blobs that go. */
  ghost predicate Deleted(db: Db, db': Db, c: Collected) {
    forall t, r :: r in Rows(db', t) <==> Remains(db, c, t, r)
  }

  // ----- Nothing of the credential schemas is left

  ghost predicate NoneOfSchemas(db': Db, t: Table, schemas: set<Id>) {
    forall r | r in Rows(db', t) :: !Holds(r, CredentialSchemaId, schemas)
  }

  /** The row with this id is no longer there, and neither is what this column of it refers to. */
  ghost predicate GoneWith(db': Db, t: Table, x: Row, col: Column, to: Table) {
    ID in x && !HasId(db', t, x[ID]) && col in x ==> !HasId(db', to, x[col])
  }

  ghost predicate CredentialTraceless(db': Db, x: Row) {
    && GoneWith(db', Credentials, x, InteractionId, Interactions)
    && GoneWith(db', Credentials, x, CredentialBlobId, Blobs)
    && GoneWith(db', Credentials, x, WalletInstanceAttestationBlobId, Blobs)
    && GoneWith(db', Credentials, x, WalletUnitAttestationBlobId, Blobs)
  }

  ghost predicate ProofTraceless(db': Db, x: Row) {
    GoneWith(db', Proofs, x, InteractionId, Interactions) && GoneWith(db', Proofs, x, ProofBlobId, Blobs)
  }

  /** The credential schemas are gone, with every claim schema, credential and proof input schema
      of them, every proof schema that asked for one, and the interactions and blobs of every
      credential and proof that is no longer there. */
  ghost predicate NothingLeft(db: Db, db': Db, schemas: set<Id>) {
    && (forall v | v in schemas :: !HasId(db', CredentialSchemas, v))
    && NoneOfSchemas(db', ClaimSchemas, schemas)
    && NoneOfSchemas(db', Credentials, schemas)
    && NoneOfSchemas(db', ProofInputSchemas, schemas)
    && (forall i | i in Rows(db, ProofInputSchemas) && Holds(i, CredentialSchemaId, schemas) && ProofSchemaId in i ::
          !HasId(db', ProofSchemas, i[ProofSchemaId]))
    && (forall x | x in Rows(db, Credentials) :: CredentialTraceless(db', x))
    && (forall x | x in Rows(db, Proofs) :: ProofTraceless(db', x))
  }

  /** A row of the result has the id of a row that stayed. */
  lemma IdStayed(db: Db, db': Db, c: Collected, t: Table, v: Id) returns (x: Row)
    requires Deleted(db, db', c) && HasId(db', t, v)
    ensures x in Rows(db, t) && !RowGoes(c, t, x) && Holds(x, ID, {v})
  {
    var r :| r in Rows(db', t) && Holds(r, ID, {v});
    x :| x in Rows(db, t) && !RowGoes(c, t, x) && LosesBlobs(c, t, x, r);
  }

  lemma GoneIds(db: Db, db': Db, c: Collected, v: Id)
    requires Deleted(db, db', c)
    ensures v in c.schemas ==> !HasId(db', CredentialSchemas, v)
    ensures v in c.proofSchemas ==> !HasId(db', ProofSchemas, v)
    ensures v in c.interactions ==> !HasId(db', Interactions, v)
    ensures v in c.blobs ==> !HasId(db', Blobs, v)
  {
    if HasId(db', CredentialSchemas, v) {
      var x := IdStayed(db, db', c, CredentialSchemas, v);
    }
    if HasId(db', ProofSchemas, v) {
      var x := IdStayed(db, db', c, ProofSchemas, v);
    }
    if HasId(db', Interactions, v) {
      var x := IdStayed(db, db', c, Interactions, v);
    }
    if HasId(db', Blobs, v) {
      var x := IdStayed(db, db', c, Blobs, v);
    }
  }

  ghost function Shortened(c: Collected, t: Table, x: Row): Row {
    map col | col in x && !(RefersToBlob(t, col) && x[col] in c.blobs) :: x[col]
  }

  /** An id that is no longer there belonged to a row that went. */
  lemma GoneRowGoes(db: Db, db': Db, c: Collected, t: Table, x: Row)
    requires Deleted(db, db', c) && x in Rows(db, t) && ID in x && !HasId(db', t, x[ID])
    ensures RowGoes(c, t, x)
  {
    var r := Shortened(c, t, x);
    assert LosesBlobs(c, t, x, r);
    if !RowGoes(c, t, x) {
      assert Remains(db, c, t, r);
      assert Holds(r, ID, {x[ID]});
    }
  }

  /** What refers to one of the credential schemas goes. */
  lemma OfSchemasGoes(db: Db, schemas: set<Id>, c: Collected, t: Table, x: Row)
    requires Related(db, schemas, c) && ColumnsPresent(db)
    requires (t == ClaimSchemas || t == Credentials || t == ProofInputSchemas) && x in Rows(db, t) && Holds(x, CredentialSchemaId, schemas)
    ensures RowGoes(c, t, x)
  {
    assert GoesWithSchemas(db, c, x[ID]);
    ThroughRow(db, t, ID, CredentialSchemaId, schemas, x);
    if t == ProofInputSchemas {
      assert GoesWithSchemas(db, c, x[ProofSchemaId]);
      ThroughRow(db, t, ProofSchemaId, CredentialSchemaId, schemas, x);
      ThroughRow(db, t, ID, ProofSchemaId, c.proofSchemas, x);
    }
  }

  lemma NoneOfSchemasLeft(db: Db, db': Db, schemas: set<Id>, c: Collected, t: Table)
    requires Related(db, schemas, c) && ColumnsPresent(db) && Deleted(db, db', c)
    requires t == ClaimSchemas || t == Credentials || t == ProofInputSchemas
    ensures NoneOfSchemas(db', t, schemas)
  {
    forall r | r in Rows(db', t)
      ensures !Holds(r, CredentialSchemaId, schemas)
    {
      assert Remains(db, c, t, r);
      var x :| x in Rows(db, t) && !RowGoes(c, t, x) && LosesBlobs(c, t, x, r);
      if Holds(r, CredentialSchemaId, schemas) {
        assert CredentialSchemaId in r;
        OfSchemasGoes(db, schemas, c, t, x);
      }
    }
  }

  /** What a credential or proof that went refers to through this column went too. */
  lemma TargetGone(db: Db, db': Db, c: Collected, t: Table, x: Row, col: Column, to: Table, holders: set<Id>, targets: set<Id>)
    requires Deleted(db, db', c) && x in Rows(db, t) && (RowGoes(c, t, x) ==> Holds(x, ID, holders))
    requires forall v | Through(db, t, col, v, ID, holders) :: v in targets
    requires forall v | v in targets :: !HasId(db', to, v)
    ensures GoneWith(db', t, x, col, to)
  {
    if ID in x && !HasId(db', t, x[ID]) && col in x {
      GoneRowGoes(db, db', c, t, x);
      ThroughRow(db, t, col, ID, holders, x);
    }
  }

  lemma HoldersLeaveNoTrace(db: Db, db': Db, schemas: set<Id>, c: Collected, x: Row)
    requires Related(db, schemas, c) && Deleted(db, db', c)
    ensures x in Rows(db, Credentials) ==> CredentialTraceless(db', x)
    ensures x in Rows(db, Proofs) ==> ProofTraceless(db', x)
  {
    forall v
      ensures GoesWithHolders(db, c, v)
      ensures v in c.interactions ==> !HasId(db', Interactions, v)
      ensures v in c.blobs ==> !HasId(db', Blobs, v)
    {
      GoneIds(db, db', c, v);
    }
    if x in Rows(db, Credentials) {
      TargetGone(db, db', c, Credentials, x, InteractionId, Interactions, c.credentials, c.interactions);
      TargetGone(db, db', c, Credentials, x, CredentialBlobId, Blobs, c.credentials, c.blobs);
      TargetGone(db, db', c, Credentials, x, WalletInstanceAttestationBlobId, Blobs, c.credentials, c.blobs);
      TargetGone(db, db', c, Credentials, x, WalletUnitAttestationBlobId, Blobs, c.credentials, c.blobs);
    }
    if x in Rows(db, Proofs) {
      TargetGone(db, db', c, Proofs, x, InteractionId, Interactions, c.proofs, c.interactions);
      TargetGone(db, db', c, Proofs, x, ProofBlobId, Blobs, c.proofs, c.blobs);
    }
  }

  lemma AskingSchemaGone(db: Db, db': Db, schemas: set<Id>, c: Collected, i: Row)
    requires Related(db, schemas, c) && Deleted(db, db', c)
    requires i in Rows(db, ProofInputSchemas) && Holds(i, CredentialSchemaId, schemas) && ProofSchemaId in i
    ensures !HasId(db', ProofSchemas, i[ProofSchemaId])
  {
    assert GoesWithSchemas(db, c, i[ProofSchemaId]);
    ThroughRow(db, ProofInputSchemas, ProofSchemaId, CredentialSchemaId, schemas, i);
    GoneIds(db, db', c, i[ProofSchemaId]);
  }

  /** Once the related rows are deleted, nothing of the credential schemas is left. */
  lemma NothingIsLeft(db: Db, db': Db, schemas: set<Id>, c: Collected)
    requires Related(db, schemas, c) && ColumnsPresent(db) && Deleted(db, db', c)
    ensures NothingLeft(db, db', schemas)
  {
    forall v | v in schemas
      ensures !HasId(db', CredentialSchemas, v)
    {
      GoneIds(db, db', c, v);
    }
    NoneOfSchemasLeft(db, db', schemas, c, ClaimSchemas);
    NoneOfSchemasLeft(db, db', schemas, c, Credentials);
    NoneOfSchemasLeft(db, db', schemas, c, ProofInputSchemas);
    forall i | i in Rows(db, ProofInputSchemas) && Holds(i, CredentialSchemaId, schemas) && ProofSchemaId in i
      ensures !HasId(db', ProofSchemas, i[ProofSchemaId])
    {
      AskingSchemaGone(db, db', schemas, c, i);
    }
    forall x
      ensures x in Rows(db, Credentials) ==> CredentialTraceless(db', x)
      ensures x in Rows(db, Proofs) ==> ProofTraceless(db', x)
    {
      HoldersLeaveNoTrace(db, db', schemas, c, x);
    }
  }
}
