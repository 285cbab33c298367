/** Hard deletion of credential schemas and everything that hangs on them
    (lib/migration/src/deletion.rs). */
module CredentialSchemaDeletion {
  import opened Wrappers
  import opened Relational
  import opened BatchUtils
  import opened DeletePlans
  import opened SchemaRelations

  /** The foreign keys between the tables involved, at the time the deletion runs. */
  function ForeignKey(t: Table, c: Column): Option<Reference> {
    match t
    case ClaimSchemas =>
      if c == CredentialSchemaId then Restrict(CredentialSchemas) else None
    case Credentials =>
      if c == CredentialSchemaId then Restrict(CredentialSchemas)
      else if c == InteractionId then Restrict(Interactions)
      else if c == CredentialBlobId || c == WalletInstanceAttestationBlobId || c == WalletUnitAttestationBlobId then
        Some(Reference(Blobs, true))
      else None
    case Claims =>
      if c == CredentialId then Restrict(Credentials)
      else if c == ClaimSchemaId then Restrict(ClaimSchemas)
      else None
    case ValidityCredentials =>
      if c == CredentialId then Restrict(Credentials) else None
    case RevocationListEntries =>
      if c == CredentialId then Restrict(Credentials)
      else if c == RevocationListId then Restrict(RevocationLists)
      else None
    case WalletUnitAttestedKeys =>
      if c == RevocationListEntryId then Restrict(RevocationListEntries) else None
    case ProofInputSchemas =>
      if c == CredentialSchemaId then Restrict(CredentialSchemas)
      else if c == ProofSchemaId then Restrict(ProofSchemas)
      else None
    case ProofInputClaimSchemas =>
      if c == ClaimSchemaId then Restrict(ClaimSchemas)
      else if c == ProofInputSchemaId then Restrict(ProofInputSchemas)
      else None
    case Proofs =>
      if c == ProofSchemaId then Restrict(ProofSchemas)
      else if c == InteractionId then Restrict(Interactions)
      else if c == ProofBlobId then Some(Reference(Blobs, true))
      else None
    case ProofClaims =>
      if c == ClaimId then Restrict(Claims)
      else if c == ProofId then Restrict(Proofs)
      else None
    case _ => None
  }

  /** The ids the one pass over the tables collects. */
  ghost function Collect(db: Db, schemas: set<Id>): Collected {
    var claimSchemas := Linked(db, ClaimSchemas, ID, CredentialSchemaId, schemas);
    var credentials := Linked(db, Credentials, ID, CredentialSchemaId, schemas);
    var claims := Linked(db, Claims, ID, CredentialId, credentials) + Linked(db, Claims, ID, ClaimSchemaId, claimSchemas);
    var proofSchemas := Linked(db, ProofInputSchemas, ProofSchemaId, CredentialSchemaId, schemas);
    var inputs := Linked(db, ProofInputSchemas, ID, ProofSchemaId, proofSchemas);
    var proofs := Linked(db, Proofs, ID, ProofSchemaId, proofSchemas) + Linked(db, ProofClaims, ProofId, ClaimId, claims);
    var interactions := Linked(db, Credentials, InteractionId, ID, credentials) + Linked(db, Proofs, InteractionId, ID, proofs);
    var blobs := Linked(db, Credentials, CredentialBlobId, ID, credentials)
               + Linked(db, Credentials, WalletInstanceAttestationBlobId, ID, credentials)
               + Linked(db, Credentials, WalletUnitAttestationBlobId, ID, credentials)
               + Linked(db, Proofs, ProofBlobId, ID, proofs);
    Collected(schemas, claimSchemas, credentials, claims, proofSchemas, inputs, proofs, interactions, blobs)
  }

  /** The delete on one of the thirteen tables. */
  ghost function DeleteFrom(c: Collected, t: Table): Delete {
    match t
    case ProofInputClaimSchemas => Delete(ProofInputClaimSchemas, ProofInputSchemaId, c.inputs)
    case ProofInputSchemas => Delete(ProofInputSchemas, ID, c.inputs)
    case ProofClaims => Delete(ProofClaims, ProofId, c.proofs)
    case ValidityCredentials => Delete(ValidityCredentials, CredentialId, c.credentials)
    case RevocationListEntries => Delete(RevocationListEntries, CredentialId, c.credentials)
    case Claims => Delete(Claims, ID, c.claims)
    case Credentials => Delete(Credentials, ID, c.credentials)
    case Proofs => Delete(Proofs, ID, c.proofs)
    case Interactions => Delete(Interactions, ID, c.interactions)
    case Blobs => Delete(Blobs, ID, c.blobs)
    case ProofSchemas => Delete(ProofSchemas, ID, c.proofSchemas)
    case ClaimSchemas => Delete(ClaimSchemas, ID, c.claimSchemas)
    case _ => Delete(CredentialSchemas, ID, c.schemas)
  }

  const LENGTH: nat := 13

  /** The order in which the tables are deleted from. */
  function TableAt(n: nat): Table {
    match n
    case 0 => ProofInputClaimSchemas
    case 1 => ProofInputSchemas
    case 2 => ProofClaims
    case 3 => ValidityCredentials
    case 4 => RevocationListEntries
    case 5 => Claims
    case 6 => Credentials
    case 7 => Proofs
    case 8 => Interactions
    case 9 => Blobs
    case 10 => ProofSchemas
    case 11 => ClaimSchemas
    case _ => CredentialSchemas
  }

  ghost function Turn(t: Table): nat {
    match t
    case ProofInputClaimSchemas => 0
    case ProofInputSchemas => 1
    case ProofClaims => 2
    case ValidityCredentials => 3
    case RevocationListEntries => 4
    case Claims => 5
    case Credentials => 6
    case Proofs => 7
    case Interactions => 8
    case Blobs => 9
    case ProofSchemas => 10
    case ClaimSchemas => 11
    case CredentialSchemas => 12
    case _ => LENGTH
  }

  /** The deletes, in the order they run. */
  ghost function Plan(c: Collected): (plan: seq<Delete>)
    ensures |plan| == LENGTH
  {
    seq(LENGTH, n requires 0 <= n < LENGTH => DeleteFrom(c, TableAt(n)))
  }

  lemma KeysAreSound()
    ensures SoundKeys(ForeignKey)
  {
  }

  lemma TurnOfTable(n: nat)
    requires n < LENGTH
    ensures Turn(TableAt(n)) == n
  {
  }

  lemma DeleteColumn(c: Collected, t: Table)
    ensures DeleteFrom(c, t).col in {ID, ProofInputSchemaId, ProofId, CredentialId}
    ensures Turn(t) < LENGTH ==> DeleteFrom(c, t).table == t
  {
  }

  lemma PermanentColumns(t: Table, col: Column)
    requires col in {ID, ProofInputSchemaId, ProofId, CredentialId}
    ensures Permanent(ForeignKey, t, col)
  {
  }

  lemma PlanAt(c: Collected, n: nat)
    requires n < LENGTH
    ensures Plan(c)[n] == DeleteFrom(c, TableAt(n)) && Turn(Plan(c)[n].table) == n
    ensures Permanent(ForeignKey, Plan(c)[n].table, Plan(c)[n].col)
  {
    TurnOfTable(n);
    DeleteColumn(c, TableAt(n));
    PermanentColumns(Plan(c)[n].table, Plan(c)[n].col);
  }

  lemma PlanIsSound(c: Collected)
    ensures SoundPlan(ForeignKey, Plan(c))
  {
    KeysAreSound();
    var plan := Plan(c);
    forall n | 0 <= n < LENGTH
      ensures Turn(plan[n].table) == n && Permanent(ForeignKey, plan[n].table, plan[n].col)
    {
      PlanAt(c, n);
    }
    assert forall n: nat | n < LENGTH :: FirstOfTable(plan, n);
  }

  // ----- When the deletion succeeds

  /** No wallet unit attested key refers to a revocation list entry that goes. */
  ghost predicate AttestedKeysApart(db: Db, c: Collected) {
    forall k, e | k in Rows(db, WalletUnitAttestedKeys) && e in Rows(db, RevocationListEntries)
                  && Holds(e, CredentialId, c.credentials) && ID in e ::
      !Holds(k, RevocationListEntryId, {e[ID]})
  }

  /** No credential or proof that stays shares an interaction with one that goes. */
  ghost predicate InteractionsApart(db: Db, c: Collected) {
    && (forall r | r in Rows(db, Credentials) && Holds(r, InteractionId, c.interactions) :: Holds(r, ID, c.credentials))
    && (forall r | r in Rows(db, Proofs) && Holds(r, InteractionId, c.interactions) :: Holds(r, ID, c.proofs))
  }

  /** Claim schemas that go are asked for only by proof input schemas that go. */
  ghost predicate InputClaimsApart(db: Db, c: Collected) {
    forall r | r in Rows(db, ProofInputClaimSchemas) && Holds(r, ClaimSchemaId, c.claimSchemas) ::
      Holds(r, ProofInputSchemaId, c.inputs)
  }

  ghost predicate Deletable(db: Db, c: Collected) {
    AttestedKeysApart(db, c) && InteractionsApart(db, c) && InputClaimsApart(db, c)
  }

  lemma LinkedIn(db: Db, t: Table, idCol: Column, linkedCol: Column, ids: set<Id>, r: Row)
    requires r in Rows(db, t) && Holds(r, linkedCol, ids) && idCol in r
    ensures r[idCol] in Linked(db, t, idCol, linkedCol, ids)
  {
    assert Holds(r, idCol, {r[idCol]});
  }

  lemma LinkedRow(db: Db, t: Table, idCol: Column, linkedCol: Column, ids: set<Id>, v: Id) returns (r: Row)
    requires v in Linked(db, t, idCol, linkedCol, ids)
    ensures r in Rows(db, t) && Holds(r, linkedCol, ids) && Holds(r, idCol, {v})
  {
    r :| r in Rows(db, t) && Holds(r, linkedCol, ids) && Holds(r, idCol, {v});
  }

  /** The collected sets contain what hangs on them. */
  ghost predicate Closes(db: Db, c: Collected) {
    && (forall r | r in Rows(db, ClaimSchemas) && Holds(r, CredentialSchemaId, c.schemas) :: Holds(r, ID, c.claimSchemas))
    && (forall r | r in Rows(db, Credentials) && Holds(r, CredentialSchemaId, c.schemas) :: Holds(r, ID, c.credentials))
    && (forall r | r in Rows(db, Claims) && (Holds(r, CredentialId, c.credentials) || Holds(r, ClaimSchemaId, c.claimSchemas)) ::
          Holds(r, ID, c.claims))
    && (forall r | r in Rows(db, ProofInputSchemas) && (Holds(r, CredentialSchemaId, c.schemas) || Holds(r, ProofSchemaId, c.proofSchemas)) ::
          Holds(r, ID, c.inputs))
    && (forall r | r in Rows(db, Proofs) && Holds(r, ProofSchemaId, c.proofSchemas) :: Holds(r, ID, c.proofs))
    && (forall r | r in Rows(db, ProofClaims) && Holds(r, ClaimId, c.claims) :: Holds(r, ProofId, c.proofs))
    && (forall v | v in c.claimSchemas :: HasId(db, ClaimSchemas, v))
  }

  lemma CollectionCloses(db: Db, schemas: set<Id>)
    requires ColumnsPresent(db)
    ensures Closes(db, Collect(db, schemas))
  {
    var c := Collect(db, schemas);
    forall r | r in Rows(db, ClaimSchemas) && Holds(r, CredentialSchemaId, c.schemas)
      ensures Holds(r, ID, c.claimSchemas)
    {
      LinkedIn(db, ClaimSchemas, ID, CredentialSchemaId, schemas, r);
    }
    forall r | r in Rows(db, Credentials) && Holds(r, CredentialSchemaId, c.schemas)
      ensures Holds(r, ID, c.credentials)
    {
      LinkedIn(db, Credentials, ID, CredentialSchemaId, schemas, r);
    }
    forall r | r in Rows(db, Claims) && (Holds(r, CredentialId, c.credentials) || Holds(r, ClaimSchemaId, c.claimSchemas))
      ensures Holds(r, ID, c.claims)
    {
      if Holds(r, CredentialId, c.credentials) {
        LinkedIn(db, Claims, ID, CredentialId, c.credentials, r);
      } else {
        LinkedIn(db, Claims, ID, ClaimSchemaId, c.claimSchemas, r);
      }
    }
    forall r | r in Rows(db, ProofInputSchemas) && (Holds(r, CredentialSchemaId, c.schemas) || Holds(r, ProofSchemaId, c.proofSchemas))
      ensures Holds(r, ID, c.inputs)
    {
      if Holds(r, CredentialSchemaId, c.schemas) {
        LinkedIn(db, ProofInputSchemas, ProofSchemaId, CredentialSchemaId, schemas, r);
      }
      LinkedIn(db, ProofInputSchemas, ID, ProofSchemaId, c.proofSchemas, r);
    }
    forall r | r in Rows(db, Proofs) && Holds(r, ProofSchemaId, c.proofSchemas)
      ensures Holds(r, ID, c.proofs)
    {
      LinkedIn(db, Proofs, ID, ProofSchemaId, c.proofSchemas, r);
    }
    forall r | r in Rows(db, ProofClaims) && Holds(r, ClaimId, c.claims)
      ensures Holds(r, ProofId, c.proofs)
    {
      LinkedIn(db, ProofClaims, ProofId, ClaimId, c.claims, r);
    }
    forall v | v in c.claimSchemas
      ensures HasId(db, ClaimSchemas, v)
    {
      var s := LinkedRow(db, ClaimSchemas, ID, CredentialSchemaId, schemas, v);
    }
  }

  /** A row goes exactly by the delete of its own table. */
  lemma DroppedMeaning(c: Collected, n: nat, t: Table, r: Row)
    requires n <= LENGTH
    ensures Dropped(Plan(c), n, t, r) <==> Turn(t) < n && Matches(DeleteFrom(c, t), t, r)
  {
    if m :| 0 <= m < n && Matches(Plan(c)[m], t, r) {
      PlanAt(c, m);
    }
    if Turn(t) < n {
      PlanAt(c, Turn(t));
      assert TableAt(Turn(t)) == t;
    }
  }

  /** What a blocking row looks like: it refers to an id that goes, and stays itself. */
  lemma BlockerMeaning(db: Db, c: Collected, n: nat, from: Table, col: Column, r: Row)
    requires n < LENGTH && Blocks(db, ForeignKey, Plan(c), n, from, col, r)
    ensures r in Rows(db, from) && ForeignKey(from, col) == Restrict(TableAt(n)) && n == Turn(TableAt(n))
    ensures Holds(r, col, RemovedIds(db, DeleteFrom(c, TableAt(n))))
    ensures Turn(from) < n ==> !Matches(DeleteFrom(c, from), from, r)
  {
    PlanAt(c, n);
    DeleteColumn(c, TableAt(n));
    DroppedMeaning(c, n, from, r);
  }

  /** Apart from revocation entries every delete is by id, or nothing refers to its table. */
  lemma BlockedTableById(c: Collected, n: nat, from: Table, col: Column)
    requires n < LENGTH && n != 4 && ForeignKey(from, col) == Restrict(TableAt(n))
    ensures DeleteFrom(c, TableAt(n)).col == ID
  {
  }

  /** A row that hangs on rows that go, goes before them; only three kinds of rows can stay. */
  lemma DependentGoes(db: Db, c: Collected, n: nat, from: Table, col: Column, r: Row)
    requires Closes(db, c) && n < LENGTH && n != 4 && ForeignKey(from, col) == Restrict(TableAt(n))
    requires r in Rows(db, from) && Holds(r, col, DeleteFrom(c, TableAt(n)).ids)
    requires Turn(from) < n ==> !Matches(DeleteFrom(c, from), from, r)
    ensures (from in {Credentials, Proofs} && col == InteractionId) || (from == ProofInputClaimSchemas && col == ClaimSchemaId)
  {
    match from {
      case ClaimSchemas =>
      case Credentials =>
      case Claims =>
      case ValidityCredentials =>
      case RevocationListEntries =>
      case WalletUnitAttestedKeys =>
      case ProofInputSchemas =>
      case ProofInputClaimSchemas =>
      case Proofs =>
      case ProofClaims =>
      case _ =>
    }
  }

  /** A blocking row in one of the tables that hang on credential schemas does not exist. */
  lemma BlockerOfCollected(db: Db, c: Collected, n: nat, from: Table, col: Column, r: Row)
    requires Closes(db, c) && n < LENGTH && Blocks(db, ForeignKey, Plan(c), n, from, col, r)
    requires n != Turn(RevocationListEntries)
    ensures (from in {Credentials, Proofs} && col == InteractionId) || (from == ProofInputClaimSchemas && col == ClaimSchemaId)
    ensures Holds(r, col, DeleteFrom(c, TableAt(n)).ids)
  {
    BlockerMeaning(db, c, n, from, col, r);
    BlockedTableById(c, n, from, col);
    RemovedById(db, DeleteFrom(c, TableAt(n)));
    DependentGoes(db, c, n, from, col, r);
  }

  lemma OnlyKeysReferToEntries(from: Table, col: Column)
    requires ForeignKey(from, col) == Restrict(RevocationListEntries)
    ensures from == WalletUnitAttestedKeys && col == RevocationListEntryId
  {
  }

  lemma KeyBreaksCondition(db: Db, c: Collected, r: Row)
    requires r in Rows(db, WalletUnitAttestedKeys)
    requires Holds(r, RevocationListEntryId, RemovedIds(db, Delete(RevocationListEntries, CredentialId, c.credentials)))
    ensures !AttestedKeysApart(db, c)
  {
    var e :| e in Rows(db, RevocationListEntries) && Holds(e, CredentialId, c.credentials) && ID in e && e[ID] == r[RevocationListEntryId];
    assert Holds(r, RevocationListEntryId, {e[ID]});
  }

  lemma BlockerOfEntry(db: Db, c: Collected, from: Table, col: Column, r: Row)
    requires Blocks(db, ForeignKey, Plan(c), 4, from, col, r)
    ensures !AttestedKeysApart(db, c)
  {
    BlockerMeaning(db, c, 4, from, col, r);
    OnlyKeysReferToEntries(from, col);
    KeyBreaksCondition(db, c, r);
  }

  /** The rows that can stay and block each break a condition. */
  lemma StayerBreaksCondition(db: Db, c: Collected, n: nat, from: Table, col: Column, r: Row)
    requires n < LENGTH && ForeignKey(from, col) == Restrict(TableAt(n)) && r in Rows(db, from)
    requires Holds(r, col, DeleteFrom(c, TableAt(n)).ids) && (Turn(from) < n ==> !Matches(DeleteFrom(c, from), from, r))
    requires (from in {Credentials, Proofs} && col == InteractionId) || (from == ProofInputClaimSchemas && col == ClaimSchemaId)
    ensures !Deletable(db, c)
  {
  }

  /** Every row that blocks a delete breaks one of the three conditions. */
  lemma BlockerBreaksCondition(db: Db, c: Collected, n: nat, from: Table, col: Column, r: Row)
    requires Closes(db, c) && n < LENGTH && Blocks(db, ForeignKey, Plan(c), n, from, col, r)
    ensures !Deletable(db, c)
  {
    if n == 4 {
      BlockerOfEntry(db, c, from, col, r);
    } else {
      BlockerOfCollected(db, c, n, from, col, r);
      BlockerMeaning(db, c, n, from, col, r);
      StayerBreaksCondition(db, c, n, from, col, r);
    }
  }

  lemma RowBlocks(db: Db, c: Collected, n: nat, from: Table, col: Column, r: Row, x: Row)
    requires n < LENGTH && ForeignKey(from, col) == Restrict(TableAt(n))
    requires r in Rows(db, from) && x in Rows(db, TableAt(n)) && ID in x && Holds(r, col, {x[ID]})
    requires Matches(DeleteFrom(c, TableAt(n)), TableAt(n), x)
    requires Turn(from) < n ==> !Matches(DeleteFrom(c, from), from, r)
    ensures Blocked(db, ForeignKey, Plan(c), n)
  {
    PlanAt(c, n);
    DroppedMeaning(c, n, from, r);
    assert x[ID] in RemovedIds(db, Plan(c)[n]);
    BlocksIfReferring(db, ForeignKey, Plan(c), n, from, col, r);
  }

  lemma SharedKeyBlocks(db: Db, c: Collected)
    requires !AttestedKeysApart(db, c)
    ensures Blocked(db, ForeignKey, Plan(c), 4)
  {
    var k, e :| k in Rows(db, WalletUnitAttestedKeys) && e in Rows(db, RevocationListEntries)
                && Holds(e, CredentialId, c.credentials) && ID in e && Holds(k, RevocationListEntryId, {e[ID]});
    RowBlocks(db, c, 4, WalletUnitAttestedKeys, RevocationListEntryId, k, e);
  }

  lemma InteractionExists(db: Db, from: Table, r: Row) returns (x: Row)
    requires Integrity(db, ForeignKey) && (from == Credentials || from == Proofs) && r in Rows(db, from) && InteractionId in r
    ensures x in Rows(db, Interactions) && ID in x && x[ID] == r[InteractionId]
  {
    assert ForeignKey(from, InteractionId) == Restrict(Interactions);
    assert HasId(db, Interactions, r[InteractionId]);
    x :| x in Rows(db, Interactions) && Holds(x, ID, {r[InteractionId]});
  }

  lemma SharedInteractionBlocks(db: Db, c: Collected, from: Table, r: Row)
    requires Integrity(db, ForeignKey) && (from == Credentials || from == Proofs) && r in Rows(db, from)
    requires Holds(r, InteractionId, c.interactions)
    requires !Holds(r, ID, if from == Credentials then c.credentials else c.proofs)
    ensures Blocked(db, ForeignKey, Plan(c), 8)
  {
    var x := InteractionExists(db, from, r);
    RowBlocks(db, c, 8, from, InteractionId, r, x);
  }

  lemma ForeignInputClaimBlocks(db: Db, c: Collected)
    requires Closes(db, c) && !InputClaimsApart(db, c)
    ensures Blocked(db, ForeignKey, Plan(c), 11)
  {
    var r :| r in Rows(db, ProofInputClaimSchemas) && Holds(r, ClaimSchemaId, c.claimSchemas) && !Holds(r, ProofInputSchemaId, c.inputs);
    assert HasId(db, ClaimSchemas, r[ClaimSchemaId]);
    var x :| x in Rows(db, ClaimSchemas) && Holds(x, ID, {r[ClaimSchemaId]});
    RowBlocks(db, c, 11, ProofInputClaimSchemas, ClaimSchemaId, r, x);
  }

  lemma BrokenConditionBlocks(db: Db, c: Collected)
    requires Integrity(db, ForeignKey) && Closes(db, c) && !Deletable(db, c)
    ensures exists n :: 0 <= n < LENGTH && Blocked(db, ForeignKey, Plan(c), n)
  {
    if !AttestedKeysApart(db, c) {
      SharedKeyBlocks(db, c);
    } else if !InputClaimsApart(db, c) {
      ForeignInputClaimBlocks(db, c);
    } else if r :| r in Rows(db, Credentials) && Holds(r, InteractionId, c.interactions) && !Holds(r, ID, c.credentials) {
      SharedInteractionBlocks(db, c, Credentials, r);
    } else {
      var r :| r in Rows(db, Proofs) && Holds(r, InteractionId, c.interactions) && !Holds(r, ID, c.proofs);
      SharedInteractionBlocks(db, c, Proofs, r);
    }
  }

  /** No delete of the sequence is blocked exactly when the three conditions hold. */
  lemma UnblockedIffDeletable(db: Db, c: Collected)
    requires Integrity(db, ForeignKey) && Closes(db, c)
    ensures (forall n | 0 <= n < LENGTH :: !Blocked(db, ForeignKey, Plan(c), n)) <==> Deletable(db, c)
  {
    if Deletable(db, c) {
      forall n | 0 <= n < LENGTH
        ensures !Blocked(db, ForeignKey, Plan(c), n)
      {
        if from, col, r :| Blocks(db, ForeignKey, Plan(c), n, from, col, r) {
          BlockerBreaksCondition(db, c, n, from, col, r);
        }
      }
    } else {
      BrokenConditionBlocks(db, c);
    }
  }

  lemma InteractionIsCollected(db: Db, schemas: set<Id>, gone: Row)
    requires gone in Rows(db, Credentials) && Holds(gone, CredentialSchemaId, schemas) && ID in gone && InteractionId in gone
    ensures gone[InteractionId] in Collect(db, schemas).interactions
  {
    var credentials := Linked(db, Credentials, ID, CredentialSchemaId, schemas);
    LinkedIn(db, Credentials, ID, CredentialSchemaId, schemas, gone);
    LinkedIn(db, Credentials, InteractionId, ID, credentials, gone);
  }

  lemma OtherIsNotCollected(db: Db, schemas: set<Id>, kept: Row)
    requires ID in kept && !Holds(kept, CredentialSchemaId, schemas)
    requires forall r | r in Rows(db, Credentials) && Holds(r, ID, {kept[ID]}) :: r == kept
    ensures kept[ID] !in Collect(db, schemas).credentials
  {
    if kept[ID] in Linked(db, Credentials, ID, CredentialSchemaId, schemas) {
      var r := LinkedRow(db, Credentials, ID, CredentialSchemaId, schemas, kept[ID]);
    }
  }

  lemma SharingIsUndeletable(db: Db, c: Collected, kept: Row)
    requires kept in Rows(db, Credentials) && Holds(kept, InteractionId, c.interactions) && !Holds(kept, ID, c.credentials)
    ensures !Deletable(db, c)
  {
  }

  /** Two credentials with one interaction, only one of which goes, are never deletable. */
  lemma SharedInteractionUndeletable(db: Db, schemas: set<Id>, gone: Row, kept: Row)
    requires gone in Rows(db, Credentials) && kept in Rows(db, Credentials)
    requires ID in gone && ID in kept && forall r | r in Rows(db, Credentials) && Holds(r, ID, {kept[ID]}) :: r == kept
    requires Holds(gone, CredentialSchemaId, schemas) && !Holds(kept, CredentialSchemaId, schemas)
    requires InteractionId in gone && Holds(kept, InteractionId, {gone[InteractionId]})
    ensures !Deletable(db, Collect(db, schemas))
  {
    InteractionIsCollected(db, schemas, gone);
    OtherIsNotCollected(db, schemas, kept);
    SharingIsUndeletable(db, Collect(db, schemas), kept);
  }

  // ----- Tables with a shared row

  ghost function IdRow(id: Id): Row {
    map[ID := id]
  }

  ghost function CredentialRow(id: Id, schema: Id, col: Column, v: Id): Row {
    map[ID := id, CredentialSchemaId := schema, col := v]
  }

  /** Credentials 11 and 12 of credential schemas 1 and 2 refer by column `col` to row 5 of table `to`. */
  ghost function SharedExample(col: Column, to: Table): Db {
    map[CredentialSchemas := [IdRow(1), IdRow(2)],
        Credentials := [CredentialRow(11, 1, col, 5), CredentialRow(12, 2, col, 5)],
        to := [IdRow(5)]]
  }

  ghost predicate SharedBy(col: Column, to: Table) {
    (col == InteractionId && to == Interactions) || (col == CredentialBlobId && to == Blobs)
  }

  lemma SharedExampleTables(db: Db, col: Column, to: Table, t: Table)
    requires SharedBy(col, to) && db == SharedExample(col, to)
    ensures Rows(db, t) ==
              if t == CredentialSchemas then [IdRow(1), IdRow(2)]
              else if t == Credentials then [CredentialRow(11, 1, col, 5), CredentialRow(12, 2, col, 5)]
              else if t == to then [IdRow(5)]
              else []
  {
  }

  lemma SharedExampleIds(db: Db, col: Column, to: Table)
    requires SharedBy(col, to) && db == SharedExample(col, to)
    ensures HasId(db, CredentialSchemas, 1) && HasId(db, CredentialSchemas, 2) && HasId(db, to, 5)
  {
    SharedExampleTables(db, col, to, CredentialSchemas);
    SharedExampleTables(db, col, to, to);
    RowHasId(db, CredentialSchemas, Rows(db, CredentialSchemas)[0]);
    RowHasId(db, CredentialSchemas, Rows(db, CredentialSchemas)[1]);
    RowHasId(db, to, Rows(db, to)[0]);
  }

  lemma SharedReference(db: Db, col: Column, to: Table, t: Table, c: Column, r: Row)
    requires SharedBy(col, to) && db == SharedExample(col, to) && ForeignKey(t, c).Some? && r in Rows(db, t) && c in r
    ensures t == Credentials && (c == CredentialSchemaId || c == col)
    ensures if c == col then r[c] == 5 else r[c] == 1 || r[c] == 2
  {
    SharedExampleTables(db, col, to, t);
  }

  lemma SharedExampleIntegrity(db: Db, col: Column, to: Table)
    requires SharedBy(col, to) && db == SharedExample(col, to)
    ensures Integrity(db, ForeignKey)
  {
    SharedExampleIds(db, col, to);
    forall t, c, r | ForeignKey(t, c).Some? && r in Rows(db, t) && c in r
      ensures HasId(db, ForeignKey(t, c).value.to, r[c])
    {
      SharedReference(db, col, to, t, c, r);
    }
  }

  lemma SharedExampleColumns(db: Db, col: Column, to: Table)
    requires SharedBy(col, to) && db == SharedExample(col, to)
    ensures ColumnsPresent(db)
  {
    SharedExampleTables(db, col, to, Claims);
    SharedExampleTables(db, col, to, Credentials);
    SharedExampleTables(db, col, to, Proofs);
    SharedExampleTables(db, col, to, ClaimSchemas);
    SharedExampleTables(db, col, to, ProofInputSchemas);
    SharedExampleTables(db, col, to, ProofClaims);
  }

  lemma SharedExampleRows(db: Db, col: Column, to: Table) returns (gone: Row, kept: Row)
    requires SharedBy(col, to) && db == SharedExample(col, to)
    ensures gone in Rows(db, Credentials) && kept in Rows(db, Credentials)
    ensures ID in gone && ID in kept && forall r | r in Rows(db, Credentials) && Holds(r, ID, {kept[ID]}) :: r == kept
    ensures Holds(gone, CredentialSchemaId, {1}) && !Holds(kept, CredentialSchemaId, {1})
    ensures col in gone && Holds(kept, col, {gone[col]})
  {
    SharedExampleTables(db, col, to, Credentials);
    gone, kept := Rows(db, Credentials)[0], Rows(db, Credentials)[1];
  }

  /** The deletion can fail on valid tables: two credentials share an interaction. */
  lemma DeletionCanFail(db: Db)
    requires db == SharedExample(InteractionId, Interactions)
    ensures ColumnsPresent(db) && Integrity(db, ForeignKey) && !Deletable(db, Collect(db, {1}))
  {
    SharedExampleIntegrity(db, InteractionId, Interactions);
    SharedExampleColumns(db, InteractionId, Interactions);
    var gone, kept := SharedExampleRows(db, InteractionId, Interactions);
    SharedInteractionUndeletable(db, {1}, gone, kept);
  }

  /** An input claim belongs to its input's own credential schema. */
  ghost predicate InputClaimsOwn(db: Db) {
    forall r, i, s | r in Rows(db, ProofInputClaimSchemas) && i in Rows(db, ProofInputSchemas) && s in Rows(db, ClaimSchemas)
                     && ID in i && ID in s && Holds(r, ProofInputSchemaId, {i[ID]}) && Holds(r, ClaimSchemaId, {s[ID]})
                     && CredentialSchemaId in s :: Holds(i, CredentialSchemaId, {s[CredentialSchemaId]})
  }

  /** Input claims that belong to their input's own credential schema keep the third condition. */
  lemma OwnInputClaims(db: Db, schemas: set<Id>)
    requires ColumnsPresent(db) && Integrity(db, ForeignKey) && InputClaimsOwn(db)
    requires forall r | r in Rows(db, ProofInputClaimSchemas) :: ProofInputSchemaId in r
    ensures InputClaimsApart(db, Collect(db, schemas))
  {
    var c := Collect(db, schemas);
    CollectionCloses(db, schemas);
    forall r | r in Rows(db, ProofInputClaimSchemas) && Holds(r, ClaimSchemaId, c.claimSchemas)
      ensures Holds(r, ProofInputSchemaId, c.inputs)
    {
      var s := LinkedRow(db, ClaimSchemas, ID, CredentialSchemaId, schemas, r[ClaimSchemaId]);
      InputOfClaim(db, c, r, s);
    }
  }

  lemma ReferencedInput(db: Db, r: Row) returns (i: Row)
    requires Integrity(db, ForeignKey)
    requires r in Rows(db, ProofInputClaimSchemas) && ProofInputSchemaId in r
    ensures i in Rows(db, ProofInputSchemas) && ID in i && i[ID] == r[ProofInputSchemaId]
  {
    assert HasId(db, ProofInputSchemas, r[ProofInputSchemaId]);
    i :| i in Rows(db, ProofInputSchemas) && Holds(i, ID, {r[ProofInputSchemaId]});
  }

  lemma InputOwned(db: Db, r: Row, i: Row, s: Row)
    requires InputClaimsOwn(db) && r in Rows(db, ProofInputClaimSchemas) && i in Rows(db, ProofInputSchemas)
    requires s in Rows(db, ClaimSchemas) && CredentialSchemaId in s && ID in s && Holds(r, ClaimSchemaId, {s[ID]})
    requires ID in i && ProofInputSchemaId in r && i[ID] == r[ProofInputSchemaId]
    ensures Holds(i, CredentialSchemaId, {s[CredentialSchemaId]})
  {
    assert Holds(r, ProofInputSchemaId, {i[ID]});
  }

  lemma InputOfClaim(db: Db, c: Collected, r: Row, s: Row)
    requires Closes(db, c) && Integrity(db, ForeignKey) && InputClaimsOwn(db)
    requires r in Rows(db, ProofInputClaimSchemas) && ProofInputSchemaId in r
    requires s in Rows(db, ClaimSchemas) && Holds(s, CredentialSchemaId, c.schemas) && ID in s && Holds(r, ClaimSchemaId, {s[ID]})
    ensures Holds(r, ProofInputSchemaId, c.inputs)
  {
    var i := ReferencedInput(db, r);
    InputOwned(db, r, i, s);
    assert Holds(i, CredentialSchemaId, c.schemas);
  }

  // ----- After the deletion

  lemma LinkedNothing(db: Db, t: Table, idCol: Column, linkedCol: Column)
    ensures Linked(db, t, idCol, linkedCol, {}) == {}
  {
  }

  /** A row of the final database comes from a row that was not taken. */
  lemma SurvivorOrigin(db: Db, c: Collected, t: Table, r': Row, col: Column) returns (r: Row)
    requires r' in Rows(State(db, ForeignKey, Plan(c), LENGTH), t) && col in r' && Permanent(ForeignKey, t, col)
    ensures r in Rows(db, t) && !Dropped(Plan(c), LENGTH, t, r) && col in r && r[col] == r'[col]
  {
    PlanIsSound(c);
    FatesAlwaysHold(db, ForeignKey, Plan(c), LENGTH);
    RowOfState(db, ForeignKey, Plan(c), LENGTH, t, r');
    r :| r in Rows(db, t) && Fate(db, ForeignKey, Plan(c), LENGTH, t, r) == Some(r');
    RemainderKeeps(db, ForeignKey, Plan(c), LENGTH, t, r, col);
  }

  /** The delete on the row's table takes the row. */
  ghost predicate Taken(c: Collected, t: Table, r: Row) {
    Turn(t) < LENGTH && Matches(DeleteFrom(c, t), t, r)
  }

  predicate IsBlobColumn(t: Table, col: Column) {
    ForeignKey(t, col) == Some(Reference(Blobs, true))
  }

  /** The row refers to a blob that goes. */
  ghost predicate HoldsBlob(c: Collected, t: Table, r: Row) {
    exists col :: IsBlobColumn(t, col) && Holds(r, col, c.blobs)
  }

  /** The row without its references to blobs that go. */
  ghost function WithoutBlobs(c: Collected, t: Table, r: Row): Row {
    map col | col in r && !(IsBlobColumn(t, col) && r[col] in c.blobs) :: r[col]
  }

  /** No credential or proof that stays shares a blob with one that goes. */
  ghost predicate BlobsApart(db: Db, c: Collected) {
    && (forall r | r in Rows(db, Credentials) && !Holds(r, ID, c.credentials) :: !HoldsBlob(c, Credentials, r))
    && (forall r | r in Rows(db, Proofs) && !Holds(r, ID, c.proofs) :: !HoldsBlob(c, Proofs, r))
  }

  lemma SetNullIsBlob(t: Table, col: Column, to: Table)
    requires Refs(ForeignKey, t, col, to, true)
    ensures to == Blobs
  {
  }

  lemma OnlyBlobsAreCleared(c: Collected, t: Table, col: Column, m: nat)
    requires m < LENGTH && Refs(ForeignKey, t, col, Plan(c)[m].table, true)
    ensures IsBlobColumn(t, col) && Plan(c)[m] == Delete(Blobs, ID, c.blobs)
  {
    SetNullIsBlob(t, col, Plan(c)[m].table);
    PlanAt(c, m);
    DeleteColumn(c, TableAt(m));
  }

  lemma RemovedBlob(db: Db, c: Collected, v: Id)
    requires HasId(db, Blobs, v)
    ensures v in RemovedIds(db, Delete(Blobs, ID, c.blobs)) <==> v in c.blobs
  {
    var x :| x in Rows(db, Blobs) && Holds(x, ID, {v});
  }

  lemma BlobExists(db: Db, t: Table, r: Row, col: Column)
    requires Integrity(db, ForeignKey) && r in Rows(db, t) && col in r && IsBlobColumn(t, col)
    ensures HasId(db, Blobs, r[col])
  {
  }

  lemma BlobIsCleared(db: Db, c: Collected, t: Table, r: Row, col: Column)
    requires col in r && IsBlobColumn(t, col) && HasId(db, Blobs, r[col]) && r[col] in c.blobs
    ensures Cleared(db, ForeignKey, Plan(c), LENGTH, t, r, col)
  {
    RemovedBlob(db, c, r[col]);
    PlanAt(c, 9);
    assert Refs(ForeignKey, t, col, Plan(c)[9].table, true) && r[col] in RemovedIds(db, Plan(c)[9]);
  }

  lemma ClearedIsBlob(db: Db, c: Collected, t: Table, r: Row, col: Column)
    requires col in r && Cleared(db, ForeignKey, Plan(c), LENGTH, t, r, col)
    ensures IsBlobColumn(t, col) && r[col] in c.blobs
  {
    var m :| 0 <= m < LENGTH && Refs(ForeignKey, t, col, Plan(c)[m].table, true) && r[col] in RemovedIds(db, Plan(c)[m]);
    OnlyBlobsAreCleared(c, t, col, m);
    RemovedById(db, Plan(c)[m]);
  }

  /** A column is cleared exactly when it refers to a blob that goes. */
  lemma ClearedIffBlob(db: Db, c: Collected, t: Table, r: Row, col: Column)
    requires Integrity(db, ForeignKey) && r in Rows(db, t) && col in r
    ensures Cleared(db, ForeignKey, Plan(c), LENGTH, t, r, col) <==> IsBlobColumn(t, col) && r[col] in c.blobs
  {
    if IsBlobColumn(t, col) && r[col] in c.blobs {
      BlobExists(db, t, r, col);
      BlobIsCleared(db, c, t, r, col);
    } else if Cleared(db, ForeignKey, Plan(c), LENGTH, t, r, col) {
      ClearedIsBlob(db, c, t, r, col);
    }
  }

  lemma RemainderIsWithoutBlobs(db: Db, c: Collected, t: Table, r: Row)
    requires Integrity(db, ForeignKey) && r in Rows(db, t)
    ensures Remainder(db, ForeignKey, Plan(c), LENGTH, t, r) == WithoutBlobs(c, t, r)
  {
    forall col | col in r
      ensures Cleared(db, ForeignKey, Plan(c), LENGTH, t, r, col) <==> IsBlobColumn(t, col) && r[col] in c.blobs
    {
      ClearedIffBlob(db, c, t, r, col);
    }
  }

  lemma FateOfRow(db: Db, c: Collected, t: Table, x: Row)
    requires Integrity(db, ForeignKey) && x in Rows(db, t)
    ensures Fate(db, ForeignKey, Plan(c), LENGTH, t, x) == if Taken(c, t, x) then None else Some(WithoutBlobs(c, t, x))
  {
    DroppedMeaning(c, LENGTH, t, x);
    RemainderIsWithoutBlobs(db, c, t, x);
  }

  lemma RowIsFate(db: Db, c: Collected, t: Table, r: Row)
    ensures r in Rows(State(db, ForeignKey, Plan(c), LENGTH), t) <==>
              exists x :: x in Rows(db, t) && Fate(db, ForeignKey, Plan(c), LENGTH, t, x) == Some(r)
  {
    PlanIsSound(c);
    FatesAlwaysHold(db, ForeignKey, Plan(c), LENGTH);
    RowOfState(db, ForeignKey, Plan(c), LENGTH, t, r);
  }

  /** What a table holds after the deletion: exactly the rows its delete did not take, without
      their references to blobs that went. */
  lemma SurvivorsAreUntaken(db: Db, c: Collected, t: Table, r: Row)
    requires Integrity(db, ForeignKey)
    ensures r in Rows(State(db, ForeignKey, Plan(c), LENGTH), t) <==>
              exists x :: x in Rows(db, t) && !Taken(c, t, x) && r == WithoutBlobs(c, t, x)
  {
    RowIsFate(db, c, t, r);
    if x :| x in Rows(db, t) && Fate(db, ForeignKey, Plan(c), LENGTH, t, x) == Some(r) {
      FateOfRow(db, c, t, x);
    }
    if x :| x in Rows(db, t) && !Taken(c, t, x) && r == WithoutBlobs(c, t, x) {
      FateOfRow(db, c, t, x);
    }
  }

  /** A row is still there, unchanged, exactly when it is not taken and holds no such blob. */
  lemma UnchangedRowIff(db: Db, c: Collected, t: Table, r: Row)
    requires Integrity(db, ForeignKey) && r in Rows(db, t)
    ensures r in Rows(State(db, ForeignKey, Plan(c), LENGTH), t) <==> !Taken(c, t, r) && !HoldsBlob(c, t, r)
  {
    PlanIsSound(c);
    UnchangedIff(db, ForeignKey, Plan(c), LENGTH, t, r);
    DroppedMeaning(c, LENGTH, t, r);
    forall col | col in r
      ensures Cleared(db, ForeignKey, Plan(c), LENGTH, t, r, col) <==> IsBlobColumn(t, col) && Holds(r, col, c.blobs)
    {
      ClearedIffBlob(db, c, t, r, col);
    }
  }

  ghost predicate UntakenUnchanged(db: Db, c: Collected) {
    forall t, r | r in Rows(db, t) && !Taken(c, t, r) :: r in Rows(State(db, ForeignKey, Plan(c), LENGTH), t)
  }

  lemma TakenById(c: Collected, r: Row)
    ensures Taken(c, Credentials, r) <==> Holds(r, ID, c.credentials)
    ensures Taken(c, Proofs, r) <==> Holds(r, ID, c.proofs)
  {
  }

  lemma BlobHoldersAreKnown(c: Collected, t: Table, r: Row)
    requires HoldsBlob(c, t, r)
    ensures t == Credentials || t == Proofs
  {
  }

  /** Every row that is not collected is left unchanged exactly when no blob is shared. */
  lemma UnchangedIffBlobsApart(db: Db, c: Collected)
    requires Integrity(db, ForeignKey)
    ensures UntakenUnchanged(db, c) <==> BlobsApart(db, c)
  {
    forall t, r | r in Rows(db, t)
      ensures r in Rows(State(db, ForeignKey, Plan(c), LENGTH), t) <==> !Taken(c, t, r) && !HoldsBlob(c, t, r)
    {
      UnchangedRowIff(db, c, t, r);
    }
    forall t, r | HoldsBlob(c, t, r)
      ensures t == Credentials || t == Proofs
    {
      BlobHoldersAreKnown(c, t, r);
    }
    forall r
      ensures Taken(c, Credentials, r) <==> Holds(r, ID, c.credentials)
      ensures Taken(c, Proofs, r) <==> Holds(r, ID, c.proofs)
    {
      TakenById(c, r);
    }
  }

  /** Nothing in the tables could break one of the conditions. */
  ghost predicate NoBlockers(db: Db) {
    && Rows(db, WalletUnitAttestedKeys) == [] && Rows(db, ProofInputClaimSchemas) == [] && Rows(db, Proofs) == []
    && (forall r | r in Rows(db, Credentials) :: InteractionId !in r)
  }

  lemma NoBlockersDeletable(db: Db, c: Collected)
    requires NoBlockers(db)
    ensures Deletable(db, c)
  {
  }

  lemma SharedBlobNoBlockers(db: Db)
    requires db == SharedExample(CredentialBlobId, Blobs)
    ensures NoBlockers(db)
  {
    SharedExampleTables(db, CredentialBlobId, Blobs, WalletUnitAttestedKeys);
    SharedExampleTables(db, CredentialBlobId, Blobs, ProofInputClaimSchemas);
    SharedExampleTables(db, CredentialBlobId, Blobs, Proofs);
    SharedExampleTables(db, CredentialBlobId, Blobs, Credentials);
  }

  lemma BlobIsCollected(db: Db, schemas: set<Id>, gone: Row)
    requires gone in Rows(db, Credentials) && Holds(gone, CredentialSchemaId, schemas) && ID in gone && CredentialBlobId in gone
    ensures gone[CredentialBlobId] in Collect(db, schemas).blobs
  {
    var credentials := Linked(db, Credentials, ID, CredentialSchemaId, schemas);
    LinkedIn(db, Credentials, ID, CredentialSchemaId, schemas, gone);
    LinkedIn(db, Credentials, CredentialBlobId, ID, credentials, gone);
  }

  lemma SharingIsNotApart(db: Db, c: Collected, kept: Row)
    requires kept in Rows(db, Credentials) && !Holds(kept, ID, c.credentials) && Holds(kept, CredentialBlobId, c.blobs)
    ensures !BlobsApart(db, c)
  {
    assert IsBlobColumn(Credentials, CredentialBlobId);
    assert HoldsBlob(c, Credentials, kept);
  }

  /** Whenever a credential that goes shares its blob with one that stays, the latter changes. */
  lemma SharedBlobIsCleared(db: Db, schemas: set<Id>, gone: Row, kept: Row)
    requires gone in Rows(db, Credentials) && kept in Rows(db, Credentials)
    requires ID in gone && ID in kept && forall r | r in Rows(db, Credentials) && Holds(r, ID, {kept[ID]}) :: r == kept
    requires Holds(gone, CredentialSchemaId, schemas) && !Holds(kept, CredentialSchemaId, schemas)
    requires CredentialBlobId in gone && Holds(kept, CredentialBlobId, {gone[CredentialBlobId]})
    ensures !BlobsApart(db, Collect(db, schemas))
  {
    BlobIsCollected(db, schemas, gone);
    OtherIsNotCollected(db, schemas, kept);
    SharingIsNotApart(db, Collect(db, schemas), kept);
  }

  /** A successful deletion can change a row that stays: two credentials share a blob. */
  lemma SurvivorsCanChange(db: Db)
    requires db == SharedExample(CredentialBlobId, Blobs)
    ensures ColumnsPresent(db) && Integrity(db, ForeignKey)
    ensures Deletable(db, Collect(db, {1})) && !UntakenUnchanged(db, Collect(db, {1}))
  {
    SharedExampleIntegrity(db, CredentialBlobId, Blobs);
    SharedExampleColumns(db, CredentialBlobId, Blobs);
    SharedBlobNoBlockers(db);
    NoBlockersDeletable(db, Collect(db, {1}));
    var gone, kept := SharedExampleRows(db, CredentialBlobId, Blobs);
    SharedBlobIsCleared(db, {1}, gone, kept);
    UnchangedIffBlobsApart(db, Collect(db, {1}));
  }

  lemma NothingLeftLinked(db: Db, c: Collected, t: Table, idCol: Column)
    requires Closes(db, c) && (t == ClaimSchemas || t == Credentials || t == ProofInputSchemas)
    ensures Linked(State(db, ForeignKey, Plan(c), LENGTH), t, idCol, CredentialSchemaId, c.schemas) == {}
  {
    var final := State(db, ForeignKey, Plan(c), LENGTH);
    forall r' | r' in Rows(final, t)
      ensures !Holds(r', CredentialSchemaId, c.schemas)
    {
      if Holds(r', CredentialSchemaId, c.schemas) {
        var r := SurvivorOrigin(db, c, t, r', CredentialSchemaId);
        DroppedMeaning(c, LENGTH, t, r);
        assert Holds(r, CredentialSchemaId, c.schemas);
      }
    }
  }

  lemma CollectNothing(db: Db, schemas: set<Id>)
    requires Linked(db, ClaimSchemas, ID, CredentialSchemaId, schemas) == {}
    requires Linked(db, Credentials, ID, CredentialSchemaId, schemas) == {}
    requires Linked(db, ProofInputSchemas, ProofSchemaId, CredentialSchemaId, schemas) == {}
    ensures Collect(db, schemas) == Collected(schemas, {}, {}, {}, {}, {}, {}, {}, {})
  {
    LinkedNothing(db, Claims, ID, CredentialId);
    LinkedNothing(db, Claims, ID, ClaimSchemaId);
    LinkedNothing(db, ProofInputSchemas, ID, ProofSchemaId);
    LinkedNothing(db, Proofs, ID, ProofSchemaId);
    LinkedNothing(db, ProofClaims, ProofId, ClaimId);
    LinkedNothing(db, Credentials, InteractionId, ID);
    LinkedNothing(db, Proofs, InteractionId, ID);
    LinkedNothing(db, Credentials, CredentialBlobId, ID);
    LinkedNothing(db, Credentials, WalletInstanceAttestationBlobId, ID);
    LinkedNothing(db, Credentials, WalletUnitAttestationBlobId, ID);
    LinkedNothing(db, Proofs, ProofBlobId, ID);
  }

  /** One pass is a fixed point: collecting again for the same credential schemas finds nothing. */
  lemma SecondPassFindsNothing(db: Db, schemas: set<Id>)
    requires ColumnsPresent(db)
    ensures Collect(State(db, ForeignKey, Plan(Collect(db, schemas)), LENGTH), schemas)
              == Collected(schemas, {}, {}, {}, {}, {}, {}, {}, {})
  {
    var c := Collect(db, schemas);
    CollectionCloses(db, schemas);
    NothingLeftLinked(db, c, ClaimSchemas, ID);
    NothingLeftLinked(db, c, Credentials, ID);
    NothingLeftLinked(db, c, ProofInputSchemas, ProofSchemaId);
    CollectNothing(State(db, ForeignKey, Plan(c), LENGTH), schemas);
  }

  // ----- The deletion, by columns

  lemma LinkedIsThrough(db: Db, t: Table, idCol: Column, linkedCol: Column, ids: set<Id>, v: Id)
    ensures v in Linked(db, t, idCol, linkedCol, ids) <==> Through(db, t, idCol, v, linkedCol, ids)
  {
  }

  lemma CollectFollowsSchemas(db: Db, schemas: set<Id>, v: Id)
    ensures GoesWithSchemas(db, Collect(db, schemas), v)
  {
    var c := Collect(db, schemas);
    LinkedIsThrough(db, ClaimSchemas, ID, CredentialSchemaId, schemas, v);
    LinkedIsThrough(db, Credentials, ID, CredentialSchemaId, schemas, v);
    LinkedIsThrough(db, Claims, ID, CredentialId, c.credentials, v);
    LinkedIsThrough(db, Claims, ID, ClaimSchemaId, c.claimSchemas, v);
    LinkedIsThrough(db, ProofInputSchemas, ProofSchemaId, CredentialSchemaId, schemas, v);
    LinkedIsThrough(db, ProofInputSchemas, ID, ProofSchemaId, c.proofSchemas, v);
    LinkedIsThrough(db, Proofs, ID, ProofSchemaId, c.proofSchemas, v);
    LinkedIsThrough(db, ProofClaims, ProofId, ClaimId, c.claims, v);
  }

  lemma CollectFollowsHolders(db: Db, schemas: set<Id>, v: Id)
    ensures GoesWithHolders(db, Collect(db, schemas), v)
  {
    var c := Collect(db, schemas);
    LinkedIsThrough(db, Credentials, InteractionId, ID, c.credentials, v);
    LinkedIsThrough(db, Proofs, InteractionId, ID, c.proofs, v);
    LinkedIsThrough(db, Credentials, CredentialBlobId, ID, c.credentials, v);
    LinkedIsThrough(db, Credentials, WalletInstanceAttestationBlobId, ID, c.credentials, v);
    LinkedIsThrough(db, Credentials, WalletUnitAttestationBlobId, ID, c.credentials, v);
    LinkedIsThrough(db, Proofs, ProofBlobId, ID, c.proofs, v);
  }

  /** The one pass collects exactly what hangs on the credential schemas. */
  lemma CollectIsRelated(db: Db, schemas: set<Id>)
    ensures Related(db, schemas, Collect(db, schemas))
  {
    forall v
      ensures GoesWithSchemas(db, Collect(db, schemas), v) && GoesWithHolders(db, Collect(db, schemas), v)
    {
      CollectFollowsSchemas(db, schemas, v);
      CollectFollowsHolders(db, schemas, v);
    }
  }

  lemma TakenMeaning(c: Collected, t: Table, r: Row)
    ensures Taken(c, t, r) <==> RowGoes(c, t, r)
  {
  }

  lemma BlobColumnMeaning(t: Table, col: Column)
    ensures IsBlobColumn(t, col) <==> RefersToBlob(t, col)
  {
  }

  lemma WithoutBlobsMeaning(c: Collected, t: Table, x: Row, r: Row)
    ensures r == WithoutBlobs(c, t, x) <==> LosesBlobs(c, t, x, r)
  {
    forall col
      ensures IsBlobColumn(t, col) <==> RefersToBlob(t, col)
    {
      BlobColumnMeaning(t, col);
    }
  }

  /** The deletes leave exactly the rows whose ids were not collected. */
  lemma DeletesByColumns(db: Db, c: Collected)
    requires Integrity(db, ForeignKey)
    ensures Deleted(db, State(db, ForeignKey, Plan(c), LENGTH), c)
  {
    forall t, r
      ensures r in Rows(State(db, ForeignKey, Plan(c), LENGTH), t) <==> Remains(db, c, t, r)
    {
      SurvivorsAreUntaken(db, c, t, r);
      forall x
        ensures Taken(c, t, x) <==> RowGoes(c, t, x)
        ensures r == WithoutBlobs(c, t, x) <==> LosesBlobs(c, t, x, r)
      {
        TakenMeaning(c, t, x);
        WithoutBlobsMeaning(c, t, x, r);
      }
    }
  }

  // ----- The deletion

  /** The lists of ids as collected, duplicates included. */
  datatype IdLists = IdLists(
    schemas: seq<Id>, claimSchemas: seq<Id>, credentials: seq<Id>, claims: seq<Id>, proofSchemas: seq<Id>,
    inputs: seq<Id>, proofs: seq<Id>, interactions: seq<Id>, blobs: seq<Id>)

  ghost function Sets(l: IdLists): Collected {
    Collected(Elements(l.schemas), Elements(l.claimSchemas), Elements(l.credentials), Elements(l.claims), Elements(l.proofSchemas),
              Elements(l.inputs), Elements(l.proofs), Elements(l.interactions), Elements(l.blobs))
  }

  /** The column of the delete on each table. */
  function ColumnOf(t: Table): Column {
    match t
    case ProofInputClaimSchemas => ProofInputSchemaId
    case ProofClaims => ProofId
    case ValidityCredentials => CredentialId
    case RevocationListEntries => CredentialId
    case _ => ID
  }

  /** The ids of the delete on each table. */
  function IdsOf(l: IdLists, t: Table): seq<Id> {
    match t
    case ProofInputClaimSchemas => l.inputs
    case ProofInputSchemas => l.inputs
    case ProofClaims => l.proofs
    case ValidityCredentials => l.credentials
    case RevocationListEntries => l.credentials
    case Claims => l.claims
    case Credentials => l.credentials
    case Proofs => l.proofs
    case Interactions => l.interactions
    case Blobs => l.blobs
    case ProofSchemas => l.proofSchemas
    case ClaimSchemas => l.claimSchemas
    case _ => l.schemas
  }

  lemma ArgumentsOfDelete(l: IdLists, n: nat)
    requires n < LENGTH
    ensures Delete(TableAt(n), ColumnOf(TableAt(n)), Elements(IdsOf(l, TableAt(n)))) == DeleteFrom(Sets(l), TableAt(n))
  {
  }

  lemma ElementsOfSum(a: seq<Id>, b: seq<Id>)
    ensures Elements(a + b) == Elements(a) + Elements(b)
  {
  }

  /** Run the deletes in order, stopping at the first that fails. */
  method RunDeletes(m: Manager, l: IdLists) returns (ok: bool)
    requires m.fks == ForeignKey
    modifies m
    ensures ok <==> forall n | 0 <= n < LENGTH :: !Blocked(old(m.db), ForeignKey, Plan(Sets(l)), n)
    ensures ok ==> m.db == State(old(m.db), ForeignKey, Plan(Sets(l)), LENGTH)
    ensures ok && Integrity(old(m.db), ForeignKey) ==> Deleted(old(m.db), m.db, Sets(l))
  {
    ghost var plan := Plan(Sets(l));
    PlanIsSound(Sets(l));
    KeysAreSound();
    for n := 0 to LENGTH
      invariant m.db == State(old(m.db), ForeignKey, plan, n)
      invariant forall k | 0 <= k < n :: !Blocked(old(m.db), ForeignKey, plan, k)
    {
      var t := TableAt(n);
      var ids := IdsOf(l, t);
      PlanAt(Sets(l), n);
      ArgumentsOfDelete(l, n);
      NextDelete(old(m.db), ForeignKey, plan, n, Delete(t, ColumnOf(t), Elements(ids)));
      ok := m.DeleteBatched(t, ColumnOf(t), ids);
      if !ok {
        return;
      }
    }
    if Integrity(old(m.db), ForeignKey) {
      DeletesByColumns(old(m.db), Sets(l));
    }
    return true;
  }

  /** The one pass over the tables. */
  method CollectIds(m: Manager, schemas: seq<Id>) returns (l: IdLists)
    ensures Sets(l) == Collect(m.db, Elements(schemas))
    ensures Related(m.db, Elements(schemas), Sets(l))
  {
    CollectIsRelated(m.db, Elements(schemas));
    var claimSchemas := m.GetIdsBatched(ClaimSchemas, ID, CredentialSchemaId, schemas);
    var credentials := m.GetIdsBatched(Credentials, ID, CredentialSchemaId, schemas);
    var first := m.GetIdsBatched(Claims, ID, CredentialId, credentials);
    var second := m.GetIdsBatched(Claims, ID, ClaimSchemaId, claimSchemas);
    var claims := first + second;
    ElementsOfSum(first, second);
    var proofSchemas := m.GetIdsBatched(ProofInputSchemas, ProofSchemaId, CredentialSchemaId, schemas);
    var inputs := m.GetIdsBatched(ProofInputSchemas, ID, ProofSchemaId, proofSchemas);
    first := m.GetIdsBatched(Proofs, ID, ProofSchemaId, proofSchemas);
    second := m.GetIdsBatched(ProofClaims, ProofId, ClaimId, claims);
    var proofs := first + second;
    ElementsOfSum(first, second);
    first := m.GetIdsBatched(Credentials, InteractionId, ID, credentials);
    second := m.GetIdsBatched(Proofs, InteractionId, ID, proofs);
    var interactions := first + second;
    ElementsOfSum(first, second);
    first := m.GetIdsBatched(Credentials, CredentialBlobId, ID, credentials);
    second := m.GetIdsBatched(Credentials, WalletInstanceAttestationBlobId, ID, credentials);
    var third := m.GetIdsBatched(Credentials, WalletUnitAttestationBlobId, ID, credentials);
    var fourth := m.GetIdsBatched(Proofs, ProofBlobId, ID, proofs);
    var blobs := first + second + third + fourth;
    ElementsOfSum(first, second);
    ElementsOfSum(first + second, third);
    ElementsOfSum(first + second + third, fourth);
    l := IdLists(schemas, claimSchemas, credentials, claims, proofSchemas, inputs, proofs, interactions, blobs);
  }

  /** Collect everything in one pass, then delete in the fixed order.  It succeeds exactly when
      the related rows are deletable, keeps every reference valid, leaves exactly the other rows
      and nothing of the credential schemas. */
  method HardDelete(m: Manager, credentialSchemas: seq<Id>) returns (ok: bool, ghost c: Collected)
    requires m.fks == ForeignKey && ColumnsPresent(m.db) && Integrity(m.db, ForeignKey)
    modifies m
    ensures Related(old(m.db), Elements(credentialSchemas), c) && c == Collect(old(m.db), Elements(credentialSchemas))
    ensures ok <==> Deletable(old(m.db), c)
    ensures ok ==> Integrity(m.db, ForeignKey)
    ensures ok ==> Deleted(old(m.db), m.db, c)
    ensures ok ==> NothingLeft(old(m.db), m.db, Elements(credentialSchemas))
    ensures ok ==> m.db == State(old(m.db), ForeignKey, Plan(c), LENGTH)
  {
    c := Collect(m.db, Elements(credentialSchemas));
    CollectionCloses(m.db, Elements(credentialSchemas));
    UnblockedIffDeletable(m.db, c);
    var l := CollectIds(m, credentialSchemas);
    ok := RunDeletes(m, l);
    if ok {
      PlanIsSound(c);
      IntegrityThroughout(old(m.db), ForeignKey, Plan(c), LENGTH);
      NothingIsLeft(old(m.db), m.db, Elements(credentialSchemas), c);
    }
  }
}
