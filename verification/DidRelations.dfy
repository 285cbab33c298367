/** What belongs to a list of DIDs, and what the tables hold once all of it is removed, read off
    the columns. */
module DidRelations {
  import opened Wrappers
  import opened Relational

  /** The column refers to an identifier of one of the DIDs. */
  ghost predicate OfIdentifier(db: Db, dids: set<Id>, r: Row, col: Column) {
    col in r && Through(db, Identifiers, ID, r[col], DidId, dids)
  }

  /** The column refers to a key of one of the DIDs. */
  ghost predicate OfKey(db: Db, dids: set<Id>, r: Row, col: Column) {
    col in r && Through(db, KeyDids, KeyId, r[col], DidId, dids)
  }

  /** The row involves one of the identifiers through either column, or one of the keys. */
  predicate Involves(r: Row, first: Column, second: Column, identifiers: set<Id>, key: Column, keys: set<Id>) {
    Holds(r, first, identifiers) || Holds(r, second, identifiers) || Holds(r, key, keys)
  }

  /** Exactly the rows that involve none of the identifiers and keys are left. */
  ghost predicate UninvolvedLeft(db: Db, db': Db, t: Table, first: Column, second: Column, identifiers: set<Id>, key: Column, keys: set<Id>) {
    forall r :: r in Rows(db', t) <==> r in Rows(db, t) && !Involves(r, first, second, identifiers, key, keys)
  }

  /** The value of the column in a row that involves one of them. */
  ghost predicate OfInvolved(db: Db, t: Table, first: Column, second: Column, identifiers: set<Id>, key: Column, keys: set<Id>, col: Column, v: Id) {
    exists r :: r in Rows(db, t) && Involves(r, first, second, identifiers, key, keys) && Holds(r, col, {v})
  }

  /** Exactly the rows with one of the ids in the column are gone. */
  ghost predicate Without(db: Db, db': Db, t: Table, col: Column, ids: set<Id>) {
    forall r :: r in Rows(db', t) <==> r in Rows(db, t) && !Holds(r, col, ids)
  }

  /** The ids of the rows of a table that are no longer there. */
  ghost function Gone(db: Db, db': Db, t: Table): set<Id> {
    set r | r in Rows(db, t) && r !in Rows(db', t) && ID in r :: r[ID]
  }

  /** The interactions of the rows of a table that are no longer there. */
  ghost function GoneInteractions(db: Db, db': Db, t: Table): set<Id> {
    set r | r in Rows(db, t) && r !in Rows(db', t) && InteractionId in r :: r[InteractionId]
  }

  /** A proof stays exactly when neither its holder nor its verifier is an identifier of one of
      the DIDs, and its verifier key is none of their keys. */
  ghost predicate ProofsGone(db: Db, db': Db, dids: set<Id>) {
    forall r :: r in Rows(db', Proofs) <==>
      && r in Rows(db, Proofs)
      && !OfIdentifier(db, dids, r, HolderIdentifierId) && !OfIdentifier(db, dids, r, VerifierIdentifierId)
      && !OfKey(db, dids, r, VerifierKeyId)
  }

  /** A credential stays exactly when neither its holder nor its issuer is an identifier of one of
      the DIDs, and its key is none of their keys. */
  ghost predicate CredentialsGone(db: Db, db': Db, dids: set<Id>) {
    forall r :: r in Rows(db', Credentials) <==>
      && r in Rows(db, Credentials)
      && !OfIdentifier(db, dids, r, HolderIdentifierId) && !OfIdentifier(db, dids, r, IssuerIdentifierId)
      && !OfKey(db, dids, r, KeyId)
  }

  ghost predicate IdentifiersGone(db: Db, db': Db, dids: set<Id>) {
    forall r :: r in Rows(db', Identifiers) <==>
      r in Rows(db, Identifiers) && !Holds(r, DidId, dids) && !OfKey(db, dids, r, KeyId)
  }

  ghost predicate KeyDidsGone(db: Db, db': Db, dids: set<Id>) {
    forall r :: r in Rows(db', KeyDids) <==> r in Rows(db, KeyDids) && !OfKey(db, dids, r, KeyId)
  }

  ghost predicate ListsGone(db: Db, db': Db, dids: set<Id>) {
    forall r :: r in Rows(db', RevocationLists) <==>
      r in Rows(db, RevocationLists) && !OfIdentifier(db, dids, r, IssuerIdentifierId)
  }

  /** A claim's link to a proof goes with the proof or with the claim's credential. */
  ghost predicate LinksGone(db: Db, db': Db, proofs: set<Id>, credentials: set<Id>) {
    forall r :: r in Rows(db', ProofClaims) <==>
      && r in Rows(db, ProofClaims) && !Holds(r, ProofId, proofs)
      && !(ClaimId in r && Through(db, Claims, ID, r[ClaimId], CredentialId, credentials))
  }

  /** What goes with the DIDs themselves and their identifiers and keys. */
  ghost predicate OwnRowsGone(db: Db, db': Db, dids: set<Id>) {
    && Without(db, db', TrustEntities, DidId, dids) && Without(db, db', Dids, ID, dids)
    && ListsGone(db, db', dids) && KeyDidsGone(db, db', dids) && IdentifiersGone(db, db', dids)
  }

  /** What goes with the proofs and credentials. */
  ghost predicate UsesGone(db: Db, db': Db, dids: set<Id>) {
    var credentials := Gone(db, db', Credentials);
    && ProofsGone(db, db', dids) && CredentialsGone(db, db', dids)
    && Without(db, db', Claims, CredentialId, credentials) && Without(db, db', ValidityCredentials, CredentialId, credentials)
    && LinksGone(db, db', Gone(db, db', Proofs), credentials)
  }

  /** History and interactions go for exactly the rows that went, and for the DIDs. */
  ghost predicate TracesGone(db: Db, db': Db, dids: set<Id>, historyIds: set<Id>, interactionIds: set<Id>) {
    && historyIds == dids + Gone(db, db', TrustEntities) + Gone(db, db', Proofs) + Gone(db, db', Credentials) + Gone(db, db', Identifiers)
    && interactionIds == GoneInteractions(db, db', Proofs) + GoneInteractions(db, db', Credentials)
    && Without(db, db', Interactions, ID, interactionIds) && Without(db, db', History, EntityId, historyIds)
  }

  /** The tables no row is removed from. */
  predicate KeptWhole(t: Table) {
    || t == CredentialSchemas || t == ClaimSchemas || t == ProofSchemas || t == ProofInputSchemas || t == ProofInputClaimSchemas
    || t == Blobs || t == RevocationListEntries || t == WalletUnitAttestedKeys || t == Certificates
  }

  /** The outcome of a successful removal determines the rows of every table. */
  ghost predicate Removed(db: Db, db': Db, dids: set<Id>, historyIds: set<Id>, interactionIds: set<Id>) {
    && OwnRowsGone(db, db', dids) && UsesGone(db, db', dids)
    && TracesGone(db, db', dids, historyIds, interactionIds)
    && (forall t | KeptWhole(t) :: Rows(db', t) == Rows(db, t))
  }
}
