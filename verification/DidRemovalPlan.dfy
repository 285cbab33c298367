/** Which rows the removal of DIDs is about, and when its deletes go through
    (lib/migration/src/m20250608_142503_remove_did_mdl.rs). */
module DidRemovalPlan {
  import opened Wrappers
  import opened Relational
  import opened BatchUtils
  import opened DeletePlans

  /** The foreign keys into the tables the removal deletes from, at the time it runs: as declared
      last for credentials (m20250526_125848), proofs (m20250526_112527), revocation lists
      (m20250605_092053), certificates (m20250512_110852), identifiers (m20250513_075017), trust
      entities (m20241120_164124), and for the others when the tables were created. */
  function RemovalKey(t: Table, c: Column): Option<Reference> {
    match t
    case Credentials =>
      if c == RevocationListId then Restrict(RevocationLists)
      else if c == HolderIdentifierId || c == IssuerIdentifierId then Restrict(Identifiers)
      else if c == InteractionId then Restrict(Interactions)
      else None
    case Proofs =>
      if c == HolderIdentifierId || c == VerifierIdentifierId then Restrict(Identifiers)
      else if c == InteractionId then Restrict(Interactions)
      else None
    case Claims =>
      if c == CredentialId then Restrict(Credentials) else None
    case ValidityCredentials =>
      if c == CredentialId then Restrict(Credentials) else None
    case ProofClaims =>
      if c == ClaimId then Restrict(Claims)
      else if c == ProofId then Restrict(Proofs)
      else None
    case RevocationLists =>
      if c == IssuerIdentifierId then Restrict(Identifiers) else None
    case Certificates =>
      if c == IdentifierId then Restrict(Identifiers) else None
    case Identifiers =>
      if c == DidId then Restrict(Dids) else None
    case KeyDids =>
      if c == DidId then Restrict(Dids) else None
    case TrustEntities =>
      if c == DidId then Restrict(Dids) else None
    case _ => None
  }

  // ----- What the helpers look for

  /** The proof involves one of the identifiers, or was verified with one of the keys. */
  predicate ProofInvolved(identifiers: set<Id>, keys: set<Id>, r: Row) {
    Holds(r, HolderIdentifierId, identifiers) || Holds(r, VerifierIdentifierId, identifiers) || Holds(r, VerifierKeyId, keys)
  }

  predicate CredentialInvolved(identifiers: set<Id>, keys: set<Id>, r: Row) {
    Holds(r, HolderIdentifierId, identifiers) || Holds(r, IssuerIdentifierId, identifiers) || Holds(r, KeyId, keys)
  }

  /** The values of column `col` in the rows with one of the ids in column `by`. */
  function ValuesBy(rows: seq<Row>, key: Column, ids: set<Id>, col: Column): set<Id> {
    set r | r in rows && Holds(r, key, ids) && col in r :: r[col]
  }

  function ProofValues(rows: seq<Row>, identifiers: set<Id>, keys: set<Id>, col: Column): set<Id> {
    set r | r in rows && ProofInvolved(identifiers, keys, r) && col in r :: r[col]
  }

  function CredentialValues(rows: seq<Row>, identifiers: set<Id>, keys: set<Id>, col: Column): set<Id> {
    set r | r in rows && CredentialInvolved(identifiers, keys, r) && col in r :: r[col]
  }

  /** The sets of ids the removal works with. */
  datatype Removal = Removal(
    dids: set<Id>, identifiers: set<Id>, keys: set<Id>, trustEntities: set<Id>, proofs: set<Id>, credentials: set<Id>,
    claims: set<Id>, allIdentifiers: set<Id>, interactions: set<Id>, history: set<Id>)

  ghost function Collect(db: Db, dids: set<Id>): Removal {
    var identifiers := ValuesBy(Rows(db, Identifiers), DidId, dids, ID);
    var keys := ValuesBy(Rows(db, KeyDids), DidId, dids, KeyId);
    var trustEntities := ValuesBy(Rows(db, TrustEntities), DidId, dids, ID);
    var proofs := ProofValues(Rows(db, Proofs), identifiers, keys, ID);
    var credentials := CredentialValues(Rows(db, Credentials), identifiers, keys, ID);
    var claims := ValuesBy(Rows(db, Claims), CredentialId, credentials, ID);
    var allIdentifiers := identifiers + ValuesBy(Rows(db, Identifiers), KeyId, keys, ID);
    var interactions := ProofValues(Rows(db, Proofs), identifiers, keys, InteractionId)
                      + CredentialValues(Rows(db, Credentials), identifiers, keys, InteractionId);
    Removal(dids, identifiers, keys, trustEntities, proofs, credentials, claims, allIdentifiers, interactions,
            dids + trustEntities + proofs + credentials + allIdentifiers)
  }

  // ----- The deletes

  const LENGTH: nat := 13

  ghost function StepAt(c: Removal, n: nat): Delete {
    match n
    case 0 => Delete(TrustEntities, ID, c.trustEntities)
    case 1 => Delete(RevocationLists, IssuerIdentifierId, c.identifiers)
    case 2 => Delete(ProofClaims, ProofId, c.proofs)
    case 3 => Delete(Proofs, ID, c.proofs)
    case 4 => Delete(ValidityCredentials, CredentialId, c.credentials)
    case 5 => Delete(ProofClaims, ClaimId, c.claims)
    case 6 => Delete(Claims, CredentialId, c.credentials)
    case 7 => Delete(Credentials, ID, c.credentials)
    case 8 => Delete(Identifiers, ID, c.allIdentifiers)
    case 9 => Delete(KeyDids, KeyId, c.keys)
    case 10 => Delete(Dids, ID, c.dids)
    case 11 => Delete(Interactions, ID, c.interactions)
    case _ => Delete(History, EntityId, c.history)
  }

  /** When a table is first deleted from. */
  ghost function Turn(t: Table): nat {
    match t
    case TrustEntities => 0
    case RevocationLists => 1
    case ProofClaims => 2
    case Proofs => 3
    case ValidityCredentials => 4
    case Claims => 6
    case Credentials => 7
    case Identifiers => 8
    case KeyDids => 9
    case Dids => 10
    case Interactions => 11
    case History => 12
    case _ => LENGTH
  }

  ghost function Plan(c: Removal): (plan: seq<Delete>)
    ensures |plan| == LENGTH
  {
    seq(LENGTH, n requires 0 <= n < LENGTH => StepAt(c, n))
  }

  lemma NothingIsCleared(t: Table, c: Column)
    ensures Permanent(RemovalKey, t, c)
  {
  }

  lemma KeysAreSound()
    ensures SoundKeys(RemovalKey)
  {
  }

  lemma ProofClaimsUnreferenced()
    ensures Unreferenced(RemovalKey, ProofClaims)
  {
  }

  /** Only claim links are deleted from twice. */
  lemma TurnOfStep(c: Removal, n: nat)
    requires n < LENGTH
    ensures Plan(c)[n] == StepAt(c, n)
    ensures n != 5 ==> Turn(StepAt(c, n).table) == n
    ensures n == 5 ==> StepAt(c, n).table == ProofClaims && Turn(ProofClaims) == 2
  {
  }

  lemma PlanIsSound(c: Removal)
    ensures SoundPlan(RemovalKey, Plan(c))
  {
    KeysAreSound();
    var plan := Plan(c);
    forall n: nat | n < LENGTH
      ensures FirstOfTable(plan, n) || Unreferenced(RemovalKey, plan[n].table)
    {
      TurnOfStep(c, n);
      if n == 5 {
        ProofClaimsUnreferenced();
      } else {
        forall m | 0 <= m < n
          ensures plan[m].table != plan[n].table
        {
          TurnOfStep(c, m);
        }
      }
    }
    forall m | 0 <= m < LENGTH
      ensures Permanent(RemovalKey, plan[m].table, plan[m].col)
    {
      NothingIsCleared(plan[m].table, plan[m].col);
    }
  }

  /** The row is named by the delete on its table, or its second one. */
  ghost predicate Taken(c: Removal, n: nat, t: Table, r: Row) {
    || (Turn(t) < n && Matches(StepAt(c, Turn(t)), t, r))
    || (t == ProofClaims && 5 < n && Matches(StepAt(c, 5), t, r))
  }

  lemma TableOfTurn(c: Removal, t: Table)
    requires Turn(t) < LENGTH
    ensures StepAt(c, Turn(t)).table == t
  {
  }

  lemma DroppedMeaning(c: Removal, n: nat, t: Table, r: Row)
    requires n <= LENGTH
    ensures Dropped(Plan(c), n, t, r) <==> Taken(c, n, t, r)
  {
    if m :| 0 <= m < n && Matches(Plan(c)[m], t, r) {
      TurnOfStep(c, m);
    }
    if Turn(t) < n && Matches(StepAt(c, Turn(t)), t, r) {
      TurnOfStep(c, Turn(t));
      assert Matches(Plan(c)[Turn(t)], t, r);
    }
    if 5 < n && Matches(StepAt(c, 5), t, r) {
      TurnOfStep(c, 5);
      assert Matches(Plan(c)[5], t, r);
    }
  }

  // ----- When the removal succeeds

  ghost predicate HasUniqueIds(rows: seq<Row>) {
    && (forall r | r in rows :: ID in r)
    && (forall r, x | r in rows && x in rows && r[ID] == x[ID] :: r == x)
  }

  /** Primary keys and the NOT NULL column the removal relies on. */
  ghost predicate ColumnsPresent(db: Db) {
    && HasUniqueIds(Rows(db, TrustEntities)) && HasUniqueIds(Rows(db, Proofs)) && HasUniqueIds(Rows(db, Credentials))
    && HasUniqueIds(Rows(db, Identifiers)) && HasUniqueIds(Rows(db, Claims))
    && (forall r | r in Rows(db, KeyDids) :: KeyId in r)
  }

  /** No credential refers to a revocation list that goes: the lists go before any credential. */
  ghost predicate ListsUnused(db: Db, c: Removal) {
    forall r, l | r in Rows(db, Credentials) && l in Rows(db, RevocationLists) && ID in l
                  && Holds(l, IssuerIdentifierId, c.identifiers) :: !Holds(r, RevocationListId, {l[ID]})
  }

  /** A credential or proof that refers to an identifier that goes, goes itself. */
  ghost predicate UsersGo(db: Db, c: Removal) {
    && (forall r | r in Rows(db, Credentials)
                   && (Holds(r, HolderIdentifierId, c.allIdentifiers) || Holds(r, IssuerIdentifierId, c.allIdentifiers)) ::
          Holds(r, ID, c.credentials))
    && (forall r | r in Rows(db, Proofs)
                   && (Holds(r, HolderIdentifierId, c.allIdentifiers) || Holds(r, VerifierIdentifierId, c.allIdentifiers)) ::
          Holds(r, ID, c.proofs))
  }

  /** Identifiers found by key only issue no revocation list, and none that goes has a certificate. */
  ghost predicate IdentifiersUnused(db: Db, c: Removal) {
    && (forall r | r in Rows(db, RevocationLists) && Holds(r, IssuerIdentifierId, c.allIdentifiers) ::
          Holds(r, IssuerIdentifierId, c.identifiers))
    && (forall r | r in Rows(db, Certificates) :: !Holds(r, IdentifierId, c.allIdentifiers))
  }

  /** No credential or proof that stays shares an interaction with one that goes. */
  ghost predicate InteractionsApart(db: Db, c: Removal) {
    && (forall r | r in Rows(db, Credentials) && Holds(r, InteractionId, c.interactions) :: Holds(r, ID, c.credentials))
    && (forall r | r in Rows(db, Proofs) && Holds(r, InteractionId, c.interactions) :: Holds(r, ID, c.proofs))
  }

  ghost predicate Removable(db: Db, c: Removal) {
    ListsUnused(db, c) && UsersGo(db, c) && IdentifiersUnused(db, c) && InteractionsApart(db, c)
  }

  /** What a blocking row looks like. */
  lemma BlockerMeaning(db: Db, c: Removal, n: nat, from: Table, col: Column, r: Row)
    requires n < LENGTH && Blocks(db, RemovalKey, Plan(c), n, from, col, r)
    ensures r in Rows(db, from) && RemovalKey(from, col) == Restrict(StepAt(c, n).table)
    ensures Holds(r, col, RemovedIds(db, StepAt(c, n))) && !Taken(c, n, from, r)
    ensures n == Turn(StepAt(c, n).table)
  {
    TurnOfStep(c, n);
    DroppedMeaning(c, n, from, r);
    ProofClaimsUnreferenced();
  }

  /** The collected sets contain what hangs on them. */
  ghost predicate Closes(db: Db, c: Removal) {
    && (forall r | r in Rows(db, Claims) && Holds(r, CredentialId, c.credentials) :: Holds(r, ID, c.claims))
    && (forall r | r in Rows(db, Identifiers) && Holds(r, DidId, c.dids) :: Holds(r, ID, c.allIdentifiers))
    && (forall r | r in Rows(db, KeyDids) && Holds(r, DidId, c.dids) :: Holds(r, KeyId, c.keys))
    && (forall r | r in Rows(db, TrustEntities) && Holds(r, DidId, c.dids) :: Holds(r, ID, c.trustEntities))
    && (forall v | v in c.allIdentifiers :: HasId(db, Identifiers, v))
    && c.identifiers <= c.allIdentifiers
  }

  lemma IdentifiersExist(db: Db, key: Column, ids: set<Id>, v: Id)
    requires v in ValuesBy(Rows(db, Identifiers), key, ids, ID)
    ensures HasId(db, Identifiers, v)
  {
    var r :| r in Rows(db, Identifiers) && Holds(r, key, ids) && ID in r && r[ID] == v;
    RowHasId(db, Identifiers, r);
  }

  lemma CollectionCloses(db: Db, dids: set<Id>)
    requires ColumnsPresent(db)
    ensures Closes(db, Collect(db, dids))
  {
    var c := Collect(db, dids);
    forall v | v in c.allIdentifiers
      ensures HasId(db, Identifiers, v)
    {
      if v in c.identifiers {
        IdentifiersExist(db, DidId, dids, v);
      } else {
        IdentifiersExist(db, KeyId, c.keys, v);
      }
    }
  }

  // ----- A blocked delete breaks a condition

  lemma ClaimLinksGo(db: Db, c: Removal, n: nat, r: Row)
    requires n == 6 && Closes(db, c) && Holds(r, ClaimId, RemovedIds(db, StepAt(c, n)))
    ensures Holds(r, ClaimId, c.claims)
  {
    var x :| x in Rows(db, Claims) && Holds(x, CredentialId, c.credentials) && ID in x && x[ID] == r[ClaimId];
  }

  /** Rows that only hang on rows that go never block. */
  lemma DependentsNeverBlock(db: Db, c: Removal, n: nat, from: Table, col: Column, r: Row)
    requires Closes(db, c) && n < LENGTH && Blocks(db, RemovalKey, Plan(c), n, from, col, r)
    ensures from in {Credentials, Proofs, RevocationLists, Certificates}
  {
    BlockerMeaning(db, c, n, from, col, r);
    if from == ProofClaims && col == ClaimId {
      ClaimLinksGo(db, c, n, r);
    } else if StepAt(c, n).col == ID {
      RemovedById(db, StepAt(c, n));
    }
  }

  lemma ListBlocker(db: Db, c: Removal, r: Row)
    requires r in Rows(db, Credentials) && Holds(r, RevocationListId, RemovedIds(db, StepAt(c, 1)))
    ensures !ListsUnused(db, c)
  {
    var l :| l in Rows(db, RevocationLists) && Holds(l, IssuerIdentifierId, c.identifiers) && ID in l && l[ID] == r[RevocationListId];
    assert Holds(r, RevocationListId, {l[ID]});
  }

  lemma CredentialBlocker(db: Db, c: Removal, n: nat, col: Column, r: Row)
    requires n < LENGTH && Blocks(db, RemovalKey, Plan(c), n, Credentials, col, r)
    ensures !Removable(db, c)
  {
    BlockerMeaning(db, c, n, Credentials, col, r);
    if col == RevocationListId {
      ListBlocker(db, c, r);
    } else {
      RemovedById(db, StepAt(c, n));
    }
  }

  lemma ProofBlocker(db: Db, c: Removal, n: nat, col: Column, r: Row)
    requires n < LENGTH && Blocks(db, RemovalKey, Plan(c), n, Proofs, col, r)
    ensures !Removable(db, c)
  {
    BlockerMeaning(db, c, n, Proofs, col, r);
    RemovedById(db, StepAt(c, n));
  }

  lemma IdentifierBlocker(db: Db, c: Removal, n: nat, from: Table, col: Column, r: Row)
    requires n < LENGTH && Blocks(db, RemovalKey, Plan(c), n, from, col, r) && (from == RevocationLists || from == Certificates)
    ensures !Removable(db, c)
  {
    BlockerMeaning(db, c, n, from, col, r);
    RemovedById(db, StepAt(c, 8));
  }

  lemma BlockerBreaksCondition(db: Db, c: Removal, n: nat, from: Table, col: Column, r: Row)
    requires Closes(db, c) && n < LENGTH && Blocks(db, RemovalKey, Plan(c), n, from, col, r)
    ensures !Removable(db, c)
  {
    DependentsNeverBlock(db, c, n, from, col, r);
    if from == Credentials {
      CredentialBlocker(db, c, n, col, r);
    } else if from == Proofs {
      ProofBlocker(db, c, n, col, r);
    } else {
      IdentifierBlocker(db, c, n, from, col, r);
    }
  }

  // ----- A broken condition blocks a delete

  lemma RowBlocks(db: Db, c: Removal, n: nat, from: Table, col: Column, r: Row, v: Id)
    requires n < LENGTH && RemovalKey(from, col) == Restrict(StepAt(c, n).table)
    requires r in Rows(db, from) && Holds(r, col, {v}) && v in RemovedIds(db, StepAt(c, n)) && !Taken(c, n, from, r)
    ensures Blocked(db, RemovalKey, Plan(c), n)
  {
    TurnOfStep(c, n);
    DroppedMeaning(c, n, from, r);
    BlocksIfReferring(db, RemovalKey, Plan(c), n, from, col, r);
  }

  lemma ExistingIdGoes(db: Db, d: Delete, v: Id)
    requires d.col == ID && v in d.ids && HasId(db, d.table, v)
    ensures v in RemovedIds(db, d)
  {
    var x :| x in Rows(db, d.table) && Holds(x, ID, {v});
  }

  lemma UsedListBlocks(db: Db, c: Removal)
    requires !ListsUnused(db, c)
    ensures Blocked(db, RemovalKey, Plan(c), 1)
  {
    var r, l :| r in Rows(db, Credentials) && l in Rows(db, RevocationLists) && ID in l
                && Holds(l, IssuerIdentifierId, c.identifiers) && Holds(r, RevocationListId, {l[ID]});
    assert l[ID] in RemovedIds(db, StepAt(c, 1));
    RowBlocks(db, c, 1, Credentials, RevocationListId, r, l[ID]);
  }

  /** A remaining row that refers to an identifier that goes blocks the delete of identifiers. */
  lemma UsedIdentifierBlocks(db: Db, c: Removal, from: Table, col: Column, r: Row)
    requires Closes(db, c) && RemovalKey(from, col) == Restrict(Identifiers)
    requires r in Rows(db, from) && Holds(r, col, c.allIdentifiers) && !Taken(c, 8, from, r)
    ensures Blocked(db, RemovalKey, Plan(c), 8)
  {
    ExistingIdGoes(db, StepAt(c, 8), r[col]);
    RowBlocks(db, c, 8, from, col, r, r[col]);
  }

  lemma InteractionExists(db: Db, from: Table, r: Row)
    requires Integrity(db, RemovalKey) && (from == Credentials || from == Proofs) && r in Rows(db, from) && InteractionId in r
    ensures HasId(db, Interactions, r[InteractionId])
  {
    assert RemovalKey(from, InteractionId).Some?;
  }

  lemma SharedInteractionBlocks(db: Db, c: Removal, from: Table, r: Row)
    requires Integrity(db, RemovalKey) && (from == Credentials || from == Proofs) && r in Rows(db, from)
    requires Holds(r, InteractionId, c.interactions) && !Holds(r, ID, if from == Credentials then c.credentials else c.proofs)
    ensures Blocked(db, RemovalKey, Plan(c), 11)
  {
    InteractionExists(db, from, r);
    ExistingIdGoes(db, StepAt(c, 11), r[InteractionId]);
    RowBlocks(db, c, 11, from, InteractionId, r, r[InteractionId]);
  }

  ghost predicate SomeBlocked(db: Db, c: Removal) {
    exists n :: 0 <= n < LENGTH && Blocked(db, RemovalKey, Plan(c), n)
  }

  lemma BlockedUsers(db: Db, c: Removal)
    requires Closes(db, c) && !UsersGo(db, c)
    ensures Blocked(db, RemovalKey, Plan(c), 8)
  {
    if r :| r in Rows(db, Credentials) && !Holds(r, ID, c.credentials)
            && (Holds(r, HolderIdentifierId, c.allIdentifiers) || Holds(r, IssuerIdentifierId, c.allIdentifiers)) {
      UsedIdentifierBlocks(db, c, Credentials, if Holds(r, HolderIdentifierId, c.allIdentifiers) then HolderIdentifierId else IssuerIdentifierId, r);
    } else {
      var r :| r in Rows(db, Proofs) && !Holds(r, ID, c.proofs)
               && (Holds(r, HolderIdentifierId, c.allIdentifiers) || Holds(r, VerifierIdentifierId, c.allIdentifiers));
      UsedIdentifierBlocks(db, c, Proofs, if Holds(r, HolderIdentifierId, c.allIdentifiers) then HolderIdentifierId else VerifierIdentifierId, r);
    }
  }

  lemma CertificateBlocks(db: Db, c: Removal, r: Row)
    requires Closes(db, c) && r in Rows(db, Certificates) && Holds(r, IdentifierId, c.allIdentifiers)
    ensures Blocked(db, RemovalKey, Plan(c), 8)
  {
    UsedIdentifierBlocks(db, c, Certificates, IdentifierId, r);
  }

  lemma IssuedListBlocks(db: Db, c: Removal, r: Row)
    requires Closes(db, c) && r in Rows(db, RevocationLists) && Holds(r, IssuerIdentifierId, c.allIdentifiers)
    requires !Holds(r, IssuerIdentifierId, c.identifiers)
    ensures Blocked(db, RemovalKey, Plan(c), 8)
  {
    UsedIdentifierBlocks(db, c, RevocationLists, IssuerIdentifierId, r);
  }

  lemma BlockedIdentifiers(db: Db, c: Removal)
    requires Closes(db, c) && !IdentifiersUnused(db, c)
    ensures Blocked(db, RemovalKey, Plan(c), 8)
  {
    if r :| r in Rows(db, Certificates) && Holds(r, IdentifierId, c.allIdentifiers) {
      CertificateBlocks(db, c, r);
    } else {
      var r :| r in Rows(db, RevocationLists) && Holds(r, IssuerIdentifierId, c.allIdentifiers)
               && !Holds(r, IssuerIdentifierId, c.identifiers);
      IssuedListBlocks(db, c, r);
    }
  }

  lemma BlockedInteractions(db: Db, c: Removal)
    requires Integrity(db, RemovalKey) && !InteractionsApart(db, c)
    ensures Blocked(db, RemovalKey, Plan(c), 11)
  {
    if r :| r in Rows(db, Credentials) && Holds(r, InteractionId, c.interactions) && !Holds(r, ID, c.credentials) {
      SharedInteractionBlocks(db, c, Credentials, r);
    } else {
      var r :| r in Rows(db, Proofs) && Holds(r, InteractionId, c.interactions) && !Holds(r, ID, c.proofs);
      SharedInteractionBlocks(db, c, Proofs, r);
    }
  }

  lemma BrokenConditionBlocks(db: Db, c: Removal)
    requires Integrity(db, RemovalKey) && Closes(db, c) && !Removable(db, c)
    ensures SomeBlocked(db, c)
  {
    if !ListsUnused(db, c) {
      UsedListBlocks(db, c);
    } else if !UsersGo(db, c) {
      BlockedUsers(db, c);
    } else if !IdentifiersUnused(db, c) {
      BlockedIdentifiers(db, c);
    } else {
      BlockedInteractions(db, c);
    }
  }

  /** None of the deletes is blocked exactly when the conditions hold of the tables before. */
  lemma UnblockedIffRemovable(db: Db, c: Removal)
    requires Integrity(db, RemovalKey) && Closes(db, c)
    ensures (forall n | 0 <= n < LENGTH :: !Blocked(db, RemovalKey, Plan(c), n)) <==> Removable(db, c)
  {
    if Removable(db, c) {
      forall n | 0 <= n < LENGTH
        ensures !Blocked(db, RemovalKey, Plan(c), n)
      {
        if from, col, r :| Blocks(db, RemovalKey, Plan(c), n, from, col, r) {
          BlockerBreaksCondition(db, c, n, from, col, r);
        }
      }
    } else {
      BrokenConditionBlocks(db, c);
    }
  }
}
