/** Removal of DIDs of one method with everything that belongs to them
    (lib/migration/src/m20250608_142503_remove_did_mdl.rs). */
module DidRemoval {
  import opened Wrappers
  import opened Relational
  import opened BatchUtils
  import opened DeletePlans
  import opened DidRemovalPlan
  import opened DidRelations

  ghost function After(db: Db, c: Removal, n: nat): Db
    requires n <= LENGTH
  {
    State(db, RemovalKey, Plan(c), n)
  }

  /** None of the deletes from `a` up to `b` is blocked on the tables before the run. */
  ghost predicate Clear(db: Db, c: Removal, a: nat, b: nat)
    requires a <= b <= LENGTH
  {
    forall n | a <= n < b :: !Blocked(db, RemovalKey, Plan(c), n)
  }

  /** A table not deleted from yet. */
  lemma SameTable(db: Db, c: Removal, n: nat, t: Table)
    requires n <= LENGTH && n <= Turn(t)
    ensures Rows(After(db, c, n), t) == Rows(db, t)
  {
    PlanIsSound(c);
    forall m | 0 <= m < n
      ensures Plan(c)[m].table != t
    {
      TurnOfStep(c, m);
    }
    forall col
      ensures Permanent(RemovalKey, t, col)
    {
      NothingIsCleared(t, col);
    }
    UntouchedTable(db, RemovalKey, Plan(c), n, t);
  }

  lemma Skip(db: Db, c: Removal, n: nat)
    requires n < LENGTH && StepAt(c, n).ids == {}
    ensures !Blocked(db, RemovalKey, Plan(c), n) && After(db, c, n + 1) == After(db, c, n)
  {
    PlanIsSound(c);
    TurnOfStep(c, n);
    EmptyDelete(db, RemovalKey, Plan(c), n);
  }

  lemma Next(db: Db, c: Removal, n: nat)
    requires n < LENGTH
    ensures Violates(After(db, c, n), RemovalKey, StepAt(c, n)) <==> Blocked(db, RemovalKey, Plan(c), n)
    ensures After(db, c, n + 1) == AfterDelete(After(db, c, n), RemovalKey, StepAt(c, n))
  {
    PlanIsSound(c);
    TurnOfStep(c, n);
    NextDelete(db, RemovalKey, Plan(c), n, StepAt(c, n));
  }

  /** The helpers are given the start of the run and its sets as ghosts.  Each fails exactly when
      one of its own deletes is blocked on the tables before the run, and otherwise leaves the
      tables as its last delete does. */
  class Remover {
    var db: Db
    var historyIds: set<Id>
    var interactionIds: set<Id>

    constructor (db: Db)
      ensures this.db == db
    {
      this.db := db;
      historyIds := {};
      interactionIds := {};
    }

    /** One statement; a foreign key violation ends the run. */
    method Exec(t: Table, col: Column, ids: set<Id>, ghost start: Db, ghost c: Removal, ghost n: nat) returns (ok: bool)
      requires n < LENGTH && db == After(start, c, n) && Delete(t, col, ids) == StepAt(c, n)
      modifies this`db
      ensures ok <==> !Violates(old(db), RemovalKey, Delete(t, col, ids))
      ensures ok <==> !Blocked(start, RemovalKey, Plan(c), n)
      ensures db == if ok then AfterDelete(old(db), RemovalKey, Delete(t, col, ids)) else old(db)
      ensures ok ==> db == After(start, c, n + 1)
    {
      var d := Delete(t, col, ids);
      Next(start, c, n);
      ok := !Violates(db, RemovalKey, d);
      if ok {
        db := AfterDelete(db, RemovalKey, d);
      }
    }

    method DeleteTrustEntities(dids: set<Id>, ghost start: Db, ghost c: Removal) returns (ok: bool)
      requires db == After(start, c, 0) && c == Collect(start, dids)
      modifies this`db, this`historyIds
      ensures ok <==> Clear(start, c, 0, 1)
      ensures ok ==> db == After(start, c, 1) && historyIds == old(historyIds) + c.trustEntities
    {
      var ids := ValuesBy(Rows(db, TrustEntities), DidId, dids, ID);
      if ids == {} {
        Skip(start, c, 0);
        return true;
      }
      ok := Exec(TrustEntities, ID, ids, start, c, 0);
      if ok {
        historyIds := historyIds + ids;
      }
    }

    method DeleteRevocationLists(identifiers: set<Id>, ghost start: Db, ghost c: Removal) returns (ok: bool)
      requires db == After(start, c, 1) && identifiers == c.identifiers
      modifies this`db
      ensures ok <==> Clear(start, c, 1, 2)
      ensures ok ==> db == After(start, c, 2)
    {
      ok := Exec(RevocationLists, IssuerIdentifierId, identifiers, start, c, 1);
    }

    method DeleteProofRows(ids: set<Id>, ghost start: Db, ghost c: Removal) returns (ok: bool)
      requires db == After(start, c, 2) && ids == c.proofs
      modifies this`db
      ensures ok <==> Clear(start, c, 2, 4)
      ensures ok ==> db == After(start, c, 4)
    {
      if ids == {} {
        Skip(start, c, 2);
        Skip(start, c, 3);
        return true;
      }
      ok := Exec(ProofClaims, ProofId, ids, start, c, 2);
      if ok {
        ok := Exec(Proofs, ID, ids, start, c, 3);
      }
    }

    method DeleteProofs(identifiers: set<Id>, keys: set<Id>, ghost start: Db, ghost c: Removal) returns (ok: bool)
      requires db == After(start, c, 2) && c == Collect(start, c.dids) && identifiers == c.identifiers && keys == c.keys
      modifies this
      ensures ok <==> Clear(start, c, 2, 4)
      ensures ok ==> db == After(start, c, 4) && historyIds == old(historyIds) + c.proofs
      ensures interactionIds == old(interactionIds) + ProofValues(Rows(start, Proofs), identifiers, keys, InteractionId)
      ensures forall v :: v in interactionIds <==>
                v in old(interactionIds) || OfInvolved(start, Proofs, HolderIdentifierId, VerifierIdentifierId, identifiers, VerifierKeyId, keys, InteractionId, v)
      ensures ok && ColumnsPresent(start) ==>
                UninvolvedLeft(start, db, Proofs, HolderIdentifierId, VerifierIdentifierId, identifiers, VerifierKeyId, keys)
    {
      SameTable(start, c, 2, Proofs);
      var ids := ProofValues(Rows(db, Proofs), identifiers, keys, ID);
      interactionIds := interactionIds + ProofValues(Rows(db, Proofs), identifiers, keys, InteractionId);
      InvolvedProofValues(start, identifiers, keys, InteractionId);
      if ColumnsPresent(start) {
        ProofsWithout(start, c, 4);
      }
      ok := DeleteProofRows(ids, start, c);
      if ok {
        historyIds := historyIds + ids;
      }
    }

    /** The links of the credentials' claims. */
    method DeleteProofClaims(credentials: set<Id>, ghost start: Db, ghost c: Removal) returns (ok: bool)
      requires db == After(start, c, 5) && credentials == c.credentials
      requires c.claims == ValuesBy(Rows(start, Claims), CredentialId, c.credentials, ID)
      modifies this`db
      ensures ok <==> Clear(start, c, 5, 6)
      ensures ok ==> db == After(start, c, 6)
    {
      SameTable(start, c, 5, Claims);
      var claims := ValuesBy(Rows(db, Claims), CredentialId, credentials, ID);
      if claims == {} {
        Skip(start, c, 5);
        return true;
      }
      ok := Exec(ProofClaims, ClaimId, claims, start, c, 5);
    }

    method DeleteCredentialRows(ids: set<Id>, ghost start: Db, ghost c: Removal) returns (ok: bool)
      requires db == After(start, c, 4) && ids == c.credentials
      requires c.claims == ValuesBy(Rows(start, Claims), CredentialId, c.credentials, ID)
      modifies this`db
      ensures ok <==> Clear(start, c, 4, 8)
      ensures ok ==> db == After(start, c, 8)
    {
      if ids == {} {
        NoCredentials(start, c);
        return true;
      }
      ok := Exec(ValidityCredentials, CredentialId, ids, start, c, 4);
      if !ok { return; }
      ok := DeleteProofClaims(ids, start, c);
      if !ok { return; }
      ok := Exec(Claims, CredentialId, ids, start, c, 6);
      if !ok { return; }
      ok := Exec(Credentials, ID, ids, start, c, 7);
    }

    method DeleteCredentials(identifiers: set<Id>, keys: set<Id>, ghost start: Db, ghost c: Removal) returns (ok: bool)
      requires db == After(start, c, 4) && c == Collect(start, c.dids) && identifiers == c.identifiers && keys == c.keys
      modifies this
      ensures ok <==> Clear(start, c, 4, 8)
      ensures ok ==> db == After(start, c, 8) && historyIds == old(historyIds) + c.credentials
      ensures interactionIds == old(interactionIds) + CredentialValues(Rows(start, Credentials), identifiers, keys, InteractionId)
      ensures forall v :: v in interactionIds <==>
                v in old(interactionIds) || OfInvolved(start, Credentials, HolderIdentifierId, IssuerIdentifierId, identifiers, KeyId, keys, InteractionId, v)
      ensures ok && ColumnsPresent(start) ==>
                UninvolvedLeft(start, db, Credentials, HolderIdentifierId, IssuerIdentifierId, identifiers, KeyId, keys)
    {
      SameTable(start, c, 4, Credentials);
      var ids := CredentialValues(Rows(db, Credentials), identifiers, keys, ID);
      interactionIds := interactionIds + CredentialValues(Rows(db, Credentials), identifiers, keys, InteractionId);
      InvolvedCredentialValues(start, identifiers, keys, InteractionId);
      if ColumnsPresent(start) {
        CredentialsWithout(start, c, 8);
      }
      ok := DeleteCredentialRows(ids, start, c);
      if ok {
        historyIds := historyIds + ids;
      }
    }

    method DeleteIdentifiers(identifiers: set<Id>, keys: set<Id>, ghost start: Db, ghost c: Removal) returns (ok: bool)
      requires db == After(start, c, 8) && c == Collect(start, c.dids) && identifiers == c.identifiers && keys == c.keys
      modifies this`db, this`historyIds
      ensures ok <==> Clear(start, c, 8, 9)
      ensures ok ==> db == After(start, c, 9) && historyIds == old(historyIds) + c.allIdentifiers
    {
      SameTable(start, c, 8, Identifiers);
      var ids := identifiers + ValuesBy(Rows(db, Identifiers), KeyId, keys, ID);
      if ids == {} {
        Skip(start, c, 8);
        return true;
      }
      ok := Exec(Identifiers, ID, ids, start, c, 8);
      if ok {
        historyIds := historyIds + ids;
      }
    }

    /** The key relations, the DIDs, and finally interactions and history. */
    method DeleteRest(dids: set<Id>, keys: set<Id>, ghost start: Db, ghost c: Removal) returns (ok: bool)
      requires db == After(start, c, 9) && dids == c.dids && keys == c.keys
      requires interactionIds == c.interactions && historyIds == c.history
      modifies this`db
      ensures ok <==> Clear(start, c, 9, 13)
      ensures ok ==> db == After(start, c, 13)
    {
      if keys != {} {
        ok := Exec(KeyDids, KeyId, keys, start, c, 9);
        if !ok { return; }
      } else {
        Skip(start, c, 9);
      }
      ok := Exec(Dids, ID, dids, start, c, 10);
      if !ok { return; }
      if interactionIds != {} {
        ok := Exec(Interactions, ID, interactionIds, start, c, 11);
        if !ok { return; }
      } else {
        Skip(start, c, 11);
      }
      ok := Exec(History, EntityId, historyIds, start, c, 12);
    }

    /** Trust entities and revocation lists, then proofs and credentials. */
    method DeleteUses(dids: set<Id>, ghost start: Db, ghost c: Removal) returns (ok: bool, identifiers: set<Id>, keys: set<Id>)
      requires db == start && c == Collect(start, dids) && historyIds == dids && interactionIds == {}
      modifies this
      ensures ok <==> Clear(start, c, 0, 8)
      ensures ok ==> db == After(start, c, 8) && identifiers == c.identifiers && keys == c.keys
      ensures ok ==> historyIds == dids + c.trustEntities + c.proofs + c.credentials && interactionIds == c.interactions
    {
      identifiers, keys := {}, {};
      ok := DeleteTrustEntities(dids, start, c);
      if !ok { return; }
      SameTable(start, c, 1, Identifiers);
      identifiers := ValuesBy(Rows(db, Identifiers), DidId, dids, ID);
      ok := DeleteRevocationLists(identifiers, start, c);
      if !ok { return; }
      SameTable(start, c, 2, KeyDids);
      keys := ValuesBy(Rows(db, KeyDids), DidId, dids, KeyId);
      ok := DeleteProofs(identifiers, keys, start, c);
      if !ok { return; }
      ok := DeleteCredentials(identifiers, keys, start, c);
    }

    /** The whole removal.  It succeeds exactly when the conditions hold of the tables before it,
        keeps every reference valid, and determines the remaining rows. */
    method RemoveDidsAndRelated(didIds: seq<Id>) returns (ok: bool)
      requires ColumnsPresent(db) && Integrity(db, RemovalKey)
      modifies this
      ensures didIds == [] ==> ok && db == old(db)
      ensures didIds != [] ==> (ok <==> Removable(old(db), Collect(old(db), Elements(didIds))))
      ensures ok ==> Integrity(db, RemovalKey)
      ensures ok && didIds != [] ==> Removed(old(db), db, Elements(didIds), historyIds, interactionIds)
    {
      if didIds == [] {
        return true;
      }
      var dids := set id | id in didIds;
      ghost var start, c := db, Collect(db, dids);
      historyIds := dids;
      interactionIds := {};
      RemovableIffClear(start, dids);
      var identifiers, keys;
      ok, identifiers, keys := DeleteUses(dids, start, c);
      if !ok { return; }
      ok := DeleteIdentifiers(identifiers, keys, start, c);
      if !ok { return; }
      ok := DeleteRest(dids, keys, start, c);
      if ok {
        RemovalOutcome(start, dids);
      }
    }
  }

  lemma NoCredentials(start: Db, c: Removal)
    requires c.credentials == {} && c.claims == ValuesBy(Rows(start, Claims), CredentialId, c.credentials, ID)
    ensures Clear(start, c, 4, 8) && After(start, c, 8) == After(start, c, 4)
  {
    assert c.claims == {};
    Skip(start, c, 4);
    Skip(start, c, 5);
    Skip(start, c, 6);
    Skip(start, c, 7);
  }

  lemma RemovableIffClear(db: Db, dids: set<Id>)
    requires ColumnsPresent(db) && Integrity(db, RemovalKey)
    ensures Clear(db, Collect(db, dids), 0, 13) <==> Removable(db, Collect(db, dids))
  {
    CollectionCloses(db, dids);
    UnblockedIffRemovable(db, Collect(db, dids));
  }

  // ----- The outcome

  /** A row stays exactly when no delete so far names it. */
  lemma StaysIff(db: Db, c: Removal, n: nat, t: Table, r: Row)
    requires n <= LENGTH
    ensures r in Rows(After(db, c, n), t) <==> r in Rows(db, t) && !Taken(c, n, t, r)
  {
    PlanIsSound(c);
    forall col
      ensures Permanent(RemovalKey, t, col)
    {
      NothingIsCleared(t, col);
    }
    UntakenRowsStay(db, RemovalKey, Plan(c), n, t, r);
    DroppedMeaning(c, n, t, r);
  }

  lemma WithoutSince(db: Db, c: Removal, n: nat, t: Table)
    requires Turn(t) < n <= LENGTH && t != ProofClaims
    ensures Without(db, After(db, c, n), t, StepAt(c, Turn(t)).col, StepAt(c, Turn(t)).ids)
  {
    TableOfTurn(c, t);
    forall r
      ensures r in Rows(After(db, c, n), t) <==> r in Rows(db, t) && !Holds(r, StepAt(c, Turn(t)).col, StepAt(c, Turn(t)).ids)
    {
      StaysIff(db, c, n, t, r);
    }
  }

  lemma WithoutStep(db: Db, c: Removal, t: Table)
    requires Turn(t) < LENGTH && t != ProofClaims
    ensures Without(db, After(db, c, LENGTH), t, StepAt(c, Turn(t)).col, StepAt(c, Turn(t)).ids)
  {
    WithoutSince(db, c, LENGTH, t);
  }

  // Deleting by the ids of the involved rows takes exactly the involved rows.

  lemma ValuesAreThrough(db: Db, t: Table, key: Column, ids: set<Id>, col: Column, v: Id)
    ensures v in ValuesBy(Rows(db, t), key, ids, col) <==> Through(db, t, col, v, key, ids)
  {
    if v in ValuesBy(Rows(db, t), key, ids, col) {
      var r :| r in Rows(db, t) && Holds(r, key, ids) && col in r && r[col] == v;
      ThroughRow(db, t, col, key, ids, r);
    }
  }

  /** The collected identifiers and keys are those of the DIDs. */
  lemma OwnIds(db: Db, c: Removal, r: Row, col: Column)
    requires c == Collect(db, c.dids)
    ensures Holds(r, col, c.identifiers) <==> OfIdentifier(db, c.dids, r, col)
    ensures Holds(r, col, c.keys) <==> OfKey(db, c.dids, r, col)
  {
    if col in r {
      ValuesAreThrough(db, Identifiers, DidId, c.dids, ID, r[col]);
      ValuesAreThrough(db, KeyDids, DidId, c.dids, KeyId, r[col]);
    }
  }

  lemma CredentialColumns(db: Db, c: Removal, r: Row)
    requires c == Collect(db, c.dids)
    ensures Involves(r, HolderIdentifierId, IssuerIdentifierId, c.identifiers, KeyId, c.keys) <==>
              || OfIdentifier(db, c.dids, r, HolderIdentifierId) || OfIdentifier(db, c.dids, r, IssuerIdentifierId)
              || OfKey(db, c.dids, r, KeyId)
  {
    OwnIds(db, c, r, HolderIdentifierId);
    OwnIds(db, c, r, IssuerIdentifierId);
    OwnIds(db, c, r, KeyId);
  }

  lemma ProofColumns(db: Db, c: Removal, r: Row)
    requires c == Collect(db, c.dids)
    ensures Involves(r, HolderIdentifierId, VerifierIdentifierId, c.identifiers, VerifierKeyId, c.keys) <==>
              || OfIdentifier(db, c.dids, r, HolderIdentifierId) || OfIdentifier(db, c.dids, r, VerifierIdentifierId)
              || OfKey(db, c.dids, r, VerifierKeyId)
  {
    OwnIds(db, c, r, HolderIdentifierId);
    OwnIds(db, c, r, VerifierIdentifierId);
    OwnIds(db, c, r, VerifierKeyId);
  }

  lemma InvolvedProofs(db: Db, identifiers: set<Id>, keys: set<Id>, r: Row)
    requires HasUniqueIds(Rows(db, Proofs)) && r in Rows(db, Proofs)
    ensures Holds(r, ID, ProofValues(Rows(db, Proofs), identifiers, keys, ID)) <==> ProofInvolved(identifiers, keys, r)
  {
  }

  lemma InvolvedCredentials(db: Db, identifiers: set<Id>, keys: set<Id>, r: Row)
    requires HasUniqueIds(Rows(db, Credentials)) && r in Rows(db, Credentials)
    ensures Holds(r, ID, CredentialValues(Rows(db, Credentials), identifiers, keys, ID)) <==> CredentialInvolved(identifiers, keys, r)
  {
  }

  lemma SelectedBy(rows: seq<Row>, key: Column, ids: set<Id>, r: Row)
    requires HasUniqueIds(rows) && r in rows
    ensures Holds(r, ID, ValuesBy(rows, key, ids, ID)) <==> Holds(r, key, ids)
  {
  }

  lemma InvolvedProofValues(db: Db, identifiers: set<Id>, keys: set<Id>, col: Column)
    ensures forall v :: v in ProofValues(Rows(db, Proofs), identifiers, keys, col) <==>
              OfInvolved(db, Proofs, HolderIdentifierId, VerifierIdentifierId, identifiers, VerifierKeyId, keys, col, v)
  {
    forall r | r in Rows(db, Proofs) && col in r
      ensures Holds(r, col, {r[col]})
      ensures ProofInvolved(identifiers, keys, r) <==> Involves(r, HolderIdentifierId, VerifierIdentifierId, identifiers, VerifierKeyId, keys)
    {
    }
  }

  lemma InvolvedCredentialValues(db: Db, identifiers: set<Id>, keys: set<Id>, col: Column)
    ensures forall v :: v in CredentialValues(Rows(db, Credentials), identifiers, keys, col) <==>
              OfInvolved(db, Credentials, HolderIdentifierId, IssuerIdentifierId, identifiers, KeyId, keys, col, v)
  {
    forall r | r in Rows(db, Credentials) && col in r
      ensures Holds(r, col, {r[col]})
      ensures CredentialInvolved(identifiers, keys, r) <==> Involves(r, HolderIdentifierId, IssuerIdentifierId, identifiers, KeyId, keys)
    {
    }
  }

  lemma InvolvedGone(db: Db, db': Db, t: Table, ids: set<Id>, first: Column, second: Column, identifiers: set<Id>, key: Column, keys: set<Id>)
    requires Without(db, db', t, ID, ids)
    requires forall r | r in Rows(db, t) :: Holds(r, ID, ids) <==> Involves(r, first, second, identifiers, key, keys)
    ensures UninvolvedLeft(db, db', t, first, second, identifiers, key, keys)
  {
  }

  lemma WithoutProofs(db: Db, c: Removal, n: nat)
    requires 3 < n <= LENGTH
    ensures Without(db, After(db, c, n), Proofs, ID, c.proofs)
  {
    WithoutSince(db, c, n, Proofs);
  }

  lemma WithoutCredentials(db: Db, c: Removal, n: nat)
    requires 7 < n <= LENGTH
    ensures Without(db, After(db, c, n), Credentials, ID, c.credentials)
  {
    WithoutSince(db, c, n, Credentials);
  }

  lemma ProofsWithout(db: Db, c: Removal, n: nat)
    requires ColumnsPresent(db) && c == Collect(db, c.dids) && 3 < n <= LENGTH
    ensures UninvolvedLeft(db, After(db, c, n), Proofs, HolderIdentifierId, VerifierIdentifierId, c.identifiers, VerifierKeyId, c.keys)
  {
    WithoutProofs(db, c, n);
    forall r | r in Rows(db, Proofs)
      ensures Holds(r, ID, c.proofs) <==> Involves(r, HolderIdentifierId, VerifierIdentifierId, c.identifiers, VerifierKeyId, c.keys)
    {
      InvolvedProofs(db, c.identifiers, c.keys, r);
    }
    InvolvedGone(db, After(db, c, n), Proofs, c.proofs, HolderIdentifierId, VerifierIdentifierId, c.identifiers, VerifierKeyId, c.keys);
  }

  lemma CredentialsWithout(db: Db, c: Removal, n: nat)
    requires ColumnsPresent(db) && c == Collect(db, c.dids) && 7 < n <= LENGTH
    ensures UninvolvedLeft(db, After(db, c, n), Credentials, HolderIdentifierId, IssuerIdentifierId, c.identifiers, KeyId, c.keys)
  {
    WithoutCredentials(db, c, n);
    forall r | r in Rows(db, Credentials)
      ensures Holds(r, ID, c.credentials) <==> Involves(r, HolderIdentifierId, IssuerIdentifierId, c.identifiers, KeyId, c.keys)
    {
      InvolvedCredentials(db, c.identifiers, c.keys, r);
    }
    InvolvedGone(db, After(db, c, n), Credentials, c.credentials, HolderIdentifierId, IssuerIdentifierId, c.identifiers, KeyId, c.keys);
  }

  lemma ProofTraces(db: Db, c: Removal)
    requires ColumnsPresent(db) && c == Collect(db, c.dids)
    ensures var db' := After(db, c, LENGTH);
            && Gone(db, db', Proofs) == c.proofs
            && GoneInteractions(db, db', Proofs) == ProofValues(Rows(db, Proofs), c.identifiers, c.keys, InteractionId)
  {
    ProofsWithout(db, c, LENGTH);
  }

  lemma CredentialTraces(db: Db, c: Removal)
    requires ColumnsPresent(db) && c == Collect(db, c.dids)
    ensures var db' := After(db, c, LENGTH);
            && Gone(db, db', Credentials) == c.credentials
            && GoneInteractions(db, db', Credentials) == CredentialValues(Rows(db, Credentials), c.identifiers, c.keys, InteractionId)
  {
    CredentialsWithout(db, c, LENGTH);
  }

  lemma ProofsOutcome(db: Db, c: Removal)
    requires ColumnsPresent(db) && c == Collect(db, c.dids)
    ensures ProofsGone(db, After(db, c, LENGTH), c.dids)
  {
    ProofsWithout(db, c, LENGTH);
    forall r
      ensures Involves(r, HolderIdentifierId, VerifierIdentifierId, c.identifiers, VerifierKeyId, c.keys) <==>
                || OfIdentifier(db, c.dids, r, HolderIdentifierId) || OfIdentifier(db, c.dids, r, VerifierIdentifierId)
                || OfKey(db, c.dids, r, VerifierKeyId)
    {
      ProofColumns(db, c, r);
    }
  }

  lemma CredentialsOutcome(db: Db, c: Removal)
    requires ColumnsPresent(db) && c == Collect(db, c.dids)
    ensures CredentialsGone(db, After(db, c, LENGTH), c.dids)
  {
    CredentialsWithout(db, c, LENGTH);
    forall r
      ensures Involves(r, HolderIdentifierId, IssuerIdentifierId, c.identifiers, KeyId, c.keys) <==>
                || OfIdentifier(db, c.dids, r, HolderIdentifierId) || OfIdentifier(db, c.dids, r, IssuerIdentifierId)
                || OfKey(db, c.dids, r, KeyId)
    {
      CredentialColumns(db, c, r);
    }
  }

  lemma WithoutKeys(db: Db, c: Removal)
    ensures Without(db, After(db, c, LENGTH), KeyDids, KeyId, c.keys)
  {
    WithoutStep(db, c, KeyDids);
  }

  lemma KeyDidsOutcome(db: Db, c: Removal)
    requires c == Collect(db, c.dids)
    ensures KeyDidsGone(db, After(db, c, LENGTH), c.dids)
  {
    WithoutKeys(db, c);
    forall r
      ensures Holds(r, KeyId, c.keys) <==> OfKey(db, c.dids, r, KeyId)
    {
      OwnIds(db, c, r, KeyId);
    }
  }

  lemma ListsOutcome(db: Db, c: Removal)
    requires c == Collect(db, c.dids)
    ensures ListsGone(db, After(db, c, LENGTH), c.dids)
  {
    WithoutStep(db, c, RevocationLists);
    forall r
      ensures Holds(r, IssuerIdentifierId, c.identifiers) <==> OfIdentifier(db, c.dids, r, IssuerIdentifierId)
    {
      OwnIds(db, c, r, IssuerIdentifierId);
    }
  }

  lemma TrustOutcome(db: Db, c: Removal)
    requires ColumnsPresent(db) && c == Collect(db, c.dids)
    ensures var db' := After(db, c, LENGTH);
            Without(db, db', TrustEntities, DidId, c.dids) && Gone(db, db', TrustEntities) == c.trustEntities
  {
    WithoutStep(db, c, TrustEntities);
    forall r | r in Rows(db, TrustEntities)
      ensures Holds(r, ID, c.trustEntities) <==> Holds(r, DidId, c.dids)
    {
      SelectedBy(Rows(db, TrustEntities), DidId, c.dids, r);
    }
  }

  lemma InvolvedIdentifiers(db: Db, c: Removal, r: Row)
    requires ColumnsPresent(db) && c == Collect(db, c.dids) && r in Rows(db, Identifiers)
    ensures Holds(r, ID, c.allIdentifiers) <==> Holds(r, DidId, c.dids) || Holds(r, KeyId, c.keys)
  {
    SelectedBy(Rows(db, Identifiers), DidId, c.dids, r);
    SelectedBy(Rows(db, Identifiers), KeyId, c.keys, r);
  }

  lemma WithoutIdentifiers(db: Db, c: Removal)
    ensures Without(db, After(db, c, LENGTH), Identifiers, ID, c.allIdentifiers)
  {
    WithoutStep(db, c, Identifiers);
  }

  lemma IdentifiersOutcome(db: Db, c: Removal)
    requires ColumnsPresent(db) && c == Collect(db, c.dids)
    ensures IdentifiersGone(db, After(db, c, LENGTH), c.dids)
  {
    WithoutIdentifiers(db, c);
    forall r
      ensures r in Rows(After(db, c, LENGTH), Identifiers) <==>
                r in Rows(db, Identifiers) && !Holds(r, DidId, c.dids) && !OfKey(db, c.dids, r, KeyId)
    {
      OwnIds(db, c, r, KeyId);
      if r in Rows(db, Identifiers) {
        InvolvedIdentifiers(db, c, r);
      }
    }
  }

  lemma CollectedIdentifiersExist(db: Db, c: Removal)
    requires ColumnsPresent(db) && c == Collect(db, c.dids)
    ensures forall v | v in c.allIdentifiers :: HasId(db, Identifiers, v)
  {
    CollectionCloses(db, c.dids);
  }

  lemma GoneById(db: Db, db': Db, t: Table, ids: set<Id>)
    requires Without(db, db', t, ID, ids) && forall v | v in ids :: HasId(db, t, v)
    ensures Gone(db, db', t) == ids
  {
    forall v | v in ids
      ensures v in Gone(db, db', t)
    {
      assert HasId(db, t, v);
      var r :| r in Rows(db, t) && Holds(r, ID, {v});
      assert Holds(r, ID, ids);
    }
  }

  lemma GoneIdentifiers(db: Db, c: Removal)
    requires ColumnsPresent(db) && c == Collect(db, c.dids)
    ensures Gone(db, After(db, c, LENGTH), Identifiers) == c.allIdentifiers
  {
    WithoutIdentifiers(db, c);
    CollectedIdentifiersExist(db, c);
    GoneById(db, After(db, c, LENGTH), Identifiers, c.allIdentifiers);
  }

  lemma LinkStays(db: Db, c: Removal, r: Row)
    ensures r in Rows(After(db, c, LENGTH), ProofClaims) <==>
              r in Rows(db, ProofClaims) && !Holds(r, ProofId, c.proofs) && !Holds(r, ClaimId, c.claims)
  {
    StaysIff(db, c, LENGTH, ProofClaims, r);
  }

  lemma ClaimOfLink(db: Db, c: Removal, r: Row)
    requires c == Collect(db, c.dids)
    ensures Holds(r, ClaimId, c.claims) <==> ClaimId in r && Through(db, Claims, ID, r[ClaimId], CredentialId, c.credentials)
  {
    if ClaimId in r {
      ValuesAreThrough(db, Claims, CredentialId, c.credentials, ID, r[ClaimId]);
    }
  }

  lemma LinksOutcome(db: Db, c: Removal)
    requires c == Collect(db, c.dids)
    ensures LinksGone(db, After(db, c, LENGTH), c.proofs, c.credentials)
  {
    forall r
      ensures r in Rows(After(db, c, LENGTH), ProofClaims) <==>
                && r in Rows(db, ProofClaims) && !Holds(r, ProofId, c.proofs)
                && !(ClaimId in r && Through(db, Claims, ID, r[ClaimId], CredentialId, c.credentials))
    {
      LinkStays(db, c, r);
      ClaimOfLink(db, c, r);
    }
  }

  lemma ClaimsOutcome(db: Db, c: Removal)
    ensures Without(db, After(db, c, LENGTH), Claims, CredentialId, c.credentials)
    ensures Without(db, After(db, c, LENGTH), ValidityCredentials, CredentialId, c.credentials)
  {
    WithoutStep(db, c, Claims);
    WithoutStep(db, c, ValidityCredentials);
  }

  lemma GoneUses(db: Db, c: Removal)
    requires ColumnsPresent(db) && c == Collect(db, c.dids)
    ensures Gone(db, After(db, c, LENGTH), Proofs) == c.proofs && Gone(db, After(db, c, LENGTH), Credentials) == c.credentials
  {
    ProofTraces(db, c);
    CredentialTraces(db, c);
  }

  lemma UsesOutcome(db: Db, c: Removal)
    requires ColumnsPresent(db) && c == Collect(db, c.dids)
    ensures UsesGone(db, After(db, c, LENGTH), c.dids)
  {
    ProofsOutcome(db, c);
    CredentialsOutcome(db, c);
    GoneUses(db, c);
    LinksOutcome(db, c);
    ClaimsOutcome(db, c);
  }

  lemma DidsOutcome(db: Db, c: Removal)
    ensures Without(db, After(db, c, LENGTH), Dids, ID, c.dids)
  {
    WithoutStep(db, c, Dids);
  }

  lemma OwnRowsOutcome(db: Db, c: Removal)
    requires ColumnsPresent(db) && c == Collect(db, c.dids)
    ensures OwnRowsGone(db, After(db, c, LENGTH), c.dids)
  {
    TrustOutcome(db, c);
    IdentifiersOutcome(db, c);
    ListsOutcome(db, c);
    KeyDidsOutcome(db, c);
    DidsOutcome(db, c);
  }

  lemma TracesOutcome(db: Db, c: Removal)
    requires ColumnsPresent(db) && c == Collect(db, c.dids)
    ensures TracesGone(db, After(db, c, LENGTH), c.dids, c.history, c.interactions)
  {
    ProofTraces(db, c);
    CredentialTraces(db, c);
    TrustOutcome(db, c);
    GoneIdentifiers(db, c);
    WithoutStep(db, c, Interactions);
    WithoutStep(db, c, History);
  }

  lemma OtherTablesOutcome(db: Db, c: Removal)
    ensures forall t | KeptWhole(t) :: Rows(After(db, c, LENGTH), t) == Rows(db, t)
  {
    forall t | KeptWhole(t)
      ensures Rows(After(db, c, LENGTH), t) == Rows(db, t)
    {
      SameTable(db, c, LENGTH, t);
    }
  }

  lemma IntegrityOutcome(db: Db, c: Removal)
    requires Integrity(db, RemovalKey) && Clear(db, c, 0, 13)
    ensures Integrity(After(db, c, LENGTH), RemovalKey)
  {
    PlanIsSound(c);
    IntegrityThroughout(db, RemovalKey, Plan(c), LENGTH);
  }

  /** What the thirteen deletes leave. */
  lemma RemovalOutcome(db: Db, dids: set<Id>)
    requires ColumnsPresent(db) && Integrity(db, RemovalKey) && Clear(db, Collect(db, dids), 0, 13)
    ensures var c := Collect(db, dids);
            && Removed(db, After(db, c, LENGTH), dids, c.history, c.interactions)
            && Integrity(After(db, c, LENGTH), RemovalKey)
  {
    var c := Collect(db, dids);
    OwnRowsOutcome(db, c);
    UsesOutcome(db, c);
    TracesOutcome(db, c);
    OtherTablesOutcome(db, c);
    IntegrityOutcome(db, c);
  }

  /** The column holds the `idCol` of no row of the table with one of the DIDs. */
  ghost predicate RefersToNone(db: Db, dids: set<Id>, t: Table, idCol: Column, r: Row, col: Column) {
    forall x | x in Rows(db, t) && Holds(x, DidId, dids) && idCol in x :: !Holds(r, col, {x[idCol]})
  }

  lemma NotThrough(db: Db, dids: set<Id>, t: Table, idCol: Column, r: Row, col: Column)
    requires col in r ==> !Through(db, t, idCol, r[col], DidId, dids)
    ensures RefersToNone(db, dids, t, idCol, r, col)
  {
    forall x | x in Rows(db, t) && Holds(x, DidId, dids) && idCol in x
      ensures !Holds(r, col, {x[idCol]})
    {
      ThroughRow(db, t, idCol, DidId, dids, x);
    }
  }

  /** No credential or proof that remains refers to an identifier or a key of one of the DIDs. */
  lemma NoDanglingUse(db: Db, db': Db, dids: set<Id>, historyIds: set<Id>, interactionIds: set<Id>, t: Table, r: Row)
    requires Removed(db, db', dids, historyIds, interactionIds) && r in Rows(db', t) && (t == Credentials || t == Proofs)
    ensures RefersToNone(db, dids, Identifiers, ID, r, HolderIdentifierId)
    ensures RefersToNone(db, dids, Identifiers, ID, r, if t == Credentials then IssuerIdentifierId else VerifierIdentifierId)
    ensures RefersToNone(db, dids, KeyDids, KeyId, r, if t == Credentials then KeyId else VerifierKeyId)
  {
    NotThrough(db, dids, Identifiers, ID, r, HolderIdentifierId);
    NotThrough(db, dids, Identifiers, ID, r, if t == Credentials then IssuerIdentifierId else VerifierIdentifierId);
    NotThrough(db, dids, KeyDids, KeyId, r, if t == Credentials then KeyId else VerifierKeyId);
  }

  /** Nothing that remains refers to one of the DIDs, and no credential or proof that remains to
      an identifier or a key of one. */
  lemma NoDanglingRelation(db: Db, db': Db, dids: set<Id>, historyIds: set<Id>, interactionIds: set<Id>, t: Table, r: Row)
    requires ColumnsPresent(db) && Removed(db, db', dids, historyIds, interactionIds) && r in Rows(db', t)
    ensures t == KeyDids || t == Identifiers || t == TrustEntities ==> !Holds(r, DidId, dids)
    ensures t == Credentials || t == Proofs ==>
              && RefersToNone(db, dids, Identifiers, ID, r, HolderIdentifierId)
              && RefersToNone(db, dids, Identifiers, ID, r, if t == Credentials then IssuerIdentifierId else VerifierIdentifierId)
              && RefersToNone(db, dids, KeyDids, KeyId, r, if t == Credentials then KeyId else VerifierKeyId)
  {
    if t == Credentials || t == Proofs {
      NoDanglingUse(db, db', dids, historyIds, interactionIds, t, r);
    } else if t == KeyDids && Holds(r, DidId, dids) {
      ThroughRow(db, KeyDids, KeyId, DidId, dids, r);
    }
  }

  // ----- The removal can fail

  /** DID 1 has identifier 20, which issued revocation list 40, which credential 30 refers to. */
  ghost function UsedListExample(): Db {
    map[Dids := [map[ID := 1]],
        Identifiers := [map[ID := 20, DidId := 1]],
        RevocationLists := [map[ID := 40, IssuerIdentifierId := 20]],
        Credentials := [map[ID := 30, IssuerIdentifierId := 20, RevocationListId := 40]]]
  }

  lemma UsedListTables(db: Db)
    requires db == UsedListExample()
    ensures Rows(db, Dids) == [map[ID := 1]] && Rows(db, Identifiers) == [map[ID := 20, DidId := 1]]
    ensures Rows(db, RevocationLists) == [map[ID := 40, IssuerIdentifierId := 20]]
    ensures Rows(db, Credentials) == [map[ID := 30, IssuerIdentifierId := 20, RevocationListId := 40]]
    ensures forall t | t !in {Dids, Identifiers, RevocationLists, Credentials} :: Rows(db, t) == []
  {
  }

  lemma UsedListIds(db: Db)
    requires db == UsedListExample()
    ensures HasId(db, Dids, 1) && HasId(db, Identifiers, 20) && HasId(db, RevocationLists, 40)
  {
    RowHasId(db, Dids, Rows(db, Dids)[0]);
    RowHasId(db, Identifiers, Rows(db, Identifiers)[0]);
    RowHasId(db, RevocationLists, Rows(db, RevocationLists)[0]);
  }

  lemma UsedListReference(db: Db, t: Table, c: Column, r: Row)
    requires db == UsedListExample() && RemovalKey(t, c).Some? && r in Rows(db, t) && c in r
    ensures HasId(db, RemovalKey(t, c).value.to, r[c])
  {
    UsedListTables(db);
    UsedListIds(db);
  }

  lemma UsedListIntegrity(db: Db)
    requires db == UsedListExample()
    ensures Integrity(db, RemovalKey)
  {
    forall t, c, r | RemovalKey(t, c).Some? && r in Rows(db, t) && c in r
      ensures HasId(db, RemovalKey(t, c).value.to, r[c])
    {
      UsedListReference(db, t, c, r);
    }
  }

  /** A list of a DID's identifier that any credential refers to makes the removal fail, even
      when the credential would go as well. */
  lemma UsedListUnremovable(db: Db, dids: set<Id>, i: Row, l: Row, r: Row)
    requires i in Rows(db, Identifiers) && Holds(i, DidId, dids) && ID in i
    requires l in Rows(db, RevocationLists) && ID in l && Holds(l, IssuerIdentifierId, {i[ID]})
    requires r in Rows(db, Credentials) && Holds(r, RevocationListId, {l[ID]})
    ensures !Removable(db, Collect(db, dids))
  {
    assert i[ID] in Collect(db, dids).identifiers;
    assert Holds(l, IssuerIdentifierId, Collect(db, dids).identifiers);
  }

  /** An identifier found by a key only makes it fail when a credential that stays refers to it. */
  lemma KeyIdentifierUnremovable(db: Db, dids: set<Id>, k: Row, i: Row, r: Row)
    requires k in Rows(db, KeyDids) && Holds(k, DidId, dids) && KeyId in k
    requires i in Rows(db, Identifiers) && ID in i && Holds(i, KeyId, {k[KeyId]})
    requires r in Rows(db, Credentials) && Holds(r, HolderIdentifierId, {i[ID]}) && !Holds(r, ID, Collect(db, dids).credentials)
    ensures !Removable(db, Collect(db, dids))
  {
    var c := Collect(db, dids);
    assert k[KeyId] in c.keys;
    assert i[ID] in ValuesBy(Rows(db, Identifiers), KeyId, c.keys, ID);
    assert Holds(r, HolderIdentifierId, c.allIdentifiers);
  }

  lemma UsedListColumns(db: Db)
    requires db == UsedListExample()
    ensures ColumnsPresent(db)
  {
    UsedListTables(db);
  }

  /** The removal can fail on valid tables. */
  lemma RemovalCanFail(db: Db)
    requires db == UsedListExample()
    ensures ColumnsPresent(db) && Integrity(db, RemovalKey) && !Removable(db, Collect(db, {1}))
  {
    UsedListColumns(db);
    UsedListIntegrity(db);
    UsedListTables(db);
    UsedListUnremovable(db, {1}, Rows(db, Identifiers)[0], Rows(db, RevocationLists)[0], Rows(db, Credentials)[0]);
  }
}
