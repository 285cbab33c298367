/** How far the claim table of one credential has been migrated.

    `Stage` relates the claim and proof_claim tables to the claim tree of a credential: the
    leaves are there, and so is every container whose claim schema has been processed.  The
    lemmas say that one array step and one object step of the migration each move a
    credential to the next stage, and leave the other credentials where they were. */
module ClaimStages {
  import opened Wrappers
  import opened Paths
  import opened ClaimTree

  datatype Claim = Claim(schema: Id, credential: Id, path: string)

  /** The claim table by id, and the proof_claim rows (proof id, claim id). */
  datatype Tables = Tables(claims: map<Id, Claim>, proofClaims: set<(Id, Id)>)

  ghost predicate Linked(db: Tables, proof: Id, id: Id) {
    (proof, id) in db.proofClaims
  }

  /** The foreign key of proof_claim. */
  ghost predicate LinksExist(db: Tables) {
    forall proof, id | Linked(db, proof, id) :: id in db.claims
  }

  ghost predicate OfCredential(db: Tables, c: Id, id: Id) {
    id in db.claims && db.claims[id].credential == c
  }

  ghost function PathOf(db: Tables, id: Id): Path
    requires id in db.claims
  {
    Components(db.claims[id].path)
  }

  ghost predicate RowAt(db: Tables, c: Id, id: Id, p: Path) {
    OfCredential(db, c, id) && PathOf(db, id) == p
  }

  ghost predicate Settled(w: World, p: Path, done: set<Key>) {
    p in w.leaves || KeyOf(w.tree, p) in done
  }

  ghost predicate LinkedAsDue(w: World, db: Tables, id: Id)
    requires id in db.claims
  {
    forall proof :: Linked(db, proof, id) <==> Attached(w, PathOf(db, id), proof)
  }

  /** What one row of the credential must look like. */
  ghost predicate GoodRow(w: World, db: Tables, id: Id)
    requires id in db.claims
  {
    var p := PathOf(db, id);
    && Present(w, p)
    && KeyOf(w.tree, p) in w.tree
    && db.claims[id].schema == w.tree[KeyOf(w.tree, p)].id
    && LinkedAsDue(w, db, id)
  }

  ghost predicate RowsGood(w: World, db: Tables, c: Id, done: set<Key>) {
    forall id | OfCredential(db, c, id) :: GoodRow(w, db, id) && Settled(w, PathOf(db, id), done)
  }

  ghost predicate PathsUnique(claims: map<Id, Claim>, c: Id) {
    forall id, id' | id in claims && id' in claims && claims[id].credential == c == claims[id'].credential
                     && claims[id].path == claims[id'].path :: id == id'
  }

  ghost predicate RowsComplete(w: World, db: Tables, c: Id, done: set<Key>) {
    forall p | Present(w, p) && Settled(w, p, done) :: HasRow(db, c, p)
  }

  ghost predicate Stage(w: World, db: Tables, c: Id, done: set<Key>) {
    RowsGood(w, db, c, done) && PathsUnique(db.claims, c) && RowsComplete(w, db, c, done)
  }

  /** Nothing but rows of credential `c` was added, and old claims keep their proofs. */
  ghost predicate Grew(db: Tables, db': Tables, c: Id) {
    && (forall id | id in db.claims :: id in db'.claims && db'.claims[id] == db.claims[id])
    && (forall id | id in db'.claims && id !in db.claims :: db'.claims[id].credential == c)
    && (forall proof, id | id in db.claims :: Linked(db', proof, id) <==> Linked(db, proof, id))
  }

  lemma OtherCredentialsKeepStage(w: World, db: Tables, db': Tables, c: Id, other: Id, done: set<Key>)
    requires Grew(db, db', c) && other != c && Stage(w, db, other, done)
    ensures Stage(w, db', other, done)
  {
    assert forall id :: OfCredential(db', other, id) <==> OfCredential(db, other, id);
    forall id | OfCredential(db', other, id)
      ensures GoodRow(w, db', id)
    {
      assert GoodRow(w, db, id);
    }
    forall p | Present(w, p) && Settled(w, p, done)
      ensures exists id :: RowAt(db', other, id, p)
    {
      var id :| RowAt(db, other, id, p);
      assert RowAt(db', other, id, p);
    }
  }

  lemma PresentRow(w: World, db: Tables, c: Id, done: set<Key>, p: Path) returns (id: Id)
    requires Stage(w, db, c, done) && Present(w, p) && Settled(w, p, done)
    ensures RowAt(db, c, id, p) && GoodRow(w, db, id)
  {
    id :| RowAt(db, c, id, p);
  }

  // ----- Inserting the containers of one claim schema

  /** A container path whose claim schema has key `k`. */
  ghost predicate Container(w: World, k: Key, p: Path) {
    Present(w, p) && p !in w.leaves && KeyOf(w.tree, p) == k
  }

  ghost predicate IsNew(db: Tables, db': Tables, id: Id) {
    id in db'.claims && id !in db.claims
  }

  type Parents = map<string, set<Id>>

  /** One new claim per path, attached to the proofs listed for the path. */
  ghost predicate Inserted(db: Tables, db': Tables, schema: Id, c: Id, parents: Parents) {
    && (forall id | id in db.claims :: id in db'.claims && db'.claims[id] == db.claims[id])
    && (forall id | IsNew(db, db', id) ::
          && db'.claims[id].schema == schema && db'.claims[id].credential == c
          && db'.claims[id].path in parents)
    && (forall id, id' | IsNew(db, db', id) && IsNew(db, db', id') && db'.claims[id].path == db'.claims[id'].path ::
          id == id')
    && (forall s | s in parents :: exists id :: IsNew(db, db', id) && db'.claims[id].path == s)
    && (forall proof, id | IsNew(db, db', id) ::
          Linked(db', proof, id) <==> proof in parents[db'.claims[id].path])
    && (forall proof, id | !IsNew(db, db', id) :: Linked(db', proof, id) <==> Linked(db, proof, id))
  }

  /** The paths to insert are the containers of schema `k`, with the proofs they are due. */
  ghost predicate ParentsAreContainers(w: World, k: Key, parents: Parents) {
    && (forall s | s in parents ::
          && Container(w, k, Components(s))
          && (forall proof :: proof in parents[s] <==> Attached(w, Components(s), proof)))
    && (forall p | Container(w, k, p) :: exists s :: s in parents && Components(s) == p)
  }

  lemma InsertedGrows(db: Tables, db': Tables, schema: Id, c: Id, parents: Parents)
    requires Inserted(db, db', schema, c, parents)
    ensures Grew(db, db', c)
  {
  }

  ghost predicate CanAdvance(w: World, db: Tables, db': Tables, c: Id, done: set<Key>, k: Key, parents: Parents) {
    && WellFormed(w) && k in w.tree && k !in done
    && Stage(w, db, c, done)
    && Inserted(db, db', w.tree[k].id, c, parents)
    && ParentsAreContainers(w, k, parents)
  }

  lemma RowsStayGood(w: World, db: Tables, db': Tables, c: Id, done: set<Key>, k: Key, parents: Parents)
    requires CanAdvance(w, db, db', c, done, k, parents)
    ensures RowsGood(w, db', c, done + {k})
  {
    forall id | OfCredential(db', c, id)
      ensures GoodRow(w, db', id) && Settled(w, PathOf(db', id), done + {k})
    {
      if IsNew(db, db', id) {
        assert Container(w, k, Components(db'.claims[id].path));
      } else {
        assert OfCredential(db, c, id) && GoodRow(w, db, id);
      }
    }
  }

  lemma PathsStayUnique(w: World, db: Tables, db': Tables, c: Id, done: set<Key>, k: Key, parents: Parents)
    requires CanAdvance(w, db, db', c, done, k, parents)
    ensures PathsUnique(db'.claims, c)
  {
    forall id, id' | IsNew(db, db', id) && OfCredential(db, c, id')
      ensures db'.claims[id].path != db'.claims[id'].path
    {
      assert Container(w, k, Components(db'.claims[id].path));
      assert Settled(w, PathOf(db, id'), done);
    }
  }

  ghost predicate HasRow(db: Tables, c: Id, p: Path) {
    exists id :: RowAt(db, c, id, p)
  }

  lemma OldRowStays(db: Tables, db': Tables, schema: Id, c: Id, parents: Parents, p: Path)
    requires Inserted(db, db', schema, c, parents) && HasRow(db, c, p)
    ensures HasRow(db', c, p)
  {
    var id :| RowAt(db, c, id, p);
    assert RowAt(db', c, id, p);
  }

  lemma NewRowThere(db: Tables, db': Tables, schema: Id, c: Id, parents: Parents, s: string)
    requires Inserted(db, db', schema, c, parents) && s in parents
    ensures HasRow(db', c, Components(s))
  {
    var id :| IsNew(db, db', id) && db'.claims[id].path == s;
    assert RowAt(db', c, id, Components(s));
  }

  lemma RowsBecomeComplete(w: World, db: Tables, db': Tables, c: Id, done: set<Key>, k: Key, parents: Parents)
    requires CanAdvance(w, db, db', c, done, k, parents)
    ensures RowsComplete(w, db', c, done + {k})
  {
    forall p | Present(w, p) && Settled(w, p, done + {k})
      ensures HasRow(db', c, p)
    {
      if Settled(w, p, done) {
        OldRowStays(db, db', w.tree[k].id, c, parents, p);
      } else {
        assert Container(w, k, p);
        var s :| s in parents && Components(s) == p;
        NewRowThere(db, db', w.tree[k].id, c, parents, s);
      }
    }
  }

  lemma InsertingContainersAdvances(w: World, db: Tables, db': Tables, c: Id, done: set<Key>, k: Key, parents: Parents)
    requires CanAdvance(w, db, db', c, done, k, parents)
    ensures Stage(w, db', c, done + {k})
  {
    RowsStayGood(w, db, db', c, done, k, parents);
    PathsStayUnique(w, db, db', c, done, k, parents);
    RowsBecomeComplete(w, db, db', c, done, k, parents);
  }

  // ----- Which paths a step collects

  /** The text of the path without its last component. */
  ghost predicate SplitsTo(path: string, s: string) {
    RSplitOnce(path).Some? && RSplitOnce(path).value.0 == s
  }

  /** A child claim contributes its proofs to its parent path and, for an array of objects,
      to the path one further up. */
  ghost predicate Contributes(path: string, toArray: bool, s: string) {
    match RSplitOnce(path)
    case None => false
    case Some(pair) => s == pair.0 || (toArray && SplitsTo(pair.0, s))
  }

  ghost predicate Gives(db: Tables, id: Id, toArray: bool, s: string) {
    id in db.claims && Contributes(db.claims[id].path, toArray, s)
  }

  ghost predicate GivesPath(db: Tables, ids: set<Id>, toArray: bool, s: string) {
    exists id :: id in ids && Gives(db, id, toArray, s)
  }

  ghost predicate GivesProof(db: Tables, ids: set<Id>, toArray: bool, s: string, proof: Id) {
    exists id :: id in ids && Gives(db, id, toArray, s) && Linked(db, proof, id)
  }

  ghost predicate HasProof(parents: Parents, s: string, proof: Id) {
    s in parents && proof in parents[s]
  }

  ghost predicate PathsCollected(db: Tables, ids: set<Id>, toArray: bool, parents: Parents) {
    forall s :: s in parents <==> GivesPath(db, ids, toArray, s)
  }

  ghost predicate ProofsCollected(db: Tables, ids: set<Id>, toArray: bool, parents: Parents) {
    forall s, proof :: HasProof(parents, s, proof) <==> GivesProof(db, ids, toArray, s, proof)
  }

  /** The parent paths of the given child claims, each with the proofs of its children. */
  ghost predicate Collected(db: Tables, ids: set<Id>, toArray: bool, parents: Parents) {
    PathsCollected(db, ids, toArray, parents) && ProofsCollected(db, ids, toArray, parents)
  }

  lemma SplitsToParent(path: string, s: string)
    ensures SplitsTo(path, s) <==> |Components(path)| > 1 && Components(s) == Parent(Components(path))
  {
    SplitDropsLast(path);
    if |Components(path)| > 1 && Components(s) == Parent(Components(path)) {
      ComponentsInjective(s, RSplitOnce(path).value.0);
    }
  }
}
