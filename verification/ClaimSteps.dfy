/** The two steps of the container migration on the claims of one credential: what the
    collected parent paths are, for an array schema and for an object schema. */
module ClaimSteps {
  import opened Wrappers
  import opened Paths
  import opened ClaimTree
  import opened ClaimStages

  // ----- Array schemas that are no objects

  ghost predicate RowsOfSchema(db: Tables, c: Id, schema: Id, ids: set<Id>) {
    forall id :: id in ids <==> OfCredential(db, c, id) && db.claims[id].schema == schema
  }

  ghost predicate ArrayLeaf(w: World, k: Key) {
    k in w.tree && w.tree[k].isArray && !w.tree[k].isObject
  }

  /** The parent of an array element is the container of its array. */
  lemma ElementParent(w: World, k: Key, q: Path)
    requires WellFormed(w) && ArrayLeaf(w, k) && q in w.leaves && KeyOf(w.tree, q) == k
    ensures |q| > 1 && Container(w, k, Parent(q)) && Kept(w, q)
  {
    assert q <= q;
    assert Present(w, q);
    LocateParent(w.tree, q);
    assert Parent(q) != [];
    PresentParent(w, q);
  }

  /** Below the container of such an array there are only leaves. */
  lemma ArrayChildrenAreLeaves(w: World, k: Key, p: Path, q: Path)
    requires WellFormed(w) && ArrayLeaf(w, k) && Container(w, k, p) && Present(w, q) && Parent(q) == p
    ensures q in w.leaves && KeyOf(w.tree, q) == k
  {
    PresentLocated(w, p);
    PresentLocated(w, q);
    if !Locate(w.tree, p).container {
      LeafHasNoChild(w.tree, p, q);
    } else if q !in w.leaves {
      var r := PresentChild(w, q);
      PresentLocated(w, r);
      LeafHasNoChild(w.tree, q, r);
    }
  }

  ghost predicate ArrayStep(w: World, db: Tables, c: Id, done: set<Key>, k: Key, ids: set<Id>, parents: Parents) {
    && WellFormed(w) && Stage(w, db, c, done) && ArrayLeaf(w, k) && k !in done
    && RowsOfSchema(db, c, w.tree[k].id, ids)
    && ids <= db.claims.Keys
    && Collected(db, ids, false, parents)
  }

  lemma ElementRow(w: World, db: Tables, c: Id, done: set<Key>, k: Key, ids: set<Id>, parents: Parents, id: Id)
    requires ArrayStep(w, db, c, done, k, ids, parents) && id in ids
    ensures PathOf(db, id) in w.leaves && KeyOf(w.tree, PathOf(db, id)) == k
  {
    assert OfCredential(db, c, id) && GoodRow(w, db, id) && Settled(w, PathOf(db, id), done);
  }

  lemma ArrayProofs(w: World, db: Tables, c: Id, done: set<Key>, k: Key, ids: set<Id>, parents: Parents, s: string, proof: Id)
    requires ArrayStep(w, db, c, done, k, ids, parents)
    requires s in parents && Container(w, k, Components(s))
    ensures proof in parents[s] <==> Attached(w, Components(s), proof)
  {
    var p := Components(s);
    assert HasProof(parents, s, proof) <==> GivesProof(db, ids, false, s, proof);
    if proof in parents[s] {
      var id :| id in ids && Gives(db, id, false, s) && Linked(db, proof, id);
      ElementRow(w, db, c, done, k, ids, parents, id);
      ElementParent(w, k, PathOf(db, id));
      SplitsToParent(db.claims[id].path, s);
      assert GoodRow(w, db, id);
    }
    if Attached(w, p, proof) {
      var q :| Present(w, q) && Parent(q) == p && Kept(w, q) && Attached(w, q, proof);
      ArrayChildrenAreLeaves(w, k, p, q);
      var id := PresentRow(w, db, c, done, q);
      SplitsToParent(db.claims[id].path, s);
      assert id in ids && Gives(db, id, false, s) && Linked(db, proof, id);
    }
  }

  lemma ArrayContainerCollected(w: World, db: Tables, c: Id, done: set<Key>, k: Key, ids: set<Id>, parents: Parents, p: Path)
    requires ArrayStep(w, db, c, done, k, ids, parents) && Container(w, k, p)
    ensures exists s :: s in parents && Components(s) == p
  {
    var q := PresentChild(w, p);
    ArrayChildrenAreLeaves(w, k, p, q);
    var id := PresentRow(w, db, c, done, q);
    var path := db.claims[id].path;
    SplitDropsLast(path);
    var s := RSplitOnce(path).value.0;
    assert id in ids && Gives(db, id, false, s);
    assert GivesPath(db, ids, false, s);
  }

  lemma ArrayParents(w: World, db: Tables, c: Id, done: set<Key>, k: Key, ids: set<Id>, parents: Parents)
    requires ArrayStep(w, db, c, done, k, ids, parents)
    ensures ParentsAreContainers(w, k, parents)
  {
    forall s | s in parents
      ensures Container(w, k, Components(s))
    {
      assert GivesPath(db, ids, false, s);
      var id :| id in ids && Gives(db, id, false, s);
      ElementRow(w, db, c, done, k, ids, parents, id);
      ElementParent(w, k, PathOf(db, id));
      SplitsToParent(db.claims[id].path, s);
    }
    forall s, proof | s in parents
      ensures proof in parents[s] <==> Attached(w, Components(s), proof)
    {
      ArrayProofs(w, db, c, done, k, ids, parents, s, proof);
    }
    forall p | Container(w, k, p)
      ensures exists s :: s in parents && Components(s) == p
    {
      ArrayContainerCollected(w, db, c, done, k, ids, parents, p);
    }
  }

  // ----- Object schemas

  ghost predicate ObjectSchema(w: World, k: Key) {
    k in w.tree && w.tree[k].isObject
  }

  /** A present property of an instance of object `k`. */
  ghost predicate PropertyOf(w: World, k: Key, q: Path) {
    Present(w, q) && |q| > 1 && Locate(w.tree, Parent(q)) == At(k, false)
  }

  ghost predicate Speaks(w: World, k: Key, q: Path) {
    PropertyOf(w, k, q) && Kept(w, q)
  }

  /** Every row at or above a property of `k` is in the table already. */
  ghost predicate PropertiesSettled(w: World, k: Key, done: set<Key>) {
    forall q | Present(w, q) && KeyOf(w.tree, q) != [] && Parent(KeyOf(w.tree, q)) == k :: Settled(w, q, done)
  }

  lemma PropertyKey(w: World, k: Key, q: Path)
    requires WellFormed(w) && PropertyOf(w, k, q)
    ensures KeyOf(w.tree, q) == k + [Last(q)] && KeyOf(w.tree, q) in w.tree
    ensures Parent(KeyOf(w.tree, q)) == k
    ensures Direct(w, q)
  {
    PresentLocated(w, q);
  }

  /** An object instance that is present has a property that speaks for it. */
  lemma InstanceHasSpeaker(w: World, k: Key, p: Path) returns (q: Path)
    requires WellFormed(w) && ObjectSchema(w, k) && Present(w, p) && Locate(w.tree, p) == At(k, false)
    ensures Speaks(w, k, q) && Parent(q) == p
  {
    q := PresentChild(w, p);
    PropertyKey(w, k, q);
    if !Kept(w, q) {
      q := KeptShadower(w, q);
    }
  }

  ghost predicate ObjectStep(w: World, db: Tables, c: Id, done: set<Key>, k: Key, ids: set<Id>, parents: Parents) {
    && WellFormed(w) && Stage(w, db, c, done) && ObjectSchema(w, k) && k !in done
    && PropertiesSettled(w, k, done)
    && ids <= db.claims.Keys
    && (forall id :: id in ids <==> OfCredential(db, c, id) && Speaks(w, k, PathOf(db, id)))
    && Collected(db, ids, w.tree[k].isArray, parents)
  }

  /** The row of a speaking property is among the collected ones. */
  lemma SpeakerRow(w: World, db: Tables, c: Id, done: set<Key>, k: Key, ids: set<Id>, parents: Parents, q: Path) returns (id: Id)
    requires ObjectStep(w, db, c, done, k, ids, parents) && Speaks(w, k, q)
    ensures id in ids && RowAt(db, c, id, q) && GoodRow(w, db, id)
  {
    PropertyKey(w, k, q);
    id := PresentRow(w, db, c, done, q);
  }

  /** The paths above a property: the object instance, and the array it is an element of. */
  lemma InstanceAbove(w: World, k: Key, q: Path)
    requires WellFormed(w) && ObjectSchema(w, k) && PropertyOf(w, k, q)
    ensures Container(w, k, Parent(q))
    ensures w.tree[k].isArray ==> |q| > 2 && Container(w, k, Parent(Parent(q)))
                                  && Locate(w.tree, Parent(Parent(q))) == At(k, true)
  {
    PresentParent(w, q);
    LocateParent(w.tree, Parent(q));
    if w.tree[k].isArray {
      assert Parent(Parent(q)) != [];
      PresentParent(w, Parent(q));
    }
  }

  lemma ContributionMeaning(path: string, toArray: bool, s: string)
    ensures Contributes(path, toArray, s) <==>
              var q := Components(path);
              || (|q| > 1 && Components(s) == Parent(q))
              || (toArray && |q| > 2 && Components(s) == Parent(Parent(q)))
  {
    SplitDropsLast(path);
    SplitsToParent(path, s);
    if RSplitOnce(path).Some? {
      SplitsToParent(RSplitOnce(path).value.0, s);
    }
  }

  /** Whether `q` is a property below the container at `p`, one or two levels down. */
  ghost predicate Under(w: World, k: Key, p: Path, q: Path) {
    && PropertyOf(w, k, q)
    && if Locate(w.tree, p) == At(k, true) then |q| > 2 && Parent(Parent(q)) == p else Parent(q) == p
  }

  /** The proofs of an instance, or of an array of instances, come from the properties that
      speak for it. */
  lemma ObjectAttached(w: World, k: Key, p: Path, proof: Id)
    requires WellFormed(w) && ObjectSchema(w, k) && Container(w, k, p)
    ensures Attached(w, p, proof) <==> exists q :: Under(w, k, p, q) && Kept(w, q) && Attached(w, q, proof)
  {
    PresentLocated(w, p);
    if Locate(w.tree, p).container {
      if Attached(w, p, proof) {
        var e :| Present(w, e) && Parent(e) == p && Kept(w, e) && Attached(w, e, proof);
        assert Locate(w.tree, e) == At(k, false);
        assert e !in w.leaves;
        var q :| Present(w, q) && Parent(q) == e && Kept(w, q) && Attached(w, q, proof);
        assert Under(w, k, p, q);
      }
      if q :| Under(w, k, p, q) && Kept(w, q) && Attached(w, q, proof) {
        var e := Parent(q);
        InstanceAbove(w, k, q);
        assert Attached(w, e, proof);
        assert Kept(w, e);
      }
    } else {
      if Attached(w, p, proof) {
        var q :| Present(w, q) && Parent(q) == p && Kept(w, q) && Attached(w, q, proof);
        assert Under(w, k, p, q);
      }
    }
  }

  /** A collected proof is one of a property that speaks for the container. */
  lemma CollectedProofIsDue(w: World, db: Tables, c: Id, done: set<Key>, k: Key, ids: set<Id>, parents: Parents, s: string, proof: Id)
    requires ObjectStep(w, db, c, done, k, ids, parents) && Container(w, k, Components(s))
    requires GivesProof(db, ids, w.tree[k].isArray, s, proof)
    ensures exists q :: Under(w, k, Components(s), q) && Kept(w, q) && Attached(w, q, proof)
  {
    var id :| id in ids && Gives(db, id, w.tree[k].isArray, s) && Linked(db, proof, id);
    ContributionUnder(w, k, db.claims[id].path, s);
    assert GoodRow(w, db, id);
    assert Under(w, k, Components(s), PathOf(db, id)) && Kept(w, PathOf(db, id)) && Attached(w, PathOf(db, id), proof);
  }

  lemma DueProofIsCollected(w: World, db: Tables, c: Id, done: set<Key>, k: Key, ids: set<Id>, parents: Parents, s: string, proof: Id, q: Path)
    requires ObjectStep(w, db, c, done, k, ids, parents) && Container(w, k, Components(s))
    requires Under(w, k, Components(s), q) && Kept(w, q) && Attached(w, q, proof)
    ensures GivesProof(db, ids, w.tree[k].isArray, s, proof)
  {
    var id := SpeakerRow(w, db, c, done, k, ids, parents, q);
    ContributionUnder(w, k, db.claims[id].path, s);
    assert id in ids && Gives(db, id, w.tree[k].isArray, s) && Linked(db, proof, id);
  }

  lemma ObjectProofs(w: World, db: Tables, c: Id, done: set<Key>, k: Key, ids: set<Id>, parents: Parents, s: string, proof: Id)
    requires ObjectStep(w, db, c, done, k, ids, parents)
    requires s in parents && Container(w, k, Components(s))
    ensures proof in parents[s] <==> Attached(w, Components(s), proof)
  {
    ObjectAttached(w, k, Components(s), proof);
    assert HasProof(parents, s, proof) <==> GivesProof(db, ids, w.tree[k].isArray, s, proof);
    if proof in parents[s] {
      CollectedProofIsDue(w, db, c, done, k, ids, parents, s, proof);
    } else if q :| Under(w, k, Components(s), q) && Kept(w, q) && Attached(w, q, proof) {
      DueProofIsCollected(w, db, c, done, k, ids, parents, s, proof, q);
    }
  }

  /** A property contributes to a container path exactly when it lies under it. */
  lemma ContributionUnder(w: World, k: Key, path: string, s: string)
    requires WellFormed(w) && ObjectSchema(w, k) && PropertyOf(w, k, Components(path))
    ensures Contributes(path, w.tree[k].isArray, s) ==> Container(w, k, Components(s))
    ensures Container(w, k, Components(s)) ==>
              (Contributes(path, w.tree[k].isArray, s) <==> Under(w, k, Components(s), Components(path)))
  {
    var q, p := Components(path), Components(s);
    ContributionMeaning(path, w.tree[k].isArray, s);
    InstanceAbove(w, k, q);
    if Container(w, k, p) {
      PresentLocated(w, p);
      LocateParent(w.tree, p);
    }
  }

  /** Some property that speaks for the object lies under each of its container paths. */
  lemma ContainerHasSpeaker(w: World, k: Key, p: Path) returns (q: Path)
    requires WellFormed(w) && ObjectSchema(w, k) && Container(w, k, p)
    ensures Speaks(w, k, q) && Under(w, k, p, q)
  {
    PresentLocated(w, p);
    var e := p;
    if Locate(w.tree, p).container {
      e := PresentChild(w, p);
    }
    q := InstanceHasSpeaker(w, k, e);
  }

  lemma AboveIsPath(p: Path, q: Path)
    requires IsPath(q) && p != [] && |p| <= |q| && forall i | 0 <= i < |p| :: p[i] == q[i]
    ensures IsPath(p)
  {
  }

  lemma ObjectContainerCollected(w: World, db: Tables, c: Id, done: set<Key>, k: Key, ids: set<Id>, parents: Parents, p: Path)
    requires ObjectStep(w, db, c, done, k, ids, parents) && Container(w, k, p)
    ensures exists s :: s in parents && Components(s) == p
  {
    var q := ContainerHasSpeaker(w, k, p);
    var id := SpeakerRow(w, db, c, done, k, ids, parents, q);
    AboveIsPath(p, q);
    var s := Join(p);
    ComponentsJoin(p);
    ContributionUnder(w, k, db.claims[id].path, s);
    assert Gives(db, id, w.tree[k].isArray, s);
    assert GivesPath(db, ids, w.tree[k].isArray, s);
  }

  lemma ObjectParents(w: World, db: Tables, c: Id, done: set<Key>, k: Key, ids: set<Id>, parents: Parents)
    requires ObjectStep(w, db, c, done, k, ids, parents)
    ensures ParentsAreContainers(w, k, parents)
  {
    forall s | s in parents
      ensures Container(w, k, Components(s))
    {
      assert GivesPath(db, ids, w.tree[k].isArray, s);
      var id :| id in ids && Gives(db, id, w.tree[k].isArray, s);
      ContributionUnder(w, k, db.claims[id].path, s);
    }
    forall s, proof | s in parents
      ensures proof in parents[s] <==> Attached(w, Components(s), proof)
    {
      ObjectProofs(w, db, c, done, k, ids, parents, s, proof);
    }
    forall p | Container(w, k, p)
      ensures exists s :: s in parents && Components(s) == p
    {
      ObjectContainerCollected(w, db, c, done, k, ids, parents, p);
    }
  }
}
