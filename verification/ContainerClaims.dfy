/** The migration that inserts the container claims
    (lib/migration/src/m20250811_154134_insert_container_claims.rs). */
module ContainerClaims {
  import opened Wrappers
  import opened Paths
  import opened ClaimTree
  import opened ClaimStages
  import opened ClaimSteps
  import opened ClaimSelection

  /** A claim schema with the credential schema it belongs to. */
  datatype ClaimSchema = ClaimSchema(id: Id, key: string, isArray: bool, dataType: string, credentialSchema: Id)

  datatype Credential = Credential(id: Id, schema: Id, createdDate: int)

  predicate IsObject(s: ClaimSchema) {
    s.dataType == "OBJECT"
  }

  predicate IsArrayLeaf(s: ClaimSchema) {
    s.isArray && s.dataType != "OBJECT"
  }

  // ----- What the tables say about one credential

  ghost predicate KeysUnique(schemas: seq<ClaimSchema>, owner: Id) {
    forall s, s' | s in schemas && s' in schemas && s.credentialSchema == owner == s'.credentialSchema
                   && Components(s.key) == Components(s'.key) :: s == s'
  }

  ghost function NodeOf(s: ClaimSchema): Node {
    Node(s.id, s.isArray, s.dataType == "OBJECT")
  }

  ghost function TreeOf(schemas: seq<ClaimSchema>, owner: Id): Tree
    requires KeysUnique(schemas, owner)
  {
    map s | s in schemas && s.credentialSchema == owner :: Components(s.key) := NodeOf(s)
  }

  ghost function Listing(schemas: seq<ClaimSchema>): seq<Id> {
    seq(|schemas|, i requires 0 <= i < |schemas| => schemas[i].id)
  }

  ghost function WorldOf(schemas: seq<ClaimSchema>, db: Tables, cr: Credential): World
    requires KeysUnique(schemas, cr.schema)
  {
    World(TreeOf(schemas, cr.schema), Listing(schemas),
          set id | id in db.claims && db.claims[id].credential == cr.id :: PathOf(db, id),
          set pc | pc in db.proofClaims && pc.1 in db.claims && db.claims[pc.1].credential == cr.id ::
            (PathOf(db, pc.1), pc.0))
  }

  ghost predicate HasOwnSchema(w: World, db: Tables, id: Id)
    requires id in db.claims
  {
    var k := KeyOf(w.tree, PathOf(db, id));
    k in w.tree && db.claims[id].schema == w.tree[k].id
  }

  /** The claims of the credential are leaves only, each path occurs once and is an instance of
      the key of the claim's own schema. */
  ghost predicate LeafOnly(schemas: seq<ClaimSchema>, db: Tables, cr: Credential) {
    && KeysUnique(schemas, cr.schema)
    && WellFormed(WorldOf(schemas, db, cr))
    && PathsUnique(db.claims, cr.id)
    && (forall id | OfCredential(db, cr.id, id) :: HasOwnSchema(WorldOf(schemas, db, cr), db, id))
  }

  /** The claims of credential `c` are exactly the leaves of `w` and their ancestors, one claim
      per path, each with the schema of its path and the proofs it is due. */
  ghost predicate Migrated(w: World, db: Tables, c: Id) {
    && (forall id | OfCredential(db, c, id) :: GoodRow(w, db, id))
    && PathsUnique(db.claims, c)
    && (forall p | Present(w, p) :: exists id :: RowAt(db, c, id, p))
  }

  lemma LeafOnlyIsStageZero(schemas: seq<ClaimSchema>, db: Tables, cr: Credential)
    requires LeafOnly(schemas, db, cr)
    ensures Stage(WorldOf(schemas, db, cr), db, cr.id, {})
  {
    var w := WorldOf(schemas, db, cr);
    forall id | OfCredential(db, cr.id, id)
      ensures GoodRow(w, db, id) && PathOf(db, id) in w.leaves
    {
      var p := PathOf(db, id);
      assert p in w.leaves && p <= p;
      forall proof
        ensures Linked(db, proof, id) <==> (p, proof) in w.proofs
      {
        if Linked(db, proof, id) {
          assert (proof, id) in db.proofClaims && (proof, id).1 in db.claims;
          assert (PathOf(db, (proof, id).1), (proof, id).0) in w.proofs;
        }
        if (p, proof) in w.proofs {
          var pc :| pc in db.proofClaims && pc.1 in db.claims && db.claims[pc.1].credential == cr.id
                    && (PathOf(db, pc.1), pc.0) == (p, proof);
          ComponentsInjective(db.claims[pc.1].path, db.claims[id].path);
          assert OfCredential(db, cr.id, pc.1);
          assert pc == (proof, id);
        }
      }
      assert HasOwnSchema(w, db, id);
    }
    forall p | Present(w, p) && Settled(w, p, {})
      ensures exists id :: RowAt(db, cr.id, id, p)
    {
      var id :| id in db.claims && db.claims[id].credential == cr.id && PathOf(db, id) == p;
      assert RowAt(db, cr.id, id, p);
    }
  }

  /** A migrated credential has a claim for every path above one of its claims. */
  lemma MigratedHasParents(w: World, db: Tables, c: Id, id: Id)
    requires Migrated(w, db, c) && OfCredential(db, c, id) && RSplitOnce(db.claims[id].path).Some?
    ensures exists up :: OfCredential(db, c, up) && db.claims[up].path == RSplitOnce(db.claims[id].path).value.0
  {
    var path := db.claims[id].path;
    assert GoodRow(w, db, id);
    SplitDropsLast(path);
    PresentParent(w, Components(path));
    var up :| RowAt(db, c, up, Parent(Components(path)));
    ComponentsInjective(db.claims[up].path, RSplitOnce(path).value.0);
  }

  /** A claim of a migrated credential has a proof only if a leaf at or below it had it; if no
      present property is shadowed, exactly then. */
  lemma MigratedProofsAreUnions(w: World, db: Tables, c: Id, id: Id, proof: Id)
    requires WellFormed(w) && Migrated(w, db, c) && OfCredential(db, c, id)
    ensures Linked(db, proof, id) ==> LeafBeneath(w, PathOf(db, id), proof)
    ensures NothingShadowed(w) ==> (Linked(db, proof, id) <==> LeafBeneath(w, PathOf(db, id), proof))
  {
    assert GoodRow(w, db, id);
    var p := PathOf(db, id);
    if Attached(w, p, proof) {
      AttachedOnlyIf(w, p, proof);
    } else if NothingShadowed(w) && LeafBeneath(w, p, proof) {
      AttachedIf(w, p, proof);
    }
  }

  ghost predicate UnionsInTables(w: World, db: Tables, c: Id) {
    forall id, proof | OfCredential(db, c, id) :: Linked(db, proof, id) <==> LeafBeneath(w, PathOf(db, id), proof)
  }

  /** The migrated tables hold the unions exactly when the proofs propagate in the claim tree;
      for which trees they always do is decided by shadowing alone. */
  lemma UnionsIffPropagation(w: World, db: Tables, c: Id)
    requires Migrated(w, db, c)
    ensures UnionsInTables(w, db, c) <==> ProofsPropagate(w)
  {
    if ProofsPropagate(w) {
      forall id, proof | OfCredential(db, c, id)
        ensures Linked(db, proof, id) <==> LeafBeneath(w, PathOf(db, id), proof)
      {
        assert GoodRow(w, db, id);
      }
    }
    if UnionsInTables(w, db, c) {
      forall p, proof | Present(w, p)
        ensures Attached(w, p, proof) <==> LeafBeneath(w, p, proof)
      {
        var id :| RowAt(db, c, id, p);
        assert GoodRow(w, db, id);
        assert Linked(db, proof, id) <==> LeafBeneath(w, PathOf(db, id), proof);
      }
    }
  }

  // ----- The order of the claim schemas

  /** `ORDER BY key DESC`. */
  ghost predicate Descending(rows: seq<ClaimSchema>) {
    forall i, j | 0 <= i < j < |rows| :: AtMost(rows[j].key, rows[i].key)
  }

  ghost function KeysDone(rows: seq<ClaimSchema>, owner: Id): set<Key> {
    set s | s in rows && s.credentialSchema == owner :: Components(s.key)
  }

  /** In descending order a schema comes after every schema below it. */
  lemma ChildrenComeFirst(rows: seq<ClaimSchema>, i: nat, child: ClaimSchema)
    requires Descending(rows) && i < |rows| && child in rows
    requires |Components(child.key)| > 1 && Parent(Components(child.key)) == Components(rows[i].key)
    ensures child in rows[..i]
  {
    var j :| 0 <= j < |rows| && rows[j] == child;
    AncestorStartsWith(rows[i].key, child.key);
    PrefixAtMost(rows[i].key, child.key);
    if i <= j {
      if i < j {
        AtMostAntisymmetric(rows[i].key, child.key);
      }
    } else {
      assert child == rows[..i][j];
    }
  }

  lemma NotYetDone(rows: seq<ClaimSchema>, schemas: seq<ClaimSchema>, i: nat)
    requires Distinct(rows) && i < |rows| && (forall s | s in rows :: s in schemas)
    requires KeysUnique(schemas, rows[i].credentialSchema)
    ensures Components(rows[i].key) !in KeysDone(rows[..i], rows[i].credentialSchema)
  {
    forall s | s in rows[..i] && s.credentialSchema == rows[i].credentialSchema
      ensures Components(s.key) != Components(rows[i].key)
    {
      var j :| 0 <= j < i && rows[j] == s;
      assert rows[j] in rows && rows[i] in rows;
    }
  }

  lemma KeysDoneStep(rows: seq<ClaimSchema>, i: nat, owner: Id)
    requires i < |rows|
    ensures KeysDone(rows[..i + 1], owner) ==
              KeysDone(rows[..i], owner) + (if rows[i].credentialSchema == owner then {Components(rows[i].key)} else {})
  {
    assert rows[..i + 1] == rows[..i] + [rows[i]];
  }

  lemma NodeInTree(schemas: seq<ClaimSchema>, owner: Id, s: ClaimSchema)
    requires KeysUnique(schemas, owner) && s in schemas && s.credentialSchema == owner
    ensures var t := TreeOf(schemas, owner); Components(s.key) in t && t[Components(s.key)] == NodeOf(s)
  {
  }

  lemma TreeNode(schemas: seq<ClaimSchema>, owner: Id, k: Key) returns (s: ClaimSchema)
    requires KeysUnique(schemas, owner) && k in TreeOf(schemas, owner)
    ensures s in schemas && s.credentialSchema == owner && Components(s.key) == k
    ensures TreeOf(schemas, owner)[k] == NodeOf(s)
  {
    s :| s in schemas && s.credentialSchema == owner && Components(s.key) == k;
  }

  /** A present path whose schema is neither an array nor an object is a leaf. */
  lemma PlainIsLeaf(w: World, p: Path)
    requires WellFormed(w) && Present(w, p)
    requires KeyOf(w.tree, p) in w.tree
    requires !w.tree[KeyOf(w.tree, p)].isArray && !w.tree[KeyOf(w.tree, p)].isObject
    ensures p in w.leaves
  {
    if p !in w.leaves {
      PresentLocated(w, p);
      LocateParent(w.tree, p);
      var q := PresentChild(w, p);
      PresentLocated(w, q);
      LeafHasNoChild(w.tree, p, q);
    }
  }

  ghost predicate AllOf(schemas: seq<ClaimSchema>, rows: seq<ClaimSchema>, objects: bool) {
    forall s :: s in rows <==> s in schemas && (if objects then IsObject(s) else IsArrayLeaf(s))
  }

  /** When an object schema is reached, its properties have been dealt with. */
  lemma ObjectsBottomUp(schemas: seq<ClaimSchema>, w: World, owner: Id, arrays: seq<ClaimSchema>,
                        objects: seq<ClaimSchema>, i: nat)
    requires KeysUnique(schemas, owner) && w.tree == TreeOf(schemas, owner) && WellFormed(w)
    requires AllOf(schemas, arrays, false) && AllOf(schemas, objects, true) && Descending(objects)
    requires i < |objects| && objects[i].credentialSchema == owner
    ensures PropertiesSettled(w, Components(objects[i].key), KeysDone(arrays, owner) + KeysDone(objects[..i], owner))
  {
    var k := Components(objects[i].key);
    forall q | Present(w, q) && KeyOf(w.tree, q) != [] && Parent(KeyOf(w.tree, q)) == k
      ensures Settled(w, q, KeysDone(arrays, owner) + KeysDone(objects[..i], owner))
    {
      PresentLocated(w, q);
      var s := TreeNode(schemas, owner, KeyOf(w.tree, q));
      if IsObject(s) {
        ChildrenComeFirst(objects, i, s);
      } else if !s.isArray {
        PlainIsLeaf(w, q);
      }
    }
  }

  /** When both passes are over nothing is missing. */
  lemma AllSettled(schemas: seq<ClaimSchema>, w: World, db: Tables, cr: Credential, arrays: seq<ClaimSchema>, objects: seq<ClaimSchema>)
    requires KeysUnique(schemas, cr.schema) && w.tree == TreeOf(schemas, cr.schema) && WellFormed(w)
    requires AllOf(schemas, arrays, false) && AllOf(schemas, objects, true)
    requires Stage(w, db, cr.id, KeysDone(arrays, cr.schema) + KeysDone(objects, cr.schema))
    ensures Migrated(w, db, cr.id)
  {
    forall p | Present(w, p)
      ensures Settled(w, p, KeysDone(arrays, cr.schema) + KeysDone(objects, cr.schema))
    {
      PresentLocated(w, p);
      var s := TreeNode(schemas, cr.schema, KeyOf(w.tree, p));
      if !IsObject(s) && !s.isArray {
        PlainIsLeaf(w, p);
      }
    }
  }

  // ----- The children of an object schema

  predicate IsChildRow(s: ClaimSchema, parent: ClaimSchema) {
    s.credentialSchema == parent.credentialSchema && DirectChildKey(s.key, parent.key)
  }

  ghost predicate IsChildId(schemas: seq<ClaimSchema>, row: ClaimSchema, id: Id) {
    exists s :: s in schemas && IsChildRow(s, row) && s.id == id
  }

  /** The ids of the child schemas of a row, as an unordered query lists them. */
  ghost predicate ChildIds(schemas: seq<ClaimSchema>, row: ClaimSchema, children: seq<Id>) {
    && (forall i | 0 <= i < |children| :: IsChildId(schemas, row, children[i]))
    && (forall s | s in schemas && IsChildRow(s, row) :: s.id in children)
    && (forall i, j | 0 <= i < j < |children| :: Before(Listing(schemas), children[i], children[j]))
  }

  lemma ChildIdIsChild(schemas: seq<ClaimSchema>, w: World, row: ClaimSchema, id: Id)
    requires KeysUnique(schemas, row.credentialSchema) && w.tree == TreeOf(schemas, row.credentialSchema)
    requires IsChildId(schemas, row, id)
    ensures IsChild(w, Components(row.key), id)
  {
    var s :| s in schemas && IsChildRow(s, row) && s.id == id;
    DirectChildMeaning(s.key, row.key);
    NodeInTree(schemas, row.credentialSchema, s);
    assert ChildKey(Components(row.key), Last(Components(s.key))) == Components(s.key);
  }

  lemma ChildRowsFormChildList(schemas: seq<ClaimSchema>, w: World, row: ClaimSchema, children: seq<Id>)
    requires KeysUnique(schemas, row.credentialSchema) && w.tree == TreeOf(schemas, row.credentialSchema)
    requires w.listed == Listing(schemas) && ChildIds(schemas, row, children)
    ensures ChildList(w, Components(row.key), children)
  {
    var k := Components(row.key);
    forall i | 0 <= i < |children|
      ensures IsChild(w, k, children[i])
    {
      ChildIdIsChild(schemas, w, row, children[i]);
    }
    forall name | ChildKey(k, name) in w.tree
      ensures w.tree[ChildKey(k, name)].id in children
    {
      var s := TreeNode(schemas, row.credentialSchema, ChildKey(k, name));
      DirectChildMeaning(s.key, row.key);
      assert Parent(ChildKey(k, name)) == k;
    }
  }

  /** Hash sets are iterated in an unspecified order. */
  method Pick<T>(xs: set<T>) returns (x: T)
    requires xs != {}
    ensures x in xs
  {
    x :| x in xs;
  }

  // ----- The tables and the methods that change them

  class Database {
    const schemas: seq<ClaimSchema>
    const credentials: seq<Credential>
    var claims: map<Id, Claim>
    var proofClaims: set<(Id, Id)>
    var nextId: Id // the next unused UUID

    ghost function Rows(): Tables
      reads this
    {
      Tables(claims, proofClaims)
    }

    ghost predicate Valid()
      reads this
    {
      && (forall id | id in claims :: id < nextId)
      && LinksExist(Rows())
      && (forall cr, cr' | cr in credentials && cr' in credentials && cr.id == cr'.id :: cr == cr')
    }

    /** One new claim per path, with a fresh id each. */
    method PathsToClaims(schema: ClaimSchema, c: Id, paths: set<string>) returns (models: map<Id, Claim>)
      requires Valid()
      modifies this`nextId
      ensures Valid()
      ensures forall id | id in models :: id !in claims && id < nextId && models[id] == Claim(schema.id, c, models[id].path)
      ensures forall id | id in models :: models[id].path in paths
      ensures forall id, id' | id in models && id' in models && models[id].path == models[id'].path :: id == id'
      ensures forall s | s in paths :: exists id :: id in models && models[id].path == s
    {
      models := map[];
      var todo := paths;
      while todo != {}
        invariant Valid() && nextId >= old(nextId) && todo <= paths
        invariant forall id | id in models :: old(nextId) <= id < nextId && models[id] == Claim(schema.id, c, models[id].path)
        invariant forall id | id in models :: models[id].path in paths && models[id].path !in todo
        invariant forall id, id' | id in models && id' in models && models[id].path == models[id'].path :: id == id'
        invariant forall s | s in paths && s !in todo :: exists id :: id in models && models[id].path == s
        decreases |todo|
      {
        var path :| path in todo;
        ghost var before := models;
        models := models[nextId := Claim(schema.id, c, path)];
        todo := todo - {path};
        nextId := nextId + 1;
        forall s | s in paths && s !in todo
          ensures exists id :: id in models && models[id].path == s
        {
          if s == path {
            assert models[nextId - 1].path == s;
          } else {
            var id :| id in before && before[id].path == s;
            assert models[id].path == s;
          }
        }
      }
    }

    /** The proof_claim rows for the new claims. */
    method ProofLinks(models: map<Id, Claim>, parents: Parents) returns (links: set<(Id, Id)>)
      requires forall id | id in models :: models[id].path in parents
      ensures forall proof, id :: (proof, id) in links <==> id in models && proof in parents[models[id].path]
    {
      links := {};
      var todo := models.Keys;
      while todo != {}
        invariant todo <= models.Keys
        invariant forall proof, id :: (proof, id) in links <==> id in models && id !in todo && proof in parents[models[id].path]
        decreases |todo|
      {
        var id := Pick(todo);
        links := links + set proof | proof in parents[models[id].path] :: (proof, id);
        todo := todo - {id};
      }
    }

    method InsertClaimsWithProofRelation(schema: ClaimSchema, c: Id, parents: Parents)
      requires Valid()
      modifies this
      ensures Valid()
      ensures Inserted(old(Rows()), Rows(), schema.id, c, parents)
    {
      var models := PathsToClaims(schema, c, parents.Keys);
      var links := ProofLinks(models, parents);
      claims := claims + models;
      proofClaims := proofClaims + links;
      ModelsInserted(old(Rows()), schema.id, c, parents, models, links);
    }

    /** Add the proofs of one child claim to the paths above it. */
    method AddChild(id: Id, toArray: bool, parents: Parents, ghost ids: set<Id>) returns (ok: bool, grown: Parents)
      requires id in claims && ids <= claims.Keys && Collected(Rows(), ids, toArray, parents)
      ensures ok <==> |Components(claims[id].path)| > (if toArray then 2 else 1)
      ensures ok ==> Collected(Rows(), ids + {id}, toArray, grown)
    {
      var path := claims[id].path;
      SplitDropsLast(path);
      var split := RSplitOnce(path);
      if split.None? {
        return false, parents;
      }
      var proofs := set pc | pc in proofClaims && pc.1 == id :: pc.0;
      ProofsOfClaim(Rows(), id, proofs);
      grown := Extend(parents, split.value.0, proofs);
      if toArray {
        SplitDropsLast(split.value.0);
        var upper := RSplitOnce(split.value.0);
        if upper.None? {
          return false, parents;
        }
        grown := Extend(grown, upper.value.0, proofs);
      }
      CollectOne(Rows(), ids, id, toArray, parents, proofs, grown);
      return true, grown;
    }

    /** Group the proofs of the given claims by parent path.  Fails exactly on paths that are
        too short to have one. */
    method CollectParents(ids: set<Id>, toArray: bool) returns (ok: bool, parents: Parents)
      requires ids <= claims.Keys
      ensures ok <==> forall id | id in ids :: |Components(claims[id].path)| > (if toArray then 2 else 1)
      ensures ok ==> Collected(Rows(), ids, toArray, parents)
    {
      parents := map[];
      var todo := ids;
      ghost var seen: set<Id> := {};
      while todo != {}
        invariant seen + todo == ids
        invariant seen <= claims.Keys && Collected(Rows(), seen, toArray, parents)
        invariant forall id | id in seen :: |Components(claims[id].path)| > (if toArray then 2 else 1)
        decreases |todo|
      {
        var id := Pick(todo);
        ok, parents := AddChild(id, toArray, parents, seen);
        if !ok {
          return;
        }
        todo := todo - {id};
        seen := seen + {id};
      }
      assert seen == ids;
      return true, parents;
    }

    // ----- Queries

    /** The claims of one credential and one claim schema. */
    function ClaimsOf(c: Id, schema: Id): set<Id>
      reads this
    {
      set id | id in claims && claims[id].credential == c && claims[id].schema == schema
    }

    /** The same, `ORDER BY path ASC`. */
    method SelectOrderedByPath(c: Id, schema: Id) returns (rows: seq<Id>)
      ensures OrderedRows(Rows(), c, schema, rows)
    {
      var found := [];
      var todo := ClaimsOf(c, schema);
      while todo != {}
        invariant forall id :: id in ClaimsOf(c, schema) <==> id in todo || id in found
        invariant forall id | id in found :: id !in todo
        invariant Distinct(found)
        decreases |todo|
      {
        var id := Pick(todo);
        found := found + [id];
        todo := todo - {id};
      }
      var table := claims;
      rows := OrderBy(found, (id: Id) => if id in table then table[id].path else "");
      assert forall i | 0 <= i < |rows| :: rows[i] in rows;
      assert Keys(rows, (id: Id) => if id in table then table[id].path else "") == Texts(Rows(), rows);
    }

    /** The claim schemas of one pass, `ORDER BY key DESC`. */
    method SelectSchemas(objects: bool) returns (rows: seq<ClaimSchema>)
      ensures AllOf(schemas, rows, objects) && Descending(rows)
      ensures Distinct(schemas) ==> Distinct(rows)
    {
      var found := [];
      for i := 0 to |schemas|
        invariant forall s :: s in found <==> s in schemas[..i] && (if objects then IsObject(s) else IsArrayLeaf(s))
        invariant Distinct(schemas) ==> Distinct(found)
      {
        assert schemas[..i + 1] == schemas[..i] + [schemas[i]];
        assert Distinct(schemas) ==> schemas[i] !in schemas[..i];
        if if objects then IsObject(schemas[i]) else IsArrayLeaf(schemas[i]) {
          found := found + [schemas[i]];
        }
      }
      assert schemas[..|schemas|] == schemas;
      var ascending := OrderBy(found, (s: ClaimSchema) => s.key);
      rows := seq(|ascending|, i requires 0 <= i < |ascending| => ascending[|ascending| - 1 - i]);
      ReversedRows(ascending, rows);
    }

    /** The ids of the direct child schemas, in no particular order: as they are stored. */
    method SelectChildSchemas(row: ClaimSchema) returns (children: seq<Id>)
      ensures ChildIds(schemas, row, children)
    {
      children := [];
      ghost var at: seq<nat> := [];
      for n := 0 to |schemas|
        invariant |at| == |children|
        invariant forall i | 0 <= i < |at| :: at[i] < n && IsChildRow(schemas[at[i]], row) && schemas[at[i]].id == children[i]
        invariant forall i, j | 0 <= i < j < |at| :: at[i] < at[j]
        invariant forall s | s in schemas[..n] && IsChildRow(s, row) :: s.id in children
      {
        assert schemas[..n + 1] == schemas[..n] + [schemas[n]];
        if IsChildRow(schemas[n], row) {
          children := children + [schemas[n].id];
          at := at + [n];
        }
      }
      assert schemas[..|schemas|] == schemas;
      forall i, j | 0 <= i < j < |children|
        ensures Before(Listing(schemas), children[i], children[j])
      {
        var l := Listing(schemas);
        assert l[at[i]] == children[i] && l[at[j]] == children[j];
      }
      forall i | 0 <= i < |children|
        ensures IsChildId(schemas, row, children[i])
      {
        assert schemas[at[i]] in schemas;
      }
    }

    /** Add the claims of one child schema, in path order, that no picked path is a prefix of. */
    method PickRows(children: seq<Id>, a: nat, c: Id, before: set<Id>, ghost w: World, ghost k: Key, ghost done: set<Key>)
      returns (picked: set<Id>)
      requires a < |children| && before <= claims.Keys
      ensures picked <= claims.Keys
      ensures ReadyToSelect(w, Rows(), c, done, k, children) && Picked(w, Rows(), c, k, children[..a], [], before) ==>
                Picked(w, Rows(), c, k, children[..a + 1], [], picked)
    {
      picked := before;
      ghost var ready := ReadyToSelect(w, Rows(), c, done, k, children) && Picked(w, Rows(), c, k, children[..a], [], before);
      var rows := SelectOrderedByPath(c, children[a]);
      for b := 0 to |rows|
        invariant picked <= claims.Keys
        invariant ready ==> Picked(w, Rows(), c, k, children[..a], rows[..b], picked)
      {
        ghost var sofar := picked;
        if !exists s | s in picked :: claims[s].path <= claims[rows[b]].path {
          picked := picked + {rows[b]};
        }
        if ready {
          FilterStep(w, Rows(), c, done, k, children, a, rows, b, sofar, picked);
        }
      }
      if ready {
        NextChild(w, Rows(), c, k, children, a, rows, picked);
      }
    }

    /** Pick the direct child claims of an object, over all child schemas. */
    method SelectDirectChildren(children: seq<Id>, c: Id, ghost w: World, ghost k: Key, ghost done: set<Key>)
      returns (picked: set<Id>)
      ensures picked <= claims.Keys
      ensures ReadyToSelect(w, Rows(), c, done, k, children) ==>
                forall id :: id in picked <==> OfCredential(Rows(), c, id) && Speaks(w, k, PathOf(Rows(), id))
    {
      picked := {};
      ghost var ready := ReadyToSelect(w, Rows(), c, done, k, children);
      for a := 0 to |children|
        invariant picked <= claims.Keys
        invariant ready ==> Picked(w, Rows(), c, k, children[..a], [], picked)
      {
        picked := PickRows(children, a, c, picked, w, k, done);
      }
      assert children[..|children|] == children;
      if ready {
        PropertiesAreListed(w, Rows(), c, done, k, children);
      }
    }

    // ----- One credential

    method MigrateCredentialArrays(row: ClaimSchema, c: Id, ghost w: World, ghost done: set<Key>) returns (ok: bool)
      requires Valid()
      modifies this
      ensures Valid()
      ensures Grew(old(Rows()), Rows(), c) && (!ok ==> Rows() == old(Rows()))
      ensures old(ArrayReady(w, Rows(), row, c, done)) ==> ok && Stage(w, Rows(), c, done + {Components(row.key)})
    {
      var ids := ClaimsOf(c, row.id);
      ghost var k, before := Components(row.key), Rows();
      var parents;
      ok, parents := CollectParents(ids, false);
      if ArrayReady(w, Rows(), row, c, done) {
        if !ok {
          ArrayNeverFails(w, Rows(), row, c, done, ids);
        }
        ArrayParents(w, Rows(), c, done, k, ids, parents);
      }
      if ok {
        InsertClaimsWithProofRelation(row, c, parents);
        InsertedGrows(before, Rows(), row.id, c, parents);
        if ArrayReady(w, before, row, c, done) {
          InsertingContainersAdvances(w, before, Rows(), c, done, k, parents);
        }
      }
    }

    method MigrateCredentialObjects(row: ClaimSchema, children: seq<Id>, c: Id, ghost w: World, ghost done: set<Key>) returns (ok: bool)
      requires Valid()
      modifies this
      ensures Valid()
      ensures Grew(old(Rows()), Rows(), c) && (!ok ==> Rows() == old(Rows()))
      ensures old(ObjectReady(w, Rows(), row, children, c, done)) ==> ok && Stage(w, Rows(), c, done + {Components(row.key)})
    {
      ghost var k, before := Components(row.key), Rows();
      var ids := SelectDirectChildren(children, c, w, k, done);
      var parents;
      ok, parents := CollectParents(ids, row.isArray);
      if ObjectReady(w, Rows(), row, children, c, done) {
        if !ok {
          ObjectNeverFails(w, Rows(), row, children, c, done, ids);
        }
        ObjectParents(w, Rows(), c, done, k, ids, parents);
      }
      if ok {
        InsertClaimsWithProofRelation(row, c, parents);
        InsertedGrows(before, Rows(), row.id, c, parents);
        if ObjectReady(w, before, row, children, c, done) {
          InsertingContainersAdvances(w, before, Rows(), c, done, k, parents);
        }
      }
    }

    // ----- The whole migration

    /** Credentials the migration covers and whose claims were leaf-only when it started. */
    ghost predicate InScope(start: Tables, cutoff: int, cr: Credential) {
      cr in credentials && cr.createdDate <= cutoff && LeafOnly(schemas, start, cr)
    }

    /** The claim schemas in `first` and `second` are done for every covered credential. */
    ghost predicate AllDone(start: Tables, db: Tables, cutoff: int, first: seq<ClaimSchema>, second: seq<ClaimSchema>) {
      forall cr | InScope(start, cutoff, cr) ::
        Stage(WorldOf(schemas, start, cr), db, cr.id, KeysDone(first, cr.schema) + KeysDone(second, cr.schema))
    }

    /** The keys done for a credential: with row `i` unless it is still to do. */
    ghost function Reached(first: seq<ClaimSchema>, rows: seq<ClaimSchema>, i: nat, pending: bool, owner: Id): set<Key>
      requires i < |rows|
    {
      KeysDone(first, owner) + KeysDone(rows[..if pending then i else i + 1], owner)
    }

    /** Row `i` is done except for the credentials in `todo`. */
    ghost predicate PartlyDone(start: Tables, db: Tables, cutoff: int, first: seq<ClaimSchema>, rows: seq<ClaimSchema>,
                               i: nat, todo: set<Id>)
      requires i < |rows|
    {
      forall cr | InScope(start, cutoff, cr) ::
        Stage(WorldOf(schemas, start, cr), db, cr.id, Reached(first, rows, i, cr.id in todo, cr.schema))
    }

    /** `SELECT DISTINCT id` over the credentials of the row's credential schema. */
    function CredentialIds(row: ClaimSchema, cutoff: int): set<Id> {
      set cr | cr in credentials && cr.schema == row.credentialSchema && cr.createdDate <= cutoff :: cr.id
    }

    lemma ReachedBefore(cutoff: int, first: seq<ClaimSchema>, rows: seq<ClaimSchema>, i: nat, cr: Credential)
      requires i < |rows| && cr in credentials && cr.createdDate <= cutoff
      ensures Reached(first, rows, i, cr.id in CredentialIds(rows[i], cutoff), cr.schema)
           == KeysDone(first, cr.schema) + KeysDone(rows[..i], cr.schema)
    {
      KeysDoneStep(rows, i, cr.schema);
    }

    lemma EnterRow(start: Tables, db: Tables, cutoff: int, first: seq<ClaimSchema>, rows: seq<ClaimSchema>, i: nat)
      requires i < |rows| && AllDone(start, db, cutoff, first, rows[..i])
      ensures PartlyDone(start, db, cutoff, first, rows, i, CredentialIds(rows[i], cutoff))
    {
      forall cr | InScope(start, cutoff, cr)
        ensures Stage(WorldOf(schemas, start, cr), db, cr.id,
                      Reached(first, rows, i, cr.id in CredentialIds(rows[i], cutoff), cr.schema))
      {
        ReachedBefore(cutoff, first, rows, i, cr);
      }
    }

    /** A credential that the step on credential `c` does not concern. */
    lemma OtherCredentialUnmoved(start: Tables, before: Tables, after: Tables, cutoff: int, first: seq<ClaimSchema>,
                                 rows: seq<ClaimSchema>, i: nat, todo: set<Id>, c: Id, other: Credential)
      requires i < |rows| && PartlyDone(start, before, cutoff, first, rows, i, todo)
      requires InScope(start, cutoff, other) && other.id != c && Grew(before, after, c)
      ensures Stage(WorldOf(schemas, start, other), after, other.id, Reached(first, rows, i, other.id in todo, other.schema))
    {
      OtherCredentialsKeepStage(WorldOf(schemas, start, other), before, after, c, other.id,
                                Reached(first, rows, i, other.id in todo, other.schema));
    }

    lemma ReachedRow(first: seq<ClaimSchema>, rows: seq<ClaimSchema>, i: nat, owner: Id)
      requires i < |rows| && owner == rows[i].credentialSchema
      ensures KeysDone(first, owner) + KeysDone(rows[..i], owner) + {Components(rows[i].key)} == Reached(first, rows, i, false, owner)
    {
      KeysDoneStep(rows, i, owner);
    }

    /** Where the step on `cr` leaves a covered credential. */
    lemma CredentialMoved(start: Tables, before: Tables, after: Tables, cutoff: int, first: seq<ClaimSchema>,
                          rows: seq<ClaimSchema>, i: nat, todo: set<Id>, cr: Credential, other: Credential)
      requires i < |rows| && PartlyDone(start, before, cutoff, first, rows, i, todo) && InScope(start, cutoff, other)
      requires cr.schema == rows[i].credentialSchema && Grew(before, after, cr.id) && (other.id == cr.id ==> other == cr)
      requires other == cr ==>
                 Stage(WorldOf(schemas, start, cr), after, cr.id,
                       KeysDone(first, cr.schema) + KeysDone(rows[..i], cr.schema) + {Components(rows[i].key)})
      ensures Stage(WorldOf(schemas, start, other), after, other.id,
                    Reached(first, rows, i, other.id in todo - {cr.id}, other.schema))
    {
      if other == cr {
        ReachedRow(first, rows, i, cr.schema);
      } else {
        OtherCredentialUnmoved(start, before, after, cutoff, first, rows, i, todo, cr.id, other);
      }
    }

    lemma OneCredentialDone(start: Tables, before: Tables, after: Tables, cutoff: int, first: seq<ClaimSchema>,
                            rows: seq<ClaimSchema>, i: nat, todo: set<Id>, cr: Credential)
      requires i < |rows| && PartlyDone(start, before, cutoff, first, rows, i, todo)
      requires forall a, b | a in credentials && b in credentials && a.id == b.id :: a == b
      requires cr in credentials && cr.schema == rows[i].credentialSchema && Grew(before, after, cr.id)
      requires InScope(start, cutoff, cr) ==>
                 Stage(WorldOf(schemas, start, cr), after, cr.id,
                       KeysDone(first, cr.schema) + KeysDone(rows[..i], cr.schema) + {Components(rows[i].key)})
      ensures PartlyDone(start, after, cutoff, first, rows, i, todo - {cr.id})
    {
      forall other | InScope(start, cutoff, other)
        ensures Stage(WorldOf(schemas, start, other), after, other.id,
                      Reached(first, rows, i, other.id in todo - {cr.id}, other.schema))
      {
        CredentialMoved(start, before, after, cutoff, first, rows, i, todo, cr, other);
      }
    }

    lemma NothingDoneYet(start: Tables, cutoff: int)
      ensures AllDone(start, start, cutoff, [], [])
    {
      forall cr | InScope(start, cutoff, cr)
        ensures Stage(WorldOf(schemas, start, cr), start, cr.id, KeysDone([], cr.schema) + KeysDone([], cr.schema))
      {
        LeafOnlyIsStageZero(schemas, start, cr);
        assert KeysDone([], cr.schema) + KeysDone([], cr.schema) == {};
      }
    }

    lemma FirstPassDone(start: Tables, db: Tables, cutoff: int, arrays: seq<ClaimSchema>)
      requires AllDone(start, db, cutoff, [], arrays)
      ensures AllDone(start, db, cutoff, arrays, [])
    {
      forall cr | InScope(start, cutoff, cr)
        ensures KeysDone([], cr.schema) + KeysDone(arrays, cr.schema) == KeysDone(arrays, cr.schema) + KeysDone([], cr.schema)
      {
      }
    }

    /** One array schema, for all its credentials. */
    method InsertArrayClaims(arrays: seq<ClaimSchema>, i: nat, cutoff: int, ghost start: Tables)
      requires Valid() && OnlyAdded(start, Rows(), credentials, cutoff) && i < |arrays|
      requires AllOf(schemas, arrays, false) && (Distinct(schemas) ==> Distinct(arrays))
      requires AllDone(start, Rows(), cutoff, [], arrays[..i])
      modifies this
      ensures Valid() && OnlyAdded(start, Rows(), credentials, cutoff)
      ensures AllDone(start, Rows(), cutoff, [], arrays[..i + 1])
    {
      var todo := CredentialIds(arrays[i], cutoff);
      EnterRow(start, Rows(), cutoff, [], arrays, i);
      while todo != {}
        invariant todo <= CredentialIds(arrays[i], cutoff)
        invariant Valid() && OnlyAdded(start, Rows(), credentials, cutoff)
        invariant PartlyDone(start, Rows(), cutoff, [], arrays, i, todo)
        decreases |todo|
      {
        var c := Pick(todo);
        ghost var cr :| cr in credentials && cr.id == c && cr.schema == arrays[i].credentialSchema && cr.createdDate <= cutoff;
        ghost var before, reached := Rows(), KeysDone([], cr.schema) + KeysDone(arrays[..i], cr.schema);
        ghost var w := if LeafOnly(schemas, start, cr) then WorldOf(schemas, start, cr) else World(map[], [], {}, {});
        if LeafOnly(schemas, start, cr) {
          ArrayRowReady(schemas, start, before, cr, arrays, i);
        }
        var _ := MigrateCredentialArrays(arrays[i], c, w, reached); // a failure is logged and skipped
        OnlyAddedMore(start, before, Rows(), credentials, cutoff, cr);
        OneCredentialDone(start, before, Rows(), cutoff, [], arrays, i, todo, cr);
        todo := todo - {c};
      }
    }

    method InsertIntermediaryArrayClaims(cutoff: int, ghost start: Tables) returns (ghost done: seq<ClaimSchema>)
      requires Valid() && Rows() == start
      modifies this
      ensures Valid() && OnlyAdded(start, Rows(), credentials, cutoff)
      ensures AllOf(schemas, done, false) && AllDone(start, Rows(), cutoff, done, [])
    {
      var arrays := SelectSchemas(false);
      done := arrays;
      NothingDoneYet(start, cutoff);
      for i := 0 to |arrays|
        invariant Valid() && OnlyAdded(start, Rows(), credentials, cutoff)
        invariant AllDone(start, Rows(), cutoff, [], arrays[..i])
      {
        InsertArrayClaims(arrays, i, cutoff, start);
      }
      assert arrays[..|arrays|] == arrays;
      FirstPassDone(start, Rows(), cutoff, arrays);
    }

    /** One object schema, for all its credentials. */
    method InsertObjectClaims(objects: seq<ClaimSchema>, i: nat, cutoff: int, ghost start: Tables, ghost arrays: seq<ClaimSchema>)
      requires Valid() && OnlyAdded(start, Rows(), credentials, cutoff) && i < |objects|
      requires AllOf(schemas, arrays, false) && AllOf(schemas, objects, true) && Descending(objects)
      requires Distinct(schemas) ==> Distinct(objects)
      requires AllDone(start, Rows(), cutoff, arrays, objects[..i])
      modifies this
      ensures Valid() && OnlyAdded(start, Rows(), credentials, cutoff)
      ensures AllDone(start, Rows(), cutoff, arrays, objects[..i + 1])
    {
      var children := SelectChildSchemas(objects[i]);
      var todo := CredentialIds(objects[i], cutoff);
      EnterRow(start, Rows(), cutoff, arrays, objects, i);
      while todo != {}
        invariant todo <= CredentialIds(objects[i], cutoff)
        invariant Valid() && OnlyAdded(start, Rows(), credentials, cutoff)
        invariant PartlyDone(start, Rows(), cutoff, arrays, objects, i, todo)
        decreases |todo|
      {
        var c := Pick(todo);
        ghost var cr :| cr in credentials && cr.id == c && cr.schema == objects[i].credentialSchema && cr.createdDate <= cutoff;
        ghost var before, reached := Rows(), KeysDone(arrays, cr.schema) + KeysDone(objects[..i], cr.schema);
        ghost var w := if LeafOnly(schemas, start, cr) then WorldOf(schemas, start, cr) else World(map[], [], {}, {});
        if LeafOnly(schemas, start, cr) {
          ObjectRowReady(schemas, start, before, cr, arrays, objects, i, children);
        }
        var _ := MigrateCredentialObjects(objects[i], children, c, w, reached); // a failure is logged and skipped
        OnlyAddedMore(start, before, Rows(), credentials, cutoff, cr);
        OneCredentialDone(start, before, Rows(), cutoff, arrays, objects, i, todo, cr);
        todo := todo - {c};
      }
    }

    method InsertIntermediaryObjectClaims(cutoff: int, ghost start: Tables, ghost arrays: seq<ClaimSchema>)
      requires Valid() && OnlyAdded(start, Rows(), credentials, cutoff)
      requires AllOf(schemas, arrays, false) && AllDone(start, Rows(), cutoff, arrays, [])
      modifies this
      ensures Valid() && OnlyAdded(start, Rows(), credentials, cutoff)
      ensures forall cr | InScope(start, cutoff, cr) :: Migrated(WorldOf(schemas, start, cr), Rows(), cr.id)
    {
      var objects := SelectSchemas(true);
      for i := 0 to |objects|
        invariant Valid() && OnlyAdded(start, Rows(), credentials, cutoff)
        invariant AllDone(start, Rows(), cutoff, arrays, objects[..i])
      {
        InsertObjectClaims(objects, i, cutoff, start, arrays);
      }
      assert objects[..|objects|] == objects;
      forall cr | InScope(start, cutoff, cr)
        ensures Migrated(WorldOf(schemas, start, cr), Rows(), cr.id)
      {
        AllSettled(schemas, WorldOf(schemas, start, cr), Rows(), cr, arrays, objects);
      }
    }

    /** The migration: array containers first, then object containers, leaves upwards.  Every
        credential that was leaf-only ends up with exactly its leaves and their ancestors. */
    method Up(cutoff: int)
      requires Valid()
      modifies this
      ensures Valid()
      ensures OnlyAdded(old(Rows()), Rows(), credentials, cutoff)
      ensures forall cr | InScope(old(Rows()), cutoff, cr) ::
                Migrated(WorldOf(schemas, old(Rows()), cr), Rows(), cr.id)
    {
      ghost var arrays := InsertIntermediaryArrayClaims(cutoff, Rows());
      InsertIntermediaryObjectClaims(cutoff, old(Rows()), arrays);
    }
  }

  /** No row changed, no old claim gained or lost a proof, and the new claims belong to
      credentials created before the migration started. */
  ghost predicate OnlyAdded(start: Tables, db: Tables, credentials: seq<Credential>, cutoff: int) {
    && (forall id | id in start.claims :: id in db.claims && db.claims[id] == start.claims[id])
    && (forall id | IsNew(start, db, id) ::
          exists cr :: cr in credentials && cr.createdDate <= cutoff && cr.id == db.claims[id].credential)
    && (forall proof, id | id in start.claims :: Linked(db, proof, id) <==> Linked(start, proof, id))
  }

  lemma OnlyAddedMore(start: Tables, before: Tables, after: Tables, credentials: seq<Credential>, cutoff: int, cr: Credential)
    requires OnlyAdded(start, before, credentials, cutoff) && Grew(before, after, cr.id)
    requires cr in credentials && cr.createdDate <= cutoff
    ensures OnlyAdded(start, after, credentials, cutoff)
  {
    forall id | IsNew(start, after, id)
      ensures exists x :: x in credentials && x.createdDate <= cutoff && x.id == after.claims[id].credential
    {
      if id in before.claims {
        assert IsNew(start, before, id);
      }
    }
  }

  lemma IdsDistinctRowsDistinct(schemas: seq<ClaimSchema>)
    requires Distinct(Listing(schemas))
    ensures Distinct(schemas)
  {
    var l := Listing(schemas);
    assert forall i | 0 <= i < |schemas| :: l[i] == schemas[i].id;
  }

  lemma ArrayRowReady(schemas: seq<ClaimSchema>, start: Tables, db: Tables, cr: Credential, rows: seq<ClaimSchema>, i: nat)
    requires LeafOnly(schemas, start, cr) && i < |rows| && rows[i].credentialSchema == cr.schema
    requires AllOf(schemas, rows, false) && (Distinct(schemas) ==> Distinct(rows))
    ensures var w := WorldOf(schemas, start, cr);
            var done := KeysDone([], cr.schema) + KeysDone(rows[..i], cr.schema);
            Stage(w, db, cr.id, done) ==> ArrayReady(w, db, rows[i], cr.id, done)
  {
    IdsDistinctRowsDistinct(schemas);
    assert rows[i] in rows;
    NotYetDone(rows, schemas, i);
    NodeInTree(schemas, cr.schema, rows[i]);
  }

  lemma ObjectRowReady(schemas: seq<ClaimSchema>, start: Tables, db: Tables, cr: Credential, arrays: seq<ClaimSchema>,
                       rows: seq<ClaimSchema>, i: nat, children: seq<Id>)
    requires LeafOnly(schemas, start, cr) && i < |rows| && rows[i].credentialSchema == cr.schema
    requires AllOf(schemas, arrays, false) && AllOf(schemas, rows, true) && Descending(rows)
    requires (Distinct(schemas) ==> Distinct(rows)) && ChildIds(schemas, rows[i], children)
    ensures var w := WorldOf(schemas, start, cr);
            var done := KeysDone(arrays, cr.schema) + KeysDone(rows[..i], cr.schema);
            Stage(w, db, cr.id, done) ==> ObjectReady(w, db, rows[i], children, cr.id, done)
  {
    var w := WorldOf(schemas, start, cr);
    IdsDistinctRowsDistinct(schemas);
    assert rows[i] in rows;
    NotYetDone(rows, schemas, i);
    NodeInTree(schemas, cr.schema, rows[i]);
    ObjectsBottomUp(schemas, w, cr.schema, arrays, rows, i);
    ChildRowsFormChildList(schemas, w, rows[i], children);
    ArraysAreOtherKeys(schemas, arrays, rows[i]);
  }

  lemma ArraysAreOtherKeys(schemas: seq<ClaimSchema>, arrays: seq<ClaimSchema>, row: ClaimSchema)
    requires KeysUnique(schemas, row.credentialSchema) && AllOf(schemas, arrays, false)
    requires row in schemas && IsObject(row)
    ensures Components(row.key) !in KeysDone(arrays, row.credentialSchema)
  {
  }

  lemma ReversedRows(ascending: seq<ClaimSchema>, rows: seq<ClaimSchema>)
    requires Ascending(Keys(ascending, (s: ClaimSchema) => s.key))
    requires |rows| == |ascending| && forall i | 0 <= i < |rows| :: rows[i] == ascending[|rows| - 1 - i]
    ensures Descending(rows)
    ensures forall s :: s in rows <==> s in ascending
    ensures Distinct(ascending) ==> Distinct(rows)
  {
    var ks := Keys(ascending, (s: ClaimSchema) => s.key);
    forall i, j | 0 <= i < j < |rows|
      ensures AtMost(rows[j].key, rows[i].key)
    {
      assert AtMost(ks[|rows| - 1 - j], ks[|rows| - 1 - i]);
    }
    forall s
      ensures s in rows <==> s in ascending
    {
      if s in ascending {
        var i :| 0 <= i < |ascending| && ascending[i] == s;
        assert rows[|rows| - 1 - i] == s;
      }
    }
  }

  // ----- When a step on a credential succeeds

  /** The claim schema is a node of the credential's tree. */
  ghost predicate IsNode(w: World, row: ClaimSchema) {
    Components(row.key) in w.tree && w.tree[Components(row.key)] == NodeOf(row)
  }

  ghost predicate ArrayReady(w: World, db: Tables, row: ClaimSchema, c: Id, done: set<Key>) {
    && WellFormed(w) && Stage(w, db, c, done)
    && IsNode(w, row) && IsArrayLeaf(row) && Components(row.key) !in done
  }

  ghost predicate ObjectReady(w: World, db: Tables, row: ClaimSchema, children: seq<Id>, c: Id, done: set<Key>) {
    && IsNode(w, row) && IsObject(row) && Components(row.key) !in done
    && ReadyToSelect(w, db, c, done, Components(row.key), children)
  }

  /** Array elements have a parent path. */
  lemma ArrayNeverFails(w: World, db: Tables, row: ClaimSchema, c: Id, done: set<Key>, ids: set<Id>)
    requires ArrayReady(w, db, row, c, done)
    requires forall id :: id in ids <==> OfCredential(db, c, id) && db.claims[id].schema == row.id
    ensures forall id | id in ids :: |PathOf(db, id)| > 1
  {
    forall id | id in ids
      ensures |PathOf(db, id)| > 1
    {
      var q := PathOf(db, id);
      assert GoodRow(w, db, id) && Settled(w, q, done);
      ElementParent(w, Components(row.key), q);
    }
  }

  /** Properties have an object above them, and elements of an object array its container. */
  lemma ObjectNeverFails(w: World, db: Tables, row: ClaimSchema, children: seq<Id>, c: Id, done: set<Key>, ids: set<Id>)
    requires ObjectReady(w, db, row, children, c, done)
    requires forall id :: id in ids <==> OfCredential(db, c, id) && Speaks(w, Components(row.key), PathOf(db, id))
    ensures forall id | id in ids :: |PathOf(db, id)| > if row.isArray then 2 else 1
  {
    forall id | id in ids
      ensures |PathOf(db, id)| > if row.isArray then 2 else 1
    {
      InstanceAbove(w, Components(row.key), PathOf(db, id));
    }
  }

  lemma PropertiesAreListed(w: World, db: Tables, c: Id, done: set<Key>, k: Key, children: seq<Id>)
    requires ReadyToSelect(w, db, c, done, k, children)
    ensures forall id | OfCredential(db, c, id) && Speaks(w, k, PathOf(db, id)) :: db.claims[id].schema in children
  {
    forall id | OfCredential(db, c, id) && Speaks(w, k, PathOf(db, id))
      ensures db.claims[id].schema in children
    {
      var q := PathOf(db, id);
      assert GoodRow(w, db, id);
      PropertyKey(w, k, q);
      assert ChildKey(k, Last(q)) in w.tree;
    }
  }

  lemma ModelsInserted(db: Tables, schema: Id, c: Id, parents: Parents, models: map<Id, Claim>, links: set<(Id, Id)>)
    requires LinksExist(db)
    requires forall id | id in models :: id !in db.claims && models[id] == Claim(schema, c, models[id].path) && models[id].path in parents
    requires forall id, id' | id in models && id' in models && models[id].path == models[id'].path :: id == id'
    requires forall s | s in parents :: exists id :: id in models && models[id].path == s
    requires forall proof, id :: (proof, id) in links <==> id in models && proof in parents[models[id].path]
    ensures var db' := Tables(db.claims + models, db.proofClaims + links);
            Inserted(db, db', schema, c, parents) && LinksExist(db')
  {
    var db' := Tables(db.claims + models, db.proofClaims + links);
    assert forall id :: IsNew(db, db', id) <==> id in models;
    forall proof, id
      ensures Linked(db', proof, id) <==> Linked(db, proof, id) || (proof, id) in links
    {
    }
    forall s | s in parents
      ensures exists id :: IsNew(db, db', id) && db'.claims[id].path == s
    {
      var id :| id in models && models[id].path == s;
      assert IsNew(db, db', id);
    }
  }

  lemma ProofsOfClaim(db: Tables, id: Id, proofs: set<Id>)
    requires proofs == set pc | pc in db.proofClaims && pc.1 == id :: pc.0
    ensures forall proof :: proof in proofs <==> Linked(db, proof, id)
  {
    forall proof
      ensures proof in proofs <==> Linked(db, proof, id)
    {
      if Linked(db, proof, id) {
        assert (proof, id) in db.proofClaims && (proof, id).1 == id;
      }
      if proof in proofs {
        var pc :| pc in db.proofClaims && pc.1 == id && pc.0 == proof;
        assert pc == (proof, id);
      }
    }
  }

  function Extend(parents: Parents, s: string, proofs: set<Id>): Parents {
    parents[s := (if s in parents then parents[s] else {}) + proofs]
  }

  /** `grown` is `parents` with one more contributing path. */
  ghost predicate GrownBy(parents: Parents, path: string, toArray: bool, proofs: set<Id>, grown: Parents) {
    && (forall s :: s in grown <==> s in parents || Contributes(path, toArray, s))
    && (forall s, proof :: HasProof(grown, s, proof) <==>
          HasProof(parents, s, proof) || (Contributes(path, toArray, s) && proof in proofs))
  }

  /** `Extend` on the parent path, and for an array on the path above it. */
  ghost predicate ExtendedAbove(parents: Parents, path: string, toArray: bool, proofs: set<Id>, grown: Parents) {
    && RSplitOnce(path).Some?
    && var up := RSplitOnce(path).value.0;
    if toArray then RSplitOnce(up).Some? && grown == Extend(Extend(parents, up, proofs), RSplitOnce(up).value.0, proofs)
    else grown == Extend(parents, up, proofs)
  }

  lemma ExtendMeaning(parents: Parents, at: string, proofs: set<Id>, s: string, proof: Id)
    ensures s in Extend(parents, at, proofs) <==> s in parents || s == at
    ensures HasProof(Extend(parents, at, proofs), s, proof) <==> HasProof(parents, s, proof) || (s == at && proof in proofs)
  {
  }

  lemma ExtendAbove(parents: Parents, path: string, toArray: bool, proofs: set<Id>, grown: Parents)
    requires ExtendedAbove(parents, path, toArray, proofs, grown)
    ensures GrownBy(parents, path, toArray, proofs, grown)
  {
    var up := RSplitOnce(path).value.0;
    forall s, proof
      ensures s in grown <==> s in parents || Contributes(path, toArray, s)
      ensures HasProof(grown, s, proof) <==> HasProof(parents, s, proof) || (Contributes(path, toArray, s) && proof in proofs)
    {
      ExtendMeaning(parents, up, proofs, s, proof);
      if toArray {
        ExtendMeaning(Extend(parents, up, proofs), RSplitOnce(up).value.0, proofs, s, proof);
      }
    }
  }

  /** One more claim gives a path or a proof exactly when one of the others or it does. */
  lemma GivesMore(db: Tables, ids: set<Id>, id: Id, toArray: bool, s: string, proof: Id)
    ensures GivesPath(db, ids + {id}, toArray, s) <==> GivesPath(db, ids, toArray, s) || Gives(db, id, toArray, s)
    ensures GivesProof(db, ids + {id}, toArray, s, proof) <==>
              GivesProof(db, ids, toArray, s, proof) || (Gives(db, id, toArray, s) && Linked(db, proof, id))
  {
    var more := ids + {id};
    if GivesPath(db, ids, toArray, s) {
      var x :| x in ids && Gives(db, x, toArray, s);
      assert x in more;
    }
    if GivesProof(db, ids, toArray, s, proof) {
      var x :| x in ids && Gives(db, x, toArray, s) && Linked(db, proof, x);
      assert x in more;
    }
    assert id in more;
  }

  lemma CollectMore(db: Tables, ids: set<Id>, id: Id, toArray: bool, parents: Parents, proofs: set<Id>, grown: Parents)
    requires id in db.claims && Collected(db, ids, toArray, parents)
    requires forall proof :: proof in proofs <==> Linked(db, proof, id)
    requires GrownBy(parents, db.claims[id].path, toArray, proofs, grown)
    ensures Collected(db, ids + {id}, toArray, grown)
  {
    var more := ids + {id};
    forall s, proof
      ensures s in grown <==> GivesPath(db, more, toArray, s)
      ensures HasProof(grown, s, proof) <==> GivesProof(db, more, toArray, s, proof)
    {
      GivesMore(db, ids, id, toArray, s, proof);
      assert Gives(db, id, toArray, s) <==> Contributes(db.claims[id].path, toArray, s);
    }
  }

  /** What adding one more child claim does to the collected paths. */
  lemma CollectOne(db: Tables, ids: set<Id>, id: Id, toArray: bool, parents: Parents, proofs: set<Id>, grown: Parents)
    requires ids <= db.claims.Keys && id in db.claims && Collected(db, ids, toArray, parents)
    requires forall proof :: proof in proofs <==> Linked(db, proof, id)
    requires ExtendedAbove(parents, db.claims[id].path, toArray, proofs, grown)
    ensures Collected(db, ids + {id}, toArray, grown)
  {
    ExtendAbove(parents, db.claims[id].path, toArray, proofs, grown);
    CollectMore(db, ids, id, toArray, parents, proofs, grown);
  }

  // ----- Tables that lose a proof

  /** Object `a` with properties `b` and `bc`. */
  ghost function ShadowSchemas(): seq<ClaimSchema> {
    [ClaimSchema(0, "a", false, "OBJECT", 1), ClaimSchema(1, "a/b", false, "STRING", 1), ClaimSchema(2, "a/bc", false, "STRING", 1)]
  }

  /** Both properties have a claim, and proof 7 is linked to that of `bc`. */
  ghost function ShadowTables(): Tables {
    Tables(map[10 := Claim(1, 100, "a/b"), 11 := Claim(2, 100, "a/bc")], {(7, 11)})
  }

  ghost function ShadowCredential(): Credential {
    Credential(100, 1, 0)
  }

  lemma ShadowComponents()
    ensures Components("a") == ["a"] && Components("a/b") == ["a", "b"] && Components("a/bc") == ["a", "bc"]
  {
    ComponentsJoin(["a"]);
    ComponentsJoin(["a", "b"]);
    ComponentsJoin(["a", "bc"]);
    assert ["a", "b"][..1] == ["a"] && ["a", "bc"][..1] == ["a"];
    assert Join(["a", "b"]) == "a/b" && Join(["a", "bc"]) == "a/bc";
  }

  lemma DifferentKeysUnique(all: seq<ClaimSchema>, owner: Id)
    requires forall i, j | 0 <= i < j < |all| :: Components(all[i].key) != Components(all[j].key)
    ensures KeysUnique(all, owner)
  {
    forall s, s' | s in all && s' in all && Components(s.key) == Components(s'.key)
      ensures s == s'
    {
      var i :| 0 <= i < |all| && all[i] == s;
      var j :| 0 <= j < |all| && all[j] == s';
      assert i == j;
    }
  }

  lemma ThreeKeys(all: seq<ClaimSchema>, k: Key, l: Key, m: Key)
    requires |all| == 3 && KeysUnique(all, 1) && forall i | 0 <= i < 3 :: all[i].credentialSchema == 1
    requires Components(all[0].key) == k && Components(all[1].key) == l && Components(all[2].key) == m
    ensures var t := TreeOf(all, 1);
            && (forall x :: x in t <==> x == k || x == l || x == m)
            && t[k] == NodeOf(all[0]) && t[l] == NodeOf(all[1]) && t[m] == NodeOf(all[2])
  {
    NodeInTree(all, 1, all[0]);
    NodeInTree(all, 1, all[1]);
    NodeInTree(all, 1, all[2]);
    forall x | x in TreeOf(all, 1)
      ensures x == k || x == l || x == m
    {
      var s := TreeNode(all, 1, x);
    }
  }

  lemma MapOfThree(t: Tree, k: Key, l: Key, m: Key, a: Node, b: Node, c: Node)
    requires k != l && k != m && l != m && (forall x :: x in t <==> x == k || x == l || x == m)
    requires t[k] == a && t[l] == b && t[m] == c
    ensures t == map[k := a, l := b, m := c]
  {
  }

  lemma WorldOfTwo(schemas: seq<ClaimSchema>, cr: Credential, i: Id, j: Id, a: Claim, b: Claim, proof: Id)
    requires KeysUnique(schemas, cr.schema) && i != j && a.credential == cr.id == b.credential
    ensures var w := WorldOf(schemas, Tables(map[i := a, j := b], {(proof, j)}), cr);
            w.leaves == {Components(a.path), Components(b.path)} && w.proofs == {(Components(b.path), proof)}
  {
    var db := Tables(map[i := a, j := b], {(proof, j)});
    assert i in db.claims && j in db.claims;
    assert (proof, j) in db.proofClaims && (proof, j).1 == j && (proof, j).0 == proof;
  }

  lemma ShadowKeys(all: seq<ClaimSchema>)
    requires all == ShadowSchemas()
    ensures |all| == 3 && Components(all[0].key) == ["a"] && Components(all[1].key) == ["a", "b"] && Components(all[2].key) == ["a", "bc"]
  {
    ShadowComponents();
  }

  lemma ShadowNodes(all: seq<ClaimSchema>)
    requires all == ShadowSchemas()
    ensures |all| == 3 && forall i | 0 <= i < 3 :: all[i].credentialSchema == 1
    ensures NodeOf(all[0]) == Node(0, false, true) && NodeOf(all[1]) == Node(1, false, false) && NodeOf(all[2]) == Node(2, false, false)
    ensures Listing(all) == [0, 1, 2]
  {
  }

  lemma ThreeKeyTree(all: seq<ClaimSchema>, k: Key, l: Key, m: Key)
    requires |all| == 3 && (forall i | 0 <= i < 3 :: all[i].credentialSchema == 1) && k != l && k != m && l != m
    requires Components(all[0].key) == k && Components(all[1].key) == l && Components(all[2].key) == m
    ensures KeysUnique(all, 1) && TreeOf(all, 1) == map[k := NodeOf(all[0]), l := NodeOf(all[1]), m := NodeOf(all[2])]
  {
    DifferentKeysUnique(all, 1);
    ThreeKeys(all, k, l, m);
    MapOfThree(TreeOf(all, 1), k, l, m, NodeOf(all[0]), NodeOf(all[1]), NodeOf(all[2]));
  }

  lemma ShadowSchemasTree(all: seq<ClaimSchema>)
    requires all == ShadowSchemas()
    ensures KeysUnique(all, 1) && TreeOf(all, 1) == ShadowExample().tree && Listing(all) == ShadowExample().listed
  {
    ShadowKeys(all);
    ShadowNodes(all);
    ShadowPathsDiffer();
    ThreeKeyTree(all, ["a"], ["a", "b"], ["a", "bc"]);
  }

  lemma ShadowWorldOf()
    ensures KeysUnique(ShadowSchemas(), 1)
    ensures WorldOf(ShadowSchemas(), ShadowTables(), ShadowCredential()) == ShadowExample()
  {
    ShadowSchemasTree(ShadowSchemas());
    ShadowComponents();
    WorldOfTwo(ShadowSchemas(), ShadowCredential(), 10, 11, Claim(1, 100, "a/b"), Claim(2, 100, "a/bc"), 7);
  }

  lemma ShadowRows(db: Tables, w: World)
    requires db == ShadowTables() && w == ShadowExample()
    ensures PathsUnique(db.claims, 100) && forall id | OfCredential(db, 100, id) :: HasOwnSchema(w, db, id)
  {
    ShadowComponents();
    ShadowExampleLocations();
    assert PathOf(db, 10) == ["a", "b"] && PathOf(db, 11) == ["a", "bc"];
    assert forall id | id in db.claims :: id == 10 || id == 11;
  }

  /** These leaf-only tables are covered by the migration. */
  lemma ShadowTablesLeafOnly()
    ensures LeafOnly(ShadowSchemas(), ShadowTables(), ShadowCredential())
    ensures WorldOf(ShadowSchemas(), ShadowTables(), ShadowCredential()) == ShadowExample()
  {
    ShadowWorldOf();
    ShadowExampleWellFormed();
    ShadowRows(ShadowTables(), ShadowExample());
  }

  /** So whatever tables the migration leaves, some claim has lost a proof of a leaf below it. */
  lemma TablesCanLoseProof(db: Tables)
    requires Migrated(ShadowExample(), db, ShadowCredential().id)
    ensures !UnionsInTables(ShadowExample(), db, ShadowCredential().id)
  {
    PropagationCanFail();
    UnionsIffPropagation(ShadowExample(), db, ShadowCredential().id);
  }
}
