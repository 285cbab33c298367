/** The filter that picks the direct children of an object: candidates come ordered by path,
    and one is dropped when its path starts, as text, with the path of one already picked. */
module ClaimSelection {
  import opened Wrappers
  import opened Paths
  import opened ClaimTree
  import opened ClaimStages
  import opened ClaimSteps

  ghost function ChildKey(k: Key, name: string): Key {
    k + [name]
  }

  ghost predicate IsChild(w: World, k: Key, id: Id) {
    exists name :: ChildKey(k, name) in w.tree && w.tree[ChildKey(k, name)].id == id
  }

  /** The claim schemas of the properties of `k`, in the order the query lists them. */
  ghost predicate ChildList(w: World, k: Key, children: seq<Id>) {
    && (forall i | 0 <= i < |children| :: IsChild(w, k, children[i]))
    && (forall name | ChildKey(k, name) in w.tree :: w.tree[ChildKey(k, name)].id in children)
    && (forall i, j | 0 <= i < j < |children| :: Before(w.listed, children[i], children[j]))
  }

  ghost predicate ReadyToSelect(w: World, db: Tables, c: Id, done: set<Key>, k: Key, children: seq<Id>) {
    && WellFormed(w) && Stage(w, db, c, done) && ObjectSchema(w, k)
    && PropertiesSettled(w, k, done) && ChildList(w, k, children)
  }

  ghost function Texts(db: Tables, rows: seq<Id>): seq<string>
  {
    seq(|rows|, i requires 0 <= i < |rows| => if rows[i] in db.claims then db.claims[rows[i]].path else "")
  }

  /** The rows of one child schema, ordered by path. */
  ghost predicate OrderedRows(db: Tables, c: Id, schema: Id, rows: seq<Id>) {
    && (forall i | 0 <= i < |rows| :: rows[i] in db.claims)
    && (forall id :: id in rows <==> OfCredential(db, c, id) && db.claims[id].schema == schema)
    && (forall i, j | 0 <= i < j < |rows| :: rows[i] != rows[j])
    && Ascending(Texts(db, rows))
  }

  /** What has been picked after the first `a` child schemas and the first `b` rows of the next. */
  ghost predicate Picked(w: World, db: Tables, c: Id, k: Key, earlier: seq<Id>, rows: seq<Id>, picked: set<Id>) {
    forall id :: id in picked <==>
      OfCredential(db, c, id) && Speaks(w, k, PathOf(db, id)) && (db.claims[id].schema in earlier || id in rows)
  }

  lemma ChildOrder(w: World, k: Key, children: seq<Id>, i: nat, j: nat)
    requires WellFormed(w) && ChildList(w, k, children)
    requires i < |children| && j < |children|
    ensures children[i] in w.listed && children[j] in w.listed
    ensures Before(w.listed, children[i], children[j]) <==> i < j
    ensures children[i] == children[j] <==> i == j
  {
    assert IsChild(w, k, children[i]) && IsChild(w, k, children[j]);
    BeforeIsPosition(w, children[i], children[j]);
    if j < i {
      BeforeIsPosition(w, children[j], children[i]);
    }
  }

  lemma SchemaOfRow(w: World, db: Tables, c: Id, done: set<Key>, id: Id)
    requires WellFormed(w) && Stage(w, db, c, done) && OfCredential(db, c, id)
    ensures var p := PathOf(db, id);
            && Present(w, p) && KeyOf(w.tree, p) in w.tree
            && db.claims[id].schema == w.tree[KeyOf(w.tree, p)].id
  {
    assert GoodRow(w, db, id);
  }

  /** Two properties of instances of one object, one a textual prefix of the other, belong to
      the same instance. */
  lemma PrefixSameInstance(w: World, k: Key, s: Path, q: Path)
    requires WellFormed(w) && PropertyOf(w, k, s) && PropertyOf(w, k, q) && TextPrefix(s, q)
    ensures Parent(s) == Parent(q) && Last(s) <= Last(q)
  {
    LocationFixesLength(w.tree, Parent(s), Parent(q));
  }

  /** A sibling whose child schema is listed earlier, and whose path is a textual prefix,
      shadows the candidate. */
  lemma EarlierSiblingShadows(w: World, db: Tables, c: Id, done: set<Key>, k: Key, children: seq<Id>, x: nat, a: nat,
                              s: Id, id: Id)
    requires ReadyToSelect(w, db, c, done, k, children) && x < a < |children|
    requires OfCredential(db, c, s) && db.claims[s].schema == children[x] && PropertyOf(w, k, PathOf(db, s))
    requires OfCredential(db, c, id) && db.claims[id].schema == children[a] && PropertyOf(w, k, PathOf(db, id))
    requires db.claims[s].path <= db.claims[id].path
    ensures ShadowedBy(w, PathOf(db, id), PathOf(db, s))
  {
    StartsWithMeaning(db.claims[s].path, db.claims[id].path);
    PrefixSameInstance(w, k, PathOf(db, s), PathOf(db, id));
    SchemaOfRow(w, db, c, done, s);
    SchemaOfRow(w, db, c, done, id);
  }

  /** Two rows of one child schema are never textual prefixes of each other as properties. */
  lemma SameSchemaSameRow(w: World, db: Tables, c: Id, done: set<Key>, k: Key, s: Id, id: Id)
    requires WellFormed(w) && Stage(w, db, c, done)
    requires OfCredential(db, c, s) && OfCredential(db, c, id) && db.claims[s].schema == db.claims[id].schema
    requires PropertyOf(w, k, PathOf(db, s)) && PropertyOf(w, k, PathOf(db, id))
    requires db.claims[s].path <= db.claims[id].path
    ensures s == id
  {
    var S, Q := PathOf(db, s), PathOf(db, id);
    StartsWithMeaning(db.claims[s].path, db.claims[id].path);
    PrefixSameInstance(w, k, S, Q);
    SchemaOfRow(w, db, c, done, s);
    SchemaOfRow(w, db, c, done, id);
    PropertyKey(w, k, S);
    PropertyKey(w, k, Q);
    assert Last(KeyOf(w.tree, S)) == Last(S) && Last(KeyOf(w.tree, Q)) == Last(Q);
    assert S == Parent(S) + [Last(S)] && Q == Parent(Q) + [Last(Q)];
    ComponentsInjective(db.claims[s].path, db.claims[id].path);
  }

  /** A candidate that speaks for its object is not dropped. */
  lemma SpeakerIsPicked(w: World, db: Tables, c: Id, done: set<Key>, k: Key, children: seq<Id>, a: nat,
                        rows: seq<Id>, b: nat, picked: set<Id>, s: Id)
    requires ReadyToSelect(w, db, c, done, k, children) && a < |children|
    requires OrderedRows(db, c, children[a], rows) && b < |rows|
    requires Picked(w, db, c, k, children[..a], rows[..b], picked)
    requires s in picked && Speaks(w, k, PathOf(db, rows[b]))
    ensures !(db.claims[s].path <= db.claims[rows[b]].path)
  {
    var id := rows[b];
    assert id in rows;
    if db.claims[s].path <= db.claims[id].path {
      if db.claims[s].schema in children[..a] {
        var x :| 0 <= x < a && children[..a][x] == db.claims[s].schema;
        EarlierSiblingShadows(w, db, c, done, k, children, x, a, s, id);
      } else {
        SameSchemaSameRow(w, db, c, done, k, s, id);
      }
    }
  }

  /** A property that is shadowed starts with the path of a picked sibling. */
  lemma ShadowedIsDropped(w: World, db: Tables, c: Id, done: set<Key>, k: Key, children: seq<Id>, a: nat,
                          rows: seq<Id>, picked: set<Id>, id: Id) returns (s: Id)
    requires ReadyToSelect(w, db, c, done, k, children) && a < |children|
    requires Picked(w, db, c, k, children[..a], rows, picked)
    requires OfCredential(db, c, id) && db.claims[id].schema == children[a]
    requires PropertyOf(w, k, PathOf(db, id)) && !Kept(w, PathOf(db, id))
    ensures s in picked && db.claims[s].path <= db.claims[id].path
  {
    var Q := PathOf(db, id);
    SchemaOfRow(w, db, c, done, id);
    PropertyKey(w, k, Q);
    var S := KeptShadower(w, Q);
    PropertyKey(w, k, S);
    s := PresentRow(w, db, c, done, S);
    var x :| 0 <= x < |children| && children[x] == w.tree[ChildKey(k, Last(S))].id;
    ChildOrder(w, k, children, x, a);
    assert db.claims[s].schema == children[..a][x];
    StartsWithMeaning(db.claims[s].path, db.claims[id].path);
  }

  /** A candidate that is no property of the object is an element of an array property. */
  lemma OtherwiseElement(w: World, k: Key, name: string, q: Path)
    requires WellFormed(w) && ObjectSchema(w, k) && Present(w, q)
    requires ChildKey(k, name) in w.tree && KeyOf(w.tree, q) == ChildKey(k, name)
    requires !PropertyOf(w, k, q)
    ensures |q| > 1 && PropertyOf(w, k, Parent(q)) && KeyOf(w.tree, Parent(q)) == ChildKey(k, name)
  {
    PresentLocated(w, q);
    LocateParent(w.tree, q);
    assert Parent(ChildKey(k, name)) == k;
    assert Parent(q) != [];
    PresentParent(w, q);
    LocateParent(w.tree, Parent(q));
    assert Parent(Parent(q)) != [];
  }

  /** The row of an array container comes before the rows of its elements. */
  lemma ContainerComesFirst(db: Tables, c: Id, schema: Id, rows: seq<Id>, b: nat, m: Id) returns (i: nat)
    requires OrderedRows(db, c, schema, rows) && b < |rows|
    requires OfCredential(db, c, m) && db.claims[m].schema == schema
    requires |PathOf(db, rows[b])| > 1 && PathOf(db, m) == Parent(PathOf(db, rows[b]))
    ensures i < b && rows[i] == m
    ensures db.claims[m].path <= db.claims[rows[b]].path
  {
    i :| 0 <= i < |rows| && rows[i] == m;
    var texts := Texts(db, rows);
    AncestorStartsWith(texts[i], texts[b]);
    assert texts[i] != texts[b];
    assert texts[i] < texts[b];
    PrefixComesFirst(texts, i, b);
  }

  lemma ElementIsDropped(w: World, db: Tables, c: Id, done: set<Key>, k: Key, children: seq<Id>, a: nat,
                         rows: seq<Id>, b: nat, picked: set<Id>) returns (s: Id)
    requires ReadyToSelect(w, db, c, done, k, children) && a < |children|
    requires OrderedRows(db, c, children[a], rows) && b < |rows|
    requires Picked(w, db, c, k, children[..a], rows[..b], picked)
    requires !PropertyOf(w, k, PathOf(db, rows[b]))
    ensures s in picked && db.claims[s].path <= db.claims[rows[b]].path
  {
    var Q := PathOf(db, rows[b]);
    SchemaOfRow(w, db, c, done, rows[b]);
    assert IsChild(w, k, children[a]);
    var name :| ChildKey(k, name) in w.tree && w.tree[ChildKey(k, name)].id == children[a];
    OtherwiseElement(w, k, name, Q);
    PropertyKey(w, k, Parent(Q));
    var m := PresentRow(w, db, c, done, Parent(Q));
    var i := ContainerComesFirst(db, c, children[a], rows, b, m);
    if Kept(w, Parent(Q)) {
      s := m;
      assert m == rows[..b][i];
    } else {
      s := ShadowedIsDropped(w, db, c, done, k, children, a, rows[..b], picked, m);
    }
  }

  /** The textual filter keeps a candidate exactly when it speaks for its object. */
  lemma FilterDecidesSpeaking(w: World, db: Tables, c: Id, done: set<Key>, k: Key, children: seq<Id>, a: nat,
                              rows: seq<Id>, b: nat, picked: set<Id>)
    requires ReadyToSelect(w, db, c, done, k, children) && a < |children|
    requires OrderedRows(db, c, children[a], rows) && b < |rows|
    requires Picked(w, db, c, k, children[..a], rows[..b], picked)
    ensures (exists s :: s in picked && db.claims[s].path <= db.claims[rows[b]].path)
            <==> !Speaks(w, k, PathOf(db, rows[b]))
  {
    assert rows[b] in rows;
    var Q := PathOf(db, rows[b]);
    if Speaks(w, k, Q) {
      forall s | s in picked
        ensures !(db.claims[s].path <= db.claims[rows[b]].path)
      {
        SpeakerIsPicked(w, db, c, done, k, children, a, rows, b, picked, s);
      }
    } else if PropertyOf(w, k, Q) {
      var s := ShadowedIsDropped(w, db, c, done, k, children, a, rows[..b], picked, rows[b]);
    } else {
      var s := ElementIsDropped(w, db, c, done, k, children, a, rows, b, picked);
    }
  }

  lemma PickedMore(w: World, db: Tables, c: Id, k: Key, earlier: seq<Id>, rows: seq<Id>, b: nat, picked: set<Id>, grown: set<Id>)
    requires b < |rows| && OfCredential(db, c, rows[b]) && Picked(w, db, c, k, earlier, rows[..b], picked)
    requires grown == if Speaks(w, k, PathOf(db, rows[b])) then picked + {rows[b]} else picked
    ensures Picked(w, db, c, k, earlier, rows[..b + 1], grown)
  {
    assert rows[..b + 1] == rows[..b] + [rows[b]];
  }

  /** So one turn of the filter keeps the picked claims right. */
  lemma FilterStep(w: World, db: Tables, c: Id, done: set<Key>, k: Key, children: seq<Id>, a: nat,
                   rows: seq<Id>, b: nat, picked: set<Id>, grown: set<Id>)
    requires ReadyToSelect(w, db, c, done, k, children) && a < |children|
    requires OrderedRows(db, c, children[a], rows) && b < |rows|
    requires Picked(w, db, c, k, children[..a], rows[..b], picked)
    requires grown == if exists s :: s in picked && db.claims[s].path <= db.claims[rows[b]].path then picked else picked + {rows[b]}
    ensures Picked(w, db, c, k, children[..a], rows[..b + 1], grown)
  {
    FilterDecidesSpeaking(w, db, c, done, k, children, a, rows, b, picked);
    assert rows[b] in rows;
    PickedMore(w, db, c, k, children[..a], rows, b, picked, grown);
  }

  lemma NextChild(w: World, db: Tables, c: Id, k: Key, children: seq<Id>, a: nat, rows: seq<Id>, picked: set<Id>)
    requires a < |children| && OrderedRows(db, c, children[a], rows)
    requires Picked(w, db, c, k, children[..a], rows[..|rows|], picked)
    ensures Picked(w, db, c, k, children[..a + 1], [], picked)
  {
    assert rows[..|rows|] == rows;
    assert children[..a + 1] == children[..a] + [children[a]];
  }
}
