/** The claim tree of one credential, as the container-claim migration finds and leaves it.

    A credential schema lists claim schemas whose keys form a tree of property names.  A
    claim path of a credential is such a key with an index component after every array.
    `Locate` erases the indices again.  Everything here is about values; the tables are in
    module ContainerClaims. */
module ClaimTree {
  import opened Wrappers
  import opened Paths

  type Path = seq<string>
  type Key = seq<string>

  datatype Node = Node(id: Id, isArray: bool, isObject: bool)

  type Tree = map<Key, Node>

  /** Keys are closed under parents, every parent is an object, schema ids are distinct. */
  ghost predicate WellFormedTree(t: Tree) {
    && (forall k | k in t :: IsPath(k))
    && (forall k | k in t && |k| > 1 :: Parent(k) in t && t[Parent(k)].isObject)
    && (forall k, k' | k in t && k' in t && t[k].id == t[k'].id :: k == k')
  }

  /** Where a path stands: at no claim schema, at the container of an array schema, or at a
      value of a schema (an array element, or the value of a schema that is no array). */
  datatype Location = Nowhere | At(key: Key, container: bool)

  ghost function Locate(t: Tree, p: Path): Location {
    if p == [] then At([], false)
    else
      match Locate(t, Parent(p))
      case Nowhere => Nowhere
      case At(k, true) => At(k, false)
      case At(k, false) =>
        var k' := k + [Last(p)];
        if k' in t then At(k', t[k'].isArray) else Nowhere
  }

  /** The path with its array indices erased. */
  ghost function KeyOf(t: Tree, p: Path): Key {
    match Locate(t, p) case Nowhere => [] case At(k, _) => k
  }

  /** The part of a credential the migration depends on: its schema tree, the order in which
      an unordered query lists the claim schemas, its leaf claims and their proofs. */
  datatype World = World(tree: Tree, listed: seq<Id>, leaves: set<Path>, proofs: set<(Path, Id)>)

  /** Every claim schema is listed, none twice. */
  ghost predicate WellListed(t: Tree, listed: seq<Id>) {
    && (forall i, j | 0 <= i < j < |listed| :: listed[i] != listed[j])
    && (forall k | k in t :: t[k].id in listed)
  }

  /** The path stands at a value of a schema that is no object. */
  ghost predicate IsLeaf(t: Tree, l: Path) {
    && l != []
    && Locate(t, l).At? && !Locate(t, l).container
    && KeyOf(t, l) in t && !t[KeyOf(t, l)].isObject
  }

  ghost predicate WellFormed(w: World) {
    WellFormedTree(w.tree) && WellListed(w.tree, w.listed) && forall l | l in w.leaves :: IsLeaf(w.tree, l)
  }

  /** A leaf or a proper ancestor of one. */
  ghost predicate Present(w: World, p: Path) {
    p != [] && exists l :: l in w.leaves && p <= l
  }

  // ----- Facts about locations

  /** One step up from a located path. */
  lemma LocateParent(t: Tree, p: Path)
    requires WellFormedTree(t)
    requires p != [] && Locate(t, p).At?
    ensures var k := KeyOf(t, p);
            && k in t
            && (Locate(t, p).container ==> t[k].isArray)
            && (!Locate(t, p).container && t[k].isArray ==> Locate(t, Parent(p)) == At(k, true))
            && (Locate(t, p).container || !t[k].isArray ==>
                  Locate(t, Parent(p)) == At(Parent(k), false) && Last(p) == Last(k))
  {
    var up := Locate(t, Parent(p));
    if up.container {
      assert Parent(p) != [];
      LocateParent(t, Parent(p));
    } else {
      assert Parent(up.key + [Last(p)]) == up.key;
    }
  }

  lemma {:induction false} LocatePrefix(t: Tree, p: Path, q: Path)
    requires Locate(t, q).At? && p <= q
    ensures Locate(t, p).At?
    decreases |q|
  {
    if p != q {
      assert p <= Parent(q);
      LocatePrefix(t, p, Parent(q));
    }
  }

  /** Nothing lies below a value whose schema is no object. */
  lemma LeafHasNoChild(t: Tree, p: Path, q: Path)
    requires WellFormedTree(t)
    requires q != [] && Parent(q) == p
    requires p != [] && Locate(t, p).At? && !Locate(t, p).container
    requires KeyOf(t, p) in t && !t[KeyOf(t, p)].isObject
    ensures Locate(t, q) == Nowhere
  {
    var k := KeyOf(t, p);
    assert Parent(k + [Last(q)]) == k;
  }

  /** Paths at the same location have the same length: the number of indices in a path
      depends on its key alone. */
  lemma {:induction false} LocationFixesLength(t: Tree, p: Path, q: Path)
    requires WellFormedTree(t)
    requires Locate(t, p).At? && Locate(t, p) == Locate(t, q)
    ensures |p| == |q|
    decreases |p|
  {
    if p != [] {
      LocateParent(t, p);
      assert q != [];
      LocateParent(t, q);
      LocationFixesLength(t, Parent(p), Parent(q));
    } else if q != [] {
      LocateParent(t, q);
    }
  }

  lemma PresentLocated(w: World, p: Path)
    requires WellFormed(w) && Present(w, p)
    ensures Locate(w.tree, p).At? && KeyOf(w.tree, p) in w.tree
  {
    var l :| l in w.leaves && p <= l;
    LocatePrefix(w.tree, p, l);
    LocateParent(w.tree, p);
  }

  lemma PresentParent(w: World, p: Path)
    requires Present(w, p) && |p| > 1
    ensures Present(w, Parent(p))
  {
    var l :| l in w.leaves && p <= l;
    assert Parent(p) <= l;
  }

  /** No leaf is an ancestor of another present path. */
  lemma LeavesAreMinimal(w: World, p: Path, q: Path)
    requires WellFormed(w) && p in w.leaves && Present(w, q) && p <= q
    ensures p == q
  {
    if p != q {
      var c := q[..|p| + 1];
      assert c <= q && Parent(c) == p;
      LeafHasNoChild(w.tree, p, c);
      PresentLocated(w, q);
      LocatePrefix(w.tree, c, q);
    }
  }

  /** A present path that is no leaf has a present child. */
  lemma PresentChild(w: World, p: Path) returns (q: Path)
    requires Present(w, p) && p !in w.leaves
    ensures Present(w, q) && Parent(q) == p
  {
    var l :| l in w.leaves && p <= l;
    assert |p| == |l| ==> p == l;
    q := l[..|p| + 1];
    assert q <= l;
  }

  // ----- Which proofs a container gets

  ghost predicate Before(listed: seq<Id>, a: Id, b: Id) {
    exists i, j :: 0 <= i < j < |listed| && listed[i] == a && listed[j] == b
  }

  /** The property at `q` is not used to attach proofs to its object: a sibling property that
      the query lists earlier is present and its name is a textual prefix of this one's. */
  ghost predicate ShadowedBy(w: World, q: Path, s: Path) {
    && q != [] && s != [] && Parent(s) == Parent(q) && Last(s) <= Last(q)
    && Present(w, s)
    && KeyOf(w.tree, s) in w.tree && KeyOf(w.tree, q) in w.tree
    && Before(w.listed, w.tree[KeyOf(w.tree, s)].id, w.tree[KeyOf(w.tree, q)].id)
  }

  ghost predicate Direct(w: World, q: Path) {
    q != [] && Parent(q) != [] && Locate(w.tree, Parent(q)).At? && !Locate(w.tree, Parent(q)).container
  }

  ghost predicate Kept(w: World, q: Path) {
    Direct(w, q) ==> forall s :: !ShadowedBy(w, q, s)
  }

  ghost function MaxLength(ps: set<Path>): (n: nat)
    ensures forall p | p in ps :: |p| <= n
  {
    if ps == {} then 0
    else
      var p :| p in ps;
      var rest := MaxLength(ps - {p});
      if |p| > rest then |p| else rest
  }

  /** The proofs the migration attaches to the claim at `p`: a leaf keeps its own, a container
      gets those of its children, except shadowed properties. */
  ghost predicate Attached(w: World, p: Path, proof: Id)
    decreases MaxLength(w.leaves) - |p|
  {
    if p in w.leaves then (p, proof) in w.proofs
    else exists q :: Present(w, q) && Parent(q) == p && Kept(w, q) && Attached(w, q, proof)
  }

  ghost predicate LeafBeneath(w: World, p: Path, proof: Id) {
    exists l :: l in w.leaves && p <= l && (l, proof) in w.proofs
  }

  /** A container is attached to a proof only if some leaf beneath it is. */
  lemma {:induction false} AttachedOnlyIf(w: World, p: Path, proof: Id)
    requires Attached(w, p, proof)
    ensures LeafBeneath(w, p, proof)
    decreases MaxLength(w.leaves) - |p|
  {
    if p in w.leaves {
      assert p <= p;
    } else {
      var q :| Present(w, q) && Parent(q) == p && Kept(w, q) && Attached(w, q, proof);
      AttachedOnlyIf(w, q, proof);
      var l :| l in w.leaves && q <= l && (l, proof) in w.proofs;
      assert p <= l;
    }
  }

  ghost predicate NothingShadowed(w: World) {
    forall q | Present(w, q) :: Kept(w, q)
  }

  lemma {:induction false} AttachedIf(w: World, p: Path, proof: Id)
    requires WellFormed(w) && NothingShadowed(w) && p != [] && LeafBeneath(w, p, proof)
    ensures Attached(w, p, proof)
    decreases MaxLength(w.leaves) - |p|
  {
    var l :| l in w.leaves && p <= l && (l, proof) in w.proofs;
    if p in w.leaves {
      LeavesAreMinimal(w, p, l);
    } else {
      assert |p| == |l| ==> p == l;
      var q := l[..|p| + 1];
      assert q <= l && Parent(q) == p;
      AttachedIf(w, q, proof);
    }
  }

  lemma PrefixesAgree<T>(p: seq<T>, q: seq<T>, l: seq<T>)
    requires p <= l && q <= l && |p| == |q|
    ensures p == q
  {
  }

  /** A shadowed property loses the proofs of a leaf that nothing else in the object has. */
  lemma ShadowedLosesProof(w: World, q: Path, l: Path, proof: Id)
    requires WellFormed(w) && Present(w, q) && !Kept(w, q) && l in w.leaves && q <= l
    requires w.proofs == {(l, proof)}
    ensures Parent(q) != [] && LeafBeneath(w, Parent(q), proof) && !Attached(w, Parent(q), proof)
  {
    var p := Parent(q);
    assert p <= l;
    if Attached(w, p, proof) {
      if p in w.leaves {
        LeavesAreMinimal(w, p, q);
      } else {
        var c :| Present(w, c) && Parent(c) == p && Kept(w, c) && Attached(w, c, proof);
        AttachedOnlyIf(w, c, proof);
        PrefixesAgree(c, q, l);
      }
    }
  }

  ghost predicate ProofsPropagate(w: World) {
    forall p, proof | Present(w, p) :: Attached(w, p, proof) <==> LeafBeneath(w, p, proof)
  }

  /** Proof sets propagate as unions through every nesting depth, for every assignment of
      proofs to leaves, exactly when no present property is shadowed. */
  lemma PropagationIffNothingShadowed(w: World)
    requires WellFormed(w)
    ensures NothingShadowed(w) <==> forall proofs :: ProofsPropagate(w.(proofs := proofs))
  {
    if NothingShadowed(w) {
      forall proofs
        ensures ProofsPropagate(w.(proofs := proofs))
      {
        var v := w.(proofs := proofs);
        SameShape(w, v);
        forall p, proof | Present(v, p)
          ensures Attached(v, p, proof) <==> LeafBeneath(v, p, proof)
        {
          if Attached(v, p, proof) {
            AttachedOnlyIf(v, p, proof);
          } else if LeafBeneath(v, p, proof) {
            AttachedIf(v, p, proof);
          }
        }
      }
    } else {
      var q :| Present(w, q) && !Kept(w, q);
      var l :| l in w.leaves && q <= l;
      var v := w.(proofs := {(l, 0)});
      SameShape(w, v);
      ShadowedLosesProof(v, q, l, 0);
      PresentParent(v, q);
      assert !ProofsPropagate(v);
    }
  }

  /** Presence and shadowing do not depend on proofs. */
  lemma SameShape(w: World, v: World)
    requires v == w.(proofs := v.proofs)
    ensures WellFormed(w) == WellFormed(v)
    ensures forall p :: Present(w, p) == Present(v, p)
    ensures forall p :: Kept(w, p) == Kept(v, p)
  {
    forall p, s
      ensures ShadowedBy(w, p, s) == ShadowedBy(v, p, s)
    {
      assert Present(w, s) == Present(v, s);
    }
  }

  // ----- The same without reference to the listing

  /** Two different present properties of one object instance, the name of the first a textual
      prefix of the name of the second. */
  ghost predicate NameExtends(w: World, s: Path, q: Path) {
    && q != s && Present(w, q) && Present(w, s) && q != [] && s != [] && Parent(s) == Parent(q)
    && Direct(w, q) && Last(s) <= Last(q)
  }

  ghost predicate NamesApart(w: World) {
    forall q, s :: !NameExtends(w, s, q)
  }

  ghost predicate AlwaysPropagates(w: World) {
    forall listed, proofs | WellListed(w.tree, listed) :: ProofsPropagate(w.(listed := listed, proofs := proofs))
  }

  ghost function Reversed(listed: seq<Id>): seq<Id> {
    seq(|listed|, i requires 0 <= i < |listed| => listed[|listed| - 1 - i])
  }

  lemma ReversedListing(t: Tree, listed: seq<Id>)
    requires WellListed(t, listed)
    ensures WellListed(t, Reversed(listed))
  {
    var r := Reversed(listed);
    forall k | k in t
      ensures t[k].id in r
    {
      var i :| 0 <= i < |listed| && listed[i] == t[k].id;
      assert r[|listed| - 1 - i] == t[k].id;
    }
  }

  lemma ReversedBefore(listed: seq<Id>, a: Id, b: Id)
    requires a in listed && b in listed && a != b
    ensures Before(listed, a, b) || Before(Reversed(listed), a, b)
  {
    var i :| 0 <= i < |listed| && listed[i] == a;
    var j :| 0 <= j < |listed| && listed[j] == b;
    if j < i {
      var r := Reversed(listed);
      assert r[|listed| - 1 - i] == a && r[|listed| - 1 - j] == b;
    }
  }

  /** The key of a property is that of its object and its own name. */
  lemma PropertyLocation(w: World, q: Path)
    requires WellFormed(w) && Present(w, q) && Direct(w, q)
    ensures KeyOf(w.tree, q) in w.tree && KeyOf(w.tree, q) == KeyOf(w.tree, Parent(q)) + [Last(q)]
  {
    PresentLocated(w, q);
  }

  lemma LastsDiffer<T>(q: seq<T>, s: seq<T>)
    requires q != [] && s != [] && q != s && Parent(q) == Parent(s)
    ensures Last(q) != Last(s)
  {
    assert q == Parent(q) + [Last(q)] && s == Parent(s) + [Last(s)];
  }

  lemma SumsDiffer<T>(k: seq<T>, a: T, b: T)
    requires a != b
    ensures k + [a] != k + [b]
  {
    assert (k + [a])[|k|] == a && (k + [b])[|k|] == b;
  }

  /** Such properties are properties of one object schema with different claim schemas. */
  lemma ExtendedKeys(w: World, s: Path, q: Path)
    requires WellFormed(w) && NameExtends(w, s, q)
    ensures KeyOf(w.tree, s) in w.tree && KeyOf(w.tree, q) in w.tree && KeyOf(w.tree, s) != KeyOf(w.tree, q)
  {
    PropertyLocation(w, q);
    PropertyLocation(w, s);
    LastsDiffer(q, s);
    SumsDiffer(KeyOf(w.tree, Parent(q)), Last(q), Last(s));
  }

  /** Presence, location and well-formedness depend on a listing only through its own soundness. */
  lemma SameButListing(w: World, listed: seq<Id>)
    requires WellFormed(w) && WellListed(w.tree, listed)
    ensures var v := w.(listed := listed);
            && WellFormed(v) && (forall p :: Present(v, p) == Present(w, p)) && (forall p :: Direct(v, p) == Direct(w, p))
            && (forall s, q :: NameExtends(v, s, q) == NameExtends(w, s, q))
  {
    var v := w.(listed := listed);
    forall p
      ensures Present(v, p) == Present(w, p) && Direct(v, p) == Direct(w, p)
    {
    }
  }

  /** Whether a listing makes a name that extends another one shadowed. */
  lemma ExtendedIsShadowed(w: World, s: Path, q: Path)
    requires WellFormed(w) && NameExtends(w, s, q)
    requires KeyOf(w.tree, s) in w.tree && KeyOf(w.tree, q) in w.tree
    requires Before(w.listed, w.tree[KeyOf(w.tree, s)].id, w.tree[KeyOf(w.tree, q)].id)
    ensures !NothingShadowed(w)
  {
    assert ShadowedBy(w, q, s);
    assert !Kept(w, q);
  }

  lemma ShadowedIsExtended(w: World, q: Path, s: Path)
    requires WellFormed(w) && Present(w, q) && Direct(w, q) && ShadowedBy(w, q, s)
    ensures NameExtends(w, s, q)
  {
    NotBeforeItself(w.tree, w.listed, w.tree[KeyOf(w.tree, s)].id);
  }

  lemma ApartIsUnshadowed(w: World)
    requires WellFormed(w) && NamesApart(w)
    ensures NothingShadowed(w)
  {
    forall q, s | Present(w, q) && Direct(w, q)
      ensures !ShadowedBy(w, q, s)
    {
      if ShadowedBy(w, q, s) {
        ShadowedIsExtended(w, q, s);
      }
    }
  }

  lemma ApartPropagates(w: World, listed: seq<Id>, proofs: set<(Path, Id)>)
    requires WellFormed(w) && NamesApart(w) && WellListed(w.tree, listed)
    ensures ProofsPropagate(w.(listed := listed, proofs := proofs))
  {
    var v := w.(listed := listed);
    SameButListing(w, listed);
    ApartIsUnshadowed(v);
    PropagationIffNothingShadowed(v);
    assert v.(proofs := proofs) == w.(listed := listed, proofs := proofs);
  }

  /** A name that extends another one loses a proof under one of two opposite listings. */
  lemma ExtendedCanLose(w: World, s: Path, q: Path)
    requires WellFormed(w) && NameExtends(w, s, q)
    ensures !AlwaysPropagates(w)
  {
    ExtendedKeys(w, s, q);
    var a, b := w.tree[KeyOf(w.tree, s)].id, w.tree[KeyOf(w.tree, q)].id;
    ReversedBefore(w.listed, a, b);
    var listed := if Before(w.listed, a, b) then w.listed else Reversed(w.listed);
    ReversedListing(w.tree, w.listed);
    ExtendedLosesUnder(w, s, q, listed);
  }

  lemma ExtendedLosesUnder(w: World, s: Path, q: Path, listed: seq<Id>)
    requires WellFormed(w) && NameExtends(w, s, q) && WellListed(w.tree, listed)
    requires KeyOf(w.tree, s) in w.tree && KeyOf(w.tree, q) in w.tree
    requires Before(listed, w.tree[KeyOf(w.tree, s)].id, w.tree[KeyOf(w.tree, q)].id)
    ensures !AlwaysPropagates(w)
  {
    var v := w.(listed := listed);
    SameButListing(w, listed);
    ExtendedIsShadowed(v, s, q);
    PropagationIffNothingShadowed(v);
    var proofs :| !ProofsPropagate(v.(proofs := proofs));
    assert v.(proofs := proofs) == w.(listed := listed, proofs := proofs);
  }

  /** Whatever order a query without an order answers in and whatever proofs the leaves have, the
      proofs propagate exactly when no present property name extends that of a present sibling. */
  lemma PropagationIffNamesApart(w: World)
    requires WellFormed(w)
    ensures AlwaysPropagates(w) <==> NamesApart(w)
  {
    if NamesApart(w) {
      forall listed, proofs | WellListed(w.tree, listed)
        ensures ProofsPropagate(w.(listed := listed, proofs := proofs))
      {
        ApartPropagates(w, listed, proofs);
      }
    } else {
      var q, s :| NameExtends(w, s, q);
      ExtendedCanLose(w, s, q);
    }
  }

  /** No property name is a textual prefix of a sibling's. */
  ghost predicate PrefixFreeSiblings(t: Tree) {
    forall k, k' | k in t && k' in t && k != [] && k' != [] && Parent(k) == Parent(k') && Last(k) <= Last(k') :: k == k'
  }

  lemma ShadowIsSibling(w: World, q: Path, s: Path)
    requires WellFormed(w) && Present(w, q) && Direct(w, q) && ShadowedBy(w, q, s)
    ensures var k, k' := KeyOf(w.tree, s), KeyOf(w.tree, q);
            k in w.tree && k' in w.tree && k != [] && k' != []
            && Parent(k) == Parent(k') && Last(k) == Last(s) && Last(k') == Last(q)
  {
    PresentLocated(w, q);
    PresentLocated(w, s);
    var k := KeyOf(w.tree, Parent(q));
    assert KeyOf(w.tree, q) == k + [Last(q)];
    assert KeyOf(w.tree, s) == k + [Last(s)];
  }

  lemma NotBeforeItself(t: Tree, listed: seq<Id>, a: Id)
    requires WellListed(t, listed)
    ensures !Before(listed, a, a)
  {
  }

  lemma PrefixFreeSpares(w: World, q: Path, s: Path)
    requires WellFormed(w) && PrefixFreeSiblings(w.tree) && Present(w, q) && Direct(w, q)
    ensures !ShadowedBy(w, q, s)
  {
    if ShadowedBy(w, q, s) {
      NotBeforeItself(w.tree, w.listed, w.tree[KeyOf(w.tree, s)].id);
      ShadowIsSibling(w, q, s);
    }
  }

  /** So textually independent sibling names are enough. */
  lemma PrefixFreeNeverShadows(w: World)
    requires WellFormed(w) && PrefixFreeSiblings(w.tree)
    ensures NothingShadowed(w)
  {
    forall q, s | Present(w, q) && Direct(w, q)
      ensures !ShadowedBy(w, q, s)
    {
      PrefixFreeSpares(w, q, s);
    }
  }

  /** Object `a` with properties `b` and `bc`, both present, `b` listed first. */
  ghost function ShadowExample(): World {
    World(map[["a"] := Node(0, false, true), ["a", "b"] := Node(1, false, false), ["a", "bc"] := Node(2, false, false)],
          [0, 1, 2],
          {["a", "b"], ["a", "bc"]},
          {(["a", "bc"], 7)})
  }

  lemma ShadowExampleLocations()
    ensures var t := ShadowExample().tree;
            && Locate(t, ["a"]) == At(["a"], false)
            && Locate(t, ["a", "b"]) == At(["a", "b"], false)
            && Locate(t, ["a", "bc"]) == At(["a", "bc"], false)
  {
    var t := ShadowExample().tree;
    assert Parent(["a"]) == [] && [] + ["a"] == ["a"];
    assert Locate(t, ["a"]) == At(["a"], false);
    assert Parent(["a", "b"]) == ["a"] && ["a"] + ["b"] == ["a", "b"];
    assert Parent(["a", "bc"]) == ["a"] && ["a"] + ["bc"] == ["a", "bc"];
  }

  /** An object with two properties is a well-formed tree. */
  lemma TwoProperties(k: Key, l: Key, m: Key, a: Node, b: Node, c: Node)
    requires IsPath(k) && IsPath(l) && IsPath(m) && |k| == 1 && |l| > 1 && |m| > 1 && l != m && Parent(l) == k == Parent(m)
    requires a.isObject && a.id != b.id && a.id != c.id && b.id != c.id
    ensures WellFormedTree(map[k := a, l := b, m := c])
  {
    var t: Tree := map[k := a, l := b, m := c];
    assert forall x | x in t :: x == k || x == l || x == m;
    assert t[k] == a && t[l] == b && t[m] == c;
  }

  lemma ShadowPathsDiffer()
    ensures ["a"] != ["a", "b"] && ["a"] != ["a", "bc"] && ["a", "b"] != ["a", "bc"]
  {
    assert |["a"]| == 1 && |["a", "b"]| == 2 && |["a", "bc"]| == 2;
    assert ["a", "b"][1] == "b" && ["a", "bc"][1] == "bc" && |"b"| == 1 && |"bc"| == 2;
  }

  lemma ShadowExampleTree()
    ensures WellFormedTree(ShadowExample().tree)
  {
    assert Parent(["a", "b"]) == ["a"] && Parent(["a", "bc"]) == ["a"];
    ShadowPathsDiffer();
    TwoProperties(["a"], ["a", "b"], ["a", "bc"], Node(0, false, true), Node(1, false, false), Node(2, false, false));
  }

  lemma ShadowExampleListing()
    ensures WellListed(ShadowExample().tree, ShadowExample().listed)
  {
    var w := ShadowExample();
    assert w.listed[0] == 0 && w.listed[1] == 1 && w.listed[2] == 2;
  }

  lemma ShadowExampleWellFormed()
    ensures WellFormed(ShadowExample())
  {
    ShadowExampleTree();
    ShadowExampleListing();
    ShadowExampleLocations();
  }

  lemma ShadowExampleShadows()
    ensures ShadowedBy(ShadowExample(), ["a", "bc"], ["a", "b"]) && Direct(ShadowExample(), ["a", "bc"])
  {
    var w, b, bc := ShadowExample(), ["a", "b"], ["a", "bc"];
    ShadowExampleLocations();
    assert Parent(b) == ["a"] == Parent(bc);
    assert Last(b) == "b" && Last(bc) == "bc" && "b" <= "bc";
    assert b in w.leaves && b <= b;
    assert w.listed[1] == 1 && w.listed[2] == 2;
  }

  lemma ShadowingStopsPropagation(w: World, q: Path, s: Path, proof: Id)
    requires WellFormed(w) && q in w.leaves && Direct(w, q) && ShadowedBy(w, q, s) && w.proofs == {(q, proof)}
    ensures !ProofsPropagate(w)
  {
    assert q <= q;
    assert Present(w, q);
    ShadowedLosesProof(w, q, q, proof);
    PresentParent(w, q);
  }

  /** Propagation does fail on some tables: the proof of `a/bc` is lost for the object `a`. */
  lemma PropagationCanFail()
    ensures WellFormed(ShadowExample()) && !ProofsPropagate(ShadowExample())
  {
    ShadowExampleWellFormed();
    ShadowExampleShadows();
    ShadowingStopsPropagation(ShadowExample(), ["a", "bc"], ["a", "b"], 7);
  }

  // ----- A shadowed property always has a sibling that speaks for its object

  ghost function Position(listed: seq<Id>, a: Id): (i: nat)
    requires a in listed
    ensures i < |listed| && listed[i] == a
  {
    var i :| 0 <= i < |listed| && listed[i] == a;
    i
  }

  lemma BeforeIsPosition(w: World, a: Id, b: Id)
    requires WellFormed(w) && a in w.listed && b in w.listed
    ensures Before(w.listed, a, b) <==> Position(w.listed, a) < Position(w.listed, b)
  {
    if Before(w.listed, a, b) {
      var i, j :| 0 <= i < j < |w.listed| && w.listed[i] == a && w.listed[j] == b;
      assert i == Position(w.listed, a) && j == Position(w.listed, b);
    }
  }

  /** The rank of a path's claim schema in an unordered listing. */
  ghost function Rank(w: World, p: Path): nat
    requires WellFormed(w) && KeyOf(w.tree, p) in w.tree
  {
    Position(w.listed, w.tree[KeyOf(w.tree, p)].id)
  }

  lemma ShadowTransitive(w: World, q: Path, s: Path, r: Path)
    requires WellFormed(w) && ShadowedBy(w, q, s) && ShadowedBy(w, s, r)
    ensures ShadowedBy(w, q, r)
  {
    var a, b, c := w.tree[KeyOf(w.tree, r)].id, w.tree[KeyOf(w.tree, s)].id, w.tree[KeyOf(w.tree, q)].id;
    BeforeIsPosition(w, a, b);
    BeforeIsPosition(w, b, c);
    BeforeIsPosition(w, a, c);
  }

  lemma {:induction false} KeptShadower(w: World, q: Path) returns (s: Path)
    requires WellFormed(w) && Present(w, q) && KeyOf(w.tree, q) in w.tree && !Kept(w, q)
    ensures ShadowedBy(w, q, s) && Kept(w, s)
    decreases Rank(w, q)
  {
    s :| ShadowedBy(w, q, s);
    if !Kept(w, s) {
      BeforeIsPosition(w, w.tree[KeyOf(w.tree, s)].id, w.tree[KeyOf(w.tree, q)].id);
      var r := KeptShadower(w, s);
      ShadowTransitive(w, q, s, r);
      s := r;
    }
  }
}
