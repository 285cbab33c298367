/** Chunked queries and deletes (lib/migration/src/batch_utils.rs): each is proved equal to
    the one unbounded statement it replaces. */
module BatchUtils {
  import opened Wrappers
  import opened Paths
  import opened Relational

  const CHUNK_SIZE: nat := 1000

  // ----- The unbounded query

  function Picked(idCol: Column, linkedCol: Column, ids: set<Id>, r: Row): Option<Id> {
    if Holds(r, linkedCol, ids) && idCol in r then Some(r[idCol]) else None
  }

  /** `SELECT idCol FROM rows WHERE linkedCol IN ids AND idCol IS NOT NULL`. */
  function Select(rows: seq<Row>, idCol: Column, linkedCol: Column, ids: set<Id>): seq<Id> {
    FilterMap((r: Row) => Picked(idCol, linkedCol, ids, r), rows)
  }

  /** The selected values. */
  ghost function Linked(db: Db, t: Table, idCol: Column, linkedCol: Column, ids: set<Id>): (found: set<Id>)
    ensures forall v :: v in found <==>
              exists r :: r in Rows(db, t) && Holds(r, linkedCol, ids) && Holds(r, idCol, {v})
  {
    var found := set r | r in Rows(db, t) && Holds(r, linkedCol, ids) && idCol in r :: r[idCol];
    assert forall r | r in Rows(db, t) && Holds(r, linkedCol, ids) && idCol in r :: Holds(r, idCol, {r[idCol]});
    found
  }

  ghost predicate Gives(r: Row, idCol: Column, linkedCol: Column, ids: set<Id>, v: Id) {
    Holds(r, linkedCol, ids) && Holds(r, idCol, {v})
  }

  lemma SelectUnfold(rows: seq<Row>, idCol: Column, linkedCol: Column, ids: set<Id>)
    requires rows != []
    ensures Select(rows, idCol, linkedCol, ids) ==
              match Picked(idCol, linkedCol, ids, rows[0])
              case None => Select(rows[1..], idCol, linkedCol, ids)
              case Some(v) => [v] + Select(rows[1..], idCol, linkedCol, ids)
  {
  }

  lemma {:induction false} SelectOnly(rows: seq<Row>, idCol: Column, linkedCol: Column, ids: set<Id>, v: Id) returns (r: Row)
    requires v in Select(rows, idCol, linkedCol, ids)
    ensures r in rows && Gives(r, idCol, linkedCol, ids, v)
  {
    SelectUnfold(rows, idCol, linkedCol, ids);
    if Gives(rows[0], idCol, linkedCol, ids, v) {
      r := rows[0];
    } else {
      r := SelectOnly(rows[1..], idCol, linkedCol, ids, v);
    }
  }

  lemma {:induction false} SelectAll(rows: seq<Row>, idCol: Column, linkedCol: Column, ids: set<Id>, v: Id, r: Row)
    requires r in rows && Gives(r, idCol, linkedCol, ids, v)
    ensures v in Select(rows, idCol, linkedCol, ids)
  {
    SelectUnfold(rows, idCol, linkedCol, ids);
    if r != rows[0] {
      assert r in rows[1..];
      SelectAll(rows[1..], idCol, linkedCol, ids, v, r);
    }
  }

  lemma SelectIsLinked(db: Db, t: Table, idCol: Column, linkedCol: Column, ids: set<Id>, v: Id)
    ensures v in Select(Rows(db, t), idCol, linkedCol, ids) <==> v in Linked(db, t, idCol, linkedCol, ids)
  {
    if v in Select(Rows(db, t), idCol, linkedCol, ids) {
      var r := SelectOnly(Rows(db, t), idCol, linkedCol, ids, v);
    } else if v in Linked(db, t, idCol, linkedCol, ids) {
      var r :| r in Rows(db, t) && Holds(r, linkedCol, ids) && Holds(r, idCol, {v});
      SelectAll(Rows(db, t), idCol, linkedCol, ids, v, r);
    }
  }

  /** Selecting for two disjoint sets of ids selects for their union. */
  lemma {:induction false} SelectUnion(rows: seq<Row>, idCol: Column, linkedCol: Column, a: set<Id>, b: set<Id>)
    requires a !! b
    ensures multiset(Select(rows, idCol, linkedCol, a + b)) ==
              multiset(Select(rows, idCol, linkedCol, a)) + multiset(Select(rows, idCol, linkedCol, b))
  {
    if rows != [] {
      SelectUnion(rows[1..], idCol, linkedCol, a, b);
      SelectStep(rows, idCol, linkedCol, a + b);
      SelectStep(rows, idCol, linkedCol, a);
      SelectStep(rows, idCol, linkedCol, b);
    }
  }

  lemma SelectStep(rows: seq<Row>, idCol: Column, linkedCol: Column, ids: set<Id>)
    requires rows != []
    ensures multiset(Select(rows, idCol, linkedCol, ids)) ==
              multiset(Select(rows[1..], idCol, linkedCol, ids)) +
              match Picked(idCol, linkedCol, ids, rows[0]) { case None => multiset{} case Some(v) => multiset{v} }
  {
    SelectUnfold(rows, idCol, linkedCol, ids);
  }

  lemma {:induction false} SelectNothing(rows: seq<Row>, idCol: Column, linkedCol: Column)
    ensures Select(rows, idCol, linkedCol, {}) == []
  {
    if rows != [] {
      SelectNothing(rows[1..], idCol, linkedCol);
    }
  }

  // ----- Deleting in two steps

  lemma CutAt(fks: ForeignKeys, t: Table, to: Table, gone: set<Id>, r: Row, col: Column)
    ensures col in Cut(fks, t, to, gone, r) <==> col in r && !(Refs(fks, t, col, to, true) && r[col] in gone)
    ensures col in Cut(fks, t, to, gone, r) ==> Cut(fks, t, to, gone, r)[col] == r[col]
  {
  }

  ghost predicate SameAt(r: Row, x: Row, col: Column) {
    (col in r <==> col in x) && (col in r && col in x ==> r[col] == x[col])
  }

  lemma SameEverywhere(r: Row, x: Row)
    requires forall col :: SameAt(r, x, col)
    ensures r == x
  {
    forall col
      ensures col in r <==> col in x
      ensures col in r && col in x ==> r[col] == x[col]
    {
      assert SameAt(r, x, col);
    }
  }

  lemma CutTwiceAt(fks: ForeignKeys, t: Table, to: Table, a: set<Id>, b: set<Id>, r: Row, col: Column)
    ensures SameAt(Cut(fks, t, to, b, Cut(fks, t, to, a, r)), Cut(fks, t, to, a + b, r), col)
  {
    CutAt(fks, t, to, a, r, col);
    CutAt(fks, t, to, b, Cut(fks, t, to, a, r), col);
    CutAt(fks, t, to, a + b, r, col);
  }

  lemma CutTwice(fks: ForeignKeys, t: Table, to: Table, a: set<Id>, b: set<Id>, r: Row)
    ensures Cut(fks, t, to, b, Cut(fks, t, to, a, r)) == Cut(fks, t, to, a + b, r)
  {
    forall col
      ensures SameAt(Cut(fks, t, to, b, Cut(fks, t, to, a, r)), Cut(fks, t, to, a + b, r), col)
    {
      CutTwiceAt(fks, t, to, a, b, r, col);
    }
    SameEverywhere(Cut(fks, t, to, b, Cut(fks, t, to, a, r)), Cut(fks, t, to, a + b, r));
  }

  lemma CutKeepsOthers(fks: ForeignKeys, t: Table, to: Table, gone: set<Id>, r: Row, col: Column)
    requires !Refs(fks, t, col, to, true)
    ensures col in Cut(fks, t, to, gone, r) <==> col in r
    ensures col in r ==> Cut(fks, t, to, gone, r)[col] == r[col]
  {
  }

  lemma NoSelfCut(fks: ForeignKeys, t: Table, gone: set<Id>, r: Row)
    requires SoundKeys(fks)
    ensures Cut(fks, t, t, gone, r) == r
  {
  }

  /** The rows a delete takes from its own table are taken whole; the others stay as they are. */
  lemma OwnRowsAfter(db: Db, fks: ForeignKeys, d: Delete, r: Row)
    requires SoundKeys(fks)
    ensures r in Rows(AfterDelete(db, fks, d), d.table) <==> r in Rows(db, d.table) && !Holds(r, d.col, d.ids)
  {
    RowAfterDelete(db, fks, d, d.table, r);
    forall x
      ensures Effect(fks, d, RemovedIds(db, d), d.table, x) == if Holds(x, d.col, d.ids) then None else Some(x)
    {
      NoSelfCut(fks, d.table, RemovedIds(db, d), x);
    }
  }

  lemma RemovedIdsSplit(db: Db, fks: ForeignKeys, t: Table, col: Column, a: set<Id>, b: set<Id>)
    requires SoundKeys(fks)
    ensures RemovedIds(db, Delete(t, col, a + b)) ==
              RemovedIds(db, Delete(t, col, a)) + RemovedIds(AfterDelete(db, fks, Delete(t, col, a)), Delete(t, col, b))
  {
    var db' := AfterDelete(db, fks, Delete(t, col, a));
    forall r
      ensures r in Rows(db', t) <==> r in Rows(db, t) && !Holds(r, col, a)
    {
      OwnRowsAfter(db, fks, Delete(t, col, a), r);
    }
  }

  lemma EffectTwice(fks: ForeignKeys, t: Table, col: Column, a: set<Id>, b: set<Id>, goneA: set<Id>, goneB: set<Id>, u: Table, r: Row)
    requires SoundKeys(fks)
    ensures Effect(fks, Delete(t, col, a + b), goneA + goneB, u, r) ==
              match Effect(fks, Delete(t, col, a), goneA, u, r)
              case None => None
              case Some(r') => Effect(fks, Delete(t, col, b), goneB, u, r')
  {
    if u == t {
      NoSelfCut(fks, t, goneA, r);
      NoSelfCut(fks, t, goneB, r);
      NoSelfCut(fks, t, goneA + goneB, r);
    } else {
      CutTwice(fks, u, t, goneA, goneB, r);
    }
  }

  /** Deleting for two sets of ids in turn leaves the tables as deleting for both at once. */
  lemma DeleteTwice(db: Db, fks: ForeignKeys, t: Table, col: Column, a: set<Id>, b: set<Id>)
    requires SoundKeys(fks)
    ensures AfterDelete(AfterDelete(db, fks, Delete(t, col, a)), fks, Delete(t, col, b)) ==
              AfterDelete(db, fks, Delete(t, col, a + b))
  {
    var da, dab := Delete(t, col, a), Delete(t, col, a + b);
    var db', whole := AfterDelete(db, fks, da), AfterDelete(db, fks, dab);
    var both := AfterDelete(db', fks, Delete(t, col, b));
    RemovedIdsSplit(db, fks, t, col, a, b);
    var goneA, goneB := RemovedIds(db, da), RemovedIds(db', Delete(t, col, b));
    forall u | u in db
      ensures both[u] == whole[u]
    {
      var f := (r: Row) => Effect(fks, da, goneA, u, r);
      var g := (r: Row) => Effect(fks, Delete(t, col, b), goneB, u, r);
      var h := (r: Row) => Effect(fks, dab, goneA + goneB, u, r);
      forall r | r in db[u]
        ensures h(r) == match f(r) case None => None case Some(r') => g(r')
      {
        EffectTwice(fks, t, col, a, b, goneA, goneB, u, r);
      }
      FilterMapFuse(f, g, h, db[u]);
    }
  }

  lemma DeleteNothing(db: Db, fks: ForeignKeys, t: Table, col: Column)
    ensures AfterDelete(db, fks, Delete(t, col, {})) == db && !Violates(db, fks, Delete(t, col, {}))
  {
    var d := Delete(t, col, {});
    assert RemovedIds(db, d) == {};
    forall u | u in db
      ensures AfterDelete(db, fks, d)[u] == db[u]
    {
      var f := (r: Row) => Effect(fks, d, {}, u, r);
      forall r | r in db[u]
        ensures f(r) == Some(r)
      {
        assert Cut(fks, u, t, {}, r) == r;
      }
      FilterMapSame(f, db[u]);
    }
  }

  ghost predicate Mentions(db: Db, from: Table, col: Column, v: Id) {
    exists r :: r in Rows(db, from) && Holds(r, col, {v})
  }

  /** Restricting references to a table survive a delete from it. */
  lemma RestrictingRowStays(db: Db, fks: ForeignKeys, d: Delete, from: Table, col: Column, v: Id)
    requires SoundKeys(fks) && Refs(fks, from, col, d.table, false) && Mentions(db, from, col, v)
    ensures Mentions(AfterDelete(db, fks, d), from, col, v)
  {
    var gone := RemovedIds(db, d);
    var r :| r in Rows(db, from) && Holds(r, col, {v});
    var r' := Cut(fks, from, d.table, gone, r);
    CutKeepsOthers(fks, from, d.table, gone, r, col);
    RowAfterDelete(db, fks, d, from, r');
    assert Holds(r', col, {v});
  }

  lemma RestrictingRowWasThere(db: Db, fks: ForeignKeys, d: Delete, from: Table, col: Column, v: Id)
    requires SoundKeys(fks) && Refs(fks, from, col, d.table, false) && Mentions(AfterDelete(db, fks, d), from, col, v)
    ensures Mentions(db, from, col, v)
  {
    var gone := RemovedIds(db, d);
    var r' :| r' in Rows(AfterDelete(db, fks, d), from) && Holds(r', col, {v});
    RowAfterDelete(db, fks, d, from, r');
    var r :| r in Rows(db, from) && Effect(fks, d, gone, from, r) == Some(r');
    CutKeepsOthers(fks, from, d.table, gone, r, col);
    assert Holds(r, col, {v});
  }

  ghost predicate Restricted(db: Db, fks: ForeignKeys, t: Table, v: Id) {
    exists from, col :: Refs(fks, from, col, t, false) && Mentions(db, from, col, v)
  }

  lemma ViolationIsRestricted(db: Db, fks: ForeignKeys, d: Delete) returns (v: Id)
    requires Violates(db, fks, d)
    ensures v in RemovedIds(db, d) && Restricted(db, fks, d.table, v)
  {
    var from, col :| Refs(fks, from, col, d.table, false) &&
      exists r | r in Rows(db, from) :: Holds(r, col, RemovedIds(db, d));
    var r :| r in Rows(db, from) && Holds(r, col, RemovedIds(db, d));
    v := r[col];
    assert Holds(r, col, {v});
    assert Mentions(db, from, col, v);
  }

  lemma RestrictedIsViolation(db: Db, fks: ForeignKeys, d: Delete, v: Id)
    requires v in RemovedIds(db, d) && Restricted(db, fks, d.table, v)
    ensures Violates(db, fks, d)
  {
    var from, col :| Refs(fks, from, col, d.table, false) && Mentions(db, from, col, v);
    var r :| r in Rows(db, from) && Holds(r, col, {v});
    assert Holds(r, col, RemovedIds(db, d));
  }

  /** A delete violates a key exactly when one of the removed ids is still referred to. */
  lemma ViolatesMeaning(db: Db, fks: ForeignKeys, d: Delete)
    ensures Violates(db, fks, d) <==> exists v :: v in RemovedIds(db, d) && Restricted(db, fks, d.table, v)
  {
    if Violates(db, fks, d) {
      var v := ViolationIsRestricted(db, fks, d);
    } else if v :| v in RemovedIds(db, d) && Restricted(db, fks, d.table, v) {
      RestrictedIsViolation(db, fks, d, v);
    }
  }

  lemma RestrictedStays(db: Db, fks: ForeignKeys, d: Delete, v: Id)
    requires SoundKeys(fks)
    ensures Restricted(AfterDelete(db, fks, d), fks, d.table, v) <==> Restricted(db, fks, d.table, v)
  {
    forall from, col | Refs(fks, from, col, d.table, false)
      ensures Mentions(AfterDelete(db, fks, d), from, col, v) <==> Mentions(db, from, col, v)
    {
      if Mentions(db, from, col, v) {
        RestrictingRowStays(db, fks, d, from, col, v);
      } else if Mentions(AfterDelete(db, fks, d), from, col, v) {
        RestrictingRowWasThere(db, fks, d, from, col, v);
      }
    }
  }

  /** The second of two deletes fails exactly when the joint delete does. */
  lemma ViolatesTwice(db: Db, fks: ForeignKeys, t: Table, col: Column, a: set<Id>, b: set<Id>)
    requires SoundKeys(fks)
    ensures Violates(db, fks, Delete(t, col, a + b)) <==>
              Violates(db, fks, Delete(t, col, a)) ||
              Violates(AfterDelete(db, fks, Delete(t, col, a)), fks, Delete(t, col, b))
  {
    var da, dab := Delete(t, col, a), Delete(t, col, a + b);
    var db' := AfterDelete(db, fks, da);
    ViolatesMeaning(db, fks, dab);
    ViolatesMeaning(db, fks, da);
    ViolatesMeaning(db', fks, Delete(t, col, b));
    RemovedIdsSplit(db, fks, t, col, a, b);
    forall v
      ensures Restricted(db', fks, t, v) <==> Restricted(db, fks, t, v)
    {
      RestrictedStays(db, fks, da, v);
    }
  }

  lemma ViolatesMore(db: Db, fks: ForeignKeys, t: Table, col: Column, a: set<Id>, b: set<Id>)
    requires a <= b && Violates(db, fks, Delete(t, col, a))
    ensures Violates(db, fks, Delete(t, col, b))
  {
    ViolatesMeaning(db, fks, Delete(t, col, a));
    ViolatesMeaning(db, fks, Delete(t, col, b));
    assert RemovedIds(db, Delete(t, col, a)) <= RemovedIds(db, Delete(t, col, b));
  }

  ghost function Elements(ids: seq<Id>): set<Id> {
    set id | id in ids
  }

  lemma SameMembersSameElements(a: seq<Id>, b: seq<Id>)
    requires forall id :: id in a <==> id in b
    ensures Elements(a) == Elements(b)
  {
    assert forall id :: id in Elements(a) <==> id in Elements(b);
  }

  function ChunkEnd(n: nat, length: nat): nat {
    if n + CHUNK_SIZE <= length then n + CHUNK_SIZE else length
  }

  lemma ElementsSplit(ids: seq<Id>, n: nat, m: nat)
    requires n <= m <= |ids|
    ensures Elements(ids[..m]) == Elements(ids[..n]) + Elements(ids[n..m])
    ensures Distinct(ids) ==> Elements(ids[..n]) !! Elements(ids[n..m])
  {
    assert ids[..m] == ids[..n] + ids[n..m];
  }

  /** The ids without duplicates, in the order a hash set happens to give. */
  method UniqueIds(input: seq<Id>) returns (ids: seq<Id>)
    ensures Distinct(ids)
    ensures forall id :: id in ids <==> id in input
  {
    ids := [];
    for i := 0 to |input|
      invariant Distinct(ids)
      invariant forall id :: id in ids <==> id in input[..i]
    {
      assert input[..i + 1] == input[..i] + [input[i]];
      if input[i] !in ids {
        ids := ids + [input[i]];
      }
    }
    assert input[..|input|] == input;
  }

  class Manager {
    const fks: ForeignKeys
    var db: Db

    constructor (fks: ForeignKeys, db: Db)
      ensures this.fks == fks && this.db == db
    {
      this.fks := fks;
      this.db := db;
    }

    /** One delete statement: nothing changes when it violates a foreign key. */
    method ExecDelete(d: Delete) returns (ok: bool)
      modifies this
      ensures ok <==> !Violates(old(db), fks, d)
      ensures db == if ok then AfterDelete(old(db), fks, d) else old(db)
    {
      ok := !Violates(db, fks, d);
      if ok {
        db := AfterDelete(db, fks, d);
      }
    }

    /** The chunked query returns what the unbounded one does, up to order. */
    method GetIdsBatched(t: Table, idCol: Column, linkedCol: Column, linked: seq<Id>) returns (result: seq<Id>)
      ensures multiset(result) == multiset(Select(Rows(db, t), idCol, linkedCol, Elements(linked)))
      ensures Elements(result) == Linked(db, t, idCol, linkedCol, Elements(linked))
    {
      result := [];
      var ids := UniqueIds(linked);
      ghost var rows := Rows(db, t);
      var n := 0;
      SelectNothing(rows, idCol, linkedCol);
      assert Elements(ids[..0]) == {};
      while n < |ids|
        invariant n <= |ids|
        invariant multiset(result) == multiset(Select(rows, idCol, linkedCol, Elements(ids[..n])))
      {
        var m := ChunkEnd(n, |ids|);
        var chunk := set id | id in ids[n..m];
        var fetched := Select(Rows(db, t), idCol, linkedCol, chunk);
        ElementsSplit(ids, n, m);
        SelectUnion(rows, idCol, linkedCol, Elements(ids[..n]), chunk);
        result := result + fetched;
        n := m;
      }
      assert ids[..|ids|] == ids;
      SameMembersSameElements(ids, linked);
      SameElements(db, t, idCol, linkedCol, Elements(linked), result);
    }

    /** The chunked delete does what one delete does, and fails exactly when that does. */
    method DeleteBatched(t: Table, col: Column, entityIds: seq<Id>) returns (ok: bool)
      requires SoundKeys(fks)
      modifies this
      ensures ok <==> !Violates(old(db), fks, Delete(t, col, Elements(entityIds)))
      ensures ok ==> db == AfterDelete(old(db), fks, Delete(t, col, Elements(entityIds)))
    {
      var ids := UniqueIds(entityIds);
      var n := 0;
      DeleteNothing(db, fks, t, col);
      assert Elements(ids[..0]) == {};
      while n < |ids|
        invariant n <= |ids|
        invariant db == AfterDelete(old(db), fks, Delete(t, col, Elements(ids[..n])))
        invariant !Violates(old(db), fks, Delete(t, col, Elements(ids[..n])))
      {
        var m := ChunkEnd(n, |ids|);
        var chunk := set id | id in ids[n..m];
        ElementsSplit(ids, n, m);
        ViolatesTwice(old(db), fks, t, col, Elements(ids[..n]), chunk);
        DeleteTwice(old(db), fks, t, col, Elements(ids[..n]), chunk);
        ok := ExecDelete(Delete(t, col, chunk));
        if !ok {
          ViolatesMore(old(db), fks, t, col, Elements(ids[..m]), Elements(entityIds));
          return;
        }
        n := m;
      }
      assert ids[..|ids|] == ids;
      SameMembersSameElements(ids, entityIds);
      return true;
    }
  }

  lemma SameElements(db: Db, t: Table, idCol: Column, linkedCol: Column, ids: set<Id>, result: seq<Id>)
    requires multiset(result) == multiset(Select(Rows(db, t), idCol, linkedCol, ids))
    ensures Elements(result) == Linked(db, t, idCol, linkedCol, ids)
  {
    forall v
      ensures v in Elements(result) <==> v in Linked(db, t, idCol, linkedCol, ids)
    {
      SelectIsLinked(db, t, idCol, linkedCol, ids, v);
      assert v in result <==> v in multiset(result);
      var selected := Select(Rows(db, t), idCol, linkedCol, ids);
      assert v in selected <==> v in multiset(selected);
    }
  }
}
