/** A fixed sequence of deletes and what it does to each row of the database it started from. */
module DeletePlans {
  import opened Wrappers
  import opened Relational
  import opened BatchUtils

  /** The database after the first `n` deletes. */
  ghost function State(db: Db, fks: ForeignKeys, plan: seq<Delete>, n: nat): Db
    requires n <= |plan|
  {
    if n == 0 then db else AfterDelete(State(db, fks, plan, n - 1), fks, plan[n - 1])
  }

  /** The column is never cleared. */
  ghost predicate Permanent(fks: ForeignKeys, t: Table, c: Column) {
    fks(t, c).Some? ==> !fks(t, c).value.setNull
  }

  /** No foreign key refers to the table. */
  ghost predicate Unreferenced(fks: ForeignKeys, t: Table) {
    forall from, col :: !Refs(fks, from, col, t, true) && !Refs(fks, from, col, t, false)
  }

  ghost predicate FirstOfTable(plan: seq<Delete>, n: nat)
    requires n < |plan|
  {
    forall m | 0 <= m < n :: plan[m].table != plan[n].table
  }

  /** A table that others refer to occurs once, and no delete is by a column that another one
      may clear. */
  ghost predicate SoundPlan(fks: ForeignKeys, plan: seq<Delete>) {
    && SoundKeys(fks)
    && (forall n: nat | n < |plan| :: FirstOfTable(plan, n) || Unreferenced(fks, plan[n].table))
    && (forall m | 0 <= m < |plan| :: Permanent(fks, plan[m].table, plan[m].col))
  }

  ghost predicate Dropped(plan: seq<Delete>, n: nat, t: Table, r: Row)
    requires n <= |plan|
  {
    exists m :: 0 <= m < n && Matches(plan[m], t, r)
  }

  /** Column `c` of the row refers, with set-null, to a row removed by one of the deletes. */
  ghost predicate Cleared(db: Db, fks: ForeignKeys, plan: seq<Delete>, n: nat, t: Table, r: Row, c: Column)
    requires n <= |plan| && c in r
  {
    exists m :: 0 <= m < n && Refs(fks, t, c, plan[m].table, true) && r[c] in RemovedIds(db, plan[m])
  }

  ghost function Remainder(db: Db, fks: ForeignKeys, plan: seq<Delete>, n: nat, t: Table, r: Row): Row
    requires n <= |plan|
  {
    map c | c in r && !Cleared(db, fks, plan, n, t, r, c) :: r[c]
  }

  /** What becomes of a row of the original database. */
  ghost function Fate(db: Db, fks: ForeignKeys, plan: seq<Delete>, n: nat, t: Table, r: Row): Option<Row>
    requires n <= |plan|
  {
    if Dropped(plan, n, t, r) then None else Some(Remainder(db, fks, plan, n, t, r))
  }

  ghost predicate FatesHold(db: Db, fks: ForeignKeys, plan: seq<Delete>, n: nat)
    requires n <= |plan|
  {
    var s := State(db, fks, plan, n);
    s.Keys == db.Keys && forall t | t in db :: s[t] == FilterMap((r: Row) => Fate(db, fks, plan, n, t, r), db[t])
  }

  /** A column that no set-null key uses keeps its value. */
  lemma RemainderKeeps(db: Db, fks: ForeignKeys, plan: seq<Delete>, n: nat, t: Table, r: Row, c: Column)
    requires n <= |plan| && Permanent(fks, t, c)
    ensures c in Remainder(db, fks, plan, n, t, r) <==> c in r
    ensures c in r ==> Remainder(db, fks, plan, n, t, r)[c] == r[c]
  {
  }

  lemma RowOfState(db: Db, fks: ForeignKeys, plan: seq<Delete>, n: nat, t: Table, r': Row)
    requires n <= |plan| && FatesHold(db, fks, plan, n)
    ensures r' in Rows(State(db, fks, plan, n), t) <==> exists r :: r in Rows(db, t) && Fate(db, fks, plan, n, t, r) == Some(r')
  {
    if t in db {
      FilterMapIn((r: Row) => Fate(db, fks, plan, n, t, r), db[t], r');
    }
  }

  /** A table not deleted from yet offers the same ids for removal as in the beginning. */
  lemma RemovedIdsAt(db: Db, fks: ForeignKeys, plan: seq<Delete>, n: nat)
    requires n < |plan| && SoundPlan(fks, plan) && FirstOfTable(plan, n) && FatesHold(db, fks, plan, n)
    ensures RemovedIds(State(db, fks, plan, n), plan[n]) == RemovedIds(db, plan[n])
  {
    var d, s := plan[n], State(db, fks, plan, n);
    forall v
      ensures v in RemovedIds(s, d) <==> v in RemovedIds(db, d)
    {
      if v in RemovedIds(s, d) {
        var r' :| r' in Rows(s, d.table) && Holds(r', d.col, d.ids) && ID in r' && r'[ID] == v;
        RowOfState(db, fks, plan, n, d.table, r');
        var r :| r in Rows(db, d.table) && Fate(db, fks, plan, n, d.table, r) == Some(r');
        RemainderKeeps(db, fks, plan, n, d.table, r, ID);
        RemainderKeeps(db, fks, plan, n, d.table, r, d.col);
      }
      if v in RemovedIds(db, d) {
        var r :| r in Rows(db, d.table) && Holds(r, d.col, d.ids) && ID in r && r[ID] == v;
        var r' := Remainder(db, fks, plan, n, d.table, r);
        RemainderKeeps(db, fks, plan, n, d.table, r, ID);
        RemainderKeeps(db, fks, plan, n, d.table, r, d.col);
        RowOfState(db, fks, plan, n, d.table, r');
        assert Holds(r', d.col, d.ids);
      }
    }
  }

  lemma DroppedStep(plan: seq<Delete>, n: nat, t: Table, r: Row)
    requires n < |plan|
    ensures Dropped(plan, n + 1, t, r) <==> Dropped(plan, n, t, r) || Matches(plan[n], t, r)
  {
  }

  lemma ClearedStep(db: Db, fks: ForeignKeys, plan: seq<Delete>, n: nat, t: Table, r: Row, c: Column)
    requires n < |plan| && c in r
    ensures Cleared(db, fks, plan, n + 1, t, r, c) <==>
              || Cleared(db, fks, plan, n, t, r, c)
              || (Refs(fks, t, c, plan[n].table, true) && r[c] in RemovedIds(db, plan[n]))
  {
  }

  lemma RemainderStep(db: Db, fks: ForeignKeys, plan: seq<Delete>, n: nat, t: Table, r: Row)
    requires n < |plan|
    ensures Cut(fks, t, plan[n].table, RemovedIds(db, plan[n]), Remainder(db, fks, plan, n, t, r)) ==
              Remainder(db, fks, plan, n + 1, t, r)
  {
    forall c | c in r
      ensures Cleared(db, fks, plan, n + 1, t, r, c) <==>
                || Cleared(db, fks, plan, n, t, r, c)
                || (Refs(fks, t, c, plan[n].table, true) && r[c] in RemovedIds(db, plan[n]))
    {
      ClearedStep(db, fks, plan, n, t, r, c);
    }
  }

  lemma FateStep(db: Db, fks: ForeignKeys, plan: seq<Delete>, n: nat, t: Table, r: Row)
    requires n < |plan| && SoundPlan(fks, plan)
    ensures Fate(db, fks, plan, n + 1, t, r) ==
              match Fate(db, fks, plan, n, t, r)
              case None => None
              case Some(r') => Effect(fks, plan[n], RemovedIds(db, plan[n]), t, r')
  {
    DroppedStep(plan, n, t, r);
    RemainderStep(db, fks, plan, n, t, r);
    if t == plan[n].table {
      RemainderKeeps(db, fks, plan, n, t, r, plan[n].col);
    }
  }

  lemma FatesAtStart(db: Db, fks: ForeignKeys, plan: seq<Delete>)
    ensures FatesHold(db, fks, plan, 0)
  {
    forall t | t in db
      ensures db[t] == FilterMap((r: Row) => Fate(db, fks, plan, 0, t, r), db[t])
    {
      var f := (r: Row) => Fate(db, fks, plan, 0, t, r);
      forall r | r in db[t]
        ensures f(r) == Some(r)
      {
        assert Remainder(db, fks, plan, 0, t, r) == r;
      }
      FilterMapSame(f, db[t]);
    }
  }

  lemma FatesOfTable(db: Db, fks: ForeignKeys, plan: seq<Delete>, n: nat, t: Table)
    requires n < |plan| && SoundPlan(fks, plan) && t in db
    ensures FilterMap((r: Row) => Effect(fks, plan[n], RemovedIds(db, plan[n]), t, r),
                      FilterMap((r: Row) => Fate(db, fks, plan, n, t, r), db[t]))
         == FilterMap((r: Row) => Fate(db, fks, plan, n + 1, t, r), db[t])
  {
    var f := (r: Row) => Fate(db, fks, plan, n, t, r);
    var g := (r: Row) => Effect(fks, plan[n], RemovedIds(db, plan[n]), t, r);
    var h := (r: Row) => Fate(db, fks, plan, n + 1, t, r);
    forall r | r in db[t]
      ensures h(r) == match f(r) case None => None case Some(r') => g(r')
    {
      FateStep(db, fks, plan, n, t, r);
    }
    FilterMapFuse(f, g, h, db[t]);
  }

  lemma GoneIrrelevant(fks: ForeignKeys, d: Delete, a: set<Id>, b: set<Id>, t: Table, r: Row)
    requires Unreferenced(fks, d.table)
    ensures Effect(fks, d, a, t, r) == Effect(fks, d, b, t, r)
  {
    assert Cut(fks, t, d.table, a, r) == r == Cut(fks, t, d.table, b, r);
  }

  /** The next state of a table, in terms of the ids removed from the original database. */
  lemma NextState(db: Db, fks: ForeignKeys, plan: seq<Delete>, n: nat, t: Table)
    requires n < |plan| && SoundPlan(fks, plan) && FatesHold(db, fks, plan, n) && t in db
    ensures var s := State(db, fks, plan, n);
            t in s && t in State(db, fks, plan, n + 1) && State(db, fks, plan, n + 1)[t]
              == FilterMap((r: Row) => Effect(fks, plan[n], RemovedIds(db, plan[n]), t, r), s[t])
  {
    var s := State(db, fks, plan, n);
    if FirstOfTable(plan, n) {
      RemovedIdsAt(db, fks, plan, n);
    } else {
      var f := (r: Row) => Effect(fks, plan[n], RemovedIds(s, plan[n]), t, r);
      var g := (r: Row) => Effect(fks, plan[n], RemovedIds(db, plan[n]), t, r);
      forall r | r in s[t]
        ensures f(r) == g(r)
      {
        GoneIrrelevant(fks, plan[n], RemovedIds(s, plan[n]), RemovedIds(db, plan[n]), t, r);
      }
      FilterMapAgree(f, g, s[t]);
    }
  }

  /** After every prefix of the plan, each table holds exactly the rows no delete took, in
      their order, with only their dangling set-null columns cleared. */
  lemma {:induction false} FatesAlwaysHold(db: Db, fks: ForeignKeys, plan: seq<Delete>, n: nat)
    requires n <= |plan| && SoundPlan(fks, plan)
    ensures FatesHold(db, fks, plan, n)
  {
    if n == 0 {
      FatesAtStart(db, fks, plan);
    } else {
      FatesAlwaysHold(db, fks, plan, n - 1);
      forall t | t in db
        ensures State(db, fks, plan, n)[t] == FilterMap((r: Row) => Fate(db, fks, plan, n, t, r), db[t])
      {
        NextState(db, fks, plan, n - 1, t);
        FatesOfTable(db, fks, plan, n - 1, t);
      }
    }
  }

  /** Delete `n` of the plan would remove a row that a restricting key of a row no earlier
      delete took refers to. */
  ghost predicate Blocked(db: Db, fks: ForeignKeys, plan: seq<Delete>, n: nat)
    requires n < |plan|
  {
    exists from, col, r :: Blocks(db, fks, plan, n, from, col, r)
  }

  ghost predicate Blocks(db: Db, fks: ForeignKeys, plan: seq<Delete>, n: nat, from: Table, col: Column, r: Row)
    requires n < |plan|
  {
    && Refs(fks, from, col, plan[n].table, false)
    && r in Rows(db, from) && Holds(r, col, RemovedIds(db, plan[n]))
    && !Dropped(plan, n, from, r)
  }

  lemma BlocksIfReferring(db: Db, fks: ForeignKeys, plan: seq<Delete>, n: nat, from: Table, col: Column, r: Row)
    requires n < |plan| && Refs(fks, from, col, plan[n].table, false) && !Dropped(plan, n, from, r)
    requires r in Rows(db, from) && Holds(r, col, RemovedIds(db, plan[n]))
    ensures Blocked(db, fks, plan, n)
  {
    assert Blocks(db, fks, plan, n, from, col, r);
  }

  /** A row refers, through a restricting key, to an id that goes. */
  ghost predicate RefersToGone(db: Db, fks: ForeignKeys, from: Table, col: Column, to: Table, gone: set<Id>) {
    Refs(fks, from, col, to, false) && exists r :: r in Rows(db, from) && Holds(r, col, gone)
  }

  lemma ReferencedIsFirst(fks: ForeignKeys, plan: seq<Delete>, n: nat, from: Table, col: Column)
    requires n < |plan| && SoundPlan(fks, plan) && Refs(fks, from, col, plan[n].table, false)
    ensures FirstOfTable(plan, n)
  {
  }

  lemma ReferringRowBlocks(db: Db, fks: ForeignKeys, plan: seq<Delete>, n: nat, from: Table, col: Column, r': Row)
    requires n < |plan| && FatesHold(db, fks, plan, n) && Refs(fks, from, col, plan[n].table, false)
    requires r' in Rows(State(db, fks, plan, n), from) && Holds(r', col, RemovedIds(db, plan[n]))
    ensures Blocked(db, fks, plan, n)
  {
    RowOfState(db, fks, plan, n, from, r');
    var r :| r in Rows(db, from) && Fate(db, fks, plan, n, from, r) == Some(r');
    RemainderKeeps(db, fks, plan, n, from, r, col);
    assert Blocks(db, fks, plan, n, from, col, r);
  }

  lemma ViolationBlocks(db: Db, fks: ForeignKeys, plan: seq<Delete>, n: nat, from: Table, col: Column)
    requires n < |plan| && SoundPlan(fks, plan) && FatesHold(db, fks, plan, n)
    requires RefersToGone(State(db, fks, plan, n), fks, from, col, plan[n].table, RemovedIds(State(db, fks, plan, n), plan[n]))
    ensures Blocked(db, fks, plan, n)
  {
    ReferencedIsFirst(fks, plan, n, from, col);
    RemovedIdsAt(db, fks, plan, n);
    var r' :| r' in Rows(State(db, fks, plan, n), from) && Holds(r', col, RemovedIds(db, plan[n]));
    ReferringRowBlocks(db, fks, plan, n, from, col, r');
  }

  lemma BlockerViolates(db: Db, fks: ForeignKeys, plan: seq<Delete>, n: nat)
    requires n < |plan| && SoundPlan(fks, plan) && FatesHold(db, fks, plan, n) && Blocked(db, fks, plan, n)
    ensures Violates(State(db, fks, plan, n), fks, plan[n])
  {
    var from, col, r :| Blocks(db, fks, plan, n, from, col, r);
    ReferencedIsFirst(fks, plan, n, from, col);
    RemovedIdsAt(db, fks, plan, n);
    var r' := Remainder(db, fks, plan, n, from, r);
    RemainderKeeps(db, fks, plan, n, from, r, col);
    RowOfState(db, fks, plan, n, from, r');
    assert Holds(r', col, RemovedIds(db, plan[n]));
  }

  /** So whether a step fails can be read off the original database. */
  lemma ViolatesIffBlocked(db: Db, fks: ForeignKeys, plan: seq<Delete>, n: nat)
    requires n < |plan| && SoundPlan(fks, plan)
    ensures Violates(State(db, fks, plan, n), fks, plan[n]) <==> Blocked(db, fks, plan, n)
  {
    FatesAlwaysHold(db, fks, plan, n);
    var s := State(db, fks, plan, n);
    if Violates(s, fks, plan[n]) {
      var from, col :| Refs(fks, from, col, plan[n].table, false) && exists r | r in Rows(s, from) :: Holds(r, col, RemovedIds(s, plan[n]));
      assert RefersToGone(s, fks, from, col, plan[n].table, RemovedIds(s, plan[n]));
      ViolationBlocks(db, fks, plan, n, from, col);
    } else if Blocked(db, fks, plan, n) {
      BlockerViolates(db, fks, plan, n);
    }
  }

  lemma NextIntegrity(db: Db, fks: ForeignKeys, plan: seq<Delete>, n: nat)
    requires 0 < n <= |plan| && SoundKeys(fks) && Integrity(State(db, fks, plan, n - 1), fks)
    requires !Violates(State(db, fks, plan, n - 1), fks, plan[n - 1])
    ensures Integrity(State(db, fks, plan, n), fks)
  {
    DeleteKeepsIntegrity(State(db, fks, plan, n - 1), fks, plan[n - 1]);
  }

  ghost predicate Fails(db: Db, fks: ForeignKeys, plan: seq<Delete>, n: nat)
    requires n < |plan|
  {
    Violates(State(db, fks, plan, n), fks, plan[n])
  }

  lemma {:induction false} IntegrityUnlessFailing(db: Db, fks: ForeignKeys, plan: seq<Delete>, n: nat)
    requires n <= |plan| && SoundKeys(fks) && Integrity(db, fks)
    requires forall m: nat | m < n :: !Fails(db, fks, plan, m)
    ensures Integrity(State(db, fks, plan, n), fks)
  {
    if n > 0 {
      IntegrityUnlessFailing(db, fks, plan, n - 1);
      assert !Fails(db, fks, plan, n - 1);
      NextIntegrity(db, fks, plan, n);
    }
  }

  lemma UnblockedIsUnfailing(db: Db, fks: ForeignKeys, plan: seq<Delete>, n: nat)
    requires n <= |plan| && SoundPlan(fks, plan) && forall m | 0 <= m < n :: !Blocked(db, fks, plan, m)
    ensures forall m: nat | m < n :: !Fails(db, fks, plan, m)
  {
    forall m: nat | m < n
      ensures !Fails(db, fks, plan, m)
    {
      ViolatesIffBlocked(db, fks, plan, m);
    }
  }

  /** References stay valid after every delete, as long as none is blocked. */
  lemma IntegrityThroughout(db: Db, fks: ForeignKeys, plan: seq<Delete>, n: nat)
    requires n <= |plan| && SoundPlan(fks, plan) && Integrity(db, fks)
    requires forall m | 0 <= m < n :: !Blocked(db, fks, plan, m)
    ensures Integrity(State(db, fks, plan, n), fks)
  {
    UnblockedIsUnfailing(db, fks, plan, n);
    IntegrityUnlessFailing(db, fks, plan, n);
  }

  /** Delete `n` does not take a row that a row no earlier delete takes refers to. */
  lemma UnblockedReferrerGoes(db: Db, fks: ForeignKeys, plan: seq<Delete>, n: nat, from: Table, col: Column, r: Row, v: Id)
    requires n < |plan| && !Blocked(db, fks, plan, n) && Refs(fks, from, col, plan[n].table, false)
    requires r in Rows(db, from) && Holds(r, col, {v}) && v in RemovedIds(db, plan[n])
    ensures Dropped(plan, n, from, r)
  {
    if !Dropped(plan, n, from, r) {
      BlocksIfReferring(db, fks, plan, n, from, col, r);
    }
  }

  lemma DroppedLater(plan: seq<Delete>, n: nat, k: nat, t: Table, r: Row)
    requires n <= k <= |plan| && Dropped(plan, n, t, r)
    ensures Dropped(plan, k, t, r)
  {
  }

  /** An unblocked plan is closed: whatever refers, through a restricting key, to a row the plan
      takes is taken as well. */
  lemma UnblockedIsClosed(db: Db, fks: ForeignKeys, plan: seq<Delete>, from: Table, col: Column, to: Table, r: Row, x: Row)
    requires forall n | 0 <= n < |plan| :: !Blocked(db, fks, plan, n)
    requires Refs(fks, from, col, to, false) && r in Rows(db, from) && x in Rows(db, to)
    requires ID in x && Holds(r, col, {x[ID]}) && Dropped(plan, |plan|, to, x)
    ensures Dropped(plan, |plan|, from, r)
  {
    var n :| 0 <= n < |plan| && Matches(plan[n], to, x);
    assert x[ID] in RemovedIds(db, plan[n]);
    UnblockedReferrerGoes(db, fks, plan, n, from, col, r, x[ID]);
    DroppedLater(plan, n, |plan|, from, r);
  }

  lemma MatchesAlike(d: Delete, t: Table, r: Row, x: Row)
    requires Matches(d, t, r) && forall c | c in r :: c in x && x[c] == r[c]
    ensures Matches(d, t, x)
  {
  }

  /** A row that is what remains of another one is no more dropped or cleared than that one. */
  lemma RemaindersStay(db: Db, fks: ForeignKeys, plan: seq<Delete>, n: nat, t: Table, r: Row, x: Row)
    requires n <= |plan| && Fate(db, fks, plan, n, t, x) == Some(r)
    ensures !Dropped(plan, n, t, r) && forall c | c in r :: !Cleared(db, fks, plan, n, t, r, c)
  {
    if m :| 0 <= m < n && Matches(plan[m], t, r) {
      MatchesAlike(plan[m], t, r, x);
    }
    forall c | c in r
      ensures !Cleared(db, fks, plan, n, t, r, c)
    {
      assert !Cleared(db, fks, plan, n, t, x, c);
    }
  }

  lemma NothingClearedSame(db: Db, fks: ForeignKeys, plan: seq<Delete>, n: nat, t: Table, r: Row)
    requires n <= |plan| && forall c | c in r :: !Cleared(db, fks, plan, n, t, r, c)
    ensures Remainder(db, fks, plan, n, t, r) == r
  {
  }

  lemma UnchangedRow(db: Db, fks: ForeignKeys, plan: seq<Delete>, n: nat, t: Table, r: Row)
    requires n <= |plan| && FatesHold(db, fks, plan, n) && r in Rows(db, t)
    ensures r in Rows(State(db, fks, plan, n), t) <==>
              !Dropped(plan, n, t, r) && forall c | c in r :: !Cleared(db, fks, plan, n, t, r, c)
  {
    RowOfState(db, fks, plan, n, t, r);
    if r in Rows(State(db, fks, plan, n), t) {
      var x :| x in Rows(db, t) && Fate(db, fks, plan, n, t, x) == Some(r);
      RemaindersStay(db, fks, plan, n, t, r, x);
    } else if forall c | c in r :: !Cleared(db, fks, plan, n, t, r, c) {
      NothingClearedSame(db, fks, plan, n, t, r);
    }
  }

  /** A row stays as it is exactly when no delete takes it and none of its columns is cleared. */
  lemma UnchangedIff(db: Db, fks: ForeignKeys, plan: seq<Delete>, n: nat, t: Table, r: Row)
    requires n <= |plan| && SoundPlan(fks, plan) && r in Rows(db, t)
    ensures r in Rows(State(db, fks, plan, n), t) <==>
              !Dropped(plan, n, t, r) && forall c | c in r :: !Cleared(db, fks, plan, n, t, r, c)
  {
    FatesAlwaysHold(db, fks, plan, n);
    UnchangedRow(db, fks, plan, n, t, r);
  }

  lemma NothingCleared(db: Db, fks: ForeignKeys, plan: seq<Delete>, n: nat, t: Table, r: Row)
    requires n <= |plan| && forall c :: Permanent(fks, t, c)
    ensures Remainder(db, fks, plan, n, t, r) == r
  {
    forall c | c in r
      ensures !Cleared(db, fks, plan, n, t, r, c)
    {
      assert Permanent(fks, t, c);
    }
  }

  /** A table without clearing keys keeps exactly the rows no delete took. */
  lemma UntakenRowsStay(db: Db, fks: ForeignKeys, plan: seq<Delete>, n: nat, t: Table, r: Row)
    requires n <= |plan| && SoundPlan(fks, plan) && forall c :: Permanent(fks, t, c)
    ensures r in Rows(State(db, fks, plan, n), t) <==> r in Rows(db, t) && !Dropped(plan, n, t, r)
  {
    FatesAlwaysHold(db, fks, plan, n);
    UntakenRow(db, fks, plan, n, t, r);
  }

  lemma UntakenRow(db: Db, fks: ForeignKeys, plan: seq<Delete>, n: nat, t: Table, r: Row)
    requires n <= |plan| && FatesHold(db, fks, plan, n) && forall c :: Permanent(fks, t, c)
    ensures r in Rows(State(db, fks, plan, n), t) <==> r in Rows(db, t) && !Dropped(plan, n, t, r)
  {
    RowOfState(db, fks, plan, n, t, r);
    NothingCleared(db, fks, plan, n, t, r);
    if x :| x in Rows(db, t) && Fate(db, fks, plan, n, t, x) == Some(r) {
      NothingCleared(db, fks, plan, n, t, x);
    }
  }

  /** A table that no delete names and no key clears is the same sequence of rows throughout. */
  lemma UntouchedTable(db: Db, fks: ForeignKeys, plan: seq<Delete>, n: nat, t: Table)
    requires n <= |plan| && SoundPlan(fks, plan) && forall c :: Permanent(fks, t, c)
    requires forall m | 0 <= m < n :: plan[m].table != t
    ensures Rows(State(db, fks, plan, n), t) == Rows(db, t)
  {
    FatesAlwaysHold(db, fks, plan, n);
    if t in db {
      var f := (r: Row) => Fate(db, fks, plan, n, t, r);
      forall r | r in db[t]
        ensures f(r) == Some(r)
      {
        NothingCleared(db, fks, plan, n, t, r);
        assert !Dropped(plan, n, t, r);
      }
      FilterMapSame(f, db[t]);
    }
  }

  /** A delete without ids can be left out. */
  lemma EmptyDelete(db: Db, fks: ForeignKeys, plan: seq<Delete>, n: nat)
    requires n < |plan| && SoundPlan(fks, plan) && plan[n].ids == {}
    ensures !Blocked(db, fks, plan, n) && State(db, fks, plan, n + 1) == State(db, fks, plan, n)
  {
    var d := plan[n];
    DeleteNothing(State(db, fks, plan, n), fks, d.table, d.col);
    assert d == Delete(d.table, d.col, {});
    ViolatesIffBlocked(db, fks, plan, n);
  }

  /** What executing delete `n` means for the sequence. */
  lemma NextDelete(db: Db, fks: ForeignKeys, plan: seq<Delete>, n: nat, d: Delete)
    requires n < |plan| && SoundPlan(fks, plan) && d == plan[n]
    ensures Violates(State(db, fks, plan, n), fks, d) <==> Blocked(db, fks, plan, n)
    ensures State(db, fks, plan, n + 1) == AfterDelete(State(db, fks, plan, n), fks, d)
  {
    ViolatesIffBlocked(db, fks, plan, n);
  }
}
