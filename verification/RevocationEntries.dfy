/** Revocation list entries for existing credentials
    (lib/migration/src/m20251030_110836_revocation_list_entry.rs). */
module RevocationEntries {
  import opened Wrappers

  datatype StoredList = StoredList(id: Id, issuer: Id)

  datatype Credential = Credential(id: Id, createdDate: int, role: string, schema: Id, issuer: Option<Id>)

  datatype Entry = Entry(createdDate: int, list: Id, index: nat, credential: Id)

  predicate HasStatusList(revocationMethods: map<Id, string>, schema: Id) {
    schema in revocationMethods && revocationMethods[schema] in {"TOKENSTATUSLIST", "BITSTRINGSTATUSLIST"}
  }

  predicate Eligible(revocationMethods: map<Id, string>, c: Credential) {
    c.role == "ISSUER" && HasStatusList(revocationMethods, c.schema)
  }

  /** Issued by this system under a schema that is revoked by one of the two kinds of status list. */
  predicate StatusListed(methods: map<Id, string>, c: Credential) {
    && c.role == "ISSUER" && c.schema in methods
    && (methods[c.schema] == "TOKENSTATUSLIST" || methods[c.schema] == "BITSTRINGSTATUSLIST")
  }

  ghost predicate IdsDistinct(cs: seq<Credential>) {
    forall i, j | 0 <= i < j < |cs| :: cs[i].id != cs[j].id
  }

  /** A result of the query for one issuer: its credentials in order of creation, those created
      at the same time in any order. */
  ghost predicate CreationOrder(credentials: seq<Credential>, issuer: Id, ordered: seq<Credential>) {
    && (forall c :: c in ordered <==> c in credentials && c.issuer == Some(issuer))
    && IdsDistinct(ordered)
    && ByDate(ordered)
  }

  ghost predicate EntryAt(list: StoredList, ordered: seq<Credential>, methods: map<Id, string>, n: int, e: Entry)
    requires 0 <= n < |ordered|
  {
    StatusListed(methods, ordered[n]) && e == Entry(ordered[n].createdDate, list.id, n, ordered[n].id)
  }

  /** The entries of one list are those of its eligible credentials, each at its position among
      all credentials of the issuer. */
  ghost predicate EntriesOf(list: StoredList, ordered: seq<Credential>, upto: nat, methods: map<Id, string>, entries: seq<Entry>)
    requires upto <= |ordered|
  {
    && (forall e :: e in entries <==> exists n :: 0 <= n < upto && EntryAt(list, ordered, methods, n, e))
    && (forall i, j | 0 <= i < j < |entries| :: entries[i].index < entries[j].index)
  }

  // ----- The query

  lemma InsertedElements<T>(xs: seq<T>, x: T, i: nat, y: T)
    requires i <= |xs|
    ensures y in xs[..i] + [x] + xs[i..] <==> y == x || y in xs
  {
    assert xs == xs[..i] + xs[i..];
  }

  ghost predicate ByDate(cs: seq<Credential>) {
    forall i, j | 0 <= i < j < |cs| :: cs[i].createdDate <= cs[j].createdDate
  }

  lemma InsertKeepsIds(ordered: seq<Credential>, c: Credential, i: nat)
    requires i <= |ordered| && IdsDistinct(ordered) && forall j | 0 <= j < |ordered| :: ordered[j].id != c.id
    ensures IdsDistinct(ordered[..i] + [c] + ordered[i..])
  {
  }

  lemma InsertKeepsDates(ordered: seq<Credential>, c: Credential, i: nat)
    requires i <= |ordered| && ByDate(ordered)
    requires forall j | 0 <= j < i :: ordered[j].createdDate <= c.createdDate
    requires i < |ordered| ==> c.createdDate < ordered[i].createdDate
    ensures ByDate(ordered[..i] + [c] + ordered[i..])
  {
    assert forall j | i <= j < |ordered| :: c.createdDate <= ordered[j].createdDate;
  }

  lemma InsertInOrder(credentials: seq<Credential>, c: Credential, issuer: Id, ordered: seq<Credential>, i: nat)
    requires CreationOrder(credentials, issuer, ordered) && i <= |ordered| && c.issuer == Some(issuer)
    requires forall x | x in credentials :: x.id != c.id
    requires forall j | 0 <= j < i :: ordered[j].createdDate <= c.createdDate
    requires i < |ordered| ==> c.createdDate < ordered[i].createdDate
    ensures CreationOrder(credentials + [c], issuer, ordered[..i] + [c] + ordered[i..])
  {
    var grown := ordered[..i] + [c] + ordered[i..];
    forall x
      ensures x in grown <==> x in credentials + [c] && x.issuer == Some(issuer)
    {
      InsertedElements(ordered, c, i, x);
    }
    assert forall j | 0 <= j < |ordered| :: ordered[j] in ordered;
    InsertKeepsIds(ordered, c, i);
    InsertKeepsDates(ordered, c, i);
  }

  /** `ORDER BY created_date ASC`. */
  method SelectByIssuer(credentials: seq<Credential>, issuer: Id) returns (ordered: seq<Credential>)
    requires IdsDistinct(credentials)
    ensures CreationOrder(credentials, issuer, ordered)
  {
    ordered := [];
    for n := 0 to |credentials|
      invariant IdsDistinct(credentials[..n])
      invariant CreationOrder(credentials[..n], issuer, ordered)
    {
      var c := credentials[n];
      assert credentials[..n + 1] == credentials[..n] + [c];
      if c.issuer == Some(issuer) {
        var i := 0;
        while i < |ordered| && ordered[i].createdDate <= c.createdDate
          invariant 0 <= i <= |ordered|
          invariant forall j | 0 <= j < i :: ordered[j].createdDate <= c.createdDate
        {
          i := i + 1;
        }
        InsertInOrder(credentials[..n], c, issuer, ordered, i);
        ordered := ordered[..i] + [c] + ordered[i..];
      }
    }
    assert credentials[..|credentials|] == credentials;
  }

  // ----- Filling the table

  /** The entries of one list: the index counts all credentials, the filter comes after it. */
  method EntriesForList(list: StoredList, ordered: seq<Credential>, methods: map<Id, string>) returns (entries: seq<Entry>)
    ensures EntriesOf(list, ordered, |ordered|, methods, entries)
  {
    entries := [];
    for index := 0 to |ordered|
      invariant EntriesOf(list, ordered, index, methods, entries)
      invariant forall i | 0 <= i < |entries| :: entries[i].index < index
    {
      var c := ordered[index];
      if Eligible(methods, c) {
        var e := Entry(c.createdDate, list.id, index, c.id);
        assert EntryAt(list, ordered, methods, index, e);
        entries := entries + [e];
      }
    }
  }

  /** What a finished table holds: for every list, the entries of some creation order of its
      issuer's credentials. */
  ghost predicate Filled(lists: seq<StoredList>, upto: nat, credentials: seq<Credential>, methods: map<Id, string>,
                         orders: seq<seq<Credential>>, table: seq<Entry>)
    requires upto <= |lists|
  {
    && |orders| == upto
    && (forall k | 0 <= k < upto :: CreationOrder(credentials, lists[k].issuer, orders[k]))
    && (forall e :: e in table <==> exists k, n :: 0 <= k < upto && 0 <= n < |orders[k]| && EntryAt(lists[k], orders[k], methods, n, e))
    && (ListIdsDistinct(lists) ==> KeysDistinct(table))
  }

  ghost predicate ListIdsDistinct(lists: seq<StoredList>) {
    forall i, j | 0 <= i < j < |lists| :: lists[i].id != lists[j].id
  }

  /** The unique index on list and position: no two rows of the table agree on both. */
  ghost predicate KeysDistinct(table: seq<Entry>) {
    forall i, j | 0 <= i < j < |table| :: (table[i].list, table[i].index) != (table[j].list, table[j].index)
  }

  /** The rows of the table for one list and one credential. */
  ghost predicate IsRowOf(table: seq<Entry>, list: Id, credential: Id, i: int) {
    0 <= i < |table| && table[i].list == list && table[i].credential == credential
  }

  ghost predicate OneRow(table: seq<Entry>, list: Id, credential: Id) {
    && (exists i :: IsRowOf(table, list, credential, i))
    && (forall i, j | IsRowOf(table, list, credential, i) && IsRowOf(table, list, credential, j) :: i == j)
  }

  method Up(lists: seq<StoredList>, credentials: seq<Credential>, methods: map<Id, string>)
    returns (table: seq<Entry>, ghost orders: seq<seq<Credential>>)
    requires IdsDistinct(credentials)
    ensures Filled(lists, |lists|, credentials, methods, orders, table)
    ensures ListIdsDistinct(lists) ==> KeysDistinct(table)
    ensures ListIdsDistinct(lists) ==> forall k, c | 0 <= k < |lists| && c in credentials ::
              if c.issuer == Some(lists[k].issuer) && StatusListed(methods, c) then OneRow(table, lists[k].id, c.id)
              else forall i :: !IsRowOf(table, lists[k].id, c.id, i)
  {
    table := [];
    orders := [];
    for k := 0 to |lists|
      invariant Filled(lists, k, credentials, methods, orders, table)
    {
      var ordered := SelectByIssuer(credentials, lists[k].issuer);
      var entries := EntriesForList(lists[k], ordered, methods);
      FilledStep(lists, k, credentials, methods, orders, table, ordered, entries);
      table := table + entries;
      orders := orders + [ordered];
    }
    if ListIdsDistinct(lists) {
      forall k, c | 0 <= k < |lists| && c in credentials
        ensures if c.issuer == Some(lists[k].issuer) && StatusListed(methods, c) then OneRow(table, lists[k].id, c.id)
                else forall i :: !IsRowOf(table, lists[k].id, c.id, i)
      {
        OneEntryPerListAndCredential(lists, credentials, methods, orders, table, k, c);
      }
    }
  }

  lemma FilledStep(lists: seq<StoredList>, k: nat, credentials: seq<Credential>, methods: map<Id, string>,
                   orders: seq<seq<Credential>>, table: seq<Entry>, ordered: seq<Credential>, entries: seq<Entry>)
    requires k < |lists| && Filled(lists, k, credentials, methods, orders, table)
    requires CreationOrder(credentials, lists[k].issuer, ordered) && EntriesOf(lists[k], ordered, |ordered|, methods, entries)
    ensures Filled(lists, k + 1, credentials, methods, orders + [ordered], table + entries)
  {
    var grown := orders + [ordered];
    if ListIdsDistinct(lists) {
      ListAndIndexUnique(lists, k, credentials, methods, orders, table, ordered, entries);
    }
    forall e
      ensures e in table + entries <==>
                exists j, n :: 0 <= j < k + 1 && 0 <= n < |grown[j]| && EntryAt(lists[j], grown[j], methods, n, e)
    {
      if e in table {
        var j, n :| 0 <= j < k && 0 <= n < |orders[j]| && EntryAt(lists[j], orders[j], methods, n, e);
        assert grown[j] == orders[j] && EntryAt(lists[j], grown[j], methods, n, e);
      } else if e in entries {
        var n :| 0 <= n < |ordered| && EntryAt(lists[k], ordered, methods, n, e);
        assert grown[k] == ordered && EntryAt(lists[k], grown[k], methods, n, e);
      }
      if j, n :| 0 <= j < k + 1 && 0 <= n < |grown[j]| && EntryAt(lists[j], grown[j], methods, n, e) {
        if j < k {
          assert EntryAt(lists[j], orders[j], methods, n, e);
        }
      }
    }
  }

  /** Adding the entries of a further list keeps list and index unique over all rows. */
  lemma ListAndIndexUnique(lists: seq<StoredList>, k: nat, credentials: seq<Credential>, methods: map<Id, string>,
                        orders: seq<seq<Credential>>, table: seq<Entry>, ordered: seq<Credential>, entries: seq<Entry>)
    requires k < |lists| && ListIdsDistinct(lists) && Filled(lists, k, credentials, methods, orders, table)
    requires EntriesOf(lists[k], ordered, |ordered|, methods, entries)
    ensures KeysDistinct(table + entries)
  {
    forall e | e in table
      ensures e.list != lists[k].id
    {
      var j, n :| 0 <= j < k && 0 <= n < |orders[j]| && EntryAt(lists[j], orders[j], methods, n, e);
    }
    forall e | e in entries
      ensures e.list == lists[k].id
    {
      var n :| 0 <= n < |ordered| && EntryAt(lists[k], ordered, methods, n, e);
    }
    var both := table + entries;
    forall i, j | 0 <= i < j < |both|
      ensures (both[i].list, both[i].index) != (both[j].list, both[j].index)
    {
      if j < |table| {
        assert both[i] == table[i] && both[j] == table[j];
      } else if i < |table| {
        assert both[i] == table[i] && table[i] in table;
        assert both[j] == entries[j - |table|] && entries[j - |table|] in entries;
      } else {
        assert both[i] == entries[i - |table|] && both[j] == entries[j - |table|];
      }
    }
  }

  // ----- What that means

  /** The entries of a credential: none in a list of another issuer or of an ineligible
      credential, otherwise one row, at the credential's position among all of that issuer's. */
  lemma OneEntryPerListAndCredential(lists: seq<StoredList>, credentials: seq<Credential>, methods: map<Id, string>,
                                     orders: seq<seq<Credential>>, table: seq<Entry>, k: nat, c: Credential)
    requires ListIdsDistinct(lists) && IdsDistinct(credentials) && Filled(lists, |lists|, credentials, methods, orders, table)
    requires k < |lists| && c in credentials
    ensures if c.issuer == Some(lists[k].issuer) && StatusListed(methods, c) then OneRow(table, lists[k].id, c.id)
            else forall i :: !IsRowOf(table, lists[k].id, c.id, i)
    ensures forall i | IsRowOf(table, lists[k].id, c.id, i) ::
              table[i].index < |orders[k]| && orders[k][table[i].index] == c
  {
    forall i | IsRowOf(table, lists[k].id, c.id, i)
      ensures table[i].index < |orders[k]| && orders[k][table[i].index] == c
      ensures c.issuer == Some(lists[k].issuer) && StatusListed(methods, c)
    {
      EntryOfCredential(lists, credentials, methods, orders, table, k, c, table[i]);
    }
    forall i, j | IsRowOf(table, lists[k].id, c.id, i) && IsRowOf(table, lists[k].id, c.id, j)
      ensures i == j
    {
      SamePosition(orders[k], table[i].index, table[j].index);
    }
    if c.issuer == Some(lists[k].issuer) && StatusListed(methods, c) {
      EntryExists(lists, credentials, methods, orders, table, k, c);
    }
  }

  lemma SamePosition(ordered: seq<Credential>, m: nat, n: nat)
    requires IdsDistinct(ordered) && m < |ordered| && n < |ordered| && ordered[m] == ordered[n]
    ensures m == n
  {
  }

  lemma EntryExists(lists: seq<StoredList>, credentials: seq<Credential>, methods: map<Id, string>,
                    orders: seq<seq<Credential>>, table: seq<Entry>, k: nat, c: Credential)
    requires Filled(lists, |lists|, credentials, methods, orders, table)
    requires k < |lists| && c in credentials && c.issuer == Some(lists[k].issuer) && StatusListed(methods, c)
    ensures exists i :: IsRowOf(table, lists[k].id, c.id, i)
  {
    assert c in orders[k];
    var n :| 0 <= n < |orders[k]| && orders[k][n] == c;
    var e := Entry(c.createdDate, lists[k].id, n, c.id);
    assert EntryAt(lists[k], orders[k], methods, n, e);
    assert e in table;
    var i :| 0 <= i < |table| && table[i] == e;
    assert IsRowOf(table, lists[k].id, c.id, i);
  }

  lemma EntryOfCredential(lists: seq<StoredList>, credentials: seq<Credential>, methods: map<Id, string>,
                          orders: seq<seq<Credential>>, table: seq<Entry>, k: nat, c: Credential, e: Entry)
    requires ListIdsDistinct(lists) && IdsDistinct(credentials) && Filled(lists, |lists|, credentials, methods, orders, table)
    requires k < |lists| && c in credentials && e in table && e.list == lists[k].id && e.credential == c.id
    ensures e.index < |orders[k]| && orders[k][e.index] == c && StatusListed(methods, c) && c.issuer == Some(lists[k].issuer)
    ensures e == Entry(c.createdDate, lists[k].id, e.index, c.id)
  {
    var j, n :| 0 <= j < |lists| && 0 <= n < |orders[j]| && EntryAt(lists[j], orders[j], methods, n, e);
    assert j == k;
    assert orders[k][n] in orders[k];
    assert orders[k][n] in credentials && orders[k][n].id == c.id;
  }

  /** An entry stands at the position its index says in the creation order of its list. */
  lemma PositionOf(lists: seq<StoredList>, credentials: seq<Credential>, methods: map<Id, string>,
                   orders: seq<seq<Credential>>, table: seq<Entry>, e: Entry) returns (k: nat)
    requires Filled(lists, |lists|, credentials, methods, orders, table) && e in table
    ensures k < |lists| && e.list == lists[k].id && e.index < |orders[k]| && orders[k][e.index].createdDate == e.createdDate
  {
    var j, n :| 0 <= j < |lists| && 0 <= n < |orders[j]| && EntryAt(lists[j], orders[j], methods, n, e);
    k := j;
  }

  lemma EarlierStandsFirst(ordered: seq<Credential>, m: nat, n: nat)
    requires ByDate(ordered) && m < |ordered| && n < |ordered| && ordered[m].createdDate < ordered[n].createdDate
    ensures m < n
  {
  }

  /** Positions follow the order of creation. */
  lemma IndexFollowsCreation(lists: seq<StoredList>, credentials: seq<Credential>, methods: map<Id, string>,
                             orders: seq<seq<Credential>>, table: seq<Entry>, e: Entry, e': Entry)
    requires ListIdsDistinct(lists) && Filled(lists, |lists|, credentials, methods, orders, table)
    requires e in table && e' in table && e.list == e'.list && e.createdDate < e'.createdDate
    ensures e.index < e'.index
  {
    var k := PositionOf(lists, credentials, methods, orders, table, e);
    var k' := PositionOf(lists, credentials, methods, orders, table, e');
    assert k == k';
    EarlierStandsFirst(orders[k], e.index, e'.index);
  }
}
