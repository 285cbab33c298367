/** The migration that marks selectively disclosable claims of SD-JWT credentials
    (lib/migration/src/m20250818_090154_set_selectively_disclosable_on_sd_jwt_claims.rs),
    and its composition with the container-claim migration it relies on. */
module SdJwtMarking {
  import opened Wrappers
  import opened Paths
  import opened ClaimTree
  import opened ClaimStages
  import opened ContainerClaims

  datatype CredentialSchema = CredentialSchema(id: Id, format: string)

  datatype ClaimSchemaInfo = ClaimSchemaInfo(isArray: bool, selectivelyDisclosable: bool)

  const SD_JWT_FORMATS: set<string> := {"SD_JWT", "SD_JWT_VC", "SD_JWT_VC_SWIYU"}

  predicate IsSdJwt(format: string) {
    format == "SD_JWT" || format == "SD_JWT_VC" || format == "SD_JWT_VC_SWIYU"
  }

  // ----- Which keys are selectively disclosable

  /** No proper ancestor of the key is an array. */
  ghost predicate NoArrayAbove(t: Tree, k: Key) {
    forall a | a in t && a < k :: !t[a].isArray
  }

  lemma NoArrayAboveStep(t: Tree, k: Key)
    requires |k| > 1 && Parent(k) in t
    ensures NoArrayAbove(t, k) <==> NoArrayAbove(t, Parent(k)) && !t[Parent(k)].isArray
  {
    assert Parent(k) < k;
    assert forall a | a in t && a < k :: a == Parent(k) || a < Parent(k);
  }

  lemma RootHasNoArrayAbove(t: Tree, k: Key)
    requires |k| == 1 && [] !in t
    ensures NoArrayAbove(t, k)
  {
  }

  /** A path with its last component dropped together with that of its key. */
  lemma SameLast(p: Path, k: Key)
    requires p != [] && k != [] && Last(p) == Last(k)
    ensures p == k <==> Parent(p) == Parent(k)
  {
    assert p == Parent(p) + [Last(p)] && k == Parent(k) + [Last(k)];
  }

  /** A path equals its key exactly when it has no index in it: no array above, and not an
      array element itself. */
  lemma {:induction false} IndexFree(t: Tree, p: Path)
    requires WellFormedTree(t) && p != [] && Locate(t, p).At?
    ensures KeyOf(t, p) in t && |p| >= |KeyOf(t, p)|
    ensures p == KeyOf(t, p) <==> NoArrayAbove(t, KeyOf(t, p)) && (Locate(t, p).container || !t[KeyOf(t, p)].isArray)
    decreases |p|
  {
    LocateParent(t, p);
    var k := KeyOf(t, p);
    if !Locate(t, p).container && t[k].isArray {
      IndexFree(t, Parent(p));
    } else {
      SameLast(p, k);
      if Parent(p) == [] {
        RootHasNoArrayAbove(t, k);
      } else {
        IndexFree(t, Parent(p));
        NoArrayAboveStep(t, k);
      }
    }
  }

  // ----- The claims marked for an array schema

  ghost predicate SameGroup(claims: map<Id, Claim>, a: Id, b: Id)
    requires a in claims && b in claims
  {
    claims[a].credential == claims[b].credential && claims[a].schema == claims[b].schema
  }

  /** No other claim of the same credential and claim schema has a path this one starts with. */
  ghost predicate Top(claims: map<Id, Claim>, id: Id)
    requires id in claims
  {
    forall x | x in claims && SameGroup(claims, x, id) && claims[x].path <= claims[id].path :: x == id
  }

  /** Claim `x` is one of the chosen claims and speaks for claim `id`: same credential and claim
      schema, and its path is a textual prefix. */
  ghost predicate Covers(claims: map<Id, Claim>, tops: set<Id>, x: Id, id: Id)
    requires id in claims
  {
    x in tops && x in claims && SameGroup(claims, x, id) && claims[x].path <= claims[id].path
  }

  ghost predicate InGroup(groups: map<Id, seq<Id>>, c: Id, id: Id) {
    c in groups && id in groups[c]
  }

  /** The rows of one claim schema, ordered by path. */
  ghost predicate CandidateRows(claims: map<Id, Claim>, schema: Id, rows: seq<Id>) {
    && (forall i | 0 <= i < |rows| :: rows[i] in claims)
    && (forall id :: id in rows <==> id in claims && claims[id].schema == schema)
    && Distinct(rows)
    && Ascending(Keys(rows, (id: Id) => if id in claims then claims[id].path else ""))
  }

  /** A kept claim of the credential is a textual prefix of the claim. */
  ghost predicate PrefixKept(claims: map<Id, Claim>, groups: map<Id, seq<Id>>, id: Id)
    requires id in claims
  {
    exists x :: InGroup(groups, claims[id].credential, x) && x in claims && claims[x].path <= claims[id].path
  }

  /** Per credential, the kept claims among the first `i` rows: each of these rows has a kept
      prefix, and no kept path is a prefix of another. */
  ghost predicate GroupsSoFar(claims: map<Id, Claim>, rows: seq<Id>, i: nat, groups: map<Id, seq<Id>>)
    requires i <= |rows|
  {
    && (forall c, x | InGroup(groups, c, x) :: x in rows[..i] && x in claims && claims[x].credential == c)
    && (forall x | x in rows[..i] && x in claims :: PrefixKept(claims, groups, x))
    && (forall c, x, y | InGroup(groups, c, x) && InGroup(groups, c, y) && x in claims && y in claims
                         && claims[x].path <= claims[y].path :: x == y)
  }

  /** In path order no row is a proper prefix of an earlier one. */
  lemma NoPrefixOfEarlier(claims: map<Id, Claim>, schema: Id, rows: seq<Id>, i: nat, y: Id)
    requires CandidateRows(claims, schema, rows) && i < |rows| && y in rows[..i]
    requires claims[rows[i]].path <= claims[y].path
    ensures claims[rows[i]].path == claims[y].path
  {
    var j :| 0 <= j < i && rows[..i][j] == y;
    var texts := Keys(rows, (id: Id) => if id in claims then claims[id].path else "");
    assert texts[i] == claims[rows[i]].path && texts[j] == claims[y].path;
    if claims[rows[i]].path != claims[y].path {
      PrefixComesFirst(texts, i, j);
    }
  }

  lemma InGroupGrown(groups: map<Id, seq<Id>>, c: Id, entry: seq<Id>, d: Id, x: Id)
    ensures InGroup(groups[c := entry], d, x) <==> if d == c then x in entry else InGroup(groups, d, x)
  {
  }

  lemma KeptStays(claims: map<Id, Claim>, groups: map<Id, seq<Id>>, grown: map<Id, seq<Id>>, id: Id)
    requires id in claims && PrefixKept(claims, groups, id)
    requires forall d, x | InGroup(groups, d, x) :: InGroup(grown, d, x)
    ensures PrefixKept(claims, grown, id)
  {
    var x :| InGroup(groups, claims[id].credential, x) && x in claims && claims[x].path <= claims[id].path;
    assert InGroup(grown, claims[id].credential, x);
  }

  lemma GroupsStep(claims: map<Id, Claim>, schema: Id, rows: seq<Id>, i: nat, groups: map<Id, seq<Id>>, grown: map<Id, seq<Id>>)
    requires CandidateRows(claims, schema, rows) && i < |rows| && GroupsSoFar(claims, rows, i, groups)
    requires forall d, x :: InGroup(grown, d, x) <==>
               InGroup(groups, d, x) || (d == claims[rows[i]].credential && x == rows[i] && !PrefixKept(claims, groups, rows[i]))
    ensures GroupsSoFar(claims, rows, i + 1, grown)
  {
    var c := claims[rows[i]].credential;
    assert rows[..i + 1] == rows[..i] + [rows[i]];
    forall x | x in rows[..i + 1] && x in claims
      ensures PrefixKept(claims, grown, x)
    {
      if x in rows[..i] || PrefixKept(claims, groups, x) {
        KeptStays(claims, groups, grown, x);
      } else {
        assert InGroup(grown, c, rows[i]);
      }
    }
    forall d, x, y | InGroup(grown, d, x) && InGroup(grown, d, y) && x in claims && y in claims && claims[x].path <= claims[y].path
      ensures x == y
    {
      if x == rows[i] && x != y {
        NoPrefixOfEarlier(claims, schema, rows, i, y);
      }
    }
  }

  /** The kept claims cover every claim of the schema exactly once. */
  lemma GroupsToTops(claims: map<Id, Claim>, schema: Id, rows: seq<Id>, groups: map<Id, seq<Id>>, tops: set<Id>)
    requires CandidateRows(claims, schema, rows) && GroupsSoFar(claims, rows, |rows|, groups)
    requires forall x :: x in tops <==> exists c :: InGroup(groups, c, x)
    ensures ExactCover(claims, schema, tops)
  {
    assert rows[..|rows|] == rows;
    forall x | x in tops
      ensures x in claims && claims[x].schema == schema && InGroup(groups, claims[x].credential, x)
    {
      var c :| InGroup(groups, c, x);
      assert x in rows;
    }
    forall id | id in claims && claims[id].schema == schema
      ensures exists x :: Covers(claims, tops, x, id)
    {
      assert id in rows;
      var x :| InGroup(groups, claims[id].credential, x) && x in claims && claims[x].path <= claims[id].path;
      assert x in rows;
      assert Covers(claims, tops, x, id);
    }
    forall id, x, y | id in claims && Covers(claims, tops, x, id) && Covers(claims, tops, y, id)
      ensures x == y
    {
      assert claims[x].path <= claims[y].path || claims[y].path <= claims[x].path;
    }
  }

  /** The chosen claims are of the schema, and every claim of it is covered by exactly one. */
  ghost predicate ExactCover(claims: map<Id, Claim>, schema: Id, tops: set<Id>) {
    && (forall x | x in tops :: x in claims && claims[x].schema == schema)
    && (forall id | id in claims && claims[id].schema == schema :: exists x :: Covers(claims, tops, x, id))
    && (forall id, x, y | id in claims && Covers(claims, tops, x, id) && Covers(claims, tops, y, id) :: x == y)
  }

  /** Where no path of the credential occurs twice, those are the claims without a prefix. */
  lemma CoverIsTop(claims: map<Id, Claim>, schema: Id, tops: set<Id>, id: Id)
    requires ExactCover(claims, schema, tops) && id in claims && claims[id].schema == schema
    requires PathsUnique(claims, claims[id].credential)
    ensures id in tops <==> Top(claims, id)
  {
    if id in tops {
      forall x | x in claims && SameGroup(claims, x, id) && claims[x].path <= claims[id].path
        ensures x == id
      {
        var t :| Covers(claims, tops, t, x);
        assert Covers(claims, tops, t, id) && Covers(claims, tops, id, id);
      }
    } else {
      var x :| Covers(claims, tops, x, id);
    }
  }

  // ----- The walk over the claim schemas of one credential schema

  ghost predicate ParentClosed(schemas: seq<ClaimSchema>, owner: Id) {
    forall s | s in schemas && s.credentialSchema == owner && |Components(s.key)| > 1 ::
      HasKey(schemas, owner, Parent(Components(s.key)))
  }

  /** The key of the claim schema has a parent that no claim schema has as its key. */
  ghost predicate Orphan(schemas: seq<ClaimSchema>, owner: Id, s: ClaimSchema) {
    |Components(s.key)| > 1 && !HasKey(schemas, owner, Parent(Components(s.key)))
  }

  /** The walk comes to the claim schema: no key up to it lacks its parent. */
  ghost predicate Reached(schemas: seq<ClaimSchema>, owner: Id, s: ClaimSchema) {
    forall o | o in schemas && o.credentialSchema == owner && Orphan(schemas, owner, o) :: !AtMost(o.key, s.key)
  }

  ghost predicate HasKey(rows: seq<ClaimSchema>, owner: Id, k: Key) {
    exists s :: s in rows && s.credentialSchema == owner && Components(s.key) == k
  }

  ghost predicate OwnedBy(schemas: seq<ClaimSchema>, owner: Id, schema: Id) {
    exists s :: s in schemas && s.credentialSchema == owner && s.id == schema
  }

  /** The claim schemas of one credential schema, `ORDER BY key ASC`. */
  ghost predicate SchemaRows(schemas: seq<ClaimSchema>, owner: Id, rows: seq<ClaimSchema>) {
    && (forall s :: s in rows <==> s in schemas && s.credentialSchema == owner)
    && Ascending(Keys(rows, (s: ClaimSchema) => s.key))
  }

  ghost predicate KeySeen(seen: seq<ClaimSchema>, key: string) {
    exists s :: s in seen && s.key == key
  }

  ghost predicate ParentsExist(schemas: seq<ClaimSchema>, owner: Id, seen: seq<ClaimSchema>) {
    forall s | s in seen && |Components(s.key)| > 1 :: HasKey(schemas, owner, Parent(Components(s.key)))
  }

  ghost predicate FlagsRight(t: Tree, seen: seq<ClaimSchema>, info: map<string, ClaimSchemaInfo>) {
    forall s | s in seen ::
      s.key in info && info[s.key] == ClaimSchemaInfo(s.isArray, NoArrayAbove(t, Components(s.key)))
  }

  /** The flags stored for the first `i` claim schemas. */
  ghost predicate InfoSoFar(schemas: seq<ClaimSchema>, owner: Id, rows: seq<ClaimSchema>, i: nat, info: map<string, ClaimSchemaInfo>)
    requires i <= |rows|
  {
    && SchemaRows(schemas, owner, rows)
    && (forall key :: key in info <==> KeySeen(rows[..i], key))
    && ParentsExist(schemas, owner, rows[..i])
    && (KeysUnique(schemas, owner) ==> FlagsRight(TreeOf(schemas, owner), rows[..i], info))
  }

  /** In ascending order the parent of a key, if there is one, has been seen already. */
  lemma ParentMissing(schemas: seq<ClaimSchema>, owner: Id, rows: seq<ClaimSchema>, i: nat, info: map<string, ClaimSchemaInfo>)
    requires i < |rows| && InfoSoFar(schemas, owner, rows, i, info)
    requires RSplitOnce(rows[i].key).Some? && RSplitOnce(rows[i].key).value.0 !in info
    ensures rows[i] in schemas && rows[i].credentialSchema == owner && Orphan(schemas, owner, rows[i])
    ensures !ParentClosed(schemas, owner)
  {
    var row := rows[i];
    SplitDropsLast(row.key);
    var up := RSplitOnce(row.key).value.0;
    assert row in rows;
    if HasKey(schemas, owner, Parent(Components(row.key))) {
      var s :| s in schemas && s.credentialSchema == owner && Components(s.key) == Parent(Components(row.key));
      ComponentsInjective(s.key, up);
      var j :| 0 <= j < |rows| && rows[j] == s;
      var texts := Keys(rows, (s: ClaimSchema) => s.key);
      assert texts[j] < texts[i];
      PrefixComesFirst(texts, j, i);
    }
  }

  lemma AllParentsFound(schemas: seq<ClaimSchema>, owner: Id, rows: seq<ClaimSchema>, info: map<string, ClaimSchemaInfo>)
    requires InfoSoFar(schemas, owner, rows, |rows|, info)
    ensures ParentClosed(schemas, owner)
  {
    assert rows[..|rows|] == rows;
  }

  /** The rows before the first orphan are those the walk reaches. */
  lemma RowsBeforeOrphan(schemas: seq<ClaimSchema>, owner: Id, rows: seq<ClaimSchema>, i: nat, s: ClaimSchema)
    requires i < |rows| && SchemaRows(schemas, owner, rows) && ParentsExist(schemas, owner, rows[..i])
    requires Orphan(schemas, owner, rows[i]) && KeysUnique(schemas, owner)
    ensures s in rows[..i] <==> s in schemas && s.credentialSchema == owner && Reached(schemas, owner, s)
  {
    assert rows[i] in rows;
    if s in rows[..i] {
      var j :| 0 <= j < i && rows[..i][j] == s;
      forall o | o in schemas && o.credentialSchema == owner && Orphan(schemas, owner, o)
        ensures !AtMost(o.key, s.key)
      {
        OrphanComesLater(schemas, owner, rows, i, j, o);
      }
      assert rows[j] in rows;
    } else if s in schemas && s.credentialSchema == owner {
      LaterIsNotReached(schemas, owner, rows, i, s);
    }
  }

  lemma NotSeenYet(rows: seq<ClaimSchema>, i: nat, s: ClaimSchema) returns (n: nat)
    requires i <= |rows| && s in rows && s !in rows[..i]
    ensures i <= n < |rows| && rows[n] == s
  {
    assert rows == rows[..i] + rows[i..];
    var m :| 0 <= m < |rows[i..]| && rows[i..][m] == s;
    n := i + m;
  }

  lemma OrphanComesLater(schemas: seq<ClaimSchema>, owner: Id, rows: seq<ClaimSchema>, i: nat, j: nat, o: ClaimSchema)
    requires j < i <= |rows| && SchemaRows(schemas, owner, rows) && ParentsExist(schemas, owner, rows[..i])
    requires KeysUnique(schemas, owner) && o in schemas && o.credentialSchema == owner && Orphan(schemas, owner, o)
    ensures !AtMost(o.key, rows[j].key)
  {
    assert rows[j] in rows && rows[..i][j] == rows[j];
    var n := NotSeenYet(rows, i, o);
    var texts := Keys(rows, (s: ClaimSchema) => s.key);
    assert AtMost(texts[j], texts[n]);
    if AtMost(o.key, rows[j].key) {
      AtMostAntisymmetric(o.key, rows[j].key);
    }
  }

  lemma LaterIsNotReached(schemas: seq<ClaimSchema>, owner: Id, rows: seq<ClaimSchema>, i: nat, s: ClaimSchema)
    requires i < |rows| && SchemaRows(schemas, owner, rows) && Orphan(schemas, owner, rows[i])
    requires s in schemas && s.credentialSchema == owner && s !in rows[..i]
    ensures !Reached(schemas, owner, s)
  {
    var n := NotSeenYet(rows, i, s);
    assert rows[i] in rows;
    var texts := Keys(rows, (s: ClaimSchema) => s.key);
    if n == i {
      PrefixAtMost(s.key, s.key);
    } else {
      assert AtMost(texts[i], texts[n]);
    }
  }

  ghost predicate FlagFromParent(info: map<string, ClaimSchemaInfo>, key: string, flag: bool) {
    match RSplitOnce(key)
    case None => flag
    case Some(pair) => pair.0 in info && flag == (info[pair.0].selectivelyDisclosable && !info[pair.0].isArray)
  }

  /** The row a parent flag was stored for. */
  lemma ParentRow(schemas: seq<ClaimSchema>, owner: Id, rows: seq<ClaimSchema>, i: nat, info: map<string, ClaimSchemaInfo>) returns (up: ClaimSchema)
    requires i < |rows| && InfoSoFar(schemas, owner, rows, i, info)
    requires RSplitOnce(rows[i].key).Some? && RSplitOnce(rows[i].key).value.0 in info
    ensures up in rows[..i] && up in schemas && up.credentialSchema == owner && up.key == RSplitOnce(rows[i].key).value.0
    ensures |Components(rows[i].key)| > 1 && Components(up.key) == Parent(Components(rows[i].key))
  {
    up :| up in rows[..i] && up.key == RSplitOnce(rows[i].key).value.0;
    assert up in rows;
    SplitDropsLast(rows[i].key);
  }

  /** The flag computed from the parent's is "no array above". */
  lemma FlagIsRight(schemas: seq<ClaimSchema>, owner: Id, rows: seq<ClaimSchema>, i: nat, info: map<string, ClaimSchemaInfo>, flag: bool)
    requires i < |rows| && InfoSoFar(schemas, owner, rows, i, info) && KeysUnique(schemas, owner)
    requires FlagFromParent(info, rows[i].key, flag)
    ensures flag == NoArrayAbove(TreeOf(schemas, owner), Components(rows[i].key))
  {
    var t, k := TreeOf(schemas, owner), Components(rows[i].key);
    SplitDropsLast(rows[i].key);
    if |k| > 1 {
      var up := ParentRow(schemas, owner, rows, i, info);
      NodeInTree(schemas, owner, up);
      NoArrayAboveStep(t, k);
    } else {
      RootHasNoArrayAbove(t, k);
    }
  }

  lemma KeySeenStep(seen: seq<ClaimSchema>, row: ClaimSchema, key: string)
    ensures KeySeen(seen + [row], key) <==> KeySeen(seen, key) || key == row.key
  {
    if key == row.key {
      assert row in seen + [row];
    } else if KeySeen(seen, key) {
      var s :| s in seen && s.key == key;
      assert s in seen + [row];
    }
  }

  lemma FlagsStep(schemas: seq<ClaimSchema>, owner: Id, seen: seq<ClaimSchema>, row: ClaimSchema, info: map<string, ClaimSchemaInfo>)
    requires KeysUnique(schemas, owner) && FlagsRight(TreeOf(schemas, owner), seen, info)
    requires forall s | s in seen :: s in schemas && s.credentialSchema == owner
    requires row in schemas && row.credentialSchema == owner
    ensures var flag := NoArrayAbove(TreeOf(schemas, owner), Components(row.key));
            FlagsRight(TreeOf(schemas, owner), seen + [row], info[row.key := ClaimSchemaInfo(row.isArray, flag)])
  {
  }

  lemma KeysStep(seen: seq<ClaimSchema>, row: ClaimSchema, info: map<string, ClaimSchemaInfo>, entry: ClaimSchemaInfo)
    requires forall key :: key in info <==> KeySeen(seen, key)
    ensures forall key :: key in info[row.key := entry] <==> KeySeen(seen + [row], key)
  {
    forall key
      ensures KeySeen(seen + [row], key) <==> KeySeen(seen, key) || key == row.key
    {
      KeySeenStep(seen, row, key);
    }
  }

  lemma ParentsStep(schemas: seq<ClaimSchema>, owner: Id, rows: seq<ClaimSchema>, i: nat, info: map<string, ClaimSchemaInfo>, flag: bool)
    requires i < |rows| && InfoSoFar(schemas, owner, rows, i, info)
    requires FlagFromParent(info, rows[i].key, flag)
    ensures ParentsExist(schemas, owner, rows[..i] + [rows[i]])
  {
    SplitDropsLast(rows[i].key);
    if RSplitOnce(rows[i].key).Some? {
      var up := ParentRow(schemas, owner, rows, i, info);
      assert HasKey(schemas, owner, Parent(Components(rows[i].key)));
    }
  }

  /** The inherited flag is the absence of an array above, and stays so for all rows seen. */
  lemma FlagsStayRight(schemas: seq<ClaimSchema>, owner: Id, rows: seq<ClaimSchema>, i: nat, info: map<string, ClaimSchemaInfo>, flag: bool)
    requires i < |rows| && InfoSoFar(schemas, owner, rows, i, info) && KeysUnique(schemas, owner)
    requires FlagFromParent(info, rows[i].key, flag)
    ensures flag == NoArrayAbove(TreeOf(schemas, owner), Components(rows[i].key))
    ensures FlagsRight(TreeOf(schemas, owner), rows[..i] + [rows[i]], info[rows[i].key := ClaimSchemaInfo(rows[i].isArray, flag)])
  {
    FlagIsRight(schemas, owner, rows, i, info, flag);
    assert rows[i] in rows;
    forall s | s in rows[..i]
      ensures s in schemas && s.credentialSchema == owner
    {
      assert s in rows;
    }
    FlagsStep(schemas, owner, rows[..i], rows[i], info);
  }

  lemma InfoStep(schemas: seq<ClaimSchema>, owner: Id, rows: seq<ClaimSchema>, i: nat, info: map<string, ClaimSchemaInfo>, flag: bool)
    requires i < |rows| && InfoSoFar(schemas, owner, rows, i, info)
    requires FlagFromParent(info, rows[i].key, flag)
    ensures InfoSoFar(schemas, owner, rows, i + 1, info[rows[i].key := ClaimSchemaInfo(rows[i].isArray, flag)])
    ensures KeysUnique(schemas, owner) ==> flag == NoArrayAbove(TreeOf(schemas, owner), Components(rows[i].key))
  {
    assert rows[..i + 1] == rows[..i] + [rows[i]];
    KeysStep(rows[..i], rows[i], info, ClaimSchemaInfo(rows[i].isArray, flag));
    ParentsStep(schemas, owner, rows, i, info, flag);
    if KeysUnique(schemas, owner) {
      FlagsStayRight(schemas, owner, rows, i, info, flag);
    }
  }

  // ----- The claims the walk marks

  /** Claim schema `s` is the claim's own and marks it. */
  ghost predicate Marks(t: Tree, claims: map<Id, Claim>, s: ClaimSchema, id: Id)
    requires id in claims
  {
    claims[id].schema == s.id && NoArrayAbove(t, Components(s.key)) && (s.isArray ==> Top(claims, id))
  }

  ghost predicate Disclosed(schemas: seq<ClaimSchema>, owner: Id, claims: map<Id, Claim>, id: Id)
    requires KeysUnique(schemas, owner) && id in claims
  {
    exists s :: s in schemas && s.credentialSchema == owner && Marks(TreeOf(schemas, owner), claims, s, id)
  }

  /** The same, as far as the walk gets. */
  ghost predicate Walked(schemas: seq<ClaimSchema>, owner: Id, claims: map<Id, Claim>, id: Id)
    requires KeysUnique(schemas, owner) && id in claims
  {
    exists s :: s in schemas && s.credentialSchema == owner && Reached(schemas, owner, s)
                && Marks(TreeOf(schemas, owner), claims, s, id)
  }

  lemma ClosedIsReached(schemas: seq<ClaimSchema>, owner: Id, s: ClaimSchema)
    requires ParentClosed(schemas, owner)
    ensures Reached(schemas, owner, s)
  {
  }

  /** A walk that does not fail gets to every claim schema. */
  lemma WalkedIsDisclosed(schemas: seq<ClaimSchema>, owner: Id, claims: map<Id, Claim>, id: Id)
    requires KeysUnique(schemas, owner) && id in claims && ParentClosed(schemas, owner)
    ensures Walked(schemas, owner, claims, id) <==> Disclosed(schemas, owner, claims, id)
  {
    if Disclosed(schemas, owner, claims, id) {
      var s :| s in schemas && s.credentialSchema == owner && Marks(TreeOf(schemas, owner), claims, s, id);
      ClosedIsReached(schemas, owner, s);
    }
  }

  /** What is marked when the walk stops at row `i`. */
  lemma MarkedIsWalked(schemas: seq<ClaimSchema>, owner: Id, claims: map<Id, Claim>, seen: seq<ClaimSchema>, id: Id)
    requires KeysUnique(schemas, owner) && id in claims
    requires forall s :: s in seen <==> s in schemas && s.credentialSchema == owner && Reached(schemas, owner, s)
    ensures MarkedBy(schemas, owner, claims, seen, id) <==> Walked(schemas, owner, claims, id)
  {
  }

  ghost predicate MarkedBy(schemas: seq<ClaimSchema>, owner: Id, claims: map<Id, Claim>, rows: seq<ClaimSchema>, id: Id)
    requires KeysUnique(schemas, owner) && id in claims
  {
    exists s :: s in rows && Marks(TreeOf(schemas, owner), claims, s, id)
  }

  ghost predicate MarksSoFar(schemas: seq<ClaimSchema>, owner: Id, claims: map<Id, Claim>, rows: seq<ClaimSchema>, i: nat,
                             start: set<Id>, marked: set<Id>)
    requires i <= |rows|
  {
    && start <= marked
    && (forall id | id in marked && id !in start :: id in claims && OwnedBy(schemas, owner, claims[id].schema))
    && (KeysUnique(schemas, owner) ==>
          forall id | id in claims && PathsUnique(claims, claims[id].credential) ::
            id in marked <==> id in start || MarkedBy(schemas, owner, claims, rows[..i], id))
  }

  lemma MarksStep(schemas: seq<ClaimSchema>, owner: Id, claims: map<Id, Claim>, rows: seq<ClaimSchema>, i: nat,
                  start: set<Id>, marked: set<Id>, flag: bool, ids: set<Id>)
    requires i < |rows| && SchemaRows(schemas, owner, rows) && MarksSoFar(schemas, owner, claims, rows, i, start, marked)
    requires KeysUnique(schemas, owner) ==> flag == NoArrayAbove(TreeOf(schemas, owner), Components(rows[i].key))
    requires forall id | id in ids :: flag && id in claims && claims[id].schema == rows[i].id
    requires forall id | id in claims && claims[id].schema == rows[i].id && PathsUnique(claims, claims[id].credential) ::
               id in ids <==> flag && (rows[i].isArray ==> Top(claims, id))
    ensures MarksSoFar(schemas, owner, claims, rows, i + 1, start, marked + ids)
  {
    assert rows[..i + 1] == rows[..i] + [rows[i]];
    assert rows[i] in rows;
    if KeysUnique(schemas, owner) {
      var t := TreeOf(schemas, owner);
      forall id | id in claims && PathsUnique(claims, claims[id].credential)
        ensures id in marked + ids <==> id in start || MarkedBy(schemas, owner, claims, rows[..i + 1], id)
      {
        assert id in ids <==> Marks(t, claims, rows[i], id);
        assert MarkedBy(schemas, owner, claims, rows[..i + 1], id)
            <==> MarkedBy(schemas, owner, claims, rows[..i], id) || Marks(t, claims, rows[i], id);
      }
    }
  }

  ghost predicate MarksWalked(schemas: seq<ClaimSchema>, owner: Id, claims: map<Id, Claim>, start: set<Id>, marked: set<Id>) {
    KeysUnique(schemas, owner) ==>
      forall id | id in claims && PathsUnique(claims, claims[id].credential) ::
        id in marked <==> id in start || Walked(schemas, owner, claims, id)
  }

  /** A walk that fails has marked exactly what the rows before the first orphan disclose. */
  lemma StoppedWalk(schemas: seq<ClaimSchema>, owner: Id, claims: map<Id, Claim>, rows: seq<ClaimSchema>, i: nat,
                    start: set<Id>, marked: set<Id>)
    requires i < |rows| && SchemaRows(schemas, owner, rows) && ParentsExist(schemas, owner, rows[..i]) && Orphan(schemas, owner, rows[i])
    requires MarksSoFar(schemas, owner, claims, rows, i, start, marked)
    ensures MarksWalked(schemas, owner, claims, start, marked)
  {
    if KeysUnique(schemas, owner) {
      forall s
        ensures s in rows[..i] <==> s in schemas && s.credentialSchema == owner && Reached(schemas, owner, s)
      {
        RowsBeforeOrphan(schemas, owner, rows, i, s);
      }
      forall id | id in claims
        ensures MarkedBy(schemas, owner, claims, rows[..i], id) <==> Walked(schemas, owner, claims, id)
      {
        MarkedIsWalked(schemas, owner, claims, rows[..i], id);
      }
    }
  }

  lemma FinishedWalk(schemas: seq<ClaimSchema>, owner: Id, claims: map<Id, Claim>, rows: seq<ClaimSchema>,
                     start: set<Id>, marked: set<Id>)
    requires SchemaRows(schemas, owner, rows) && ParentClosed(schemas, owner)
    requires MarksSoFar(schemas, owner, claims, rows, |rows|, start, marked)
    ensures MarksWalked(schemas, owner, claims, start, marked)
  {
    assert rows[..|rows|] == rows;
    if KeysUnique(schemas, owner) {
      forall s
        ensures Reached(schemas, owner, s)
      {
        ClosedIsReached(schemas, owner, s);
      }
      forall id | id in claims
        ensures MarkedBy(schemas, owner, claims, rows, id) <==> Walked(schemas, owner, claims, id)
      {
        MarkedIsWalked(schemas, owner, claims, rows, id);
      }
    }
  }

  // ----- All SD-JWT credential schemas

  /** Only claims of SD-JWT credential schemas were marked. */
  ghost predicate OnlySdJwt(schemas: seq<ClaimSchema>, done: seq<CredentialSchema>, claims: map<Id, Claim>, start: set<Id>, marked: set<Id>) {
    && start <= marked
    && (forall id | id in marked && id !in start :: id in claims &&
          exists cs :: cs in done && IsSdJwt(cs.format) && OwnedBy(schemas, cs.id, claims[id].schema))
  }

  /** A claim of the credential schema is marked exactly when the walk gets to disclose it. */
  ghost predicate MarkedExactly(schemas: seq<ClaimSchema>, owner: Id, claims: map<Id, Claim>, start: set<Id>, marked: set<Id>)
    requires KeysUnique(schemas, owner)
  {
    forall id | id in claims && PathsUnique(claims, claims[id].credential) && OwnedBy(schemas, owner, claims[id].schema) ::
      id in marked <==> id in start || Walked(schemas, owner, claims, id)
  }

  ghost predicate MarkedByFormat(schemas: seq<ClaimSchema>, done: seq<CredentialSchema>, claims: map<Id, Claim>, start: set<Id>, marked: set<Id>) {
    && OnlySdJwt(schemas, done, claims, start, marked)
    && (forall cs | cs in done && IsSdJwt(cs.format) && KeysUnique(schemas, cs.id) ::
          MarkedExactly(schemas, cs.id, claims, start, marked))
  }

  lemma OneOwner(schemas: seq<ClaimSchema>, a: Id, b: Id, schema: Id)
    requires Distinct(Listing(schemas)) && OwnedBy(schemas, a, schema) && OwnedBy(schemas, b, schema)
    ensures a == b
  {
    var l := Listing(schemas);
    var s :| s in schemas && s.credentialSchema == a && s.id == schema;
    var s' :| s' in schemas && s'.credentialSchema == b && s'.id == schema;
    var i :| 0 <= i < |schemas| && schemas[i] == s;
    var j :| 0 <= j < |schemas| && schemas[j] == s';
    assert l[i] == l[j];
  }

  lemma OnlySdJwtStep(schemas: seq<ClaimSchema>, done: seq<CredentialSchema>, cs: CredentialSchema, claims: map<Id, Claim>,
                      start: set<Id>, before: set<Id>, marked: set<Id>)
    requires OnlySdJwt(schemas, done, claims, start, before) && before <= marked
    requires forall id | id in marked && id !in before ::
               IsSdJwt(cs.format) && id in claims && OwnedBy(schemas, cs.id, claims[id].schema)
    ensures OnlySdJwt(schemas, done + [cs], claims, start, marked)
  {
    forall id | id in marked && id !in start
      ensures id in claims && exists x :: x in done + [cs] && IsSdJwt(x.format) && OwnedBy(schemas, x.id, claims[id].schema)
    {
      if id in before {
        var x :| x in done && IsSdJwt(x.format) && OwnedBy(schemas, x.id, claims[id].schema);
        assert x in done + [cs];
      } else {
        assert cs in done + [cs];
      }
    }
  }

  lemma FormatStep(schemas: seq<ClaimSchema>, done: seq<CredentialSchema>, cs: CredentialSchema, claims: map<Id, Claim>,
                   start: set<Id>, before: set<Id>, marked: set<Id>)
    requires Distinct(Listing(schemas)) && MarkedByFormat(schemas, done, claims, start, before) && before <= marked
    requires forall x | x in done :: x.id != cs.id
    requires forall id | id in marked && id !in before ::
               IsSdJwt(cs.format) && id in claims && OwnedBy(schemas, cs.id, claims[id].schema)
    requires IsSdJwt(cs.format) && KeysUnique(schemas, cs.id) ==>
               forall id | id in claims && PathsUnique(claims, claims[id].credential) ::
                 id in marked <==> id in before || Walked(schemas, cs.id, claims, id)
    ensures MarkedByFormat(schemas, done + [cs], claims, start, marked)
  {
    OnlySdJwtStep(schemas, done, cs, claims, start, before, marked);
    forall x | x in done + [cs] && IsSdJwt(x.format) && KeysUnique(schemas, x.id)
      ensures MarkedExactly(schemas, x.id, claims, start, marked)
    {
      forall id | id in claims && PathsUnique(claims, claims[id].credential) && OwnedBy(schemas, x.id, claims[id].schema)
        ensures id in marked <==> id in start || Walked(schemas, x.id, claims, id)
      {
        if x == cs {
          if id in before && id !in start {
            var y :| y in done && IsSdJwt(y.format) && OwnedBy(schemas, y.id, claims[id].schema);
            OneOwner(schemas, y.id, x.id, claims[id].schema);
          }
        } else {
          assert MarkedExactly(schemas, x.id, claims, start, before);
          if id in marked && id !in before {
            OneOwner(schemas, cs.id, x.id, claims[id].schema);
          }
        }
      }
    }
  }

  // ----- Composition with the container migration

  /** In a migrated credential the top claims of an array schema without an array above are its
      containers: the elements start with the path of their container. */
  lemma TopIsContainer(w: World, db: Tables, c: Id, id: Id)
    requires WellFormed(w) && Migrated(w, db, c) && OfCredential(db, c, id)
    requires var k := KeyOf(w.tree, PathOf(db, id)); k in w.tree && w.tree[k].isArray && NoArrayAbove(w.tree, k)
    ensures Top(db.claims, id) <==> Locate(w.tree, PathOf(db, id)).container
  {
    var p := PathOf(db, id);
    var k := KeyOf(w.tree, p);
    assert GoodRow(w, db, id);
    PresentLocated(w, p);
    IndexFree(w.tree, p);
    if Locate(w.tree, p).container {
      forall x | x in db.claims && SameGroup(db.claims, x, id) && db.claims[x].path <= db.claims[id].path
        ensures x == id
      {
        ContainerHasNoPrefix(w, db, c, id, x);
      }
    } else {
      LocateParent(w.tree, p);
      PresentParent(w, p);
      var x :| RowAt(db, c, x, Parent(p));
      assert GoodRow(w, db, x);
      AncestorStartsWith(db.claims[x].path, db.claims[id].path);
      assert SameGroup(db.claims, x, id) && x != id;
    }
  }

  lemma ContainerHasNoPrefix(w: World, db: Tables, c: Id, id: Id, x: Id)
    requires WellFormed(w) && Migrated(w, db, c) && OfCredential(db, c, id)
    requires PathOf(db, id) == KeyOf(w.tree, PathOf(db, id))
    requires x in db.claims && SameGroup(db.claims, x, id) && db.claims[x].path <= db.claims[id].path
    ensures x == id
  {
    var p, q := PathOf(db, id), PathOf(db, x);
    assert GoodRow(w, db, id) && OfCredential(db, c, x) && GoodRow(w, db, x);
    PresentLocated(w, q);
    IndexFree(w.tree, q);
    StartsWithMeaning(db.claims[x].path, db.claims[id].path);
    assert KeyOf(w.tree, q) == p && |q| == |p|;
    LocateParent(w.tree, q);
    if !Locate(w.tree, q).container && w.tree[p].isArray {
      IndexFree(w.tree, Parent(q));
    } else {
      IndexFree(w.tree, p);
      ComponentsInjective(db.claims[x].path, db.claims[id].path);
    }
  }

  /** In a migrated credential the walk discloses exactly the claims whose path is their key. */
  lemma DisclosedIffPathIsKey(schemas: seq<ClaimSchema>, owner: Id, w: World, db: Tables, c: Id, id: Id)
    requires KeysUnique(schemas, owner) && w.tree == TreeOf(schemas, owner)
    requires WellFormed(w) && Migrated(w, db, c) && OfCredential(db, c, id)
    ensures OwnedBy(schemas, owner, db.claims[id].schema)
    ensures Disclosed(schemas, owner, db.claims, id) <==> PathOf(db, id) == KeyOf(w.tree, PathOf(db, id))
  {
    var p := PathOf(db, id);
    assert GoodRow(w, db, id);
    PresentLocated(w, p);
    IndexFree(w.tree, p);
    var s := TreeNode(schemas, owner, KeyOf(w.tree, p));
    if s.isArray && NoArrayAbove(w.tree, KeyOf(w.tree, p)) {
      TopIsContainer(w, db, c, id);
    }
    assert Disclosed(schemas, owner, db.claims, id) <==> Marks(w.tree, db.claims, s, id) by {
      forall x | x in schemas && x.credentialSchema == owner && Marks(w.tree, db.claims, x, id)
        ensures x == s
      {
        NodeInTree(schemas, owner, x);
        NodeInTree(schemas, owner, s);
      }
    }
  }

  lemma WellFormedIsParentClosed(schemas: seq<ClaimSchema>, owner: Id)
    requires KeysUnique(schemas, owner) && WellFormedTree(TreeOf(schemas, owner))
    ensures ParentClosed(schemas, owner)
  {
    forall s | s in schemas && s.credentialSchema == owner && |Components(s.key)| > 1
      ensures HasKey(schemas, owner, Parent(Components(s.key)))
    {
      NodeInTree(schemas, owner, s);
      var up := TreeNode(schemas, owner, Parent(Components(s.key)));
    }
  }

  /** The claim's path is the key of its claim schema: it has no array index. */
  ghost predicate PathIsKey(schemas: seq<ClaimSchema>, owner: Id, claim: Claim) {
    exists s :: s in schemas && s.credentialSchema == owner && s.id == claim.schema && s.key == claim.path
  }

  lemma PathIsKeyMeaning(schemas: seq<ClaimSchema>, owner: Id, w: World, db: Tables, c: Id, id: Id)
    requires KeysUnique(schemas, owner) && w.tree == TreeOf(schemas, owner)
    requires WellFormed(w) && Migrated(w, db, c) && OfCredential(db, c, id)
    ensures PathIsKey(schemas, owner, db.claims[id]) <==> PathOf(db, id) == KeyOf(w.tree, PathOf(db, id))
  {
    assert GoodRow(w, db, id);
    var k := KeyOf(w.tree, PathOf(db, id));
    var s := TreeNode(schemas, owner, k);
    if PathOf(db, id) == k {
      ComponentsInjective(s.key, db.claims[id].path);
    }
    if x :| x in schemas && x.credentialSchema == owner && x.id == db.claims[id].schema && x.key == db.claims[id].path {
      NodeInTree(schemas, owner, x);
    }
  }

  class Marker {
    const schemas: seq<ClaimSchema>
    const credentialSchemas: seq<CredentialSchema>
    const claims: map<Id, Claim>
    var marked: set<Id> // the claims whose selectively_disclosable column is true

    constructor (schemas: seq<ClaimSchema>, credentialSchemas: seq<CredentialSchema>, claims: map<Id, Claim>, marked: set<Id>)
      ensures this.schemas == schemas && this.credentialSchemas == credentialSchemas
      ensures this.claims == claims && this.marked == marked
    {
      this.schemas := schemas;
      this.credentialSchemas := credentialSchemas;
      this.claims := claims;
      this.marked := marked;
    }

    method SelectCandidates(schema: Id) returns (rows: seq<Id>)
      ensures CandidateRows(claims, schema, rows)
    {
      var found := [];
      var todo := set id | id in claims && claims[id].schema == schema;
      while todo != {}
        invariant forall id :: (id in claims && claims[id].schema == schema) <==> id in todo || id in found
        invariant forall id | id in found :: id !in todo
        invariant Distinct(found)
        decreases |todo|
      {
        var id := Pick(todo);
        found := found + [id];
        todo := todo - {id};
      }
      rows := OrderBy(found, (id: Id) => if id in claims then claims[id].path else "");
      assert forall i | 0 <= i < |rows| :: rows[i] in rows;
    }

    /** The fold over the ordered candidates: per credential, the claims no earlier kept claim
        is a textual prefix of. */
    method TopClaims(schema: Id) returns (tops: set<Id>)
      ensures ExactCover(claims, schema, tops)
      ensures forall id | id in tops :: id in claims && claims[id].schema == schema
      ensures forall id | id in claims && claims[id].schema == schema && PathsUnique(claims, claims[id].credential) ::
                id in tops <==> Top(claims, id)
    {
      var rows := SelectCandidates(schema);
      var groups: map<Id, seq<Id>> := map[];
      for i := 0 to |rows|
        invariant GroupsSoFar(claims, rows, i, groups)
      {
        var claim := claims[rows[i]];
        ghost var before := groups;
        var entry := if claim.credential in groups then groups[claim.credential] else [];
        if !exists x | x in entry :: x in claims && claims[x].path <= claim.path {
          entry := entry + [rows[i]];
        }
        groups := groups[claim.credential := entry];
        forall d, x
          ensures InGroup(groups, d, x) <==>
                    InGroup(before, d, x) || (d == claim.credential && x == rows[i] && !PrefixKept(claims, before, rows[i]))
        {
          InGroupGrown(before, claim.credential, entry, d, x);
        }
        GroupsStep(claims, schema, rows, i, before, groups);
      }
      tops := set c, x | c in groups && x in groups[c] :: x;
      assert forall c, x | c in groups && x in groups[c] :: InGroup(groups, c, x);
      GroupsToTops(claims, schema, rows, groups, tops);
      forall id | id in claims && claims[id].schema == schema && PathsUnique(claims, claims[id].credential)
        ensures id in tops <==> Top(claims, id)
      {
        CoverIsTop(claims, schema, tops, id);
      }
    }

    method SelectClaimSchemas(owner: Id) returns (rows: seq<ClaimSchema>)
      ensures SchemaRows(schemas, owner, rows)
    {
      var found := [];
      for i := 0 to |schemas|
        invariant forall s :: s in found <==> s in schemas[..i] && s.credentialSchema == owner
      {
        assert schemas[..i + 1] == schemas[..i] + [schemas[i]];
        if schemas[i].credentialSchema == owner {
          found := found + [schemas[i]];
        }
      }
      assert schemas[..|schemas|] == schemas;
      rows := OrderBy(found, (s: ClaimSchema) => s.key);
    }

    /** Walk the claim schemas of one credential schema from the root to the leaves.  It fails
        exactly when some key has no parent among them. */
    method ProcessCredentialSchema(owner: Id) returns (ok: bool)
      modifies this
      ensures ok <==> ParentClosed(schemas, owner)
      ensures old(marked) <= marked
      ensures forall id | id in marked && id !in old(marked) :: id in claims && OwnedBy(schemas, owner, claims[id].schema)
      ensures KeysUnique(schemas, owner) ==>
                forall id | id in claims && PathsUnique(claims, claims[id].credential) ::
                  id in marked <==> id in old(marked) || Walked(schemas, owner, claims, id)
    {
      var rows := SelectClaimSchemas(owner);
      var info: map<string, ClaimSchemaInfo> := map[];
      for i := 0 to |rows|
        invariant InfoSoFar(schemas, owner, rows, i, info)
        invariant MarksSoFar(schemas, owner, claims, rows, i, old(marked), marked)
      {
        var row := rows[i];
        var split := RSplitOnce(row.key);
        var selectivelyDisclosable := true;
        if split.Some? {
          if split.value.0 !in info {
            ParentMissing(schemas, owner, rows, i, info);
            StoppedWalk(schemas, owner, claims, rows, i, old(marked), marked);
            return false;
          }
          var parent := info[split.value.0];
          selectivelyDisclosable := parent.selectivelyDisclosable && !parent.isArray;
        }
        ghost var before, chosen: set<Id> := marked, {};
        if selectivelyDisclosable {
          var ids;
          if row.isArray {
            ids := TopClaims(row.id);
          } else {
            ids := set id | id in claims && claims[id].schema == row.id;
          }
          marked := marked + ids;
          chosen := ids;
        }
        InfoStep(schemas, owner, rows, i, info, selectivelyDisclosable);
        MarksStep(schemas, owner, claims, rows, i, old(marked), before, selectivelyDisclosable, chosen);
        info := info[row.key := ClaimSchemaInfo(row.isArray, selectivelyDisclosable)];
      }
      AllParentsFound(schemas, owner, rows, info);
      FinishedWalk(schemas, owner, claims, rows, old(marked), marked);
      return true;
    }

    /** All credential schemas with an SD-JWT format; a failing one is logged and skipped. */
    method Up()
      requires Distinct(Listing(schemas))
      requires forall a, b | 0 <= a < b < |credentialSchemas| :: credentialSchemas[a].id != credentialSchemas[b].id
      modifies this
      ensures MarkedByFormat(schemas, credentialSchemas, claims, old(marked), marked)
    {
      for n := 0 to |credentialSchemas|
        invariant MarkedByFormat(schemas, credentialSchemas[..n], claims, old(marked), marked)
      {
        ghost var before := marked;
        var cs := credentialSchemas[n];
        if cs.format in SD_JWT_FORMATS {
          var _ := ProcessCredentialSchema(cs.id);
        }
        assert credentialSchemas[..n + 1] == credentialSchemas[..n] + [cs];
        FormatStep(schemas, credentialSchemas[..n], cs, claims, old(marked), before, marked);
      }
      assert credentialSchemas[..|credentialSchemas|] == credentialSchemas;
    }
  }

  /** What the two steps give for one claim of a migrated credential. */
  lemma MarkedIffDisclosed(schemas: seq<ClaimSchema>, db: Tables, c: Id, cs: CredentialSchema,
                           credentialSchemas: seq<CredentialSchema>, before: set<Id>, marked: set<Id>, id: Id)
    requires KeysUnique(schemas, cs.id) && ParentClosed(schemas, cs.id) && PathsUnique(db.claims, c)
    requires MarkedByFormat(schemas, credentialSchemas, db.claims, before, marked)
    requires cs in credentialSchemas && IsSdJwt(cs.format)
    requires OfCredential(db, c, id) && OwnedBy(schemas, cs.id, db.claims[id].schema)
    ensures id in marked <==> id in before || Disclosed(schemas, cs.id, db.claims, id)
  {
    assert MarkedExactly(schemas, cs.id, db.claims, before, marked);
    WalkedIsDisclosed(schemas, cs.id, db.claims, id);
  }

  lemma MarkedIffPathIsKey(schemas: seq<ClaimSchema>, start: Tables, db: Tables, cr: Credential, cs: CredentialSchema,
                           credentialSchemas: seq<CredentialSchema>, before: set<Id>, marked: set<Id>, id: Id)
    requires LeafOnly(schemas, start, cr) && Migrated(WorldOf(schemas, start, cr), db, cr.id)
    requires MarkedByFormat(schemas, credentialSchemas, db.claims, before, marked)
    requires cs in credentialSchemas && cs.id == cr.schema && IsSdJwt(cs.format)
    requires OfCredential(db, cr.id, id)
    ensures id in marked <==> id in before || PathIsKey(schemas, cr.schema, db.claims[id])
  {
    var w := WorldOf(schemas, start, cr);
    WellFormedIsParentClosed(schemas, cr.schema);
    DisclosedIffPathIsKey(schemas, cr.schema, w, db, cr.id, id);
    PathIsKeyMeaning(schemas, cr.schema, w, db, cr.id, id);
    MarkedIffDisclosed(schemas, db, cr.id, cs, credentialSchemas, before, marked, id);
  }

  /** Both migrations in turn: among the claims of an SD-JWT credential that was leaf-only, those
      marked are the ones whose path is the key of their schema.  So array containers are
      marked, and array elements and everything below them are not. */
  method InsertContainersThenMark(db: Database, cutoff: int, credentialSchemas: seq<CredentialSchema>, marked: set<Id>)
    returns (marker: Marker)
    requires db.Valid() && Distinct(Listing(db.schemas))
    requires forall a, b | 0 <= a < b < |credentialSchemas| :: credentialSchemas[a].id != credentialSchemas[b].id
    requires marked <= db.claims.Keys
    modifies db
    ensures fresh(marker) && marker.claims == db.claims && marked <= marker.marked
    ensures forall cr, cs, id | old(db.InScope(db.Rows(), cutoff, cr)) && cs in credentialSchemas && cs.id == cr.schema
                                && IsSdJwt(cs.format) && OfCredential(db.Rows(), cr.id, id) ::
              id in marker.marked <==> id in marked || PathIsKey(db.schemas, cr.schema, db.claims[id])
  {
    db.Up(cutoff);
    marker := new Marker(db.schemas, credentialSchemas, db.claims, marked);
    marker.Up();
    ghost var start, done := old(db.Rows()), db.Rows();
    forall cr, cs, id | db.InScope(start, cutoff, cr) && cs in credentialSchemas && cs.id == cr.schema
                        && IsSdJwt(cs.format) && OfCredential(done, cr.id, id)
      ensures id in marker.marked <==> id in marked || PathIsKey(db.schemas, cr.schema, done.claims[id])
    {
      MarkedIffPathIsKey(db.schemas, start, done, cr, cs, credentialSchemas, marked, marker.marked, id);
    }
  }
}
