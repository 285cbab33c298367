/** Translation of DCQL queries (section 6 of OpenID for Verifiable Presentations 1.0) into
    wallet filters (lib/dcql/src/matching.rs, lib/dcql/src/mapper.rs). */
module Dcql {
  import opened Wrappers
  import opened Paths

  datatype PathSegment = PropertyName(name: string) | ArrayIndex(index: nat) | ArrayAll

  type ClaimPath = seq<PathSegment>

  datatype ClaimValue = StringValue(text: string) | IntegerValue(number: int) | BooleanValue(flag: bool)

  datatype ClaimQuery = ClaimQuery(
    id: Option<string>, path: ClaimPath, values: Option<seq<ClaimValue>>, required: Option<bool>)

  datatype CredentialFormat = JwtVc | LdpVc | MsoMdoc | SdJwt | W3cSdJwt

  datatype CredentialMeta =
    | MsoMdocMeta(doctypeValue: string)
    | SdJwtVcMeta(vctValues: seq<string>)
    | W3cVcMeta(typeValues: seq<seq<string>>)

  datatype CredentialQuery = CredentialQuery(
    id: string, format: CredentialFormat, meta: CredentialMeta,
    claims: Option<seq<ClaimQuery>>, claimSets: Option<seq<seq<string>>>)

  datatype ClaimFilter = ClaimFilter(path: ClaimPath, values: seq<ClaimValue>, required: bool)

  datatype CredentialFilter = CredentialFilter(format: CredentialFormat, schemaIds: seq<string>, claims: seq<ClaimFilter>)

  datatype DcqlError = MissingClaimQueryId(path: ClaimPath) | UnknownClaimQueryId(id: string)

  // ----- What a query asks for

  /** The values a claim may have. */
  datatype Accepted = AnyValue | OneOf(values: seq<ClaimValue>)

  /** Whether a credential is let through by a claim at the path, with accepted values, that is
      required or optional. */
  type Reading = (ClaimPath, Accepted, bool) -> bool

  /** A claim query without values accepts any, and one that does not say so is required. */
  ghost predicate Asks(q: ClaimQuery, reading: Reading) {
    var accepted := if q.values.None? || q.values.value == [] then AnyValue else OneOf(q.values.value);
    reading(q.path, accepted, q.required != Some(false))
  }

  /** A claim filter restricts the values only if it lists some. */
  ghost predicate Lets(f: ClaimFilter, reading: Reading) {
    reading(f.path, if f.values == [] then AnyValue else OneOf(f.values), f.required)
  }

  ghost predicate ListsSchema(meta: CredentialMeta, schema: string) {
    match meta
    case MsoMdocMeta(doctype) => schema == doctype
    case SdJwtVcMeta(vcts) => schema in vcts
    case W3cVcMeta(types) => exists i :: 0 <= i < |types| && IsLastOf(types[i], schema)
  }

  ghost predicate Declares(claims: seq<ClaimQuery>, id: string) {
    exists i :: 0 <= i < |claims| && claims[i].id == Some(id)
  }

  /** `i` is where the claim id is declared last. */
  ghost predicate DeclaredLastAt(claims: seq<ClaimQuery>, id: string, i: nat) {
    && i < |claims| && claims[i].id == Some(id)
    && forall j | i < j < |claims| :: claims[j].id != Some(id)
  }

  ghost predicate PassesId(claims: seq<ClaimQuery>, id: string, reading: Reading) {
    exists i: nat :: DeclaredLastAt(claims, id, i) && Asks(claims[i], reading)
  }

  ghost predicate ClaimsMet(q: CredentialQuery, reading: Reading) {
    if q.claims.None? || q.claims.value == [] then true
    else if q.claimSets.None? then forall i | 0 <= i < |q.claims.value| :: Asks(q.claims.value[i], reading)
    else exists n :: 0 <= n < |q.claimSets.value| && SetMet(q.claims.value, q.claimSets.value[n], reading)
  }

  ghost predicate SetMet(claims: seq<ClaimQuery>, ids: seq<string>, reading: Reading) {
    forall m | 0 <= m < |ids| :: PassesId(claims, ids[m], reading)
  }

  /** A credential of this format and schema, on whose claims `reading` decides, meets the query. */
  ghost predicate Meets(q: CredentialQuery, format: CredentialFormat, schema: string, reading: Reading) {
    q.format == format && ListsSchema(q.meta, schema) && ClaimsMet(q, reading)
  }

  ghost predicate PassesFilter(f: CredentialFilter, format: CredentialFormat, schema: string, reading: Reading) {
    f.format == format && schema in f.schemaIds && forall i | 0 <= i < |f.claims| :: Lets(f.claims[i], reading)
  }

  ghost predicate PassesSome(fs: seq<CredentialFilter>, format: CredentialFormat, schema: string, reading: Reading) {
    exists n :: 0 <= n < |fs| && PassesFilter(fs[n], format, schema, reading)
  }

  // ----- What can be wrong with a query

  ghost predicate HasSets(q: CredentialQuery) {
    q.claims.Some? && q.claims.value != [] && q.claimSets.Some?
  }

  ghost predicate AllHaveIds(claims: seq<ClaimQuery>) {
    forall i | 0 <= i < |claims| :: claims[i].id.Some?
  }

  ghost predicate SetsDeclared(claims: seq<ClaimQuery>, sets: seq<seq<string>>) {
    forall n, m | 0 <= n < |sets| && 0 <= m < |sets[n]| :: Declares(claims, sets[n][m])
  }

  ghost predicate Faulty(q: CredentialQuery) {
    HasSets(q) && !(AllHaveIds(q.claims.value) && SetsDeclared(q.claims.value, q.claimSets.value))
  }

  /** The error names the first claim without id. */
  ghost predicate FirstMissing(claims: seq<ClaimQuery>, e: DcqlError) {
    exists i :: 0 <= i < |claims| && AllHaveIds(claims[..i]) && claims[i].id.None? && e == MissingClaimQueryId(claims[i].path)
  }

  /** The error names the first undeclared id, in the order of the sets and of the ids in them. */
  ghost predicate FirstUnknown(claims: seq<ClaimQuery>, sets: seq<seq<string>>, e: DcqlError) {
    exists n, m :: 0 <= n < |sets| && UnknownAt(claims, sets, n, m, e)
  }

  ghost predicate UnknownAt(claims: seq<ClaimQuery>, sets: seq<seq<string>>, n: int, m: int, e: DcqlError)
    requires 0 <= n < |sets|
  {
    && 0 <= m < |sets[n]| && SetsDeclared(claims, sets[..n]) && SetsDeclared(claims, [sets[n][..m]])
    && !Declares(claims, sets[n][m]) && e == UnknownClaimQueryId(sets[n][m])
  }

  /** A claim without id is reported before an undeclared id. */
  ghost predicate FirstFault(q: CredentialQuery, e: DcqlError) {
    && HasSets(q)
    && (|| FirstMissing(q.claims.value, e)
        || (AllHaveIds(q.claims.value) && FirstUnknown(q.claims.value, q.claimSets.value, e)))
  }

  // ----- The translation

  /** The last elements of the lists that have one, in order. */
  ghost function LastElements(types: seq<seq<string>>): seq<string> {
    if types == [] then []
    else
      var list := types[|types| - 1];
      LastElements(types[..|types| - 1]) + if list == [] then [] else [list[|list| - 1]]
  }

  ghost function ListedSchemas(meta: CredentialMeta): seq<string> {
    match meta
    case MsoMdocMeta(doctype) => [doctype]
    case SdJwtVcMeta(vcts) => vcts
    case W3cVcMeta(types) => LastElements(types)
  }

  ghost predicate IsLastOf(list: seq<string>, s: string) {
    list != [] && s == list[|list| - 1]
  }

  lemma {:induction false} LastElementsIn(types: seq<seq<string>>, s: string)
    ensures s in LastElements(types) <==> exists i :: 0 <= i < |types| && IsLastOf(types[i], s)
  {
    if |types| != 0 {
      var rest, list := types[..|types| - 1], types[|types| - 1];
      LastElementsIn(rest, s);
      if i :| 0 <= i < |rest| && IsLastOf(rest[i], s) {
        assert types[i] == rest[i];
      }
      if i :| 0 <= i < |types| && IsLastOf(types[i], s) {
        assert i < |rest| ==> rest[i] == types[i];
      }
      assert s in LastElements(types) <==> s in LastElements(rest) || IsLastOf(list, s);
    }
  }

  /** The schema ids of the base filter are those the metadata lists. */
  lemma ListedSchemasMeaning(meta: CredentialMeta, s: string)
    ensures s in ListedSchemas(meta) <==> ListsSchema(meta, s)
  {
    if meta.W3cVcMeta? {
      LastElementsIn(meta.typeValues, s);
    }
  }

  /** The schema ids of the base filter: for W3C credentials the last element of each list. */
  method SchemaIds(meta: CredentialMeta) returns (ids: seq<string>)
    ensures ids == ListedSchemas(meta)
  {
    match meta
    case MsoMdocMeta(doctype) =>
      ids := [doctype];
    case SdJwtVcMeta(vcts) =>
      ids := vcts;
    case W3cVcMeta(types) =>
      ids := [];
      for n := 0 to |types|
        invariant ids == LastElements(types[..n])
      {
        assert types[..n + 1][..n] == types[..n];
        if types[n] != [] {
          ids := ids + [types[n][|types[n]| - 1]];
        }
      }
      assert types[..|types|] == types;
  }

  function ToFilter(q: ClaimQuery): ClaimFilter {
    ClaimFilter(q.path, if q.values.Some? then q.values.value else [], if q.required.Some? then q.required.value else true)
  }

  /** The filter has the path and the values of the claim query, and is optional only if the
      claim query says so. */
  ghost predicate FilterOf(q: ClaimQuery, f: ClaimFilter) {
    && f.path == q.path && (f.required <==> q.required != Some(false))
    && (q.values.Some? ==> f.values == q.values.value) && (q.values.None? ==> f.values == [])
  }

  /** What a claim filter lets through is what the claim query asks for. */
  lemma FilterLetsWhatIsAsked(q: ClaimQuery, f: ClaimFilter, reading: Reading)
    requires FilterOf(q, f)
    ensures Lets(f, reading) <==> Asks(q, reading)
  {
  }

  lemma ToFilterIsFilterOf(q: ClaimQuery)
    ensures FilterOf(q, ToFilter(q))
  {
  }

  ghost predicate ById(claims: seq<ClaimQuery>, byId: map<string, ClaimFilter>) {
    forall id :: Entry(claims, byId, id)
  }

  ghost predicate IsFilterOf(claims: seq<ClaimQuery>, id: string, f: ClaimFilter) {
    exists i: nat :: DeclaredLastAt(claims, id, i) && FilterOf(claims[i], f)
  }

  ghost predicate Entry(claims: seq<ClaimQuery>, byId: map<string, ClaimFilter>, id: string) {
    (id in byId <==> Declares(claims, id)) && (id in byId ==> IsFilterOf(claims, id, byId[id]))
  }

  /** Later declarations of an id replace earlier ones. */
  method ClaimFiltersToMap(claims: seq<ClaimQuery>) returns (r: Result<map<string, ClaimFilter>, DcqlError>)
    ensures r.Ok? <==> AllHaveIds(claims)
    ensures r.Ok? ==> ById(claims, r.value)
    ensures r.Err? ==> FirstMissing(claims, r.error)
  {
    var byId: map<string, ClaimFilter> := map[];
    for n := 0 to |claims|
      invariant AllHaveIds(claims[..n])
      invariant ById(claims[..n], byId)
    {
      if claims[n].id.None? {
        return Err(MissingClaimQueryId(claims[n].path));
      }
      AddDeclaration(claims, n, byId);
      byId := byId[claims[n].id.value := ToFilter(claims[n])];
    }
    assert claims[..|claims|] == claims;
    return Ok(byId);
  }

  lemma AddDeclaration(claims: seq<ClaimQuery>, n: nat, byId: map<string, ClaimFilter>)
    requires n < |claims| && claims[n].id.Some? && ById(claims[..n], byId)
    ensures ById(claims[..n + 1], byId[claims[n].id.value := ToFilter(claims[n])])
  {
    var after, grown := claims[..n + 1], byId[claims[n].id.value := ToFilter(claims[n])];
    forall id
      ensures Entry(after, grown, id)
    {
      assert Entry(claims[..n], byId, id);
      assert claims[..n + 1] == claims[..n] + [claims[n]];
      if id == claims[n].id.value {
        NewDeclaration(claims[..n], claims[n]);
      } else {
        OldDeclaration(claims[..n], claims[n], id);
      }
    }
  }

  lemma NewDeclaration(claims: seq<ClaimQuery>, c: ClaimQuery)
    requires c.id.Some?
    ensures Declares(claims + [c], c.id.value) && IsFilterOf(claims + [c], c.id.value, ToFilter(c))
  {
    var all := claims + [c];
    assert all[|claims|] == c;
    assert DeclaredLastAt(all, c.id.value, |claims|);
    ToFilterIsFilterOf(c);
  }

  lemma OldDeclaration(claims: seq<ClaimQuery>, c: ClaimQuery, id: string)
    requires c.id != Some(id)
    ensures Declares(claims + [c], id) <==> Declares(claims, id)
    ensures forall f | IsFilterOf(claims, id, f) :: IsFilterOf(claims + [c], id, f)
  {
    var all := claims + [c];
    if Declares(claims, id) {
      var i :| 0 <= i < |claims| && claims[i].id == Some(id);
      assert all[i].id == Some(id);
    }
    forall f | IsFilterOf(claims, id, f)
      ensures IsFilterOf(all, id, f)
    {
      var i: nat :| DeclaredLastAt(claims, id, i) && FilterOf(claims[i], f);
      assert DeclaredLastAt(all, id, i) && all[i] == claims[i];
    }
  }

  /** The claim filters of one set, in the order of its ids. */
  ghost predicate IsSetOf(claims: seq<ClaimQuery>, ids: seq<string>, fs: seq<ClaimFilter>) {
    |fs| == |ids| && forall m | 0 <= m < |ids| :: IsFilterOf(claims, ids[m], fs[m])
  }

  method ClaimSetFilters(claims: seq<ClaimQuery>, byId: map<string, ClaimFilter>, ids: seq<string>) returns (r: Result<seq<ClaimFilter>, DcqlError>)
    requires ById(claims, byId)
    ensures r.Ok? <==> SetsDeclared(claims, [ids])
    ensures r.Ok? ==> IsSetOf(claims, ids, r.value)
    ensures r.Err? ==> exists m :: 0 <= m < |ids| && SetsDeclared(claims, [ids[..m]]) && !Declares(claims, ids[m])
                                   && r.error == UnknownClaimQueryId(ids[m])
  {
    var fs := [];
    for m := 0 to |ids|
      invariant IsSetOf(claims, ids[..m], fs)
      invariant SetsDeclared(claims, [ids[..m]])
    {
      assert Entry(claims, byId, ids[m]);
      if ids[m] !in byId {
        var all := [ids];
        assert all[0][m] == ids[m];
        return Err(UnknownClaimQueryId(ids[m]));
      }
      fs := fs + [byId[ids[m]]];
      assert ids[..m + 1] == ids[..m] + [ids[m]];
    }
    assert ids[..|ids|] == ids;
    return Ok(fs);
  }

  /** One filter per claim set, in their order, or one for all claims. */
  ghost predicate FiltersFor(base: CredentialFilter, claims: seq<ClaimQuery>, sets: Option<seq<seq<string>>>, fs: seq<CredentialFilter>) {
    if sets.None? then |fs| == 1 && fs[0] == base.(claims := fs[0].claims) && AreAllFilters(claims, fs[0].claims)
    else |fs| == |sets.value| && forall n | 0 <= n < |fs| ::
           fs[n] == base.(claims := fs[n].claims) && IsSetOf(claims, sets.value[n], fs[n].claims)
  }

  ghost predicate AreAllFilters(claims: seq<ClaimQuery>, fs: seq<ClaimFilter>) {
    |fs| == |claims| && forall i | 0 <= i < |claims| :: FilterOf(claims[i], fs[i])
  }

  function AllFilters(claims: seq<ClaimQuery>): seq<ClaimFilter> {
    seq(|claims|, i requires 0 <= i < |claims| => ToFilter(claims[i]))
  }

  lemma AllFiltersAre(claims: seq<ClaimQuery>)
    ensures AreAllFilters(claims, AllFilters(claims))
  {
    forall i | 0 <= i < |claims|
      ensures FilterOf(claims[i], AllFilters(claims)[i])
    {
      ToFilterIsFilterOf(claims[i]);
    }
  }

  method ProcessClaims(base: CredentialFilter, claims: seq<ClaimQuery>, sets: Option<seq<seq<string>>>) returns (r: Result<seq<CredentialFilter>, DcqlError>)
    ensures r.Ok? <==> sets.None? || (AllHaveIds(claims) && SetsDeclared(claims, sets.value))
    ensures r.Ok? ==> FiltersFor(base, claims, sets, r.value)
    ensures r.Err? ==> FirstMissing(claims, r.error) || (AllHaveIds(claims) && FirstUnknown(claims, sets.value, r.error))
  {
    if sets.None? {
      AllFiltersAre(claims);
      return Ok([base.(claims := AllFilters(claims))]);
    }
    var byId := ClaimFiltersToMap(claims);
    if byId.Err? {
      return Err(byId.error);
    }
    var filters := [];
    for n := 0 to |sets.value|
      invariant FiltersFor(base, claims, Some(sets.value[..n]), filters)
      invariant SetsDeclared(claims, sets.value[..n])
    {
      var claimFilters := ClaimSetFilters(claims, byId.value, sets.value[n]);
      SetDeclaredStep(claims, sets.value, n);
      if claimFilters.Err? {
        ghost var m :| 0 <= m < |sets.value[n]| && SetsDeclared(claims, [sets.value[n][..m]]) && !Declares(claims, sets.value[n][m])
                       && claimFilters.error == UnknownClaimQueryId(sets.value[n][m]);
        assert UnknownAt(claims, sets.value, n, m, claimFilters.error);
        return Err(claimFilters.error);
      }
      filters := filters + [base.(claims := claimFilters.value)];
    }
    assert sets.value[..|sets.value|] == sets.value;
    return Ok(filters);
  }

  lemma SetDeclaredStep(claims: seq<ClaimQuery>, sets: seq<seq<string>>, n: nat)
    requires n < |sets|
    ensures SetsDeclared(claims, sets[..n + 1]) <==> SetsDeclared(claims, sets[..n]) && SetsDeclared(claims, [sets[n]])
    ensures !SetsDeclared(claims, [sets[n]]) ==> !SetsDeclared(claims, sets)
  {
    var one, more := [sets[n]], sets[..n + 1];
    if SetsDeclared(claims, more) {
      forall m | 0 <= m < |sets[n]|
        ensures Declares(claims, sets[n][m])
      {
        assert more[n][m] == sets[n][m];
      }
    }
    if !SetsDeclared(claims, one) {
      var k, m :| 0 <= k < |one| && 0 <= m < |one[k]| && !Declares(claims, one[k][m]);
      assert sets[n][m] == one[k][m];
    }
  }

  /** The filters stored for one query. */
  ghost predicate Translated(q: CredentialQuery, fs: seq<CredentialFilter>) {
    var base := CredentialFilter(q.format, ListedSchemas(q.meta), []);
    if q.claims.None? || q.claims.value == [] then fs == [base]
    else FiltersFor(base, q.claims.value, q.claimSets, fs)
  }

  method QueryFilters(q: CredentialQuery) returns (r: Result<seq<CredentialFilter>, DcqlError>)
    ensures r.Ok? <==> !Faulty(q)
    ensures r.Ok? ==> Translated(q, r.value)
    ensures r.Err? ==> FirstFault(q, r.error)
  {
    var schemaIds := SchemaIds(q.meta);
    var base := CredentialFilter(q.format, schemaIds, []);
    if q.claims.Some? && q.claims.value != [] {
      r := ProcessClaims(base, q.claims.value, q.claimSets);
    } else {
      r := Ok([base]);
    }
  }

  /** `n` is the last query with this id. */
  ghost predicate LastQuery(qs: seq<CredentialQuery>, id: string, n: nat) {
    n < |qs| && qs[n].id == id && forall m | n < m < |qs| :: qs[m].id != id
  }

  ghost predicate Stored(qs: seq<CredentialQuery>, result: map<string, seq<CredentialFilter>>, id: string) {
    && (id in result <==> exists n :: 0 <= n < |qs| && qs[n].id == id)
    && (id in result ==> exists n: nat :: LastQuery(qs, id, n) && Translated(qs[n], result[id]))
  }

  /** The translation of a whole query.  It fails exactly when some credential query is faulty,
      with the first fault of the first faulty one; else each id has the filters of the last
      query with that id. */
  method CredentialFilters(qs: seq<CredentialQuery>) returns (r: Result<map<string, seq<CredentialFilter>>, DcqlError>)
    ensures r.Ok? <==> forall n | 0 <= n < |qs| :: !Faulty(qs[n])
    ensures r.Ok? ==> forall id :: Stored(qs, r.value, id)
    ensures r.Err? ==> exists n :: 0 <= n < |qs| && FirstFault(qs[n], r.error) && forall m | 0 <= m < n :: !Faulty(qs[m])
  {
    var result: map<string, seq<CredentialFilter>> := map[];
    for n := 0 to |qs|
      invariant forall m | 0 <= m < n :: !Faulty(qs[m])
      invariant forall id :: Stored(qs[..n], result, id)
    {
      var filters := QueryFilters(qs[n]);
      if filters.Err? {
        return Err(filters.error);
      }
      ghost var before, seen := result, qs[..n + 1];
      result := result[qs[n].id := filters.value];
      forall id
        ensures Stored(seen, result, id)
      {
        StoreStep(qs, n, before, filters.value, id);
      }
    }
    assert qs[..|qs|] == qs;
    return Ok(result);
  }

  lemma StoreStep(qs: seq<CredentialQuery>, n: nat, result: map<string, seq<CredentialFilter>>, fs: seq<CredentialFilter>, id: string)
    requires n < |qs| && Stored(qs[..n], result, id) && Translated(qs[n], fs)
    ensures Stored(qs[..n + 1], result[qs[n].id := fs], id)
  {
    var before, after := qs[..n], qs[..n + 1];
    assert after == before + [qs[n]];
    if id == qs[n].id {
      assert after[n] == qs[n];
      assert LastQuery(after, id, n);
    } else {
      if id in result {
        var m: nat :| LastQuery(before, id, m) && Translated(before[m], result[id]);
        assert LastQuery(after, id, m) && after[m] == before[m];
      }
      if m :| 0 <= m < |after| && after[m].id == id {
        assert before[m].id == id;
      }
    }
  }

  // ----- The filters mean what the query asks

  lemma IsFilterOfPasses(claims: seq<ClaimQuery>, id: string, f: ClaimFilter, reading: Reading)
    requires IsFilterOf(claims, id, f)
    ensures PassesId(claims, id, reading) <==> Lets(f, reading)
  {
    var i: nat :| DeclaredLastAt(claims, id, i) && FilterOf(claims[i], f);
    FilterLetsWhatIsAsked(claims[i], f, reading);
    assert forall j: nat | DeclaredLastAt(claims, id, j) :: j == i;
  }

  lemma SetPasses(claims: seq<ClaimQuery>, ids: seq<string>, fs: seq<ClaimFilter>, reading: Reading)
    requires IsSetOf(claims, ids, fs)
    ensures SetMet(claims, ids, reading) <==> forall m | 0 <= m < |fs| :: Lets(fs[m], reading)
  {
    forall m | 0 <= m < |ids|
      ensures PassesId(claims, ids[m], reading) <==> Lets(fs[m], reading)
    {
      IsFilterOfPasses(claims, ids[m], fs[m], reading);
    }
  }

  lemma AllPass(claims: seq<ClaimQuery>, fs: seq<ClaimFilter>, reading: Reading)
    requires AreAllFilters(claims, fs)
    ensures (forall i | 0 <= i < |fs| :: Lets(fs[i], reading)) <==> forall i | 0 <= i < |claims| :: Asks(claims[i], reading)
  {
    forall i | 0 <= i < |claims|
      ensures Lets(fs[i], reading) <==> Asks(claims[i], reading)
    {
      FilterLetsWhatIsAsked(claims[i], fs[i], reading);
    }
  }

  lemma FiltersPass(base: CredentialFilter, q: CredentialQuery, fs: seq<CredentialFilter>,
                    format: CredentialFormat, schema: string, reading: Reading)
    requires q.claims.Some? && q.claims.value != [] && FiltersFor(base, q.claims.value, q.claimSets, fs)
    ensures PassesSome(fs, format, schema, reading) <==>
              base.format == format && schema in base.schemaIds && ClaimsMet(q, reading)
  {
    var claims := q.claims.value;
    if q.claimSets.None? {
      AllPass(claims, fs[0].claims, reading);
      assert PassesSome(fs, format, schema, reading) <==> PassesFilter(fs[0], format, schema, reading);
    } else {
      forall n | 0 <= n < |fs|
        ensures PassesFilter(fs[n], format, schema, reading) <==>
                  base.format == format && schema in base.schemaIds && SetMet(claims, q.claimSets.value[n], reading)
      {
        SetPasses(claims, q.claimSets.value[n], fs[n].claims, reading);
      }
    }
  }

  /** Whatever a claim at a path, with accepted values, required or not, is taken to mean: a
      credential passes some filter of the translation exactly when it meets the query. */
  lemma TranslationPreservesMeaning(q: CredentialQuery, fs: seq<CredentialFilter>, format: CredentialFormat, schema: string, reading: Reading)
    requires Translated(q, fs)
    ensures PassesSome(fs, format, schema, reading) <==> Meets(q, format, schema, reading)
  {
    var base := CredentialFilter(q.format, ListedSchemas(q.meta), []);
    ListedSchemasMeaning(q.meta, schema);
    if q.claims.None? || q.claims.value == [] {
      assert PassesSome(fs, format, schema, reading) <==> PassesFilter(fs[0], format, schema, reading);
    } else {
      FiltersPass(base, q, fs, format, schema, reading);
    }
  }

  /** With distinct claim ids, leaving the claim sets out is the same as one set of all ids. */
  lemma NoSetsIsOneSet(base: CredentialFilter, claims: seq<ClaimQuery>, ids: seq<string>, a: seq<CredentialFilter>, b: seq<CredentialFilter>)
    requires |ids| == |claims| && Distinct(ids) && forall i | 0 <= i < |claims| :: claims[i].id == Some(ids[i])
    requires FiltersFor(base, claims, None, a) && FiltersFor(base, claims, Some([ids]), b)
    ensures a == b
  {
    var all, fs := a[0].claims, b[0].claims;
    forall m | 0 <= m < |ids|
      ensures fs[m] == all[m]
    {
      assert IsFilterOf(claims, [ids][0][m], fs[m]);
      var i: nat :| DeclaredLastAt(claims, ids[m], i) && FilterOf(claims[i], fs[m]);
      assert i == m;
    }
    assert fs == all;
  }
}
