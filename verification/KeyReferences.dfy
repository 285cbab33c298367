/** References of DID keys (lib/migration/src/m20250728_090404_did_key_reference.rs). */
module KeyReferences {
  import opened Wrappers

  datatype Did = Did(did: string, didMethod: string)

  datatype KeyDid = KeyDid(did: Id, key: string, role: string, reference: Option<string>)

  const DID_KEY_PREFIX: string := "did:key:"

  /** The reference of a key in its DID; none for an unknown method or a malformed did:key. */
  function Reference(d: Did, key: string): Option<string> {
    if d.didMethod == "KEY" then
      if DID_KEY_PREFIX <= d.did then Some(d.did[|DID_KEY_PREFIX|..]) else None
    else if d.didMethod == "JWK" then Some("0")
    else if d.didMethod == "WEB" || d.didMethod == "WEBVH" then Some("key-" + key)
    else None
  }

  /** The method is none of the four known ones, or the DID is not of the form of its method. */
  predicate Stops(d: Did) {
    || (d.didMethod != "KEY" && d.didMethod != "JWK" && d.didMethod != "WEB" && d.didMethod != "WEBVH")
    || (d.didMethod == "KEY" && !("did:key:" <= d.did))
  }

  /** How a key is referred to: by the rest of a did:key, as key 0 of a did:jwk, and by its own id
      in a web DID. */
  predicate RefersTo(d: Did, key: string, reference: string) {
    && !Stops(d)
    && (d.didMethod == "KEY" ==> "did:key:" + reference == d.did)
    && (d.didMethod == "JWK" ==> reference == "0")
    && (d.didMethod == "WEB" || d.didMethod == "WEBVH" ==> reference == "key-" + key)
  }

  lemma ReferenceMeaning(d: Did, key: string)
    ensures Reference(d, key).None? <==> Stops(d)
    ensures Reference(d, key).Some? ==> RefersTo(d, key, Reference(d, key).value)
  {
  }

  /** Two keys of a web DID never share a reference. */
  lemma KeysKeepApart(d: Did, key: string, key': string, reference: string)
    requires (d.didMethod == "WEB" || d.didMethod == "WEBVH") && RefersTo(d, key, reference) && RefersTo(d, key', reference)
    ensures key == key'
  {
    assert key == ("key-" + key)[4..] && key' == ("key-" + key')[4..];
  }

  ghost predicate Resolvable(dids: map<Id, Did>, r: KeyDid) {
    r.did in dids ==> !Stops(dids[r.did])
  }

  /** The row has the reference of its own DID and key, and is otherwise as before. */
  ghost predicate Referenced(dids: map<Id, Did>, before: KeyDid, after: KeyDid) {
    if before.did in dids then
      && after.did == before.did && after.key == before.key && after.role == before.role
      && after.reference.Some? && RefersTo(dids[before.did], before.key, after.reference.value)
    else after == before
  }

  ghost predicate Occurs(rows: seq<KeyDid>, p: (Id, string)) {
    exists i :: 0 <= i < |rows| && rows[i].did == p.0 && rows[i].key == p.1
  }

  lemma OccursMore(rows: seq<KeyDid>, n: nat, p: (Id, string))
    requires n < |rows|
    ensures Occurs(rows[..n + 1], p) <==> Occurs(rows[..n], p) || (rows[n].did == p.0 && rows[n].key == p.1)
  {
    var more, fewer := rows[..n + 1], rows[..n];
    if i :| 0 <= i < |fewer| && fewer[i].did == p.0 && fewer[i].key == p.1 {
      assert more[i] == fewer[i];
    }
    assert more[n] == rows[n];
    if i :| 0 <= i < |more| && more[i].did == p.0 && more[i].key == p.1 {
      assert i < n ==> fewer[i] == more[i];
    }
  }

  /** The mapping holds the reference of every pair of DID and key seen, and nothing else. */
  ghost predicate MappingOf(dids: map<Id, Did>, rows: seq<KeyDid>, mapping: map<(Id, string), string>) {
    && (forall i | 0 <= i < |rows| && rows[i].did in dids :: (rows[i].did, rows[i].key) in mapping)
    && (forall p | p in mapping :: p.0 in dids && RefersTo(dids[p.0], p.1, mapping[p]))
    && (forall p | p in mapping :: Occurs(rows, p))
  }

  predicate OfPair(r: KeyDid, pair: (Id, string)) {
    r.did == pair.0 && r.key == pair.1
  }

  /** The row after the updates for all pairs of the mapping that are not still to do. */
  ghost function Updated(r: KeyDid, mapping: map<(Id, string), string>, todo: set<(Id, string)>): KeyDid {
    if (r.did, r.key) in mapping && (r.did, r.key) !in todo then r.(reference := Some(mapping[(r.did, r.key)])) else r
  }

  lemma UpdatedStep(r: KeyDid, mapping: map<(Id, string), string>, todo: set<(Id, string)>, pair: (Id, string))
    requires pair in todo && pair in mapping
    ensures var u := Updated(r, mapping, todo);
            Updated(r, mapping, todo - {pair}) == if OfPair(u, pair) then u.(reference := Some(mapping[pair])) else u
  {
  }

  lemma UpdatedAtEnd(dids: map<Id, Did>, rows: seq<KeyDid>, mapping: map<(Id, string), string>, r: KeyDid)
    requires MappingOf(dids, rows, mapping) && r in rows
    ensures Referenced(dids, r, Updated(r, mapping, {}))
  {
    var i :| 0 <= i < |rows| && rows[i] == r;
  }

  class KeyDidTable {
    const dids: map<Id, Did>
    var rows: seq<KeyDid>

    /** The first phase reads only; it stops at the first key without a reference. */
    method BuildMapping() returns (ok: bool, mapping: map<(Id, string), string>)
      ensures ok <==> forall i | 0 <= i < |rows| :: Resolvable(dids, rows[i])
      ensures ok ==> MappingOf(dids, rows, mapping)
    {
      mapping := map[];
      for n := 0 to |rows|
        invariant forall i | 0 <= i < n :: Resolvable(dids, rows[i])
        invariant MappingOf(dids, rows[..n], mapping)
      {
        forall p
          ensures Occurs(rows[..n + 1], p) <==> Occurs(rows[..n], p) || (rows[n].did == p.0 && rows[n].key == p.1)
        {
          OccursMore(rows, n, p);
        }
        if rows[n].did in dids {
          ReferenceMeaning(dids[rows[n].did], rows[n].key);
          match Reference(dids[rows[n].did], rows[n].key) {
            case None =>
              return false, mapping;
            case Some(reference) =>
              mapping := mapping[(rows[n].did, rows[n].key) := reference];
          }
        }
      }
      assert rows[..|rows|] == rows;
      return true, mapping;
    }

    /** One update statement: all rows of the pair, whatever their role. */
    method SetReference(pair: (Id, string), reference: string)
      modifies this`rows
      ensures |rows| == |old(rows)|
      ensures forall i | 0 <= i < |rows| ::
                rows[i] == if OfPair(old(rows)[i], pair) then old(rows)[i].(reference := Some(reference)) else old(rows)[i]
    {
      var before := rows;
      rows := seq(|before|, i requires 0 <= i < |before| =>
        if OfPair(before[i], pair) then before[i].(reference := Some(reference)) else before[i]);
    }

    /** One update statement per pair, in any order. */
    method ApplyMapping(mapping: map<(Id, string), string>)
      modifies this`rows
      ensures |rows| == |old(rows)| && forall i | 0 <= i < |rows| :: rows[i] == Updated(old(rows)[i], mapping, {})
    {
      var todo := mapping.Keys;
      while todo != {}
        invariant todo <= mapping.Keys && |rows| == |old(rows)|
        invariant forall i | 0 <= i < |rows| :: rows[i] == Updated(old(rows)[i], mapping, todo)
        decreases |todo|
      {
        var pair :| pair in todo;
        SetReference(pair, mapping[pair]);
        forall i | 0 <= i < |rows|
          ensures rows[i] == Updated(old(rows)[i], mapping, todo - {pair})
        {
          UpdatedStep(old(rows)[i], mapping, todo, pair);
        }
        todo := todo - {pair};
      }
    }

    /** Either nothing changes, because some key has no reference, or every row of a known DID
        ends with the reference of its own DID and key, whatever order the updates run in. */
    method Up() returns (ok: bool)
      modifies this`rows
      ensures ok <==> forall i | 0 <= i < |old(rows)| :: Resolvable(dids, old(rows)[i])
      ensures !ok ==> rows == old(rows)
      ensures ok ==> |rows| == |old(rows)| && forall i | 0 <= i < |rows| :: Referenced(dids, old(rows)[i], rows[i])
    {
      var mapping;
      ok, mapping := BuildMapping();
      if ok {
        ApplyMapping(mapping);
        forall i | 0 <= i < |rows|
          ensures Referenced(dids, old(rows)[i], rows[i])
        {
          UpdatedAtEnd(dids, old(rows), mapping, old(rows)[i]);
        }
      }
    }
  }
}
