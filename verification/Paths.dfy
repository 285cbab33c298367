/** Slash-separated claim paths.

    The tables store a path as one string.  The migrations take it apart with
    `rsplit_once('/')`, compare paths with a plain string `starts_with`, and rely on
    `ORDER BY` putting a parent before (or after) its children.  This module says what
    those three string operations mean for the components of a path. */
module Paths {
  import opened Wrappers

  /** `str::rsplit_once('/')`: the text before and after the last slash. */
  function RSplitOnce(s: string): (r: Option<(string, string)>)
    ensures r.None? ==> '/' !in s
    ensures r.Some? ==> s == r.value.0 + "/" + r.value.1 && '/' !in r.value.1
  {
    if s == "" then None
    else
      var last := |s| - 1;
      if s[last] == '/' then Some((s[..last], ""))
      else
        match RSplitOnce(s[..last])
        case None => None
        case Some(pair) => Some((pair.0, pair.1 + [s[last]]))
  }

  /** The components of a path, root first.  Every string is a path: a string without a
      slash has one component. */
  ghost function Components(s: string): (cs: seq<string>)
    ensures IsPath(cs)
    decreases |s|
  {
    match RSplitOnce(s)
    case None => [s]
    case Some(pair) => Components(pair.0) + [pair.1]
  }

  ghost predicate IsPath(cs: seq<string>) {
    cs != [] && forall i | 0 <= i < |cs| :: '/' !in cs[i]
  }

  ghost function Join(cs: seq<string>): string
    requires cs != []
  {
    if |cs| == 1 then cs[0] else Join(cs[..|cs| - 1]) + "/" + cs[|cs| - 1]
  }

  /** The list without its last element: the parent of a path. */
  ghost function Parent<T>(cs: seq<T>): seq<T>
    requires cs != []
  {
    cs[..|cs| - 1]
  }

  ghost function Last<T>(cs: seq<T>): T
    requires cs != []
  {
    cs[|cs| - 1]
  }

  // ----- Components and Join are inverse to each other

  lemma {:induction false} SplitIsUnique(a: string, b: string)
    requires '/' !in b
    ensures RSplitOnce(a + "/" + b) == Some((a, b))
  {
    var s := a + "/" + b;
    if b == "" {
      assert s[..|s| - 1] == a;
    } else {
      var b' := b[..|b| - 1];
      assert s[..|s| - 1] == a + "/" + b';
      SplitIsUnique(a, b');
      assert b == b' + [b[|b| - 1]];
    }
  }

  lemma NoSlashNoSplit(s: string)
    requires '/' !in s
    ensures RSplitOnce(s) == None
  {
  }

  lemma {:induction false} JoinComponents(s: string)
    ensures Join(Components(s)) == s
    decreases |s|
  {
    var r := RSplitOnce(s);
    if r.Some? {
      JoinComponents(r.value.0);
      assert Parent(Components(s)) == Components(r.value.0);
    }
  }

  lemma {:induction false} ComponentsJoin(cs: seq<string>)
    requires IsPath(cs)
    ensures Components(Join(cs)) == cs
  {
    if |cs| == 1 {
      NoSlashNoSplit(cs[0]);
    } else {
      ComponentsJoin(Parent(cs));
      SplitIsUnique(Join(Parent(cs)), Last(cs));
      assert cs == Parent(cs) + [Last(cs)];
    }
  }

  lemma ComponentsInjective(s: string, t: string)
    requires Components(s) == Components(t)
    ensures s == t
  {
    JoinComponents(s);
    JoinComponents(t);
  }

  /** `rsplit_once('/')` drops the last component, and fails exactly on one-component paths. */
  lemma SplitDropsLast(s: string)
    ensures RSplitOnce(s).None? <==> |Components(s)| == 1
    ensures RSplitOnce(s).Some? ==>
              && Components(RSplitOnce(s).value.0) == Parent(Components(s))
              && RSplitOnce(s).value.1 == Last(Components(s))
  {
    var r := RSplitOnce(s);
    if r.Some? {
      assert Components(s) == Components(r.value.0) + [r.value.1];
      assert Parent(Components(s)) == Components(r.value.0);
    }
  }

  // ----- What `starts_with` means

  /** Components of the sum of two texts, from the components of each. */
  ghost function Appended(a: seq<string>, c: seq<string>): seq<string>
    requires a != [] && c != []
  {
    Parent(a) + [Last(a) + c[0]] + c[1..]
  }

  lemma ComponentsOfSplit(a: string, b: string)
    requires '/' !in b
    ensures Components(a + "/" + b) == Components(a) + [b]
  {
    SplitIsUnique(a, b);
  }

  lemma AppendedToLast(up: seq<string>, last: string, r: string)
    ensures Appended(up + [last], [r]) == up + [last + r]
  {
    assert Parent(up + [last]) == up;
  }

  lemma AppendWithoutSlash(q: string, r: string)
    requires '/' !in r
    ensures Components(q + r) == Appended(Components(q), [r])
  {
    match RSplitOnce(q)
    case None =>
      NoSlashNoSplit(q + r);
      AppendedToLast([], q, r);
      assert [] + [q] == [q] && [] + [q + r] == [q + r];
    case Some(pair) =>
      AppendAfterSlash(pair.0, pair.1, r);
  }

  lemma AppendAfterSlash(up: string, last: string, r: string)
    requires '/' !in last && '/' !in r
    ensures Components(up + "/" + last + r) == Appended(Components(up + "/" + last), [r])
  {
    assert up + "/" + last + r == up + "/" + (last + r);
    ComponentsOfSplit(up, last + r);
    ComponentsOfSplit(up, last);
    AppendedToLast(Components(up), last, r);
  }

  lemma AppendedOneMore(a: seq<string>, c: seq<string>, last: string)
    requires a != [] && c != []
    ensures Appended(a, c + [last]) == Appended(a, c) + [last]
  {
    assert (c + [last])[1..] == c[1..] + [last];
  }

  /** Appending text to a path lengthens its last component and adds the components after
      each further slash. */
  lemma {:induction false} ComponentsOfAppend(q: string, r: string)
    ensures Components(q + r) == Appended(Components(q), Components(r))
    decreases |r|
  {
    match RSplitOnce(r)
    case None =>
      AppendWithoutSlash(q, r);
    case Some(pair) =>
      ComponentsOfAppend(q, pair.0);
      assert q + r == (q + pair.0) + "/" + pair.1;
      ComponentsOfSplit(q + pair.0, pair.1);
      AppendedOneMore(Components(q), Components(pair.0), pair.1);
  }

  /** `p` extends `q` textually: all but the last component of `q` are components of `p`, and
      the last is a textual prefix of the component of `p` in that place. */
  ghost predicate TextPrefix(a: seq<string>, b: seq<string>)
    requires a != []
  {
    |a| <= |b| && Parent(a) == b[..|a| - 1] && Last(a) <= b[|a| - 1]
  }

  lemma AppendedIsTextPrefix(a: seq<string>, c: seq<string>)
    requires a != [] && c != []
    ensures TextPrefix(a, Appended(a, c))
  {
    assert Appended(a, c)[..|a| - 1] == Parent(a);
    assert Appended(a, c)[|a| - 1] == Last(a) + c[0];
  }

  lemma StartsWithIsTextPrefix(q: string, p: string)
    requires q <= p
    ensures TextPrefix(Components(q), Components(p))
  {
    assert p == q + p[|q|..];
    ComponentsOfAppend(q, p[|q|..]);
    AppendedIsTextPrefix(Components(q), Components(p[|q|..]));
  }

  /** What a textual prefix leaves over: the rest of the cut component, then the others. */
  ghost function Rest(a: seq<string>, b: seq<string>): seq<string>
    requires a != [] && TextPrefix(a, b)
  {
    [b[|a| - 1][|Last(a)|..]] + b[|a|..]
  }

  lemma RestIsPath(a: seq<string>, b: seq<string>)
    requires a != [] && TextPrefix(a, b) && IsPath(b)
    ensures IsPath(Rest(a, b))
  {
    var rest := Rest(a, b);
    forall i | 0 <= i < |rest|
      ensures '/' !in rest[i]
    {
      if i == 0 {
        assert '/' !in b[|a| - 1];
      } else {
        assert rest[i] == b[|a| + i - 1];
      }
    }
  }

  lemma RestCompletes(a: seq<string>, b: seq<string>)
    requires a != [] && TextPrefix(a, b)
    ensures Appended(a, Rest(a, b)) == b
  {
    var c := Rest(a, b);
    assert Last(a) + c[0] == b[|a| - 1];
    assert b == b[..|a| - 1] + [b[|a| - 1]] + b[|a|..];
  }

  lemma TextPrefixIsStartsWith(q: string, p: string)
    requires TextPrefix(Components(q), Components(p))
    ensures q <= p
  {
    var a, b := Components(q), Components(p);
    RestIsPath(a, b);
    RestCompletes(a, b);
    var tail := Rest(a, b);
    ComponentsJoin(tail);
    ComponentsOfAppend(q, Join(tail));
    ComponentsInjective(q + Join(tail), p);
  }

  /** A string prefix test on paths holds exactly for `TextPrefix` paths. */
  lemma StartsWithMeaning(q: string, p: string)
    ensures q <= p <==> TextPrefix(Components(q), Components(p))
  {
    if q <= p {
      StartsWithIsTextPrefix(q, p);
    } else if TextPrefix(Components(q), Components(p)) {
      TextPrefixIsStartsWith(q, p);
    }
  }

  /** A path starts with each of its ancestors. */
  lemma AncestorStartsWith(q: string, p: string)
    requires Components(q) <= Components(p)
    ensures q <= p
  {
    StartsWithMeaning(q, p);
  }

  // ----- ORDER BY on strings

  /** Lexicographic order by character code. */
  predicate AtMost(s: string, t: string) {
    s == "" || (t != "" && (s[0] < t[0] || (s[0] == t[0] && AtMost(s[1..], t[1..]))))
  }

  lemma {:induction false} AtMostTotal(s: string, t: string)
    ensures AtMost(s, t) || AtMost(t, s)
  {
    if s != "" && t != "" && s[0] == t[0] {
      AtMostTotal(s[1..], t[1..]);
    }
  }

  lemma {:induction false} AtMostTransitive(s: string, t: string, u: string)
    requires AtMost(s, t) && AtMost(t, u)
    ensures AtMost(s, u)
  {
    if s != "" && s[0] == t[0] == u[0] {
      AtMostTransitive(s[1..], t[1..], u[1..]);
    }
  }

  lemma {:induction false} AtMostAntisymmetric(s: string, t: string)
    requires AtMost(s, t) && AtMost(t, s)
    ensures s == t
  {
    if s != "" {
      AtMostAntisymmetric(s[1..], t[1..]);
      assert s == [s[0]] + s[1..] && t == [t[0]] + t[1..];
    }
  }

  /** The smaller character at the first difference decides. */
  lemma {:induction false} FirstDifferenceDecides(s: string, t: string, i: nat)
    requires i < |s| && i < |t| && s[..i] == t[..i] && s[i] < t[i]
    ensures AtMost(s, t) && !AtMost(t, s)
  {
    if i > 0 {
      assert s[0] == s[..i][0] == t[..i][0] == t[0];
      assert s[1..][..i - 1] == s[..i][1..] && t[1..][..i - 1] == t[..i][1..];
      FirstDifferenceDecides(s[1..], t[1..], i - 1);
    }
  }

  lemma {:induction false} PrefixAtMost(s: string, t: string)
    requires s <= t
    ensures AtMost(s, t)
  {
    if s != "" {
      PrefixAtMost(s[1..], t[1..]);
    }
  }

  /** Row `i` comes no later than row `j` in an ascending result. */
  ghost predicate Ascending(keys: seq<string>) {
    forall i, j | 0 <= i < j < |keys| :: AtMost(keys[i], keys[j])
  }

  /** In an ascending result a path comes before every path that extends it. */
  lemma PrefixComesFirst(keys: seq<string>, i: nat, j: nat)
    requires Ascending(keys)
    requires i < |keys| && j < |keys| && keys[i] < keys[j]
    ensures i < j
  {
    if j < i {
      PrefixAtMost(keys[i], keys[j]);
      AtMostAntisymmetric(keys[i], keys[j]);
    }
  }

  /** `key LIKE 'parent/%' AND NOT key LIKE 'parent/%/%'`. */
  predicate DirectChildKey(key: string, parent: string) {
    parent + "/" <= key && '/' !in key[|parent| + 1..]
  }

  /** The two patterns select the keys with exactly one more component. */
  lemma DirectChildMeaning(key: string, parent: string)
    ensures DirectChildKey(key, parent) <==>
              |Components(key)| > 1 && Parent(Components(key)) == Components(parent)
  {
    SplitDropsLast(key);
    if DirectChildKey(key, parent) {
      var rest := key[|parent| + 1..];
      assert key == parent + "/" + rest;
      SplitIsUnique(parent, rest);
    } else if |Components(key)| > 1 && Parent(Components(key)) == Components(parent) {
      ComponentsInjective(RSplitOnce(key).value.0, parent);
    }
  }

  ghost predicate Distinct<T>(xs: seq<T>) {
    forall i, j | 0 <= i < j < |xs| :: xs[i] != xs[j]
  }

  ghost function Keys<T>(rows: seq<T>, key: T -> string): seq<string> {
    seq(|rows|, i requires 0 <= i < |rows| => key(rows[i]))
  }

  /** `ORDER BY key ASC`: the same rows, as often each, in ascending order of their keys. */
  method OrderBy<T>(rows: seq<T>, key: T -> string) returns (sorted: seq<T>)
    ensures multiset(sorted) == multiset(rows)
    ensures forall x :: x in sorted <==> x in rows
    ensures Distinct(rows) ==> Distinct(sorted)
    ensures Ascending(Keys(sorted, key))
  {
    sorted := [];
    for n := 0 to |rows|
      invariant SameRows(rows[..n], sorted)
      invariant Ascending(Keys(sorted, key))
    {
      var row, i := rows[n], 0;
      while i < |sorted| && AtMost(key(sorted[i]), key(row))
        invariant 0 <= i <= |sorted|
        invariant forall j | 0 <= j < i :: AtMost(key(sorted[j]), key(row))
      {
        i := i + 1;
      }
      InsertKeepsOrder(sorted, key, row, i);
      InsertKeepsRows(rows[..n], sorted, row, i);
      assert rows[..n + 1] == rows[..n] + [row];
      sorted := sorted[..i] + [row] + sorted[i..];
    }
    assert rows[..|rows|] == rows;
    assert forall x :: x in sorted <==> x in multiset(sorted);
  }

  ghost predicate SameRows<T>(rows: seq<T>, sorted: seq<T>) {
    multiset(sorted) == multiset(rows) && (Distinct(rows) ==> Distinct(sorted))
  }

  lemma InsertKeepsRows<T>(rows: seq<T>, sorted: seq<T>, row: T, i: nat)
    requires SameRows(rows, sorted) && i <= |sorted|
    ensures SameRows(rows + [row], sorted[..i] + [row] + sorted[i..])
  {
    assert sorted == sorted[..i] + sorted[i..];
    if Distinct(rows + [row]) {
      DistinctParts(rows, row);
      assert row !in multiset(rows);
      InsertKeepsDistinct(sorted, row, i);
    }
  }

  lemma DistinctParts<T>(rows: seq<T>, row: T)
    requires Distinct(rows + [row])
    ensures Distinct(rows) && row !in rows
  {
    var all := rows + [row];
    assert all[|rows|] == row;
    forall i, j | 0 <= i < j < |rows|
      ensures rows[i] != rows[j]
    {
      assert all[i] == rows[i] && all[j] == rows[j];
    }
    forall i | 0 <= i < |rows|
      ensures rows[i] != row
    {
      assert all[i] == rows[i];
    }
  }

  lemma InsertKeepsDistinct<T>(sorted: seq<T>, row: T, i: nat)
    requires Distinct(sorted) && row !in sorted && i <= |sorted|
    ensures Distinct(sorted[..i] + [row] + sorted[i..])
  {
  }

  lemma InsertKeepsOrder<T>(sorted: seq<T>, key: T -> string, row: T, i: nat)
    requires Ascending(Keys(sorted, key)) && i <= |sorted|
    requires forall j | 0 <= j < i :: AtMost(key(sorted[j]), key(row))
    requires i < |sorted| ==> !AtMost(key(sorted[i]), key(row))
    ensures Ascending(Keys(sorted[..i] + [row] + sorted[i..], key))
  {
    var ks, grown := Keys(sorted, key), Keys(sorted[..i] + [row] + sorted[i..], key);
    forall j | i <= j < |sorted|
      ensures AtMost(key(row), ks[j])
    {
      AtMostTotal(ks[i], key(row));
      if i < j {
        AtMostTransitive(key(row), ks[i], ks[j]);
      }
    }
    assert grown == ks[..i] + [key(row)] + ks[i..];
  }
}
