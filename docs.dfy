/** Stored documents and the query operations of the document store that the
    handlers use: findById / findOne (first match in natural order), find with
    a filter, countDocuments, sort on a numeric field, skip/limit, and the
    group-by-key-keep-first stage of an aggregation pipeline. A collection is
    a sequence of documents in insertion (natural) order. */
module Docs {
  import opened Wrappers

  /** A document identifier (an ObjectId), as its text. */
  type Id = string

  /** A stored document: its `_id`, its `createdAt` timestamp (every schema
      defaults it to `Date.now`) and the schema's other fields. */
  datatype Doc<T> = Doc(id: Id, createdAt: int, fields: T)

  /** A GeoJSON point as the schemas store it: `coordinates` is `[longitude, latitude]`. */
  datatype GeoPoint = GeoPoint(coordinates: seq<real>, address: Option<string>)

  /** The `location` field of a request body. */
  datatype LocationInput = LocationInput(latitude: real, longitude: real, address: Option<string>)

  /** The point a handler stores for a `{latitude, longitude, address}` request field. */
  function PointFor(latitude: real, longitude: real, address: Option<string>): (p: GeoPoint)
    ensures |p.coordinates| == 2
    ensures p.coordinates[0] == longitude && p.coordinates[1] == latitude
    ensures p.address == address
  {
    GeoPoint([longitude, latitude], address)
  }

  function CreatedAt<T>(d: Doc<T>): int {
    d.createdAt
  }

  function IdOf<T>(d: Doc<T>): Id {
    d.id
  }

  /** No document of `s` has this id: what the store guarantees of a newly generated ObjectId. */
  predicate Fresh<T>(s: seq<Doc<T>>, id: Id) {
    forall i :: 0 <= i < |s| ==> s[i].id != id
  }

  /** No two elements share a key: what a unique index guarantees. */
  ghost predicate UniqueBy<T, K>(s: seq<T>, key: T -> K) {
    forall i, j :: 0 <= i < j < |s| ==> key(s[i]) != key(s[j])
  }

  // ---------------------------------------------------------------------------
  // Lookups

  /** `findOne(query)`: the position of the first document the query matches. */
  function FindFirst<T>(s: seq<T>, p: T -> bool): (r: Option<nat>)
    ensures r.Some? ==> r.value < |s| && p(s[r.value])
    ensures r.Some? ==> forall j :: 0 <= j < r.value ==> !p(s[j])
    ensures r.None? <==> forall j :: 0 <= j < |s| ==> !p(s[j])
  {
    if s == [] then None
    else if p(s[0]) then Some(0)
    else match FindFirst(s[1..], p)
      case None => None
      case Some(k) => Some(k + 1)
  }

  /** Replacing the first match by another match keeps it the first match. */
  lemma FindFirstUpdate<T>(s: seq<T>, p: T -> bool, i: nat, x: T)
    requires FindFirst(s, p) == Some(i) && p(x)
    ensures FindFirst(s[i := x], p) == Some(i)
  {
    var t := s[i := x];
    assert p(t[i]);
    forall j | 0 <= j < i ensures !p(t[j]) {
      assert t[j] == s[j];
    }
  }

  function HasId<T>(id: Id): Doc<T> -> bool {
    (d: Doc<T>) => d.id == id
  }

  /** `findById(id)`: the position of the document with this id. */
  function Find<T>(s: seq<Doc<T>>, id: Id): (r: Option<nat>)
    ensures r.Some? ==> r.value < |s| && s[r.value].id == id
    ensures r.None? <==> Fresh(s, id)
  {
    FindFirst(s, HasId(id))
  }

  /** With unique ids, the position `Find` gives is the one holding that id. */
  lemma FindUnique<T>(s: seq<Doc<T>>, i: nat)
    requires UniqueBy(s, IdOf) && i < |s|
    ensures Find(s, s[i].id) == Some(i)
  {
  }

  // ---------------------------------------------------------------------------
  // Keeping a unique index through updates

  lemma UpdateKeepsUnique<T, K>(s: seq<T>, i: nat, x: T, key: T -> K)
    requires UniqueBy(s, key) && i < |s| && key(x) == key(s[i])
    ensures UniqueBy(s[i := x], key)
  {
    var t := s[i := x];
    forall a, b | 0 <= a < b < |t| ensures key(t[a]) != key(t[b]) {
      assert key(t[a]) == key(s[a]) && key(t[b]) == key(s[b]);
    }
  }

  /** Replacing an element by one whose key no other element has keeps the
      keys unique. */
  lemma UpdateToNewKeyKeepsUnique<T, K>(s: seq<T>, i: nat, x: T, key: T -> K)
    requires UniqueBy(s, key) && i < |s|
    requires forall j :: 0 <= j < |s| && j != i ==> key(s[j]) != key(x)
    ensures UniqueBy(s[i := x], key)
  {
    var t := s[i := x];
    forall a, b | 0 <= a < b < |t| ensures key(t[a]) != key(t[b]) {
      if a != i && b != i { assert key(t[a]) == key(s[a]) && key(t[b]) == key(s[b]); }
    }
  }

  lemma AppendKeepsUnique<T, K>(s: seq<T>, x: T, key: T -> K)
    requires UniqueBy(s, key)
    requires forall j :: 0 <= j < |s| ==> key(s[j]) != key(x)
    ensures UniqueBy(s + [x], key)
  {
  }

  lemma RemoveKeepsUnique<T, K>(s: seq<T>, i: nat, key: T -> K)
    requires UniqueBy(s, key) && i < |s|
    ensures UniqueBy(s[..i] + s[i + 1..], key)
  {
    var t := s[..i] + s[i + 1..];
    forall a, b | 0 <= a < b < |t| ensures key(t[a]) != key(t[b]) {
      var a' := if a < i then a else a + 1;
      var b' := if b < i then b else b + 1;
      assert t[a] == s[a'] && t[b] == s[b'];
    }
  }

  /** The documents of `s` except the one at position `i` (`findByIdAndDelete`). */
  function RemoveAt<T>(s: seq<T>, i: nat): (r: seq<T>)
    requires i < |s|
    ensures |r| == |s| - 1
    ensures forall j :: 0 <= j < i ==> r[j] == s[j]
    ensures forall j :: i <= j < |r| ==> r[j] == s[j + 1]
  {
    s[..i] + s[i + 1..]
  }

  // ---------------------------------------------------------------------------
  // Filters and counts

  /** `find(query)` without a sort: the matching documents in natural order. */
  function Filter<T>(s: seq<T>, p: T -> bool): (r: seq<T>)
    ensures |r| <= |s|
    ensures forall i :: 0 <= i < |r| ==> r[i] in s && p(r[i])
    ensures forall i :: 0 <= i < |s| && p(s[i]) ==> s[i] in r
  {
    if s == [] then []
    else (if p(s[0]) then [s[0]] else []) + Filter(s[1..], p)
  }

  /** `countDocuments(query)`. */
  function Count<T>(s: seq<T>, p: T -> bool): nat {
    |Filter(s, p)|
  }

  function Not<T>(p: T -> bool): T -> bool {
    (x: T) => !p(x)
  }

  /** Every document is counted by exactly one of a query and its negation. */
  lemma {:induction false} CountSplits<T>(s: seq<T>, p: T -> bool)
    ensures Count(s, p) + Count(s, Not(p)) == |s|
  {
    if s != [] {
      CountSplits(s[1..], p);
    }
  }

  /** A filter never reorders: what is descending before stays descending. */
  lemma {:induction false} FilterKeepsDescending<T>(s: seq<T>, p: T -> bool, key: T -> int)
    requires Descending(s, key)
    ensures Descending(Filter(s, p), key)
  {
    if s != [] {
      FilterKeepsDescending(s[1..], p, key);
      var rest := Filter(s[1..], p);
      forall y | y in rest ensures key(s[0]) >= key(y) {
        var j :| 1 <= j < |s| && s[j] == y;
      }
    }
  }

  // ---------------------------------------------------------------------------
  // Sorting on a numeric field, largest first (`.sort({ field: -1 })`)

  ghost predicate Descending<T>(s: seq<T>, key: T -> int) {
    forall i, j :: 0 <= i < j < |s| ==> key(s[i]) >= key(s[j])
  }

  ghost predicate Ascending<T>(s: seq<T>, key: T -> int) {
    forall i, j :: 0 <= i < j < |s| ==> key(s[i]) <= key(s[j])
  }

  function InsertDesc<T>(x: T, s: seq<T>, key: T -> int): (r: seq<T>)
    requires Descending(s, key)
    ensures Descending(r, key)
    ensures multiset(r) == multiset(s) + multiset{x}
  {
    if s == [] || key(x) >= key(s[0]) then [x] + s
    else
      var rest := InsertDesc(x, s[1..], key);
      assert s == [s[0]] + s[1..];
      InsertDescHead(x, s, rest, key);
      [s[0]] + rest
  }

  lemma InsertDescHead<T>(x: T, s: seq<T>, rest: seq<T>, key: T -> int)
    requires s != [] && Descending(s, key) && key(x) < key(s[0])
    requires Descending(rest, key)
    requires multiset(rest) == multiset(s[1..]) + multiset{x}
    ensures Descending([s[0]] + rest, key)
  {
    forall k | 0 <= k < |rest| ensures key(s[0]) >= key(rest[k]) {
      assert rest[k] in multiset(rest);
      if rest[k] != x {
        assert rest[k] in multiset(s[1..]);
        var j :| 0 <= j < |s[1..]| && s[1..][j] == rest[k];
        assert s[j + 1] == rest[k];
      }
    }
    var r := [s[0]] + rest;
    forall i, j | 0 <= i < j < |r| ensures key(r[i]) >= key(r[j]) {
      if i == 0 { assert r[j] == rest[j - 1]; } else { assert r[i] == rest[i - 1] && r[j] == rest[j - 1]; }
    }
  }

  /** The documents largest key first; documents with equal keys keep their
      natural order. */
  function SortDesc<T>(s: seq<T>, key: T -> int): (r: seq<T>)
    ensures Descending(r, key)
    ensures multiset(r) == multiset(s)
  {
    if s == [] then []
    else
      assert s == [s[0]] + s[1..];
      InsertDesc(s[0], SortDesc(s[1..], key), key)
  }

  lemma SortDescMembers<T>(s: seq<T>, key: T -> int)
    ensures forall x :: x in SortDesc(s, key) <==> x in s
    ensures |SortDesc(s, key)| == |s|
  {
    var r := SortDesc(s, key);
    assert |r| == |multiset(r)| == |multiset(s)| == |s|;
    forall x ensures x in r <==> x in s {
      assert x in r <==> x in multiset(r);
      assert x in s <==> x in multiset(s);
    }
  }

  /** Sorting what is already sorted changes nothing. */
  lemma {:induction false} SortDescOfDescending<T>(s: seq<T>, key: T -> int)
    requires Descending(s, key)
    ensures SortDesc(s, key) == s
  {
    if s != [] {
      SortDescOfDescending(s[1..], key);
    }
  }

  // ---------------------------------------------------------------------------
  // skip / limit

  function Min(a: int, b: int): int {
    if a <= b then a else b
  }

  /** How many documents `limit(n)` lets through: all for 0, |n| otherwise. */
  function LimitCount(len: nat, limit: int): (k: nat)
    ensures k <= len
    ensures limit != 0 ==> k <= (if limit < 0 then -limit else limit)
    ensures limit == 0 ==> k == len
  {
    if limit == 0 then len else Min(len, if limit < 0 then -limit else limit)
  }

  /** The skip `(page - 1) * limit` of a page from the first on. */
  lemma SkipNonNegative(page: int, limit: int)
    requires page >= 1 && limit >= 0
    ensures (page - 1) * limit >= 0
  {
    assert (page - 1) * limit == page * limit - limit;
    assert page * limit >= 1 * limit;
  }

  /** `cursor.skip(skip).limit(limit)`. */
  function Page<T>(s: seq<T>, skip: nat, limit: int): (r: seq<T>)
    ensures skip >= |s| ==> r == []
    ensures skip < |s| ==> |r| == LimitCount(|s| - skip, limit)
    ensures forall i :: 0 <= i < |r| ==> skip + i < |s| && r[i] == s[skip + i]
  {
    if skip >= |s| then [] else s[skip..skip + LimitCount(|s| - skip, limit)]
  }

  /** `.sort({ key: -1 }).limit(k)` for a positive `k`: the first `k` documents
      of the sorted result. */
  function Newest<T>(s: seq<T>, key: T -> int, k: nat): (r: seq<T>)
    ensures |r| == Min(k, |s|)
    ensures Descending(r, key)
    ensures forall i :: 0 <= i < |r| ==> r[i] in s
  {
    var sorted := SortDesc(s, key);
    PrefixOfSorted(s, key, Min(k, |s|));
    sorted[..Min(k, |s|)]
  }

  lemma PrefixDescending<T>(t: seq<T>, key: T -> int, n: nat)
    requires n <= |t| && Descending(t, key)
    ensures Descending(t[..n], key)
  {
    var r := t[..n];
    forall i, j | 0 <= i < j < |r| ensures key(r[i]) >= key(r[j]) {
      assert r[i] == t[i] && r[j] == t[j];
    }
  }

  lemma PrefixOfSorted<T>(s: seq<T>, key: T -> int, n: nat)
    requires n <= |s|
    ensures |SortDesc(s, key)| == |s|
    ensures Descending(SortDesc(s, key)[..n], key)
    ensures forall i :: 0 <= i < n ==> SortDesc(s, key)[i] in s
  {
    var sorted := SortDesc(s, key);
    assert |sorted| == |multiset(sorted)| == |multiset(s)| == |s|;
    PrefixDescending(sorted, key, n);
    forall i | 0 <= i < n ensures sorted[i] in s {
      assert sorted[i] in multiset(sorted);
    }
  }

  /** What `Newest` leaves out is no newer than anything it keeps. */
  lemma NewestAreNewest<T>(s: seq<T>, key: T -> int, k: nat, x: T)
    requires x in s && x !in Newest(s, key, k)
    ensures |Newest(s, key, k)| == k
    ensures forall i :: 0 <= i < |Newest(s, key, k)| ==> key(Newest(s, key, k)[i]) >= key(x)
  {
    var sorted := SortDesc(s, key);
    SortDescMembers(s, key);
    var r := Newest(s, key, k);
    assert r == sorted[..Min(k, |s|)];
    var j :| 0 <= j < |sorted| && sorted[j] == x;
    assert j >= |r|;
    forall i | 0 <= i < |r| ensures key(r[i]) >= key(x) {
      assert r[i] == sorted[i];
    }
  }

  /** `.reverse()`. */
  function Reverse<T>(s: seq<T>): (r: seq<T>)
    ensures |r| == |s|
    ensures forall i :: 0 <= i < |s| ==> r[i] == s[|s| - 1 - i]
  {
    if s == [] then [] else Reverse(s[1..]) + [s[0]]
  }

  /** Reversing a newest-first list gives an oldest-first list. */
  lemma ReverseOfDescending<T>(s: seq<T>, key: T -> int)
    requires Descending(s, key)
    ensures Ascending(Reverse(s), key)
  {
    var r := Reverse(s);
    forall i, j | 0 <= i < j < |r| ensures key(r[i]) <= key(r[j]) {
      assert r[i] == s[|s| - 1 - i] && r[j] == s[|s| - 1 - j];
    }
  }

  // ---------------------------------------------------------------------------
  // $group by a key, keeping the first document of each group ($first)

  function KeyOtherThan<T, K(==)>(key: T -> K, k: K): T -> bool {
    (x: T) => key(x) != k
  }

  /** One document per key: the first of each group, groups in order of first appearance. */
  function FirstPerKey<T, K(==)>(s: seq<T>, key: T -> K): (r: seq<T>)
    ensures |r| <= |s|
    ensures forall i :: 0 <= i < |r| ==> r[i] in s
    decreases |s|
  {
    if s == [] then []
    else [s[0]] + FirstPerKey(Filter(s[1..], KeyOtherThan(key, key(s[0]))), key)
  }

  /** The groups have distinct keys. */
  lemma {:induction false} FirstPerKeyDistinct<T, K>(s: seq<T>, key: T -> K)
    ensures UniqueBy(FirstPerKey(s, key), key)
    decreases |s|
  {
    if s != [] {
      var rest := Filter(s[1..], KeyOtherThan(key, key(s[0])));
      FirstPerKeyDistinct(rest, key);
      var g := FirstPerKey(rest, key);
      forall y | y in g ensures key(y) != key(s[0]) {
        assert y in rest;
      }
      var r := FirstPerKey(s, key);
      assert r == [s[0]] + g;
      forall i, j | 0 <= i < j < |r| ensures key(r[i]) != key(r[j]) {
        if i == 0 { assert r[j] == g[j - 1]; assert g[j - 1] in g; }
        else { assert r[i] == g[i - 1] && r[j] == g[j - 1]; }
      }
    }
  }

  /** Every key of the input has a group. */
  lemma {:induction false} FirstPerKeyCovers<T, K>(s: seq<T>, key: T -> K, x: T)
    requires x in s
    ensures exists y :: y in FirstPerKey(s, key) && key(y) == key(x)
    decreases |s|
  {
    var r := FirstPerKey(s, key);
    if key(x) == key(s[0]) {
      assert r[0] == s[0];
    } else {
      var rest := Filter(s[1..], KeyOtherThan(key, key(s[0])));
      assert x in rest;
      FirstPerKeyCovers(rest, key, x);
      var y :| y in FirstPerKey(rest, key) && key(y) == key(x);
      assert y in r;
    }
  }

  /** The first element of a descending sequence is at least every element of its tail. */
  lemma HeadDominates<T>(s: seq<T>, order: T -> int, y: T)
    requires s != [] && Descending(s, order) && y in s
    ensures order(s[0]) >= order(y)
  {
    var j :| 0 <= j < |s| && s[j] == y;
    if j > 0 { assert order(s[0]) >= order(s[j]); }
  }

  lemma ConsDescending<T>(x: T, g: seq<T>, order: T -> int)
    requires Descending(g, order)
    requires forall k :: 0 <= k < |g| ==> order(x) >= order(g[k])
    ensures Descending([x] + g, order)
  {
    var r := [x] + g;
    forall i, j | 0 <= i < j < |r| ensures order(r[i]) >= order(r[j]) {
      if i == 0 { assert r[j] == g[j - 1]; } else { assert r[i] == g[i - 1] && r[j] == g[j - 1]; }
    }
  }

  /** On an input sorted largest-first, the groups come out largest-first. */
  lemma {:induction false} FirstPerKeyDescending<T, K>(s: seq<T>, key: T -> K, order: T -> int)
    requires Descending(s, order)
    ensures Descending(FirstPerKey(s, key), order)
    decreases |s|
  {
    if s != [] {
      var rest := Filter(s[1..], KeyOtherThan(key, key(s[0])));
      FilterKeepsDescending(s[1..], KeyOtherThan(key, key(s[0])), order);
      FirstPerKeyDescending(rest, key, order);
      var g := FirstPerKey(rest, key);
      var r := FirstPerKey(s, key);
      assert r == [s[0]] + g;
      forall k | 0 <= k < |g| ensures order(s[0]) >= order(g[k]) {
        HeadDominates(s, order, g[k]);
      }
      ConsDescending(s[0], g, order);
    }
  }

  /** On an input sorted largest-first, each group's document has the largest
      sort key of its group (what `$first` after a descending `$sort` picks). */
  lemma {:induction false} FirstPerKeyIsLargest<T, K>(s: seq<T>, key: T -> K, order: T -> int, y: T, x: T)
    requires Descending(s, order)
    requires y in FirstPerKey(s, key) && x in s && key(x) == key(y)
    ensures order(y) >= order(x)
    decreases |s|
  {
    var rest := Filter(s[1..], KeyOtherThan(key, key(s[0])));
    var g := FirstPerKey(rest, key);
    assert FirstPerKey(s, key) == [s[0]] + g;
    var jx :| 0 <= jx < |s| && s[jx] == x;
    if y == s[0] {
      assert order(s[0]) >= order(s[jx]) || jx == 0;
    } else {
      assert y in g;
      var ky :| 0 <= ky < |g| && g[ky] == y;
      assert y in rest;
      assert key(y) != key(s[0]);
      assert jx != 0;
      assert x in rest;
      FilterKeepsDescending(s[1..], KeyOtherThan(key, key(s[0])), order);
      FirstPerKeyIsLargest(rest, key, order, y, x);
    }
  }
}
