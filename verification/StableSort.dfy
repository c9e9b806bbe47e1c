/** A stable sort by key, as `slice::sort_by_key` is. */
module StableSort {
  import opened TextOrder

  /** Sort keys compare as tuples do. */
  type SortKey = (int, int, int)

  predicate KeyLess(a: SortKey, b: SortKey) {
    a.0 < b.0 || (a.0 == b.0 && (a.1 < b.1 || (a.1 == b.1 && a.2 < b.2)))
  }

  function InsertByKey(sorted: seq<Name>, x: Name, key: Name -> SortKey): seq<Name> {
    if sorted == [] || !KeyLess(key(x), key(sorted[|sorted| - 1])) then sorted + [x]
    else InsertByKey(sorted[..|sorted| - 1], x, key) + [sorted[|sorted| - 1]]
  }

  function SortByKey(s: seq<Name>, key: Name -> SortKey): seq<Name> {
    if s == [] then [] else InsertByKey(SortByKey(s[..|s| - 1], key), s[|s| - 1], key)
  }

  /** The position of `x`; the length when it is absent. */
  function Position(s: seq<Name>, x: Name): nat {
    if s == [] || s[0] == x then 0 else 1 + Position(s[1..], x)
  }

  lemma {:induction false} PositionOf(s: seq<Name>, k: nat)
    requires Distinct(s) && k < |s|
    ensures Position(s, s[k]) == k
  {
    if k > 0 {
      assert Distinct(s[1..]);
      assert s[k] == s[1..][k - 1];
      PositionOf(s[1..], k - 1);
    }
  }

  /** `a` goes before `b`: by key, and where the keys tie, as they came. */
  predicate StablyBefore(origin: seq<Name>, key: Name -> SortKey, a: Name, b: Name) {
    KeyLess(key(a), key(b)) || (!KeyLess(key(b), key(a)) && Position(origin, a) < Position(origin, b))
  }

  ghost predicate StablySorted(origin: seq<Name>, key: Name -> SortKey, s: seq<Name>) {
    forall i, j :: 0 <= i < j < |s| ==> StablyBefore(origin, key, s[i], s[j])
  }

  /** What is inserted before the last element leaves the last element last. */
  lemma LastStays(origin: seq<Name>, sorted: seq<Name>, x: Name, key: Name -> SortKey, inner: seq<Name>)
    requires sorted != [] && StablySorted(origin, key, sorted) && KeyLess(key(x), key(sorted[|sorted| - 1]))
    requires multiset(inner) == multiset(sorted[..|sorted| - 1]) + multiset{x}
    ensures forall i :: 0 <= i < |inner| ==> StablyBefore(origin, key, inner[i], sorted[|sorted| - 1])
  {
    hide Position;
    var n := |sorted| - 1;
    forall i | 0 <= i < |inner| ensures StablyBefore(origin, key, inner[i], sorted[n]) {
      assert inner[i] in multiset(inner);
      if inner[i] != x {
        var y :| 0 <= y < n && sorted[..n][y] == inner[i];
        assert StablyBefore(origin, key, sorted[y], sorted[n]);
      }
    }
  }

  lemma {:induction false} InsertStays(origin: seq<Name>, sorted: seq<Name>, x: Name, key: Name -> SortKey)
    requires StablySorted(origin, key, sorted)
    requires forall y :: y in sorted ==> Position(origin, y) < Position(origin, x)
    ensures var r := InsertByKey(sorted, x, key);
            StablySorted(origin, key, r) && multiset(r) == multiset(sorted) + multiset{x}
  {
    hide Position;
    var r := InsertByKey(sorted, x, key);
    if sorted == [] {
    } else {
      var n := |sorted| - 1;
      var last := sorted[n];
      assert sorted == sorted[..n] + [last];
      if KeyLess(key(x), key(last)) {
        var inner := InsertByKey(sorted[..n], x, key);
        InsertStays(origin, sorted[..n], x, key);
        LastStays(origin, sorted, x, key, inner);
        hide StablyBefore, InsertByKey;
      } else {
        forall i | 0 <= i < |sorted| ensures StablyBefore(origin, key, sorted[i], x) {
          assert i == n || StablyBefore(origin, key, sorted[i], sorted[n]);
        }
      }
    }
  }

  /** The sort permutes, orders by key, and keeps the input order where keys tie. */
  lemma {:induction false} SortIsStable(s: seq<Name>, key: Name -> SortKey)
    requires Distinct(s)
    ensures StablySorted(s, key, SortByKey(s, key)) && multiset(SortByKey(s, key)) == multiset(s)
  {
    SortPrefix(s, |s|, key);
    assert s[..|s|] == s;
  }

  lemma EarlierPositions(s: seq<Name>, n: nat, init: seq<Name>)
    requires Distinct(s) && n < |s| && multiset(init) == multiset(s[..n])
    ensures forall y :: y in init ==> Position(s, y) < Position(s, s[n])
  {
    forall y | y in init ensures Position(s, y) < Position(s, s[n]) {
      assert y in multiset(init);
      var k :| 0 <= k < n && s[..n][k] == y;
      PositionOf(s, k);
      PositionOf(s, n);
    }
  }

  lemma {:induction false} SortPrefix(s: seq<Name>, n: nat, key: Name -> SortKey)
    requires Distinct(s) && n <= |s|
    ensures var r := SortByKey(s[..n], key); StablySorted(s, key, r) && multiset(r) == multiset(s[..n])
  {
    hide StablySorted, InsertByKey, Position, Distinct;
    if n == 0 {
      NothingSorted(s, key);
    } else {
      SortPrefix(s, n - 1, key);
      var init := SortByKey(s[..n - 1], key);
      assert s[..n][..n - 1] == s[..n - 1] && s[..n] == s[..n - 1] + [s[n - 1]];
      EarlierPositions(s, n - 1, init);
      InsertStays(s, init, s[n - 1], key);
    }
  }

  lemma NothingSorted(s: seq<Name>, key: Name -> SortKey)
    ensures StablySorted(s, key, [])
  {
  }

  lemma {:induction false} SortAgrees(s: seq<Name>, f: Name -> SortKey, g: Name -> SortKey)
    requires forall x :: x in s ==> f(x) == g(x)
    ensures SortByKey(s, f) == SortByKey(s, g)
    ensures forall x :: x in SortByKey(s, f) ==> x in s
  {
    if s != [] {
      SortAgrees(s[..|s| - 1], f, g);
      InsertAgrees(SortByKey(s[..|s| - 1], f), s[|s| - 1], f, g);
    }
  }

  lemma {:induction false} InsertAgrees(sorted: seq<Name>, x: Name, f: Name -> SortKey, g: Name -> SortKey)
    requires f(x) == g(x) && forall y :: y in sorted ==> f(y) == g(y)
    ensures InsertByKey(sorted, x, f) == InsertByKey(sorted, x, g)
    ensures forall y :: y in InsertByKey(sorted, x, f) ==> y == x || y in sorted
  {
    if sorted != [] { InsertAgrees(sorted[..|sorted| - 1], x, f, g); }
  }

  lemma SortedDistinct(s: seq<Name>, r: seq<Name>)
    requires Distinct(s) && multiset(r) == multiset(s)
    ensures Distinct(r) && forall x :: x in r <==> x in s
  {
    forall x ensures x in r <==> x in s {
      assert x in multiset(r) <==> x in multiset(s);
    }
    forall i, j | 0 <= i < j < |r| ensures r[i] != r[j] {
      if r[i] == r[j] {
        TwiceCounts(r, i, j);
        OnceCounts(s, r[i]);
      }
    }
  }

  lemma TwiceCounts(r: seq<Name>, i: nat, j: nat)
    requires i < j < |r| && r[i] == r[j]
    ensures multiset(r)[r[i]] >= 2
  {
    assert r == r[..i] + [r[i]] + r[i + 1..j] + [r[j]] + r[j + 1..];
  }

  lemma {:induction false} OnceCounts(s: seq<Name>, x: Name)
    requires Distinct(s)
    ensures multiset(s)[x] <= 1
  {
    if s != [] {
      var n := |s| - 1;
      assert s == s[..n] + [s[n]];
      OnceCounts(s[..n], x);
      if s[n] == x { assert x !in s[..n]; }
    }
  }
}
